/** Mig2Fetch keeps words and addresses together, through any stalls, redirects, halts and late
  * answers.
  */
module Mig2FetchProofs {
  import opened Isa
  import opened Parts
  import opened Mig2
  import opened Mig2System

  // Control never redirects and stalls fetch in the same clock.
  predicate LegalCtrl(k: FetchCtrl) { !(k.redirect && k.stall) }

  function NextFetchEnv(f: FetchState, k: FetchCtrl, i: Inputs, e: Env): Env {
    var taken := ImemTaken(f, k, i);
    e.(iBusy := taken || (e.iBusy && !i.iValid), iAddr := if taken then f.pc else e.iAddr)
  }

  predicate LegalAnswer(code: Code, e: Env, i: Inputs) {
    i.iValid ==> e.iBusy && i.iData == code(e.iAddr)
  }

  lemma FetchKeepsInv(code: Code, f: FetchState, k: FetchCtrl, i: Inputs, e: Env)
    requires FetchInv(code, f, e) && LegalCtrl(k) && LegalAnswer(code, e, i)
    ensures FetchInv(code, NextFetch(f, k, i), NextFetchEnv(f, k, i, e))
  {
  }

  // The request imem takes enters IF/ID at the same edge.
  lemma TakenEntersIfId(code: Code, f: FetchState, k: FetchCtrl, i: Inputs, e: Env)
    requires FetchInv(code, f, e) && LegalAnswer(code, e, i) && ImemTaken(f, k, i)
    ensures !IdKeep(f, k, i)
  {
  }

  // A valid instruction in ID is the instruction at its address.
  lemma IdInsnExact(code: Code, f: FetchState, i: Inputs, e: Env)
    requires FetchInv(code, f, e) && LegalAnswer(code, e, i) && IdFetch(f, i).valid
    ensures IdInsn(f, i) == code(IdFetch(f, i).pc)
  {
  }

  // A stalled instruction stays in ID with its word.
  lemma StallHolds(code: Code, f: FetchState, k: FetchCtrl, i: Inputs, e: Env, i': Inputs)
    requires FetchInv(code, f, e) && LegalCtrl(k) && LegalAnswer(code, e, i)
    requires k.stall && IdFetch(f, i).valid
    requires LegalAnswer(code, NextFetchEnv(f, k, i, e), i')
    ensures IdFetch(NextFetch(f, k, i), i') == IdFetch(f, i)
    ensures IdInsn(NextFetch(f, k, i), i') == IdInsn(f, i)
  {
    FetchKeepsInv(code, f, k, i, e);
    IdInsnExact(code, f, i, e);
    IdInsnExact(code, NextFetch(f, k, i), i', NextFetchEnv(f, k, i, e));
  }
}
