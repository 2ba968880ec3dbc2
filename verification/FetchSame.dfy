/** On an instruction memory that is always ready and answers after one clock, and with a branch target
  * buffer that never hits, Mig2Fetch is Mig1Fetch, clock for clock.
  */
module FetchSame {
  import opened Isa
  import opened Parts
  import opened Mig2FetchProofs
  import Mig1
  import Mig2
  import S2 = Mig2System

  // Mig1Fetch with the output of its memory.
  datatype Simple = Simple(pc: Addr, slot: Fetch, insn: Insn)

  function NextSimple(code: Code, f: Simple, k: FetchCtrl): Simple {
    Simple(Mig1.NextFetchPc(f.pc, k), Mig1.NextSlot(f.pc, f.slot, k),
           if Mig1.ImemEnable(k) then code(f.pc) else f.insn)
  }

  // Mig2Fetch with the request its memory works on.
  datatype Full = Full(fetch: Mig2.FetchState, env: S2.Env)

  function NextFull(f: Full, k: FetchCtrl, i: Mig2.Inputs): Full {
    Full(Mig2.NextFetch(f.fetch, k, i), NextFetchEnv(f.fetch, k, i, f.env))
  }

  predicate Ideal(code: Code, e: S2.Env, i: Mig2.Inputs) {
    i.iReady && i.iValid == e.iBusy && (i.iValid ==> i.iData == code(e.iAddr)) && !i.btb.hit && !i.btb.taken
  }

  function RunSimple(code: Code, f: Simple, ks: seq<FetchCtrl>): Simple {
    if ks == [] then f else NextSimple(code, RunSimple(code, f, ks[..|ks| - 1]), ks[|ks| - 1])
  }

  function RunFull(f: Full, ks: seq<FetchCtrl>, ins: seq<Mig2.Inputs>): Full
    requires |ks| == |ins|
  {
    if ks == [] then f
    else NextFull(RunFull(f, ks[..|ks| - 1], ins[..|ks| - 1]), ks[|ks| - 1], ins[|ks| - 1])
  }

  predicate IdealRun(code: Code, f: Full, ks: seq<FetchCtrl>, ins: seq<Mig2.Inputs>)
    requires |ks| == |ins|
  {
    ks == [] ||
    (IdealRun(code, f, ks[..|ks| - 1], ins[..|ks| - 1])
     && LegalCtrl(ks[|ks| - 1])
     && Ideal(code, RunFull(f, ks[..|ks| - 1], ins[..|ks| - 1]).env, ins[|ks| - 1]))
  }

  predicate Match(code: Code, f: Simple, g: Full) {
    && S2.FetchInv(code, g.fetch, g.env)
    && f.pc == g.fetch.pc && f.slot == g.fetch.slot
    && (f.slot.valid ==> f.insn == code(f.slot.pc))
  }

  lemma ClockMatches(code: Code, f: Simple, g: Full, k: FetchCtrl, i: Mig2.Inputs)
    requires Match(code, f, g) && LegalCtrl(k) && Ideal(code, g.env, i)
    ensures Match(code, NextSimple(code, f, k), NextFull(g, k, i))
  {
    FetchKeepsInv(code, g.fetch, k, i, g.env);
  }

  /** For every legal sequence of stalls, redirects and halts both show ID the same: valid, address,
    * reason of a bubble, and the instruction when there is one; and both ask for the same address.
    */
  lemma {:induction false} FetchesSame(code: Code, f: Simple, g: Full, ks: seq<FetchCtrl>, ins: seq<Mig2.Inputs>,
                                       i: Mig2.Inputs)
    requires |ks| == |ins| && Match(code, f, g) && IdealRun(code, g, ks, ins)
    requires Ideal(code, RunFull(g, ks, ins).env, i)
    ensures var a, b := RunSimple(code, f, ks), RunFull(g, ks, ins);
            && Match(code, a, b)
            && Mig2.IdFetch(b.fetch, i) == a.slot && a.pc == b.fetch.pc
            && (a.slot.valid ==> Mig2.IdInsn(b.fetch, i) == a.insn)
    decreases |ks|
  {
    if ks != [] {
      var n := |ks| - 1;
      FetchesSame(code, f, g, ks[..n], ins[..n], ins[n]);
      ClockMatches(code, RunSimple(code, f, ks[..n]), RunFull(g, ks[..n], ins[..n]), ks[n], ins[n]);
    }
    IdInsnSame(code, RunSimple(code, f, ks), RunFull(g, ks, ins), i);
  }

  lemma IdInsnSame(code: Code, a: Simple, b: Full, i: Mig2.Inputs)
    requires Match(code, a, b) && Ideal(code, b.env, i)
    ensures Mig2.IdFetch(b.fetch, i) == a.slot
    ensures a.slot.valid ==> Mig2.IdInsn(b.fetch, i) == a.insn
  {
    if a.slot.valid {
      IdInsnExact(code, b.fetch, i, b.env);
    }
  }

  // ---------- Out of reset ----------

  // Reset leaves the address in an empty IF/ID slot as it was: the two may differ in it until the first
  // clock without a stall.
  predicate Alike(code: Code, f: Simple, g: Full) {
    && S2.FetchInv(code, g.fetch, g.env)
    && f.pc == g.fetch.pc && f.slot.valid == g.fetch.slot.valid && f.slot.bubble == g.fetch.slot.bubble
    && (f.slot.valid ==> f.slot.pc == g.fetch.slot.pc && f.insn == code(f.slot.pc))
  }

  lemma ResetAlike(code: Code, c: Mig1.Core, insn: Insn, d: Mig2.Core, e: S2.Env, resetPc: Addr)
    requires Mig1.AfterReset(c, resetPc) && Mig2.AfterReset(d, resetPc) && !e.iBusy
    ensures Alike(code, Simple(c.pc, c.slot, insn), Full(d.fetch, e))
  {
  }

  lemma ClockAlike(code: Code, f: Simple, g: Full, k: FetchCtrl, i: Mig2.Inputs)
    requires Alike(code, f, g) && LegalCtrl(k) && Ideal(code, g.env, i)
    ensures Alike(code, NextSimple(code, f, k), NextFull(g, k, i))
    ensures !k.stall || Match(code, f, g) ==> Match(code, NextSimple(code, f, k), NextFull(g, k, i))
  {
    FetchKeepsInv(code, g.fetch, k, i, g.env);
  }

  /** Out of reset, for every legal sequence of controls, both show ID the same in every clock, and from
    * the first clock without a stall on they agree in every register they share.
    */
  lemma {:induction false} FetchesFromReset(code: Code, f: Simple, g: Full, ks: seq<FetchCtrl>, ins: seq<Mig2.Inputs>,
                                            i: Mig2.Inputs)
    requires |ks| == |ins| && Alike(code, f, g) && IdealRun(code, g, ks, ins)
    requires Ideal(code, RunFull(g, ks, ins).env, i)
    ensures var a, b := RunSimple(code, f, ks), RunFull(g, ks, ins);
            var shown := Mig2.IdFetch(b.fetch, i);
            && a.pc == b.fetch.pc && shown.valid == a.slot.valid && shown.bubble == a.slot.bubble
            && (a.slot.valid ==> shown.pc == a.slot.pc && Mig2.IdInsn(b.fetch, i) == a.insn)
    ensures Alike(code, RunSimple(code, f, ks), RunFull(g, ks, ins))
    ensures (exists k :: 0 <= k < |ks| && !ks[k].stall) ==> Match(code, RunSimple(code, f, ks), RunFull(g, ks, ins))
    decreases |ks|
  {
    hide S2.FetchInv, LegalCtrl, NextSimple, NextFull;
    if ks != [] {
      var n := |ks| - 1;
      var a, b := RunSimple(code, f, ks[..n]), RunFull(g, ks[..n], ins[..n]);
      FetchesFromReset(code, f, g, ks[..n], ins[..n], ins[n]);
      ClockAlike(code, a, b, ks[n], ins[n]);
      if k :| 0 <= k < |ks| && !ks[k].stall && k < n {
        assert !ks[..n][k].stall;
      }
    }
    InsnAlike(code, RunSimple(code, f, ks), RunFull(g, ks, ins), i);
  }

  lemma InsnAlike(code: Code, a: Simple, b: Full, i: Mig2.Inputs)
    requires Alike(code, a, b) && Ideal(code, b.env, i)
    ensures var shown := Mig2.IdFetch(b.fetch, i);
            && shown.valid == a.slot.valid && shown.bubble == a.slot.bubble
            && (a.slot.valid ==> shown.pc == a.slot.pc && Mig2.IdInsn(b.fetch, i) == a.insn)
  {
    if a.slot.valid {
      IdInsnExact(code, b.fetch, i, b.env);
    }
  }
}
