/** Progress: when the memories accept an offered request within R clocks and answer a read within L
  * clocks, a running Mig2 retires at least one instruction in every Bound(R, L) + 1 clocks.
  */
module Mig2Progress {
  import opened Isa
  import opened Parts
  import opened Csr
  import opened MulDiv
  import opened Mig2
  import opened Mig2System
  import opened Mig2FetchProofs
  import opened Mig2Commit
  import opened Mig2Refinement
  import opened Mig2Flow
  import opened Mig2Step
  import opened Mig2Runs
  import Divider

  // How long the memories may still take: clocks in which an offered request may be refused, and
  // clocks in which the answer to a request may be missing.
  datatype Patience = Patience(iReq: nat, iAns: nat, dReq: nat, dAns: nat)

  predicate Within(p: Patience, r: int, l: int) {
    p.iReq < r && p.dReq < r && p.iAns < l && p.dAns < l
  }

  predicate Keeps(bl: Blocks, s: System, i: Inputs, p: Patience) {
    var c := s.core;
    && (ImemRequest(c.fetch, FetchCtrlOf(bl, c, i), i) && !i.iReady ==> p.iReq > 0)
    && (c.fetch.pending && !i.iValid ==> p.iAns > 0)
    && (DmemWait(bl, c, i) ==> p.dReq > 0)
    && (MemWait(c, i) ==> p.dAns > 0)
  }

  // A refusal or a missing answer uses up patience; a new request starts anew.
  function NextPatience(bl: Blocks, s: System, i: Inputs, p: Patience, r: nat, l: nat): (p': Patience)
    requires Keeps(bl, s, i, p) && Within(p, r, l)
    ensures Within(p', r, l)
  {
    var c := s.core;
    Patience(if ImemRequest(c.fetch, FetchCtrlOf(bl, c, i), i) && !i.iReady then p.iReq - 1 else r - 1,
             if c.fetch.pending && !i.iValid then p.iAns - 1 else l - 1,
             if DmemWait(bl, c, i) then p.dReq - 1 else r - 1,
             if MemWait(c, i) then p.dAns - 1 else l - 1)
  }

  // ---------- The measure ----------

  // Clocks an instruction stays in EX by itself: at most the 33 of a division, or those memory refuses.
  function MaxWork(r: nat): nat { if r > 34 then r - 1 else 33 }

  // Clocks a division still needs, before the one in which its result is there: a start, and a step
  // per significant bit of the dividend's magnitude.
  function DivisionLeft(c: Core): nat {
    var x := c.idEx;
    if c.muldiv.ready then 0
    else if c.muldiv.div.busy then c.muldiv.div.left
    else 1 + Divider.EarlySteps(x.dec.funct3, x.rs1Data, x.rs2Data)
  }

  function Work(c: Core, p: Patience): nat {
    if IsDiv(c.idEx.valid, c.idEx.dec) then DivisionLeft(c) else p.dReq
  }

  // Clocks until an instruction leaves EX, with MEM/WB empty: from EX, from ID, or from memory.
  function UntilCommit(c: Core, p: Patience, r: nat, l: nat): nat {
    if c.idEx.valid then Work(c, p)
    else if c.fetch.slot.valid then MaxWork(r) + 1 + (if c.fetch.got then 0 else 1 + p.iAns)
    else if !c.fetch.pending then MaxWork(r) + 2 + l + p.iReq
    else MaxWork(r) + 2 + l + r + p.iAns
  }

  function UntilRetire(c: Core, p: Patience, r: nat, l: nat): nat {
    if c.exMem.valid then (if c.exMem.load then p.dAns else 0) else l + UntilCommit(c, p, r, l)
  }

  function Bound(r: nat, l: nat): nat { MaxWork(r) + 2 + r + 3 * l }

  lemma WithinBound(c: Core, p: Patience, r: nat, l: nat)
    requires Within(p, r, l) && CoreOk(c)
    ensures UntilRetire(c, p, r, l) <= Bound(r, l)
    ensures c.idEx.valid ==> Work(c, p) <= MaxWork(r)
  {
    hide Divider.EarlySteps, Divider.DivInv;
    var x := c.idEx;
    Divider.StartsWith(x.dec.funct3, x.rs1Data, x.rs2Data);
    LeftSmall(Divider.Start(true, x.rs1Data, x.rs2Data, x.dec.funct3 == 4 || x.dec.funct3 == 6));
    LeftSmall(c.muldiv.div);
  }

  lemma LeftSmall(d: Divider.Int32Div)
    requires Divider.DivInv(d)
    ensures d.left <= 32
  {
  }

  /** A division holds EX for its start, its steps and the clock of its result: each clock in EX without a
    * result brings it exactly one nearer, whatever else EX waits for.
    */
  lemma DivisionMoves(bl: Blocks, code: Code, s: System, i: Inputs)
    requires Clock(bl, code, s, i) && IsDiv(s.core.idEx.valid, s.core.idEx.dec) && !s.core.muldiv.ready
    requires Next(bl, s.core, i).idEx == s.core.idEx
    ensures DivisionLeft(Next(bl, s.core, i)) + 1 == DivisionLeft(s.core)
  {
    hide FetchInv, SlotInv, MemInv, HaltInv, BubbleInv, NextFetch, NextIdEx, NextCsr, NextControl, NextRegs, ExMemD,
         MemWait, Decode, FetchCtrlOf, Divider.Start, Divider.EarlySteps;
    var x := s.core.idEx;
    DivSignedIs(x.insn);
    Divider.StartsWith(x.dec.funct3, x.rs1Data, x.rs2Data);
  }

  lemma DivSignedIs(i: Insn)
    ensures Decode(i).funct3 == i.funct3
    ensures IsDiv(true, Decode(i)) ==> Decode(i).muldiv.divSigned == (i.funct3 == 4 || i.funct3 == 6)
  {
  }

  lemma CommitNearer(bl: Blocks, code: Code, s: System, i: Inputs, p: Patience, r: nat, l: nat)
    requires Clock(bl, code, s, i) && s.core.control.running && !s.core.exMem.valid && !Commits(bl, s.core, i)
    requires Within(p, r, l) && Keeps(bl, s, i, p)
    ensures UntilCommit(Next(bl, s.core, i), NextPatience(bl, s, i, p, r, l), r, l) < UntilCommit(s.core, p, r, l)
  {
    hide SlotInv, ExInv, BubbleInv, MulDivInv, NextIdEx, NextCsr, NextControl, NextRegs, ExMemD, FetchCtrlOf,
         NextFetch, NextMulDiv, ExTrap, ExLsu, Decode, Work, IdMoves, FlushId, ExStall, IdExD, Believed, BehindEx;
    var c' := Next(bl, s.core, i);
    var p' := NextPatience(bl, s, i, p, r, l);
    WithinBound(c', p', r, l);
    if s.core.idEx.valid {
      ExNearer(bl, code, s, i, p, r, l);
    } else {
      FetchNearer(bl, code, s, i, p, r, l);
    }
  }

  lemma ExNearer(bl: Blocks, code: Code, s: System, i: Inputs, p: Patience, r: nat, l: nat)
    requires Clock(bl, code, s, i) && !s.core.exMem.valid && !Commits(bl, s.core, i) && s.core.idEx.valid
    requires Within(p, r, l) && Keeps(bl, s, i, p)
    ensures Next(bl, s.core, i).idEx == s.core.idEx
    ensures Work(Next(bl, s.core, i), NextPatience(bl, s, i, p, r, l)) < Work(s.core, p)
  {
    hide FetchInv, SlotInv, ExInv, BubbleInv, MulDivInv, HaltInv, MemInv, Next, FetchCtrlOf, ExTrap, ExLsu, Decode,
         ImemRequest;
    IdleStalls(bl, code, s, i);
    BehindStalled(bl, code, s, i);
    if DmemWait(bl, s.core, i) {
      AccessNoDiv(bl, code, s, i);
    } else {
      DivisionMoves(bl, code, s, i);
    }
  }

  lemma AccessNoDiv(bl: Blocks, code: Code, s: System, i: Inputs)
    requires Clock(bl, code, s, i) && DmemWait(bl, s.core, i)
    ensures !IsDiv(s.core.idEx.valid, s.core.idEx.dec)
  {
    hide FetchInv, SlotInv, BubbleInv, MulDivInv, HaltInv, MemInv;
    AccessExact(s.core.idEx.insn);
    SystemExact(s.core.idEx.insn);
  }

  lemma FetchNearer(bl: Blocks, code: Code, s: System, i: Inputs, p: Patience, r: nat, l: nat)
    requires Clock(bl, code, s, i) && s.core.control.running && !s.core.exMem.valid && !s.core.idEx.valid
    requires Within(p, r, l) && Keeps(bl, s, i, p)
    ensures UntilCommit(Next(bl, s.core, i), NextPatience(bl, s, i, p, r, l), r, l) < UntilCommit(s.core, p, r, l)
  {
    hide SlotInv, ExInv, BubbleInv, MulDivInv, NextIdEx, NextCsr, NextControl, NextRegs, ExMemD, FetchCtrlOf,
         NextMulDiv, ExTrap, ExLsu, Decode, Work, IdMoves, FlushId, ExStall, IdExD, Believed, BehindEx, DmemWait,
         MemWait;
    FreeFetch(bl, code, s, i);
    WithinBound(Next(bl, s.core, i), NextPatience(bl, s, i, p, r, l), r, l);
    BehindMoves(bl, code, s, i);
  }

  // With EX and MEM/WB empty nothing holds fetch back but its word.
  lemma FreeFetch(bl: Blocks, code: Code, s: System, i: Inputs)
    requires Clock(bl, code, s, i) && s.core.control.running && !s.core.exMem.valid && !s.core.idEx.valid
    ensures !ExStall(bl, s.core, i) && !FlushId(bl, s.core, i) && !Halted(s.core)
    ensures var k := FetchCtrlOf(bl, s.core, i); k.run && !k.stall && (k.redirect ==> IdMoves(bl, s.core, i))
    ensures IdMoves(bl, s.core, i) <==> IdFetch(s.core.fetch, i).valid
  {
    hide FetchInv, SlotInv, ExInv, BubbleInv, MulDivInv, MemInv, IdRedirectPc, IdDec, IdBtbFix, IdGo;
  }

  // A clock that retires nothing brings the next retirement nearer.
  lemma RetireNearer(bl: Blocks, code: Code, s: System, i: Inputs, p: Patience, r: nat, l: nat)
    requires Clock(bl, code, s, i) && s.core.control.running && !RetireValid(s.core, i)
    requires Within(p, r, l) && Keeps(bl, s, i, p)
    ensures UntilRetire(Next(bl, s.core, i), NextPatience(bl, s, i, p, r, l), r, l) < UntilRetire(s.core, p, r, l)
  {
    hide FetchInv, SlotInv, ExInv, BubbleInv, MulDivInv, HaltInv, MemInv, Next, FetchCtrlOf, ImemRequest, DmemWait,
         UntilCommit, Commits;
    if MemWait(s.core, i) {
      WaitKeeps(bl, code, s, i);
    } else {
      AfterRetire(bl, s, i);
      if !Commits(bl, s.core, i) {
        CommitNearer(bl, code, s, i, p, r, l);
      }
    }
  }

  // ---------- Runs ----------

  // The patience after a run in which the memories keep their promise.
  function PatienceAfter(bl: Blocks, s: System, ins: seq<Inputs>, p: Patience, r: nat, l: nat): (p': Patience)
    requires CoreOk(s.core) && Within(p, r, l) && KeepsAll(bl, s, ins, p, r, l)
    ensures Within(p', r, l)
    decreases |ins|, 1
  {
    if ins == [] then p
    else NextPatience(bl, Run(bl, s, ins[..|ins| - 1]).0, ins[|ins| - 1],
                      PatienceAfter(bl, s, ins[..|ins| - 1], p, r, l), r, l)
  }

  predicate KeepsAll(bl: Blocks, s: System, ins: seq<Inputs>, p: Patience, r: nat, l: nat)
    requires CoreOk(s.core) && Within(p, r, l)
    decreases |ins|, 0
  {
    ins == [] ||
    (KeepsAll(bl, s, ins[..|ins| - 1], p, r, l)
     && Keeps(bl, Run(bl, s, ins[..|ins| - 1]).0, ins[|ins| - 1], PatienceAfter(bl, s, ins[..|ins| - 1], p, r, l)))
  }

  // The core is not halted in any clock of the run.
  predicate RunsAll(bl: Blocks, s: System, ins: seq<Inputs>)
    requires CoreOk(s.core)
  {
    ins == [] || (RunsAll(bl, s, ins[..|ins| - 1]) && Run(bl, s, ins[..|ins| - 1]).0.core.control.running)
  }

  // The clocks in which n instructions must have retired.
  function Budget(n: int, bound: int): int { n * (bound + 1) + bound }

  lemma BudgetGrows(n: int, bound: int)
    ensures Budget(n + 1, bound) == Budget(n, bound) + bound + 1
  {
  }

  // A clock brings the next retirement nearer, or retires and starts anew.
  lemma ClockInBudget(bl: Blocks, code: Code, s: System, i: Inputs, p: Patience, r: nat, l: nat)
    requires Clock(bl, code, s, i) && s.core.control.running && Within(p, r, l) && Keeps(bl, s, i, p)
    ensures UntilRetire(Next(bl, s.core, i), NextPatience(bl, s, i, p, r, l), r, l) + 1
            <= UntilRetire(s.core, p, r, l) + (if RetireValid(s.core, i) then Bound(r, l) + 1 else 0)
  {
    hide FetchInv, SlotInv, ExInv, BubbleInv, MulDivInv, HaltInv, MemInv, Next, UntilRetire, NextPatience, Bound,
         RetireValid, Keeps;
    WithinBound(Next(bl, s.core, i), NextPatience(bl, s, i, p, r, l), r, l);
    if !RetireValid(s.core, i) {
      RetireNearer(bl, code, s, i, p, r, l);
    }
  }

  /** A Mig2 that is not halted retires an instruction in every Bound(r, l) + 1 clocks, for every
    * program and every prediction, when memory takes requests within r and answers within l clocks.
    */
  lemma {:induction false} AlwaysRetires(bl: Blocks, code: Code, s: System, ins: seq<Inputs>, p: Patience,
                                        r: nat, l: nat)
    requires Inv(code, s) && Wellformed(code) && LegalRun(bl, code, s, ins) && RunsAll(bl, s, ins)
    requires Within(p, r, l) && KeepsAll(bl, s, ins, p, r, l)
    ensures var (t, log) := Run(bl, s, ins);
            |ins| + UntilRetire(t.core, PatienceAfter(bl, s, ins, p, r, l), r, l) <= Budget(|log.retired|, Bound(r, l))
    decreases |ins|
  {
    hide FetchInv, SlotInv, ExInv, BubbleInv, MulDivInv, HaltInv, MemInv, Legal, Next, NextEnv, UntilRetire,
         NextPatience, Bound, RetireEntry, Seen, RetireValid, EventOf, Keeps, RetireBubble, IdMoves, Budget;
    if ins == [] {
      WithinBound(s.core, p, r, l);
      EmptyBudget(Bound(r, l));
    } else {
      var pre := ins[..|ins| - 1];
      var i := ins[|ins| - 1];
      var (t, log) := Run(bl, s, pre);
      AlwaysRetires(bl, code, s, pre, p, r, l);
      RunAgrees(bl, code, s, pre);
      ClockInBudget(bl, code, t, i, PatienceAfter(bl, s, pre, p, r, l), r, l);
      BudgetGrows(|log.retired|, Bound(r, l));
      assert log.retired + [] == log.retired;
    }
  }

  lemma EmptyBudget(bound: int)
    ensures Budget(0, bound) == bound
  {
  }

  // ---------- Ideal memories ----------

  // The channels take every request and answer in the next clock; nothing predicts, nobody debugs.
  function Ideal(code: Code, s: System): Inputs {
    Inputs(true, s.env.iBusy, code(s.env.iAddr), true, s.env.dBusy, s.env.dWord, BtbPred(false, false, 0), 0, 0,
           false, false, false, 0, 0)
  }

  function IdealRun(bl: Blocks, code: Code, s: System, n: nat): (ins: seq<Inputs>)
    requires CoreOk(s.core)
    ensures |ins| == n
  {
    if n == 0 then []
    else var pre := IdealRun(bl, code, s, n - 1); pre + [Ideal(code, Run(bl, s, pre).0)]
  }

  const NO_PATIENCE := Patience(0, 0, 0, 0)

  lemma IdealKeeps(bl: Blocks, code: Code, s: System)
    requires Inv(code, s)
    ensures Legal(code, s, Ideal(code, s)) && Keeps(bl, s, Ideal(code, s), NO_PATIENCE)
  {
    hide SlotInv, ExInv, BubbleInv, MulDivInv, HaltInv, FetchCtrlOf, ExLsu;
  }

  lemma IdealNeverHalts(bl: Blocks, code: Code, s: System)
    requires Inv(code, s) && !Halted(s.core)
    ensures !Halted(Next(bl, s.core, Ideal(code, s)))
  {
    hide NextFetch, FetchCtrlOf, NextIdEx, NextMulDiv, NextCsr, NextRegs, ExMemD, FetchInv, SlotInv, ExInv, BubbleInv,
         MulDivInv, MemInv;
  }

  lemma NoPatience(p: Patience)
    requires Within(p, 1, 1)
    ensures p == NO_PATIENCE
  {
  }

  // Legal runs of every length exist, in which the memories keep the shortest promise.
  lemma {:induction false} IdealExists(bl: Blocks, code: Code, s: System, n: nat)
    requires Inv(code, s) && Wellformed(code) && !Halted(s.core)
    ensures var ins := IdealRun(bl, code, s, n);
            && LegalRun(bl, code, s, ins) && RunsAll(bl, s, ins) && KeepsAll(bl, s, ins, NO_PATIENCE, 1, 1)
            && !Halted(Run(bl, s, ins).0.core)
    decreases n
  {
    hide FetchInv, SlotInv, ExInv, BubbleInv, MulDivInv, HaltInv, MemInv, Legal, Next, NextEnv, NextPatience, Keeps,
         Ideal, NextLog;
    if n > 0 {
      IdealExists(bl, code, s, n - 1);
      var pre := IdealRun(bl, code, s, n - 1);
      var t := Run(bl, s, pre).0;
      var ins := IdealRun(bl, code, s, n);
      assert ins[..n - 1] == pre && ins[n - 1] == Ideal(code, t);
      RunAgrees(bl, code, s, pre);
      IdealKeeps(bl, code, t);
      IdealNeverHalts(bl, code, t);
      NoPatience(PatienceAfter(bl, s, pre, NO_PATIENCE, 1, 1));
    }
  }

  /** Every program runs on: for any number of instructions there is a run that retires at least as many. */
  lemma RetiresForever(bl: Blocks, code: Code, s: System, k: nat)
    requires Inv(code, s) && Wellformed(code) && !Halted(s.core)
    ensures exists ins :: LegalRun(bl, code, s, ins) && |Run(bl, s, ins).1.retired| >= k
  {
    hide FetchInv, SlotInv, ExInv, BubbleInv, MulDivInv, HaltInv, MemInv, Legal, Wellformed, NextSystem, NextLog,
         UntilRetire, Halted;
    var b := Bound(1, 1);
    var n := Budget(k, b) + 1;
    BudgetPositive(k, b);
    var ins := IdealRun(bl, code, s, n);
    IdealExists(bl, code, s, n);
    AlwaysRetires(bl, code, s, ins, NO_PATIENCE, 1, 1);
    if |Run(bl, s, ins).1.retired| < k {
      BudgetMonotone(|Run(bl, s, ins).1.retired|, k, b);
    }
  }

  lemma BudgetPositive(k: nat, b: nat)
    ensures Budget(k, b) >= 0
  {
    assert k * (b + 1) >= 0;
  }

  lemma BudgetMonotone(m: int, k: int, b: nat)
    requires m <= k
    ensures Budget(m, b) <= Budget(k, b)
  {
    assert (k - m) * (b + 1) >= 0;
  }
}
