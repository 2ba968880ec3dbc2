/** Runs of Mig1, of any length: the retired stream is that of the sequential machine, and every
  * retirement comes exactly in the clock the costs of the instructions say.
  */
module Mig1Runs {
  import opened Isa
  import opened Parts
  import opened Mig1
  import opened Mig1System
  import opened Mig1Step
  import opened Mig1Timing
  import S2 = Mig2System

  // The debug port; the memories give the other inputs.
  datatype Pins = Pins(ebreakHalt: bool, resume: bool, dbgWrite: bool, dbgReg: RegId, dbgData: Word)

  function InputOf(s: System, p: Pins): Inputs {
    Inputs(s.env.insn, s.env.word, p.ebreakHalt, p.resume, p.dbgWrite, p.dbgReg, p.dbgData)
  }

  // What a run shows: events of the machine, retired entries, the clock of each, and bubbles.
  datatype Log = Log(events: seq<Event>, retired: seq<Entry>, when: seq<nat>, bubbles: seq<Bubble>)

  function NextLog(bl: Blocks, s: System, i: Inputs, log: Log): Log {
    var c := s.core;
    Log(log.events + [EventOf(bl, s, i)],
        log.retired + (if c.exMem.valid then [Seen(RetireEntry(c, i))] else []),
        log.when + (if c.exMem.valid then [|log.events|] else []),
        log.bubbles + (if c.exMem.valid then [] else [c.exMem.bubble]))
  }

  function Run(bl: Blocks, code: Code, s: System, pins: seq<Pins>): (r: (System, Log))
    requires CoreOk(s.core)
    ensures CoreOk(r.0.core)
  {
    if pins == [] then (s, Log([], [], [], []))
    else
      var (t, log) := Run(bl, code, s, pins[..|pins| - 1]);
      var i := InputOf(t, pins[|pins| - 1]);
      (NextSystem(bl, code, t, i), NextLog(bl, t, i, log))
  }

  function InFlight(s: System): seq<Entry> { if s.core.exMem.valid then [Seen(Complete(s))] else [] }

  function EntriesOf(bl: Blocks, code: Code, s: System, log: Log): seq<Entry>
    requires CoreOk(s.core)
  {
    Entries(bl, code, ArchOf(s), log.events)
  }

  predicate Agrees(bl: Blocks, code: Code, s: System, t: System, log: Log)
    requires CoreOk(s.core) && CoreOk(t.core)
  {
    && Runnable(bl, code, ArchOf(s), log.events)
    && ArchOf(t) == After(bl, code, ArchOf(s), log.events)
    && log.retired + InFlight(t) == InFlight(s) + EntriesOf(bl, code, s, log)
    && |log.events| == |log.retired| + |log.bubbles| && BNone !in log.bubbles
    && t.core.order == (s.core.order + |log.retired|) % ORDERS
  }

  // What is in MEM/WB retires in this clock.
  lemma RetireNow(code: Code, s: System, i: Inputs)
    requires Clock(code, s, i)
    ensures (if s.core.exMem.valid then [Seen(RetireEntry(s.core, i))] else []) == InFlight(s)
    ensures !s.core.exMem.valid ==> s.core.exMem.bubble != BNone
  {
    hide S2.FetchInv, S2.SlotInv, MulDiv.MulDivInv, S2.HaltInv, S2.ExInv, LoadData, Seen, Wellformed;
  }

  function Now(bl: Blocks, code: Code, s: System, i: Inputs): (r: seq<Entry>)
    requires CoreOk(s.core)
    ensures |r| <= 1
  {
    Executed(bl, code, ArchOf(s), EventOf(bl, s, i))
  }

  lemma NowExact(bl: Blocks, code: Code, s: System, i: Inputs)
    requires Clock(code, s, i)
    ensures CoreOk(s.core) && InFlight(NextSystem(bl, code, s, i)) == Now(bl, code, s, i)
    ensures Now(bl, code, s, i) == if Commits(bl, s.core, i) then [Leaving(bl, s, i)] else []
  {
    hide Inv, Wellformed, NextSystem, ArchOf, Commits, Execute, Seen, Complete;
    ClockRefines(bl, code, s, i);
    if Commits(bl, s.core, i) {
      InsnAtPc(bl, code, s, i);
    }
  }

  lemma InsnAtPc(bl: Blocks, code: Code, s: System, i: Inputs)
    requires Clock(code, s, i) && CoreOk(s.core) && Commits(bl, s.core, i)
    ensures s.core.idEx.insn == code(ArchOf(s).pc)
  {
    hide Inv, Wellformed, Commits, Execute, ExTrap, ExBranch, Condition;
    LeavingFields(bl, code, s, i);
  }

  lemma ClockAgrees(bl: Blocks, code: Code, s: System, t: System, log: Log, i: Inputs)
    requires CoreOk(s.core) && CoreOk(t.core) && Clock(code, t, i) && Agrees(bl, code, s, t, log)
    ensures Agrees(bl, code, s, NextSystem(bl, code, t, i), NextLog(bl, t, i, log))
  {
    hide Inv, Wellformed, ArchOf, EventOf, Apply, InFlight, RetireEntry, NextEnv, NextIdEx, NextRegs, ExMemD,
         NextControl, Enabled, Seen, Now, FetchCtrlOf, Csr.NextCsr, MulDiv.NextMulDiv, Commits, Leaving, Executed,
         Execute, Complete;
    ClockRefines(bl, code, t, i);
    Unfold(bl, code, ArchOf(s), log.events, EventOf(bl, t, i));
    NowIs(bl, code, t, i);
    RetireAgrees(bl, code, s, t, log, i);
  }

  lemma RetireAgrees(bl: Blocks, code: Code, s: System, t: System, log: Log, i: Inputs)
    requires CoreOk(s.core) && CoreOk(t.core) && Clock(code, t, i) && Agrees(bl, code, s, t, log)
    ensures var u, log' := NextSystem(bl, code, t, i), NextLog(bl, t, i, log);
            && log'.retired + InFlight(u) == InFlight(s) + (EntriesOf(bl, code, s, log) + Now(bl, code, t, i))
            && |log'.events| == |log'.retired| + |log'.bubbles| && BNone !in log'.bubbles
            && u.core.order == (s.core.order + |log'.retired|) % ORDERS
  {
    hide Inv, Wellformed, ArchOf, EventOf, InFlight, RetireEntry, NextEnv, NextIdEx, NextRegs, ExMemD, NextControl,
         Seen, Now, After, Runnable, FetchCtrlOf, Csr.NextCsr, MulDiv.NextMulDiv, Commits, Leaving, Complete,
         EntriesOf, NextSlot, NextFetchPc;
    RetireNow(code, t, i);
    NowExact(bl, code, t, i);
    var es, now := EntriesOf(bl, code, s, log), Now(bl, code, t, i);
    assert InFlight(s) + (es + now) == (InFlight(s) + es) + now;
    assert log.retired + InFlight(t) + now == log.retired + (InFlight(t) + now);
  }

  lemma NowIs(bl: Blocks, code: Code, s: System, i: Inputs)
    requires CoreOk(s.core)
    ensures Now(bl, code, s, i) == Executed(bl, code, ArchOf(s), EventOf(bl, s, i))
  {
  }

  /** Every run of Mig1 keeps the invariant, and shows exactly what the sequential machine does. */
  lemma {:induction false} RunAgrees(bl: Blocks, code: Code, s: System, pins: seq<Pins>)
    requires Inv(code, s) && Wellformed(code) && CoreOk(s.core)
    ensures var (t, log) := Run(bl, code, s, pins);
            Inv(code, t) && Agrees(bl, code, s, t, log) && |log.events| == |pins|
    decreases |pins|
  {
    hide Inv, Wellformed, NextSystem, ArchOf, InFlight;
    if pins == [] {
      assert InFlight(s) + [] == InFlight(s);
    } else {
      RunAgrees(bl, code, s, pins[..|pins| - 1]);
      var (t, log) := Run(bl, code, s, pins[..|pins| - 1]);
      var i := InputOf(t, pins[|pins| - 1]);
      StepKeepsInv(bl, code, t, i);
      ClockAgrees(bl, code, s, t, log, i);
    }
  }

  // ---------- Timing ----------

  // The core neither halts nor is halted during the run.
  predicate RunsAll(bl: Blocks, code: Code, s: System, pins: seq<Pins>)
    requires CoreOk(s.core)
  {
    pins == [] ||
    (RunsAll(bl, code, s, pins[..|pins| - 1]) && !Halted(Run(bl, code, s, pins[..|pins| - 1]).0.core))
  }

  // In clock n: the next instruction leaves EX when it is due, what is in MEM/WB retires now, and
  // what retired did so in its clock.
  predicate OnTime(code: Code, n: nat, t: System, es: seq<Entry>, when: seq<nat>) {
    && (!Halted(t.core) ==> n + Distance(code, t.core) == Due(es, code(ArchPc(t.core))))
    && (t.core.exMem.valid ==> es != [] && n == 2 + |es| + TotalCost(es))
    && |when| == |es| - |InFlight(t)|
    && forall k :: 0 <= k < |when| ==> when[k] == 3 + k + TotalCost(es[..k + 1])
  }

  lemma CostOfNext(es: seq<Entry>, e: Entry)
    ensures 3 + |es| + TotalCost(es + [e]) == Due(es, e.insn) + 1
    ensures forall i :: Due(es + [e], i) == 3 + |es| + TotalCost(es + [e]) + Gap(e, i) + Own(i)
  {
    hide Gap, Own;
    assert (es + [e])[..|es|] == es;
  }

  lemma StaysOnTime(bl: Blocks, code: Code, n: nat, t: System, es: seq<Entry>, when: seq<nat>, i: Inputs)
    requires CoreOk(t.core) && Clock(code, t, i) && !Halted(t.core) && OnTime(code, n, t, es, when)
    ensures OnTime(code, n + 1, NextSystem(bl, code, t, i), es + Now(bl, code, t, i),
                   when + (if t.core.exMem.valid then [n] else []))
  {
    hide Inv, Wellformed, Next, NextEnv, Commits, Distance, Due, TotalCost, Leaving, Gap, Own, ArchPc, Now, ArchOf,
         Complete, Seen, Halted;
    var t' := NextSystem(bl, code, t, i);
    NowExact(bl, code, t, i);
    Keeps(es, Now(bl, code, t, i));
    assert es[..|es|] == es;
    if Commits(bl, t.core, i) {
      var e := Leaving(bl, t, i);
      CostOfNext(es, e);
      LeavesNow(bl, code, t, i);
      DueNow(bl, code, t, i);
      if !Halted(t'.core) {
        CommitDistance(bl, code, t, i);
      }
    } else {
      IdleDistance(bl, code, t, i);
      assert es + [] == es;
    }
  }

  lemma Keeps(es: seq<Entry>, now: seq<Entry>)
    ensures forall k {:trigger es[..k]} :: 0 <= k <= |es| ==> (es + now)[..k] == es[..k]
  {
  }

  lemma DueNow(bl: Blocks, code: Code, s: System, i: Inputs)
    requires Clock(code, s, i) && CoreOk(s.core) && Commits(bl, s.core, i)
    ensures code(ArchPc(s.core)) == Leaving(bl, s, i).insn
  {
    hide Inv, Wellformed, Commits, Execute, ExTrap, ExBranch, Condition, ArchPc, Leaving;
    LeavingFields(bl, code, s, i);
  }

  /** Out of reset the k-th retirement comes in clock 3 + k + the costs of the instructions up to it:
    * JAL and a right taken guess 1, a wrong guess, JALR, trap and MRET 2, load-use 1, a division 33.
    * Nothing else costs a clock, and no two costs interact.
    */
  lemma {:induction false} RetiresOnTime(bl: Blocks, code: Code, s: System, pins: seq<Pins>, resetPc: Addr)
    requires AfterReset(s.core, resetPc) && Wellformed(code) && RunsAll(bl, code, s, pins)
    ensures var (t, log) := Run(bl, code, s, pins);
            OnTime(code, |pins|, t, EntriesOf(bl, code, s, log), log.when)
    decreases |pins|
  {
    hide Inv, Wellformed, NextSystem, ArchOf, InFlight, OnTime, Halted, Seen, EventOf, RetireEntry;
    ResetInv(code, s, resetPc);
    if pins == [] {
      FirstClock(code, s, resetPc);
    } else {
      var pre := pins[..|pins| - 1];
      RetiresOnTime(bl, code, s, pre, resetPc);
      RunAgrees(bl, code, s, pre);
      var (t, log) := Run(bl, code, s, pre);
      var i := InputOf(t, pins[|pins| - 1]);
      StaysOnTime(bl, code, |pre|, t, EntriesOf(bl, code, s, log), log.when, i);
      Unfold(bl, code, ArchOf(s), log.events, EventOf(bl, t, i));
      NowIs(bl, code, t, i);
    }
  }

  lemma FirstClock(code: Code, s: System, resetPc: Addr)
    requires AfterReset(s.core, resetPc)
    ensures OnTime(code, 0, s, [], [])
  {
    hide Own;
  }
}
