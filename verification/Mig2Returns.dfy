/** The return-address stack of Mig2 sees exactly the calls and returns that execute, in order; so
  * within its depth every return is predicted right. And the data channel keeps its rules.
  */
module Mig2Returns {
  import opened Isa
  import opened Parts
  import opened Csr
  import opened MulDiv
  import opened Mig2
  import opened Mig2System
  import opened Mig2Commit
  import opened Mig2Refinement
  import opened Mig2Flow
  import opened Mig2Step
  import opened Mig2Runs
  import Ras

  // ---------- Calls and returns of the machine ----------

  function CommandOf(p: (Addr, Insn)): Ras.Command {
    Ras.Command(IsCall(p.1), IsReturn(p.1), NextAddr(p.0))
  }

  function CommandsOf(ps: seq<(Addr, Insn)>): (r: seq<Ras.Command>)
    ensures |r| == |ps|
  {
    seq(|ps|, k requires 0 <= k < |ps| => CommandOf(ps[k]))
  }

  // What Control tells the stack in a clock is the command of the instruction that leaves ID.
  lemma CommandExact(bl: Blocks, code: Code, s: System, i: Inputs)
    requires Clock(bl, code, s, i)
    ensures var r := RasCommand(bl, s.core, i);
            if IdMoves(bl, s.core, i) then
              Ras.Command(r.push, r.pop, r.pushAddr) == CommandOf((s.core.fetch.slot.pc, IdInsn(s.core.fetch, i)))
            else !r.push && !r.pop
  {
    hide Inv, Legal, IdMoves, Decode, IsCall, IsReturn;
    HintsExact(IdInsn(s.core.fetch, i));
  }

  /** The hints by register numbers: a call links to x1 or x5; a return jumps through x1 or x5 and does not
    * link to the same register.
    */
  lemma HintsOfRegisters(i: Insn)
    ensures IsCall(i) <==> (i.kind.KJal? || i.kind.KJalr?) && (i.rd == 1 || i.rd == 5)
    ensures IsReturn(i) <==> i.kind.KJalr? && (i.rs1 == 1 || i.rs1 == 5) && i.rd != i.rs1
  {
  }

  // ---------- The stack during a run ----------

  function StackAfter(bl: Blocks, depth: nat, st: Ras.Stack, s: System, ins: seq<Inputs>): Ras.Stack
    requires CoreOk(s.core)
  {
    if ins == [] then st
    else
      var r := RasCommand(bl, Run(bl, s, ins[..|ins| - 1]).0.core, ins[|ins| - 1]);
      Ras.Do(depth, StackAfter(bl, depth, st, s, ins[..|ins| - 1]), Ras.Command(r.push, r.pop, r.pushAddr))
  }

  // ID sees the top of the stack (anything while the stack is empty).
  predicate SeesTop(bl: Blocks, depth: nat, st: Ras.Stack, s: System, ins: seq<Inputs>)
    requires CoreOk(s.core)
  {
    ins == [] ||
    (var before := StackAfter(bl, depth, st, s, ins[..|ins| - 1]);
     SeesTop(bl, depth, st, s, ins[..|ins| - 1])
     && (before != [] ==> ins[|ins| - 1].rasTop == before[|before| - 1]))
  }

  // A return in EX carries the top of the stack of its time in ID, and fetch went there.
  predicate CarriesTop(depth: nat, st: Ras.Stack, c: Core, left: seq<(Addr, Insn)>) {
    c.idEx.valid && IsReturn(c.idEx.insn) ==>
      && c.idEx.redirected && left != []
      && var before := Ras.DoAll(depth, st, CommandsOf(left[..|left| - 1]));
         before != [] ==> c.idEx.rasTarget == before[|before| - 1]
  }

  lemma CommandsAppend(ps: seq<(Addr, Insn)>, p: (Addr, Insn))
    ensures CommandsOf(ps + [p]) == CommandsOf(ps) + [CommandOf(p)]
  {
    hide CommandOf;
  }

  lemma ReturnRedirected(bl: Blocks, code: Code, s: System, i: Inputs)
    requires Clock(bl, code, s, i) && IdMoves(bl, s.core, i) && IsReturn(IdInsn(s.core.fetch, i))
    ensures IdExD(bl, s.core, i).redirected && IdExD(bl, s.core, i).rasTarget == i.rasTop
  {
    hide Inv, Legal, Decode, ExStall, FlushId, IdHazard, IdRs, IdTaken, IsReturn, IdAtTarget;
    HintsExact(IdInsn(s.core.fetch, i));
    JumpsExact(IdInsn(s.core.fetch, i));
  }

  lemma CarriesStep(bl: Blocks, code: Code, depth: nat, st: Ras.Stack, s: System, i: Inputs, left: seq<(Addr, Insn)>)
    requires Clock(bl, code, s, i) && CarriesTop(depth, st, s.core, left)
    requires var top := Ras.DoAll(depth, st, CommandsOf(left)); top != [] ==> i.rasTop == top[|top| - 1]
    ensures var p := (s.core.fetch.slot.pc, IdInsn(s.core.fetch, i));
            var left' := left + (if IdMoves(bl, s.core, i) then [p] else []);
            CarriesTop(depth, st, Next(bl, s.core, i), left')
  {
    hide FetchInv, SlotInv, ExInv, MemInv, HaltInv, BubbleInv, MulDivInv, Legal, Decode, ExStall, FlushId, IdRs,
         IsReturn, Next, Halted, Resuming, CommandsOf, IdRedirected, IdMoves;
    assert left + [] == left;
    if ExStall(bl, s.core, i) {
      NoMoveStalled(bl, s.core, i);
      BehindStalled(bl, code, s, i);
    } else if FlushId(bl, s.core, i) {
      BehindFlushed(bl, code, s, i);
    } else if Halted(s.core) {
      HaltedNotResuming(bl, s.core, i);
      BehindHalted(bl, code, s, i);
    } else {
      BehindMoves(bl, code, s, i);
      if IdMoves(bl, s.core, i) {
        MovedSlot(bl, s.core, i);
        var p := (s.core.fetch.slot.pc, IdInsn(s.core.fetch, i));
        assert (left + [p])[..|left + [p]| - 1] == left;
        if IsReturn(IdInsn(s.core.fetch, i)) {
          ReturnRedirected(bl, code, s, i);
        }
      }
    }
  }

  lemma NoMoveStalled(bl: Blocks, c: Core, i: Inputs)
    requires ExStall(bl, c, i)
    ensures !IdMoves(bl, c, i)
  {
    hide ExStall;
  }

  // One clock: the stack does the command of what leaves ID.
  lemma StackStep(bl: Blocks, code: Code, depth: nat, st: Ras.Stack, t: System, log: Log, i: Inputs)
    requires Clock(bl, code, t, i)
    ensures var r := RasCommand(bl, t.core, i);
            Ras.Do(depth, Ras.DoAll(depth, st, CommandsOf(log.left)), Ras.Command(r.push, r.pop, r.pushAddr))
            == Ras.DoAll(depth, st, CommandsOf(NextLog(bl, t, i, log).left))
  {
    hide Inv, Legal, Wellformed, RasCommand, CommandOf, Ras.Do, IdMoves, EventOf, RetireValid, RetireEntry, RequestOf,
         Dropped, IdInsn, Seen, ExLsu, Starts, DmemTaken, ImemTaken, FetchCtrlOf;
    CommandExact(bl, code, t, i);
    if IdMoves(bl, t.core, i) {
      var p := (t.core.fetch.slot.pc, IdInsn(t.core.fetch, i));
      CommandsAppend(log.left, p);
      assert (CommandsOf(log.left) + [CommandOf(p)])[..|log.left|] == CommandsOf(log.left);
    } else {
      NothingDone(depth, Ras.DoAll(depth, st, CommandsOf(log.left)), RasCommand(bl, t.core, i));
      assert log.left + [] == log.left;
    }
  }

  /** The pushes and pops of a run are those of the instructions that left ID, in their order. */
  lemma {:induction false} StackExact(bl: Blocks, code: Code, depth: nat, st: Ras.Stack, s: System, ins: seq<Inputs>)
    requires Inv(code, s) && Wellformed(code) && LegalRun(bl, code, s, ins)
    ensures StackAfter(bl, depth, st, s, ins) == Ras.DoAll(depth, st, CommandsOf(Run(bl, s, ins).1.left))
    decreases |ins|
  {
    hide FetchInv, SlotInv, ExInv, MemInv, HaltInv, BubbleInv, MulDivInv, Legal, NextSystem, NextLog, RasCommand,
         CommandOf, Ras.Do, Ras.DoAll, Agrees;
    if ins == [] {
      assert CommandsOf([]) == [];
      assert Ras.DoAll(depth, st, []) == st by { NoCommands(depth, st); }
    } else {
      var pre := ins[..|ins| - 1];
      var (t, log) := Run(bl, s, pre);
      StackExact(bl, code, depth, st, s, pre);
      RunAgrees(bl, code, s, pre);
      StackStep(bl, code, depth, st, t, log, ins[|ins| - 1]);
    }
  }

  lemma NoCommands(depth: nat, st: Ras.Stack)
    ensures Ras.DoAll(depth, st, []) == st
  {
  }

  lemma NothingDone(depth: nat, st: Ras.Stack, r: RasCtrl)
    requires !r.push && !r.pop
    ensures Ras.Do(depth, st, Ras.Command(r.push, r.pop, r.pushAddr)) == st
  {
  }

  lemma {:induction false} CarriesAlways(bl: Blocks, code: Code, depth: nat, st: Ras.Stack, s: System, ins: seq<Inputs>)
    requires Inv(code, s) && Wellformed(code) && LegalRun(bl, code, s, ins) && !s.core.idEx.valid
    requires SeesTop(bl, depth, st, s, ins)
    ensures CarriesTop(depth, st, Run(bl, s, ins).0.core, Run(bl, s, ins).1.left)
    decreases |ins|
  {
    hide FetchInv, SlotInv, ExInv, MemInv, HaltInv, BubbleInv, MulDivInv, Legal, Next, RasCommand, CommandsOf,
         Ras.DoAll, CarriesTop, IdMoves, EventOf, RetireValid, RetireEntry;
    if ins == [] {
      CarriesNothing(depth, st, s.core);
    } else {
      var pre := ins[..|ins| - 1];
      CarriesAlways(bl, code, depth, st, s, pre);
      RunAgrees(bl, code, s, pre);
      StackExact(bl, code, depth, st, s, pre);
      CarriesStep(bl, code, depth, st, Run(bl, s, pre).0, ins[|ins| - 1], Run(bl, s, pre).1.left);
    }
  }

  lemma CarriesNothing(depth: nat, st: Ras.Stack, c: Core)
    requires !c.idEx.valid
    ensures CarriesTop(depth, st, c, [])
  {
  }

  /** Within the depth of the stack every return is predicted right: after a call, and a nested
    * stretch of calls and returns, a return to the address after the call leaves fetch where it is.
    */
  lemma ReturnPredicted(bl: Blocks, code: Code, depth: nat, st: Ras.Stack, s: System, ins: seq<Inputs>, i: Inputs,
                        j: nat)
    requires Inv(code, s) && Wellformed(code) && LegalRun(bl, code, s, ins) && !s.core.idEx.valid
    requires 0 < depth && |st| <= depth && SeesTop(bl, depth, st, s, ins)
    requires var t := Run(bl, s, ins).0; Legal(code, t, i) && ExAct(t.core, i) && IsReturn(t.core.idEx.insn)
    requires var es := Issued(Entries(bl, code, ArchOf(s), Run(bl, s, ins).1.events));
             && j < |es| && IsCall(es[j].1)
             && Ras.Nested(CommandsOf(es[j + 1..]), depth - 1) && Ras.Level(CommandsOf(es[j + 1..])) == 0
             && ExBranch(Run(bl, s, ins).0.core.idEx).target == NextAddr(es[j].0)
    ensures !ExWrong(Run(bl, s, ins).0.core, i)
  {
    hide FetchInv, SlotInv, ExInv, MemInv, HaltInv, BubbleInv, MulDivInv, Legal, Entries, Run, Runnable, Issued,
         CommandsOf, Ras.DoAll, Ras.Nested, Ras.Level, CommandOf, ArchOf, SeesTop, LegalRun, ExBranch, IsReturn,
         IsCall;
    var (t, log) := Run(bl, s, ins);
    RunAgrees(bl, code, s, ins);
    CarriesAlways(bl, code, depth, st, s, ins);
    var es := Issued(Entries(bl, code, ArchOf(s), log.events));
    assert log.left == es + [(t.core.idEx.pc, t.core.idEx.insn)];
    assert log.left[..|log.left| - 1] == es;
    TopAfterCall(depth, st, es, j);
    ReturnTaken(code, t, i);
  }

  // What the stack shows after a call and a nested stretch.
  lemma TopAfterCall(depth: nat, st: Ras.Stack, es: seq<(Addr, Insn)>, j: nat)
    requires 0 < depth && |st| <= depth && j < |es| && IsCall(es[j].1)
    requires Ras.Nested(CommandsOf(es[j + 1..]), depth - 1) && Ras.Level(CommandsOf(es[j + 1..])) == 0
    ensures var r := Ras.DoAll(depth, st, CommandsOf(es));
            r != [] && r[|r| - 1] == NextAddr(es[j].0)
  {
    hide Ras.Nested, Ras.Level, IsCall, IsReturn;
    var cs := CommandsOf(es);
    var mid := CommandsOf(es[j + 1..]);
    var st1 := Ras.DoAll(depth, st, cs[..j]);
    assert cs == cs[..j] + [cs[j]] + mid;
    Ras.Bounded(depth, st, cs[..j]);
    Ras.DoAllAppend(depth, st, cs[..j] + [cs[j]], mid);
    assert (cs[..j] + [cs[j]])[..j] == cs[..j];
    Ras.ReturnsToCall(depth, st1, cs[j], mid);
  }

  lemma ReturnTaken(code: Code, s: System, i: Inputs)
    requires Inv(code, s) && ExAct(s.core, i) && IsReturn(s.core.idEx.insn)
    ensures ExBranch(s.core.idEx).taken && s.core.idEx.dec.ret
  {
    hide FetchInv, SlotInv, MemInv, HaltInv, BubbleInv, MulDivInv;
    HintsExact(s.core.idEx.insn);
    JumpsExact(s.core.idEx.insn);
  }

  // ---------- The data channel ----------

  /** A request memory does not take is offered again, unchanged. */
  lemma OfferHeld(bl: Blocks, code: Code, s: System, i: Inputs, i': Inputs)
    requires Clock(bl, code, s, i) && Legal(code, NextSystem(bl, s, i), i')
    requires ExLsu(bl, s.core, i).req.valid && !i.dReady
    ensures ExLsu(bl, NextSystem(bl, s, i).core, i').req == ExLsu(bl, s.core, i).req
  {
    hide FetchInv, SlotInv, ExInv, MemInv, HaltInv, BubbleInv, MulDivInv, Next, NextEnv, LsuUnit, Stalls, ExAddr;
    OfferedActs(bl, s.core, i);
    BehindStalled(bl, code, s, i);
    StallsNoCommit(bl, code, s, i);
    AfterRetire(bl, s, i);
  }

  lemma OfferedActs(bl: Blocks, c: Core, i: Inputs)
    requires ExLsu(bl, c, i).req.valid
    ensures c.idEx.valid && !MemWait(c, i)
  {
  }

  /** One read at a time: memory takes a read only when none is out, or its answer comes now; and an
    * answer is for the load in MEM/WB, which retires with it.
    */
  lemma OneRead(bl: Blocks, code: Code, s: System, i: Inputs)
    requires Clock(bl, code, s, i)
    ensures DmemTaken(bl, s.core, i) ==> !s.env.dBusy || i.dValid
    ensures i.dValid ==> s.core.exMem.valid && s.core.exMem.load && RetireValid(s.core, i)
  {
    hide FetchInv, SlotInv, ExInv, HaltInv, BubbleInv, MulDivInv;
    if DmemTaken(bl, s.core, i) {
      OfferedActs(bl, s.core, i);
    }
  }
}
