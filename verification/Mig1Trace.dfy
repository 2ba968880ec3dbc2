/** The retire port of Mig1, clock by clock: which instruction or which bubble every clock shows is a
  * function of the executed instructions.
  */
module Mig1Trace {
  import opened Isa
  import opened Parts
  import opened Csr
  import opened MulDiv
  import opened Mig1
  import opened Mig1System
  import opened Mig1Step
  import opened Mig1Timing
  import opened Mig1Runs
  import S2 = Mig2System

  // What the retire port shows in a clock.
  datatype Port = Ins(e: Entry) | Gap(why: Bubble)

  // ---------- The trace of a stream of instructions ----------

  function Times(n: nat, why: Bubble): (r: seq<Port>)
    ensures |r| == n
  {
    seq(n, k => Gap(why))
  }

  // The bubbles behind an instruction: their number and their reasons.
  function Behind(e: Entry, next: Insn): seq<Port> {
    var i := e.insn;
    if e.trap then Times(2, BTrap)
    else if i.kind.KMret? then Times(2, BXret)
    else if i.kind.KJalr? then Times(2, if IsReturn(i) then BRet else BIndirJump)
    else if i.kind.KJal? then [Gap(BDirJump)]
    else if i.kind.KBranch? then
      var taken := Condition(i.funct3, e.rs1Data, e.rs2Data);
      if GuessedTaken(i, e.pc) then (if taken then [Gap(BPredTaken)] else [Gap(BPredTaken), Gap(BCondBranch)])
      else if taken then Times(2, BCondBranch) else []
    else if LoadUse(e, next) then [Gap(BLoadUse)] else []
  }

  // The bubbles before an instruction that comes after es; out of reset the pipeline fills.
  function Before(es: seq<Entry>, i: Insn): seq<Port> {
    (if es == [] then Times(3, BFill) else Behind(es[|es| - 1], i)) + Times(Own(i), BDiv)
  }

  function Trace(es: seq<Entry>): seq<Port> {
    if es == [] then []
    else
      var n := |es| - 1;
      Trace(es[..n]) + Before(es[..n], es[n].insn) + [Ins(es[n])]
  }

  // ---------- The port of a run ----------

  function PortOf(c: Core, i: Inputs): Port {
    if c.exMem.valid then Ins(Seen(RetireEntry(c, i))) else Gap(c.exMem.bubble)
  }

  function Ports(bl: Blocks, code: Code, s: System, pins: seq<Pins>): (r: seq<Port>)
    requires CoreOk(s.core)
    ensures |r| == |pins|
  {
    if pins == [] then []
    else
      var t := Run(bl, code, s, pins[..|pins| - 1]).0;
      Ports(bl, code, s, pins[..|pins| - 1]) + [PortOf(t.core, InputOf(t, pins[|pins| - 1]))]
  }

  // ---------- What is in the pipeline ----------

  function InMem(s: System): Port {
    if s.core.exMem.valid then Ins(Seen(Complete(s))) else Gap(s.core.exMem.bubble)
  }

  // The bubbles that come before the next instruction: from EX, and from ID behind it.
  function Coming(code: Code, c: Core): seq<Port> {
    if c.idEx.valid then Times(InExFor(c.muldiv, c.idEx.dec), BDiv)
    else [Gap(c.idEx.bubble)] + (if c.slot.valid then [] else [Gap(c.slot.bubble)])
         + Times(Own(code(ArchPc(c))), BDiv)
  }

  // Behind an instruction that ID followed, the slot in ID says so.
  predicate Marked(c: Core) {
    c.idEx.valid && c.idEx.redirected ==> c.slot.bubble == if c.idEx.dec.jump then BDirJump else BPredTaken
  }

  predicate Shows(code: Code, t: System, es: seq<Entry>, ports: seq<Port>) {
    if Halted(t.core) then ports + [InMem(t)] == Trace(es)
    else Marked(t.core) && ports + [InMem(t)] + Coming(code, t.core) == Trace(es) + Before(es, code(ArchPc(t.core)))
  }

  lemma PortNow(code: Code, s: System, i: Inputs)
    requires Clock(code, s, i)
    ensures PortOf(s.core, i) == InMem(s)
  {
    hide S2.FetchInv, S2.SlotInv, MulDivInv, S2.HaltInv, S2.ExInv, LoadData, Seen, Wellformed, S2.BubbleInv;
    RetireNow(code, s, i);
  }

  lemma MarkedKeeps(bl: Blocks, code: Code, s: System, i: Inputs)
    requires Clock(code, s, i) && CoreOk(s.core) && Marked(s.core)
    ensures Marked(Next(bl, s.core, i))
  {
    hide S2.FetchInv, S2.SlotInv, MulDivInv, S2.MemInv, S2.BubbleInv, S2.ExInv, Wellformed, ExTrap, ExMret, ExWrong,
         Decode, ExTarget, RedirectWhy, IdHazard, ExLsu, ExMemD, NextCsr, NextMulDiv, NextRegs, IdRs, Resuming,
         ExStall;
    if ExStall(s.core) {
      StallNoFlush(bl, code, s, i);
    } else {
      JumpsExact(i.insn);
    }
  }

  // ---------- A clock in which nothing leaves EX ----------

  // Without a redirect: the instruction in ID waits for a load, moves, or ID is empty and its bubble moves.
  lemma MovedBubbles(bl: Blocks, code: Code, s: System, i: Inputs)
    requires Clock(code, s, i) && CoreOk(s.core) && !FlushId(bl, s.core, i) && !ExStall(s.core)
    ensures var c := Next(bl, s.core, i);
            && (IdHazard(s.core, i) ==> c.idEx.bubble == BLoadUse)
            && (!s.core.slot.valid ==> c.idEx.bubble == s.core.slot.bubble)
  {
    hide S2.Inv, Wellformed, NextCsr, NextMulDiv, NextRegs, ExMemD, Decode, ExTrap, ExTarget, RedirectWhy, ExStall,
         IdRs, ExMret, ExWrong, Follows, ExStop, Resuming, IdRedirect, ExRedirect, NextControl, FetchCtrlOf;
    NoStop(bl, s.core, i);
    if !s.core.slot.valid {
      EmptyIdStays(bl, s.core, i);
    }
  }

  lemma InMemNext(bl: Blocks, code: Code, s: System, i: Inputs)
    requires Clock(code, s, i) && CoreOk(s.core)
    ensures var m := InMem(NextSystem(bl, code, s, i));
            if Commits(bl, s.core, i) then m == Ins(Leaving(bl, s, i))
            else m == Gap(if s.core.idEx.valid then BDiv else s.core.idEx.bubble)
  {
    hide Inv, Wellformed, ArchOf, Commits, Execute, Seen, Complete, Leaving, ExRetire, NextIdEx, NextCsr, NextMulDiv,
         NextRegs, NextControl, FetchCtrlOf, NextEnv, ExAddr;
    NowExact(bl, code, s, i);
    Entered(bl, s, i);
  }

  lemma FirstOfTimes(n: nat, why: Bubble)
    ensures Times(n + 1, why) == [Gap(why)] + Times(n, why)
  {
  }

  lemma IdleComing(bl: Blocks, code: Code, s: System, i: Inputs)
    requires Clock(code, s, i) && CoreOk(s.core) && !Commits(bl, s.core, i) && !Halted(s.core)
    ensures var u := NextSystem(bl, code, s, i);
            Coming(code, s.core) == [InMem(u)] + Coming(code, u.core)
  {
    hide S2.Inv, Wellformed, Next, NextEnv, Decode, ExTrap, ExStall, ExRedirect, IdHazard, Own, InExFor, Execute,
         FlushId, InMem, Times, Halted, Commits, Follows;
    var c := Next(bl, s.core, i);
    IdleDistance(bl, code, s, i);
    InMemNext(bl, code, s, i);
    if s.core.idEx.valid {
      StallHolds(bl, code, s, i);
      FirstOfTimes(InExFor(c.muldiv, c.idEx.dec), BDiv);
    } else {
      EmptyEx(bl, s.core, i);
      Moved(bl, code, s, i);
      MovedBubbles(bl, code, s, i);
      if s.core.slot.valid {
        Fresh(s, bl, code, i);
        MovedCost(code, s, i, c);
        SlotNext(code, s.core);
      }
    }
  }

  lemma SlotNext(code: Code, c: Core)
    requires c.slot.valid && !c.idEx.valid && !Halted(c)
    ensures code(ArchPc(c)) == code(c.slot.pc)
  {
  }

  // ---------- A clock in which an instruction leaves EX ----------

  lemma FlushedBubbles(bl: Blocks, code: Code, s: System, i: Inputs)
    requires Clock(code, s, i) && CoreOk(s.core) && ExRedirect(bl, s.core, i) && !ExStall(s.core)
    ensures var c := Next(bl, s.core, i);
            && c.slot.bubble == RedirectWhy(bl, s.core, i)
            && c.idEx.bubble == if s.core.slot.valid then RedirectWhy(bl, s.core, i) else s.core.slot.bubble
  {
    hide S2.Inv, Wellformed, NextCsr, NextMulDiv, NextRegs, NextControl, ExMemD, Decode, ExTrap, ExTarget,
         RedirectWhy, IdHazard, ExStall, IdRs, IdRedirect, ExMret, ExWrong, Resuming, ExRedirect, Follows;
    RedirectFlushes(bl, s.core, i);
  }

  lemma RedirectFlushes(bl: Blocks, c: Core, i: Inputs)
    requires ExRedirect(bl, c, i)
    ensures FlushId(bl, c, i)
  {
    hide ExRedirect;
  }

  // The bubbles of a redirect from EX are those of the instruction.
  lemma FlushBehind(bl: Blocks, code: Code, s: System, i: Inputs, next: Insn)
    requires Clock(code, s, i) && CoreOk(s.core) && Commits(bl, s.core, i) && Marked(s.core)
    requires ExRedirect(bl, s.core, i) && !ExStall(s.core)
    ensures var w := RedirectWhy(bl, s.core, i);
            Behind(Leaving(bl, s, i), next) == [Gap(if s.core.slot.valid then w else s.core.slot.bubble), Gap(w)]
  {
    hide S2.Inv, Wellformed, ExTrap, ExStall, Decode, Follows, Leaving, Commits, Condition, BranchUnit, LoadUse,
         IsReturn;
    var x, e := s.core.idEx, Leaving(bl, s, i);
    LeavingFields(bl, code, s, i);
    FollowsExact(x.insn, x.pc);
    JumpsExact(x.insn);
    SystemExact(x.insn);
    HintsExact(x.insn);
    RunsInEx(code, s);
    if x.insn.kind.KJal? && !ExTrap(bl, s.core, i).valid {
      JalTaken(bl, code, s, i);
    }
    if ExTrap(bl, s.core, i).valid {
      TrapNotFollowed(bl, code, s, i);
    }
  }

  // An instruction that traps was not followed by ID.
  lemma TrapNotFollowed(bl: Blocks, code: Code, s: System, i: Inputs)
    requires Clock(code, s, i) && CoreOk(s.core) && ExTrap(bl, s.core, i).valid
    ensures !s.core.idEx.redirected
  {
    hide S2.FetchInv, S2.SlotInv, MulDivInv, S2.MemInv, S2.HaltInv, S2.BubbleInv, Wellformed, Add;
    var x := s.core.idEx;
    JumpsExact(x.insn);
    SystemExact(x.insn);
    AccessExact(x.insn);
  }

  // Without a redirect from EX: nothing behind it, the wait for a load, or the bubble of a jump ID followed.
  lemma MovesBehind(bl: Blocks, code: Code, s: System, i: Inputs, next: Insn)
    requires Clock(code, s, i) && CoreOk(s.core) && Commits(bl, s.core, i) && Marked(s.core)
    requires !FlushId(bl, s.core, i) && !ExStall(s.core) && (s.core.slot.valid ==> next == code(s.core.slot.pc))
    ensures Behind(Leaving(bl, s, i), next)
            == if s.core.slot.valid then (if IdHazard(s.core, i) then [Gap(BLoadUse)] else [])
               else [Gap(s.core.slot.bubble)]
  {
    hide S2.Inv, Wellformed, ExTrap, ExStall, Decode, Follows, Leaving, Commits, Condition, BranchUnit, LoadUse,
         IsReturn, IdHazard, ExMret;
    var x, e := s.core.idEx, Leaving(bl, s, i);
    LeavingFields(bl, code, s, i);
    TrapFlushes(bl, s.core, i);
    FollowsExact(x.insn, x.pc);
    JumpsExact(x.insn);
    SystemExact(x.insn);
    MretIs(s.core);
    if x.insn.kind.KJal? {
      JalTaken(bl, code, s, i);
    }
    if s.core.slot.valid {
      HazardExact(bl, code, s, i);
      if IdHazard(s.core, i) {
        HazardIsLoad(code, s, i);
      }
    } else if x.insn.kind.KLoad? {
      NoLoadRedirects(code, s, i);
    }
  }

  lemma MretIs(c: Core)
    ensures ExMret(c) <==> c.idEx.valid && c.idEx.dec.mret
  {
  }

  lemma HazardIsLoad(code: Code, s: System, i: Inputs)
    requires Inv(code, s) && IdHazard(s.core, i)
    ensures s.core.idEx.insn.kind.KLoad?
  {
    hide S2.FetchInv, S2.SlotInv, MulDivInv, S2.MemInv, S2.HaltInv, S2.BubbleInv;
    AccessExact(s.core.idEx.insn);
  }

  lemma CommitComing(bl: Blocks, code: Code, s: System, i: Inputs)
    requires Clock(code, s, i) && CoreOk(s.core) && Commits(bl, s.core, i) && Marked(s.core)
    requires !Halted(Next(bl, s.core, i))
    ensures var c := Next(bl, s.core, i);
            var next := code(ArchPc(c));
            Coming(code, c) == Behind(Leaving(bl, s, i), next) + Times(Own(next), BDiv)
  {
    hide S2.Inv, Wellformed, Next, ExTrap, ExStall, Decode, Follows, ExMret, ExWrong, Leaving, Behind, LoadUse, Own,
         Commits, IdHazard, InExFor, ExRedirect, FlushId, RedirectWhy, Times;
    var c := Next(bl, s.core, i);
    LeavesNow(bl, code, s, i);
    RunsInEx(code, s);
    if FlushId(bl, s.core, i) {
      NotStopping(bl, s.core, i);
      Flushed(bl, code, s, i);
      FlushedBubbles(bl, code, s, i);
      FlushBehind(bl, code, s, i, code(ArchPc(c)));
    } else {
      Moved(bl, code, s, i);
      MovedBubbles(bl, code, s, i);
      if s.core.slot.valid {
        HeldSlot(bl, code, s, i);
        if !IdHazard(s.core, i) {
          Fresh(s, bl, code, i);
          MovedCost(code, s, i, c);
        }
      }
      MovesBehind(bl, code, s, i, code(ArchPc(c)));
    }
  }

  // ---------- Runs ----------

  lemma TraceOfNext(es: seq<Entry>, e: Entry)
    ensures Trace(es + [e]) == Trace(es) + Before(es, e.insn) + [Ins(e)]
    ensures forall i :: Before(es + [e], i) == Behind(e, i) + Times(Own(i), BDiv)
  {
    hide Behind, Own;
    assert (es + [e])[..|es|] == es;
  }

  lemma ShowsOn(bl: Blocks, code: Code, t: System, es: seq<Entry>, ports: seq<Port>, i: Inputs)
    requires CoreOk(t.core) && Clock(code, t, i) && !Halted(t.core) && Shows(code, t, es, ports)
    ensures Shows(code, NextSystem(bl, code, t, i), es + Now(bl, code, t, i), ports + [PortOf(t.core, i)])
  {
    hide Inv, Wellformed, Next, NextEnv, Commits, Coming, Trace, Before, Leaving, ArchPc, Now, ArchOf, InMem, PortOf,
         Halted, Marked, Behind, Times, Own;
    var u := NextSystem(bl, code, t, i);
    PortNow(code, t, i);
    NowExact(bl, code, t, i);
    InMemNext(bl, code, t, i);
    MarkedKeeps(bl, code, t, i);
    var shown := ports + [InMem(t)];
    if Commits(bl, t.core, i) {
      var e := Leaving(bl, t, i);
      TraceOfNext(es, e);
      DueNow(bl, code, t, i);
      NothingComes(bl, code, t, i);
      assert shown + [InMem(u)] == Trace(es + [e]);
      if !Halted(u.core) {
        CommitComing(bl, code, t, i);
      }
    } else {
      IdleDistance(bl, code, t, i);
      IdleComing(bl, code, t, i);
      assert es + [] == es;
      assert shown + [InMem(u)] + Coming(code, u.core) == shown + ([InMem(u)] + Coming(code, u.core));
    }
  }

  lemma NothingComes(bl: Blocks, code: Code, s: System, i: Inputs)
    requires Clock(code, s, i) && CoreOk(s.core) && Commits(bl, s.core, i)
    ensures Coming(code, s.core) == []
  {
    hide Inv, Wellformed, Commits, ExStall, Decode;
    LeavesNow(bl, code, s, i);
  }

  /** Out of reset the port shows, clock by clock, three bubbles of the fill, and then the executed
    * instructions with the bubbles of their kind between them: a redirect with its reason, the wait for a
    * load, the steps of a division, and nothing else.
    */
  lemma {:induction false} PortExact(bl: Blocks, code: Code, s: System, pins: seq<Pins>, resetPc: Addr)
    requires AfterReset(s.core, resetPc) && Wellformed(code) && RunsAll(bl, code, s, pins)
    ensures var (t, log) := Run(bl, code, s, pins);
            Shows(code, t, EntriesOf(bl, code, s, log), Ports(bl, code, s, pins))
    decreases |pins|
  {
    hide Inv, Wellformed, NextSystem, ArchOf, Shows, Halted, Seen, EventOf, RetireEntry, PortOf;
    ResetInv(code, s, resetPc);
    if pins == [] {
      FirstPort(code, s, resetPc);
    } else {
      var pre := pins[..|pins| - 1];
      PortExact(bl, code, s, pre, resetPc);
      RunAgrees(bl, code, s, pre);
      var (t, log) := Run(bl, code, s, pre);
      var i := InputOf(t, pins[|pins| - 1]);
      ShowsOn(bl, code, t, EntriesOf(bl, code, s, log), Ports(bl, code, s, pre), i);
      Unfold(bl, code, ArchOf(s), log.events, EventOf(bl, t, i));
      NowIs(bl, code, t, i);
    }
  }

  lemma FirstPort(code: Code, s: System, resetPc: Addr)
    requires AfterReset(s.core, resetPc)
    ensures Shows(code, s, [], [])
  {
    hide Own;
    assert Times(3, BFill) == [Gap(BFill), Gap(BFill), Gap(BFill)];
  }
}
