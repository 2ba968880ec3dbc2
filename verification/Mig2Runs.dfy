/** Runs of Mig2, of any length and with any timing of the memories: what it retires, what leaves ID,
  * what memory takes, the divisions it starts and the bubbles, all against the sequential machine.
  */
module Mig2Runs {
  import opened Arith
  import opened Isa
  import opened Parts
  import opened Csr
  import opened MulDiv
  import opened Mig2
  import opened Mig2System
  import opened Mig2FetchProofs
  import opened Mig2Commit
  import opened Mig2Refinement
  import opened Mig2Flow
  import opened Mig2Step

  // An access to memory: where, which bytes, and what a store writes there.
  datatype Access = Access(we: bool, addr: Addr, bytes: Mask, data: Word)

  /** What a run shows: the events of the machine, the retired entries, the bubbles, the
    * instructions that left ID (address and instruction), the accesses the data memory took, how
    * many divisions started, how many requests the instruction memory took and how many of them were
    * dropped.
    */
  datatype Log = Log(events: seq<Event>, retired: seq<Entry>, bubbles: seq<Bubble>, left: seq<(Addr, Insn)>,
                     accesses: seq<Access>, starts: nat, fetched: nat, dropped: nat)

  const EMPTY_LOG := Log([], [], [], [], [], 0, 0, 0)

  function RequestOf(r: MemReq): Access {
    Access(r.we, r.addr, r.wstrb, if r.we then OnlyBytes(r.wdata, r.wstrb) else 0)
  }

  // Requests dropped in a clock: the one just taken, when fetch goes elsewhere, and the slot in ID
  // when it neither stays nor moves to EX.
  function Dropped(bl: Blocks, c: Core, i: Inputs): nat {
    var k := FetchCtrlOf(bl, c, i);
    Bit(ImemTaken(c.fetch, k, i) && k.redirect)
    + Bit(c.fetch.slot.valid && !IdKeep(c.fetch, k, i) && !IdMoves(bl, c, i))
  }

  function NextLog(bl: Blocks, s: System, i: Inputs, log: Log): Log {
    var c := s.core;
    Log(log.events + [EventOf(bl, s, i)],
        log.retired + (if RetireValid(c, i) then [Seen(RetireEntry(c, i))] else []),
        log.bubbles + (if RetireValid(c, i) then [] else [RetireBubble(c, i)]),
        log.left + (if IdMoves(bl, c, i) then [(c.fetch.slot.pc, IdInsn(c.fetch, i))] else []),
        log.accesses + (if DmemTaken(bl, c, i) then [RequestOf(ExLsu(bl, c, i).req)] else []),
        log.starts + Bit(Starts(c.muldiv, c.idEx.valid, c.idEx.dec)),
        log.fetched + Bit(ImemTaken(c.fetch, FetchCtrlOf(bl, c, i), i)),
        log.dropped + Dropped(bl, c, i))
  }

  // The state after the clocks with the given inputs, and what they showed.
  function Run(bl: Blocks, s: System, ins: seq<Inputs>): (r: (System, Log))
    requires CoreOk(s.core)
    ensures CoreOk(r.0.core)
  {
    if ins == [] then (s, EMPTY_LOG)
    else
      var (t, log) := Run(bl, s, ins[..|ins| - 1]);
      var i := ins[|ins| - 1];
      (NextSystem(bl, t, i), NextLog(bl, t, i, log))
  }

  predicate LegalRun(bl: Blocks, code: Code, s: System, ins: seq<Inputs>)
    requires CoreOk(s.core)
  {
    ins == [] ||
    (LegalRun(bl, code, s, ins[..|ins| - 1])
     && Legal(code, Run(bl, s, ins[..|ins| - 1]).0, ins[|ins| - 1]))
  }

  // ---------- What is under way in a state ----------

  function InFlight(s: System): seq<Entry> { if s.core.exMem.valid then [Seen(Complete(s))] else [] }

  function InEx(c: Core): seq<(Addr, Insn)> { if c.idEx.valid then [(c.idEx.pc, c.idEx.insn)] else [] }

  // A division of the instruction in EX runs or is finished.
  predicate Dividing(m: MulDivState) { m.div.busy || m.ready }

  // ---------- What the machine's entries say ----------

  function Issued(es: seq<Entry>): (r: seq<(Addr, Insn)>)
    ensures |r| == |es|
  {
    seq(|es|, k requires 0 <= k < |es| => (es[k].pc, es[k].insn))
  }

  function AccessOf(e: Entry): seq<Access> {
    if e.rmask != NO_BYTES then [Access(false, WordAddr(e.memAddr), e.rmask, 0)]
    else if e.wmask != NO_BYTES then [Access(true, WordAddr(e.memAddr), e.wmask, e.wdata)]
    else []
  }

  function AccessesOf(es: seq<Entry>): seq<Access> {
    if es == [] then [] else AccessesOf(es[..|es| - 1]) + AccessOf(es[|es| - 1])
  }

  function Divides(es: seq<Entry>): nat {
    if es == [] then 0 else Divides(es[..|es| - 1]) + Bit(IsDivInsn(es[|es| - 1].insn))
  }

  lemma UnfoldEntries(es: seq<Entry>, e: seq<Entry>)
    requires |e| <= 1
    ensures Issued(es + e) == Issued(es) + Issued(e)
    ensures AccessesOf(es + e) == AccessesOf(es) + AccessesOf(e)
    ensures Divides(es + e) == Divides(es) + Divides(e)
  {
    hide AccessOf, IsDivInsn;
    if e == [] {
      assert es + e == es;
    } else {
      assert (es + e)[..|es|] == es;
      assert e[..0] == [];
      assert AccessesOf(e) == AccessOf(e[0]) && Divides(e) == Bit(IsDivInsn(e[0].insn));
    }
  }

  // ---------- One clock ----------

  function Now(bl: Blocks, code: Code, s: System, i: Inputs): (r: seq<Entry>)
    requires CoreOk(s.core)
    ensures |r| <= 1
  {
    Executed(bl, code, ArchOf(s), EventOf(bl, s, i))
  }

  // A clock executes one instruction of the machine when EX commits, and none otherwise.
  lemma NowExact(bl: Blocks, code: Code, s: System, i: Inputs)
    requires Clock(bl, code, s, i)
    ensures Commits(bl, s.core, i) ==> Now(bl, code, s, i) == [Seen(Complete(NextSystem(bl, s, i)))]
    ensures Commits(bl, s.core, i) ==> Now(bl, code, s, i)[0].insn == s.core.idEx.insn
    ensures Commits(bl, s.core, i) ==> Now(bl, code, s, i)[0].pc == s.core.idEx.pc
    ensures !Commits(bl, s.core, i) ==> Now(bl, code, s, i) == []
  {
    hide Inv, Legal, NextSystem, Complete, OnlyBytes, Execute, ArchOf, ExDone, ExTrap;
    ClockRefines(bl, code, s, i);
    if Commits(bl, s.core, i) {
      EntersMem(bl, code, s, i);
      InsnOfEntry(bl, code, s, i);
    }
  }

  lemma InsnOfEntry(bl: Blocks, code: Code, s: System, i: Inputs)
    requires Clock(bl, code, s, i) && Commits(bl, s.core, i)
    ensures var e := Complete(NextSystem(bl, s, i));
            e.insn == s.core.idEx.insn && e.pc == s.core.idEx.pc
  {
    hide Inv, Legal, Next, NextEnv, PendingValue, Commits, ExTrap, ExLsu, ExDone, ExNextPc;
    EntersMem(bl, code, s, i);
  }

  // What MEM/WB holds retires unchanged, when its word is there.
  lemma RetireStep(bl: Blocks, code: Code, s: System, i: Inputs)
    requires Clock(bl, code, s, i)
    ensures (if RetireValid(s.core, i) then [Seen(RetireEntry(s.core, i))] else []) + InFlight(NextSystem(bl, s, i))
            == InFlight(s) + Now(bl, code, s, i)
  {
    hide FetchInv, SlotInv, MulDivInv, BubbleInv, ExInv, HaltInv, NextSystem, Now, LoadData, Seen, Commits;
    NowExact(bl, code, s, i);
    if MemWait(s.core, i) {
      WaitKeeps(bl, code, s, i);
    } else if s.core.exMem.valid {
      assert RetireEntry(s.core, i) == Complete(s);
      AfterRetire(bl, s, i);
    } else {
      AfterRetire(bl, s, i);
    }
  }

  lemma WaitKeeps(bl: Blocks, code: Code, s: System, i: Inputs)
    requires Clock(bl, code, s, i) && MemWait(s.core, i)
    ensures !Commits(bl, s.core, i)
    ensures Complete(NextSystem(bl, s, i)) == Complete(s) && NextSystem(bl, s, i).core.exMem == s.core.exMem
  {
    hide FetchInv, SlotInv, MulDivInv, BubbleInv, ExInv, HaltInv, NextFetch, FetchCtrlOf, NextIdEx, NextMulDiv,
         NextCsr, NextControl, LoadData, ExMemD, Decode;
    if DmemTaken(bl, s.core, i) {
      TakenCompletes(bl, code, s, i);
    }
  }

  lemma AfterRetire(bl: Blocks, s: System, i: Inputs)
    requires CoreOk(s.core) && !MemWait(s.core, i)
    ensures NextSystem(bl, s, i).core.exMem.valid == Commits(bl, s.core, i)
  {
    hide NextFetch, FetchCtrlOf, NextIdEx, NextMulDiv, NextCsr, NextControl, ExRetire, ExAddr, NextEnv, NextRegs,
         ExDone, ExTrap;
  }

  // An instruction that leaves ID is in EX next, stays there until it executes, and executes once.
  lemma LeftStep(bl: Blocks, code: Code, s: System, i: Inputs)
    requires Clock(bl, code, s, i)
    ensures InEx(s.core) + (if IdMoves(bl, s.core, i) then [(s.core.fetch.slot.pc, IdInsn(s.core.fetch, i))] else [])
            == Issued(Now(bl, code, s, i)) + InEx(Next(bl, s.core, i))
  {
    hide FetchInv, SlotInv, MulDivInv, BubbleInv, ExInv, HaltInv, MemInv, Next, Now, ExStall, ExTrap, FlushId, Halted;
    NowExact(bl, code, s, i);
    var d := Now(bl, code, s, i);
    if ExStall(bl, s.core, i) {
      BehindStalled(bl, code, s, i);
      StallsNoCommit(bl, code, s, i);
    } else if FlushId(bl, s.core, i) {
      BehindFlushed(bl, code, s, i);
    } else if Halted(s.core) {
      HaltedNotResuming(bl, s.core, i);
      BehindHalted(bl, code, s, i);
      HaltedIdle(code, s, i);
    } else {
      BehindMoves(bl, code, s, i);
      if IdMoves(bl, s.core, i) {
        MovedSlot(bl, s.core, i);
      }
    }
    if Commits(bl, s.core, i) {
      EntersMem(bl, code, s, i);
      assert Issued(d) == [(s.core.idEx.pc, s.core.idEx.insn)];
    }
  }

  lemma MovedSlot(bl: Blocks, c: Core, i: Inputs)
    requires CoreOk(c) && IdMoves(bl, c, i)
    ensures IdExD(bl, c, i).pc == c.fetch.slot.pc && IdExD(bl, c, i).insn == IdInsn(c.fetch, i)
  {
    hide ExStall, IdHazard, FlushId, IdRs;
  }

  lemma HaltedIdle(code: Code, s: System, i: Inputs)
    requires Inv(code, s) && Halted(s.core)
    ensures !s.core.idEx.valid && !IdFetch(s.core.fetch, i).valid
  {
  }

  // Memory takes exactly the accesses of the instructions that execute.
  lemma AccessStep(bl: Blocks, code: Code, s: System, i: Inputs)
    requires Clock(bl, code, s, i)
    ensures (if DmemTaken(bl, s.core, i) then [RequestOf(ExLsu(bl, s.core, i).req)] else [])
            == AccessesOf(Now(bl, code, s, i))
  {
    hide FetchInv, SlotInv, MulDivInv, BubbleInv, ExInv, HaltInv, MemInv, NextSystem, Now, ExStall, ExTrap, ExLsu,
         Complete, Seen;
    NowExact(bl, code, s, i);
    if Commits(bl, s.core, i) {
      assert Now(bl, code, s, i)[..0] == [];
      EntersMem(bl, code, s, i);
      AccessOfCommit(bl, code, s, i);
    } else if DmemTaken(bl, s.core, i) {
      TakenCompletes(bl, code, s, i);
    }
  }

  lemma AccessOfCommit(bl: Blocks, code: Code, s: System, i: Inputs)
    requires Clock(bl, code, s, i) && Commits(bl, s.core, i)
    ensures (if DmemTaken(bl, s.core, i) then [RequestOf(ExLsu(bl, s.core, i).req)] else [])
            == AccessOf(Seen(Complete(NextSystem(bl, s, i))))
  {
    hide FetchInv, SlotInv, MulDivInv, BubbleInv, ExInv, HaltInv, MemInv, Next, NextEnv, ExStall, ExTrap, ExLsu,
         PendingValue, OnlyBytes, ExAddr, ExRdData, ExNextPc, Decode;
    EntersMem(bl, code, s, i);
    if ExTrap(bl, s.core, i).valid {
      TrapAccess(bl, code, s, i);
    } else {
      RequestOfDone(bl, code, s, i);
    }
  }

  lemma RequestOfDone(bl: Blocks, code: Code, s: System, i: Inputs)
    requires Clock(bl, code, s, i) && ExDone(bl, s.core, i)
    ensures var l := ExLsu(bl, s.core, i);
            var k := InsnDone(s).kind;
            && DmemTaken(bl, s.core, i) == (k.KLoad? || k.KStore?)
            && (k.KLoad? ==> l.mem.rmask == l.req.wstrb && l.mem.rmask != NO_BYTES && !l.req.we
                             && WordAddr(l.mem.addr) == l.req.addr)
            && (k.KStore? ==> l.req.we && l.mem.rmask == NO_BYTES && l.mem.wmask == l.req.wstrb)
            && (k.KStore? ==> l.mem.wmask != NO_BYTES && l.mem.wdata == l.req.wdata)
            && (k.KStore? ==> WordAddr(l.mem.addr) == l.req.addr)
            && (!k.KLoad? && !k.KStore? ==> l.mem.rmask == l.mem.wmask == NO_BYTES)
  {
    hide FetchInv, SlotInv, MulDivInv, BubbleInv, HaltInv, ExInv, MemInv, ExTrap, Decode, TrapOf;
    var x := s.core.idEx;
    CompletingActs(bl, code, s, i);
    Operands(code, s, i);
    AccessExact(x.insn);
    if x.insn.kind.KLoad? || x.insn.kind.KStore? {
      LsuOfEx(bl, code, s, i);
      NotTrapping(code, s, i);
    } else {
      NoAccessOfEx(bl, code, s, i);
    }
  }

  // A divide starts the divider once, and frees it when it executes.
  lemma StartStep(bl: Blocks, code: Code, s: System, i: Inputs)
    requires Clock(bl, code, s, i)
    ensures var c := s.core;
            Bit(Starts(c.muldiv, c.idEx.valid, c.idEx.dec)) + Bit(Dividing(c.muldiv))
            == Divides(Now(bl, code, s, i)) + Bit(Dividing(Next(bl, c, i).muldiv))
  {
    hide FetchInv, SlotInv, BubbleInv, HaltInv, MemInv, Now, ExTrap, ExLsu, Decode, NextSystem, ExStall, NextFetch,
         FetchCtrlOf, NextIdEx, NextCsr, NextControl, ExMemD, NextRegs;
    NowExact(bl, code, s, i);
    var d := Now(bl, code, s, i);
    DivControls(s.core.idEx.insn);
    if Commits(bl, s.core, i) {
      assert d[..0] == [];
      EntersMem(bl, code, s, i);
      CommitNoStall(bl, code, s, i);
    } else if s.core.idEx.valid {
      IdleStalls(bl, code, s, i);
    }
  }

  lemma CommitNoStall(bl: Blocks, code: Code, s: System, i: Inputs)
    requires Clock(bl, code, s, i) && Commits(bl, s.core, i)
    ensures !ExStall(bl, s.core, i) && !MemWait(s.core, i) && !Stalls(s.core.muldiv, s.core.idEx.valid, s.core.idEx.dec)
  {
    hide Inv, Legal, ExTrap, MemWait, DmemWait;
    if ExStall(bl, s.core, i) {
      StallsNoCommit(bl, code, s, i);
    }
  }

  // An instruction stays in EX for a division, behind a load, or for memory to take its request.
  lemma IdleStalls(bl: Blocks, code: Code, s: System, i: Inputs)
    requires Clock(bl, code, s, i) && !Commits(bl, s.core, i) && s.core.idEx.valid
    ensures ExStall(bl, s.core, i)
    ensures s.core.muldiv.ready ==> MemWait(s.core, i)
  {
    hide Inv, Legal, ExTrap, MemWait, DmemWait, Stalls;
    ReadyHeld(bl, code, s, i);
  }

  // Each request the instruction memory takes leaves ID once, is dropped once, or is in ID.
  lemma FetchStep(bl: Blocks, code: Code, s: System, i: Inputs)
    requires Clock(bl, code, s, i)
    ensures var f := s.core.fetch;
            var k := FetchCtrlOf(bl, s.core, i);
            Bit(ImemTaken(f, k, i)) + Bit(f.slot.valid)
            == Bit(IdMoves(bl, s.core, i)) + Dropped(bl, s.core, i) + Bit(NextFetch(f, k, i).slot.valid)
  {
    hide SlotInv, BubbleInv, HaltInv, MemInv, MulDivInv, ExInv, FetchInv, ExTrap, ExLsu, Decode, FetchCtrlOf, IdMoves;
    var k := FetchCtrlOf(bl, s.core, i);
    if ImemTaken(s.core.fetch, k, i) {
      TakenEntersIfId(code, s.core.fetch, k, i, s.env);
    }
    if IdMoves(bl, s.core, i) {
      MovingLeaves(bl, s.core, i);
    }
  }

  lemma MovingLeaves(bl: Blocks, c: Core, i: Inputs)
    requires IdMoves(bl, c, i)
    ensures c.fetch.slot.valid && !IdKeep(c.fetch, FetchCtrlOf(bl, c, i), i)
  {
    hide ExStall, IdHazard, FlushId, IdRs, ExRedirect, IdRedirect;
  }

  // A slot of MEM/WB that retires nothing has a reason.
  lemma BubbleStep(code: Code, s: System, i: Inputs)
    requires Inv(code, s) && !RetireValid(s.core, i)
    ensures RetireBubble(s.core, i) != BNone
  {
  }

  // ---------- Runs ----------

  // The log of a run from s to t is that of the sequential machine.
  predicate Agrees(bl: Blocks, code: Code, s: System, t: System, log: Log)
    requires CoreOk(s.core) && CoreOk(t.core)
  {
    var es := Entries(bl, code, ArchOf(s), log.events);
    && Runnable(bl, code, ArchOf(s), log.events)
    && ArchOf(t) == After(bl, code, ArchOf(s), log.events)
    && log.retired + InFlight(t) == InFlight(s) + es
    && InEx(s.core) + log.left == Issued(es) + InEx(t.core)
    && log.accesses == AccessesOf(es)
    && log.starts + Bit(Dividing(s.core.muldiv)) == Divides(es) + Bit(Dividing(t.core.muldiv))
    && log.fetched + Bit(s.core.fetch.slot.valid) == |log.left| + log.dropped + Bit(t.core.fetch.slot.valid)
    && |log.events| == |log.retired| + |log.bubbles| && BNone !in log.bubbles
    && t.core.order == (s.core.order + |log.retired|) % ORDERS
  }

  lemma ClockAgrees(bl: Blocks, code: Code, s: System, t: System, log: Log, i: Inputs)
    requires CoreOk(s.core) && CoreOk(t.core) && Clock(bl, code, t, i) && Agrees(bl, code, s, t, log)
    ensures Agrees(bl, code, s, NextSystem(bl, t, i), NextLog(bl, t, i, log))
  {
    hide Inv, Legal, ArchOf, Executed, EventOf, Apply, InFlight, InEx, AccessesOf, Divides, Issued, Dropped,
         ImemTaken, DmemTaken, IdMoves, FetchCtrlOf, RetireEntry, Starts, Dividing, RequestOf, IdInsn, ExLsu, NextEnv,
         NextFetch, NextIdEx, NextCsr, NextMulDiv, NextRegs, ExMemD, NextControl, Enabled, RetireBubble, Seen;
    var es := Entries(bl, code, ArchOf(s), log.events);
    var now := Now(bl, code, t, i);
    var u := NextSystem(bl, t, i);
    ClockRefines(bl, code, t, i);
    Unfold(bl, code, ArchOf(s), log.events, EventOf(bl, t, i));
    UnfoldEntries(es, now);
    AccessStep(bl, code, t, i);
    StartStep(bl, code, t, i);
    FetchStep(bl, code, t, i);
    RetireAgrees(bl, code, s, t, log, i);
    LeftAgrees(bl, code, s, t, log, i);
  }

  lemma RetireAgrees(bl: Blocks, code: Code, s: System, t: System, log: Log, i: Inputs)
    requires CoreOk(s.core) && CoreOk(t.core) && Clock(bl, code, t, i) && Agrees(bl, code, s, t, log)
    ensures var u := NextSystem(bl, t, i);
            var log' := NextLog(bl, t, i, log);
            && log'.retired + InFlight(u)
               == InFlight(s) + (Entries(bl, code, ArchOf(s), log.events) + Now(bl, code, t, i))
            && |log'.events| == |log'.retired| + |log'.bubbles| && BNone !in log'.bubbles
            && u.core.order == (s.core.order + |log'.retired|) % ORDERS
  {
    hide Inv, Legal, ArchOf, Executed, EventOf, InFlight, InEx, AccessesOf, Divides, Issued, Dropped, ImemTaken,
         DmemTaken, IdMoves, FetchCtrlOf, RetireEntry, Starts, Dividing, RequestOf, IdInsn, ExLsu, NextEnv, NextFetch,
         NextIdEx, NextCsr, NextMulDiv, NextRegs, ExMemD, NextControl, RetireBubble, Seen, Entries, After, Runnable,
         RetireValid, Now;
    var es := Entries(bl, code, ArchOf(s), log.events);
    var now := Now(bl, code, t, i);
    RetireStep(bl, code, t, i);
    if !RetireValid(t.core, i) {
      BubbleStep(code, t, i);
    }
    assert InFlight(s) + (es + now) == (InFlight(s) + es) + now;
    assert (log.retired + InFlight(t)) + now == log.retired + (InFlight(t) + now);
  }

  lemma LeftAgrees(bl: Blocks, code: Code, s: System, t: System, log: Log, i: Inputs)
    requires CoreOk(s.core) && CoreOk(t.core) && Clock(bl, code, t, i) && Agrees(bl, code, s, t, log)
    ensures InEx(s.core) + NextLog(bl, t, i, log).left
            == Issued(Entries(bl, code, ArchOf(s), log.events)) + Issued(Now(bl, code, t, i))
               + InEx(NextSystem(bl, t, i).core)
  {
    hide Inv, Legal, ArchOf, Executed, EventOf, InFlight, InEx, AccessesOf, Divides, Issued, Dropped, ImemTaken,
         DmemTaken, IdMoves, FetchCtrlOf, RetireEntry, Starts, Dividing, RequestOf, IdInsn, ExLsu, NextEnv,
         RetireBubble, Seen, Entries, After, Runnable, RetireValid, Now, Next;
    LeftStep(bl, code, t, i);
    var now := if IdMoves(bl, t.core, i) then [(t.core.fetch.slot.pc, IdInsn(t.core.fetch, i))] else [];
    assert InEx(s.core) + NextLog(bl, t, i, log).left == (InEx(s.core) + log.left) + now;
    var done := Issued(Entries(bl, code, ArchOf(s), log.events));
    assert (done + InEx(t.core)) + now == done + (InEx(t.core) + now);
  }

  /** Every legal run keeps the invariant and shows exactly what the sequential machine does. */
  lemma {:induction false} RunAgrees(bl: Blocks, code: Code, s: System, ins: seq<Inputs>)
    requires Inv(code, s) && Wellformed(code) && LegalRun(bl, code, s, ins)
    ensures var (t, log) := Run(bl, s, ins);
            Inv(code, t) && Agrees(bl, code, s, t, log)
    decreases |ins|
  {
    hide FetchInv, SlotInv, ExInv, MemInv, HaltInv, BubbleInv, MulDivInv, Legal, NextSystem, NextLog, Agrees;
    if ins == [] {
      EmptyAgrees(bl, code, s);
    } else {
      RunAgrees(bl, code, s, ins[..|ins| - 1]);
      var (t, log) := Run(bl, s, ins[..|ins| - 1]);
      var i := ins[|ins| - 1];
      StepKeepsInv(bl, code, t, i);
      ClockAgrees(bl, code, s, t, log, i);
    }
  }

  lemma EmptyAgrees(bl: Blocks, code: Code, s: System)
    requires Inv(code, s)
    ensures Agrees(bl, code, s, s, EMPTY_LOG)
  {
    hide ArchOf, InFlight, InEx, FetchInv, SlotInv, ExInv, MemInv, HaltInv, BubbleInv, MulDivInv;
    assert InFlight(s) + [] == InFlight(s);
    assert Issued([]) + InEx(s.core) == InEx(s.core);
  }
}
