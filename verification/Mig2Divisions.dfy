/** How long the divisions of a run hold EX: for every divide a clock for its start and one for each bit of
  * its dividend, however long the memories wait meanwhile.
  */
module Mig2Divisions {
  import opened Arith
  import opened Isa
  import opened Parts
  import opened Csr
  import opened MulDiv
  import opened Mig2
  import opened Mig2System
  import opened Mig2Commit
  import opened Mig2Refinement
  import opened Mig2Flow
  import opened Mig2Step
  import opened Mig2Runs
  import Divider
  import Mig2Progress

  // The clocks an executed instruction divides: its start, and its steps.
  function Work(e: Entry): nat {
    if e.insn.kind.KMulDiv? && e.insn.funct3 >= 4 then 1 + Divider.EarlySteps(e.insn.funct3, e.rs1Data, e.rs2Data)
    else 0
  }

  function Works(es: seq<Entry>): nat { if es == [] then 0 else Works(es[..|es| - 1]) + Work(es[|es| - 1]) }

  // A divide in EX has no result.
  predicate Unfinished(s: System) {
    var x := s.core.idEx;
    x.valid && x.insn.kind.KMulDiv? && x.insn.funct3 >= 4 && !s.core.muldiv.ready
  }

  // The clocks the divide in EX has divided.
  function Used(c: Core): int {
    var x := c.idEx;
    var all := 1 + Divider.EarlySteps(x.insn.funct3, x.rs1Data, x.rs2Data);
    if c.muldiv.ready then all else if c.muldiv.div.busy then all - c.muldiv.div.left else 0
  }

  // A divide that stays in EX.
  lemma HeldUses(bl: Blocks, code: Code, s: System, i: Inputs)
    requires Clock(bl, code, s, i) && s.core.idEx.valid && ExStall(bl, s.core, i)
    ensures Next(bl, s.core, i).idEx == s.core.idEx
    ensures Used(Next(bl, s.core, i)) == Used(s.core) + Bit(Unfinished(s))
  {
    hide FetchInv, SlotInv, MemInv, HaltInv, BubbleInv, NextFetch, NextIdEx, NextCsr, NextControl, NextRegs, ExMemD,
         MemWait, Decode, FetchCtrlOf, Divider.Start, Divider.EarlySteps, ExStall;
    var x := s.core.idEx;
    BehindStalled(bl, code, s, i);
    ReadyHeld(bl, code, s, i);
    DivControls(x.insn);
    Mig2Progress.DivSignedIs(x.insn);
    Divider.StartsWith(x.insn.funct3, x.rs1Data, x.rs2Data);
  }

  // EX free for the next instruction.
  lemma FreedUses(bl: Blocks, code: Code, s: System, i: Inputs)
    requires Clock(bl, code, s, i) && !ExStall(bl, s.core, i)
    ensures !Unfinished(s) && Used(Next(bl, s.core, i)) == 0
    ensures s.core.idEx.valid && IsDivInsn(s.core.idEx.insn) ==> s.core.muldiv.ready
    ensures !(s.core.idEx.valid && IsDivInsn(s.core.idEx.insn)) ==> Used(s.core) == 0
  {
    hide FetchInv, SlotInv, MemInv, HaltInv, BubbleInv, NextFetch, NextIdEx, NextCsr, NextControl, NextRegs, ExMemD,
         Decode, FetchCtrlOf, Divider.Start, Divider.EarlySteps, ExStall;
    NotStalling(bl, s.core, i);
    DivControls(s.core.idEx.insn);
  }

  lemma EntryOperandsOf(bl: Blocks, code: Code, s: System, i: Inputs)
    requires Clock(bl, code, s, i) && Commits(bl, s.core, i)
    ensures var e := Now(bl, code, s, i);
            && |e| == 1 && e[0].insn == s.core.idEx.insn
            && (IsDivInsn(e[0].insn) ==> e[0].rs1Data == s.core.idEx.rs1Data && e[0].rs2Data == s.core.idEx.rs2Data)
  {
    hide FetchInv, SlotInv, ExInv, MulDivInv, MemInv, HaltInv, BubbleInv, NextSystem, Complete, OnlyBytes, ExDone,
         ExTrap, ArchRegs, ArchPc, Halted, Value, NextPc, Misaligned, AccessMask, InPlace, TrapOf, StoreValue;
    NowExact(bl, code, s, i);
    EntersMem(bl, code, s, i);
    Operands(code, s, i);
  }

  /** One clock: the divide in EX divides, and all of its clocks are over when it executes. */
  lemma DivisionStep(bl: Blocks, code: Code, s: System, i: Inputs)
    requires Clock(bl, code, s, i)
    ensures Used(s.core) + Bit(Unfinished(s)) == Works(Now(bl, code, s, i)) + Used(Next(bl, s.core, i))
  {
    hide FetchInv, SlotInv, ExInv, MulDivInv, MemInv, HaltInv, BubbleInv, Next, Now, ExStall, Commits,
         Divider.EarlySteps;
    NowExact(bl, code, s, i);
    var now := Now(bl, code, s, i);
    if Commits(bl, s.core, i) {
      CommitNoStall(bl, code, s, i);
      FreedUses(bl, code, s, i);
      EntryOperandsOf(bl, code, s, i);
      EntersMem(bl, code, s, i);
      assert now[..0] == [];
    } else if s.core.idEx.valid {
      IdleStalls(bl, code, s, i);
      HeldUses(bl, code, s, i);
    } else {
      EmptyUses(bl, code, s, i);
    }
  }

  lemma EmptyUses(bl: Blocks, code: Code, s: System, i: Inputs)
    requires Clock(bl, code, s, i) && !s.core.idEx.valid
    ensures Used(s.core) == Used(Next(bl, s.core, i)) == 0
  {
    hide FetchInv, SlotInv, ExInv, MemInv, HaltInv, BubbleInv, NextFetch, NextIdEx, NextCsr, NextControl, NextRegs,
         ExMemD, Decode, FetchCtrlOf, Divider.Start, Divider.EarlySteps;
  }

  function UnfinishedClocks(bl: Blocks, s: System, ins: seq<Inputs>): nat
    requires CoreOk(s.core)
  {
    if ins == [] then 0
    else UnfinishedClocks(bl, s, ins[..|ins| - 1]) + Bit(Unfinished(Run(bl, s, ins[..|ins| - 1]).0))
  }

  lemma WorksAppend(es: seq<Entry>, e: seq<Entry>)
    requires |e| <= 1
    ensures Works(es + e) == Works(es) + Works(e)
  {
    hide Work;
    if e == [] {
      assert es + e == es;
    } else {
      assert (es + e)[..|es|] == es && e[..0] == [];
      assert Works(e) == Work(e[0]);
    }
  }

  /** The clocks of a run with an unfinished divide in EX are those of the divides it executed: for each a
    * clock, and as many as its dividend without its sign has bits, 32 for a divisor of 0.
    */
  lemma {:induction false} RunDivides(bl: Blocks, code: Code, s: System, ins: seq<Inputs>)
    requires CoreOk(s.core) && Inv(code, s) && Wellformed(code) && LegalRun(bl, code, s, ins)
    ensures var (t, log) := Run(bl, s, ins);
            UnfinishedClocks(bl, s, ins) + Used(s.core)
            == Works(Entries(bl, code, ArchOf(s), log.events)) + Used(t.core)
    decreases |ins|
  {
    hide FetchInv, SlotInv, ExInv, MemInv, HaltInv, BubbleInv, MulDivInv, Legal, Wellformed, EventOf, Next, NextEnv,
         RetireBubble, RetireValid, RequestOf, Dropped, ImemTaken, DmemTaken, IdMoves, FetchCtrlOf, RetireEntry,
         Starts, IdInsn, ExLsu, Seen, Used, Unfinished, ArchOf, Executed, Works, After;
    if ins == [] {
      assert Works([]) == 0 by { NoWorks(); }
    } else {
      var pre, i := ins[..|ins| - 1], ins[|ins| - 1];
      RunDivides(bl, code, s, pre);
      RunAgrees(bl, code, s, pre);
      var (t, log) := Run(bl, s, pre);
      DivisionStep(bl, code, t, i);
      Unfold(bl, code, ArchOf(s), log.events, EventOf(bl, t, i));
      WorksAppend(Entries(bl, code, ArchOf(s), log.events), Now(bl, code, t, i));
    }
  }

  lemma NoWorks()
    ensures Works([]) == 0
  {
  }
}
