/** Every clock of Mig2 keeps the invariant and is one step of the sequential machine, or none. */
module Mig2Step {
  import opened Isa
  import opened Parts
  import opened Csr
  import opened MulDiv
  import opened Mig2
  import opened Mig2System
  import opened Mig2FetchProofs
  import opened Mig2Commit
  import opened Mig2Refinement
  import opened Mig2Flow

  // ---------- Operands ----------

  // Reading through the write of MEM/WB gives the register of the machine.
  lemma ReadThrough(code: Code, s: System, i: Inputs, r: RegId)
    requires Inv(code, s) && Legal(code, s, i) && !MemWait(s.core, i)
    ensures Forward(r, ReadReg(s.core.regs, r), 0, 0, MemRd(s.core, i), MemRdData(s.core, i)) == ArchRegs(s)[r]
  {
    hide FetchInv, ExInv, SlotInv, MulDivInv, HaltInv, BubbleInv, LoadData, Decode;
  }

  /** Forwarding and interlock are exact: an instruction that moves from ID to EX takes the registers
    * of the machine after all older instructions.
    */
  lemma OperandExact(bl: Blocks, code: Code, s: System, i: Inputs, r: RegId)
    requires Clock(bl, code, s, i) && IdMoves(bl, s.core, i)
    requires var d := IdDec(s.core, i); (d.usesRs1 && d.rs1 == r) || (d.usesRs2 && d.rs2 == r)
    ensures IdRs(bl, s.core, i, r) == ArchRegs(NextSystem(bl, s, i))[r]
  {
    hide FetchInv, ExInv, SlotInv, MulDivInv, HaltInv, BubbleInv, MemInv, LoadData, Decode, Next, NextEnv, ArchRegs,
         ExRdData, Value, ExTrap, IdDec, MemRdData, IdFetch, NextPc, CsrsAfter, StoreValue, Misaligned, Target, Jumps,
         ExLsu, TrapOf;
    ReadThrough(code, s, i, r);
    if ExDone(bl, s.core, i) {
      var x := s.core.idEx;
      CompletingActs(bl, code, s, i);
      RegsDone(bl, code, s, i);
      Operands(code, s, i);
      if r != 0 && r == Dest(x.insn) {
        AccessExact(x.insn);
        ValueOfEx(bl, code, s, i);
      }
    } else {
      assert !Commits(bl, s.core, i);
      RegsIdle(bl, code, s, i);
      assert s.core.control.running by { MovesRuns(bl, code, s, i); }
    }
  }

  lemma MovesRuns(bl: Blocks, code: Code, s: System, i: Inputs)
    requires Clock(bl, code, s, i) && IdMoves(bl, s.core, i)
    ensures s.core.control.running && !s.core.control.memHalting
  {
    hide FetchInv, ExInv, SlotInv, MulDivInv, BubbleInv, MemInv, ExStall, IdHazard, FlushId;
  }

  // ---------- The next address ----------

  // EX's one comparison catches every wrong path: without a redirect fetch is where it should be.
  lemma BelievedRight(code: Code, s: System, i: Inputs)
    requires Acting(code, s, i) && !ExWrong(s.core, i)
    ensures BehindEx(s.core) == ExBranchPc(s.core.idEx)
  {
    hide FetchInv, SlotInv, MulDivInv, BubbleInv, MemInv, HaltInv, Add, WordAddr, BranchCond;
    JumpsExact(s.core.idEx.insn);
  }

  lemma StopExact(bl: Blocks, code: Code, s: System, i: Inputs)
    requires Clock(bl, code, s, i) && ExDone(bl, s.core, i)
    ensures ExStop(s.core, i) <==> InsnDone(s).kind.KEbreak?
    ensures ExStop(s.core, i) ==> !ExRedirect(bl, s.core, i)
    ensures ExStop(s.core, i) ==> NextPc(ArchOf(s), InsnDone(s), Rs1(s), Rs2(s)) == NextAddr(s.core.idEx.pc)
  {
    hide FetchInv, SlotInv, MulDivInv, BubbleInv, MemInv, Decode, ExTrap, ExLsu;
    CompletingActs(bl, code, s, i);
    SystemExact(InsnDone(s));
    JumpsExact(InsnDone(s));
  }

  lemma PcDone(bl: Blocks, code: Code, s: System, i: Inputs)
    requires Clock(bl, code, s, i) && ExDone(bl, s.core, i)
    ensures var a := CompleteArch(bl, ArchOf(s), InsnDone(s), ContextOf(s, i));
            var c' := NextSystem(bl, s, i).core;
            ArchPc(c') == a.pc && Halted(c') == a.halted
    ensures !Jumps(InsnDone(s), Rs1(s), Rs2(s)) && !InsnDone(s).kind.KMret? ==>
              4 * ArchPc(NextSystem(bl, s, i).core) == (4 * s.core.idEx.pc + 4) % 0x1_0000_0000
  {
    hide FetchInv, SlotInv, MulDivInv, BubbleInv, MemInv, ExInv, NextFetch, NextIdEx, NextMulDiv, NextCsr, NextEnv,
         NextRegs, ExMemD, NextPc, CsrsAfter, StoreValue, DestValue, ExTarget, IdMoves, IdExD, ExTrap, ExStall,
         ArchRegs, Value, ExWrong, ExBranchPc, TrapOf, FetchCtrlOf;
    CompletingActs(bl, code, s, i);
    StopExact(bl, code, s, i);
    NextOfEx(bl, code, s, i);
    if FlushId(bl, s.core, i) {
      BehindFlushed(bl, code, s, i);
    } else {
      BehindMoves(bl, code, s, i);
      BelievedRight(code, s, i);
      if IdMoves(bl, s.core, i) {
        MovesFromSlot(bl, s.core, i);
      }
    }
  }

  lemma MovesFromSlot(bl: Blocks, c: Core, i: Inputs)
    requires CoreOk(c) && IdMoves(bl, c, i)
    ensures IdExD(bl, c, i).pc == BehindEx(c)
  {
    hide ExStall, IdHazard, FlushId, IdRs;
  }

  lemma PcTrap(bl: Blocks, code: Code, s: System, i: Inputs)
    requires Clock(bl, code, s, i) && ExTrap(bl, s.core, i).valid
    ensures var c' := NextSystem(bl, s, i).core;
            ArchPc(c') == s.core.csr.csrs.mtvec && !Halted(c')
  {
    hide FetchInv, SlotInv, MulDivInv, BubbleInv, MemInv, ExInv, NextFetch, NextIdEx, NextMulDiv, NextCsr, NextEnv,
         NextRegs, ExMemD, ExTrap, ExStall, FetchCtrlOf, ExWrong;
    TrapActs(bl, code, s, i);
    BehindFlushed(bl, code, s, i);
    assert !ExStop(s.core, i) by { TrapNoStop(bl, code, s, i); }
  }

  lemma TrapNoStop(bl: Blocks, code: Code, s: System, i: Inputs)
    requires Clock(bl, code, s, i) && ExTrap(bl, s.core, i).valid
    ensures !ExStop(s.core, i)
  {
    hide FetchInv, SlotInv, MulDivInv, BubbleInv, MemInv;
    SystemExact(InsnDone(s));
    TrapActs(bl, code, s, i);
    TrapOfEx(bl, code, s, i);
  }

  lemma PcIdle(bl: Blocks, code: Code, s: System, i: Inputs)
    requires Clock(bl, code, s, i) && !Commits(bl, s.core, i)
    ensures var c' := NextSystem(bl, s, i).core;
            ArchPc(c') == ArchPc(s.core) && Halted(c') == (Halted(s.core) && (s.core.control.running || !i.resume))
  {
    hide FetchInv, SlotInv, MulDivInv, BubbleInv, MemInv, ExInv, NextFetch, NextIdEx, NextMulDiv, NextCsr, NextEnv,
         NextRegs, ExMemD, ExLsu, FetchCtrlOf, Decode, IdExD, IdMoves;
    if ExStall(bl, s.core, i) {
      BehindStalled(bl, code, s, i);
      StallNoFlush(bl, code, s, i);
    } else if Resuming(s.core, i) {
      BehindFlushed(bl, code, s, i);
    } else if Halted(s.core) {
      BehindHalted(bl, code, s, i);
    } else {
      BehindMoves(bl, code, s, i);
      if IdMoves(bl, s.core, i) {
        MovesFromSlot(bl, s.core, i);
      }
    }
  }

  // ---------- The invariant ----------

  lemma FetchPart(bl: Blocks, code: Code, s: System, i: Inputs)
    requires Clock(bl, code, s, i)
    ensures var s' := NextSystem(bl, s, i);
            FetchInv(code, s'.core.fetch, s'.env) && SlotInv(s'.core.fetch)
  {
    hide FetchInv, SlotInv, MulDivInv, BubbleInv, MemInv, ExInv, HaltInv, NextFetch, NextIdEx, NextMulDiv, NextCsr,
         NextRegs, ExMemD, NextControl, FetchCtrlOf;
    var k := FetchCtrlOf(bl, s.core, i);
    ControlLegal(bl, code, s, i);
    FetchKeepsInv(code, s.core.fetch, k, i, s.env);
    SlotKeeps(code, s.core.fetch, k, i, s.env);
    EnvFields(code, NextFetch(s.core.fetch, k, i), NextFetchEnv(s.core.fetch, k, i, s.env), NextEnv(bl, s, i));
  }

  lemma EnvFields(code: Code, f: FetchState, e: Env, e': Env)
    requires e.iBusy == e'.iBusy && e.iAddr == e'.iAddr
    ensures FetchInv(code, f, e) == FetchInv(code, f, e')
  {
  }

  // Machine registers change only when the instruction in EX leaves it.
  lemma ExPart(bl: Blocks, code: Code, s: System, i: Inputs)
    requires Clock(bl, code, s, i)
    ensures ExInv(code, NextSystem(bl, s, i))
  {
    hide FetchInv, SlotInv, MulDivInv, BubbleInv, MemInv, HaltInv, NextEnv, Next, IdMoves, ExStall, FlushId, IdExD,
         Decode, Commits, Halted, Believed, FollowsFetch, BehindEx, ArchRegs;
    if ExStall(bl, s.core, i) {
      if s.core.idEx.valid {
        StallKeepsEx(bl, code, s, i);
      } else {
        BehindStalled(bl, code, s, i);
      }
    } else if FlushId(bl, s.core, i) {
      BehindFlushed(bl, code, s, i);
    } else if Halted(s.core) {
      HaltedNotResuming(bl, s.core, i);
      BehindHalted(bl, code, s, i);
    } else {
      BehindMoves(bl, code, s, i);
      if IdMoves(bl, s.core, i) {
        MovedEx(bl, code, s, i);
      }
    }
  }

  lemma HaltedNotResuming(bl: Blocks, c: Core, i: Inputs)
    requires !FlushId(bl, c, i)
    ensures !Resuming(c, i)
  {
  }

  lemma StallKeepsEx(bl: Blocks, code: Code, s: System, i: Inputs)
    requires Clock(bl, code, s, i) && ExStall(bl, s.core, i) && s.core.idEx.valid
    ensures ExInv(code, NextSystem(bl, s, i))
  {
    hide FetchInv, SlotInv, MulDivInv, BubbleInv, MemInv, NextEnv, Next, ExStall, Decode, Believed, FollowsFetch,
         ArchRegs;
    BehindStalled(bl, code, s, i);
    StallsNoCommit(bl, code, s, i);
    RegsIdle(bl, code, s, i);
  }

  lemma StallsNoCommit(bl: Blocks, code: Code, s: System, i: Inputs)
    requires Clock(bl, code, s, i) && ExStall(bl, s.core, i)
    ensures !Commits(bl, s.core, i)
  {
    hide ExStall, ExTrap, Inv, Legal, ExStop;
    StallNoFlush(bl, code, s, i);
  }

  lemma MovedEx(bl: Blocks, code: Code, s: System, i: Inputs)
    requires Clock(bl, code, s, i) && IdMoves(bl, s.core, i)
    requires var c' := Next(bl, s.core, i);
             c'.idEx == IdExD(bl, s.core, i) && BehindEx(c') == Believed(c'.idEx)
    ensures ExInv(code, NextSystem(bl, s, i))
  {
    hide SlotInv, MulDivInv, BubbleInv, MemInv, HaltInv, FetchInv, NextEnv, Next, ExStall, Decode, Believed,
         FollowsFetch, ArchRegs, BehindEx, IdRs, IdRedirected, IdRedirect;
    IdDecExact(code, s, i);
    LeavesBelieved(bl, code, s, i);
    var d := IdDec(s.core, i);
    if d.usesRs1 {
      OperandExact(bl, code, s, i, d.rs1);
    }
    if d.usesRs2 {
      OperandExact(bl, code, s, i, d.rs2);
    }
  }

  lemma MulDivPart(bl: Blocks, code: Code, s: System, i: Inputs)
    requires Clock(bl, code, s, i)
    ensures var c' := NextSystem(bl, s, i).core;
            MulDivInv(c'.muldiv, c'.idEx.valid, c'.idEx.dec, c'.idEx.rs1Data, c'.idEx.rs2Data)
  {
    hide FetchInv, SlotInv, MulDivInv, BubbleInv, MemInv, HaltInv, ExInv, NextFetch, NextCsr, NextRegs, ExMemD,
         NextControl, NextIdEx, FetchCtrlOf, NextMulDiv, NextEnv, ExStall;
    var x := s.core.idEx;
    var x' := NextSystem(bl, s, i).core.idEx;
    if ExStall(bl, s.core, i) {
      BehindStalled(bl, code, s, i);
      ReadyHeld(bl, code, s, i);
      HeldKeeps(s.core.muldiv, true, MemWait(s.core, i), x.valid, x.dec, x.rs1Data, x.rs2Data);
    } else {
      NotStalling(bl, s.core, i);
      MovedKeeps(s.core.muldiv, true, x.valid, x.dec, x.rs1Data, x.rs2Data, x'.valid, x'.dec, x'.rs1Data, x'.rs2Data);
    }
  }

  // A finished division waits in EX only behind the load in MEM/WB.
  lemma ReadyHeld(bl: Blocks, code: Code, s: System, i: Inputs)
    requires Clock(bl, code, s, i) && ExStall(bl, s.core, i)
    ensures s.core.muldiv.ready ==> MemWait(s.core, i)
  {
    hide FetchInv, SlotInv, BubbleInv, MemInv, HaltInv;
    AccessExact(s.core.idEx.insn);
    SystemExact(s.core.idEx.insn);
  }

  lemma NotStalling(bl: Blocks, c: Core, i: Inputs)
    requires !ExStall(bl, c, i)
    ensures !MemWait(c, i) && !Stalls(c.muldiv, c.idEx.valid, c.idEx.dec)
  {
  }

  lemma MemPart(bl: Blocks, code: Code, s: System, i: Inputs)
    requires Clock(bl, code, s, i)
    ensures MemInv(NextSystem(bl, s, i))
  {
    hide FetchInv, SlotInv, MulDivInv, BubbleInv, HaltInv, ExInv, NextFetch, NextCsr, NextRegs, NextControl, NextIdEx,
         FetchCtrlOf, NextMulDiv, ExLsu, ExTrap, Stalls, ExRdData, ExAddr, ExNextPc, TrapOf, Value, Decode;
    if Commits(bl, s.core, i) {
      EntersMem(bl, code, s, i);
      if ExTrap(bl, s.core, i).valid {
        TrapAccess(bl, code, s, i);
      } else {
        CompletingActs(bl, code, s, i);
        AccessOfEx(bl, code, s, i);
      }
    } else if DmemTaken(bl, s.core, i) {
      TakenCompletes(bl, code, s, i);
    }
  }

  // A load that completes has its request taken, and nothing else reads.
  lemma AccessOfEx(bl: Blocks, code: Code, s: System, i: Inputs)
    requires Clock(bl, code, s, i) && ExDone(bl, s.core, i)
    ensures var x := s.core.idEx;
            && x.dec.rdSrc.RdLoad? == x.insn.kind.KLoad?
            && (x.insn.kind.KLoad? <==> DmemTaken(bl, s.core, i) && !ExLsu(bl, s.core, i).req.we)
            && (x.insn.kind.KLoad? <==> ExLsu(bl, s.core, i).mem.rmask != NO_BYTES)
  {
    hide FetchInv, SlotInv, MulDivInv, BubbleInv, HaltInv, ExInv, MemInv, ExTrap, Decode, TrapOf;
    var x := s.core.idEx;
    CompletingActs(bl, code, s, i);
    Operands(code, s, i);
    AccessExact(x.insn);
    if x.insn.kind.KLoad? || x.insn.kind.KStore? {
      LsuOfEx(bl, code, s, i);
      NotTrapping(code, s, i);
    }
  }

  lemma NotTrapping(code: Code, s: System, i: Inputs)
    requires |s.core.regs| == 32 && TrapDue(s, i) == None
    requires InsnDone(s).kind.KLoad? || InsnDone(s).kind.KStore?
    ensures !Misaligned(InsnDone(s).funct3, Add(Rs1(s), InsnDone(s).imm))
  {
  }

  // An EBREAK that halts completes at once, and reads nothing.
  lemma StopsAlone(bl: Blocks, code: Code, s: System, i: Inputs)
    requires Clock(bl, code, s, i) && ExStop(s.core, i)
    ensures ExDone(bl, s.core, i) && InsnDone(s).kind.KEbreak? && !s.core.idEx.dec.rdSrc.RdLoad?
  {
    hide FetchInv, SlotInv, MulDivInv, BubbleInv, MemInv, HaltInv, ExTrap, ExStall, Decode;
    SystemExact(InsnDone(s));
    AccessExact(InsnDone(s));
    TrapOfEx(bl, code, s, i);
    if ExStall(bl, s.core, i) {
      StallStays(bl, code, s, i);
    }
  }

  lemma HaltPart(bl: Blocks, code: Code, s: System, i: Inputs)
    requires Clock(bl, code, s, i)
    ensures HaltInv(NextSystem(bl, s, i).core)
  {
    hide FetchInv, SlotInv, MulDivInv, BubbleInv, ExInv, MemInv, NextFetch, NextCsr, NextRegs, NextIdEx, NextEnv,
         FetchCtrlOf, NextMulDiv, ExLsu, Stalls, ExRetire, ExBubble, TrapOf, Value, Decode, ExAddr, ExStall;
    if ExStop(s.core, i) {
      StopsAlone(bl, code, s, i);
      BehindFlushed(bl, code, s, i);
    } else if Halted(s.core) && !Resuming(s.core, i) {
      BehindHalted(bl, code, s, i);
    }
  }

  lemma BubblePart(bl: Blocks, code: Code, s: System, i: Inputs)
    requires Clock(bl, code, s, i)
    ensures BubbleInv(NextSystem(bl, s, i).core)
  {
    hide FetchInv, SlotInv, MulDivInv, ExInv, MemInv, HaltInv, NextCsr, NextRegs, NextEnv, NextIdEx, NextFetch,
         FetchCtrlOf, NextMulDiv, ExRetire, ExAddr, NextControl;
    SlotBubble(bl, s.core, i);
    IdExBubble(bl, s.core, i);
    ExMemBubble(bl, s.core, i);
  }

  lemma SlotBubble(bl: Blocks, c: Core, i: Inputs)
    requires BubbleInv(c)
    ensures var f := NextFetch(c.fetch, FetchCtrlOf(bl, c, i), i); f.slot.valid <==> f.slot.bubble == BNone
  {
    hide ExStall, ExRedirect, IdRedirect, ExTarget, IdRedirectPc;
  }

  lemma IdExBubble(bl: Blocks, c: Core, i: Inputs)
    requires BubbleInv(c) && CoreOk(c)
    ensures NextIdEx(bl, c, i).valid <==> NextIdEx(bl, c, i).bubble == BNone
  {
    hide ExStall, ExRedirect, ExStop, IdRs, IdRedirected, IdHazard, IdDec;
    assert RedirectWhy(bl, c, i) != BNone;
    var d := IdExD(bl, c, i);
    assert d.valid <==> d.bubble == BNone;
  }

  lemma ExMemBubble(bl: Blocks, c: Core, i: Inputs)
    requires BubbleInv(c)
    ensures var m := if MemWait(c, i) then c.exMem else ExMemD(bl, c, i); m.valid <==> m.bubble == BNone
  {
    hide ExRetire, ExAddr, ExLsu;
  }

  /** Every legal clock keeps the invariant. */
  lemma StepKeepsInv(bl: Blocks, code: Code, s: System, i: Inputs)
    requires Clock(bl, code, s, i)
    ensures Inv(code, NextSystem(bl, s, i))
  {
    hide FetchInv, SlotInv, MulDivInv, BubbleInv, ExInv, MemInv, HaltInv, NextCsr, NextRegs, NextEnv, NextIdEx,
         NextFetch, FetchCtrlOf, NextMulDiv, ExMemD, NextControl;
    FetchPart(bl, code, s, i);
    ExPart(bl, code, s, i);
    MulDivPart(bl, code, s, i);
    MemPart(bl, code, s, i);
    HaltPart(bl, code, s, i);
    BubblePart(bl, code, s, i);
  }

  /** The clock after a reset satisfies the invariant, and stands for the machine at the reset
    * address.
    */
  lemma ResetInv(code: Code, s: System, resetPc: Addr)
    requires AfterReset(s.core, resetPc) && !s.env.iBusy && !s.env.dBusy
    ensures Inv(code, s)
    ensures ArchOf(s) == Arch(resetPc, RegsOf(s.core.regs), RESET_CSRS, s.env.mem, false)
  {
  }

  // ---------- The refinement ----------

  lemma CommitExact(bl: Blocks, code: Code, s: System, i: Inputs)
    requires Clock(bl, code, s, i) && Commits(bl, s.core, i)
    ensures ArchOf(NextSystem(bl, s, i)) == Execute(bl, ArchOf(s), InsnDone(s), ContextOf(s, i)).0
  {
    hide NextSystem, CompleteEntry, TrapEntry, ExDone, ExTrap, ArchPc, ArchRegs, CompleteArch, TrapOf, FetchInv,
         SlotInv, MulDivInv, BubbleInv, ExInv, MemInv, HaltInv, Halted;
    EntersMem(bl, code, s, i);
    TrapOfEx(bl, code, s, i);
    MemExact(bl, code, s, i);
    if ExTrap(bl, s.core, i).valid {
      CsrsTrapped(bl, code, s, i);
      RegsTrap(bl, code, s, i);
      PcTrap(bl, code, s, i);
      TrapActs(bl, code, s, i);
      Operands(code, s, i);
    } else {
      CsrsDone(bl, code, s, i);
      RegsDone(bl, code, s, i);
      PcDone(bl, code, s, i);
    }
  }

  /** Every legal clock of Mig2 is one step of the sequential machine, exactly when an instruction
    * completes or traps in EX, and else none; what enters MEM/WB is the machine's entry. No prediction
    * and no timing of the memories shows.
    */
  lemma ClockRefines(bl: Blocks, code: Code, s: System, i: Inputs)
    requires Clock(bl, code, s, i)
    ensures Enabled(ArchOf(s), EventOf(bl, s, i))
    ensures EventOf(bl, s, i).Exec? ==> !ArchOf(s).halted
    ensures EventOf(bl, s, i).Debug? ==> ArchOf(s).halted
    ensures ArchOf(NextSystem(bl, s, i)) == Apply(bl, code, ArchOf(s), EventOf(bl, s, i))
    ensures EventOf(bl, s, i).Exec? ==>
              && NextSystem(bl, s, i).core.exMem.valid
              && Seen(Complete(NextSystem(bl, s, i)))
                 == Execute(bl, ArchOf(s), code(ArchOf(s).pc), ContextOf(s, i)).1
  {
    hide NextSystem, ExDone, ExTrap, FetchInv, SlotInv, MulDivInv, BubbleInv, MemInv, Execute, Complete, Seen,
         ArchRegs;
    if Commits(bl, s.core, i) {
      EntersMem(bl, code, s, i);
      Operands(code, s, i);
      CommitExact(bl, code, s, i);
      EntryExact(bl, code, s, i);
    } else {
      IdleExact(bl, code, s, i);
    }
  }

  lemma IdleExact(bl: Blocks, code: Code, s: System, i: Inputs)
    requires Clock(bl, code, s, i) && !Commits(bl, s.core, i)
    ensures ArchOf(NextSystem(bl, s, i)) == Apply(bl, code, ArchOf(s), EventOf(bl, s, i))
  {
    hide NextSystem, ExDone, ExTrap, FetchInv, SlotInv, MulDivInv, BubbleInv, MemInv, ExInv, HaltInv, Execute,
         ArchRegs, ArchPc, Legal, Wellformed;
    RegsIdle(bl, code, s, i);
    MemExact(bl, code, s, i);
    CsrsIdle(bl, code, s, i);
    PcIdle(bl, code, s, i);
  }
}
