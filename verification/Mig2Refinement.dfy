/** Every clock of Mig2 keeps the invariant, and is one step of the sequential machine or none. */
module Mig2Refinement {
  import opened Isa
  import opened Parts
  import opened Csr
  import opened MulDiv
  import opened Mig2
  import opened Mig2System
  import opened Mig2FetchProofs
  import opened Mig2Commit

  // A legal clock in a reachable state.
  predicate Clock(bl: Blocks, code: Code, s: System, i: Inputs) {
    Inv(code, s) && Wellformed(code) && Legal(code, s, i)
  }

  /** What the clock is for the machine: an instruction executes exactly when it leaves EX; while the
    * core is halted the debugger acts.
    */
  function EventOf(bl: Blocks, s: System, i: Inputs): Event {
    if Commits(bl, s.core, i) then Exec(ContextOf(s, i))
    else if !s.core.control.running then
      Debug(if i.dbgWrite then Some((i.dbgReg, i.dbgData)) else None, i.resume)
    else Stutter
  }

  // ---------- Registers ----------

  // The write of MEM/WB reaches the register file, and is no longer pending.
  lemma WriteBack(bl: Blocks, code: Code, s: System, i: Inputs)
    requires Clock(bl, code, s, i) && s.core.control.running
    ensures !MemWait(s.core, i) ==> RegsOf(NextRegs(s.core, i)) == ArchRegs(s)
    ensures MemWait(s.core, i) ==> NextRegs(s.core, i) == s.core.regs
  {
  }

  // Without a commit the registers of the machine stay, and the debugger writes them when halted.
  lemma RegsIdle(bl: Blocks, code: Code, s: System, i: Inputs)
    requires Clock(bl, code, s, i) && !Commits(bl, s.core, i)
    ensures ArchRegs(NextSystem(bl, s, i)) ==
            if !s.core.control.running && i.dbgWrite then WriteReg(ArchRegs(s), i.dbgReg, i.dbgData)
            else ArchRegs(s)
  {
    if s.core.control.running {
      WriteBack(bl, code, s, i);
    }
  }

  function InsnDone(s: System): Insn { s.core.idEx.insn }

  // The clock an instruction leaves EX, its entry goes to MEM/WB.
  lemma EntersMem(bl: Blocks, code: Code, s: System, i: Inputs)
    requires Clock(bl, code, s, i) && Commits(bl, s.core, i)
    ensures Acting(code, s, i)
    ensures NextSystem(bl, s, i).core.exMem == ExMemD(bl, s.core, i)
    ensures NextSystem(bl, s, i).core.exMem.valid
  {
    hide NextFetch, FetchCtrlOf, NextIdEx, NextMulDiv, NextCsr, NextControl, NextEnv, ExRetire, Decode, ExAddr,
         FetchInv, ExInv, SlotInv, MulDivInv, MemInv, BubbleInv, HaltInv;
  }

  // The register a completed instruction writes, and the value MEM/WB will write.
  lemma ResultOf(bl: Blocks, code: Code, s: System, i: Inputs)
    requires Clock(bl, code, s, i) && ExDone(bl, s.core, i)
    ensures var s' := NextSystem(bl, s, i);
            && s'.core.exMem.ret.rd == Dest(InsnDone(s))
            && (Dest(InsnDone(s)) != 0 ==> PendingValue(s') == DestValue(bl, ArchOf(s), InsnDone(s), ContextOf(s, i)))
            && (Dest(InsnDone(s)) == 0 ==> s'.core.exMem.ret.rdData == 0)
  {
    hide Next, NextEnv, ExTrap, Decode, ExLsu, ExRdData, ExNextPc, Value, LoadData, TrapOf, ExStall, FetchInv, ExInv,
         SlotInv, MulDivInv, MemInv, BubbleInv, HaltInv;
    EntersMem(bl, code, s, i);
    CompletingActs(bl, code, s, i);
    Operands(code, s, i);
    if Dest(InsnDone(s)) != 0 {
      if InsnDone(s).kind.KLoad? {
        LoadOfEx(bl, code, s, i);
      } else {
        ValueOfEx(bl, code, s, i);
      }
    }
  }

  lemma RegsDone(bl: Blocks, code: Code, s: System, i: Inputs)
    requires Clock(bl, code, s, i) && ExDone(bl, s.core, i)
    ensures ArchRegs(NextSystem(bl, s, i))
            == CompleteArch(bl, ArchOf(s), InsnDone(s), ContextOf(s, i)).regs
  {
    hide NextFetch, FetchCtrlOf, NextIdEx, NextMulDiv, NextCsr, NextControl, NextEnv, ExMemD, NextRegs, PendingValue,
         Decode, ExTrap, ExStall, NextPc, CsrsAfter, StoreValue, DestValue, Misaligned, FetchInv, ExInv, SlotInv,
         MulDivInv, MemInv, BubbleInv, HaltInv, ArchPc;
    CompletingActs(bl, code, s, i);
    WriteBack(bl, code, s, i);
    EntersMem(bl, code, s, i);
    ResultOf(bl, code, s, i);
  }

  // A trap writes no register.
  lemma RegsTrap(bl: Blocks, code: Code, s: System, i: Inputs)
    requires Clock(bl, code, s, i) && ExTrap(bl, s.core, i).valid
    ensures ArchRegs(NextSystem(bl, s, i)) == ArchRegs(s)
  {
    hide NextFetch, FetchCtrlOf, NextIdEx, NextMulDiv, NextCsr, NextControl, NextEnv, NextRegs, PendingValue, Decode,
         ExTrap, ExStall, FetchInv, ExInv, SlotInv, MulDivInv, MemInv, BubbleInv;
    TrapActs(bl, code, s, i);
    WriteBack(bl, code, s, i);
    EntersMem(bl, code, s, i);
  }

  // ---------- The retire entry ----------

  // The entry of the instruction in MEM/WB, with the data of a load.
  function Complete(s: System): Entry {
    var m := s.core.exMem;
    m.ret.(rdData := if m.ret.rd != 0 then PendingValue(s) else 0,
           rdata := if m.ret.rmask != NO_BYTES then s.env.dWord else 0)
  }

  // What an entry says besides the access to memory and the result.
  lemma EntryOperands(bl: Blocks, code: Code, s: System, i: Inputs)
    requires Acting(code, s, i)
    ensures var e := ExRetire(bl, s.core, i);
            var t := TrapEntry(ArchOf(s), InsnDone(s));
            && e.insn == t.insn && e.pc == t.pc && e.rs1 == t.rs1 && e.rs1Data == t.rs1Data
            && e.rs2 == t.rs2 && e.rs2Data == t.rs2Data
  {
    Operands(code, s, i);
  }

  lemma NothingWritten(m: Mask)
    requires m == NO_BYTES
    ensures forall w: Word :: OnlyBytes(w, m) == 0
  {
  }

  lemma TrapAccess(bl: Blocks, code: Code, s: System, i: Inputs)
    requires Clock(bl, code, s, i) && ExTrap(bl, s.core, i).valid
    ensures var m := ExLsu(bl, s.core, i).mem;
            m.addr == TrapEntry(ArchOf(s), InsnDone(s)).memAddr && m.rmask == m.wmask == NO_BYTES
    ensures !DmemTaken(bl, s.core, i)
  {
    var x := s.core.idEx;
    Operands(code, s, i);
    TrapOfEx(bl, code, s, i);
    if x.insn.kind.KLoad? || x.insn.kind.KStore? {
      LsuOfEx(bl, code, s, i);
      assert Misaligned(x.insn.funct3, Add(Rs1(s), x.insn.imm));
    } else {
      LsuIdle(bl, code, s, i);
    }
  }

  lemma EntryOfTrap(bl: Blocks, code: Code, s: System, i: Inputs)
    requires Clock(bl, code, s, i) && ExTrap(bl, s.core, i).valid
    ensures Seen(Complete(NextSystem(bl, s, i))) == TrapEntry(ArchOf(s), InsnDone(s))
  {
    hide Next, NextEnv, ExTrap, Decode, ExLsu, ExRdData, ExNextPc, LoadData, ExStall, OnlyBytes, FetchInv, ExInv,
         SlotInv, MulDivInv, MemInv, BubbleInv, HaltInv, PendingValue;
    TrapActs(bl, code, s, i);
    EntersMem(bl, code, s, i);
    EntryOperands(bl, code, s, i);
    NothingWritten(NO_BYTES);
    TrapAccess(bl, code, s, i);
  }

  // What the entry says of the access to memory.
  lemma AccessOfEntry(bl: Blocks, code: Code, s: System, i: Inputs)
    requires Clock(bl, code, s, i) && ExDone(bl, s.core, i)
    ensures var m := ExLsu(bl, s.core, i).mem;
            var e := CompleteEntry(bl, ArchOf(s), InsnDone(s), ContextOf(s, i));
            && m.addr == e.memAddr && m.rmask == e.rmask && m.wmask == e.wmask
            && OnlyBytes(m.wdata, m.wmask) == e.wdata
            && (m.rmask != NO_BYTES ==> NextEnv(bl, s, i).dWord == e.rdata)
            && (m.rmask == NO_BYTES ==> e.rdata == 0)
  {
    hide NextEnv, ExTrap, Decode, ExLsu, Value, TrapOf, NextPc, LoadData, ExStall, OnlyBytes, ArchPc, ArchRegs,
         FetchInv, ExInv, SlotInv, MulDivInv, MemInv, BubbleInv, HaltInv, StoreValue, InPlace, Replicate;
    var x := s.core.idEx;
    CompletingActs(bl, code, s, i);
    NothingWritten(NO_BYTES);
    if x.insn.kind.KLoad? {
      LoadOfEx(bl, code, s, i);
    } else if x.insn.kind.KStore? {
      StoreOfEx(bl, code, s, i);
    } else {
      NoAccessOfEx(bl, code, s, i);
    }
  }

  lemma EntryOfDone(bl: Blocks, code: Code, s: System, i: Inputs)
    requires Clock(bl, code, s, i) && ExDone(bl, s.core, i)
    ensures Seen(Complete(NextSystem(bl, s, i))) == CompleteEntry(bl, ArchOf(s), InsnDone(s), ContextOf(s, i))
  {
    hide Next, NextEnv, ExTrap, Decode, ExLsu, ExRdData, ExNextPc, NextPc, Value, LoadData, ExStall, OnlyBytes,
         FetchInv, ExInv, SlotInv, MulDivInv, MemInv, BubbleInv, HaltInv, PendingValue, InPlace, AccessMask, ArchPc,
         ArchRegs, TrapOf, Dest, OffsetOf;
    CompletingActs(bl, code, s, i);
    EntersMem(bl, code, s, i);
    EntryOperands(bl, code, s, i);
    ResultOf(bl, code, s, i);
    AccessOfEntry(bl, code, s, i);
    NextOfEx(bl, code, s, i);
  }

  // The entry that leaves EX is the machine's.
  lemma EntryExact(bl: Blocks, code: Code, s: System, i: Inputs)
    requires Clock(bl, code, s, i) && Commits(bl, s.core, i)
    ensures Seen(Complete(NextSystem(bl, s, i))) == Execute(bl, ArchOf(s), InsnDone(s), ContextOf(s, i)).1
  {
    hide NextSystem, Complete, Seen, CompleteEntry, TrapEntry, ExDone, ExTrap, ArchPc, ArchRegs, CompleteArch,
         TrapArch, TrapOf;
    EntersMem(bl, code, s, i);
    TrapOfEx(bl, code, s, i);
    if ExTrap(bl, s.core, i).valid {
      EntryOfTrap(bl, code, s, i);
    } else {
      EntryOfDone(bl, code, s, i);
    }
  }

  // ---------- CSRs and memory ----------

  // Only an instruction that completes has its request taken.
  lemma TakenCompletes(bl: Blocks, code: Code, s: System, i: Inputs)
    requires Clock(bl, code, s, i) && DmemTaken(bl, s.core, i)
    ensures ExDone(bl, s.core, i) && (InsnDone(s).kind.KLoad? || InsnDone(s).kind.KStore?)
  {
    hide FetchInv, SlotInv, MulDivInv, MemInv, BubbleInv, HaltInv;
    var x := s.core.idEx;
    AccessExact(x.insn);
    TrapOfEx(bl, code, s, i);
    if x.insn.kind.KLoad? || x.insn.kind.KStore? {
      LsuOfEx(bl, code, s, i);
    }
  }

  lemma MemExact(bl: Blocks, code: Code, s: System, i: Inputs)
    requires Clock(bl, code, s, i)
    ensures NextSystem(bl, s, i).env.mem ==
            if ExDone(bl, s.core, i) then CompleteArch(bl, ArchOf(s), InsnDone(s), ContextOf(s, i)).mem else s.env.mem
  {
    hide Next, FetchInv, ExInv, SlotInv, MulDivInv, MemInv, BubbleInv, HaltInv, ExLsu, ExTrap, ExStall, StoreValue,
         FetchCtrlOf, ImemTaken, CsrsAfter, NextPc, DestValue, ArchRegs, ArchPc, Decode, LoadData, Value;
    if ExDone(bl, s.core, i) {
      CompletingActs(bl, code, s, i);
      if InsnDone(s).kind.KLoad? {
        LoadOfEx(bl, code, s, i);
      } else if InsnDone(s).kind.KStore? {
        StoreOfEx(bl, code, s, i);
      } else {
        NoAccessOfEx(bl, code, s, i);
      }
    } else if DmemTaken(bl, s.core, i) {
      TakenCompletes(bl, code, s, i);
    }
  }

  lemma CsrOperand(a: Arch, i: Insn, cx: Context, v: Word, w: Word)
    requires Reads1(i) ==> v == w
    ensures CsrsAfter(a, i, cx, v) == CsrsAfter(a, i, cx, w)
  {
  }

  lemma CsrsDone(bl: Blocks, code: Code, s: System, i: Inputs)
    requires Clock(bl, code, s, i) && ExDone(bl, s.core, i)
    ensures NextSystem(bl, s, i).core.csr.csrs == CompleteArch(bl, ArchOf(s), InsnDone(s), ContextOf(s, i)).csrs
  {
    hide NextFetch, FetchCtrlOf, NextIdEx, NextMulDiv, NextCsr, NextControl, NextEnv, ExMemD, NextRegs, Decode,
         ExStall, NextPc, CsrsAfter, StoreValue, DestValue, Misaligned, FetchInv, ExInv, SlotInv, MulDivInv, MemInv,
         BubbleInv, HaltInv, ArchPc, ArchRegs, Jumps, Target;
    var x := s.core.idEx;
    CompletingActs(bl, code, s, i);
    Operands(code, s, i);
    DoneExact(s.core.csr, ArchOf(s), x.insn, ContextOf(s, i), x.rs1Data, ExTrap(bl, s.core, i));
    CsrOperand(ArchOf(s), x.insn, ContextOf(s, i), x.rs1Data, Rs1(s));
  }

  lemma CsrsTrapped(bl: Blocks, code: Code, s: System, i: Inputs)
    requires Clock(bl, code, s, i) && ExTrap(bl, s.core, i).valid
    ensures TrapDue(s, i).Some?
    ensures NextSystem(bl, s, i).core.csr.csrs == CsrsTrap(ArchOf(s), TrapDue(s, i).value)
  {
    hide NextFetch, FetchCtrlOf, NextIdEx, NextMulDiv, NextCsr, NextControl, NextEnv, ExMemD, NextRegs, Decode,
         ExStall, FetchInv, ExInv, SlotInv, MulDivInv, MemInv, BubbleInv, HaltInv, ArchPc, ArchRegs, TrapOf, ExTrap;
    var x := s.core.idEx;
    TrapActs(bl, code, s, i);
    Operands(code, s, i);
    TrapOfEx(bl, code, s, i);
    TrapExact(s.core.csr, ArchOf(s), x.dec, x.rs1Data, ExTrap(bl, s.core, i));
  }

  lemma CsrsIdle(bl: Blocks, code: Code, s: System, i: Inputs)
    requires Clock(bl, code, s, i) && !Commits(bl, s.core, i)
    ensures NextSystem(bl, s, i).core.csr.csrs == s.core.csr.csrs
  {
    var x := s.core.idEx;
    IdleExact(s.core.csr, x.dec, x.rs1Data, x.pc, ExTrap(bl, s.core, i));
  }
}
