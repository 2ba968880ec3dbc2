/** What EX does in the clock an instruction leaves it is one step of the sequential machine. */
module Mig2Commit {
  import opened Isa
  import opened Parts
  import opened Csr
  import opened MulDiv
  import opened Mig2
  import opened Mig2System

  predicate Wellformed(code: Code) { forall a: Addr :: Encodable(code(a)) }

  function ContextOf(s: System, i: Inputs): Context { Context(i.ebreakHalt, s.core.csr.mcycle) }

  // The instruction in EX with the operands of the machine; it does not wait behind MEM/WB.
  predicate Acting(code: Code, s: System, i: Inputs) {
    Inv(code, s) && Wellformed(code) && ExAct(s.core, i)
  }

  function Rs1(s: System): Word requires |s.core.regs| == 32 { ArchRegs(s)[s.core.idEx.insn.rs1] }
  function Rs2(s: System): Word requires |s.core.regs| == 32 { ArchRegs(s)[s.core.idEx.insn.rs2] }

  lemma Operands(code: Code, s: System, i: Inputs)
    requires Acting(code, s, i)
    ensures var x := s.core.idEx;
            && x.dec == Decode(x.insn) && Encodable(x.insn) && x.insn == code(x.pc)
            && x.dec.usesRs1 == Reads1(x.insn) && (Reads1(x.insn) ==> x.rs1Data == Rs1(s))
            && x.dec.usesRs2 == Reads2(x.insn) && (Reads2(x.insn) ==> x.rs2Data == Rs2(s))
            && x.dec.rs1 == x.insn.rs1 && x.dec.rs2 == x.insn.rs2
            && x.dec.rd == x.insn.rd && x.dec.rdWe == WritesRd(x.insn)
            && x.dec.rdSrc.RdLoad? == x.insn.kind.KLoad? && x.dec.funct3 == x.insn.funct3
            && x.pc == ArchOf(s).pc && !ArchOf(s).halted
  {
    hide Decode, FetchInv, SlotInv, MulDivInv, MemInv, BubbleInv;
    var insn := s.core.idEx.insn;
    FieldsExact(insn);
    ReadsExact(insn);
    AccessExact(insn);
  }

  lemma BranchOfEx(code: Code, s: System, i: Inputs)
    requires Acting(code, s, i)
    ensures var x := s.core.idEx;
            var t := Target(x.insn, x.pc, Rs1(s));
            && ExBranch(x).taken == Jumps(x.insn, Rs1(s), Rs2(s))
            && (ExBranch(x).taken ==>
                  && ExBranch(x).target == WordAddr(t)
                  && (ExBranch(x).misaligned <==> t % 4 != 0)
                  && (ExBranch(x).misaligned ==> t == ByteAddr(ExBranch(x).target) + 2))
  {
    var x := s.core.idEx;
    Operands(code, s, i);
    BranchExact(x.insn, x.pc, x.rs1Data, x.rs2Data);
    if x.insn.kind.KBranch? || x.insn.kind.KJal? || x.insn.kind.KJalr? {
      assert x.rs1Data == Rs1(s) || x.insn.kind.KJal?;
    }
  }

  // Address of the load or store in EX, and what the unit says about it.
  lemma LsuOfEx(bl: Blocks, code: Code, s: System, i: Inputs)
    requires Acting(code, s, i)
    requires s.core.idEx.insn.kind.KLoad? || s.core.idEx.insn.kind.KStore?
    ensures var x := s.core.idEx;
            var addr := Add(Rs1(s), x.insn.imm);
            && ExAddr(bl, x) == addr
            && ExLsu(bl, s.core, i) == LsuUnit(true, x.dec, OffsetOf(addr), addr, x.rs2Data)
            && (ExLsu(bl, s.core, i).misaligned <==> Misaligned(x.insn.funct3, addr))
  {
    var x := s.core.idEx;
    Operands(code, s, i);
    OffsetOfSum(x.rs1Data, x.dec.imm);
    MisalignedExact(x.insn.funct3, Add(Rs1(s), x.insn.imm));
  }

  lemma LsuIdle(bl: Blocks, code: Code, s: System, i: Inputs)
    requires Acting(code, s, i)
    requires !s.core.idEx.insn.kind.KLoad? && !s.core.idEx.insn.kind.KStore?
    ensures !ExLsu(bl, s.core, i).req.valid && !ExLsu(bl, s.core, i).misaligned
    ensures ExLsu(bl, s.core, i).mem == LsuMem(0, NO_BYTES, NO_BYTES, 0)
  {
    hide Decode, FetchInv, SlotInv, MulDivInv, MemInv, BubbleInv, HaltInv, Strobes, Replicate, ExAddr;
    Operands(code, s, i);
    AccessExact(s.core.idEx.insn);
  }

  lemma TrapActs(bl: Blocks, code: Code, s: System, i: Inputs)
    requires Inv(code, s) && Wellformed(code) && ExTrap(bl, s.core, i).valid
    ensures Acting(code, s, i)
    ensures ExNextPc(bl, s.core, i) == s.core.csr.csrs.mtvec
    ensures !ExDone(bl, s.core, i)
  {
  }

  function TrapSeen(bl: Blocks, s: System, i: Inputs): Option<Trap> {
    var t := ExTrap(bl, s.core, i);
    if t.valid then Some(Trap(t.cause, t.tval)) else None
  }

  function TrapDue(s: System, i: Inputs): Option<Trap>
    requires |s.core.regs| == 32
  {
    TrapOf(ArchOf(s), s.core.idEx.insn, ContextOf(s, i), Rs1(s), Rs2(s))
  }

  lemma TrapOfAccess(bl: Blocks, code: Code, s: System, i: Inputs)
    requires Acting(code, s, i)
    requires s.core.idEx.insn.kind.KLoad? || s.core.idEx.insn.kind.KStore?
    ensures TrapSeen(bl, s, i) == TrapDue(s, i)
  {
    Operands(code, s, i);
    LsuOfEx(bl, code, s, i);
  }

  lemma TrapOfJump(bl: Blocks, code: Code, s: System, i: Inputs)
    requires Acting(code, s, i)
    requires s.core.idEx.insn.kind.KJal? || s.core.idEx.insn.kind.KJalr? || s.core.idEx.insn.kind.KBranch?
    ensures TrapSeen(bl, s, i) == TrapDue(s, i)
  {
    Operands(code, s, i);
    LsuIdle(bl, code, s, i);
    BranchOfEx(code, s, i);
  }

  lemma TrapOfOther(bl: Blocks, code: Code, s: System, i: Inputs)
    requires Acting(code, s, i)
    requires var k := s.core.idEx.insn.kind;
             !k.KLoad? && !k.KStore? && !k.KJal? && !k.KJalr? && !k.KBranch?
    ensures TrapSeen(bl, s, i) == TrapDue(s, i)
  {
    Operands(code, s, i);
    LsuIdle(bl, code, s, i);
    IllegalExact(s.core.idEx.insn);
    assert !ExBranch(s.core.idEx).taken;
  }

  // EX traps exactly when the machine does, with the same cause and value.
  lemma TrapOfEx(bl: Blocks, code: Code, s: System, i: Inputs)
    requires Acting(code, s, i)
    ensures TrapSeen(bl, s, i) == TrapDue(s, i)
  {
    var k := s.core.idEx.insn.kind;
    if k.KLoad? || k.KStore? {
      TrapOfAccess(bl, code, s, i);
    } else if k.KJal? || k.KJalr? || k.KBranch? {
      TrapOfJump(bl, code, s, i);
    } else {
      TrapOfOther(bl, code, s, i);
    }
  }

  // ---------- An instruction that completes ----------

  // The instruction in EX completes in this clock.
  predicate Completing(bl: Blocks, code: Code, s: System, i: Inputs) {
    Inv(code, s) && Wellformed(code) && Legal(code, s, i) && ExDone(bl, s.core, i)
  }

  lemma CompletingActs(bl: Blocks, code: Code, s: System, i: Inputs)
    requires Completing(bl, code, s, i)
    ensures Acting(code, s, i) && TrapDue(s, i) == None
    ensures s.core.control.running && !s.core.control.memHalting
  {
    TrapOfEx(bl, code, s, i);
  }

  function ValueDue(bl: Blocks, s: System, i: Inputs): Word
    requires |s.core.regs| == 32
  {
    Value(bl, ArchOf(s), s.core.idEx.insn, ContextOf(s, i), Rs1(s), Rs2(s))
  }

  lemma ValueOfAlu(bl: Blocks, code: Code, s: System, i: Inputs)
    requires Acting(code, s, i)
    requires var k := s.core.idEx.insn.kind;
             k.KLui? || k.KAuipc? || k.KOp? || k.KOpImm? || k.KJal? || k.KJalr? || k.KBitmanip?
    ensures ExRdData(bl, s.core) == ValueDue(bl, s, i)
  {
    Operands(code, s, i);
  }

  lemma ValueOfCsr(bl: Blocks, code: Code, s: System, i: Inputs)
    requires Acting(code, s, i) && s.core.idEx.insn.kind.KCsr? && CsrLegal(s.core.idEx.insn)
    ensures ExRdData(bl, s.core) == ValueDue(bl, s, i)
  {
    Operands(code, s, i);
    ReadExact(s.core.csr, s.core.idEx.insn);
  }

  lemma ValueOfMulDiv(bl: Blocks, code: Code, s: System, i: Inputs)
    requires Acting(code, s, i) && s.core.idEx.insn.kind.KMulDiv?
    requires !Stalls(s.core.muldiv, true, s.core.idEx.dec)
    ensures ExRdData(bl, s.core) == ValueDue(bl, s, i)
  {
    Operands(code, s, i);
    MulDivExact(bl, s.core.muldiv, s.core.idEx.insn, s.core.idEx.rs1Data, s.core.idEx.rs2Data);
  }

  // The value EX has for rd is the machine's; a load's comes from the word it reads.
  lemma ValueOfEx(bl: Blocks, code: Code, s: System, i: Inputs)
    requires Completing(bl, code, s, i) && WritesRd(s.core.idEx.insn) && !s.core.idEx.insn.kind.KLoad?
    ensures ExRdData(bl, s.core) == ValueDue(bl, s, i)
  {
    CompletingActs(bl, code, s, i);
    var k := s.core.idEx.insn.kind;
    if k.KCsr? {
      ValueOfCsr(bl, code, s, i);
    } else if k.KMulDiv? {
      ValueOfMulDiv(bl, code, s, i);
    } else {
      ValueOfAlu(bl, code, s, i);
    }
  }

  lemma LoadOfEx(bl: Blocks, code: Code, s: System, i: Inputs)
    requires Completing(bl, code, s, i) && s.core.idEx.insn.kind.KLoad?
    ensures var x := s.core.idEx;
            var addr := Add(Rs1(s), x.insn.imm);
            && ExAddr(bl, x) == addr && x.dec.rdSrc.RdLoad? && x.dec.funct3 == x.insn.funct3
            && NextEnv(bl, s, i).dBusy && NextEnv(bl, s, i).dWord == ReadWord(s.env.mem, WordAddr(addr))
            && NextEnv(bl, s, i).mem == s.env.mem
            && LoadData(x.dec.funct3, OffsetOf(addr), NextEnv(bl, s, i).dWord) == ValueDue(bl, s, i)
            && ExLsu(bl, s.core, i).mem
               == LsuMem(ByteAddr(WordAddr(addr)), AccessMask(x.insn.funct3, addr), NO_BYTES, 0)
  {
    var x := s.core.idEx;
    var addr := Add(Rs1(s), x.insn.imm);
    CompletingActs(bl, code, s, i);
    Operands(code, s, i);
    LsuOfEx(bl, code, s, i);
    LoadDataExact(s.env.mem, x.insn.funct3, addr);
    StrobesExact(x.insn.funct3, addr);
  }

  lemma StoreOfEx(bl: Blocks, code: Code, s: System, i: Inputs)
    requires Completing(bl, code, s, i) && s.core.idEx.insn.kind.KStore?
    ensures var x := s.core.idEx;
            var addr := Add(Rs1(s), x.insn.imm);
            var mask := AccessMask(x.insn.funct3, addr);
            var mem := ExLsu(bl, s.core, i).mem;
            && NextEnv(bl, s, i).mem == StoreValue(s.env.mem, x.insn.funct3, addr, Rs2(s))
            && !x.dec.rdWe && !x.dec.rdSrc.RdLoad?
            && mem == LsuMem(ByteAddr(WordAddr(addr)), NO_BYTES, mask, Replicate(x.insn.funct3, Rs2(s)))
            && OnlyBytes(mem.wdata, mask) == OnlyBytes(InPlace(addr, Rs2(s)), mask)
  {
    var x := s.core.idEx;
    var addr := Add(Rs1(s), x.insn.imm);
    CompletingActs(bl, code, s, i);
    Operands(code, s, i);
    LsuOfEx(bl, code, s, i);
    StrobesExact(x.insn.funct3, addr);
    StoreExact(s.env.mem, x.insn.funct3, addr, Rs2(s));
    ReplicatedInPlace(x.insn.funct3, addr, Rs2(s));
  }

  lemma NoAccessOfEx(bl: Blocks, code: Code, s: System, i: Inputs)
    requires Acting(code, s, i)
    requires !s.core.idEx.insn.kind.KLoad? && !s.core.idEx.insn.kind.KStore?
    ensures NextEnv(bl, s, i).mem == s.env.mem && !DmemTaken(bl, s.core, i)
    ensures ExLsu(bl, s.core, i).mem == LsuMem(0, NO_BYTES, NO_BYTES, 0) && !s.core.idEx.dec.rdSrc.RdLoad?
  {
    LsuIdle(bl, code, s, i);
    Operands(code, s, i);
  }

  // Where the retire entry says the instruction goes: without a jump and but for MRET 4 bytes on.
  lemma NextOfEx(bl: Blocks, code: Code, s: System, i: Inputs)
    requires Completing(bl, code, s, i)
    ensures ExNextPc(bl, s.core, i) == NextPc(ArchOf(s), s.core.idEx.insn, Rs1(s), Rs2(s))
    ensures !Jumps(s.core.idEx.insn, Rs1(s), Rs2(s)) && !s.core.idEx.insn.kind.KMret? ==>
              4 * ExNextPc(bl, s.core, i) == (4 * s.core.idEx.pc + 4) % 0x1_0000_0000
  {
    hide NextAddr, FetchInv, SlotInv, MulDivInv, MemInv, BubbleInv, ExInv, ExStall, BranchUnit, Target, Jumps, ArchRegs;
    CompletingActs(bl, code, s, i);
    Operands(code, s, i);
    BranchOfEx(code, s, i);
    FourOn(s.core.idEx.pc);
  }

  // The next instruction is 4 bytes on, around the end of memory.
  lemma FourOn(a: Addr)
    ensures 4 * NextAddr(a) == (4 * a + 4) % 0x1_0000_0000
  {
  }
}
