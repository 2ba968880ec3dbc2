/** One clock of Mig1: the same four stages as Mig2 on memories that answer one clock after every
  * request, without branch target buffer and return stack, with a divider of 32 steps.
  */
module Mig1 {
  import opened Isa
  import opened Parts
  import opened Csr
  import opened MulDiv

  // ---------- Registers ----------

  datatype IdEx = IdEx(valid: bool, bubble: Bubble, pc: Addr, insn: Insn, dec: Decoded, redirected: bool,
                       rs1Data: Word, rs2Data: Word)

  datatype Core = Core(pc: Addr, slot: Fetch, control: ControlState, idEx: IdEx, exMem: ExMem, muldiv: MulDivState,
                       csr: CsrState, regs: seq<Word>, order: Order)

  /** Inputs of a clock: the outputs of the two memories, and the debug port. */
  datatype Inputs = Inputs(insn: Insn, word: Word, ebreakHalt: bool, resume: bool, dbgWrite: bool, dbgReg: RegId,
                           dbgData: Word)

  // ---------- EX and MEM/WB ----------

  function ExAddr(bl: Blocks, x: IdEx): Word { AluValue(bl, x.dec, x.pc, x.rs1Data, x.rs2Data) }
  function ExBranch(x: IdEx): Branch { BranchUnit(x.dec, x.pc, x.rs1Data, x.rs2Data) }

  function ExLsu(bl: Blocks, c: Core): Lsu {
    LsuUnit(c.idEx.valid, c.idEx.dec, OffsetOf(ExAddr(bl, c.idEx)), ExAddr(bl, c.idEx), c.idEx.rs2Data)
  }

  predicate ExStall(c: Core) { Stalls(c.muldiv, c.idEx.valid, c.idEx.dec) }

  function ExTrap(bl: Blocks, c: Core, i: Inputs): TrapOut {
    var x := c.idEx;
    if x.dec.illegal || (x.valid && Illegal(x.dec)) then TrapOut(x.valid, 2, x.insn.word)
    else if x.dec.ecall then TrapOut(x.valid, 11, 0)
    else if x.dec.ebreak && !i.ebreakHalt then TrapOut(x.valid, 3, ByteAddr(x.pc))
    else if ExBranch(x).taken && ExBranch(x).misaligned then TrapOut(x.valid, 0, ByteAddr(ExBranch(x).target) + 2)
    else if ExLsu(bl, c).misaligned then TrapOut(x.valid, if x.dec.memWrite then 6 else 4, ExAddr(bl, x))
    else TrapOut(false, 0, 0)
  }

  predicate ExStop(c: Core, i: Inputs) { c.idEx.valid && c.idEx.dec.ebreak && i.ebreakHalt }
  predicate ExMret(c: Core) { c.idEx.valid && c.idEx.dec.mret }
  predicate Resuming(c: Core, i: Inputs) { !c.control.running && i.resume }
  predicate ExWrong(c: Core) { c.idEx.valid && ExBranch(c.idEx).taken != c.idEx.redirected }

  function ExBranchPc(x: IdEx): Addr { if ExBranch(x).taken then ExBranch(x).target else NextAddr(x.pc) }

  predicate ExRedirect(bl: Blocks, c: Core, i: Inputs) {
    ExTrap(bl, c, i).valid || ExMret(c) || ExWrong(c) || Resuming(c, i)
  }

  predicate FlushId(bl: Blocks, c: Core, i: Inputs) { ExRedirect(bl, c, i) || ExStop(c, i) }

  function RedirectWhy(bl: Blocks, c: Core, i: Inputs): Bubble {
    if ExTrap(bl, c, i).valid then BTrap
    else if ExMret(c) then BXret
    else if Resuming(c, i) then BFill
    else if c.idEx.dec.branch then BCondBranch
    else if c.idEx.dec.ret then BRet
    else BIndirJump
  }

  function ExTarget(bl: Blocks, c: Core, i: Inputs): Addr {
    if ExTrap(bl, c, i).valid then c.csr.csrs.mtvec
    else if ExMret(c) then c.csr.csrs.mepc
    else if Resuming(c, i) then NextAddr(c.control.haltPc)
    else ExBranchPc(c.idEx)
  }

  predicate ExDone(bl: Blocks, c: Core, i: Inputs) { c.idEx.valid && !ExTrap(bl, c, i).valid && !ExStall(c) }

  predicate Commits(bl: Blocks, c: Core, i: Inputs) { ExDone(bl, c, i) || ExTrap(bl, c, i).valid }

  function ExRd(x: IdEx): RegId { if x.valid && x.dec.rdWe then x.dec.rd else 0 }

  function ExRdData(bl: Blocks, c: Core): Word {
    var x := c.idEx;
    match x.dec.rdSrc
    case RdLink => ByteAddr(NextAddr(x.pc))
    case RdCsr => Csr.Read(c.csr, AddrOf(x.dec))
    case RdMulDiv => MulDivResult(bl, c.muldiv, x.dec, x.rs1Data, x.rs2Data)
    case _ => ExAddr(bl, x)
  }

  function ExNextPc(bl: Blocks, c: Core, i: Inputs): Addr {
    if ExRedirect(bl, c, i) then ExTarget(bl, c, i) else ExBranchPc(c.idEx)
  }

  function ExRetire(bl: Blocks, c: Core, i: Inputs): Entry {
    var x := c.idEx;
    var d := x.dec;
    var writes := ExDone(bl, c, i) && d.rdWe && d.rd != 0;
    var mem := ExLsu(bl, c).mem;
    Entry(x.insn, ExTrap(bl, c, i).valid, x.pc, ExNextPc(bl, c, i),
          if d.usesRs1 then d.rs1 else 0, if d.usesRs1 then x.rs1Data else 0,
          if d.usesRs2 then d.rs2 else 0, if d.usesRs2 then x.rs2Data else 0,
          if writes then d.rd else 0, if writes then ExRdData(bl, c) else 0,
          mem.addr, mem.rmask, mem.wmask, 0, mem.wdata)
  }

  function ExMemD(bl: Blocks, c: Core, i: Inputs): ExMem {
    ExMem(Commits(bl, c, i),
          if Commits(bl, c, i) then BNone else if !c.idEx.valid then c.idEx.bubble else BDiv,
          ExRetire(bl, c, i), c.idEx.dec.rdSrc.RdLoad?, c.idEx.dec.funct3, OffsetOf(ExAddr(bl, c.idEx)))
  }

  function MemRd(c: Core): RegId { if c.exMem.valid then c.exMem.ret.rd else 0 }

  function MemRdData(c: Core, i: Inputs): Word {
    if c.exMem.load then LoadData(c.exMem.funct3, c.exMem.offset, i.word) else c.exMem.ret.rdData
  }

  // ---------- The retire port ----------

  function RetireEntry(c: Core, i: Inputs): Entry {
    c.exMem.ret.(rdData := if MemRd(c) != 0 then MemRdData(c, i) else 0,
                 rdata := if c.exMem.ret.rmask != NO_BYTES then i.word else 0)
  }

  // ---------- ID ----------

  function IdDec(i: Inputs): Decoded { Decode(i.insn) }

  predicate IdHazard(c: Core, i: Inputs) {
    var d := IdDec(i);
    && c.slot.valid
    && c.idEx.valid && c.idEx.dec.rdWe && c.idEx.dec.rd != 0 && c.idEx.dec.memRead
    && ((d.usesRs1 && d.rs1 == c.idEx.dec.rd) || (d.usesRs2 && d.rs2 == c.idEx.dec.rd))
  }

  predicate IdMoves(bl: Blocks, c: Core, i: Inputs) {
    c.slot.valid && !ExStall(c) && !IdHazard(c, i) && !FlushId(bl, c, i)
  }

  predicate IdJal(c: Core, i: Inputs) { c.slot.valid && IdDec(i).jump && !IdDec(i).targetRs1 }

  function IdTarget(c: Core, i: Inputs): Word { Add(ByteAddr(c.slot.pc), IdDec(i).imm) }

  predicate IdTaken(c: Core, i: Inputs) {
    (IdJal(c, i) || (c.slot.valid && PredTaken(IdDec(i)))) && !TargetMisaligned(IdTarget(c, i))
  }

  predicate IdRedirect(bl: Blocks, c: Core, i: Inputs) { IdTaken(c, i) && IdMoves(bl, c, i) }

  function IdRs(bl: Blocks, c: Core, i: Inputs, r: RegId): Word
    requires |c.regs| == 32
  {
    Forward(r, ReadReg(c.regs, r), ExRd(c.idEx), ExRdData(bl, c), MemRd(c), MemRdData(c, i))
  }

  function IdExD(bl: Blocks, c: Core, i: Inputs): IdEx
    requires |c.regs| == 32
  {
    IdEx(c.slot.valid, c.slot.bubble, c.slot.pc, i.insn, IdDec(i), IdRedirect(bl, c, i),
         IdRs(bl, c, i, IdDec(i).rs1), IdRs(bl, c, i, IdDec(i).rs2))
  }

  // ---------- Fetch ----------

  function FetchCtrlOf(bl: Blocks, c: Core, i: Inputs): FetchCtrl {
    FetchCtrl(
      c.control.running && !ExStop(c, i) && !c.control.memHalting,
      (ExStall(c) || IdHazard(c, i)) && !FlushId(bl, c, i),
      ExRedirect(bl, c, i) || IdRedirect(bl, c, i),
      if ExRedirect(bl, c, i) then RedirectWhy(bl, c, i) else if IdJal(c, i) then BDirJump else BPredTaken,
      if ExRedirect(bl, c, i) then ExTarget(bl, c, i) else WordAddr(IdTarget(c, i)))
  }

  // The request to the instruction memory.
  predicate ImemEnable(k: FetchCtrl) { k.run && !k.stall }

  function NextFetchPc(pc: Addr, k: FetchCtrl): Addr {
    if k.redirect then k.target else if ImemEnable(k) then NextAddr(pc) else pc
  }

  function NextSlot(pc: Addr, slot: Fetch, k: FetchCtrl): Fetch {
    if k.stall then slot
    else Fetch(k.run && !k.redirect, if k.redirect then k.why else if k.run then BNone else BFill, pc)
  }

  // ---------- The clock ----------

  function NextControl(c: Core, i: Inputs): ControlState {
    NextHalt(c.control, ExStop(c, i), c.idEx.pc, i.resume)
  }

  function NextIdEx(bl: Blocks, c: Core, i: Inputs): IdEx
    requires |c.regs| == 32
  {
    var d := IdExD(bl, c, i);
    if !ExStall(c) && (IdHazard(c, i) || FlushId(bl, c, i)) then
      c.idEx.(valid := false,
              bubble := if d.valid then (if ExRedirect(bl, c, i) then RedirectWhy(bl, c, i)
                                         else if ExStop(c, i) then BFill else BLoadUse)
                        else d.bubble)
    else if ExStall(c) then c.idEx
    else d
  }

  function NextRegs(c: Core, i: Inputs): (r: seq<Word>)
    requires |c.regs| == 32
    ensures |r| == 32
  {
    NextFile(c.regs, !c.control.running, MemRd(c), MemRdData(c, i), i.dbgWrite, i.dbgReg, i.dbgData)
  }

  predicate CoreOk(c: Core) { |c.regs| == 32 && Divider.DivInv(c.muldiv.div) }

  /** The registers after a clock out of reset. */
  function Next(bl: Blocks, c: Core, i: Inputs): (c': Core)
    requires CoreOk(c)
    ensures CoreOk(c')
  {
    var x := c.idEx;
    var k := FetchCtrlOf(bl, c, i);
    Core(NextFetchPc(c.pc, k), NextSlot(c.pc, c.slot, k), NextControl(c, i), NextIdEx(bl, c, i), ExMemD(bl, c, i),
         NextMulDiv(c.muldiv, false, false, x.valid, x.dec, x.rs1Data, x.rs2Data),
         NextCsr(c.csr, ExDone(bl, c, i), x.dec, x.rs1Data, x.pc, ExTrap(bl, c, i)),
         NextRegs(c, i),
         if c.exMem.valid then (c.order + 1) % ORDERS else c.order)
  }

  predicate AfterReset(c: Core, resetPc: Addr) {
    && CoreOk(c)
    && c.pc == resetPc && !c.slot.valid && c.slot.bubble == BFill
    && c.control.running && !c.control.memHalting
    && !c.idEx.valid && c.idEx.bubble == BFill && !c.exMem.valid && c.exMem.bubble == BFill
    && !c.muldiv.ready && !c.muldiv.div.busy
    && c.csr == CsrState(RESET_CSRS, Dword(0, 0)) && c.order == 0
  }
}
