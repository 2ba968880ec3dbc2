/** One clock of Mig2: its registers, its combinational signals in the order they depend on each
  * other, and the registers after the clock.
  */
module Mig2 {
  import opened Isa
  import opened Parts
  import opened Csr
  import opened MulDiv

  // ---------- Registers ----------

  // What the branch target buffer said for an instruction.
  datatype BtbPred = BtbPred(hit: bool, taken: bool, counter: int)

  datatype FetchState = FetchState(pc: Addr, pending: bool, drop: bool, got: bool, word: Insn,
                                   slot: Fetch, btb: BtbPred)

  datatype IdEx = IdEx(valid: bool, bubble: Bubble, pc: Addr, insn: Insn, dec: Decoded,
                       redirected: bool, btb: BtbPred, rasTarget: Addr, rs1Data: Word, rs2Data: Word)

  datatype Core = Core(fetch: FetchState, control: ControlState, idEx: IdEx, exMem: ExMem,
                       muldiv: MulDivState, csr: CsrState, regs: seq<Word>, order: Order)

  /** Inputs of a clock: the answers of the two memory channels, what the branch target buffer says
    * for the address fetch asks for, the top of the return-address stack, the debug port.
    */
  datatype Inputs = Inputs(iReady: bool, iValid: bool, iData: Insn, dReady: bool, dValid: bool,
                           dData: Word, btb: BtbPred, btbTarget: Addr, rasTop: Addr,
                           ebreakHalt: bool, resume: bool, dbgWrite: bool, dbgReg: RegId,
                           dbgData: Word)

  // ---------- Mig2Fetch, what ID sees ----------

  predicate HaveWord(f: FetchState, i: Inputs) { f.got || (i.iValid && !f.drop) }
  predicate IdWait(f: FetchState, i: Inputs) { f.slot.valid && !HaveWord(f, i) }
  function IdInsn(f: FetchState, i: Inputs): Insn { if i.iValid then i.iData else f.word }

  function IdFetch(f: FetchState, i: Inputs): Fetch {
    Fetch(f.slot.valid && HaveWord(f, i), if IdWait(f, i) then BImem else f.slot.bubble, f.slot.pc)
  }

  // ---------- EX and MEM/WB ----------

  // The load in MEM/WB waits for its word.
  predicate MemWait(c: Core, i: Inputs) { c.exMem.valid && c.exMem.load && !i.dValid }

  function ExAddr(bl: Blocks, x: IdEx): Word { AluValue(bl, x.dec, x.pc, x.rs1Data, x.rs2Data) }
  function ExBranch(x: IdEx): Branch { BranchUnit(x.dec, x.pc, x.rs1Data, x.rs2Data) }

  function ExLsu(bl: Blocks, c: Core, i: Inputs): Lsu {
    LsuUnit(c.idEx.valid && !MemWait(c, i), c.idEx.dec,
            (OffsetOf(c.idEx.rs1Data) + OffsetOf(c.idEx.dec.imm)) % 4, ExAddr(bl, c.idEx), c.idEx.rs2Data)
  }

  predicate DmemWait(bl: Blocks, c: Core, i: Inputs) { ExLsu(bl, c, i).req.valid && !i.dReady }

  predicate ExStall(bl: Blocks, c: Core, i: Inputs) {
    Stalls(c.muldiv, c.idEx.valid, c.idEx.dec) || DmemWait(bl, c, i) || MemWait(c, i)
  }

  predicate ExAct(c: Core, i: Inputs) { c.idEx.valid && !MemWait(c, i) }

  function ExTrap(bl: Blocks, c: Core, i: Inputs): TrapOut {
    var x := c.idEx;
    var act := ExAct(c, i);
    if x.dec.illegal || (x.valid && Illegal(x.dec)) then TrapOut(act, 2, x.insn.word)
    else if x.dec.ecall then TrapOut(act, 11, 0)
    else if x.dec.ebreak && !i.ebreakHalt then TrapOut(act, 3, ByteAddr(x.pc))
    else if ExBranch(x).taken && ExBranch(x).misaligned then TrapOut(act, 0, ByteAddr(ExBranch(x).target) + 2)
    else if ExLsu(bl, c, i).misaligned then TrapOut(act, if x.dec.memWrite then 6 else 4, ExAddr(bl, x))
    else TrapOut(false, 0, 0)
  }

  predicate ExStop(c: Core, i: Inputs) { ExAct(c, i) && c.idEx.dec.ebreak && i.ebreakHalt }
  predicate ExMret(c: Core, i: Inputs) { ExAct(c, i) && c.idEx.dec.mret }
  predicate Resuming(c: Core, i: Inputs) { !c.control.running && i.resume }

  // The jump or branch in EX does not go where fetch went.
  predicate ExWrong(c: Core, i: Inputs) {
    var x := c.idEx;
    ExAct(c, i) && (ExBranch(x).taken != x.redirected
                    || (x.redirected && x.dec.ret && ExBranch(x).target != x.rasTarget))
  }

  function ExBranchPc(x: IdEx): Addr { if ExBranch(x).taken then ExBranch(x).target else NextAddr(x.pc) }

  predicate ExRedirect(bl: Blocks, c: Core, i: Inputs) {
    ExTrap(bl, c, i).valid || ExMret(c, i) || ExWrong(c, i) || Resuming(c, i)
  }

  predicate FlushId(bl: Blocks, c: Core, i: Inputs) { ExRedirect(bl, c, i) || ExStop(c, i) }

  function RedirectWhy(bl: Blocks, c: Core, i: Inputs): Bubble {
    if ExTrap(bl, c, i).valid then BTrap
    else if ExMret(c, i) then BXret
    else if Resuming(c, i) then BFill
    else if c.idEx.dec.branch then BCondBranch
    else if c.idEx.dec.ret then BRet
    else BIndirJump
  }

  // Where EX sends fetch.
  function ExTarget(bl: Blocks, c: Core, i: Inputs): Addr {
    if ExTrap(bl, c, i).valid then c.csr.csrs.mtvec
    else if ExMret(c, i) then c.csr.csrs.mepc
    else if Resuming(c, i) then NextAddr(c.control.haltPc)
    else ExBranchPc(c.idEx)
  }

  // The instruction in EX completes.
  predicate ExDone(bl: Blocks, c: Core, i: Inputs) {
    c.idEx.valid && !ExTrap(bl, c, i).valid && !ExStall(bl, c, i)
  }

  // It leaves EX: it completes or traps.
  predicate Commits(bl: Blocks, c: Core, i: Inputs) { ExDone(bl, c, i) || ExTrap(bl, c, i).valid }

  function ExRd(x: IdEx): RegId { if x.valid && x.dec.rdWe then x.dec.rd else 0 }

  function ExRdData(bl: Blocks, c: Core): Word {
    var x := c.idEx;
    match x.dec.rdSrc
    case RdLink => ByteAddr(NextAddr(x.pc))
    case RdCsr => Csr.Read(c.csr, AddrOf(x.dec))
    case RdMulDiv => MulDivResult(bl, c.muldiv, x.dec, x.rs1Data, x.rs2Data)
    case RdBitmanip => bl.bitmanip(x.insn, x.rs1Data)
    case _ => ExAddr(bl, x)
  }

  function ExNextPc(bl: Blocks, c: Core, i: Inputs): Addr {
    if ExRedirect(bl, c, i) then ExTarget(bl, c, i) else ExBranchPc(c.idEx)
  }

  // The retire entry of EX; MEM/WB adds the data of a load.
  function ExRetire(bl: Blocks, c: Core, i: Inputs): Entry {
    var x := c.idEx;
    var d := x.dec;
    var writes := ExDone(bl, c, i) && d.rdWe && d.rd != 0;
    var mem := ExLsu(bl, c, i).mem;
    Entry(x.insn, ExTrap(bl, c, i).valid, x.pc, ExNextPc(bl, c, i),
          if d.usesRs1 then d.rs1 else 0, if d.usesRs1 then x.rs1Data else 0,
          if d.usesRs2 then d.rs2 else 0, if d.usesRs2 then x.rs2Data else 0,
          if writes then d.rd else 0, if writes then ExRdData(bl, c) else 0,
          mem.addr, mem.rmask, mem.wmask, 0, mem.wdata)
  }

  function ExBubble(bl: Blocks, c: Core, i: Inputs): Bubble {
    if Commits(bl, c, i) then BNone
    else if !c.idEx.valid then c.idEx.bubble
    else if Stalls(c.muldiv, c.idEx.valid, c.idEx.dec) then BDiv else BDmem
  }

  function ExMemD(bl: Blocks, c: Core, i: Inputs): ExMem {
    ExMem(Commits(bl, c, i), ExBubble(bl, c, i), ExRetire(bl, c, i),
          c.idEx.dec.rdSrc.RdLoad? && !ExTrap(bl, c, i).valid, c.idEx.dec.funct3,
          OffsetOf(ExAddr(bl, c.idEx)))
  }

  function MemRd(c: Core, i: Inputs): RegId {
    if c.exMem.valid && !MemWait(c, i) then c.exMem.ret.rd else 0
  }

  function MemRdData(c: Core, i: Inputs): Word {
    if c.exMem.load then LoadData(c.exMem.funct3, c.exMem.offset, i.dData) else c.exMem.ret.rdData
  }

  // ---------- The retire port ----------

  predicate RetireValid(c: Core, i: Inputs) { c.exMem.valid && !MemWait(c, i) }

  function RetireBubble(c: Core, i: Inputs): Bubble { if MemWait(c, i) then BDmem else c.exMem.bubble }

  function RetireEntry(c: Core, i: Inputs): Entry {
    c.exMem.ret.(rdData := if MemRd(c, i) != 0 then MemRdData(c, i) else 0,
                 rdata := if c.exMem.ret.rmask != NO_BYTES then i.dData else 0)
  }

  // ---------- ID ----------

  function IdDec(c: Core, i: Inputs): Decoded { Decode(IdInsn(c.fetch, i)) }

  predicate IdHazard(c: Core, i: Inputs) {
    var d := IdDec(c, i);
    && IdFetch(c.fetch, i).valid
    && c.idEx.valid && c.idEx.dec.rdWe && c.idEx.dec.rd != 0 && c.idEx.dec.memRead
    && ((d.usesRs1 && d.rs1 == c.idEx.dec.rd) || (d.usesRs2 && d.rs2 == c.idEx.dec.rd))
  }

  // The instruction in ID goes to EX at the edge.
  predicate IdMoves(bl: Blocks, c: Core, i: Inputs) {
    IdFetch(c.fetch, i).valid && !ExStall(bl, c, i) && !IdHazard(c, i) && !FlushId(bl, c, i)
  }

  predicate IdJal(c: Core, i: Inputs) {
    IdFetch(c.fetch, i).valid && IdDec(c, i).jump && !IdDec(c, i).targetRs1
  }

  function IdTarget(c: Core, i: Inputs): Word { Add(ByteAddr(c.fetch.slot.pc), IdDec(c, i).imm) }

  predicate IdTaken(c: Core, i: Inputs) {
    (IdJal(c, i) || (IdFetch(c.fetch, i).valid && PredTaken(IdDec(c, i))))
    && !TargetMisaligned(IdTarget(c, i))
  }

  // Fetch asks for pc + imm now: a compare of word addresses.
  predicate IdAtTarget(c: Core, i: Inputs) {
    (c.fetch.slot.pc + WordAddr(IdDec(c, i).imm)) % 0x4000_0000 == c.fetch.pc
  }

  predicate IdBtbOk(c: Core, i: Inputs) {
    var b := c.fetch.btb;
    b.hit && ((IdDec(c, i).branch && (!b.taken || IdAtTarget(c, i)))
              || (IdJal(c, i) && b.taken && IdAtTarget(c, i)))
  }

  predicate IdBtbFix(c: Core, i: Inputs) {
    IdFetch(c.fetch, i).valid && c.fetch.btb.hit && !IdBtbOk(c, i)
  }

  predicate IdRet(c: Core, i: Inputs) { IdFetch(c.fetch, i).valid && IdDec(c, i).ret }
  predicate IdGo(c: Core, i: Inputs) { IdTaken(c, i) || IdRet(c, i) }

  predicate IdRedirect(bl: Blocks, c: Core, i: Inputs) {
    IdMoves(bl, c, i)
    && (if c.fetch.btb.hit then IdBtbFix(c, i) && (IdGo(c, i) || c.fetch.btb.taken) else IdGo(c, i))
  }

  function IdRedirectPc(c: Core, i: Inputs): Addr {
    if IdTaken(c, i) then WordAddr(IdTarget(c, i))
    else if IdRet(c, i) then i.rasTop else NextAddr(c.fetch.slot.pc)
  }

  // Fetch went to the target of the instruction in ID: by the BTB in IF, or by ID.
  predicate IdRedirected(c: Core, i: Inputs) {
    if IdBtbOk(c, i) then c.fetch.btb.taken else IdGo(c, i)
  }

  // The commands to the return-address stack.
  datatype RasCtrl = RasCtrl(push: bool, pop: bool, pushAddr: Addr)

  function RasCommand(bl: Blocks, c: Core, i: Inputs): RasCtrl {
    RasCtrl(IdMoves(bl, c, i) && IdDec(c, i).call, IdMoves(bl, c, i) && IdDec(c, i).ret,
            NextAddr(c.fetch.slot.pc))
  }

  function IdRs(bl: Blocks, c: Core, i: Inputs, r: RegId): Word
    requires |c.regs| == 32
  {
    Forward(r, ReadReg(c.regs, r), ExRd(c.idEx), ExRdData(bl, c), MemRd(c, i), MemRdData(c, i))
  }

  function IdExD(bl: Blocks, c: Core, i: Inputs): IdEx
    requires |c.regs| == 32
  {
    var f := IdFetch(c.fetch, i);
    IdEx(f.valid, f.bubble, f.pc, IdInsn(c.fetch, i), IdDec(c, i), IdRedirected(c, i), c.fetch.btb, i.rasTop,
         IdRs(bl, c, i, IdDec(c, i).rs1), IdRs(bl, c, i, IdDec(c, i).rs2))
  }

  // ---------- Fetch control ----------

  function FetchCtrlOf(bl: Blocks, c: Core, i: Inputs): FetchCtrl {
    FetchCtrl(
      c.control.running && !ExStop(c, i) && !c.control.memHalting,
      (ExStall(bl, c, i) || IdHazard(c, i)) && !FlushId(bl, c, i),
      ExRedirect(bl, c, i) || IdRedirect(bl, c, i),
      if ExRedirect(bl, c, i) then RedirectWhy(bl, c, i)
      else if IdBtbFix(c, i) then BBtbFix
      else if IdJal(c, i) then BDirJump
      else if IdRet(c, i) then BPredRet else BPredTaken,
      if ExRedirect(bl, c, i) then ExTarget(bl, c, i) else IdRedirectPc(c, i))
  }

  predicate ImemRequest(f: FetchState, k: FetchCtrl, i: Inputs) {
    k.run && !k.stall && (!f.pending || i.iValid)
  }

  predicate ImemTaken(f: FetchState, k: FetchCtrl, i: Inputs) { ImemRequest(f, k, i) && i.iReady }

  // IF/ID keeps its slot at the edge.
  predicate IdKeep(f: FetchState, k: FetchCtrl, i: Inputs) {
    k.stall || (IdWait(f, i) && k.run && !k.redirect)
  }

  function NextFetch(f: FetchState, k: FetchCtrl, i: Inputs): FetchState {
    var taken := ImemTaken(f, k, i);
    var keep := IdKeep(f, k, i);
    FetchState(
      if k.redirect then k.target else if taken && i.btb.taken then i.btbTarget
      else if taken then NextAddr(f.pc) else f.pc,
      taken || (f.pending && !i.iValid),
      if taken then k.redirect else f.pending && !i.iValid && (f.drop || !keep),
      keep && HaveWord(f, i),
      if i.iValid then i.iData else f.word,
      if keep then f.slot
      else Fetch(taken && !k.redirect,
                 if k.redirect then k.why else if !k.run then BFill else if taken then BNone else BImem, f.pc),
      if keep then f.btb else i.btb)
  }

  // ---------- The clock ----------

  function NextControl(c: Core, i: Inputs): ControlState {
    NextHalt(c.control, ExStop(c, i), c.idEx.pc, i.resume)
  }

  function NextIdEx(bl: Blocks, c: Core, i: Inputs): IdEx
    requires |c.regs| == 32
  {
    var d := IdExD(bl, c, i);
    if !ExStall(bl, c, i) && (IdHazard(c, i) || FlushId(bl, c, i)) then
      c.idEx.(valid := false,
              bubble := if d.valid then (if ExRedirect(bl, c, i) then RedirectWhy(bl, c, i)
                                         else if ExStop(c, i) then BFill else BLoadUse)
                        else d.bubble)
    else if ExStall(bl, c, i) then c.idEx
    else d
  }

  function NextRegs(c: Core, i: Inputs): (r: seq<Word>)
    requires |c.regs| == 32
    ensures |r| == 32
  {
    NextFile(c.regs, !c.control.running, MemRd(c, i), MemRdData(c, i), i.dbgWrite, i.dbgReg, i.dbgData)
  }

  predicate CoreOk(c: Core) { |c.regs| == 32 && Divider.DivInv(c.muldiv.div) }

  /** The registers after a clock out of reset. */
  function Next(bl: Blocks, c: Core, i: Inputs): (c': Core)
    requires CoreOk(c)
    ensures CoreOk(c')
  {
    var x := c.idEx;
    Core(NextFetch(c.fetch, FetchCtrlOf(bl, c, i), i),
         NextControl(c, i),
         NextIdEx(bl, c, i),
         if MemWait(c, i) then c.exMem else ExMemD(bl, c, i),
         NextMulDiv(c.muldiv, true, MemWait(c, i), x.valid, x.dec, x.rs1Data, x.rs2Data),
         NextCsr(c.csr, ExDone(bl, c, i), x.dec, x.rs1Data, x.pc, ExTrap(bl, c, i)),
         NextRegs(c, i),
         if RetireValid(c, i) then (c.order + 1) % ORDERS else c.order)
  }

  // After a clock in reset: fields that mean nothing in a bubble, and the register file, keep
  // whatever they had.
  predicate AfterReset(c: Core, resetPc: Addr) {
    && CoreOk(c)
    && c.fetch.pc == resetPc && !c.fetch.pending && !c.fetch.drop && !c.fetch.got
    && !c.fetch.slot.valid && c.fetch.slot.bubble == BFill
    && c.control.running && !c.control.memHalting
    && !c.idEx.valid && c.idEx.bubble == BFill && !c.exMem.valid && c.exMem.bubble == BFill
    && !c.muldiv.ready && !c.muldiv.div.busy
    && c.csr == CsrState(RESET_CSRS, Dword(0, 0)) && c.order == 0
  }
}
