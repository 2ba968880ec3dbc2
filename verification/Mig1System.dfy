/** Mig1 with its memories, the machine a state stands for, and the view of a Mig1 as a Mig2 whose
  * memories never wait: both have the same EX and MEM/WB, clock for clock.
  */
module Mig1System {
  import opened Isa
  import opened Parts
  import opened Csr
  import opened MulDiv
  import opened Mig1
  import Mig2
  import Mig2System

  // The outputs of the two memories, which hold their data while nothing is read, and the memory.
  datatype Env = Env(insn: Insn, word: Word, mem: Mem)

  datatype System = System(core: Core, env: Env)

  predicate Legal(s: System, i: Inputs) { i.insn == s.env.insn && i.word == s.env.word }

  function NextEnv(bl: Blocks, code: Code, s: System, i: Inputs): Env {
    var r := ExLsu(bl, s.core).req;
    Env(if ImemEnable(FetchCtrlOf(bl, s.core, i)) then code(s.core.pc) else s.env.insn,
        if r.valid && !r.we then ReadWord(s.env.mem, r.addr) else s.env.word,
        if r.valid && r.we then StrobeWrite(s.env.mem, r.addr, r.wdata, r.wstrb) else s.env.mem)
  }

  function NextSystem(bl: Blocks, code: Code, s: System, i: Inputs): (s': System)
    requires CoreOk(s.core)
    ensures CoreOk(s'.core)
  {
    System(Next(bl, s.core, i), NextEnv(bl, code, s, i))
  }

  // ---------- The machine a state stands for ----------

  function PendingValue(s: System): Word {
    var m := s.core.exMem;
    if m.load then LoadData(m.funct3, m.offset, s.env.word) else m.ret.rdData
  }

  function ArchRegs(s: System): (r: seq<Word>)
    requires |s.core.regs| == 32
    ensures |r| == 32
  {
    RegsOf(if s.core.exMem.valid then WriteReg(s.core.regs, s.core.exMem.ret.rd, PendingValue(s)) else s.core.regs)
  }

  predicate Halted(c: Core) { c.control.memHalting || !c.control.running }

  // The address behind EX: the slot in ID, else the address fetch asks for.
  function BehindEx(c: Core): Addr { if c.slot.valid then c.slot.pc else c.pc }

  function ArchPc(c: Core): Addr {
    if Halted(c) then NextAddr(c.control.haltPc) else if c.idEx.valid then c.idEx.pc else BehindEx(c)
  }

  function ArchOf(s: System): (a: Arch)
    requires |s.core.regs| == 32
    ensures |a.regs| == 32
  {
    Arch(ArchPc(s.core), ArchRegs(s), s.core.csr.csrs, s.env.mem, Halted(s.core))
  }

  // ---------- Mig1 as a Mig2 ----------

  const NO_BTB := Mig2.BtbPred(false, false, 0)

  // A load that traps sends no read.
  predicate Reading(m: ExMem) { m.load && !m.ret.trap }

  function FetchView(s: System): Mig2.FetchState {
    Mig2.FetchState(s.core.pc, s.core.slot.valid, false, false, s.env.insn, s.core.slot, NO_BTB)
  }

  function IdExView(x: IdEx): Mig2.IdEx {
    Mig2.IdEx(x.valid, x.bubble, x.pc, x.insn, x.dec, x.redirected, NO_BTB, 0, x.rs1Data, x.rs2Data)
  }

  function CoreView(s: System): Mig2.Core {
    var c := s.core;
    Mig2.Core(FetchView(s), c.control, IdExView(c.idEx), c.exMem.(load := Reading(c.exMem)), c.muldiv, c.csr, c.regs,
              c.order)
  }

  function View(s: System): Mig2System.System {
    var m := s.core.exMem;
    Mig2System.System(CoreView(s), Mig2System.Env(s.core.slot.valid, s.core.slot.pc, m.valid && Reading(m), s.env.word,
                                                  s.env.mem))
  }

  // Memories that are always ready and answer at once; no prediction.
  function InputView(s: System, i: Inputs): Mig2.Inputs {
    var m := s.core.exMem;
    Mig2.Inputs(true, s.core.slot.valid, i.insn, true, m.valid && Reading(m), i.word, NO_BTB, 0, 0,
                i.ebreakHalt, i.resume, i.dbgWrite, i.dbgReg, i.dbgData)
  }

  // ---------- The invariant ----------

  // ID follows a JAL and a branch guessed taken, unless the target is not the address of an instruction.
  predicate Follows(d: Decoded, pc: Addr) {
    ((d.jump && !d.targetRs1) || PredTaken(d)) && !TargetMisaligned(Add(ByteAddr(pc), d.imm))
  }

  /** The invariant of Mig2, seen through the view; and of Mig1 itself: the word in ID belongs to its
    * address, EX knows whether ID followed its instruction, and behind an instruction in EX the slot in
    * ID is empty exactly when ID did.
    */
  predicate Inv(code: Code, s: System) {
    && Mig2System.Inv(code, View(s))
    && (s.core.slot.valid ==> s.env.insn == code(s.core.slot.pc))
    && (s.core.idEx.valid ==> s.core.idEx.redirected == Follows(s.core.idEx.dec, s.core.idEx.pc))
    && (s.core.idEx.valid ==> (s.core.slot.valid <==> !s.core.idEx.redirected))
  }
}
