/** Mig2 with its memory: the contract of the two channels, the invariant of every reachable state,
  * and the sequential machine a state stands for.
  */
module Mig2System {
  import opened Isa
  import opened Parts
  import opened Csr
  import opened MulDiv
  import opened Mig2

  /** Behind the channels: the instruction request in flight, the read in flight with its word
    * (read when the request was taken), and the memory. Answers come in order, one or more clocks
    * later.
    */
  datatype Env = Env(iBusy: bool, iAddr: Addr, dBusy: bool, dWord: Word, mem: Mem)

  datatype System = System(core: Core, env: Env)

  /** What the channels and the branch target buffer may do in a clock: answer only the request in
    * flight, with the instruction at its address or the word read; predict taken only on a hit.
    */
  predicate Legal(code: Code, s: System, i: Inputs) {
    && (i.iValid ==> s.env.iBusy && i.iData == code(s.env.iAddr))
    && (i.dValid ==> s.env.dBusy && i.dData == s.env.dWord)
    && (i.btb.taken ==> i.btb.hit)
  }

  predicate DmemTaken(bl: Blocks, c: Core, i: Inputs) { ExLsu(bl, c, i).req.valid && i.dReady }

  function NextEnv(bl: Blocks, s: System, i: Inputs): Env {
    var c, e := s.core, s.env;
    var k := FetchCtrlOf(bl, c, i);
    var r := ExLsu(bl, c, i).req;
    var read := DmemTaken(bl, c, i) && !r.we;
    var write := DmemTaken(bl, c, i) && r.we;
    Env(ImemTaken(c.fetch, k, i) || (e.iBusy && !i.iValid),
        if ImemTaken(c.fetch, k, i) then c.fetch.pc else e.iAddr,
        read || (e.dBusy && !i.dValid),
        if read then ReadWord(e.mem, r.addr) else e.dWord,
        if write then StrobeWrite(e.mem, r.addr, r.wdata, r.wstrb) else e.mem)
  }

  function NextSystem(bl: Blocks, s: System, i: Inputs): (s': System)
    requires CoreOk(s.core)
    ensures CoreOk(s'.core)
  {
    System(Next(bl, s.core, i), NextEnv(bl, s, i))
  }

  // ---------- The machine a state stands for ----------

  // The value the instruction in MEM/WB writes.
  function PendingValue(s: System): Word {
    var m := s.core.exMem;
    if m.load then LoadData(m.funct3, m.offset, s.env.dWord) else m.ret.rdData
  }

  // The registers with the write of MEM/WB done.
  function ArchRegs(s: System): (r: seq<Word>)
    requires |s.core.regs| == 32
    ensures |r| == 32
  {
    RegsOf(if s.core.exMem.valid then WriteReg(s.core.regs, s.core.exMem.ret.rd, PendingValue(s)) else s.core.regs)
  }

  // The address behind EX: the slot in ID, else the address fetch asks for.
  function BehindEx(c: Core): Addr { if c.fetch.slot.valid then c.fetch.slot.pc else c.fetch.pc }

  predicate Halted(c: Core) { c.control.memHalting || !c.control.running }

  function ArchPc(c: Core): Addr {
    if Halted(c) then NextAddr(c.control.haltPc) else if c.idEx.valid then c.idEx.pc else BehindEx(c)
  }

  function ArchOf(s: System): (a: Arch)
    requires |s.core.regs| == 32
    ensures |a.regs| == 32
  {
    Arch(ArchPc(s.core), ArchRegs(s), s.core.csr.csrs, s.env.mem, Halted(s.core))
  }

  // ---------- The invariant ----------

  /** Fetch pairs every word with its address: a request in flight and not dropped is that of the
    * slot that waits, a dropped one never meets a valid slot or a kept word, a kept word is the
    * instruction of the slot.
    */
  predicate FetchInv(code: Code, f: FetchState, e: Env) {
    && f.pending == e.iBusy
    && (f.pending && !f.drop <==> f.slot.valid && !f.got)
    && (f.pending && !f.drop ==> e.iAddr == f.slot.pc)
    && (f.got ==> f.slot.valid && !f.pending && f.word == code(f.slot.pc))
    && (f.drop ==> f.pending && !f.slot.valid)
  }

  // Fetch went on to the next instruction unless the branch target buffer said taken.
  predicate SlotInv(f: FetchState) {
    && (f.btb.taken && f.slot.valid ==> f.btb.hit)
    && (f.slot.valid && !f.btb.taken ==> f.pc == NextAddr(f.slot.pc))
  }

  predicate FollowsFetch(d: Decoded) { d.branch || (d.jump && (!d.targetRs1 || d.ret)) }

  // Where fetch went for an instruction in EX.
  function Believed(x: IdEx): Addr {
    if !x.redirected then NextAddr(x.pc)
    else if x.dec.ret then x.rasTarget
    else WordAddr(Add(ByteAddr(x.pc), x.dec.imm))
  }

  /** The instruction in EX: decoded from the code, with the operands of the machine, and the slot
    * behind it is where EX believes fetch is.
    */
  predicate ExInv(code: Code, s: System)
    requires |s.core.regs| == 32
  {
    var x := s.core.idEx;
    x.valid ==>
      && x.insn == code(x.pc) && x.dec == Decode(x.insn)
      && (x.dec.usesRs1 ==> x.rs1Data == ArchRegs(s)[x.dec.rs1])
      && (x.dec.usesRs2 ==> x.rs2Data == ArchRegs(s)[x.dec.rs2])
      && (x.redirected ==> FollowsFetch(x.dec))
      && BehindEx(s.core) == Believed(x)
  }

  // MEM/WB: a read is in flight exactly for a load there.
  predicate MemInv(s: System) {
    var m := s.core.exMem;
    && (s.env.dBusy <==> m.valid && m.load)
    && (m.valid && m.load ==> m.ret.rmask != NO_BYTES && !m.ret.trap)
    && (m.valid && !m.load ==> m.ret.rmask == NO_BYTES)
    && (m.valid && m.ret.rd == 0 ==> m.ret.rdData == 0)
    && (m.valid && m.ret.trap ==> m.ret.rd == 0)
  }

  // Halting and halted: nothing in ID and EX, and nothing in MEM/WB when halted.
  predicate HaltInv(c: Core) {
    && (Halted(c) ==> !c.idEx.valid && !c.fetch.slot.valid)
    && (!c.control.running ==> !c.exMem.valid && !c.control.memHalting)
    && (c.control.memHalting ==> c.exMem.valid && !c.exMem.load)
  }

  // Every slot holds an instruction, or a bubble with its reason.
  predicate BubbleInv(c: Core) {
    && (c.fetch.slot.valid <==> c.fetch.slot.bubble == BNone)
    && (c.idEx.valid <==> c.idEx.bubble == BNone)
    && (c.exMem.valid <==> c.exMem.bubble == BNone)
  }

  predicate Inv(code: Code, s: System) {
    && CoreOk(s.core)
    && FetchInv(code, s.core.fetch, s.env)
    && SlotInv(s.core.fetch)
    && ExInv(code, s)
    && MemInv(s)
    && HaltInv(s.core)
    && MulDivInv(s.core.muldiv, s.core.idEx.valid, s.core.idEx.dec, s.core.idEx.rs1Data, s.core.idEx.rs2Data)
    && BubbleInv(s.core)
  }
}
