/** The sequential machine that Mig1 and Mig2 implement: RV32I, M, Zicsr and Zicntr in machine
  * mode, one instruction after the other, over a little-endian byte memory. It knows no
  * pipeline, no strobes and no decode controls: every kind of instruction says what it does.
  */
module Isa {
  type Word = w: int | 0 <= w < 0x1_0000_0000
  type Addr = a: int | 0 <= a < 0x4000_0000    // word address: byte address / 4
  type RegId = r: int | 0 <= r < 32
  type Funct3 = f: int | 0 <= f < 8
  type Offset = k: int | 0 <= k < 4            // byte in a word

  datatype Option<+T> = None | Some(value: T)

  datatype Kind =
    | KIllegal | KLui | KAuipc | KJal | KJalr | KBranch | KLoad | KStore | KOpImm | KOp | KFence
    | KEcall | KEbreak | KCsr | KMret | KWfi | KMulDiv | KBitmanip

  /** An instruction word seen in its format: which group it belongs to, its fields, and the
    * sign-extended immediate of its format (for a CSR instruction the CSR address).
    */
  datatype Insn = Insn(word: Word, kind: Kind, rd: RegId, rs1: RegId, rs2: RegId, funct3: Funct3,
                       imm: Word)

  /** What the formats guarantee: jump and branch offsets are even, and an instruction group has
    * only the funct3 values of its instructions.
    */
  predicate Encodable(i: Insn) {
    && (i.kind.KJal? || i.kind.KBranch? ==> i.imm % 2 == 0)
    && (i.kind.KBranch? ==> i.funct3 != 2 && i.funct3 != 3)
    && (i.kind.KLoad? ==> i.funct3 in {0, 1, 2, 4, 5})
    && (i.kind.KStore? ==> i.funct3 in {0, 1, 2})
    && (i.kind.KCsr? ==> i.funct3 != 0 && i.funct3 != 4)
  }

  type Code = Addr -> Insn

  datatype Dword = Dword(hi: Word, lo: Word)

  /** The value blocks: ALU operation of an OP or OP-IMM instruction on its two operands, the
    * full product (with the signedness of each operand), Zbb with one operand. Every theorem
    * holds for any such functions.
    */
  datatype Blocks = Blocks(
    alu: (Insn, Word, Word) -> Word,
    mul: (bool, bool, Word, Word) -> Dword,
    bitmanip: (Insn, Word) -> Word)

  // ---------- Bytes of memory ----------

  // Words by word address; a word never stored reads 0.
  type Mem = map<Addr, Word>

  function Add(a: Word, b: Word): Word { if a + b < 0x1_0000_0000 then a + b else a + b - 0x1_0000_0000 }
  function WordAddr(a: Word): Addr { a / 4 }
  function ByteAddr(a: Addr): Word { 4 * a }
  function NextAddr(a: Addr): Addr { if a == 0x3FFF_FFFF then 0 else a + 1 }
  function OffsetOf(a: Word): Offset { a % 4 }
  function ReadWord(m: Mem, a: Addr): Word { if a in m then m[a] else 0 }

  type Byte = b: int | 0 <= b < 256

  // One bit per byte of a word, lowest byte first.
  datatype Mask = Mask(b0: bool, b1: bool, b2: bool, b3: bool)
  const NO_BYTES := Mask(false, false, false, false)

  // A word is four bytes, little-endian.
  function FromBytes(b0: Byte, b1: Byte, b2: Byte, b3: Byte): Word {
    b0 + 0x100 * b1 + 0x1_0000 * b2 + 0x100_0000 * b3
  }

  function ByteOf(w: Word, k: Offset): Byte {
    if k == 0 then w % 0x100
    else if k == 1 then w / 0x100 % 0x100
    else if k == 2 then w / 0x1_0000 % 0x100
    else w / 0x100_0000
  }

  function WithByte(w: Word, k: Offset, b: Byte): Word {
    FromBytes(if k == 0 then b else ByteOf(w, 0), if k == 1 then b else ByteOf(w, 1),
              if k == 2 then b else ByteOf(w, 2), if k == 3 then b else ByteOf(w, 3))
  }

  function ReadByte(m: Mem, a: Word): Byte { ByteOf(ReadWord(m, WordAddr(a)), OffsetOf(a)) }

  function WriteByte(m: Mem, a: Word, b: Byte): Mem {
    m[WordAddr(a) := WithByte(ReadWord(m, WordAddr(a)), OffsetOf(a), b)]
  }

  // ---------- Loads and stores, byte by byte ----------

  // Bytes of an access: 1, 2 or 4.
  function Size(f: Funct3): int { if f == 0 || f == 4 then 1 else if f == 1 || f == 5 then 2 else 4 }

  predicate Misaligned(f: Funct3, a: Word) {
    (Size(f) == 2 && a % 2 != 0) || (Size(f) == 4 && a % 4 != 0)
  }

  function LoadValue(m: Mem, f: Funct3, a: Word): Word {
    var b := ReadByte(m, a);
    var h := b + 0x100 * ReadByte(m, Add(a, 1));
    match f
    case 0 => if b >= 0x80 then 0xFFFF_FF00 + b else b
    case 4 => b
    case 1 => if h >= 0x8000 then 0xFFFF_0000 + h else h
    case 5 => h
    case _ => FromBytes(b, ReadByte(m, Add(a, 1)), ReadByte(m, Add(a, 2)), ReadByte(m, Add(a, 3)))
  }

  function StoreValue(m: Mem, f: Funct3, a: Word, v: Word): Mem {
    var m1 := WriteByte(m, a, ByteOf(v, 0));
    if Size(f) == 1 then m1 else
    var m2 := WriteByte(m1, Add(a, 1), ByteOf(v, 1));
    if Size(f) == 2 then m2 else
    WriteByte(WriteByte(m2, Add(a, 2), ByteOf(v, 2)), Add(a, 3), ByteOf(v, 3))
  }

  // The bytes of an aligned access within its word; the value moved to them, other bytes 0.
  function AccessMask(f: Funct3, a: Word): Mask {
    var k := OffsetOf(a);
    var n := Size(f);
    Mask(k == 0, k <= 1 < k + n, k <= 2 < k + n, k <= 3 < k + n)
  }

  function OnlyBytes(w: Word, m: Mask): Word {
    FromBytes(if m.b0 then ByteOf(w, 0) else 0, if m.b1 then ByteOf(w, 1) else 0,
              if m.b2 then ByteOf(w, 2) else 0, if m.b3 then ByteOf(w, 3) else 0)
  }

  function InPlace(a: Word, v: Word): Word {
    var k := OffsetOf(a);
    if k == 0 then v else if k == 1 then v * 0x100 % 0x1_0000_0000
    else if k == 2 then v * 0x1_0000 % 0x1_0000_0000 else v * 0x100_0000 % 0x1_0000_0000
  }

  // ---------- Division (section 7.2 of the RISC-V Unprivileged ISA) ----------

  function Signed(w: Word): int { if w >= 0x8000_0000 then w - 0x1_0000_0000 else w }
  function WordOf(x: int): Word { x % 0x1_0000_0000 }

  function Pow2(n: nat): (p: nat)
    ensures p >= 1
  {
    if n == 0 then 1 else 2 * Pow2(n - 1)
  }

  function Abs(x: int): nat { if x < 0 then -x else x }

  // Quotient rounded towards zero; the remainder has the sign of the dividend.
  function Quotient(a: int, b: int): int
    requires b != 0
  {
    if (a < 0) == (b < 0) then Abs(a) / Abs(b) else -(Abs(a) / Abs(b))
  }

  function Remainder(a: int, b: int): int
    requires b != 0
  {
    a - b * Quotient(a, b)
  }

  predicate IsDivide(f: Funct3) { f >= 4 }
  predicate IsDivInsn(i: Insn) { i.kind.KMulDiv? && IsDivide(i.funct3) }

  function Divide(f: Funct3, a: Word, b: Word): Word {
    if b == 0 then (if f == 4 || f == 5 then 0xFFFF_FFFF else a)
    else if f == 5 then a / b
    else if f == 7 then a % b
    else if a == 0x8000_0000 && b == 0xFFFF_FFFF then (if f == 4 then 0x8000_0000 else 0)
    else if f == 4 then WordOf(Quotient(Signed(a), Signed(b)))
    else WordOf(Remainder(Signed(a), Signed(b)))
  }

  function Multiply(bl: Blocks, f: Funct3, a: Word, b: Word): Word {
    if f == 0 then bl.mul(false, false, a, b).lo
    else bl.mul(f == 1 || f == 2, f == 1, a, b).hi
  }

  // ---------- CSRs ----------

  type CsrAddr = a: int | 0 <= a < 0x1000

  datatype Csrs = Csrs(minstret: Dword, mscratch: Word, mie: bool, mpie: bool, mtvec: Addr,
                       mepc: Addr, mcause: Word, mtval: Word)

  datatype CsrName =
    | Cycle | CycleH | Instret | InstretH | Mscratch | Mstatus | Mtvec | Mepc | Mcause | Mtval
    | Zero | Misa

  function Increment(d: Dword): Dword {
    Dword(if d.lo == 0xFFFF_FFFF then Add(d.hi, 1) else d.hi, Add(d.lo, 1))
  }

  function CsrAddrOf(i: Insn): CsrAddr { i.imm % 0x1000 }

  // The CSR at an address (numbers of the Privileged ISA and of Zicntr). time reads the cycle
  // counter; mstatush, mie, mip and the machine ids read 0.
  function CsrAt(a: CsrAddr): Option<CsrName> {
    if a == 0xC00 || a == 0xC01 || a == 0xB00 then Some(Cycle)
    else if a == 0xC80 || a == 0xC81 || a == 0xB80 then Some(CycleH)
    else if a == 0xC02 || a == 0xB02 then Some(Instret)
    else if a == 0xC82 || a == 0xB82 then Some(InstretH)
    else if a == 0x340 then Some(Mscratch)
    else if a == 0x300 then Some(Mstatus)
    else if a == 0x305 then Some(Mtvec)
    else if a == 0x341 then Some(Mepc)
    else if a == 0x342 then Some(Mcause)
    else if a == 0x343 then Some(Mtval)
    else if a == 0x310 || a == 0x304 || a == 0x344 then Some(Zero)
    else if a == 0x301 then Some(Misa)
    else if a == 0xF11 || a == 0xF12 || a == 0xF13 || a == 0xF14 then Some(Zero)
    else None
  }

  predicate CsrReadOnly(a: CsrAddr) { a >= 0xC00 }

  function CsrRead(c: Csrs, cycle: Dword, n: CsrName): Word {
    match n
    case Cycle => cycle.lo
    case CycleH => cycle.hi
    case Instret => c.minstret.lo
    case InstretH => c.minstret.hi
    case Mscratch => c.mscratch
    case Mstatus => 0x1800 + (if c.mpie then 0x80 else 0) + (if c.mie then 8 else 0)
    case Mtvec => ByteAddr(c.mtvec)
    case Mepc => ByteAddr(c.mepc)
    case Mcause => c.mcause
    case Mtval => c.mtval
    case Zero => 0
    case Misa => 0x4000_1100
  }

  // A completed CSR write. The cycle counter is not part of the machine (its value at a read is
  // given); read-only and constant CSRs ignore the write.
  function CsrWrite(c: Csrs, n: CsrName, v: Word): Csrs {
    match n
    case Instret => c.(minstret := c.minstret.(lo := v))
    case InstretH => c.(minstret := c.minstret.(hi := v))
    case Mscratch => c.(mscratch := v)
    case Mstatus => c.(mie := v / 8 % 2 == 1, mpie := v / 0x80 % 2 == 1)
    case Mtvec => c.(mtvec := WordAddr(v))
    case Mepc => c.(mepc := WordAddr(v))
    case Mcause => c.(mcause := v)
    case Mtval => c.(mtval := v)
    case _ => c
  }

  function CsrSource(i: Insn, rs1: Word): Word { if i.funct3 >= 4 then i.rs1 else rs1 }

  // CSRRS and CSRRC with x0 (immediate 0) only read.
  predicate CsrWrites(i: Insn) { i.funct3 == 1 || i.funct3 == 5 || i.rs1 != 0 }

  // Bit by bit: a or b, and a without the bits of b, below 2^n.
  function BitOr(n: nat, a: int, b: int): (r: int)
    ensures 0 <= r < Pow2(n)
  {
    if n == 0 then 0
    else (if a % 2 == 1 || b % 2 == 1 then 1 else 0) + 2 * BitOr(n - 1, a / 2, b / 2)
  }

  function BitAndNot(n: nat, a: int, b: int): (r: int)
    ensures 0 <= r < Pow2(n)
  {
    if n == 0 then 0
    else (if a % 2 == 1 && b % 2 == 0 then 1 else 0) + 2 * BitAndNot(n - 1, a / 2, b / 2)
  }

  function CsrNewValue(i: Insn, was: Word, src: Word): Word {
    if i.funct3 == 2 || i.funct3 == 6 then WordOf(BitOr(32, was, src))
    else if i.funct3 == 3 || i.funct3 == 7 then WordOf(BitAndNot(32, was, src))
    else src
  }

  predicate CsrLegal(i: Insn) {
    CsrAt(CsrAddrOf(i)).Some? && !(CsrWrites(i) && CsrReadOnly(CsrAddrOf(i)))
  }

  // ---------- The machine ----------

  datatype Arch = Arch(pc: Addr, regs: seq<Word>, csrs: Csrs, mem: Mem, halted: bool)

  // What the machine sees of the outside when an instruction executes: is a debugger attached
  // that takes EBREAK, and the cycle counter.
  datatype Context = Context(ebreakHalt: bool, cycle: Dword)

  datatype Trap = Trap(cause: Word, tval: Word)

  /** One executed instruction as RVFI reports it; a field the instruction does not use is 0. */
  datatype Entry = Entry(insn: Insn, trap: bool, pc: Addr, next: Addr, rs1: RegId, rs1Data: Word,
                         rs2: RegId, rs2Data: Word, rd: RegId, rdData: Word, memAddr: Word,
                         rmask: Mask, wmask: Mask, rdata: Word, wdata: Word)

  // RVFI: of the word written only the bytes of the mask mean something.
  function Seen(e: Entry): Entry { e.(wdata := OnlyBytes(e.wdata, e.wmask)) }

  predicate Reads1(i: Insn) {
    || i.kind.KJalr? || i.kind.KBranch? || i.kind.KLoad? || i.kind.KStore? || i.kind.KOpImm?
    || i.kind.KOp? || i.kind.KMulDiv? || i.kind.KBitmanip? || (i.kind.KCsr? && i.funct3 < 4)
  }

  predicate Reads2(i: Insn) { i.kind.KBranch? || i.kind.KStore? || i.kind.KOp? || i.kind.KMulDiv? }

  predicate WritesRd(i: Insn) {
    || i.kind.KLui? || i.kind.KAuipc? || i.kind.KJal? || i.kind.KJalr? || i.kind.KLoad?
    || i.kind.KOpImm? || i.kind.KOp? || i.kind.KMulDiv? || i.kind.KBitmanip? || i.kind.KCsr?
  }

  // The hints of section 2.5 of the RISC-V Unprivileged ISA: x1 and x5 are link registers.
  predicate IsLink(r: RegId) { r == 1 || r == 5 }

  predicate IsCall(i: Insn) { (i.kind.KJal? || i.kind.KJalr?) && IsLink(i.rd) }

  predicate IsReturn(i: Insn) { i.kind.KJalr? && IsLink(i.rs1) && !(IsLink(i.rd) && i.rd == i.rs1) }

  predicate Condition(f: Funct3, a: Word, b: Word) {
    var less := Signed(a) < Signed(b);
    match f
    case 0 => a == b
    case 1 => a != b
    case 4 => less
    case 5 => !less
    case 6 => a < b
    case 7 => !(a < b)
    case _ => false
  }

  predicate Jumps(i: Insn, rs1: Word, rs2: Word) {
    i.kind.KJal? || i.kind.KJalr? || (i.kind.KBranch? && Condition(i.funct3, rs1, rs2))
  }

  // Byte address of the target; JALR clears bit 0.
  function Target(i: Insn, pc: Addr, rs1: Word): Word {
    if i.kind.KJalr? then Add(rs1, i.imm) / 2 * 2 else Add(ByteAddr(pc), i.imm)
  }

  function TrapOf(a: Arch, i: Insn, cx: Context, rs1: Word, rs2: Word): Option<Trap> {
    var target := Target(i, a.pc, rs1);
    var addr := Add(rs1, i.imm);
    if i.kind.KIllegal? || (i.kind.KCsr? && !CsrLegal(i)) then Some(Trap(2, i.word))
    else if i.kind.KEcall? then Some(Trap(11, 0))
    else if i.kind.KEbreak? && !cx.ebreakHalt then Some(Trap(3, ByteAddr(a.pc)))
    else if Jumps(i, rs1, rs2) && target % 4 != 0 then Some(Trap(0, target))
    else if i.kind.KLoad? && Misaligned(i.funct3, addr) then Some(Trap(4, addr))
    else if i.kind.KStore? && Misaligned(i.funct3, addr) then Some(Trap(6, addr))
    else None
  }

  function Value(bl: Blocks, a: Arch, i: Insn, cx: Context, rs1: Word, rs2: Word): Word {
    match i.kind
    case KLui => i.imm
    case KAuipc => Add(ByteAddr(a.pc), i.imm)
    case KJal => ByteAddr(NextAddr(a.pc))
    case KJalr => ByteAddr(NextAddr(a.pc))
    case KLoad => LoadValue(a.mem, i.funct3, Add(rs1, i.imm))
    case KOpImm => bl.alu(i, rs1, i.imm)
    case KOp => bl.alu(i, rs1, rs2)
    case KMulDiv => if IsDivide(i.funct3) then Divide(i.funct3, rs1, rs2) else Multiply(bl, i.funct3, rs1, rs2)
    case KBitmanip => bl.bitmanip(i, rs1)
    case KCsr => (match CsrAt(CsrAddrOf(i)) case Some(n) => CsrRead(a.csrs, cx.cycle, n) case None => 0)
    case _ => 0
  }

  function NextPc(a: Arch, i: Insn, rs1: Word, rs2: Word): Addr {
    if i.kind.KMret? then a.csrs.mepc
    else if Jumps(i, rs1, rs2) then WordAddr(Target(i, a.pc, rs1))
    else NextAddr(a.pc)
  }

  // CSRs after an instruction that completes: it counts, unless it writes the count itself.
  function CsrsAfter(a: Arch, i: Insn, cx: Context, rs1: Word): Csrs {
    var counted := a.csrs.(minstret := Increment(a.csrs.minstret));
    if i.kind.KMret? then counted.(mie := a.csrs.mpie, mpie := true)
    else if i.kind.KCsr? && CsrWrites(i) then
      match CsrAt(CsrAddrOf(i))
      case Some(n) =>
        var v := CsrNewValue(i, CsrRead(a.csrs, cx.cycle, n), CsrSource(i, rs1));
        CsrWrite(if n.Instret? || n.InstretH? then a.csrs else counted, n, v)
      case None => counted
    else counted
  }

  function CsrsTrap(a: Arch, t: Trap): Csrs {
    a.csrs.(mepc := a.pc, mcause := t.cause, mtval := t.tval, mpie := a.csrs.mie, mie := false)
  }

  function WriteReg(regs: seq<Word>, r: RegId, v: Word): (r': seq<Word>)
    requires |regs| == 32
    ensures |r'| == 32
  {
    if r == 0 then regs else regs[r := v]
  }

  // The entry of an instruction that traps: it reads its registers and goes to the handler.
  function TrapEntry(a: Arch, i: Insn): Entry
    requires |a.regs| == 32
  {
    var rs1 := a.regs[i.rs1];
    var rs2 := a.regs[i.rs2];
    Entry(i, true, a.pc, a.csrs.mtvec,
          if Reads1(i) then i.rs1 else 0, if Reads1(i) then rs1 else 0,
          if Reads2(i) then i.rs2 else 0, if Reads2(i) then rs2 else 0, 0, 0,
          if i.kind.KLoad? || i.kind.KStore? then ByteAddr(WordAddr(Add(rs1, i.imm))) else 0,
          NO_BYTES, NO_BYTES, 0, 0)
  }

  // The register an instruction writes, 0 for none, and the value it gets.
  function Dest(i: Insn): RegId { if WritesRd(i) then i.rd else 0 }

  function DestValue(bl: Blocks, a: Arch, i: Insn, cx: Context): Word
    requires |a.regs| == 32
  {
    if Dest(i) == 0 then 0 else Value(bl, a, i, cx, a.regs[i.rs1], a.regs[i.rs2])
  }

  function CompleteEntry(bl: Blocks, a: Arch, i: Insn, cx: Context): Entry
    requires |a.regs| == 32
  {
    var rs1 := a.regs[i.rs1];
    var rs2 := a.regs[i.rs2];
    var addr := Add(rs1, i.imm);
    var mask := AccessMask(i.funct3, addr);
    TrapEntry(a, i).(
      trap := false, next := NextPc(a, i, rs1, rs2), rd := Dest(i), rdData := DestValue(bl, a, i, cx),
      rmask := if i.kind.KLoad? then mask else NO_BYTES,
      wmask := if i.kind.KStore? then mask else NO_BYTES,
      rdata := if i.kind.KLoad? then ReadWord(a.mem, WordAddr(addr)) else 0,
      wdata := if i.kind.KStore? then OnlyBytes(InPlace(addr, rs2), mask) else 0)
  }

  function CompleteArch(bl: Blocks, a: Arch, i: Insn, cx: Context): Arch
    requires |a.regs| == 32
  {
    var rs1 := a.regs[i.rs1];
    var rs2 := a.regs[i.rs2];
    Arch(NextPc(a, i, rs1, rs2), WriteReg(a.regs, Dest(i), DestValue(bl, a, i, cx)),
         CsrsAfter(a, i, cx, rs1),
         if i.kind.KStore? then StoreValue(a.mem, i.funct3, Add(rs1, i.imm), rs2) else a.mem,
         i.kind.KEbreak?)
  }

  function TrapArch(a: Arch, t: Trap): Arch { a.(pc := a.csrs.mtvec, csrs := CsrsTrap(a, t)) }

  /** One instruction: the machine after it, and its entry. */
  function Execute(bl: Blocks, a: Arch, i: Insn, cx: Context): (r: (Arch, Entry))
    requires |a.regs| == 32
    ensures |r.0.regs| == 32
  {
    match TrapOf(a, i, cx, a.regs[i.rs1], a.regs[i.rs2])
    case Some(t) => (TrapArch(a, t), TrapEntry(a, i))
    case None => (CompleteArch(bl, a, i, cx), CompleteEntry(bl, a, i, cx))
  }

  // ---------- Runs of the machine ----------

  /** What can happen to the machine: an instruction executes; while halted, the debugger writes a
    * register and may resume; or nothing.
    */
  datatype Event =
    | Exec(cx: Context)
    | Debug(write: Option<(RegId, Word)>, resume: bool)
    | Stutter

  function Apply(bl: Blocks, code: Code, a: Arch, ev: Event): (a': Arch)
    requires |a.regs| == 32
    ensures |a'.regs| == 32
  {
    match ev
    case Exec(cx) => Execute(bl, a, code(a.pc), cx).0
    case Debug(w, resume) =>
      a.(regs := if w.Some? then WriteReg(a.regs, w.value.0, w.value.1) else a.regs,
         halted := a.halted && !resume)
    case Stutter => a
  }

  // An event the machine allows: it executes only while it runs, the debugger acts on a halted one.
  predicate Enabled(a: Arch, ev: Event) {
    (ev.Exec? ==> !a.halted) && (ev.Debug? ==> a.halted)
  }

  // A sequence of events the machine allows.
  predicate Runnable(bl: Blocks, code: Code, a: Arch, evs: seq<Event>)
    requires |a.regs| == 32
  {
    evs == [] ||
    (Runnable(bl, code, a, evs[..|evs| - 1])
     && Enabled(After(bl, code, a, evs[..|evs| - 1]), evs[|evs| - 1]))
  }

  // The machine after a sequence of events, and the entries of the instructions it executed.
  function After(bl: Blocks, code: Code, a: Arch, evs: seq<Event>): (a': Arch)
    requires |a.regs| == 32
    ensures |a'.regs| == 32
  {
    if evs == [] then a else Apply(bl, code, After(bl, code, a, evs[..|evs| - 1]), evs[|evs| - 1])
  }

  // The entries of one event.
  function Executed(bl: Blocks, code: Code, a: Arch, ev: Event): (r: seq<Entry>)
    requires |a.regs| == 32
    ensures |r| <= 1
  {
    if ev.Exec? then [Execute(bl, a, code(a.pc), ev.cx).1] else []
  }

  function Entries(bl: Blocks, code: Code, a: Arch, evs: seq<Event>): seq<Entry>
    requires |a.regs| == 32
  {
    if evs == [] then []
    else
      Entries(bl, code, a, evs[..|evs| - 1])
      + Executed(bl, code, After(bl, code, a, evs[..|evs| - 1]), evs[|evs| - 1])
  }

  lemma Unfold(bl: Blocks, code: Code, a: Arch, evs: seq<Event>, ev: Event)
    requires |a.regs| == 32
    ensures After(bl, code, a, evs + [ev]) == Apply(bl, code, After(bl, code, a, evs), ev)
    ensures Entries(bl, code, a, evs + [ev])
            == Entries(bl, code, a, evs) + Executed(bl, code, After(bl, code, a, evs), ev)
    ensures Runnable(bl, code, a, evs + [ev])
            <==> Runnable(bl, code, a, evs) && Enabled(After(bl, code, a, evs), ev)
  {
    hide Apply, Execute, Enabled;
    assert (evs + [ev])[..|evs|] == evs;
  }
}
