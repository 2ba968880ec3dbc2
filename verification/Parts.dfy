/** The parts that Mig1 and Mig2 share: decode controls, register file, forwarding, branch unit,
  * load/store unit, load data, CSRs, the pipeline register. Each part has a lemma that says what
  * it gives in the terms of the sequential machine.
  */
module Parts {
  import opened Isa
  import Arith

  datatype Bubble =
    | BNone | BFill | BCondBranch | BPredTaken | BBtbFix | BDirJump | BIndirJump | BRet | BPredRet
    | BTrap | BXret | BLoadUse | BDiv | BImem | BDmem

  // ---------- Decode ----------

  datatype RdSrc = RdAlu | RdLink | RdLoad | RdCsr | RdMulDiv | RdBitmanip
  datatype AluA = ARs1 | APc | AZero

  // The operation of the ALU: the one of the encoding for OP and OP-IMM, a + b for the others.
  datatype AluOp = AluAdd | AluOf(insn: Insn)

  datatype MulDivCtrl = MulDivCtrl(en: bool, div: bool, rem: bool, mulLo: bool, aSigned: bool,
                                   bSigned: bool, divSigned: bool)

  datatype Decoded = Decoded(rd: RegId, rs1: RegId, rs2: RegId, rdWe: bool, rdSrc: RdSrc,
                             usesRs1: bool, usesRs2: bool, aluA: AluA, aluBImm: bool, alu: AluOp,
                             jump: bool, branch: bool, targetRs1: bool, ret: bool, call: bool,
                             memRead: bool, memWrite: bool, csr: bool, mret: bool, ecall: bool,
                             ebreak: bool, illegal: bool, muldiv: MulDivCtrl, insn: Insn,
                             funct3: Funct3, imm: Word)

  const NO_MULDIV := MulDivCtrl(false, false, false, false, false, false, false)

  function MulDivOf(f: Funct3): MulDivCtrl {
    MulDivCtrl(true, f == 4 || f == 5 || f == 6 || f == 7, f == 6 || f == 7, f == 0,
               f == 1 || f == 2, f == 1, f == 4 || f == 6)
  }

  function Decode(i: Insn): Decoded {
    var d := Decoded(i.rd, i.rs1, i.rs2, false, RdAlu, false, false, ARs1, true,
                     if i.kind.KOpImm? || i.kind.KOp? then AluOf(i) else AluAdd,
                     false, false, false, false, false, false, false, false, false, false, false,
                     false, NO_MULDIV, i, i.funct3, i.imm);
    match i.kind
    case KLui => d.(rdWe := true, aluA := AZero)
    case KAuipc => d.(rdWe := true, aluA := APc)
    case KJal => d.(rdWe := true, rdSrc := RdLink, jump := true, call := IsLink(i.rd))
    case KJalr => d.(rdWe := true, rdSrc := RdLink, usesRs1 := true, jump := true, targetRs1 := true,
                     ret := IsLink(i.rs1) && (!IsLink(i.rd) || i.rd != i.rs1), call := IsLink(i.rd))
    case KBranch => d.(usesRs1 := true, usesRs2 := true, branch := true)
    case KLoad => d.(rdWe := true, rdSrc := RdLoad, usesRs1 := true, memRead := true)
    case KStore => d.(usesRs1 := true, usesRs2 := true, memWrite := true)
    case KOpImm => d.(rdWe := true, usesRs1 := true)
    case KOp => d.(rdWe := true, usesRs1 := true, usesRs2 := true, aluBImm := false)
    case KMulDiv => d.(rdWe := true, rdSrc := RdMulDiv, usesRs1 := true, usesRs2 := true,
                       muldiv := MulDivOf(i.funct3))
    case KBitmanip => d.(rdWe := true, rdSrc := RdBitmanip, usesRs1 := true)
    case KCsr => d.(rdWe := true, rdSrc := RdCsr, csr := true,
                    usesRs1 := i.funct3 == 1 || i.funct3 == 2 || i.funct3 == 3)
    case KEcall => d.(ecall := true)
    case KEbreak => d.(ebreak := true)
    case KMret => d.(mret := true)
    case KIllegal => d.(illegal := true)
    case KFence => d
    case KWfi => d
  }

  // The controls of an instruction say what it reads, writes and does.
  lemma FieldsExact(i: Insn)
    ensures var d := Decode(i);
            && d.rd == i.rd && d.rs1 == i.rs1 && d.rs2 == i.rs2 && d.funct3 == i.funct3 && d.imm == i.imm
            && d.rdWe == WritesRd(i)
  {
  }

  lemma ReadsFirst(i: Insn)
    requires Encodable(i)
    ensures Decode(i).usesRs1 == Reads1(i)
  {
  }

  lemma ReadsExact(i: Insn)
    requires Encodable(i)
    ensures Decode(i).usesRs1 == Reads1(i) && Decode(i).usesRs2 == Reads2(i)
  {
    ReadsFirst(i);
  }

  lemma AccessExact(i: Insn)
    ensures var d := Decode(i);
            && (d.rdSrc.RdLoad? <==> i.kind.KLoad?) && (d.memRead <==> i.kind.KLoad?)
            && (d.memWrite <==> i.kind.KStore?)
  {
  }

  lemma JumpsExact(i: Insn)
    ensures var d := Decode(i);
            && (d.branch <==> i.kind.KBranch?) && (d.jump <==> i.kind.KJal? || i.kind.KJalr?)
            && (d.targetRs1 <==> i.kind.KJalr?) && (d.ret ==> i.kind.KJalr?)
            && (d.call ==> i.kind.KJal? || i.kind.KJalr?)
  {
  }

  lemma HintsExact(i: Insn)
    ensures Decode(i).call == IsCall(i) && Decode(i).ret == IsReturn(i)
  {
  }

  lemma SystemExact(i: Insn)
    ensures var d := Decode(i);
            && (d.mret <==> i.kind.KMret?) && (d.ebreak <==> i.kind.KEbreak?) && (d.csr <==> i.kind.KCsr?)
            && (d.ecall <==> i.kind.KEcall?) && (d.muldiv.en <==> i.kind.KMulDiv?)
  {
  }

  // ---------- ALU ----------

  function AluValue(bl: Blocks, d: Decoded, pc: Addr, rs1: Word, rs2: Word): Word {
    var a := match d.aluA case ARs1 => rs1 case APc => ByteAddr(pc) case AZero => 0;
    var b := if d.aluBImm then d.imm else rs2;
    match d.alu
    case AluAdd => Add(a, b)
    case AluOf(insn) => bl.alu(insn, a, b)
  }

  // ---------- Pipeline register ----------

  // The slot of a stage: an instruction, or a bubble with its reason.
  datatype Fetch = Fetch(valid: bool, bubble: Bubble, pc: Addr)

  const ORDERS := 0x1_0000_0000_0000_0000    // the retire order has 64 bits
  type Order = n: int | 0 <= n < ORDERS

  // EX/MEM: the retire entry, and what MEM/WB needs to load.
  datatype ExMem = ExMem(valid: bool, bubble: Bubble, ret: Entry, load: bool, funct3: Funct3, offset: Offset)

  // ---------- Control ----------

  datatype ControlState = ControlState(running: bool, memHalting: bool, haltPc: Addr)

  // halt_pc keeps the address of the last EBREAK that halted the core.
  function NextHalt(c: ControlState, exStop: bool, exPc: Addr, resume: bool): ControlState {
    ControlState(if c.memHalting then false else if !c.running && resume then true else c.running,
                 exStop, if exStop then exPc else c.haltPc)
  }

  datatype FetchCtrl = FetchCtrl(run: bool, stall: bool, redirect: bool, why: Bubble, target: Addr)

  // ---------- Register file and forwarding ----------

  function ReadReg(regs: seq<Word>, r: RegId): Word
    requires |regs| == 32
  {
    if r == 0 then 0 else regs[r]
  }

  // What the register file stands for: x0 is never stored and reads 0.
  function RegsOf(file: seq<Word>): (r: seq<Word>)
    requires |file| == 32
    ensures |r| == 32
  {
    file[0 := 0]
  }

  // The file after a clock: the debugger owns its write port while the core is halted.
  function NextFile(regs: seq<Word>, halt: bool, rd: RegId, data: Word, dbgWrite: bool, dbgReg: RegId,
          dbgData: Word): (r: seq<Word>)
    requires |regs| == 32
    ensures |r| == 32
  {
    if halt then (if dbgWrite then WriteReg(regs, dbgReg, dbgData) else regs) else WriteReg(regs, rd, data)
  }

  function Forward(r: RegId, file: Word, exRd: RegId, exData: Word, memRd: RegId, memData: Word): Word {
    if r != 0 && r == exRd then exData else if r != 0 && r == memRd then memData else file
  }

  // ---------- Branches ----------

  // Static guess: backward branches are taken.
  predicate PredTaken(d: Decoded) { d.branch && d.imm >= 0x8000_0000 }

  datatype Branch = Branch(taken: bool, target: Addr, misaligned: bool)

  // Order of signed words: flip the sign bits and compare unsigned.
  predicate SignedLess(a: Word, b: Word) { Add(a, 0x8000_0000) < Add(b, 0x8000_0000) }

  predicate BranchCond(f: Funct3, a: Word, b: Word) {
    match f
    case 0 => a == b
    case 1 => a != b
    case 4 => SignedLess(a, b)
    case 5 => !SignedLess(a, b)
    case 6 => a < b
    case 7 => !(a < b)
    case _ => false
  }

  // Bit 1 of a target: not the address of an instruction.
  predicate TargetMisaligned(t: Word) { t / 2 % 2 == 1 }

  function BranchUnit(d: Decoded, pc: Addr, rs1: Word, rs2: Word): Branch {
    var target := Add(if d.targetRs1 then rs1 else ByteAddr(pc), d.imm);
    Branch(d.jump || (d.branch && BranchCond(d.funct3, rs1, rs2)), WordAddr(target),
           TargetMisaligned(target))
  }

  lemma TargetExact(t: Word)
    ensures WordAddr(t / 2 * 2) == WordAddr(t)
    ensures TargetMisaligned(t) <==> (t / 2 * 2) % 4 != 0
    ensures TargetMisaligned(t) ==> t / 2 * 2 == ByteAddr(WordAddr(t)) + 2
    ensures t % 2 == 0 ==> t / 2 * 2 == t
  {
    Arith.TargetBits(t);
  }

  lemma EvenTarget(pc: Addr, imm: Word)
    requires imm % 2 == 0
    ensures Add(ByteAddr(pc), imm) % 2 == 0
  {
    Arith.EvenSum(pc, imm, if 4 * pc + imm < 0x1_0000_0000 then 0 else 1);
  }

  lemma SignedLessExact(a: Word, b: Word)
    ensures SignedLess(a, b) <==> Signed(a) < Signed(b)
  {
  }

  // What the branch unit says is what the machine does: taken, where, and whether that traps
  // (with the target as Control makes it: the word address with bit 1 set).
  lemma BranchExact(i: Insn, pc: Addr, rs1: Word, rs2: Word)
    requires Encodable(i)
    ensures var b := BranchUnit(Decode(i), pc, rs1, rs2);
            && b.taken == Jumps(i, rs1, rs2)
            && (b.taken ==>
                  && b.target == WordAddr(Target(i, pc, rs1))
                  && (b.misaligned <==> Target(i, pc, rs1) % 4 != 0)
                  && (b.misaligned ==> Target(i, pc, rs1) == ByteAddr(b.target) + 2))
  {
    hide Decode, Signed, SignedLess;
    JumpsExact(i);
    FieldsExact(i);
    SignedLessExact(rs1, rs2);
    if i.kind.KJalr? {
      TargetExact(Add(rs1, i.imm));
    } else if i.kind.KJal? || i.kind.KBranch? {
      EvenTarget(pc, i.imm);
      TargetExact(Add(ByteAddr(pc), i.imm));
    }
  }

  // ---------- Load/store unit ----------

  datatype MemReq = MemReq(valid: bool, we: bool, addr: Addr, wdata: Word, wstrb: Mask)
  datatype LsuMem = LsuMem(addr: Word, rmask: Mask, wmask: Mask, wdata: Word)
  datatype Lsu = Lsu(req: MemReq, misaligned: bool, mem: LsuMem)

  // The strobes of an access at byte 0, moved up to byte k.
  function Strobes(f: Funct3, k: Offset): Mask {
    if f == 0 || f == 4 then Mask(k == 0, k == 1, k == 2, k == 3)
    else if f == 1 || f == 5 then Mask(k == 0, k == 0 || k == 1, k == 1 || k == 2, k == 2 || k == 3)
    else Mask(true, true, true, true)
  }

  // The low byte or halfword repeated over the word.
  function Replicate(f: Funct3, v: Word): Word {
    if f == 0 then 0x0101_0101 * (v % 0x100)
    else if f == 1 then 0x0001_0001 * (v % 0x1_0000)
    else v
  }

  // k is the byte of the address in its word.
  function LsuUnit(valid: bool, d: Decoded, k: Offset, addr: Word, rs2: Word): Lsu {
    var load := valid && d.memRead;
    var store := valid && d.memWrite;
    var unaligned := if d.funct3 == 1 || d.funct3 == 5 then k % 2 != 0
                     else if d.funct3 == 2 then k != 0 else false;
    var misaligned := (load || store) && unaligned;
    var strb := Strobes(d.funct3, k);
    var data := Replicate(d.funct3, rs2);
    Lsu(MemReq((load || store) && !misaligned, store, WordAddr(addr), data, strb), misaligned,
        LsuMem(if load || store then ByteAddr(WordAddr(addr)) else 0,
               if load && !misaligned then strb else NO_BYTES,
               if store && !misaligned then strb else NO_BYTES,
               if store && !misaligned then data else 0))
  }

  // A word memory that writes the bytes of wdata with their strobe set.
  function StrobeWrite(m: Mem, a: Addr, wdata: Word, s: Mask): Mem {
    var w := ReadWord(m, a);
    m[a := FromBytes(ByteOf(if s.b0 then wdata else w, 0), ByteOf(if s.b1 then wdata else w, 1),
                     ByteOf(if s.b2 then wdata else w, 2), ByteOf(if s.b3 then wdata else w, 3))]
  }

  function LoadData(f: Funct3, k: Offset, word: Word): Word {
    var s := if k == 0 then word else if k == 1 then word / 0x100
             else if k == 2 then word / 0x1_0000 else word / 0x100_0000;
    var b := s % 0x100;
    var h := s % 0x1_0000;
    if f == 0 then (if b / 0x80 == 1 then 0xFFFF_FF00 + b else b)
    else if f == 1 then (if h / 0x8000 == 1 then 0xFFFF_0000 + h else h)
    else if f == 4 then b
    else if f == 5 then h
    else s
  }

  lemma OffsetOfSum(a: Word, b: Word)
    ensures (OffsetOf(a) + OffsetOf(b)) % 4 == OffsetOf(Add(a, b))
  {
    Arith.RestOfSum(a, b, if a + b < 0x1_0000_0000 then 0 else 1);
  }

  lemma Even(a: Word)
    ensures OffsetOf(a) % 2 == a % 2
    ensures a % 2 == 0 ==> OffsetOf(a) == 0 || OffsetOf(a) == 2
  {
    Arith.EvenRest(a);
  }

  lemma MisalignedExact(f: Funct3, a: Word)
    requires f in {0, 1, 2, 4, 5}
    ensures Misaligned(f, a) <==>
            (if f == 1 || f == 5 then OffsetOf(a) % 2 != 0 else if f == 2 then OffsetOf(a) != 0 else false)
  {
    Even(a);
  }

  lemma StrobesExact(f: Funct3, a: Word)
    requires f in {0, 1, 2, 4, 5} && !Misaligned(f, a)
    ensures Strobes(f, OffsetOf(a)) == AccessMask(f, a)
  {
  }

  // The bytes of an aligned access lie in one word.
  lemma SameWord(a: Word, j: int)
    requires 0 <= j && OffsetOf(a) + j < 4
    ensures WordAddr(Add(a, j)) == WordAddr(a) && OffsetOf(Add(a, j)) == OffsetOf(a) + j
  {
    Arith.EvenRest(a);
    Arith.Split4(a + j, a / 4, a % 4 + j);
  }

  lemma FourBytes(w: Word)
    ensures FromBytes(ByteOf(w, 0), ByteOf(w, 1), ByteOf(w, 2), ByteOf(w, 3)) == w
  {
    Arith.Base256(w);
  }

  lemma BytesOfFour(b0: Byte, b1: Byte, b2: Byte, b3: Byte)
    ensures var w := FromBytes(b0, b1, b2, b3);
            ByteOf(w, 0) == b0 && ByteOf(w, 1) == b1 && ByteOf(w, 2) == b2 && ByteOf(w, 3) == b3
  {
    Arith.Base256Of(FromBytes(b0, b1, b2, b3), b0, b1, b2, b3);
  }

  // The low byte and halfword of a word shifted down by whole bytes.
  lemma LowBytes(w: Word)
    ensures w / 0x100 % 0x100 == ByteOf(w, 1)
    ensures w / 0x1_0000 % 0x100 == ByteOf(w, 2)
    ensures w / 0x100_0000 % 0x100 == ByteOf(w, 3)
    ensures w % 0x1_0000 == ByteOf(w, 0) + 0x100 * ByteOf(w, 1)
    ensures w / 0x1_0000 % 0x1_0000 == ByteOf(w, 2) + 0x100 * ByteOf(w, 3)
  {
    Arith.Base256(w);
  }

  function Half(w: Word, k: Offset): int
    requires k < 3
  {
    ByteOf(w, k) + 0x100 * ByteOf(w, k + 1)
  }

  // Load data in terms of the bytes of the word.
  lemma LoadDataBytes(f: Funct3, k: Offset, w: Word)
    requires f in {0, 4} || (f in {1, 5} && (k == 0 || k == 2))
    ensures f == 0 ==> LoadData(f, k, w) == if ByteOf(w, k) >= 0x80 then 0xFFFF_FF00 + ByteOf(w, k) else ByteOf(w, k)
    ensures f == 4 ==> LoadData(f, k, w) == ByteOf(w, k)
    ensures f == 1 ==> LoadData(f, k, w) == if Half(w, k) >= 0x8000 then 0xFFFF_0000 + Half(w, k) else Half(w, k)
    ensures f == 5 ==> LoadData(f, k, w) == Half(w, k)
  {
    LowBytes(w);
  }

  lemma LoadHalfExact(m: Mem, f: Funct3, a: Word)
    requires (f == 1 || f == 5) && a % 2 == 0
    ensures LoadData(f, OffsetOf(a), ReadWord(m, WordAddr(a))) == LoadValue(m, f, a)
  {
    Even(a);
    SameWord(a, 1);
    LoadDataBytes(f, OffsetOf(a), ReadWord(m, WordAddr(a)));
  }

  lemma LoadWordExact(m: Mem, a: Word)
    requires a % 4 == 0
    ensures ReadWord(m, WordAddr(a)) == LoadValue(m, 2, a)
  {
    SameWord(a, 1);
    SameWord(a, 2);
    SameWord(a, 3);
    FourBytes(ReadWord(m, WordAddr(a)));
  }

  // Loads through shift and extension are loads byte by byte.
  lemma LoadDataExact(m: Mem, f: Funct3, a: Word)
    requires f in {0, 1, 2, 4, 5} && !Misaligned(f, a)
    ensures LoadData(f, OffsetOf(a), ReadWord(m, WordAddr(a))) == LoadValue(m, f, a)
  {
    if f == 2 {
      LoadWordExact(m, a);
    } else if f == 1 || f == 5 {
      LoadHalfExact(m, f, a);
    } else {
      LoadDataBytes(f, OffsetOf(a), ReadWord(m, WordAddr(a)));
    }
  }

  lemma ReplicatedBytes(f: Funct3, v: Word)
    requires f == 0 || f == 1
    ensures var r := Replicate(f, v);
            && ByteOf(r, 0) == ByteOf(r, 2) == ByteOf(v, 0)
            && ByteOf(r, 1) == ByteOf(r, 3) == ByteOf(v, f)
  {
    Arith.Base256(v);
    if f == 0 {
      Arith.Base256Of(Replicate(f, v), ByteOf(v, 0), ByteOf(v, 0), ByteOf(v, 0), ByteOf(v, 0));
    } else {
      Arith.Base256Of(Replicate(f, v), ByteOf(v, 0), ByteOf(v, 1), ByteOf(v, 0), ByteOf(v, 1));
    }
  }

  // A value shifted up by k bytes.
  lemma ShiftedBytes(v: Word)
    ensures ByteOf(v * 0x100 % 0x1_0000_0000, 1) == ByteOf(v, 0)
    ensures ByteOf(v * 0x1_0000 % 0x1_0000_0000, 2) == ByteOf(v, 0)
    ensures ByteOf(v * 0x1_0000 % 0x1_0000_0000, 3) == ByteOf(v, 1)
    ensures ByteOf(v * 0x100_0000 % 0x1_0000_0000, 3) == ByteOf(v, 0)
  {
    Arith.Base256(v);
    var b0: Byte, b1: Byte, b2: Byte, b3: Byte := ByteOf(v, 0), ByteOf(v, 1), ByteOf(v, 2), ByteOf(v, 3);
    Arith.RestOfWord(v * 0x100, b3, 0x100 * b0 + 0x1_0000 * b1 + 0x100_0000 * b2);
    Arith.Base256Of(v * 0x100 % 0x1_0000_0000, 0, b0, b1, b2);
    Arith.RestOfWord(v * 0x1_0000, b2 + 0x100 * b3, 0x1_0000 * b0 + 0x100_0000 * b1);
    Arith.Base256Of(v * 0x1_0000 % 0x1_0000_0000, 0, 0, b0, b1);
    Arith.RestOfWord(v * 0x100_0000, b1 + 0x100 * b2 + 0x1_0000 * b3, 0x100_0000 * b0);
    Arith.Base256Of(v * 0x100_0000 % 0x1_0000_0000, 0, 0, 0, b0);
  }

  lemma ReplicatedInPlace(f: Funct3, a: Word, v: Word)
    requires f in {0, 1, 2} && !Misaligned(f, a)
    ensures OnlyBytes(Replicate(f, v), AccessMask(f, a)) == OnlyBytes(InPlace(a, v), AccessMask(f, a))
  {
    ShiftedBytes(v);
    if f != 2 {
      ReplicatedBytes(f, v);
      Even(a);
    }
  }

  lemma StoreHalf(m: Mem, a: Word, v: Word)
    requires a % 2 == 0
    ensures StrobeWrite(m, WordAddr(a), Replicate(1, v), Strobes(1, OffsetOf(a))) == StoreValue(m, 1, a, v)
  {
    var n := WordAddr(a);
    var k := OffsetOf(a);
    var w := ReadWord(m, n);
    Even(a);
    SameWord(a, 1);
    ReplicatedBytes(1, v);
    var w1 := WithByte(w, k, ByteOf(v, 0));
    BytesOfFour(if k == 0 then ByteOf(v, 0) else ByteOf(w, 0), ByteOf(w, 1),
                if k == 2 then ByteOf(v, 0) else ByteOf(w, 2), ByteOf(w, 3));
    var w2 := WithByte(w1, k + 1, ByteOf(v, 1));
    assert m[n := w1][n := w2] == m[n := w2];
  }

  lemma StoreWord(m: Mem, a: Word, v: Word)
    requires a % 4 == 0
    ensures StrobeWrite(m, WordAddr(a), v, Mask(true, true, true, true)) == StoreValue(m, 2, a, v)
  {
    var n := WordAddr(a);
    var w := ReadWord(m, n);
    SameWord(a, 1);
    SameWord(a, 2);
    SameWord(a, 3);
    var w1 := WithByte(w, 0, ByteOf(v, 0));
    BytesOfFour(ByteOf(v, 0), ByteOf(w, 1), ByteOf(w, 2), ByteOf(w, 3));
    var w2 := WithByte(w1, 1, ByteOf(v, 1));
    BytesOfFour(ByteOf(v, 0), ByteOf(v, 1), ByteOf(w, 2), ByteOf(w, 3));
    var w3 := WithByte(w2, 2, ByteOf(v, 2));
    BytesOfFour(ByteOf(v, 0), ByteOf(v, 1), ByteOf(v, 2), ByteOf(w, 3));
    var w4 := WithByte(w3, 3, ByteOf(v, 3));
    assert m[n := w1][n := w2][n := w3][n := w4] == m[n := w4];
  }

  // Stores through replicated data and strobes are stores byte by byte.
  lemma StoreExact(m: Mem, f: Funct3, a: Word, v: Word)
    requires f in {0, 1, 2} && !Misaligned(f, a)
    ensures StrobeWrite(m, WordAddr(a), Replicate(f, v), Strobes(f, OffsetOf(a))) == StoreValue(m, f, a, v)
  {
    if f == 0 {
      ReplicatedBytes(f, v);
    } else if f == 1 {
      StoreHalf(m, a, v);
    } else {
      StoreWord(m, a, v);
    }
  }
}
