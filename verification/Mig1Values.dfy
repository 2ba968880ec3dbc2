/** Mig1 with its own ALU: what each instruction of OP and OP-IMM leaves in rd. */
module Mig1Values {
  import opened Arith
  import opened Isa
  import opened Parts
  import opened Adders
  import opened Shifter
  import opened Mig1Alu
  import C1 = Mig1
  import S1 = Mig1System
  import P1 = Mig1Step
  import T1 = Mig1Timing
  import Divider

  // ---------- What the instructions compute ----------

  lemma Width()
    ensures Pow2(5) == 32 && Pow2(32) == 0x1_0000_0000 && Pow2(31) == 0x8000_0000
  {
    Divider.Pow32();
  }

  // Bit 30 of the word: SUB, SRA, SRAI.
  predicate Alt(i: Insn) { i.word / 0x4000_0000 % 2 == 1 }

  // OP and OP-IMM of RV32I: bit 30 chooses only between ADD and SUB, and between the shifts right;
  // in an immediate that is no shift it means nothing.
  predicate Rv32i(i: Insn) {
    (i.kind.KOp? && (Alt(i) ==> i.funct3 == 0 || i.funct3 == 5)) || (i.kind.KOpImm? && (Alt(i) ==> i.funct3 != 1))
  }

  // Words bit by bit.
  function Bitwise(n: nat, f: (bool, bool) -> bool, a: int, b: int): (r: int)
    ensures 0 <= r < Pow2(n)
  {
    if n == 0 then 0 else Bit(f(a % 2 == 1, b % 2 == 1)) + 2 * Bitwise(n - 1, f, a / 2, b / 2)
  }

  /** Section 2.4 of the RISC-V Unprivileged ISA. */
  function OpResult(i: Insn, a: Word, b: Word): Word {
    Width();
    QuotientSmaller(a, Pow2(b % 32));
    match i.funct3
    case 0 => if i.kind.KOp? && Alt(i) then WordOf(a - b) else WordOf(a + b)
    case 1 => WordOf(a * Pow2(b % 32))
    case 2 => Bit(Signed(a) < Signed(b))
    case 3 => Bit(a < b)
    case 4 => Bitwise(32, (x, y) => x != y, a, b)
    case 5 => if Alt(i) then WordOf(Signed(a) / Pow2(b % 32)) else a / Pow2(b % 32)
    case 6 => Bitwise(32, (x, y) => x || y, a, b)
    case _ => Bitwise(32, (x, y) => x && y, a, b)
  }

  // ---------- What the ALU computes ----------

  lemma WordsFit(a: Word, b: Word)
    ensures Words(5, BitsOf(32, a), BitsOf(32, b))
  {
    Width();
  }

  function CtrlOf(i: Insn): Ctrl { Ctrl(true, i.funct3, i.kind.KOp? && Alt(i), Alt(i)) }

  // The result of Mig1Alu on words of 32 bits.
  function AluWord(d: Ctrl, a: Word, b: Word): (r: Word) {
    WordsFit(a, b);
    Width();
    Num(Result(5, d, BitsOf(32, a), BitsOf(32, b)))
  }

  lemma NumOfWord(a: Word)
    ensures Num(BitsOf(32, a)) == a
  {
    hide Num, BitsOf, Pow2;
    Width();
    NumOfBits(32, a);
  }

  lemma SignedOfWord(a: Word)
    ensures SignedNum(BitsOf(32, a)) == Signed(a)
  {
    hide Num, BitsOf, Pow2;
    Width();
    NumOfWord(a);
    NumTop(BitsOf(32, a));
  }

  // A two's complement number as a word.
  lemma WordOfSigned(x: Bits)
    requires |x| == 32
    ensures Num(x) == WordOf(SignedNum(x))
  {
    hide Num, Pow2;
    Width();
  }

  lemma {:induction false} LowBits(n: nat, k: nat, v: int)
    requires k <= n
    ensures BitsOf(n, v)[..k] == BitsOf(k, v)
    decreases k
  {
    if k > 0 {
      LowBits(n - 1, k - 1, v / 2);
    }
  }

  lemma ShiftAmount(b: Word)
    ensures Num(BitsOf(32, b)[..5]) == b % 32
  {
    hide Num, BitsOf, Pow2;
    Width();
    LowBits(32, 5, b);
    NumOfBits(5, b);
  }

  lemma {:induction false} NumBitwise(x: Bits, n: nat, f: (bool, bool) -> bool, a: int, b: int)
    requires |x| == n && forall k :: 0 <= k < n ==> x[k] == f(BitsOf(n, a)[k], BitsOf(n, b)[k])
    ensures Num(x) == Bitwise(n, f, a, b)
    decreases n
  {
    if n > 0 {
      var y, c, d := x[1..], BitsOf(n, a), BitsOf(n, b);
      assert c[1..] == BitsOf(n - 1, a / 2) && d[1..] == BitsOf(n - 1, b / 2);
      assert forall k :: 0 <= k < n - 1 ==> y[k] == f(c[1..][k], d[1..][k]);
      NumBitwise(y, n - 1, f, a / 2, b / 2);
    }
  }

  lemma SumsExact(d: Ctrl, a: Word, b: Word)
    requires d.op ==> d.funct3 == 0
    ensures AluWord(d, a, b) == if d.op && d.sub then WordOf(a - b) else WordOf(a + b)
  {
    hide Num, BitsOf, Pow2, Result;
    Width();
    WordsFit(a, b);
    NumOfWord(a);
    NumOfWord(b);
    AluAdds(5, d, BitsOf(32, a), BitsOf(32, b));
  }

  /** The sum of LUI, AUIPC and the addresses is the wrapping sum of the machine. */
  lemma AddressesExact(d: Ctrl, a: Word, b: Word)
    requires !d.op
    ensures AluWord(d, a, b) == Add(a, b)
  {
    hide AluWord;
    SumsExact(d, a, b);
  }

  lemma ComparesExact(d: Ctrl, a: Word, b: Word)
    requires d.op && (d.funct3 == 2 || d.funct3 == 3)
    ensures AluWord(d, a, b) == Bit(if d.funct3 == 2 then Signed(a) < Signed(b) else a < b)
  {
    hide Num, BitsOf, Pow2, Result, SignedNum, Signed;
    WordsFit(a, b);
    NumOfWord(a);
    NumOfWord(b);
    SignedOfWord(a);
    SignedOfWord(b);
    AluCompares(5, d, BitsOf(32, a), BitsOf(32, b));
  }

  lemma ShiftsExact(d: Ctrl, a: Word, b: Word)
    requires d.op && (d.funct3 == 1 || d.funct3 == 5) && (d.funct3 == 1 ==> !d.alt)
    ensures d.funct3 == 1 ==> AluWord(d, a, b) == WordOf(a * Pow2(b % 32))
    ensures d.funct3 == 5 ==>
              AluWord(d, a, b) == if d.alt then WordOf(Signed(a) / Pow2(b % 32)) else a / Pow2(b % 32)
  {
    hide Num, BitsOf, Pow2, Result, SignedNum, Signed;
    Width();
    WordsFit(a, b);
    NumOfWord(a);
    SignedOfWord(a);
    ShiftAmount(b);
    AluShifts(5, d, BitsOf(32, a), BitsOf(32, b));
    WordOfSigned(Result(5, d, BitsOf(32, a), BitsOf(32, b)));
  }

  lemma LogicExact(d: Ctrl, a: Word, b: Word)
    requires d.op && d.funct3 in {4, 6, 7}
    ensures AluWord(d, a, b) == if d.funct3 == 4 then Bitwise(32, (x, y) => x != y, a, b)
                                else if d.funct3 == 6 then Bitwise(32, (x, y) => x || y, a, b)
                                else Bitwise(32, (x, y) => x && y, a, b)
  {
    hide Num, BitsOf, Pow2, Result, Bitwise;
    WordsFit(a, b);
    Width();
    var r := Result(5, d, BitsOf(32, a), BitsOf(32, b));
    forall k | 0 <= k < 32
      ensures r[k] == if d.funct3 == 4 then BitsOf(32, a)[k] != BitsOf(32, b)[k]
                      else if d.funct3 == 6 then BitsOf(32, a)[k] || BitsOf(32, b)[k]
                      else BitsOf(32, a)[k] && BitsOf(32, b)[k]
    {
      AluLogic(5, d, BitsOf(32, a), BitsOf(32, b), k);
    }
    if d.funct3 == 4 {
      NumBitwise(r, 32, (x, y) => x != y, a, b);
    } else if d.funct3 == 6 {
      NumBitwise(r, 32, (x, y) => x || y, a, b);
    } else {
      NumBitwise(r, 32, (x, y) => x && y, a, b);
    }
  }

  /** Mig1Alu computes what every instruction of OP and OP-IMM is for. */
  lemma AluExact(i: Insn, a: Word, b: Word)
    requires Rv32i(i)
    ensures AluWord(CtrlOf(i), a, b) == OpResult(i, a, b)
  {
    hide AluWord, Bitwise, Alt, Signed, Pow2;
    var d := CtrlOf(i);
    if i.funct3 == 0 {
      SumsExact(d, a, b);
    } else if i.funct3 == 2 || i.funct3 == 3 {
      ComparesExact(d, a, b);
    } else if i.funct3 == 1 || i.funct3 == 5 {
      ShiftsExact(d, a, b);
    } else {
      LogicExact(d, a, b);
    }
  }

  // ---------- In the pipeline ----------

  // The ALU of the pipeline is Mig1Alu.
  ghost predicate UsesMig1Alu(bl: Blocks) {
    forall i: Insn, a: Word, b: Word :: Rv32i(i) ==> bl.alu(i, a, b) == AluWord(CtrlOf(i), a, b)
  }

  lemma ValueIsAlu(bl: Blocks, a: Arch, i: Insn, cx: Context, rs1: Word, rs2: Word)
    requires UsesMig1Alu(bl) && Rv32i(i)
    ensures Value(bl, a, i, cx, rs1, rs2) == OpResult(i, rs1, if i.kind.KOp? then rs2 else i.imm)
  {
    hide OpResult, AluWord;
    AluExact(i, rs1, if i.kind.KOp? then rs2 else i.imm);
  }

  /** What an OP or OP-IMM instruction leaves: its result in rd, the next address, one more instruction
    * retired, and nothing else.
    */
  function OpArch(a: Arch, i: Insn): Arch
    requires |a.regs| == 32
  {
    var r := OpResult(i, a.regs[i.rs1], if i.kind.KOp? then a.regs[i.rs2] else i.imm);
    Arch(NextAddr(a.pc), WriteReg(a.regs, i.rd, r), a.csrs.(minstret := Increment(a.csrs.minstret)), a.mem, false)
  }

  lemma OpGoesOn(a: Arch, i: Insn)
    requires |a.regs| == 32
    ensures 4 * OpArch(a, i).pc == (4 * a.pc + 4) % 0x1_0000_0000
  {
    hide OpResult, WriteReg, Increment;
  }

  lemma ExecutesOp(bl: Blocks, a: Arch, i: Insn, cx: Context)
    requires |a.regs| == 32 && UsesMig1Alu(bl) && Rv32i(i)
    ensures Execute(bl, a, i, cx).0 == OpArch(a, i)
  {
    hide Value, Target, Misaligned, StoreValue, UsesMig1Alu, OpResult;
    ValueIsAlu(bl, a, i, cx, a.regs[i.rs1], a.regs[i.rs2]);
  }

  lemma InsnAtPc(bl: Blocks, code: Code, s: S1.System, i: C1.Inputs)
    requires P1.Clock(code, s, i) && C1.CoreOk(s.core) && C1.Commits(bl, s.core, i)
    ensures s.core.idEx.insn == code(S1.ArchOf(s).pc) && !S1.ArchOf(s).halted
  {
    hide S1.Inv, P1.Wellformed, C1.Commits, Execute, C1.ExTrap, C1.ExBranch, Condition;
    T1.LeavingFields(bl, code, s, i);
    P1.ClockRefines(bl, code, s, i);
  }

  // The instruction that leaves EX is the one the machine executes.
  lemma InsnExecutes(bl: Blocks, code: Code, s: S1.System, i: C1.Inputs)
    requires P1.Clock(code, s, i) && C1.CoreOk(s.core) && C1.Commits(bl, s.core, i)
    ensures S1.ArchOf(S1.NextSystem(bl, code, s, i))
            == Execute(bl, S1.ArchOf(s), s.core.idEx.insn, P1.ContextOf(s, i)).0
  {
    hide P1.Clock, C1.Commits, S1.NextSystem, S1.ArchOf, Execute, P1.ContextOf, Enabled, P1.Complete, Seen;
    P1.ClockRefines(bl, code, s, i);
    InsnAtPc(bl, code, s, i);
  }

  /** The clock in which an OP or OP-IMM instruction leaves EX leaves its result in the machine. */
  lemma OpLeavesResult(bl: Blocks, code: Code, s: S1.System, i: C1.Inputs)
    requires UsesMig1Alu(bl) && P1.Clock(code, s, i) && C1.CoreOk(s.core)
    requires C1.Commits(bl, s.core, i) && Rv32i(s.core.idEx.insn)
    ensures S1.ArchOf(S1.NextSystem(bl, code, s, i)) == OpArch(S1.ArchOf(s), s.core.idEx.insn)
    ensures 4 * S1.ArchOf(S1.NextSystem(bl, code, s, i)).pc == (4 * S1.ArchOf(s).pc + 4) % 0x1_0000_0000
  {
    hide P1.Clock, C1.Commits, S1.NextSystem, S1.ArchOf, UsesMig1Alu, Rv32i, Execute, OpArch, P1.ContextOf;
    InsnExecutes(bl, code, s, i);
    ExecutesOp(bl, S1.ArchOf(s), s.core.idEx.insn, P1.ContextOf(s, i));
    OpGoesOn(S1.ArchOf(s), s.core.idEx.insn);
  }
}
