/** The ALU of Mig1, for every width: Alu1 over the ripple-carry adder, comparisons from its
  * subtraction, and shifts from the barrel shifter.
  */
module Mig1Alu {
  import opened Isa
  import opened Adders
  import opened Shifter
  import opened Arith

  // ---------- Alu1 ----------

  datatype Command =
    | Transfer | Inc | AddC | AddPlus1 | SubMinus1 | Sub | Dec | Transfer2 | And | Or | Xor | Not

  // The four bits of a command.
  function Code(c: Command): int {
    match c
    case Transfer => 0 case Inc => 1 case AddC => 2 case AddPlus1 => 3 case SubMinus1 => 4 case Sub => 5
    case Dec => 6 case Transfer2 => 7 case And => 8 case Or => 9 case Xor => 10 case Not => 11
  }

  predicate CodeBit(c: Command, k: nat) { Code(c) / Pow2(k) % 2 == 1 }

  // The operation selects: op0 and op1 for the second operand or the logic, op2 for the logic.
  predicate Op0(c: Command) { c.AddC? || c.AddPlus1? || c.Dec? || c.Transfer2? || c.Or? || c.Not? }
  predicate Op1(c: Command) { CodeBit(c, 2) || (CodeBit(c, 3) && CodeBit(c, 1)) }
  predicate Op2(c: Command) { CodeBit(c, 3) }

  function Map2(a: Bits, b: Bits, f: (bool, bool) -> bool): (r: Bits)
    requires |a| == |b|
    ensures |r| == |a|
    ensures forall k :: 0 <= k < |a| ==> r[k] == f(a[k], b[k])
  {
    seq(|a|, k requires 0 <= k < |a| => f(a[k], b[k]))
  }

  // The second operand of the adder: in2, its inverse, all ones or zero.
  function AdderIn2(c: Command, b: Bits): (r: Bits)
    ensures |r| == |b|
  {
    seq(|b|, k requires 0 <= k < |b| => (b[k] && Op0(c)) || (!b[k] && Op1(c)))
  }

  function Logic(c: Command, a: Bits, b: Bits): (r: Bits)
    requires |a| == |b|
    ensures |r| == |a|
  {
    if !Op1(c) && !Op0(c) then Map2(a, b, (x, y) => x && y)
    else if !Op1(c) then Map2(a, b, (x, y) => x || y)
    else if !Op0(c) then Map2(a, b, (x, y) => x != y)
    else Map2(a, b, (x, y) => !x)
  }

  function Alu1(c: Command, a: Bits, b: Bits): (r: Sum)
    requires |a| == |b|
    ensures |r.sum| == |a|
  {
    var s := RippleCarry(a, AdderIn2(c, b), CodeBit(c, 0));
    Sum(if Op2(c) then Logic(c, a, b) else s.sum, s.co)
  }

  lemma CodeBits(c: Command)
    ensures CodeBit(c, 0) <==> Code(c) % 2 == 1
    ensures CodeBit(c, 1) <==> Code(c) / 2 % 2 == 1
    ensures CodeBit(c, 2) <==> Code(c) / 4 % 2 == 1
    ensures CodeBit(c, 3) <==> Code(c) / 8 % 2 == 1
  {
    assert Pow2(0) == 1 && Pow2(1) == 2 && Pow2(2) == 4 && Pow2(3) == 8;
  }

  lemma Codes(c: Command)
    ensures CodeBit(c, 0) <==> c.Inc? || c.AddPlus1? || c.Sub? || c.Transfer2? || c.Or? || c.Not?
    ensures Op1(c) <==> c.SubMinus1? || c.Sub? || c.Dec? || c.Transfer2? || c.Xor? || c.Not?
    ensures Op2(c) <==> c.And? || c.Or? || c.Xor? || c.Not?
  {
    hide CodeBit;
    CodeBits(c);
  }

  function Same(n: nat, v: bool): (r: Bits)
    ensures |r| == n
  {
    seq(n, k => v)
  }

  function Inverse(b: Bits): (r: Bits)
    ensures |r| == |b|
  {
    seq(|b|, k requires 0 <= k < |b| => !b[k])
  }

  lemma {:induction false} NumSame(n: nat)
    ensures Num(Same(n, false)) == 0 && Num(Same(n, true)) == Pow2(n) - 1
    decreases n
  {
    if n > 0 {
      NumSame(n - 1);
      assert Same(n, false)[1..] == Same(n - 1, false) && Same(n, true)[1..] == Same(n - 1, true);
    }
  }

  lemma {:induction false} NumInverse(b: Bits)
    ensures Num(Inverse(b)) == Pow2(|b|) - 1 - Num(b)
    decreases |b|
  {
    if b != [] {
      NumInverse(b[1..]);
      assert Inverse(b)[1..] == Inverse(b[1..]);
    }
  }

  // What the adder adds to in1, with its carry in.
  function Addend(c: Command, v: int): int {
    match c
    case Transfer => 0 case Inc => 1 case AddC => v case AddPlus1 => v + 1 case SubMinus1 => -v - 1
    case Sub => -v case Dec => -1 case Transfer2 => 0 case _ => 0
  }

  lemma In2Cases(c: Command, b: Bits)
    requires !Op2(c)
    ensures AdderIn2(c, b) == if c.Transfer? || c.Inc? then Same(|b|, false)
                              else if c.AddC? || c.AddPlus1? then b
                              else if c.SubMinus1? || c.Sub? then Inverse(b)
                              else Same(|b|, true)
  {
    hide CodeBit;
    Codes(c);
    if c.Transfer? || c.Inc? {
      assert AdderIn2(c, b) == Same(|b|, false);
    } else if c.AddC? || c.AddPlus1? {
      assert AdderIn2(c, b) == b;
    } else if c.SubMinus1? || c.Sub? {
      assert AdderIn2(c, b) == Inverse(b);
    } else {
      assert AdderIn2(c, b) == Same(|b|, true);
    }
  }

  lemma AdderIn2Exact(c: Command, b: Bits)
    requires !Op2(c)
    ensures var x := Num(AdderIn2(c, b)) + Bit(CodeBit(c, 0));
            x == Addend(c, Num(b)) + (if c.SubMinus1? || c.Sub? || c.Dec? || c.Transfer2? then Pow2(|b|) else 0)
  {
    hide CodeBit, Num, Pow2, AdderIn2;
    Codes(c);
    NumSame(|b|);
    NumInverse(b);
    In2Cases(c, b);
  }

  /** The arithmetic commands of Alu1 are the listed sums, modulo the width. */
  lemma Alu1Adds(c: Command, a: Bits, b: Bits)
    requires |a| == |b| && !Op2(c)
    ensures Num(Alu1(c, a, b).sum) == (Num(a) + Addend(c, Num(b))) % Pow2(|a|)
  {
    hide CodeBit, Op2, AdderIn2, Num, Pow2, RippleCarry, Addend;
    SumIsRest(a, AdderIn2(c, b), CodeBit(c, 0));
    AdderIn2Exact(c, b);
    OneRound(Num(a) + Addend(c, Num(b)), Pow2(|a|));
  }

  /** The carry of a subtraction tells the unsigned order. */
  lemma Alu1Compares(a: Bits, b: Bits)
    requires |a| == |b|
    ensures Alu1(Sub, a, b).co <==> Num(a) >= Num(b)
  {
    hide CodeBit, Op2, AdderIn2, Num, Pow2, RippleCarry;
    Codes(Sub);
    SumIsRest(a, AdderIn2(Sub, b), CodeBit(Sub, 0));
    AdderIn2Exact(Sub, b);
  }

  /** The carry of every arithmetic command. */
  lemma Alu1Carries(c: Command, a: Bits, b: Bits)
    requires |a| == |b| && !Op2(c)
    ensures var x, y, n := Num(a), Num(b), Pow2(|a|);
            Alu1(c, a, b).co <==>
            match c
            case Transfer => false case Inc => x + 1 >= n case AddC => x + y >= n case AddPlus1 => x + y + 1 >= n
            case SubMinus1 => x > y case Sub => x >= y case Dec => x > 0 case _ => true
  {
    hide CodeBit, Op2, AdderIn2, Num, Pow2, RippleCarry;
    Codes(c);
    SumIsRest(a, AdderIn2(c, b), CodeBit(c, 0));
    AdderIn2Exact(c, b);
  }

  /** The logic commands work bit by bit. */
  lemma Alu1Logic(c: Command, a: Bits, b: Bits, k: nat)
    requires |a| == |b| && k < |a| && Op2(c)
    ensures Alu1(c, a, b).sum[k] == (match c case And => a[k] && b[k] case Or => a[k] || b[k]
                                             case Xor => a[k] != b[k] case _ => !a[k])
  {
    hide CodeBit, Op1, RippleCarry;
    Codes(c);
  }

  // ---------- Mig1Alu ----------

  // op: the instruction computes (OP, OP-IMM); else it adds. alt: SUB, SRA.
  datatype Ctrl = Ctrl(op: bool, funct3: Funct3, sub: bool, alt: bool)

  function CommandOf(d: Ctrl): Command {
    if !d.op then AddC
    else if d.funct3 == 0 then (if d.sub then Sub else AddC)
    else if d.funct3 == 2 || d.funct3 == 3 then Sub
    else if d.funct3 == 4 then Xor
    else if d.funct3 == 6 then Or
    else if d.funct3 == 7 then And
    else AddC
  }

  // A word of which only the lowest bit can be set.
  function Flag(n: nat, v: bool): (r: Bits)
    ensures |r| == n
  {
    seq(n, k => k == 0 && v)
  }

  // Words of 2^w bits; a shift takes the low w bits of b.
  predicate Words(w: nat, a: Bits, b: Bits) { |a| == |b| == Pow2(w) && w <= |b| }

  lemma WordSize(w: nat)
    ensures w < Pow2(w)
    ensures w > 0 ==> Pow2(w - 1) <= Pow2(w)
  {
    if w > 0 {
      WordSize(w - 1);
    }
  }

  function Result(w: nat, d: Ctrl, a: Bits, b: Bits): (r: Bits)
    requires Words(w, a, b)
    ensures |r| == |a|
  {
    WordSize(w);
    var aSign, bSign := a[|a| - 1], b[|b| - 1];
    var s := Alu1(CommandOf(d), a, b);
    var shifted := BarrelShifter(a, d.alt && aSign, b[..w], true, d.funct3 == 1);
    var ltU := !s.co;
    var ltS := if aSign != bSign then aSign else ltU;
    if !d.op then s.sum
    else if d.funct3 == 1 || d.funct3 == 5 then shifted
    else if d.funct3 == 2 then Flag(|a|, ltS)
    else if d.funct3 == 3 then Flag(|a|, ltU)
    else s.sum
  }

  lemma NumFlag(n: nat, v: bool)
    requires n > 0
    ensures Num(Flag(n, v)) == Bit(v)
  {
    NumSame(n - 1);
    assert Flag(n, v)[1..] == Same(n - 1, false);
  }

  lemma SignedOrder(a: Bits, b: Bits)
    requires |a| == |b| && a != []
    ensures var s, t := a[|a| - 1], b[|b| - 1];
            SignedNum(a) < SignedNum(b) <==> (if s != t then s else Num(a) < Num(b))
  {
    NumTop(a);
    NumTop(b);
  }

  /** Sums and differences. */
  lemma AluAdds(w: nat, d: Ctrl, a: Bits, b: Bits)
    requires Words(w, a, b) && (d.op ==> d.funct3 == 0)
    ensures Num(Result(w, d, a, b))
            == (if d.op && d.sub then Num(a) - Num(b) else Num(a) + Num(b)) % Pow2(|a|)
  {
    hide Alu1, Op2, Num, BarrelShifter;
    WordSize(w);
    Codes(CommandOf(d));
    Alu1Adds(CommandOf(d), a, b);
  }

  /** SLT and SLTU, from one subtraction, are the signed and the unsigned order. */
  lemma AluCompares(w: nat, d: Ctrl, a: Bits, b: Bits)
    requires Words(w, a, b) && d.op && (d.funct3 == 2 || d.funct3 == 3)
    ensures Num(Result(w, d, a, b))
            == Bit(if d.funct3 == 2 then SignedNum(a) < SignedNum(b) else Num(a) < Num(b))
  {
    hide Alu1, Num, BarrelShifter, SignedNum, Flag;
    WordSize(w);
    Alu1Compares(a, b);
    SignedOrder(a, b);
    NumFlag(|a|, !Alu1(Sub, a, b).co);
    NumFlag(|a|, SignedNum(a) < SignedNum(b));
  }

  /** SLL, SRL and SRA multiply and divide by a power of two. */
  lemma AluShifts(w: nat, d: Ctrl, a: Bits, b: Bits)
    requires Words(w, a, b) && d.op && (d.funct3 == 1 || d.funct3 == 5) && (d.funct3 == 1 ==> !d.alt)
    ensures var n := Num(b[..w]);
            var r := Result(w, d, a, b);
            && (d.funct3 == 1 ==> Num(r) == Num(a) * Pow2(n) % Pow2(|a|))
            && (d.funct3 == 5 ==> NumOrSigned(r, d.alt) == NumOrSigned(a, d.alt) / Pow2(n))
  {
    hide Alu1, Num, BarrelShifter, SignedNum, NumOrSigned, Pow2;
    WordSize(w);
    var n := Num(b[..w]);
    BarrelExact(a, d.alt && a[|a| - 1], b[..w]);
    if d.funct3 == 1 {
      LeftMultiplies(a, n);
    } else {
      RightDivides(a, n, d.alt);
    }
  }

  /** XOR, OR and AND work bit by bit. */
  lemma AluLogic(w: nat, d: Ctrl, a: Bits, b: Bits, k: nat)
    requires Words(w, a, b) && d.op && d.funct3 in {4, 6, 7} && k < |a|
    ensures Result(w, d, a, b)[k] == if d.funct3 == 4 then a[k] != b[k]
                                     else if d.funct3 == 6 then a[k] || b[k] else a[k] && b[k]
  {
    hide Alu1, BarrelShifter, Op2;
    Codes(CommandOf(d));
    Alu1Logic(CommandOf(d), a, b, k);
  }
}
