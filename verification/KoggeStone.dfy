/** The parallel-prefix adder and the Alu1 built on it: for every width the same sums and carries as the
  * chain of full adders.
  */
module KoggeStone {
  import opened Isa
  import opened Arith
  import opened Adders
  import opened Mig1Alu

  predicate Maj3(a: bool, b: bool, c: bool) { (a && b) || (a && c) || (b && c) }

  // Generate and propagate of a span of bits, for every highest bit.
  datatype Level = Level(g: Bits, p: Bits)

  predicate Wide(v: Level, n: nat) { |v.g| == n && |v.p| == n }

  // Every bit alone; bit 0 includes the carry in.
  function Level0(a: Bits, b: Bits, ci: bool): (v: Level)
    requires |a| == |b|
    ensures Wide(v, |a|)
  {
    var n := |a|;
    Level(seq(n, i requires 0 <= i < n => if i == 0 then Maj3(a[0], b[0], ci) else a[i] && b[i]),
          seq(n, i requires 0 <= i < n => a[i] != b[i]))
  }

  // Every bit takes in the span d below it; the bits below d already reach bit 0.
  function Combine(v: Level, d: nat): (w: Level)
    requires |v.g| == |v.p|
    ensures Wide(w, |v.g|)
  {
    var n := |v.g|;
    Level(seq(n, i requires 0 <= i < n && |v.p| == n => if i >= d then v.g[i] || (v.p[i] && v.g[i - d]) else v.g[i]),
          seq(n, i requires 0 <= i < n && |v.p| == n => if i >= d then v.p[i] && v.p[i - d] else v.p[i]))
  }

  function After(a: Bits, b: Bits, ci: bool, l: nat): (v: Level)
    requires |a| == |b|
    ensures Wide(v, |a|)
  {
    if l == 0 then Level0(a, b, ci) else Combine(After(a, b, ci, l - 1), Pow2(l - 1))
  }

  // The levels of a width: its logarithm, rounded up.
  function Levels(n: nat): (l: nat)
    ensures n <= Pow2(l) && (n > 1 ==> l > 0 && Pow2(l - 1) < n)
  {
    if n <= 1 then 0 else 1 + Levels((n + 1) / 2)
  }

  function Adder(a: Bits, b: Bits, ci: bool): (r: Sum)
    requires |a| == |b| > 0
    ensures |r.sum| == |a|
  {
    var n := |a|;
    var first, last := Level0(a, b, ci), After(a, b, ci, Levels(n));
    Sum(seq(n, i requires 0 <= i < n && Wide(first, n) && Wide(last, n) =>
            first.p[i] != (if i == 0 then ci else last.g[i - 1])),
        last.g[n - 1])
  }

  // ---------- Spans ----------

  // Does the span of bits i down to j of a level generate a carry, does it pass one on.
  predicate Generates(v: Level, i: nat, j: nat)
    requires Wide(v, |v.g|) && j <= i < |v.g|
    decreases i
  {
    v.g[i] || (j < i && v.p[i] && Generates(v, i - 1, j))
  }

  predicate Propagates(v: Level, i: nat, j: nat)
    requires Wide(v, |v.g|) && j <= i < |v.g|
    decreases i
  {
    v.p[i] && (j < i ==> Propagates(v, i - 1, j))
  }

  // A span is its upper part over its lower part.
  lemma {:induction false} Split(v: Level, i: nat, m: nat, j: nat)
    requires Wide(v, |v.g|) && j < m <= i < |v.g|
    ensures Generates(v, i, j) <==> Generates(v, i, m) || (Propagates(v, i, m) && Generates(v, m - 1, j))
    ensures Propagates(v, i, j) <==> Propagates(v, i, m) && Propagates(v, m - 1, j)
    decreases i
  {
    if m < i {
      Split(v, i - 1, m, j);
    }
  }

  // The lowest bit of the span that bit i has after l levels.
  function Low(i: nat, l: nat): nat { if i < Pow2(l) then 0 else i + 1 - Pow2(l) }

  lemma SpanAlone(a: Bits, b: Bits, ci: bool, i: nat)
    requires |a| == |b| && i < |a|
    ensures Low(i, 0) == i && After(a, b, ci, 0) == Level0(a, b, ci)
    ensures var v := Level0(a, b, ci);
            (v.g[i] <==> Generates(v, i, i)) && (v.p[i] <==> Propagates(v, i, i))
  {
    hide Level0;
  }

  // One level, at bit i.
  lemma LevelStep(a: Bits, b: Bits, ci: bool, l: nat, i: nat)
    requires |a| == |b| && i < |a| && l > 0
    ensures var d, was, w := Pow2(l - 1), After(a, b, ci, l - 1), After(a, b, ci, l);
            if i < d then w.g[i] == was.g[i] && w.p[i] == was.p[i]
            else w.g[i] == (was.g[i] || (was.p[i] && was.g[i - d])) && w.p[i] == (was.p[i] && was.p[i - d])
  {
    hide Level0, Pow2;
  }

  // The span of a level is the one of the level before over that of the bit Pow2(l - 1) below.
  lemma LowStep(i: nat, l: nat)
    requires l > 0
    ensures Low(i, l - 1) <= i && Low(i, l) <= i
    ensures i < Pow2(l - 1) ==> Low(i, l) == Low(i, l - 1) == 0
    ensures i >= Pow2(l - 1) ==> 0 < Low(i, l - 1) && Low(i, l - 1) - 1 == i - Pow2(l - 1)
    ensures i >= Pow2(l - 1) ==> Low(i - Pow2(l - 1), l - 1) == Low(i, l) < Low(i, l - 1)
  {
  }

  /** After l levels every bit has the span of its 2^l bits, or of all bits down to bit 0. */
  lemma {:induction false} SpanAt(a: Bits, b: Bits, ci: bool, l: nat, i: nat)
    requires |a| == |b| && i < |a|
    ensures Low(i, l) <= i
    ensures var v, w := Level0(a, b, ci), After(a, b, ci, l);
            && (w.g[i] <==> Generates(v, i, Low(i, l))) && (w.p[i] <==> Propagates(v, i, Low(i, l)))
    decreases l
  {
    hide Level0, After, Generates, Propagates, Low, Pow2;
    if l == 0 {
      SpanAlone(a, b, ci, i);
    } else {
      var d := Pow2(l - 1);
      LevelStep(a, b, ci, l, i);
      LowStep(i, l);
      SpanAt(a, b, ci, l - 1, i);
      if i >= d {
        SpanAt(a, b, ci, l - 1, i - d);
        Split(Level0(a, b, ci), i, Low(i, l - 1), Low(i, l));
      }
    }
  }

  // ---------- The carries of the chain ----------

  // The carry into bit k.
  predicate Carry(a: Bits, b: Bits, ci: bool, k: nat)
    requires |a| == |b| && k <= |a|
  {
    if k == 0 then ci else Maj3(a[k - 1], b[k - 1], Carry(a, b, ci, k - 1))
  }

  lemma {:induction false} CarryGenerated(a: Bits, b: Bits, ci: bool, i: nat)
    requires |a| == |b| && i < |a|
    ensures Generates(Level0(a, b, ci), i, 0) <==> Carry(a, b, ci, i + 1)
    decreases i
  {
    if i > 0 {
      CarryGenerated(a, b, ci, i - 1);
    }
  }

  lemma {:induction false} CarryAbove(a: Bits, b: Bits, ci: bool, k: nat)
    requires |a| == |b| && 0 < k <= |a|
    ensures Carry(a, b, ci, k) == Carry(a[1..], b[1..], Maj3(a[0], b[0], ci), k - 1)
    decreases k
  {
    if k > 1 {
      CarryAbove(a, b, ci, k - 1);
    }
  }

  // The lowest full adder of the chain.
  lemma ChainStep(a: Bits, b: Bits, ci: bool)
    requires |a| == |b| > 0
    ensures var r, rest := RippleCarry(a, b, ci), RippleCarry(a[1..], b[1..], Maj3(a[0], b[0], ci));
            r.co == rest.co && r.sum == [(a[0] != b[0]) != ci] + rest.sum
  {
    assert FullAdder(a[0], b[0], ci) == SumCarry((a[0] != b[0]) != ci, Maj3(a[0], b[0], ci));
  }

  lemma {:induction false} ChainCarry(a: Bits, b: Bits, ci: bool)
    requires |a| == |b|
    ensures RippleCarry(a, b, ci).co == Carry(a, b, ci, |a|)
    decreases |a|
  {
    hide Maj3;
    if a != [] {
      ChainStep(a, b, ci);
      ChainCarry(a[1..], b[1..], Maj3(a[0], b[0], ci));
      CarryAbove(a, b, ci, |a|);
    }
  }

  lemma {:induction false} ChainSum(a: Bits, b: Bits, ci: bool, i: nat)
    requires |a| == |b| && i < |a|
    ensures RippleCarry(a, b, ci).sum[i] == ((a[i] != b[i]) != Carry(a, b, ci, i))
    decreases i
  {
    hide Maj3, RippleCarry;
    ChainStep(a, b, ci);
    if i > 0 {
      ChainSum(a[1..], b[1..], Maj3(a[0], b[0], ci), i - 1);
      CarryAbove(a, b, ci, i);
    }
  }

  /** The parallel-prefix adder has the sum and the carry of the chain of full adders. */
  lemma AdderIsChain(a: Bits, b: Bits, ci: bool)
    requires |a| == |b| > 0
    ensures Adder(a, b, ci) == RippleCarry(a, b, ci)
  {
    hide RippleCarry, After, Carry, Generates, Propagates;
    var n := |a|;
    var r, want := Adder(a, b, ci), RippleCarry(a, b, ci);
    ChainCarry(a, b, ci);
    forall i | 0 <= i < n
      ensures After(a, b, ci, Levels(n)).g[i] == Carry(a, b, ci, i + 1)
    {
      SpanAt(a, b, ci, Levels(n), i);
      CarryGenerated(a, b, ci, i);
    }
    assert Carry(a, b, ci, 0) == ci by { CarryIntoFirst(a, b, ci); }
    forall i | 0 <= i < n
      ensures r.sum[i] == want.sum[i]
    {
      ChainSum(a, b, ci, i);
    }
  }

  lemma CarryIntoFirst(a: Bits, b: Bits, ci: bool)
    requires |a| == |b|
    ensures Carry(a, b, ci, 0) == ci
  {
  }

  /** For every width in1 + in2 + ci is the sum of the parallel-prefix adder plus its carry at its weight. */
  lemma AdderAdds(a: Bits, b: Bits, ci: bool)
    requires |a| == |b| > 0
    ensures var r := Adder(a, b, ci);
            Num(a) + Num(b) + Bit(ci) == Num(r.sum) + (if r.co then Pow2(|a|) else 0)
  {
    hide Adder, RippleCarry, Num, Pow2;
    AdderIsChain(a, b, ci);
    RippleAdds(a, b, ci);
  }

  // ---------- Alu1 without decoding ----------

  function Mux4(in0: Bits, in1: Bits, in2: Bits, in3: Bits, s1: bool, s0: bool): (r: Bits)
    requires |in0| == |in1| == |in2| == |in3|
    ensures |r| == |in0|
  {
    if s1 then (if s0 then in3 else in2) else if s0 then in1 else in0
  }

  // The bits of the command choose the second operand, the carry in and the logic as they are.
  function Alu1(c: Command, a: Bits, b: Bits): (r: Sum)
    requires |a| == |b| > 0
  {
    var s2, s1, s0 := CodeBit(c, 2), CodeBit(c, 1), CodeBit(c, 0);
    var in2 := Mux4(Same(|b|, false), b, Inverse(b), Same(|b|, true), s2, s1);
    var sum := Adder(a, in2, s0);
    var logic := Mux4(Map2(a, b, (x, y) => x && y), Map2(a, b, (x, y) => x || y), Map2(a, b, (x, y) => x != y),
                      Inverse(a), s1, s0);
    Sum(if CodeBit(c, 3) then logic else sum.sum, sum.co && !CodeBit(c, 3))
  }

  // The commands of sums choose the second operand of the adder with two of their bits.
  lemma SameIn2(c: Command, b: Bits)
    requires !Op2(c)
    ensures AdderIn2(c, b)
            == Mux4(Same(|b|, false), b, Inverse(b), Same(|b|, true), CodeBit(c, 2), CodeBit(c, 1))
  {
    hide CodeBit, AdderIn2, Same, Inverse;
    CodeBits(c);
    Codes(c);
    In2Cases(c, b);
  }

  /** Both Alu1 give the same result for every command, and the same carry for the arithmetic ones; the logic
    * commands have none here.
    */
  lemma Alu1Same(c: Command, a: Bits, b: Bits)
    requires |a| == |b| > 0
    ensures Alu1(c, a, b).sum == Mig1Alu.Alu1(c, a, b).sum
    ensures if Op2(c) then !Alu1(c, a, b).co else Alu1(c, a, b).co == Mig1Alu.Alu1(c, a, b).co
  {
    hide RippleCarry, Adder, CodeBit, AdderIn2;
    CodeBits(c);
    if !Op2(c) {
      SameIn2(c, b);
      AdderIsChain(a, AdderIn2(c, b), CodeBit(c, 0));
    } else {
      forall k | 0 <= k < |a|
        ensures Alu1(c, a, b).sum[k] == Mig1Alu.Alu1(c, a, b).sum[k]
      {
        Alu1Logic(c, a, b, k);
      }
    }
  }
}
