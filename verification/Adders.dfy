/** Words as bits, lowest bit first: the full adder of AND-OR-invert gates, the ripple-carry adder and
  * the equality check without carries, for every width.
  */
module Adders {
  import opened Isa
  import opened Arith

  type Bits = seq<bool>

  function Num(x: Bits): (n: int)
    ensures 0 <= n < Pow2(|x|)
  {
    if x == [] then 0 else Bit(x[0]) + 2 * Num(x[1..])
  }

  // The low n bits of a number.
  function BitsOf(n: nat, v: int): (x: Bits)
    ensures |x| == n
  {
    if n == 0 then [] else [v % 2 == 1] + BitsOf(n - 1, v / 2)
  }

  lemma {:induction false} NumOfBits(n: nat, v: int)
    ensures Num(BitsOf(n, v)) == v % Pow2(n)
    decreases n
  {
    if n > 0 {
      NumOfBits(n - 1, v / 2);
      HalfRest(v, Pow2(n - 1));
    }
  }

  lemma HalfRest(v: int, p: int)
    requires p > 0
    ensures v % (2 * p) == v % 2 + 2 * (v / 2 % p)
  {
    var q := v / 2 / p;
    assert v / 2 == q * p + v / 2 % p;
    assert v == 2 * (v / 2) + v % 2;
    assert v == q * (2 * p) + (v % 2 + 2 * (v / 2 % p)) by {
      assert 2 * (q * p) == q * (2 * p);
    }
    DivOf(v, 2 * p, q, v % 2 + 2 * (v / 2 % p));
  }

  // ---------- The full adder ----------

  predicate Aoi22(a: bool, b: bool, c: bool, d: bool) { !((a && b) || (c && d)) }

  datatype SumCarry = SumCarry(sum: bool, co: bool)

  function FullAdder(a: bool, b: bool, ci: bool): SumCarry {
    var coN := Aoi22(a || b, ci, a, b);
    var sumN := Aoi22(coN, a || b || ci, a, b && ci);
    SumCarry(!sumN, !coN)
  }

  lemma FullAdderAdds(a: bool, b: bool, ci: bool)
    ensures var r := FullAdder(a, b, ci); Bit(r.sum) + 2 * Bit(r.co) == Bit(a) + Bit(b) + Bit(ci)
  {
  }

  // ---------- The ripple-carry adder ----------

  datatype Sum = Sum(sum: Bits, co: bool)

  function RippleCarry(a: Bits, b: Bits, ci: bool): (r: Sum)
    requires |a| == |b|
    ensures |r.sum| == |a|
  {
    if a == [] then Sum([], ci)
    else
      var f := FullAdder(a[0], b[0], ci);
      var rest := RippleCarry(a[1..], b[1..], f.co);
      Sum([f.sum] + rest.sum, rest.co)
  }

  /** The chain of full adders adds, with its carry. */
  lemma {:induction false} RippleAdds(a: Bits, b: Bits, ci: bool)
    requires |a| == |b|
    ensures var r := RippleCarry(a, b, ci);
            Num(a) + Num(b) + Bit(ci) == Num(r.sum) + (if r.co then Pow2(|a|) else 0)
    decreases |a|
  {
    hide FullAdder;
    if a != [] {
      var f := FullAdder(a[0], b[0], ci);
      FullAdderAdds(a[0], b[0], ci);
      RippleAdds(a[1..], b[1..], f.co);
      assert RippleCarry(a, b, ci).sum[1..] == RippleCarry(a[1..], b[1..], f.co).sum;
    }
  }

  // The sum without its carry: the sum modulo the width.
  lemma SumIsRest(a: Bits, b: Bits, ci: bool)
    requires |a| == |b|
    ensures Num(RippleCarry(a, b, ci).sum) == (Num(a) + Num(b) + Bit(ci)) % Pow2(|a|)
    ensures RippleCarry(a, b, ci).co <==> Num(a) + Num(b) + Bit(ci) >= Pow2(|a|)
  {
    hide RippleCarry, Pow2, Num;
    var r := RippleCarry(a, b, ci);
    RippleAdds(a, b, ci);
    CarryOut(Num(a) + Num(b) + Bit(ci), Pow2(|a|), r.co, Num(r.sum));
  }

  // ---------- The check without carries ----------

  // Sum and carry of every place by itself; the carries move up one place.
  function Places(a: Bits, b: Bits, c: Bits): (r: seq<SumCarry>)
    requires |a| == |b| == |c|
    ensures |r| == |a|
  {
    seq(|a|, k requires 0 <= k < |a| => FullAdder(a[k], b[k], !c[k]))
  }

  // The carry that comes into a place.
  function CarryIn(r: seq<SumCarry>, carry: bool, k: nat): bool
    requires k < |r|
  {
    if k == 0 then carry else r[k - 1].co
  }

  // Every place differs from its carry.
  predicate Fits(r: seq<SumCarry>, carry: bool) {
    forall k :: 0 <= k < |r| ==> CarryIn(r, carry, k) != r[k].sum
  }

  predicate AddCmp(a: Bits, b: Bits, c: Bits)
    requires |a| == |b| == |c|
  {
    Fits(Places(a, b, c), false)
  }

  lemma FitsFromLowest(r: seq<SumCarry>, carry: bool)
    requires r != []
    ensures Fits(r, carry) <==> carry != r[0].sum && Fits(r[1..], r[0].co)
  {
    var rest := r[1..];
    if Fits(r, carry) {
      forall k | 0 <= k < |rest| ensures CarryIn(rest, r[0].co, k) != rest[k].sum {
        assert CarryIn(r, carry, k + 1) != r[k + 1].sum;
      }
    }
    if carry != r[0].sum && Fits(rest, r[0].co) {
      forall k | 0 <= k < |r| ensures CarryIn(r, carry, k) != r[k].sum {
        assert k > 0 ==> CarryIn(rest, r[0].co, k - 1) != rest[k - 1].sum;
      }
    }
  }

  // The lowest place fits exactly when the sum has its parity; its carry is then that of the difference.
  lemma LowestPlace(a: bool, b: bool, c: bool, carry: bool)
    ensures var f := FullAdder(a, b, !c);
            var d := Bit(a) + Bit(b) + Bit(carry) - Bit(c);
            (carry != f.sum <==> d % 2 == 0) && (d % 2 == 0 ==> d == 2 * Bit(f.co))
  {
  }

  lemma EvenPart(x: int, low: int, half: int, p: int)
    requires x == low + 2 * half && p > 0
    ensures x % (2 * p) == 0 <==> low % 2 == 0 && (low / 2 + half) % p == 0
  {
    if low % 2 == 0 {
      var y := low / 2 + half;
      assert x == 2 * y;
      HalfRest(x, p);
    } else if x % (2 * p) == 0 {
      HalfRest(x, p);
    }
  }

  lemma {:induction false} FitsAdds(a: Bits, b: Bits, c: Bits, carry: bool)
    requires |a| == |b| == |c|
    ensures Fits(Places(a, b, c), carry) <==> (Num(a) + Num(b) + Bit(carry) - Num(c)) % Pow2(|a|) == 0
    decreases |a|
  {
    hide Fits, FullAdder, Bit, Num, Pow2;
    var r := Places(a, b, c);
    if a == [] {
      NothingToFit(carry);
    } else {
      NumStep(a);
      NumStep(b);
      NumStep(c);
      var f := FullAdder(a[0], b[0], !c[0]);
      LowestPlace(a[0], b[0], c[0], carry);
      FitsFromLowest(r, carry);
      assert r[1..] == Places(a[1..], b[1..], c[1..]);
      FitsAdds(a[1..], b[1..], c[1..], f.co);
      EvenPart(Num(a) + Num(b) + Bit(carry) - Num(c), Bit(a[0]) + Bit(b[0]) + Bit(carry) - Bit(c[0]),
               Num(a[1..]) + Num(b[1..]) - Num(c[1..]), Pow2(|a| - 1));
    }
  }

  lemma NumStep(x: Bits)
    requires x != []
    ensures Num(x) == Bit(x[0]) + 2 * Num(x[1..]) && Pow2(|x|) == 2 * Pow2(|x| - 1)
  {
  }

  lemma NothingToFit(carry: bool)
    ensures Fits([], carry) && forall x: int :: x % Pow2(0) == 0
    ensures Num([]) == 0
  {
  }

  /** For every width the check without carries says whether a + b is c. */
  lemma AddCmpExact(a: Bits, b: Bits, c: Bits)
    requires |a| == |b| == |c|
    ensures AddCmp(a, b, c) <==> (Num(a) + Num(b)) % Pow2(|a|) == Num(c)
  {
    hide Fits, Places, Pow2, Num;
    FitsAdds(a, b, c, false);
    SameRest(Num(a) + Num(b), Num(c), Pow2(|a|));
  }
}
