/** The barrel shifter: stages that shift left by powers of two, with the bits reversed on the way in
  * and out to shift right; for every width.
  */
module Shifter {
  import opened Isa
  import opened Adders
  import opened Arith

  // ---------- The shifter ----------

  function Reverse(x: Bits): (r: Bits)
    ensures |r| == |x|
  {
    seq(|x|, k requires 0 <= k < |x| => x[|x| - 1 - k])
  }

  // A stage moves its input up by m places; the places below get the fill bit, or what went out.
  function Stage(x: Bits, m: nat, fill: bool, shift: bool): (r: Bits)
    requires m <= |x|
    ensures |r| == |x|
  {
    (if shift then seq(m, k => fill) else x[|x| - m..]) + x[..|x| - m]
  }

  // The stages of the bits of the amount, from the highest to the lowest.
  function Stages(x: Bits, amount: Bits, fill: bool, shift: bool): (r: Bits)
    requires amount != [] ==> Pow2(|amount| - 1) <= |x|
    ensures |r| == |x|
    decreases |amount|
  {
    if amount == [] then x
    else
      var n := |amount| - 1;
      Halves(n);
      Stages(if amount[n] then Stage(x, Pow2(n), fill, shift) else x, amount[..n], fill, shift)
  }

  lemma Halves(n: nat)
    ensures n > 0 ==> Pow2(n - 1) <= Pow2(n)
  {
  }

  function BarrelShifter(x: Bits, fill: bool, amount: Bits, shift: bool, left: bool): (r: Bits)
    requires amount != [] ==> Pow2(|amount| - 1) <= |x|
    ensures |r| == |x|
  {
    if left then Stages(x, amount, fill, shift) else Reverse(Stages(Reverse(x), amount, fill, shift))
  }

  // ---------- Shifts and rotations by the whole amount ----------

  function ShiftLeft(x: Bits, n: nat, fill: bool): (r: Bits)
    ensures |r| == |x|
  {
    seq(|x|, k requires 0 <= k < |x| => if k < n then fill else x[k - n])
  }

  function ShiftRight(x: Bits, n: nat, fill: bool): (r: Bits)
    ensures |r| == |x|
  {
    seq(|x|, k requires 0 <= k < |x| => if k + n >= |x| then fill else x[k + n])
  }

  // The place k around a ring of w.
  function Ring(k: int, w: int): (r: int)
    requires w > 0
    ensures 0 <= r < w
  {
    k % w
  }

  function RotateLeft(x: Bits, n: nat): (r: Bits)
    ensures |r| == |x|
  {
    seq(|x|, k requires 0 <= k < |x| => x[Ring(k - n, |x|)])
  }

  function RotateRight(x: Bits, n: nat): (r: Bits)
    ensures |r| == |x|
  {
    seq(|x|, k requires 0 <= k < |x| => x[Ring(k + n, |x|)])
  }

  function Moved(x: Bits, n: nat, fill: bool, shift: bool): (r: Bits)
    ensures |r| == |x|
  {
    if shift then ShiftLeft(x, n, fill) else RotateLeft(x, n)
  }

  lemma StageMoves(x: Bits, m: nat, fill: bool, shift: bool)
    requires m <= |x|
    ensures Stage(x, m, fill, shift) == Moved(x, m, fill, shift)
  {
    hide Ring;
    if !shift {
      forall k | 0 <= k < |x| ensures Stage(x, m, fill, shift)[k] == x[Ring(k - m, |x|)] {
        Around(k - m, |x|);
      }
    }
  }

  lemma Around(k: int, w: int)
    requires -w <= k < w && w > 0
    ensures Ring(k, w) == if k < 0 then k + w else k
  {
    DivOf(k, w, if k < 0 then -1 else 0, if k < 0 then k + w else k);
  }

  lemma RingTwice(k: int, a: int, w: int)
    requires w > 0
    ensures Ring(Ring(k, w) - a, w) == Ring(k - a, w)
  {
    RestOfRest(k, a, w);
  }

  lemma ShiftsAdd(x: Bits, b: nat, a: nat, fill: bool)
    ensures ShiftLeft(ShiftLeft(x, b, fill), a, fill) == ShiftLeft(x, a + b, fill)
  {
  }

  lemma RotatesAdd(x: Bits, b: nat, a: nat)
    ensures RotateLeft(RotateLeft(x, b), a) == RotateLeft(x, a + b)
  {
    hide Ring;
    forall k | 0 <= k < |x| ensures RotateLeft(RotateLeft(x, b), a)[k] == RotateLeft(x, a + b)[k] {
      RingTwice(k - a, b, |x|);
    }
  }

  // Moving by b and then by a is moving by both.
  lemma MovesAdd(x: Bits, b: nat, a: nat, fill: bool, shift: bool)
    ensures Moved(Moved(x, b, fill, shift), a, fill, shift) == Moved(x, a + b, fill, shift)
  {
    hide ShiftLeft, RotateLeft;
    ShiftsAdd(x, b, a, fill);
    RotatesAdd(x, b, a);
  }

  lemma MovesNothing(x: Bits, fill: bool, shift: bool)
    ensures Moved(x, 0, fill, shift) == x
  {
    hide Ring;
    if !shift {
      forall k | 0 <= k < |x| ensures RotateLeft(x, 0)[k] == x[k] {
        Around(k, |x|);
      }
    }
  }

  lemma {:induction false} NumTop(x: Bits)
    requires x != []
    ensures Num(x) == Num(x[..|x| - 1]) + (if x[|x| - 1] then Pow2(|x| - 1) else 0)
    decreases |x|
  {
    if |x| > 1 {
      NumTop(x[1..]);
      assert x[1..][..|x| - 2] == x[..|x| - 1][1..];
    }
  }

  lemma {:induction false} StagesMove(x: Bits, amount: Bits, fill: bool, shift: bool)
    requires amount != [] ==> Pow2(|amount| - 1) <= |x|
    ensures Stages(x, amount, fill, shift) == Moved(x, Num(amount), fill, shift)
    decreases |amount|
  {
    hide Moved, Stage;
    if amount == [] {
      MovesNothing(x, fill, shift);
    } else {
      var n := |amount| - 1;
      NumTop(amount);
      if amount[n] {
        StageMoves(x, Pow2(n), fill, shift);
        Halves(n);
        StagesMove(Stage(x, Pow2(n), fill, shift), amount[..n], fill, shift);
        MovesAdd(x, Pow2(n), Num(amount[..n]), fill, shift);
      } else {
        Halves(n);
        StagesMove(x, amount[..n], fill, shift);
      }
    }
  }

  lemma ReversedShift(x: Bits, n: nat, fill: bool)
    ensures Reverse(ShiftLeft(Reverse(x), n, fill)) == ShiftRight(x, n, fill)
  {
  }

  lemma ReversedRotate(x: Bits, n: nat)
    ensures Reverse(RotateLeft(Reverse(x), n)) == RotateRight(x, n)
  {
    hide Ring;
    forall k | 0 <= k < |x| ensures Reverse(RotateLeft(Reverse(x), n))[k] == RotateRight(x, n)[k] {
      Mirror(k, n, |x|);
    }
  }

  lemma Mirror(k: int, n: int, w: int)
    requires w > 0
    ensures Ring(k + n, w) == w - 1 - Ring(w - 1 - k - n, w)
  {
    MirrorRest(k + n, w);
  }

  /** The staged, reversing shifter shifts or rotates by the whole amount, in both directions. */
  lemma BarrelExact(x: Bits, fill: bool, amount: Bits)
    requires amount != [] ==> Pow2(|amount| - 1) <= |x|
    ensures var n := Num(amount);
            && BarrelShifter(x, fill, amount, true, true) == ShiftLeft(x, n, fill)
            && BarrelShifter(x, fill, amount, true, false) == ShiftRight(x, n, fill)
            && BarrelShifter(x, fill, amount, false, true) == RotateLeft(x, n)
            && BarrelShifter(x, fill, amount, false, false) == RotateRight(x, n)
  {
    hide Stages, ShiftLeft, RotateLeft, ShiftRight, RotateRight, Num;
    StagesMove(x, amount, fill, true);
    StagesMove(x, amount, fill, false);
    StagesMove(Reverse(x), amount, fill, true);
    StagesMove(Reverse(x), amount, fill, false);
    ReversedShift(x, Num(amount), fill);
    ReversedRotate(x, Num(amount));
  }

  // ---------- Shifts of numbers ----------

  // Two's complement.
  function SignedNum(x: Bits): int
    requires x != []
  {
    Num(x) - (if x[|x| - 1] then Pow2(|x|) else 0)
  }

  function NumOrSigned(x: Bits, signed: bool): int
    requires x != []
  {
    if signed then SignedNum(x) else Num(x)
  }

  // A shift by one place more.
  lemma ShiftOneMore(x: Bits, n: nat, fill: bool)
    ensures ShiftRight(x, n + 1, fill) == ShiftRight(ShiftRight(x, n, fill), 1, fill)
    ensures ShiftLeft(x, n + 1, fill) == ShiftLeft(ShiftLeft(x, n, fill), 1, fill)
  {
  }

  lemma RightOne(x: Bits, signed: bool)
    requires x != []
    ensures var y := ShiftRight(x, 1, signed && x[|x| - 1]);
            NumOrSigned(y, signed) == NumOrSigned(x, signed) / 2
            && (signed ==> y[|x| - 1] == x[|x| - 1])
  {
    var fill := signed && x[|x| - 1];
    var y := ShiftRight(x, 1, fill);
    assert y[..|x| - 1] == x[1..];
    NumTop(y);
  }

  /** A shift right divides, rounding down: unsigned with zeros, signed with copies of the sign. */
  lemma {:induction false} RightDivides(x: Bits, n: nat, signed: bool)
    requires x != []
    ensures var y := ShiftRight(x, n, signed && x[|x| - 1]);
            && NumOrSigned(y, signed) == NumOrSigned(x, signed) / Pow2(n)
            && (signed ==> y[|x| - 1] == x[|x| - 1])
    decreases n
  {
    var fill := signed && x[|x| - 1];
    if n == 0 {
      assert ShiftRight(x, 0, fill) == x;
    } else {
      var z := ShiftRight(x, n - 1, fill);
      RightDivides(x, n - 1, signed);
      ShiftOneMore(x, n - 1, fill);
      RightOne(z, signed);
      DivTwice(NumOrSigned(x, signed), Pow2(n - 1));
    }
  }

  lemma LeftOneBits(x: Bits)
    requires x != []
    ensures ShiftLeft(x, 1, false)[1..] == x[..|x| - 1] && !ShiftLeft(x, 1, false)[0]
  {
  }

  lemma LeftOneNum(x: Bits)
    requires x != []
    ensures 2 * Num(x) == Num(ShiftLeft(x, 1, false)) + (if x[|x| - 1] then Pow2(|x|) else 0)
  {
    hide ShiftLeft;
    LeftOneBits(x);
    NumTop(x);
  }

  lemma LeftOne(x: Bits)
    requires x != []
    ensures Num(ShiftLeft(x, 1, false)) == 2 * Num(x) % Pow2(|x|)
  {
    hide Num, Pow2, ShiftLeft;
    LeftOneNum(x);
    CarryOut(2 * Num(x), Pow2(|x|), x[|x| - 1], Num(ShiftLeft(x, 1, false)));
  }

  /** A shift left multiplies, modulo the width. */
  lemma {:induction false} LeftMultiplies(x: Bits, n: nat)
    requires x != []
    ensures Num(ShiftLeft(x, n, false)) == Num(x) * Pow2(n) % Pow2(|x|)
    decreases n
  {
    if n == 0 {
      assert ShiftLeft(x, 0, false) == x;
      DivOf(Num(x), Pow2(|x|), 0, Num(x));
    } else {
      LeftMultiplies(x, n - 1);
      ShiftOneMore(x, n - 1, false);
      LeftOne(ShiftLeft(x, n - 1, false));
      RestTwice(Num(x), Pow2(n - 1), Pow2(|x|));
    }
  }
}
