/** The restoring divider of one bit per clock, for every width, with and without early start, and
  * Int32Div on top of it: signs, division by zero and overflow.
  *
  * q holds the dividend bits still to come, at its top, and the quotient bits, at its bottom. A
  * step shifts the top bit of q into the partial remainder r and a quotient bit into q. With early
  * start a division takes one step per significant bit of the dividend.
  */
module Divider {
  import opened Isa
  import opened Arith

  datatype Regs = Regs(r: int, q: int)

  function Step(w: nat, d: nat, s: Regs): Regs
    requires w > 0
  {
    var r := 2 * s.r + s.q / Pow2(w - 1);
    var q := 2 * s.q % Pow2(w);
    if r >= d then Regs(r - d, q + 1) else Regs(r, q)
  }

  function Steps(w: nat, d: nat, s: Regs, n: nat): Regs
    requires w > 0
    decreases n
  {
    if n == 0 then s else Steps(w, d, Step(w, d, s), n - 1)
  }

  function SignificantBits(x: nat): (n: nat)
    ensures x < Pow2(n)
    ensures n > 0 ==> Pow2(n - 1) <= x
  {
    if x == 0 then 0 else 1 + SignificantBits(x / 2)
  }

  function StepsOf(early: bool, w: nat, dividend: nat, d: nat): nat {
    if !early || d == 0 then w else if dividend == 0 then 1 else SignificantBits(dividend)
  }

  // q at the start: the dividend without its leading zeros.
  function StartRegs(w: nat, dividend: nat, n: nat): Regs
    requires n <= w
  {
    Regs(0, dividend * Pow2(w - n))
  }

  // The registers when the dividend bits from p up went in: their remainder, and their quotient
  // below the bits that wait, m places up.
  function Halfway(dividend: int, d: int, p: int, m: int): Regs
    requires d > 0 && p > 0
  {
    Regs(dividend / p % d, dividend % p * m + dividend / p / d)
  }

  /** left steps before the end, the quotient and the remainder of the dividend's top bits are
    * there, and its lower bits wait at the top of q.
    */
  predicate Running(w: nat, dividend: nat, d: nat, left: nat, s: Regs) {
    && d > 0 && left <= w
    && dividend / Pow2(left) < Pow2(w - left)
    && s == Halfway(dividend, d, Pow2(left), Pow2(w - left))
  }

  lemma PowSum(m: nat, n: nat)
    ensures Pow2(m + n) == Pow2(m) * Pow2(n)
  {
    if m > 0 {
      PowSum(m - 1, n);
    }
  }

  lemma BitsFit(x: nat, w: nat)
    requires x < Pow2(w)
    ensures SignificantBits(x) <= w
  {
    if x > 0 {
      BitsFit(x / 2, w - 1);
    }
  }

  // One more bit of a number: x / 2p and the bit below it give x / p.
  lemma NextBit(x: int, p: int) returns (b: int)
    requires 0 <= x && p > 0
    ensures b == 0 || b == 1
    ensures x / p == 2 * (x / (2 * p)) + b
    ensures x % (2 * p) == b * p + x % p
    ensures 0 <= x / (2 * p)
  {
    var h, l := x / p, x % p;
    b := h % 2;
    assert x == h * p + l;
    Distribute(h / 2, 2, b, p);
    MulMonotone(b, 1, p);
    DivOf(x, 2 * p, h / 2, b * p + l);
    if h < 0 {
      MulMonotone(h, -1, p);
    }
  }

  // Doubling a dividend and adding a bit: the quotient gets one more bit.
  lemma LongDivision(x: int, b: int, d: int)
    requires d > 0 && 0 <= b <= 1
    ensures var r := 2 * (x % d) + b;
            if r >= d then (2 * x + b) / d == 2 * (x / d) + 1 && (2 * x + b) % d == r - d
            else (2 * x + b) / d == 2 * (x / d) && (2 * x + b) % d == r
  {
    var q, r := x / d, 2 * (x % d) + b;
    assert x == q * d + x % d;
    assert 2 * x + b == (2 * q) * d + r;
    if r >= d {
      assert 2 * x + b == (2 * q + 1) * d + (r - d);
      DivOf(2 * x + b, d, 2 * q + 1, r - d);
    } else {
      DivOf(2 * x + b, d, 2 * q, r);
    }
  }

  // The top bit of q is the next dividend bit, and doubling q drops it.
  lemma ShiftOut(full: int, b: int, low: int, part: int, p: int, m: int)
    requires 0 <= b <= 1 && 0 <= low < p && 0 <= part < m && full == b * p + low
    ensures var q := full * m + part;
            && p * m > 0
            && q / (p * m) == b
            && 2 * q % (2 * (p * m)) == low * (2 * m) + 2 * part
  {
    Distribute(b, p, low, m);
    MulMonotone(low + 1, p, m);
    MulMonotone(0, low, m);
    TopBit(b, low * m + part, p * m);
    assert (low + 1) * m == low * m + m;
  }

  lemma TopBit(b: int, rest: int, n: int)
    requires 0 <= b <= 1 && 0 <= rest < n
    ensures (b * n + rest) / n == b && 2 * (b * n + rest) % (2 * n) == 2 * rest
  {
    DivOf(b * n + rest, n, b, rest);
    assert 2 * (b * n + rest) == b * (2 * n) + 2 * rest;
    DivOf(2 * (b * n + rest), 2 * n, b, 2 * rest);
  }

  // A step takes one more dividend bit, when 2pm is 2^w.
  lemma StepHalfway(w: nat, dividend: int, d: int, p: int, m: int)
    requires w > 0 && d > 0 && 0 <= dividend && p > 0 && m > 0 && p * m == Pow2(w - 1)
    requires dividend / (2 * p) < m
    ensures Step(w, d, Halfway(dividend, d, 2 * p, m)) == Halfway(dividend, d, p, 2 * m)
    ensures dividend / p < 2 * m
  {
    var b := NextBit(dividend, p);
    var x := dividend / (2 * p);
    QuotientSmaller(x, d);
    ShiftOut(dividend % (2 * p), b, dividend % p, x / d, p, m);
    LongDivision(x, b, d);
    StepValue(w, d, Halfway(dividend, d, 2 * p, m), b, dividend % p * (2 * m) + 2 * (x / d), x % d, p * m);
  }

  lemma StepValue(w: nat, d: nat, s: Regs, b: int, q: int, r: int, top: int)
    requires w > 0 && top > 0 && top == Pow2(w - 1) && s.q / top == b && 2 * s.q % (2 * top) == q && s.r == r
    ensures Step(w, d, s) == if 2 * r + b >= d then Regs(2 * r + b - d, q + 1) else Regs(2 * r + b, q)
  {
  }

  lemma Powers(w: nat, left: nat)
    requires 0 < left <= w
    ensures Pow2(left - 1) * Pow2(w - left) == Pow2(w - 1)
    ensures Pow2(w - (left - 1)) == 2 * Pow2(w - left)
  {
    PowSum(left - 1, w - left);
    assert left - 1 + (w - left) == w - 1;
  }

  lemma StepRuns(w: nat, dividend: nat, d: nat, left: nat, s: Regs)
    requires w > 0 && left > 0 && Running(w, dividend, d, left, s)
    ensures Running(w, dividend, d, left - 1, Step(w, d, s))
  {
    Powers(w, left);
    StepHalfway(w, dividend, d, Pow2(left - 1), Pow2(w - left));
  }

  lemma StartRuns(w: nat, dividend: nat, d: nat, n: nat)
    requires d > 0 && n <= w && dividend < Pow2(n)
    ensures Running(w, dividend, d, n, StartRegs(w, dividend, n))
  {
    DivOf(dividend, Pow2(n), 0, dividend);
    DivOf(0, d, 0, 0);
  }

  lemma {:induction false} StepsDivide(w: nat, dividend: nat, d: nat, left: nat, s: Regs)
    requires w > 0 && Running(w, dividend, d, left, s)
    ensures Steps(w, d, s, left) == Regs(dividend % d, dividend / d)
    decreases left
  {
    if left > 0 {
      StepRuns(w, dividend, d, left, s);
      StepsDivide(w, dividend, d, left - 1, Step(w, d, s));
    } else {
      DivOf(dividend, 1, dividend, 0);
    }
  }

  lemma EnoughSteps(early: bool, w: nat, dividend: nat, d: nat)
    requires w > 0 && dividend < Pow2(w)
    ensures 1 <= StepsOf(early, w, dividend, d) <= w
    ensures dividend < Pow2(StepsOf(early, w, dividend, d))
  {
    BitsFit(dividend, w);
  }

  /** For every width, dividend and divisor other than 0, starting at the dividend's top set bit
    * gives the quotient and the remainder, as all w steps do.
    */
  lemma EarlyStartSame(w: nat, dividend: nat, d: nat)
    requires w > 0 && d > 0 && dividend < Pow2(w)
    ensures forall early :: var n := StepsOf(early, w, dividend, d);
              n <= w && Steps(w, d, StartRegs(w, dividend, n), n) == Regs(dividend % d, dividend / d)
  {
    forall early
      ensures var n := StepsOf(early, w, dividend, d);
              n <= w && Steps(w, d, StartRegs(w, dividend, n), n) == Regs(dividend % d, dividend / d)
    {
      var n := StepsOf(early, w, dividend, d);
      EnoughSteps(early, w, dividend, d);
      StartRuns(w, dividend, d, n);
      StepsDivide(w, dividend, d, n, StartRegs(w, dividend, n));
    }
  }

  // ---------- Int32Div ----------

  /** The signed or unsigned divider of a word: while busy, left steps are to come; its operands
    * stay for the signs of the results.
    */
  datatype Int32Div = Int32Div(busy: bool, left: nat, regs: Regs, dividend: Word, divisor: Word,
                               signed: bool)

  const IDLE := Int32Div(false, 0, Regs(0, 0), 0, 1, false)

  function Magnitude(signed: bool, x: Word): nat {
    if signed && x >= 0x8000_0000 then 0x1_0000_0000 - x else x
  }

  function Start(early: bool, a: Word, b: Word, signed: bool): (dv: Int32Div)
    ensures DivInv(dv) && dv.busy
  {
    var n := StepsOf(early, 32, Magnitude(signed, a), Magnitude(signed, b));
    MagnitudeFits(signed, a);
    EnoughSteps(early, 32, Magnitude(signed, a), Magnitude(signed, b));
    StartIsRunning(early, a, b, signed);
    Int32Div(true, n, StartRegs(32, Magnitude(signed, a), n), a, b, signed)
  }

  // The divider after a clock; start is ignored while it is busy.
  function Tick(dv: Int32Div, early: bool, start: bool, a: Word, b: Word, signed: bool): (r: Int32Div)
    requires DivInv(dv)
    ensures DivInv(r)
  {
    if dv.busy then
      TickIsRunning(dv);
      dv.(busy := dv.left > 1, left := dv.left - 1,
          regs := Step(32, Magnitude(dv.signed, dv.divisor), dv.regs))
    else if start then Start(early, a, b, signed)
    else dv
  }

  // The last step of a division; the results are there after it.
  predicate Done(dv: Int32Div) { dv.busy && dv.left == 1 }

  predicate DivInv(dv: Int32Div) {
    && dv.left <= 32
    && (dv.busy <==> dv.left > 0)
    && (dv.divisor != 0 ==>
          Running(32, Magnitude(dv.signed, dv.dividend), Magnitude(dv.signed, dv.divisor), dv.left, dv.regs))
  }

  function QuotientOut(dv: Int32Div): Word {
    if dv.signed && (dv.dividend >= 0x8000_0000) != (dv.divisor >= 0x8000_0000) then WordOf(-dv.regs.q)
    else WordOf(dv.regs.q)
  }

  function RemainderOut(dv: Int32Div): Word {
    if dv.signed && dv.dividend >= 0x8000_0000 then WordOf(-dv.regs.r) else WordOf(dv.regs.r)
  }

  // The result of an M divide: rs1 is the dividend.
  function Result(dv: Int32Div, rem: bool, rs1: Word): Word {
    if dv.divisor == 0 then (if rem then rs1 else 0xFFFF_FFFF)
    else if dv.signed && dv.dividend == 0x8000_0000 && dv.divisor == 0xFFFF_FFFF then
      (if rem then 0 else 0x8000_0000)
    else if rem then RemainderOut(dv) else QuotientOut(dv)
  }

  lemma Pow32()
    ensures Pow2(32) == 0x1_0000_0000
  {
    assert Pow2(8) == 0x100;
    PowSum(8, 8);
    PowSum(16, 16);
  }

  lemma MagnitudeFits(signed: bool, x: Word)
    ensures Magnitude(signed, x) < Pow2(32)
  {
    Pow32();
  }

  lemma StartIsRunning(early: bool, a: Word, b: Word, signed: bool)
    ensures var n := StepsOf(early, 32, Magnitude(signed, a), Magnitude(signed, b));
            n <= 32 && (b != 0 ==> Running(32, Magnitude(signed, a), Magnitude(signed, b), n,
                                           StartRegs(32, Magnitude(signed, a), n)))
  {
    MagnitudeFits(signed, a);
    EnoughSteps(early, 32, Magnitude(signed, a), Magnitude(signed, b));
    if b != 0 {
      StartRuns(32, Magnitude(signed, a), Magnitude(signed, b),
                StepsOf(early, 32, Magnitude(signed, a), Magnitude(signed, b)));
    }
  }

  lemma TickIsRunning(dv: Int32Div)
    requires DivInv(dv) && dv.busy
    ensures dv.divisor != 0 ==>
              Running(32, Magnitude(dv.signed, dv.dividend), Magnitude(dv.signed, dv.divisor), dv.left - 1,
                      Step(32, Magnitude(dv.signed, dv.divisor), dv.regs))
  {
    if dv.divisor != 0 {
      StepRuns(32, Magnitude(dv.signed, dv.dividend), Magnitude(dv.signed, dv.divisor), dv.left, dv.regs);
    }
  }

  // The quotient and remainder of section 7.2: a = b q + r, |r| < |b|, r has the sign of a.
  lemma Truncates(a: int, b: int)
    requires b != 0
    ensures a == b * Quotient(a, b) + Remainder(a, b)
    ensures Remainder(a, b) == if a < 0 then -(Abs(a) % Abs(b)) else Abs(a) % Abs(b)
    ensures Abs(Remainder(a, b)) < Abs(b)
    ensures Remainder(a, b) != 0 ==> (Remainder(a, b) < 0 <==> a < 0)
  {
    var q, r := Abs(a) / Abs(b), Abs(a) % Abs(b);
    assert Abs(a) == q * Abs(b) + r;
    Signs(b, q);
    assert q * Abs(b) == if b < 0 then -(q * b) else q * b;
  }

  lemma Signs(b: int, q: int)
    ensures b * q == q * b && b * -q == -(q * b) && q * -b == -(q * b)
  {
  }

  lemma SignedResult(a: Word, b: Word)
    requires b != 0
    ensures var q, r := Magnitude(true, a) / Magnitude(true, b), Magnitude(true, a) % Magnitude(true, b);
            && Quotient(Signed(a), Signed(b)) == (if (a >= 0x8000_0000) != (b >= 0x8000_0000) then -q else q)
            && Remainder(Signed(a), Signed(b)) == (if a >= 0x8000_0000 then -r else r)
  {
    assert Magnitude(true, a) == Abs(Signed(a)) && Magnitude(true, b) == Abs(Signed(b));
    Truncates(Signed(a), Signed(b));
  }

  lemma UnsignedResult(a: Word, b: Word)
    requires b != 0
    ensures WordOf(a / b) == a / b && WordOf(a % b) == a % b
  {
    QuotientSmaller(a, b);
  }

  // A division that is over has the quotient and the remainder of the magnitudes.
  lemma Finished(dv: Int32Div)
    requires DivInv(dv) && !dv.busy && dv.divisor != 0
    ensures var m, d := Magnitude(dv.signed, dv.dividend), Magnitude(dv.signed, dv.divisor);
            d > 0 && dv.regs == Regs(m % d, m / d)
  {
    StepsDivide(32, Magnitude(dv.signed, dv.dividend), Magnitude(dv.signed, dv.divisor), 0, dv.regs);
  }

  // The result of a division is the machine's, for all operands, divisor 0 and overflow included.
  lemma ResultExact(dv: Int32Div, f: Funct3)
    requires DivInv(dv) && !dv.busy && IsDivide(f) && dv.signed == (f == 4 || f == 6)
    ensures Result(dv, f >= 6, dv.dividend) == Divide(f, dv.dividend, dv.divisor)
  {
    hide Steps, Running, Step;
    var a, b := dv.dividend, dv.divisor;
    if b != 0 {
      Finished(dv);
      if dv.signed {
        SignedResult(a, b);
      } else {
        UnsignedResult(a, b);
      }
    }
  }

  // ---------- How long a division takes ----------

  // The bits of a number, at least one.
  function Length(m: nat): (n: nat)
    ensures n > 0
  {
    if m < 2 then 1 else 1 + Length(m / 2)
  }

  lemma {:induction false} LengthExact(m: nat, n: nat)
    requires Pow2(n) <= m < Pow2(n + 1)
    ensures Length(m) == n + 1
    decreases m
  {
    if n > 0 {
      LengthExact(m / 2, n - 1);
    }
  }

  lemma {:induction false} LengthBits(m: nat)
    ensures Length(m) == if m == 0 then 1 else SignificantBits(m)
    decreases m
  {
    if m >= 2 {
      LengthBits(m / 2);
    }
  }

  // The divider after n clocks without a start.
  function Ticks(dv: Int32Div, n: nat): (r: Int32Div)
    requires DivInv(dv)
    ensures DivInv(r)
  {
    if n == 0 then dv else Tick(Ticks(dv, n - 1), false, false, 0, 1, false)
  }

  lemma {:induction false} TicksLeft(dv: Int32Div, n: nat)
    requires DivInv(dv)
    ensures Ticks(dv, n).left == if n < dv.left then dv.left - n else 0
    decreases n
  {
    hide Running, Step;
    if n > 0 {
      TicksLeft(dv, n - 1);
    }
  }

  // Busy for exactly k clocks.
  ghost predicate BusyFor(dv: Int32Div, k: nat)
    requires DivInv(dv)
  {
    forall n: nat :: Ticks(dv, n).busy <==> n < k
  }

  lemma LeftIsBusy(dv: Int32Div)
    requires DivInv(dv)
    ensures BusyFor(dv, dv.left)
  {
    hide Running, Ticks;
    forall n: nat
      ensures Ticks(dv, n).busy <==> n < dv.left
    {
      TicksLeft(dv, n);
    }
  }

  // The dividend without its sign.
  function Dividend(signed: bool, a: Word): nat { if signed then Abs(Signed(a)) else a }

  /** An early division is busy for as many clocks as its dividend has bits: n + 1 from 2^n up to 2^(n + 1). */
  lemma EarlyClocks(a: Word, b: Word, signed: bool, n: nat)
    requires b != 0 && Pow2(n) <= Dividend(signed, a) < Pow2(n + 1)
    ensures BusyFor(Start(true, a, b, signed), n + 1)
  {
    hide Running, BusyFor, StartRegs, SignificantBits;
    LengthExact(Dividend(signed, a), n);
    LengthBits(Dividend(signed, a));
    LeftIsBusy(Start(true, a, b, signed));
  }

  /** Without early start and by 0 it takes a clock for each of the 32 bits; an early division of 0 takes one. */
  lemma OtherClocks(early: bool, a: Word, b: Word, signed: bool)
    ensures !early || b == 0 ==> BusyFor(Start(early, a, b, signed), 32)
    ensures early && b != 0 && a == 0 ==> BusyFor(Start(early, a, b, signed), 1)
  {
    hide Running, BusyFor, StartRegs, SignificantBits;
    LeftIsBusy(Start(early, a, b, signed));
  }

  // The steps of an M divide that starts early.
  function EarlySteps(f: Funct3, a: Word, b: Word): nat {
    if b == 0 then 32 else Length(Dividend(f == 4 || f == 6, a))
  }

  lemma StartsWith(f: Funct3, a: Word, b: Word)
    ensures Start(true, a, b, f == 4 || f == 6).left == EarlySteps(f, a, b)
  {
    hide Running, StartRegs, SignificantBits, Length;
    LengthBits(Dividend(f == 4 || f == 6, a));
  }
}
