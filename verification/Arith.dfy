/** Facts about division, remainder and products, on plain integers. */
module Arith {
  // A bit, and a condition that counts.
  function Bit(b: bool): nat { if b then 1 else 0 }

  lemma EvenRest(a: int)
    requires 0 <= a
    ensures a % 4 % 2 == a % 2
    ensures a % 2 == 0 ==> a % 4 == 0 || a % 4 == 2
    ensures a / 2 == 2 * (a / 4) + a % 4 / 2
    ensures a == 4 * (a / 4) + a % 4
  {
    var q, r := a / 4, a % 4;
    assert a == 2 * (2 * q + r / 2) + r % 2;
  }

  lemma Split4(a: int, q: int, r: int)
    requires a == 4 * q + r && 0 <= r < 4
    ensures a / 4 == q && a % 4 == r
  {
  }

  lemma RestOfSum(a: int, b: int, carry: int)
    requires 0 <= a && 0 <= b
    ensures (a % 4 + b % 4) % 4 == (a + b - 0x1_0000_0000 * carry) % 4
  {
    Split4(a + b - 0x1_0000_0000 * carry, a / 4 + b / 4 - 0x4000_0000 * carry + (a % 4 + b % 4) / 4,
           (a % 4 + b % 4) % 4);
  }

  // The word address of a sum: the sum of the word addresses.
  lemma QuarterOfSum(p: int, m: int)
    requires 0 <= p < 0x4000_0000 && 0 <= m < 0x1_0000_0000
    ensures (4 * p + m - (if 4 * p + m < 0x1_0000_0000 then 0 else 0x1_0000_0000)) / 4 == (p + m / 4) % 0x4000_0000
  {
    var carry := if 4 * p + m < 0x1_0000_0000 then 0 else 1;
    Split4(4 * p + m - 0x1_0000_0000 * carry, p + m / 4 - 0x4000_0000 * carry, m % 4);
  }

  lemma EvenSum(a: int, b: int, carry: int)
    requires b % 2 == 0
    ensures (4 * a + b - 0x1_0000_0000 * carry) % 2 == 0
  {
    assert 4 * a + b - 0x1_0000_0000 * carry == 2 * (2 * a + b / 2 - 0x8000_0000 * carry);
  }

  // The target of a jump: bit 0 dropped, bit 1 tested.
  lemma TargetBits(t: int)
    requires 0 <= t
    ensures t / 2 * 2 / 4 == t / 4
    ensures t / 2 % 2 == 1 <==> t / 2 * 2 % 4 != 0
    ensures t / 2 % 2 == 1 ==> t / 2 * 2 == 4 * (t / 4) + 2
    ensures t % 2 == 0 ==> t / 2 * 2 == t
  {
    var q, r := t / 4, t % 4;
    assert t == 4 * q + r;
    assert t / 2 == 2 * q + r / 2;
    Split4(t / 2 * 2, q, 2 * (r / 2));
  }

  // The digits of a number to base 256.
  lemma Base256(w: int)
    requires 0 <= w < 0x1_0000_0000
    ensures w == w % 0x100 + 0x100 * (w / 0x100 % 0x100) + 0x1_0000 * (w / 0x1_0000 % 0x100)
                 + 0x100_0000 * (w / 0x100_0000)
    ensures w % 0x1_0000 == w % 0x100 + 0x100 * (w / 0x100 % 0x100)
    ensures w / 0x1_0000 == w / 0x1_0000 % 0x100 + 0x100 * (w / 0x100_0000)
    ensures w / 0x1_0000 % 0x1_0000 == w / 0x1_0000
    ensures 0 <= w / 0x100_0000 < 0x100 && w / 0x100_0000 % 0x100 == w / 0x100_0000
  {
    assert w / 0x1_0000 == w / 0x100 / 0x100;
    assert w / 0x100_0000 == w / 0x1_0000 / 0x100;
  }

  lemma Base256Of(w: int, b0: int, b1: int, b2: int, b3: int)
    requires w == b0 + 0x100 * b1 + 0x1_0000 * b2 + 0x100_0000 * b3
    requires 0 <= b0 < 0x100 && 0 <= b1 < 0x100 && 0 <= b2 < 0x100 && 0 <= b3 < 0x100
    ensures w % 0x100 == b0 && w / 0x100 % 0x100 == b1
    ensures w / 0x1_0000 % 0x100 == b2 && w / 0x100_0000 == b3
  {
    assert w / 0x100 == b1 + 0x100 * b2 + 0x1_0000 * b3;
    assert w / 0x1_0000 == b2 + 0x100 * b3;
  }

  lemma RestOfWord(x: int, q: int, r: int)
    requires x == 0x1_0000_0000 * q + r && 0 <= r < 0x1_0000_0000
    ensures x % 0x1_0000_0000 == r
  {
  }

  // ---------- Products ----------

  lemma MulMonotone(a: int, b: int, m: int)
    requires a <= b && 0 <= m
    ensures a * m <= b * m
  {
    assert (b - a) * m >= 0;
  }

  lemma Distribute(a: int, b: int, c: int, m: int)
    ensures (a * b + c) * m == a * (b * m) + c * m
    ensures c * (2 * m) == 2 * (c * m)
  {
    assert a * b * m == a * (b * m);
  }

  // Quotient and remainder are the only ones.
  lemma DivOf(x: int, m: int, q: int, r: int)
    requires m > 0 && x == q * m + r && 0 <= r < m
    ensures x / m == q && x % m == r
  {
    var k := x / m;
    assert x == k * m + x % m;
    if k < q {
      MulMonotone(k + 1, q, m);
    } else if k > q {
      MulMonotone(q + 1, k, m);
    }
  }

  // A remainder is the one of a difference that divides.
  lemma SameRest(x: int, c: int, p: int)
    requires 0 <= c < p
    ensures (x - c) % p == 0 <==> x % p == c
  {
    if x % p == c {
      DivOf(x - c, p, x / p, 0);
    }
    if (x - c) % p == 0 {
      DivOf(x, p, (x - c) / p, c);
    }
  }

  // A sum with its carry.
  lemma CarryOut(x: int, p: int, carry: bool, r: int)
    requires x == r + (if carry then p else 0) && 0 <= r < p
    ensures x % p == r && (carry <==> x >= p)
  {
    DivOf(x, p, if carry then 1 else 0, r);
  }

  lemma RestOfRest(k: int, a: int, n: int)
    requires n > 0
    ensures (k % n - a) % n == (k - a) % n
  {
    var q, e := (k % n - a) / n, k / n;
    assert k == e * n + k % n;
    assert e * n + q * n == (e + q) * n;
    DivOf(k - a, n, e + q, (k % n - a) % n);
  }

  lemma MirrorRest(x: int, w: int)
    requires w > 0
    ensures x % w == w - 1 - (w - 1 - x) % w
  {
    var q, r := (w - 1 - x) / w, (w - 1 - x) % w;
    assert -q * w == -(q * w);
    DivOf(x, w, -q, w - 1 - r);
  }

  lemma DivTwice(v: int, p: int)
    requires p > 0
    ensures v / p / 2 == v / (2 * p)
  {
    var q := v / p / 2;
    var r := v / p % 2;
    assert v == v / p * p + v % p;
    assert v / p == 2 * q + r;
    assert (2 * q + r) * p == q * (2 * p) + r * p;
    assert r * p <= p;
    DivOf(v, 2 * p, q, r * p + v % p);
  }

  lemma RestTwice(v: int, p: int, m: int)
    requires m > 0
    ensures 2 * (v * p % m) % m == v * (2 * p) % m
  {
    var q := v * p / m;
    var q1 := 2 * (v * p % m) / m;
    assert v * (2 * p) == 2 * (v * p);
    assert 2 * (q * m) + q1 * m == (2 * q + q1) * m;
    DivOf(v * (2 * p), m, 2 * q + q1, 2 * (v * p % m) % m);
  }

  lemma OneRound(x: int, p: int)
    requires p > 0
    ensures (x + p) % p == x % p
  {
    DivOf(x + p, p, x / p + 1, x % p);
  }

  lemma DivMonotone(x: int, y: int, t: int)
    requires t > 0 && x <= y
    ensures x / t <= y / t
  {
    var a, b := x / t, y / t;
    assert x == a * t + x % t && y == b * t + y % t;
    if b < a {
      MulMonotone(b + 1, a, t);
    }
  }

  // Numbers at least t apart have different quotients.
  lemma DivApart(x: int, y: int, t: int)
    requires t > 0 && x + t <= y
    ensures x / t < y / t
  {
    DivOf(x + t, t, x / t + 1, x % t);
    DivMonotone(x + t, y, t);
  }

  // Ten times a remainder has a quotient of one digit.
  lemma OneDigit(r: int, t: int)
    requires 0 <= r < t
    ensures 0 <= r * 10 / t < 10
  {
    if r * 10 / t >= 10 {
      MulMonotone(10, r * 10 / t, t);
    }
  }

  // A digit of a long division, scaled by p.
  lemma DigitStep(r: int, t: int, d: int, rest: int, p: int)
    requires t > 0 && r * 10 == d * t + rest
    ensures r * (10 * p) / t == d * p + rest * p / t
  {
    var q, e := rest * p / t, rest * p % t;
    assert r * (10 * p) == (r * 10) * p;
    assert (d * t + rest) * p == d * p * t + rest * p;
    assert rest * p == q * t + e;
    assert d * p * t + q * t == (d * p + q) * t;
    DivOf(r * (10 * p), t, d * p + q, e);
  }

  lemma HalfFirst(v: int, p: int)
    requires p > 0
    ensures v / (2 * p) == v / 2 / p
  {
    var q, r := v / 2 / p, v / 2 % p;
    assert v == 2 * (v / 2) + v % 2 && v / 2 == q * p + r;
    assert 2 * (q * p) == q * (2 * p);
    DivOf(v, 2 * p, q, 2 * r + v % 2);
  }

  lemma QuotientSmaller(x: int, d: int)
    requires 0 <= x && d > 0
    ensures 0 <= x / d <= x
  {
    DivMonotone(0, x, d);
    MulMonotone(1, d, x / d);
  }
}
