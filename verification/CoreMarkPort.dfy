/** The result line of the CoreMark port: decimal printing and a long division in 32 bits, into a
  * buffer of 96 characters.
  */
module CoreMarkPort {
  import Arith

  const WORDS := 0x1_0000_0000
  const LINE := 96

  type U32 = n: int | 0 <= n < WORDS

  // ---------- Decimal digits ----------

  function Digit(d: int): char
    requires 0 <= d < 10
  {
    '0' + (d as char)
  }

  function Decimal(n: nat): (s: string)
    ensures |s| > 0
  {
    if n < 10 then [Digit(n)] else Decimal(n / 10) + [Digit(n % 10)]
  }

  // The number a string of digits reads as.
  function ValueOf(s: string): int {
    if s == "" then 0 else 10 * ValueOf(s[..|s| - 1]) + (s[|s| - 1] as int - '0' as int)
  }

  /** A printed number reads back as itself, without leading zeros. */
  lemma {:induction false} DecimalReads(n: nat)
    ensures ValueOf(Decimal(n)) == n
    ensures n > 0 ==> Decimal(n)[0] != '0'
    ensures forall k :: 0 <= k < |Decimal(n)| ==> '0' <= Decimal(n)[k] <= '9'
    decreases n
  {
    if n < 10 {
      assert Decimal(n)[..0] == "";
    } else {
      DecimalReads(n / 10);
      assert Decimal(n)[..|Decimal(n)| - 1] == Decimal(n / 10);
    }
  }

  function Power10(k: nat): nat { if k == 0 then 1 else 10 * Power10(k - 1) }

  lemma {:induction false} DecimalLength(n: nat, k: nat)
    requires k > 0 && n < Power10(k)
    ensures |Decimal(n)| <= k
    decreases k
  {
    if n >= 10 {
      DecimalLength(n / 10, k - 1);
    }
  }

  lemma DecimalFits(n: U32)
    ensures |Decimal(n)| <= 10
  {
    assert Power10(1) == 10 && Power10(2) == 100 && Power10(3) == 1000 && Power10(4) == 10000;
    assert Power10(5) == 100000 && Power10(6) == 1000000 && Power10(7) == 10000000;
    assert Power10(10) == 10000000000;
    DecimalLength(n, 10);
  }

  lemma DecimalLast(n: nat)
    ensures Decimal(n)[|Decimal(n)| - 1] == Digit(n % 10)
    ensures n >= 10 ==> Decimal(n)[..|Decimal(n)| - 1] == Decimal(n / 10)
    ensures n < 10 <==> |Decimal(n)| == 1
  {
  }

  // ---------- The buffer ----------

  // The buffer with t written at s.
  function Put(line: seq<char>, s: nat, t: string): (r: seq<char>)
    requires s + |t| <= |line|
    ensures |r| == |line|
  {
    line[..s] + t + line[s + |t|..]
  }

  lemma PutOne(line: seq<char>, s: nat, t: string, c: char)
    requires s + |t| < |line|
    ensures Put(line, s, t)[s + |t| := c] == Put(line, s, t + [c])
  {
    var a, b := Put(line, s, t)[s + |t| := c], Put(line, s, t + [c]);
    forall k | 0 <= k < |line| ensures a[k] == b[k] {
    }
  }

  lemma PutNothing(line: seq<char>, s: nat)
    requires s <= |line|
    ensures Put(line, s, "") == line
  {
  }

  lemma PutTwo(line: seq<char>, s: nat, t: string, u: string)
    requires s + |t| + |u| <= |line|
    ensures Put(Put(line, s, t), s + |t|, u) == Put(line, s, t + u)
  {
  }

  method PutChar(line: array<char>, ghost was: seq<char>, ghost s: nat, ghost t: string, e: nat, c: char)
    requires |was| == line.Length && e == s + |t| && e < line.Length && line[..] == Put(was, s, t)
    modifies line
    ensures line[..] == Put(was, s, t + [c])
  {
    line[e] := c;
    PutOne(was, s, t, c);
  }

  /** put_uint: appends the decimal digits of n at s, and returns the end. */
  method PutUint(line: array<char>, s: nat, n: U32) returns (e: nat)
    requires s + |Decimal(n)| <= line.Length
    modifies line
    ensures e == s + |Decimal(n)|
    ensures line[..] == Put(old(line[..]), s, Decimal(n))
  {
    hide Decimal, Put;
    ghost var text := Decimal(n);
    DecimalFits(n);
    var digits := new char[10];
    ghost var was := line[..];
    var k, m, more := 0, n, true;
    while more
      invariant 0 <= m < WORDS && 0 <= k <= |text|
      invariant if more then k < |text| && text[..|text| - k] == Decimal(m) else k == |text|
      invariant forall j :: 0 <= j < k ==> digits[j] == text[|text| - 1 - j]
      invariant line[..] == was
      decreases if more then m + 1 else 0
    {
      DecimalLast(m);
      digits[k] := Digit(m % 10);
      k, m := k + 1, m / 10;
      more := m != 0;
    }
    e := s;
    PutNothing(was, s);
    while k > 0
      invariant 0 <= k <= |text| && e == s + |text| - k
      invariant line[..] == Put(was, s, text[..|text| - k])
      invariant forall j :: 0 <= j < k ==> digits[j] == text[|text| - 1 - j]
    {
      k := k - 1;
      assert text[..|text| - k] == text[..|text| - k - 1] + [digits[k]];
      PutChar(line, was, s, text[..|text| - k - 1], e, digits[k]);
      e := e + 1;
    }
    assert text[..|text|] == text;
  }

  // A C string: the characters before the first zero.
  function Text(t: seq<char>): string {
    if t == [] || t[0] == '\0' then "" else [t[0]] + Text(t[1..])
  }

  lemma {:induction false} TextPrefix(t: seq<char>, k: nat)
    requires k <= |Text(t)|
    ensures |Text(t)| <= |t|
    ensures Text(t)[..k] == t[..k]
    ensures '\0' in t ==> |Text(t)| < |t|
    ensures k < |t| ==> (t[k] == '\0' <==> k == |Text(t)|)
    decreases |t|
  {
    if t != [] && t[0] != '\0' {
      TextPrefix(t[1..], if k > 0 then k - 1 else 0);
      if k > 0 {
        assert Text(t)[..k] == [t[0]] + Text(t[1..])[..k - 1];
      }
    }
  }

  /** put_str: appends a zero-terminated string at s, without its zero, and returns the end. */
  method PutStr(line: array<char>, s: nat, t: seq<char>) returns (e: nat)
    requires '\0' in t && s + |Text(t)| <= line.Length
    modifies line
    ensures e == s + |Text(t)|
    ensures line[..] == Put(old(line[..]), s, Text(t))
  {
    hide Text, Put;
    ghost var was, text := line[..], Text(t);
    e := s;
    var k := 0;
    PutNothing(was, s);
    TextPrefix(t, 0);
    while t[k] != '\0'
      invariant 0 <= k <= |text| < |t| && e == s + k
      invariant t[k] == '\0' <==> k == |text|
      invariant line[..] == Put(was, s, text[..k])
      decreases |t| - k
    {
      TextPrefix(t, k + 1);
      assert text[..k + 1] == text[..k] + [t[k]];
      PutChar(line, was, s, text[..k], e, t[k]);
      e, k := e + 1, k + 1;
    }
    assert text[..k] == text;
  }

  // ---------- The result line ----------

  function Wrap(x: nat): U32 { x % WORDS }

  // The digits of the long division, as 32-bit words compute them.
  function Fraction(r: U32, ticks: U32, k: nat): (s: string)
    requires r < ticks
    ensures |s| == k
    decreases k
  {
    if k == 0 then ""
    else
      WrapSmall(r, ticks);
      [Digit(Wrap(r * 10) / ticks)] + Fraction(Wrap(r * 10) % ticks, ticks, k - 1)
  }

  lemma Wrapped(x: nat)
    ensures x < WORDS ==> Wrap(x) == x
    ensures x >= WORDS ==> Wrap(x) + WORDS <= x
  {
  }

  lemma WrapSmall(r: U32, ticks: U32)
    requires r < ticks
    ensures 0 <= Wrap(r * 10) / ticks < 10 && 0 <= r * 10 / ticks < 10
    ensures r * 10 < WORDS ==> Wrap(r * 10) == r * 10
    ensures r * 10 >= WORDS ==> Wrap(r * 10) / ticks < r * 10 / ticks
  {
    hide Wrap;
    Wrapped(r * 10);
    Arith.OneDigit(r, ticks);
    Arith.DivMonotone(0, Wrap(r * 10), ticks);
    Arith.DivMonotone(Wrap(r * 10), r * 10, ticks);
    if r * 10 >= WORDS {
      Arith.DivApart(Wrap(r * 10), r * 10, ticks);
    }
  }

  // The exact digits of r / ticks after the point.
  function Digits(r: nat, ticks: nat, k: nat): (s: string)
    requires r < ticks
    ensures |s| == k
    decreases k
  {
    if k == 0 then ""
    else
      Arith.OneDigit(r, ticks);
      [Digit(r * 10 / ticks)] + Digits(r * 10 % ticks, ticks, k - 1)
  }

  // Ten times every remainder of the division fits 32 bits.
  predicate Fits(r: nat, ticks: nat, k: nat)
    requires r < ticks
    decreases k
  {
    k == 0 || (r * 10 < WORDS && Fits(r * 10 % ticks, ticks, k - 1))
  }

  /** The long division prints the exact digits if and only if ten times each remainder fits 32 bits. */
  lemma {:induction false} FractionExact(r: U32, ticks: U32, k: nat)
    requires r < ticks
    ensures Fraction(r, ticks, k) == Digits(r, ticks, k) <==> Fits(r, ticks, k)
    decreases k
  {
    hide Digit, Wrap;
    if k > 0 {
      WrapSmall(r, ticks);
      var rest := Wrap(r * 10) % ticks;
      if r * 10 < WORDS {
        FractionExact(rest, ticks, k - 1);
        SameHead(Digit(r * 10 / ticks), Fraction(rest, ticks, k - 1), Digits(rest, ticks, k - 1));
      } else {
        DigitsDiffer(Wrap(r * 10) / ticks, r * 10 / ticks);
        assert Fraction(r, ticks, k)[0] != Digits(r, ticks, k)[0];
      }
    }
  }

  lemma SameHead(c: char, s: string, t: string)
    ensures [c] + s == [c] + t <==> s == t
  {
    assert ([c] + s)[1..] == s && ([c] + t)[1..] == t;
  }

  lemma DigitsDiffer(a: int, b: int)
    requires 0 <= a < 10 && 0 <= b < 10 && a != b
    ensures Digit(a) != Digit(b)
  {
  }

  // Up to 429496730 cycles every remainder fits.
  lemma {:induction false} ShortRunsFit(r: nat, ticks: nat, k: nat)
    requires r < ticks <= 429496730
    ensures Fits(r, ticks, k)
    decreases k
  {
    if k > 0 {
      ShortRunsFit(r * 10 % ticks, ticks, k - 1);
    }
  }

  // What the digits mean: r * 10^k / ticks, rounded down.
  lemma {:induction false} DigitsMean(r: nat, ticks: nat, k: nat)
    requires r < ticks
    ensures ValueOf(Digits(r, ticks, k)) == r * Power10(k) / ticks
    decreases k
  {
    hide Digit, ValueOf, Power10;
    PowerStep(k);
    if k == 0 {
      NoDigits();
      Arith.DivOf(r, ticks, 0, r);
    } else {
      var d, rest := r * 10 / ticks, r * 10 % ticks;
      Arith.OneDigit(r, ticks);
      DigitsMean(rest, ticks, k - 1);
      ValueOfCons(d, Digits(rest, ticks, k - 1));
      Arith.DigitStep(r, ticks, d, rest, Power10(k - 1));
    }
  }

  lemma PowerStep(k: nat)
    ensures Power10(k) == if k == 0 then 1 else 10 * Power10(k - 1)
  {
  }

  lemma NoDigits()
    ensures ValueOf("") == 0
  {
  }

  lemma {:induction false} ValueOfCons(d: int, s: string)
    requires 0 <= d < 10
    ensures ValueOf([Digit(d)] + s) == d * Power10(|s|) + ValueOf(s)
    decreases |s|
  {
    var t := [Digit(d)] + s;
    if s == "" {
      assert t[..0] == "";
    } else {
      var n := |s| - 1;
      assert t[..|t| - 1] == [Digit(d)] + s[..n];
      ValueOfCons(d, s[..n]);
    }
  }

  // 10^6 times the iterations, in 32 bits.
  function Scaled(n: U32): U32 { Wrap(n * 1000000) }

  // The product fits 32 bits up to 4294 iterations, and not beyond.
  lemma ScaledExact(n: U32)
    ensures Scaled(n) == n * 1000000 <==> n <= 4294
  {
    Wrapped(n * 1000000);
  }

  function Quotient(q: U32, ticks: U32): (d: U32)
    requires ticks > 0
    ensures d == q / ticks
  {
    Arith.QuotientSmaller(q, ticks);
    q / ticks
  }

  function Rest(q: U32, ticks: U32): (r: U32)
    requires ticks > 0
    ensures r == q % ticks && r < ticks
  {
    q % ticks
  }

  const NAME := "CoreMark: "
  const ITERATIONS_IN := " iterations in "
  const CYCLES := " cycles: "
  const UNIT := " CoreMark/MHz\n"

  // The line with a before the point and f behind it.
  function Line(n: U32, ticks: U32, a: string, f: string): string {
    NAME + Decimal(n) + ITERATIONS_IN + Decimal(ticks) + CYCLES + a + "." + f + UNIT
  }

  function ResultText(n: U32, ticks: U32): string
    requires ticks > 0
  {
    var q := Scaled(n);
    Line(n, ticks, Decimal(Quotient(q, ticks)), Fraction(Rest(q, ticks), ticks, 3))
  }

  lemma Texts()
    ensures Text(NAME + "\0") == NAME && Text(ITERATIONS_IN + "\0") == ITERATIONS_IN
    ensures Text(CYCLES + "\0") == CYCLES && Text(UNIT + "\0") == UNIT
  {
    hide Text;
    TextOf(NAME);
    TextOf(ITERATIONS_IN);
    TextOf(CYCLES);
    TextOf(UNIT);
  }

  lemma {:induction false} TextOf(s: string)
    requires '\0' !in s
    ensures Text(s + "\0") == s
    decreases |s|
  {
    if s != "" {
      assert (s + "\0")[1..] == s[1..] + "\0";
      TextOf(s[1..]);
    }
  }

  // ---------- Reading the line ----------

  predicate IsDigit(c: char) { '0' <= c <= '9' }

  // The characters of t before the first that is no digit.
  function Lead(t: string): (k: nat)
    ensures k <= |t|
  {
    if t == "" || !IsDigit(t[0]) then 0 else 1 + Lead(t[1..])
  }

  // What a line says: the iterations, the cycles, and the score before and behind its point.
  datatype Reading = Unreadable | Reading(iterations: int, cycles: int, whole: int, thousandths: int)

  /** A reader of the line: fixed words, a number between any two of them. */
  function ReadLine(t: string): Reading {
    var a := "CoreMark: ";
    if !(a <= t) then Unreadable else
    var t1 := t[|a|..];
    var u1 := t1[Lead(t1)..];
    var b := " iterations in ";
    if !(b <= u1) then Unreadable else
    var t2 := u1[|b|..];
    var u2 := t2[Lead(t2)..];
    var c := " cycles: ";
    if !(c <= u2) then Unreadable else
    var t3 := u2[|c|..];
    var u3 := t3[Lead(t3)..];
    if !("." <= u3) then Unreadable else
    var t4 := u3[1..];
    var u4 := t4[Lead(t4)..];
    if u4 != " CoreMark/MHz\n" || Lead(t4) != 3 then Unreadable else
    Reading(ValueOf(t1[..Lead(t1)]), ValueOf(t2[..Lead(t2)]), ValueOf(t3[..Lead(t3)]), ValueOf(t4[..3]))
  }

  predicate AllDigits(d: string) { forall k :: 0 <= k < |d| ==> IsDigit(d[k]) }

  lemma {:induction false} LeadOf(d: string, t: string)
    requires AllDigits(d) && t != "" && !IsDigit(t[0])
    ensures Lead(d + t) == |d|
    decreases |d|
  {
    if d == "" {
      assert d + t == t;
    } else {
      assert (d + t)[1..] == d[1..] + t;
      LeadOf(d[1..], t);
    }
  }

  lemma {:induction false} FractionDigits(r: U32, ticks: U32, k: nat)
    requires r < ticks
    ensures AllDigits(Fraction(r, ticks, k))
    decreases k
  {
    hide Wrap;
    if k > 0 {
      WrapSmall(r, ticks);
      FractionDigits(Wrap(r * 10) % ticks, ticks, k - 1);
    }
  }

  // One word and the number behind it.
  lemma Taken(word: string, d: string, t: string)
    requires AllDigits(d) && t != "" && !IsDigit(t[0])
    ensures var all := word + d + t;
            && word <= all && Lead(all[|word|..]) == |d|
            && all[|word|..][..|d|] == d && all[|word|..][|d|..] == t
  {
    assert (word + d + t)[|word|..] == d + t;
    LeadOf(d, t);
  }

  lemma LineReads(n: U32, ticks: U32, a: string, f: string)
    requires AllDigits(a) && AllDigits(f) && |f| == 3
    ensures ReadLine(Line(n, ticks, a, f)) == Reading(n, ticks, ValueOf(a), ValueOf(f))
  {
    hide ValueOf, Decimal, Lead;
    var d, e := Decimal(n), Decimal(ticks);
    DecimalReads(n);
    DecimalReads(ticks);
    var t3 := "." + f + UNIT;
    var t2 := CYCLES + a + t3;
    var t1 := ITERATIONS_IN + e + t2;
    var t := NAME + d + t1;
    assert Line(n, ticks, a, f) == t by { Grouped(NAME, d, ITERATIONS_IN, e, CYCLES, a, ".", f, UNIT); }
    Taken(NAME, d, t1);
    Taken(ITERATIONS_IN, e, t2);
    Taken(CYCLES, a, t3);
    Taken(".", f, UNIT);
  }

  lemma Grouped(a: string, b: string, c: string, d: string, e: string, f: string, g: string, h: string, i: string)
    ensures a + b + c + d + e + f + g + h + i == a + b + (c + d + (e + f + (g + h + i)))
  {
  }

  /** The line print_result prints says how many iterations in how many cycles, and the score. */
  lemma ResultReads(n: U32, ticks: U32)
    requires ticks > 0
    ensures var q := n * 1000000 % 0x1_0000_0000;
            ReadLine(ResultText(n, ticks))
            == Reading(n, ticks, q / ticks, ValueOf(Fraction(q % ticks, ticks, 3)))
  {
    hide ReadLine, Line, Decimal, Fraction, ValueOf;
    var q := Scaled(n);
    DecimalReads(Quotient(q, ticks));
    FractionDigits(Rest(q, ticks), ticks, 3);
    LineReads(n, ticks, Decimal(Quotient(q, ticks)), Fraction(Rest(q, ticks), ticks, 3));
  }

  // ---------- Printing the line ----------

  // Writing at the end of what is written.
  method AppendUint(line: array<char>, ghost was: seq<char>, ghost t: string, s: nat, n: U32) returns (e: nat)
    requires s == |t| && s + |Decimal(n)| <= line.Length == |was| && line[..] == Put(was, 0, t)
    modifies line
    ensures e == |t + Decimal(n)| && line[..] == Put(was, 0, t + Decimal(n))
  {
    hide Put, Decimal;
    PutTwo(was, 0, t, Decimal(n));
    e := PutUint(line, s, n);
  }

  method AppendStr(line: array<char>, ghost was: seq<char>, ghost t: string, s: nat, u: seq<char>) returns (e: nat)
    requires '\0' in u && s == |t| && s + |Text(u)| <= line.Length == |was| && line[..] == Put(was, 0, t)
    modifies line
    ensures e == |t + Text(u)| && line[..] == Put(was, 0, t + Text(u))
  {
    hide Put, Text;
    PutTwo(was, 0, t, Text(u));
    e := PutStr(line, s, u);
  }

  /** print_result: the line it prints, in a buffer that it never overruns. The line says how many iterations
    * in how many cycles, and the quotient and the digits of the 32-bit division.
    */
  method PrintResult(n: U32, ticks: U32) returns (line: array<char>, e: nat)
    requires ticks > 0
    ensures fresh(line) && line.Length == LINE && e < LINE
    ensures line[..e] == ResultText(n, ticks) && line[e] == '\0'
    ensures var q := n * 1000000 % 0x1_0000_0000;
            ReadLine(line[..e]) == Reading(n, ticks, q / ticks, ValueOf(Fraction(q % ticks, ticks, 3)))
  {
    hide Put, Text, Decimal, Fraction, Wrap, Digit, Quotient, Rest, ReadLine, ValueOf;
    line := new char[LINE];
    ghost var was, t := line[..], "";
    var q := Scaled(n);
    var r: U32 := Rest(q, ticks);
    ghost var fraction := Fraction(r, ticks, 3);
    Texts();
    DecimalFits(n);
    DecimalFits(ticks);
    DecimalFits(Quotient(q, ticks));
    PutNothing(was, 0);
    e := AppendStr(line, was, t, 0, NAME + "\0");
    t := t + NAME;
    assert t == NAME;
    e := AppendUint(line, was, t, e, n);
    t := t + Decimal(n);
    e := AppendStr(line, was, t, e, ITERATIONS_IN + "\0");
    t := t + ITERATIONS_IN;
    e := AppendUint(line, was, t, e, ticks);
    t := t + Decimal(ticks);
    e := AppendStr(line, was, t, e, CYCLES + "\0");
    t := t + CYCLES;
    e := AppendUint(line, was, t, e, Quotient(q, ticks));
    t := t + Decimal(Quotient(q, ticks));
    PutChar(line, was, 0, t, e, '.');
    e, t := e + 1, t + ".";
    ghost var head := t;
    var k := 0;
    while k < 3
      invariant 0 <= k <= 3 && r < ticks && e == |t| && |head| <= 65 && |t| == |head| + k
      invariant line.Length == |was| == LINE && line[..] == Put(was, 0, t)
      invariant t + Fraction(r, ticks, 3 - k) == head + fraction
    {
      FractionStep(r, ticks, 3 - k);
      r := Wrap(r * 10);
      var c := Digit(r / ticks);
      PutChar(line, was, 0, t, e, c);
      assert t + ([c] + Fraction(Rest(r, ticks), ticks, 2 - k)) == (t + [c]) + Fraction(Rest(r, ticks), ticks, 2 - k);
      e, t := e + 1, t + [c];
      r := Rest(r, ticks);
      k := k + 1;
    }
    assert t == head + fraction;
    e := AppendStr(line, was, t, e, UNIT + "\0");
    t := t + UNIT;
    PutChar(line, was, 0, t, e, '\0');
    WrittenText(line[..], was, t);
    ResultReads(n, ticks);
  }

  lemma FractionStep(r: U32, ticks: U32, k: nat)
    requires r < ticks && k > 0
    ensures 0 <= Wrap(r * 10) / ticks < 10
    ensures Fraction(r, ticks, k) == [Digit(Wrap(r * 10) / ticks)] + Fraction(Rest(Wrap(r * 10), ticks), ticks, k - 1)
  {
    hide Wrap;
    WrapSmall(r, ticks);
  }

  lemma WrittenText(line: seq<char>, was: seq<char>, t: string)
    requires |t| + 1 <= |was| && line == Put(was, 0, t + ['\0'])
    ensures line[..|t|] == t && line[|t|] == '\0'
  {
  }

  // ---------- When the line is right ----------

  // The line with the true quotient n * 10^6 / ticks and the first three digits after its point.
  function ExactText(n: U32, ticks: U32): string
    requires ticks > 0
  {
    var q := n * 1000000;
    Line(n, ticks, Decimal(q / ticks), Digits(q % ticks, ticks, 3))
  }

  // Neither the product nor ten times a remainder of the long division overflows.
  predicate NoOverflow(n: U32, ticks: U32)
    requires ticks > 0
  {
    n <= 4294 && Fits(n * 1000000 % ticks, ticks, 3)
  }

  // A product that wraps has a wrong quotient.
  lemma QuotientExact(n: U32, ticks: U32)
    requires ticks > 0
    ensures Quotient(Scaled(n), ticks) == n * 1000000 / ticks <==> n <= 4294
  {
    hide Wrap;
    ScaledExact(n);
    Wrapped(n * 1000000);
    if n > 4294 {
      Arith.DivApart(Scaled(n), n * 1000000, ticks);
    }
  }

  /** For all iterations and all cycles the printed score, before and after the point, is the true one if
    * and only if neither the product nor the long division overflows 32 bits.
    */
  lemma ScoreRight(n: U32, ticks: U32)
    requires ticks > 0
    ensures (Quotient(Scaled(n), ticks) == n * 1000000 / ticks
             && Fraction(Rest(Scaled(n), ticks), ticks, 3) == Digits(n * 1000000 % ticks, ticks, 3))
            <==> NoOverflow(n, ticks)
  {
    hide Fraction, Digits, Fits, Wrap, Quotient, Scaled;
    QuotientExact(n, ticks);
    ScaledExact(n);
    if n <= 4294 {
      FractionExact(Rest(Scaled(n), ticks), ticks, 3);
    }
  }

  lemma DecimalSame(m: nat, n: nat)
    ensures Decimal(m) == Decimal(n) <==> m == n
  {
    DecimalReads(m);
    DecimalReads(n);
  }

  // Two texts with the same head, tail and number of digits after the point.
  lemma SameMiddle(head: string, a: string, f: string, b: string, g: string, tail: string)
    requires |f| == |g|
    ensures head + a + "." + f + tail == head + b + "." + g + tail <==> a == b && f == g
  {
    var x, y := head + a + "." + f + tail, head + b + "." + g + tail;
    if x == y {
      var n := |head|;
      assert |a| == |b|;
      assert a == x[n..n + |a|] && b == y[n..n + |a|];
      assert f == x[n + |a| + 1..n + |a| + 1 + |f|] && g == y[n + |a| + 1..n + |a| + 1 + |f|];
    }
  }

  lemma SameLine(n: U32, ticks: U32, p: nat, f: string, q: nat, g: string)
    requires |f| == |g|
    ensures Line(n, ticks, Decimal(p), f) == Line(n, ticks, Decimal(q), g) <==> p == q && f == g
  {
    hide Decimal;
    SameMiddle(NAME + Decimal(n) + ITERATIONS_IN + Decimal(ticks) + CYCLES, Decimal(p), f, Decimal(q), g, UNIT);
    DecimalSame(p, q);
  }

  /** print_result prints the right line if and only if nothing overflows. */
  lemma LineRight(n: U32, ticks: U32)
    requires ticks > 0
    ensures ResultText(n, ticks) == ExactText(n, ticks) <==> NoOverflow(n, ticks)
  {
    hide Line, Decimal, Fraction, Digits, Fits, NoOverflow, Quotient, Rest, Scaled;
    var q, r := n * 1000000, Scaled(n);
    SameLine(n, ticks, Quotient(r, ticks), Fraction(Rest(r, ticks), ticks, 3),
             q / ticks, Digits(q % ticks, ticks, 3));
    ScoreRight(n, ticks);
  }

  lemma {:induction false} SameValue(f: string, g: string)
    requires |f| == |g| && AllDigits(f) && AllDigits(g)
    ensures ValueOf(f) == ValueOf(g) <==> f == g
    decreases |f|
  {
    if f != "" {
      var n := |f| - 1;
      assert f == f[..n] + [f[n]] && g == g[..n] + [g[n]];
      SameValue(f[..n], g[..n]);
    }
  }

  lemma {:induction false} ExactDigits(r: nat, ticks: nat, k: nat)
    requires r < ticks
    ensures AllDigits(Digits(r, ticks, k))
    decreases k
  {
    if k > 0 {
      Arith.OneDigit(r, ticks);
      ExactDigits(r * 10 % ticks, ticks, k - 1);
    }
  }

  /** The line says the true score, rounded down to three digits, if and only if nothing overflows. */
  lemma ReadingRight(n: U32, ticks: U32)
    requires ticks > 0
    ensures ReadLine(ResultText(n, ticks))
            == Reading(n, ticks, n * 1000000 / ticks, n * 1000000 % ticks * 1000 / ticks)
            <==> NoOverflow(n, ticks)
  {
    hide Fraction, Digits, Fits, ValueOf, NoOverflow, Power10, ReadLine, ResultText, AllDigits;
    var q, r := n * 1000000, n * 1000000 % ticks;
    var f, g := Fraction(Rest(Scaled(n), ticks), ticks, 3), Digits(r, ticks, 3);
    ResultReads(n, ticks);
    ScoreRight(n, ticks);
    FractionDigits(Rest(Scaled(n), ticks), ticks, 3);
    ExactDigits(r, ticks, 3);
    SameValue(f, g);
    DigitsMean(r, ticks, 3);
    PowerStep(0);
    PowerStep(1);
    PowerStep(2);
    PowerStep(3);
  }

  lemma FirstDigit(r: U32, ticks: U32, k: nat)
    requires r < ticks && k > 0
    ensures 0 <= Wrap(r * 10) / ticks < 10 && 0 <= r * 10 / ticks < 10
    ensures Fraction(r, ticks, k)[0] == Digit(Wrap(r * 10) / ticks) && Digits(r, ticks, k)[0] == Digit(r * 10 / ticks)
  {
    hide Wrap;
    WrapSmall(r, ticks);
  }

  /** 1000 iterations in 4 * 10^9 cycles are 0.250 a million cycles; the line says 0.0 and more. */
  lemma LongRunWrong()
    ensures ResultText(1000, 4000000000) != ExactText(1000, 4000000000)
    ensures Fraction(Rest(Scaled(1000), 4000000000), 4000000000, 3)[0] == '0'
    ensures Digits(1000 * 1000000 % 4000000000, 4000000000, 3)[0] == '2'
  {
    hide Fraction, Digits, Fits, ResultText, ExactText;
    var r: U32, ticks: U32 := 1000000000, 4000000000;
    FirstDigit(r, ticks, 3);
    assert Wrap(r * 10) == 1410065408;
    assert Rest(Scaled(1000), ticks) == r == 1000 * 1000000 % ticks;
    TooLarge();
    LineRight(1000, ticks);
  }

  lemma TooLarge()
    ensures !NoOverflow(1000, 4000000000)
  {
    assert 1000 * 1000000 % 4000000000 == 1000000000;
  }

  /** Up to 4294 iterations and 429496730 cycles nothing overflows: the digits after the point read as the
    * true quotient, rounded down to three digits.
    */
  lemma ScoreExact(n: U32, ticks: U32)
    requires 0 < ticks <= 429496730 && n <= 4294
    ensures ResultText(n, ticks) == ExactText(n, ticks)
    ensures var q := n * 1000000;
            ValueOf(Fraction(Rest(Scaled(n), ticks), ticks, 3)) == q % ticks * 1000 / ticks
  {
    hide Fraction, Digits, Fits, ValueOf, Rest, Power10, ResultText, ExactText, Quotient, Scaled;
    var r := n * 1000000 % ticks;
    ShortRunsFit(r, ticks, 3);
    LineRight(n, ticks);
    ScoreRight(n, ticks);
    DigitsMean(r, ticks, 3);
    PowerStep(0);
    PowerStep(1);
    PowerStep(2);
    PowerStep(3);
  }
}
