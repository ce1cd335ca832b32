/**
 The number notations that big.Rat's SetString accepts: fractions a/b, base prefixes,
 underscores between digits, a point, and decimal or binary exponents. Gives the value of
 a text twice, as the library computes it from powers of two and five and as the positional
 system defines it, and proves that the two agree. Serves parseTransferValue of
 internal/api/handlers_dev_send.go.
 */
module Notation {
  import opened Outcomes
  import opened Decimal
  import opened Powers

  // ---------------------------------------------------------------------
  // Scanning digits.
  // ---------------------------------------------------------------------

  const NO_DIGIT := 37

  function DigitOf(c: char): nat
  {
    if '0' <= c <= '9' then (c as int) - ('0' as int)
    else if 'a' <= c <= 'z' then (c as int) - ('a' as int) + 10
    else if 'A' <= c <= 'Z' then (c as int) - ('A' as int) + 10
    else NO_DIGIT
  }

  datatype Previous = Digit | Separator | Other

  /** Digits read so far, how many of them came before the point, and the state of the separators. */
  datatype Scan = Scan(digits: seq<nat>, point: Option<nat>, previous: Previous, misplaced: bool)

  const FRESH := Scan([], None, Other, false)

  datatype Scanned = Scanned(scan: Scan, rest: string)

  predicate InBase(digits: seq<nat>, base: nat) { forall i :: 0 <= i < |digits| ==> digits[i] < base }

  predicate PointOk(scan: Scan) { scan.point.Some? ==> scan.point.value <= |scan.digits| }

  /** The longest prefix made of digits of the base, underscores and at most one point where allowed. */
  function ScanDigits(s: string, base: nat, pointAllowed: bool, acc: Scan): (r: Scanned)
    requires InBase(acc.digits, base) && PointOk(acc)
    ensures InBase(r.scan.digits, base) && PointOk(r.scan)
  {
    if |s| == 0 then Scanned(acc, s)
    else if s[0] == '.' && pointAllowed && acc.point.None? then
      ScanDigits(s[1..], base, pointAllowed,
                 acc.(point := Some(|acc.digits|), previous := Other,
                      misplaced := acc.misplaced || acc.previous == Separator))
    else if s[0] == '_' then
      ScanDigits(s[1..], base, pointAllowed,
                 acc.(previous := Separator, misplaced := acc.misplaced || acc.previous != Digit))
    else if DigitOf(s[0]) >= base then Scanned(acc, s)
    else
      ScanDigits(s[1..], base, pointAllowed, acc.(digits := acc.digits + [DigitOf(s[0])], previous := Digit))
  }

  /** Digits in a base, the last `fraction` of them after the point. */
  datatype Mantissa = Mantissa(digits: seq<nat>, base: nat, fraction: nat)

  predicate MantissaOk(m: Mantissa)
  {
    && (m.base == 2 || m.base == 8 || m.base == 10 || m.base == 16)
    && InBase(m.digits, m.base) && m.fraction <= |m.digits|
  }

  /** What the first characters say about the base, and where the digits begin. */
  datatype Prefix = Prefix(base: nat, start: Scan, skip: nat, octalZero: bool)

  function PrefixOf(s: string, pointAllowed: bool): (p: Prefix)
    ensures p.skip <= |s| && (p.base == 2 || p.base == 8 || p.base == 10 || p.base == 16)
    ensures InBase(p.start.digits, p.base) && p.start.point.None?
  {
    if |s| == 0 || s[0] != '0' then Prefix(10, FRESH, 0, false)
    else if |s| == 1 then Prefix(10, Scan([0], None, Digit, false), 1, false)
    else if s[1] == 'b' || s[1] == 'B' then Prefix(2, Scan([], None, Digit, false), 2, false)
    else if s[1] == 'o' || s[1] == 'O' then Prefix(8, Scan([], None, Digit, false), 2, false)
    else if s[1] == 'x' || s[1] == 'X' then Prefix(16, Scan([], None, Digit, false), 2, false)
    else if !pointAllowed then Prefix(8, Scan([], None, Digit, false), 1, true)
    else Prefix(10, Scan([0], None, Digit, false), 1, false)
  }

  datatype Read = Read(mantissa: Mantissa, rest: string)

  /** An unsigned number with an optional prefix; misplaced separators and missing digits are errors. */
  function ScanNumber(s: string, pointAllowed: bool): (r: Option<Read>)
    ensures r.Some? ==> MantissaOk(r.value.mantissa)
    ensures r.Some? && !pointAllowed ==> r.value.mantissa.fraction == 0
  {
    var p := PrefixOf(s, pointAllowed);
    var r := ScanDigits(s[p.skip..], p.base, pointAllowed, p.start);
    if r.scan.misplaced || r.scan.previous == Separator then None
    else if |r.scan.digits| == 0 then
      (if p.octalZero then Some(Read(Mantissa([0], 10, 0), r.rest)) else None)
    else
      var fraction := if pointAllowed && r.scan.point.Some? then |r.scan.digits| - r.scan.point.value else 0;
      Some(Read(Mantissa(r.scan.digits, p.base, fraction), r.rest))
  }

  // ---------------------------------------------------------------------
  // Exponents and whole numbers.
  // ---------------------------------------------------------------------

  /** Value of digits in a base, most significant first. */
  function FromDigits(digits: seq<nat>, base: nat): nat
  {
    if |digits| == 0 then 0 else base * FromDigits(digits[..|digits| - 1], base) + digits[|digits| - 1]
  }

  datatype Exponent = Exponent(value: int, base: nat)

  const TWO_63 := 0x8000_0000_0000_0000

  /** Nothing, or an `e` or `p` with an optional sign and digits up to the end; a 64-bit number. */
  function ParseExponent(s: string): (r: Option<Exponent>)
    ensures r.Some? ==> r.value.base == 2 || r.value.base == 10
  {
    if |s| == 0 then Some(Exponent(0, 10))
    else if s[0] !in {'e', 'E', 'p', 'P'} then None
    else
      var base := if s[0] == 'e' || s[0] == 'E' then 10 else 2;
      var signed := |s| > 1 && (s[1] == '+' || s[1] == '-');
      var r := ScanDigits(if signed then s[2..] else s[1..], 10, false, FRESH);
      var v := FromDigits(r.scan.digits, 10);
      var e: int := if signed && s[1] == '-' then 0 - v else v;
      if r.rest != "" || |r.scan.digits| == 0 || r.scan.misplaced || r.scan.previous == Separator then None
      else if e < -TWO_63 || e >= TWO_63 then None
      else Some(Exponent(e, base))
  }

  datatype Number =
    | Fraction(negative: bool, num: nat, den: nat)
    | Scientific(negative: bool, mantissa: Mantissa, exponent: Exponent)

  predicate Valid(n: Number)
  {
    match n
    case Fraction(_, _, den) => den > 0
    case Scientific(_, m, e) => MantissaOk(m) && (e.base == 2 || e.base == 10)
  }

  predicate Signed(s: string) { |s| > 0 && (s[0] == '+' || s[0] == '-') }

  function Unsigned(s: string): string { if Signed(s) then s[1..] else s }

  function Negative(s: string): bool { Signed(s) && s[0] == '-' }

  /** Position of the first slash, or the length. */
  function Slash(s: string): (i: nat)
    ensures i <= |s| && (i < |s| ==> s[i] == '/') && forall j :: 0 <= j < i ==> s[j] != '/'
  {
    if |s| == 0 || s[0] == '/' then 0
    else
      var i := Slash(s[1..]);
      1 + i
  }

  const MAX_EXPONENT_5 := 1_000_000

  const MAX_EXPONENT_2 := 10_000_000

  /** Bits per digit after the point; a decimal digit counts one here and one in the power of five. */
  function BitsPerDigit(base: nat): nat
  {
    if base == 8 then 3 else if base == 16 then 4 else 1
  }

  function Exponent5(m: Mantissa, e: Exponent): int
  {
    (if m.base == 10 then 0 - m.fraction else 0) + (if e.base == 10 then e.value else 0)
  }

  function Exponent2(m: Mantissa, e: Exponent): int
  {
    e.value - BitsPerDigit(m.base) * m.fraction
  }

  predicate Moderate(m: Mantissa, e: Exponent)
  {
    && -MAX_EXPONENT_5 <= Exponent5(m, e) <= MAX_EXPONENT_5
    && -MAX_EXPONENT_2 <= Exponent2(m, e) <= MAX_EXPONENT_2
  }

  function ParseFraction(s: string, i: nat): (r: Option<Number>)
    requires i < |s|
    ensures r.Some? ==> Valid(r.value)
  {
    var a := ScanNumber(Unsigned(s[..i]), false);
    var b := ScanNumber(s[i + 1..], false);
    if a.None? || b.None? || a.value.rest != "" || b.value.rest != "" then None
    else
      var num := FromDigits(a.value.mantissa.digits, a.value.mantissa.base);
      var den := FromDigits(b.value.mantissa.digits, b.value.mantissa.base);
      if den == 0 then None else Some(Fraction(Negative(s[..i]), num, den))
  }

  function ParseScientific(s: string): (r: Option<Number>)
    ensures r.Some? ==> Valid(r.value)
  {
    var m := ScanNumber(Unsigned(s), true);
    if m.None? then None
    else
      var e := ParseExponent(m.value.rest);
      if e.None? then None
      else if FromDigits(m.value.mantissa.digits, m.value.mantissa.base) > 0
        && !Moderate(m.value.mantissa, e.value) then None
      else Some(Scientific(Negative(s), m.value.mantissa, e.value))
  }

  /** The whole text as a number, or nothing. */
  function ParseNumber(s: string): (r: Option<Number>)
    ensures r.Some? ==> Valid(r.value)
  {
    var i := Slash(s);
    if i < |s| then ParseFraction(s, i) else ParseScientific(s)
  }

  // ---------------------------------------------------------------------
  // The value as the library computes it: integers and powers of two and five.
  // ---------------------------------------------------------------------

  function Numerator(n: Number): nat
  {
    match n
    case Fraction(_, num, _) => num
    case Scientific(_, m, e) => FromDigits(m.digits, m.base) * (Up(5, Exponent5(m, e)) * Up(2, Exponent2(m, e)))
  }

  function Denominator(n: Number): (d: nat)
    requires Valid(n)
    ensures d > 0
  {
    match n
    case Fraction(_, _, den) => den
    case Scientific(_, m, e) =>
      var five, two := Down(5, Exponent5(m, e)), Down(2, Exponent2(m, e));
      assert five * two > 0;
      five * two
  }

  // ---------------------------------------------------------------------
  // The value as the positional system defines it.
  // ---------------------------------------------------------------------

  /** Value of the digits after the point, first digit first. */
  function FractionValue(digits: seq<nat>, base: nat): real
    requires base > 0
  {
    if |digits| == 0 then 0.0 else (digits[0] as real + FractionValue(digits[1..], base)) / base as real
  }

  function MantissaValue(m: Mantissa): real
    requires MantissaOk(m)
  {
    var k := |m.digits| - m.fraction;
    FromDigits(m.digits[..k], m.base) as real + FractionValue(m.digits[k..], m.base)
  }

  function Magnitude(n: Number): real
    requires Valid(n)
  {
    match n
    case Fraction(_, num, den) => num as real / den as real
    case Scientific(_, m, e) => MantissaValue(m) * RealPow(e.base, e.value)
  }

  lemma {:induction false} DigitsConcat(a: seq<nat>, b: seq<nat>, base: nat)
    ensures FromDigits(a + b, base) == FromDigits(a, base) * Pow(base, |b|) + FromDigits(b, base)
    decreases |b|
  {
    if |b| == 0 {
      assert a + b == a;
    } else {
      var front := b[..|b| - 1];
      DigitsConcat(a, front, base);
      assert (a + b)[..|a + b| - 1] == a + front;
      ShiftOnce(base, FromDigits(a, base), Pow(base, |front|), FromDigits(front, base));
    }
  }

  lemma ShiftOnce(base: nat, x: nat, p: nat, y: nat)
    ensures base * (x * p + y) == x * (base * p) + base * y
  {
    assert base * (x * p) == x * (base * p);
  }

  lemma {:induction false} FractionOfDigits(f: seq<nat>, base: nat)
    requires base > 0
    ensures FractionValue(f, base) * Pow(base, |f|) as real == FromDigits(f, base) as real
    decreases |f|
  {
    hide Pow, FromDigits, FractionValue;
    if |f| == 0 {
      NoFraction(f, base);
    } else {
      var rest := f[1..];
      FractionOfDigits(rest, base);
      FirstDigit(f, base);
      ShiftPoint(base, f[0], Pow(base, |rest|), FractionValue(rest, base), FromDigits(rest, base));
    }
  }

  lemma NoFraction(f: seq<nat>, base: nat)
    requires |f| == 0 && base > 0
    ensures FractionValue(f, base) * Pow(base, |f|) as real == FromDigits(f, base) as real
  {
  }

  lemma FirstDigit(f: seq<nat>, base: nat)
    requires |f| > 0 && base > 0
    ensures FromDigits(f, base) == f[0] * Pow(base, |f| - 1) + FromDigits(f[1..], base)
    ensures FractionValue(f, base) == (f[0] as real + FractionValue(f[1..], base)) / base as real
    ensures Pow(base, |f|) == base * Pow(base, |f| - 1)
  {
    FirstOfDigits(f, base);
  }

  lemma FirstOfDigits(f: seq<nat>, base: nat)
    requires |f| > 0
    ensures FromDigits(f, base) == f[0] * Pow(base, |f| - 1) + FromDigits(f[1..], base)
  {
    hide FromDigits, Pow;
    assert f == [f[0]] + f[1..];
    DigitsConcat([f[0]], f[1..], base);
    SingleDigit(f[0], base);
  }

  lemma SingleDigit(d: nat, base: nat)
    ensures FromDigits([d], base) == d
  {
    assert [d][..0] == [];
    assert FromDigits([], base) == 0;
  }

  lemma ShiftPoint(base: nat, d: nat, p: nat, x: real, v: nat)
    requires base > 0 && x * p as real == v as real
    ensures (d as real + x) / base as real * (base * p) as real == (d * p + v) as real
  {
    var br, dr, pr := base as real, d as real, p as real;
    RealProduct(d, p);
    RealProduct(base, p);
    assert (dr + x) / br * br == dr + x;
    assert (dr + x) / br * (br * pr) == ((dr + x) / br * br) * pr;
  }

  /** The point only scales: the mantissa is its digits as a whole, times the base to minus the decimals. */
  lemma MantissaScales(m: Mantissa)
    requires MantissaOk(m)
    ensures MantissaValue(m) == FromDigits(m.digits, m.base) as real * RealPow(m.base, 0 - m.fraction)
  {
    hide Pow, FromDigits, FractionValue, RealPow;
    var k := |m.digits| - m.fraction;
    var whole, f := m.digits[..k], m.digits[k..];
    assert m.digits == whole + f;
    DigitsConcat(whole, f, m.base);
    FractionOfDigits(f, m.base);
    RealPowDown(m.base, m.fraction);
    RealProduct(FromDigits(whole, m.base), Pow(m.base, |f|));
    Unscale(FromDigits(whole, m.base) as real, FractionValue(f, m.base), Pow(m.base, |f|) as real,
            RealPow(m.base, 0 - m.fraction), FromDigits(m.digits, m.base) as real);
  }

  lemma Unscale(w: real, f: real, p: real, inv: real, v: real)
    requires v == w * p + f * p && inv * p == 1.0
    ensures w + f == v * inv
  {
    assert v * inv == (w + f) * (inv * p);
  }

  /** A base to a power, as powers of five and two. */
  lemma SplitBase(base: nat, e: int)
    requires base == 2 || base == 8 || base == 10 || base == 16
    ensures RealPow(base, e) == RealPow(5, if base == 10 then e else 0) * RealPow(2, BitsPerDigit(base) * e)
  {
    hide RealPow;
    RealPowUp(5, 0);
    if base == 10 {
      RealPowProduct(5, 2, e);
    } else if base == 8 {
      assert Pow(2, 3) == 8;
      RealPowPower(2, 3, e);
    } else if base == 16 {
      assert Pow(2, 4) == 16;
      RealPowPower(2, 4, e);
    }
  }

  lemma ScientificIsMagnitude(m: Mantissa, e: Exponent)
    requires MantissaOk(m) && (e.base == 2 || e.base == 10)
    ensures MantissaValue(m) * RealPow(e.base, e.value) ==
            FromDigits(m.digits, m.base) as real * (RealPow(5, Exponent5(m, e)) * RealPow(2, Exponent2(m, e)))
  {
    hide Pow, FromDigits, FractionValue, RealPow, MantissaValue;
    var v := FromDigits(m.digits, m.base) as real;
    MantissaScales(m);
    SplitBase(m.base, 0 - m.fraction);
    SplitBase(e.base, e.value);
    var f5, f2 := if m.base == 10 then 0 - m.fraction else 0, BitsPerDigit(m.base) * (0 - m.fraction);
    var e5, e2 := if e.base == 10 then e.value else 0, BitsPerDigit(e.base) * e.value;
    RealPowAdd(5, f5, e5);
    RealPowAdd(2, f2, e2);
    assert f5 + e5 == Exponent5(m, e) && f2 + e2 == Exponent2(m, e);
    Gather(v, RealPow(5, f5), RealPow(2, f2), RealPow(5, e5), RealPow(2, e2));
  }

  lemma Gather(v: real, a: real, b: real, c: real, d: real)
    ensures (v * (a * b)) * (c * d) == v * ((a * c) * (b * d))
  {
    assert (a * b) * (c * d) == (a * c) * (b * d);
  }

  /** In every notation the integer fraction has exactly the positional value of the text. */
  lemma FractionIsMagnitude(n: Number)
    requires Valid(n)
    ensures Numerator(n) as real / Denominator(n) as real == Magnitude(n)
  {
    hide Pow, FromDigits, RealPow, MantissaValue, Up, Down;
    match n
    case Fraction(_, num, den) =>
    case Scientific(_, m, e) =>
      var x5, x2 := Exponent5(m, e), Exponent2(m, e);
      ScientificIsMagnitude(m, e);
      UpOverDown(5, x5);
      UpOverDown(2, x2);
      var v := FromDigits(m.digits, m.base);
      RealProduct(v, Up(5, x5) * Up(2, x2));
      RealProduct(Up(5, x5), Up(2, x2));
      RealProduct(Down(5, x5), Down(2, x2));
      Quotients(v as real, RealPow(5, x5), RealPow(2, x2), Down(5, x5) as real, Down(2, x2) as real,
                Up(5, x5) as real, Up(2, x2) as real);
  }

  lemma Quotients(v: real, x: real, y: real, dx: real, dy: real, ux: real, uy: real)
    requires dx > 0.0 && dy > 0.0 && x * dx == ux && y * dy == uy
    ensures dx * dy > 0.0 && (v * (ux * uy)) / (dx * dy) == v * (x * y)
  {
    assert ux * uy == (x * y) * (dx * dy);
    assert v * (ux * uy) == (v * (x * y)) * (dx * dy);
  }

  // ---------------------------------------------------------------------
  // Plain decimal texts.
  // ---------------------------------------------------------------------

  function Values(s: string): (d: seq<nat>)
    requires AllDigits(s)
    ensures |d| == |s| && InBase(d, 10)
  {
    if |s| == 0 then [] else Values(s[..|s| - 1]) + [DigitValue(s[|s| - 1])]
  }

  lemma {:induction false} ValuesAre(s: string)
    requires AllDigits(s)
    ensures FromDigits(Values(s), 10) == Value(s)
  {
    if |s| > 0 {
      ValuesAre(s[..|s| - 1]);
      assert Values(s)[..|s| - 1] == Values(s[..|s| - 1]);
    }
  }

  lemma {:induction false} ValuesConcat(a: string, b: string)
    requires AllDigits(a) && AllDigits(b)
    ensures AllDigits(a + b) && Values(a + b) == Values(a) + Values(b)
    decreases |b|
  {
    if |b| == 0 {
      assert a + b == a;
    } else {
      ValuesConcat(a, b[..|b| - 1]);
      assert (a + b)[..|a + b| - 1] == a + b[..|b| - 1];
    }
  }

  /** A run of decimal digits is taken over as it is. */
  lemma {:induction false} ScanRun(d: string, tail: string, pointAllowed: bool, acc: Scan)
    requires AllDigits(d) && InBase(acc.digits, 10) && PointOk(acc)
    ensures ScanDigits(d + tail, 10, pointAllowed, acc) ==
            ScanDigits(tail, 10, pointAllowed,
                       acc.(digits := acc.digits + Values(d), previous := if d == "" then acc.previous else Digit))
    decreases |d|
  {
    hide ScanDigits, DigitValue;
    if |d| == 0 {
      assert d + tail == tail && acc.digits + Values(d) == acc.digits;
    } else {
      assert IsDigit(d[0]);
      assert (d + tail)[1..] == d[1..] + tail && (d + tail)[0] == d[0];
      var acc1 := acc.(digits := acc.digits + [DigitValue(d[0])], previous := Digit);
      ScanStep(d + tail, pointAllowed, acc);
      ScanRun(d[1..], tail, pointAllowed, acc1);
      FirstValue(d);
      assert acc1.digits + Values(d[1..]) == acc.digits + Values(d);
    }
  }

  lemma ScanStep(s: string, pointAllowed: bool, acc: Scan)
    requires |s| > 0 && IsDigit(s[0]) && InBase(acc.digits, 10) && PointOk(acc)
    ensures ScanDigits(s, 10, pointAllowed, acc) ==
            ScanDigits(s[1..], 10, pointAllowed, acc.(digits := acc.digits + [DigitValue(s[0])], previous := Digit))
  {
    assert DigitOf(s[0]) == DigitValue(s[0]);
  }

  lemma FirstValue(d: string)
    requires |d| > 0 && AllDigits(d)
    ensures Values(d) == [DigitValue(d[0])] + Values(d[1..])
  {
    assert d == [d[0]] + d[1..];
    ValuesConcat([d[0]], d[1..]);
    assert Values([d[0]]) == [DigitValue(d[0])] by { assert [d[0]][..0] == ""; }
  }

  lemma {:induction false} NoLeadingZero(n: nat)
    ensures n > 0 ==> Text(n)[0] != '0'
    ensures n == 0 ==> Text(n) == "0"
  {
    if n >= 10 {
      NoLeadingZero(n / 10);
    } else {
      assert DigitValue(Text(n)[0]) == n;
    }
  }

  /** The digits of `whole` or `whole.f`, read off by the scanner. */
  lemma ScanPlain(whole: string, f: string)
    requires |whole| > 0 && AllDigits(whole) && AllDigits(f)
    ensures var s := if f == "" then whole else whole + "." + f;
            ScanDigits(s, 10, true, FRESH) ==
            Scanned(Scan(Values(whole) + Values(f), if f == "" then None else Some(|whole|), Digit, false), "")
  {
    var s := if f == "" then whole else whole + "." + f;
    var tail := if f == "" then "" else "." + f;
    assert s == whole + tail;
    ScanRun(whole, tail, true, FRESH);
    assert [] + Values(whole) == Values(whole);
    var acc := Scan(Values(whole), None, Digit, false);
    if f != "" {
      assert tail[0] == '.' && tail[1..] == f && f + "" == f;
      var acc1 := Scan(Values(whole), Some(|whole|), Other, false);
      assert ScanDigits(tail, 10, true, acc) == ScanDigits(f, 10, true, acc1);
      ScanRun(f, "", true, acc1);
    } else {
      assert Values(f) == [] && Values(whole) + [] == Values(whole);
    }
  }

  /** A leading zero without a base letter changes nothing where a point is allowed. */
  lemma ScanFromStart(s: string)
    requires |s| > 0 && IsDigit(s[0])
    requires s[0] == '0' ==> |s| == 1 || s[1] == '.'
    ensures var p := PrefixOf(s, true);
            p.base == 10 && !p.octalZero
            && ScanDigits(s[p.skip..], 10, true, p.start) == ScanDigits(s, 10, true, FRESH)
  {
    if s[0] == '0' {
      assert DigitOf(s[0]) == 0 && [] + [0] == [0];
    } else {
      assert s[0..] == s;
    }
  }

  lemma NumberOfPlain(whole: string, f: string)
    requires |whole| > 0 && AllDigits(whole) && AllDigits(f)
    requires whole[0] == '0' ==> whole == "0"
    ensures var s := if f == "" then whole else whole + "." + f;
            ScanNumber(s, true) == Some(Read(Mantissa(Values(whole + f), 10, |f|), ""))
  {
    hide ScanDigits, PrefixOf, Values;
    var s := if f == "" then whole else whole + "." + f;
    assert s[0] == whole[0] && IsDigit(whole[0]);
    assert whole == "0" ==> |s| == 1 || s[1] == '.';
    ScanFromStart(s);
    ScanPlain(whole, f);
    ValuesConcat(whole, f);
  }

  lemma PlainCharacters(whole: string, f: string)
    requires |whole| > 0 && AllDigits(whole) && AllDigits(f)
    ensures var s := if f == "" then whole else whole + "." + f;
            !Signed(s) && AllDigits(whole + f) && forall i :: 0 <= i < |s| ==> s[i] != '/'
  {
    var s := if f == "" then whole else whole + "." + f;
    assert IsDigit(whole[0]) && s[0] == whole[0];
    assert forall i :: 0 <= i < |s| ==> IsDigit(s[i]) || s[i] == '.';
  }

  lemma NoExponent()
    ensures ParseExponent("") == Some(Exponent(0, 10))
  {
  }

  lemma ParsePlainText(whole: string, f: string)
    requires |whole| > 0 && AllDigits(whole) && AllDigits(f) && |f| <= MAX_EXPONENT_5
    requires whole[0] == '0' ==> whole == "0"
    ensures var s := if f == "" then whole else whole + "." + f;
            AllDigits(whole + f)
            && ParseNumber(s) == Some(Scientific(false, Mantissa(Values(whole + f), 10, |f|), Exponent(0, 10)))
  {
    hide ScanNumber, Values, FromDigits, Slash, ParseExponent;
    var s := if f == "" then whole else whole + "." + f;
    NumberOfPlain(whole, f);
    PlainCharacters(whole, f);
    NoSlash(s);
    var m, e := Mantissa(Values(whole + f), 10, |f|), Exponent(0, 10);
    NoExponent();
    assert Exponent5(m, e) == 0 - |f| && Exponent2(m, e) == 0 - |f|;
  }

  /** Parsing the plain notation `whole` or `whole.fraction` of a number. */
  lemma ParsePlain(q: nat, f: string)
    requires AllDigits(f) && |f| <= MAX_EXPONENT_5
    ensures var s := if f == "" then Text(q) else Text(q) + "." + f;
            AllDigits(Text(q) + f) && ParseNumber(s).Some?
            && var n := ParseNumber(s).value;
               !n.negative && Numerator(n) == Value(Text(q) + f) && Denominator(n) == Pow(10, |f|)
  {
    hide ParseNumber, Value, Text, Pow, FromDigits, Values, Up, Down;
    var whole := Text(q);
    NoLeadingZero(q);
    ParsePlainText(whole, f);
    var m, e := Mantissa(Values(whole + f), 10, |f|), Exponent(0, 10);
    assert Exponent5(m, e) == 0 - |f| && Exponent2(m, e) == 0 - |f|;
    ValuesAre(whole + f);
    PowersOfTen(|f|);
  }

  lemma PowersOfTen(k: nat)
    ensures Down(5, 0 - k) * Down(2, 0 - k) == Pow(10, k)
    ensures Up(5, 0 - k) == 1 && Up(2, 0 - k) == 1
  {
    PowProduct(5, 2, k);
    assert Pow(5, 0) == 1 && Pow(2, 0) == 1;
  }

  // ---------------------------------------------------------------------
  // Separators are invisible, and one text of each kind.
  // ---------------------------------------------------------------------

  /** The digits of a text, with points and underscores left out. */
  function DigitsIn(s: string): seq<nat>
  {
    if |s| == 0 then []
    else if s[0] == '.' || s[0] == '_' then DigitsIn(s[1..])
    else [DigitOf(s[0])] + DigitsIn(s[1..])
  }

  /** One step of the scanner: what it does with the first character, and the rest of the text. */
  lemma ScanFirst(s: string, base: nat, pointAllowed: bool, acc: Scan, next: Scan)
    requires |s| > 0 && base <= 36 && InBase(acc.digits, base) && PointOk(acc)
    requires InBase(next.digits, base) && PointOk(next)
    requires ScanDigits(s, base, pointAllowed, acc) == ScanDigits(s[1..], base, pointAllowed, next)
    requires next.digits == acc.digits + DigitsIn(s[..1])
    requires Collected(s[1..], next, ScanDigits(s[1..], base, pointAllowed, next))
    ensures Collected(s, acc, ScanDigits(s, base, pointAllowed, acc))
  {
    hide ScanDigits, DigitOf;
    var r := ScanDigits(s, base, pointAllowed, acc);
    var n := |s| - |r.rest|;
    assert s[..n][0] == s[0] && s[..n][1..] == s[1..][..n - 1] && s[n..] == s[1..][n - 1..];
    assert s[..1][1..] == "" && s[..1][0] == s[0];
    assert DigitsIn(s[..n]) == DigitsIn(s[..1]) + DigitsIn(s[1..][..n - 1]);
    assert next.digits + DigitsIn(s[1..][..n - 1]) == acc.digits + DigitsIn(s[..n]);
  }

  /** The digits added are the digit characters of the part that was consumed. */
  predicate Collected(s: string, acc: Scan, r: Scanned)
  {
    && |r.rest| <= |s| && r.rest == s[|s| - |r.rest|..]
    && r.scan.digits == acc.digits + DigitsIn(s[..|s| - |r.rest|])
  }

  /** What the scanner collects are the digit characters of what it consumes, in order, and nothing else. */
  lemma {:induction false} ScanCollects(s: string, base: nat, pointAllowed: bool, acc: Scan)
    requires base <= 36 && InBase(acc.digits, base) && PointOk(acc)
    ensures Collected(s, acc, ScanDigits(s, base, pointAllowed, acc))
    decreases |s|
  {
    if |s| > 0 && (s[0] == '_' || DigitOf(s[0]) < base || (s[0] == '.' && pointAllowed && acc.point.None?)) {
      var next :=
        if s[0] == '.' then acc.(point := Some(|acc.digits|), previous := Other,
                                 misplaced := acc.misplaced || acc.previous == Separator)
        else if s[0] == '_' then acc.(previous := Separator, misplaced := acc.misplaced || acc.previous != Digit)
        else acc.(digits := acc.digits + [DigitOf(s[0])], previous := Digit);
      ScanCollects(s[1..], base, pointAllowed, next);
      assert s[..1][1..] == "" && s[..1][0] == s[0];
      assert DigitsIn(s[..1]) == if s[0] == '.' || s[0] == '_' then [] else [DigitOf(s[0])];
      ScanFirst(s, base, pointAllowed, acc, next);
    }
  }

  lemma HalfAsFraction()
    ensures ParseNumber("1/2") == Some(Fraction(false, 1, 2))
  {
    hide ScanNumber, Slash, FromDigits;
    var s := "1/2";
    SlashAt(s, 1);
    assert s[..1] == "1" && s[2..] == "2";
    OneDigit('1');
    OneDigit('2');
    assert Unsigned("1") == "1";
  }

  lemma SlashAt(s: string, i: nat)
    requires i < |s| && s[i] == '/' && forall j :: 0 <= j < i ==> s[j] != '/'
    ensures Slash(s) == i
  {
    hide Slash;
  }

  lemma NoSlash(s: string)
    requires forall j :: 0 <= j < |s| ==> s[j] != '/'
    ensures Slash(s) == |s|
  {
    hide Slash;
  }

  lemma OneDigit(c: char)
    requires '1' <= c <= '9'
    ensures ScanNumber([c], false) == Some(Read(Mantissa([DigitOf(c)], 10, 0), ""))
    ensures FromDigits([DigitOf(c)], 10) == DigitOf(c)
  {
    hide ScanDigits, FromDigits;
    assert [c][0..] == [c] && [c][1..] == "" && DigitOf(c) == DigitValue(c);
    assert FRESH.digits + [DigitOf(c)] == [DigitOf(c)];
    ScanStep([c], false, FRESH);
    ScanEnd(10, false, Scan([DigitOf(c)], None, Digit, false));
    SingleDigit(DigitOf(c), 10);
  }

  lemma HexadecimalOne()
    ensures ScanNumber("0x1p-2", true) == Some(Read(Mantissa([1], 16, 0), "p-2"))
  {
    hide FromDigits;
    var s, one := "0x1p-2", Scan([1], None, Digit, false);
    assert PrefixOf(s, true) == Prefix(16, Scan([], None, Digit, false), 2, false);
    assert s[2..] == "1p-2" && "1p-2"[1..] == "p-2" && [] + [1] == [1];
    assert ScanDigits("p-2", 16, true, one) == Scanned(one, "p-2");
    assert ScanDigits("1p-2", 16, true, Scan([], None, Digit, false)) == Scanned(one, "p-2");
  }

  lemma ScanEnd(base: nat, pointAllowed: bool, acc: Scan)
    requires InBase(acc.digits, base) && PointOk(acc)
    ensures ScanDigits("", base, pointAllowed, acc) == Scanned(acc, "")
  {
  }

  lemma BinaryExponent()
    ensures ParseExponent("p-2") == Some(Exponent(-2, 2))
  {
    hide ScanDigits, FromDigits;
    assert "p-2"[2..] == "2" && "2"[1..] == "" && FRESH.digits + [2] == [2];
    ScanStep("2", false, FRESH);
    ScanEnd(10, false, Scan([2], None, Digit, false));
    SingleDigit(2, 10);
  }

  /** A prefix and a binary exponent: a quarter. */
  lemma QuarterInHexadecimal()
    ensures ParseNumber("0x1p-2") == Some(Scientific(false, Mantissa([1], 16, 0), Exponent(-2, 2)))
  {
    hide ScanNumber, ParseExponent, Slash, FromDigits;
    NoSlash("0x1p-2");
    assert Unsigned("0x1p-2") == "0x1p-2";
    HexadecimalOne();
    BinaryExponent();
    assert Moderate(Mantissa([1], 16, 0), Exponent(-2, 2));
  }
}
