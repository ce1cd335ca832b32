/**
 Which texts are numbers, said without the scanner: digits of the base that the prefix
 names, single underscores between them, at most one point, an exponent, or two whole
 numbers with a slash between them. Proves that the scanner of Notation accepts exactly
 these. Serves parseTransferValue of internal/api/handlers_dev_send.go.
 */
module Grammar {
  import opened Outcomes
  import opened Notation

  // ---------------------------------------------------------------------
  // Digits, underscores and points.
  // ---------------------------------------------------------------------

  predicate DigitIn(c: char, base: nat) { DigitOf(c) < base }

  /** Nothing but digits of the base, underscores and points. */
  predicate Alphabet(s: string, base: nat)
  {
    forall i :: 0 <= i < |s| ==> s[i] == '_' || s[i] == '.' || DigitIn(s[i], base)
  }

  function Points(s: string): nat
  {
    if |s| == 0 then 0 else (if s[0] == '.' then 1 else 0) + Points(s[1..])
  }

  /** An underscore at place i stands between two digits; `before` is what precedes the text. */
  predicate Between(s: string, i: nat, base: nat, before: Previous)
    requires i < |s|
  {
    && (if i == 0 then before == Digit else DigitIn(s[i - 1], base))
    && i + 1 < |s| && DigitIn(s[i + 1], base)
  }

  /** Every underscore stands between two digits. */
  predicate Separated(s: string, base: nat, before: Previous)
  {
    && (before == Separator ==> |s| > 0 && DigitIn(s[0], base))
    && (forall i :: 0 <= i < |s| && s[i] == '_' ==> Between(s, i, base, before))
  }

  /** The scanner has read everything and found the underscores in order. */
  predicate Clean(r: Scanned) { r.rest == "" && !r.scan.misplaced && r.scan.previous != Separator }

  function ClassOf(c: char): Previous { if c == '_' then Separator else if c == '.' then Other else Digit }

  lemma SeparatedTail(s: string, base: nat, before: Previous)
    requires |s| > 0 && base <= 36 && (s[0] == '_' || s[0] == '.' || DigitIn(s[0], base))
    ensures Separated(s, base, before) <==>
            && Separated(s[1..], base, ClassOf(s[0]))
            && (before == Separator ==> s[0] != '_' && s[0] != '.') && (s[0] == '_' ==> before == Digit)
  {
    var t, first := s[1..], ClassOf(s[0]);
    assert DigitOf('_') == NO_DIGIT && DigitOf('.') == NO_DIGIT;
    assert forall i :: 0 <= i < |t| ==> t[i] == s[i + 1];
    assert forall i :: 0 < i < |t| ==> (Between(t, i, base, first) <==> Between(s, i + 1, base, before));
    assert |t| > 0 ==> (Between(t, 0, base, first) <==> Between(s, 1, base, before));
    if Separated(s, base, before) {
      assert s[0] == '_' ==> Between(s, 0, base, before);
      forall i | 0 <= i < |t| && t[i] == '_'
        ensures Between(t, i, base, first)
      {
        assert Between(s, i + 1, base, before);
      }
    }
    if Separated(t, base, first) && (before == Separator ==> s[0] != '_' && s[0] != '.')
       && (s[0] == '_' ==> before == Digit) {
      forall i | 0 <= i < |s| && s[i] == '_'
        ensures Between(s, i, base, before)
      {
        if i > 0 {
          assert t[i - 1] == '_';
          assert Between(t, i - 1, base, first);
        }
      }
    }
  }

  /** The scanner reads a text cleanly to its end if and only if it is of this form. */
  lemma {:induction false} CleanIff(s: string, base: nat, pointAllowed: bool, acc: Scan)
    requires base <= 36 && InBase(acc.digits, base) && PointOk(acc)
    ensures Clean(ScanDigits(s, base, pointAllowed, acc)) <==>
            && !acc.misplaced && Alphabet(s, base) && Separated(s, base, acc.previous)
            && Points(s) <= if pointAllowed && acc.point.None? then 1 else 0
    decreases |s|
  {
    if |s| > 0 {
      var t := s[1..];
      assert DigitOf('_') == NO_DIGIT && DigitOf('.') == NO_DIGIT;
      assert Alphabet(s, base) <==> Alphabet(t, base) && (s[0] == '_' || s[0] == '.' || DigitIn(s[0], base)) by {
        assert forall i :: 0 <= i < |t| ==> t[i] == s[i + 1];
      }
      if s[0] == '_' || DigitIn(s[0], base) || (s[0] == '.' && pointAllowed && acc.point.None?) {
        var next := NextScan(s[0], acc);
        CleanIff(t, base, pointAllowed, next);
        SeparatedTail(s, base, acc.previous);
      }
    }
  }

  function NextScan(c: char, acc: Scan): Scan
  {
    if c == '.' then acc.(point := Some(|acc.digits|), previous := Other,
                          misplaced := acc.misplaced || acc.previous == Separator)
    else if c == '_' then acc.(previous := Separator, misplaced := acc.misplaced || acc.previous != Digit)
    else acc.(digits := acc.digits + [DigitOf(c)], previous := Digit)
  }

  // ---------------------------------------------------------------------
  // Unsigned numbers with a base prefix.
  // ---------------------------------------------------------------------

  /** The base that the first characters name. */
  function BaseOf(s: string, pointAllowed: bool): (b: nat)
    ensures b == 2 || b == 8 || b == 10 || b == 16
  {
    if |s| < 2 || s[0] != '0' then 10
    else if s[1] in {'b', 'B'} then 2
    else if s[1] in {'o', 'O'} then 8
    else if s[1] in {'x', 'X'} then 16
    else if pointAllowed then 10
    else 8
  }

  predicate Lettered(s: string) { |s| >= 2 && s[0] == '0' && s[1] in {'b', 'B', 'o', 'O', 'x', 'X'} }

  /** What follows the prefix. */
  function BodyOf(s: string, pointAllowed: bool): string
  {
    if Lettered(s) then s[2..] else if BaseOf(s, pointAllowed) == 8 then s[1..] else s
  }

  /** Digits of the base with single underscores between them, the first one also after a prefix. */
  ghost predicate Numeral(s: string, pointAllowed: bool)
  {
    var base, body := BaseOf(s, pointAllowed), BodyOf(s, pointAllowed);
    && Alphabet(body, base) && |DigitsIn(body)| > 0 && Points(body) <= (if pointAllowed then 1 else 0)
    && Separated(body, base, if base == 10 then Other else Digit)
  }

  /** The scanner starts as the prefix says, and a leading zero of a decimal is a digit like any other. */
  lemma StartsAsPrefixed(s: string, pointAllowed: bool)
    ensures var p := PrefixOf(s, pointAllowed);
            var base, body := BaseOf(s, pointAllowed), BodyOf(s, pointAllowed);
            && p.base == base
            && ScanDigits(s[p.skip..], p.base, pointAllowed, p.start) ==
               ScanDigits(body, base, pointAllowed, if base == 10 then FRESH else FRESH.(previous := Digit))
  {
    var p := PrefixOf(s, pointAllowed);
    if |s| > 0 && s[0] == '0' && p.base == 10 {
      assert DigitOf('0') == 0 && [] + [0] == [0] && s[1..] == s[p.skip..];
    } else if p.base == 10 {
      assert s[0..] == s;
    }
  }

  /** A text is read as a number to its end if and only if it is a numeral, and then with these digits. */
  lemma NumeralIff(s: string, pointAllowed: bool)
    ensures (ScanNumber(s, pointAllowed).Some? && ScanNumber(s, pointAllowed).value.rest == "") <==>
            Numeral(s, pointAllowed)
    ensures Numeral(s, pointAllowed) ==>
              ScanNumber(s, pointAllowed).value.mantissa.digits == DigitsIn(BodyOf(s, pointAllowed))
              && ScanNumber(s, pointAllowed).value.mantissa.base == BaseOf(s, pointAllowed)
  {
    hide ScanDigits, PrefixOf, Separated, Alphabet, Points;
    var p := PrefixOf(s, pointAllowed);
    var base, body := BaseOf(s, pointAllowed), BodyOf(s, pointAllowed);
    var acc := if base == 10 then FRESH else FRESH.(previous := Digit);
    StartsAsPrefixed(s, pointAllowed);
    CleanIff(body, base, pointAllowed, acc);
    ScanCollects(body, base, pointAllowed, acc);
    var r := ScanDigits(body, base, pointAllowed, acc);
    assert r.rest == "" ==> body[..|body|] == body;
    assert [] + DigitsIn(body) == DigitsIn(body);
    OctalZero(s, pointAllowed);
    if p.octalZero && Clean(r) {
      assert base == 8;
      NoEmptyOctal(s, pointAllowed);
    }
  }

  lemma OctalZero(s: string, pointAllowed: bool)
    ensures PrefixOf(s, pointAllowed).octalZero ==> BaseOf(s, pointAllowed) == 8 && !pointAllowed
  {
  }

  /** A bare leading zero of a whole number is followed by digits or by something that is not read. */
  lemma NoEmptyOctal(s: string, pointAllowed: bool)
    requires PrefixOf(s, pointAllowed).octalZero && Alphabet(BodyOf(s, pointAllowed), 8)
    requires Separated(BodyOf(s, pointAllowed), 8, Digit) && Points(BodyOf(s, pointAllowed)) == 0
    ensures |DigitsIn(BodyOf(s, pointAllowed))| > 0
  {
    var body := BodyOf(s, pointAllowed);
    assert |body| > 0 && body == s[1..];
    if body[0] == '_' {
      assert Between(body, 0, 8, Digit);
      assert DigitIn(body[1], 8);
      assert body[1..][0] == body[1];
      assert DigitsIn(body) == DigitsIn(body[1..]);
    }
  }

  // ---------------------------------------------------------------------
  // Fractions, exponents and whole texts.
  // ---------------------------------------------------------------------

  function NumeralValue(s: string, pointAllowed: bool): nat
  {
    FromDigits(DigitsIn(BodyOf(s, pointAllowed)), BaseOf(s, pointAllowed))
  }

  /** Two texts with a slash between them: whole numerals, the first perhaps signed, the second not zero. */
  lemma FractionIff(a: string, b: string)
    requires forall i :: 0 <= i < |a| ==> a[i] != '/'
    ensures ParseNumber(a + "/" + b).Some? <==>
            Numeral(Unsigned(a), false) && Numeral(b, false) && NumeralValue(b, false) > 0
    ensures ParseNumber(a + "/" + b).Some? ==>
              ParseNumber(a + "/" + b).value ==
              Fraction(Negative(a), NumeralValue(Unsigned(a), false), NumeralValue(b, false))
  {
    hide ScanNumber, Numeral, FromDigits, Slash, BodyOf, BaseOf;
    var s := a + "/" + b;
    assert s[|a|] == '/' && forall i :: 0 <= i < |a| ==> s[i] == a[i];
    SlashAt(s, |a|);
    assert s[..|a|] == a && s[|a| + 1..] == b;
    NumeralIff(Unsigned(a), false);
    NumeralIff(b, false);
  }

  /** Where the digits of an exponent begin: after its letter and an optional sign. */
  function ExponentDigits(e: string): string
    requires |e| > 0
  {
    if |e| > 1 && (e[1] == '+' || e[1] == '-') then e[2..] else e[1..]
  }

  /** An exponent is empty, or a letter, an optional sign, and decimal digits with single underscores between. */
  ghost predicate ExponentText(e: string)
  {
    e == "" ||
    (&& e[0] in {'e', 'E', 'p', 'P'}
     && Alphabet(ExponentDigits(e), 10) && Points(ExponentDigits(e)) == 0
     && Separated(ExponentDigits(e), 10, Other) && |DigitsIn(ExponentDigits(e))| > 0)
  }

  function ExponentValue(e: string): int
  {
    if e == "" then 0
    else
      var v := FromDigits(DigitsIn(ExponentDigits(e)), 10);
      if |e| > 1 && e[1] == '-' then 0 - v else v
  }

  lemma ExponentIff(e: string)
    ensures ParseExponent(e).Some? <==>
            ExponentText(e) && -0x8000_0000_0000_0000 <= ExponentValue(e) < 0x8000_0000_0000_0000
    ensures ParseExponent(e).Some? ==>
              ParseExponent(e).value == Exponent(ExponentValue(e), if e != "" && e[0] in {'p', 'P'} then 2 else 10)
  {
    hide ScanDigits, Separated, Alphabet, Points, FromDigits;
    if e != "" && e[0] in {'e', 'E', 'p', 'P'} {
      var d := ExponentDigits(e);
      CleanIff(d, 10, false, FRESH);
      ScanCollects(d, 10, false, FRESH);
      var r := ScanDigits(d, 10, false, FRESH);
      assert r.rest == "" ==> d[..|d|] == d;
      assert [] + DigitsIn(d) == DigitsIn(d);
    }
  }

  /** The scanner stops in front of a character that is no digit, no underscore and no point. */
  lemma {:induction false} ScanStops(m: string, e: string, base: nat, pointAllowed: bool, acc: Scan)
    requires base <= 36 && InBase(acc.digits, base) && PointOk(acc)
    requires ScanDigits(m, base, pointAllowed, acc).rest == ""
    requires e == "" || (e[0] != '_' && e[0] != '.' && !DigitIn(e[0], base))
    ensures ScanDigits(m + e, base, pointAllowed, acc) == Scanned(ScanDigits(m, base, pointAllowed, acc).scan, e)
    decreases |m|
  {
    if |m| == 0 {
      assert m + e == e;
    } else {
      assert (m + e)[0] == m[0] && (m + e)[1..] == m[1..] + e;
      var next := NextScan(m[0], acc);
      assert DigitOf('_') == NO_DIGIT && DigitOf('.') == NO_DIGIT;
      ScanStops(m[1..], e, base, pointAllowed, next);
    }
  }

  /** A numeral, perhaps with a point, and an exponent whose letter is no digit of the base. */
  ghost predicate ScientificText(m: string, e: string)
  {
    Numeral(m, true) && ExponentText(e) && (e == "" || !DigitIn(e[0], BaseOf(m, true)))
  }

  function ExponentOf(e: string): Exponent
  {
    Exponent(ExponentValue(e), if e != "" && e[0] in {'p', 'P'} then 2 else 10)
  }

  /** The exponent fits 64 bits, and a number other than zero needs no power of five or two out of bounds. */
  predicate Readable(m: string, e: string)
    requires ScanNumber(m, true).Some?
  {
    var mantissa, exponent := ScanNumber(m, true).value.mantissa, ExponentOf(e);
    && -0x8000_0000_0000_0000 <= exponent.value < 0x8000_0000_0000_0000
    && (NumeralValue(m, true) == 0
        || (-1_000_000 <= Exponent5(mantissa, exponent) <= 1_000_000
            && -10_000_000 <= Exponent2(mantissa, exponent) <= 10_000_000))
  }

  /** A numeral with an exponent, perhaps signed, is a number with exactly these digits, base and exponent. */
  lemma ScientificIff(sign: string, m: string, e: string)
    requires ScientificText(m, e) && sign in {"", "+", "-"}
    requires forall i :: 0 <= i < |sign + (m + e)| ==> (sign + (m + e))[i] != '/'
    ensures ScanNumber(m, true).Some?
    ensures ParseNumber(sign + (m + e)) ==
            if Readable(m, e) then Some(Scientific(sign == "-", ScanNumber(m, true).value.mantissa, ExponentOf(e)))
            else None
  {
    hide ScanDigits, PrefixOf, Numeral, ExponentText, FromDigits, Slash, ParseExponent, ExponentValue, ScanNumber;
    hide BaseOf, BodyOf;
    var s := sign + (m + e);
    NoSlash(s);
    NumeralIff(m, true);
    ExponentIff(e);
    WholeReads(m, e);
    NumeralUnsigned(m);
    if sign == "" {
      assert s == m + e && s[0] == m[0];
    } else {
      assert s[0] == sign[0] && s[1..] == m + e;
    }
  }

  lemma NumeralUnsigned(m: string)
    requires Numeral(m, true)
    ensures |m| > 0 && !Signed(m)
  {
    assert DigitOf('+') == NO_DIGIT && DigitOf('-') == NO_DIGIT;
  }

  predicate Consumes(c: char, base: nat, pointAllowed: bool, acc: Scan)
  {
    c == '_' || DigitIn(c, base) || (c == '.' && pointAllowed && acc.point.None?)
  }

  lemma ScanOnce(s: string, base: nat, pointAllowed: bool, acc: Scan)
    requires base <= 36 && InBase(acc.digits, base) && PointOk(acc)
    ensures |s| > 0 && Consumes(s[0], base, pointAllowed, acc) ==>
              InBase(NextScan(s[0], acc).digits, base) && PointOk(NextScan(s[0], acc))
              && ScanDigits(s, base, pointAllowed, acc) ==
                 ScanDigits(s[1..], base, pointAllowed, NextScan(s[0], acc))
    ensures |s| > 0 && !Consumes(s[0], base, pointAllowed, acc) ==>
              ScanDigits(s, base, pointAllowed, acc) == Scanned(acc, s)
    ensures |s| == 0 ==> ScanDigits(s, base, pointAllowed, acc) == Scanned(acc, s)
  {
    assert DigitOf('_') == NO_DIGIT && DigitOf('.') == NO_DIGIT;
  }

  /** What the scanner consumed, scanned alone, gives the same; and the rest begins with no digit. */
  lemma {:induction false} ConsumedAlone(s: string, base: nat, pointAllowed: bool, acc: Scan)
    requires base <= 36 && InBase(acc.digits, base) && PointOk(acc)
    ensures var r := ScanDigits(s, base, pointAllowed, acc);
            && |r.rest| <= |s| && r.rest == s[|s| - |r.rest|..]
            && (r.rest == "" || !DigitIn(r.rest[0], base))
            && ScanDigits(s[..|s| - |r.rest|], base, pointAllowed, acc) == Scanned(r.scan, "")
    decreases |s|
  {
    hide ScanDigits, NextScan, DigitIn;
    ScanOnce(s, base, pointAllowed, acc);
    var r := ScanDigits(s, base, pointAllowed, acc);
    if |s| > 0 && Consumes(s[0], base, pointAllowed, acc) {
      ConsumedAlone(s[1..], base, pointAllowed, NextScan(s[0], acc));
      var n := |s| - |r.rest|;
      assert s[..n][0] == s[0] && s[..n][1..] == s[1..][..n - 1] && s[1..][n - 1..] == s[n..];
      ScanOnce(s[..n], base, pointAllowed, acc);
    } else {
      assert s[..0] == "" && s[0..] == s;
      ScanOnce("", base, pointAllowed, acc);
    }
  }

  /** Every number without a slash is a sign, a numeral and an exponent. */
  lemma ScientificSplits(s: string)
    requires ParseNumber(s).Some? && forall i :: 0 <= i < |s| ==> s[i] != '/'
    ensures exists sign, m, e :: s == sign + (m + e) && sign in {"", "+", "-"} && ScientificText(m, e)
                                 && ScanNumber(m, true).Some? && Readable(m, e)
  {
    hide ScanDigits, PrefixOf, Numeral, ExponentText, FromDigits, Slash, ParseExponent, ExponentValue, ScanNumber;
    hide BaseOf, BodyOf;
    NoSlash(s);
    var u := Unsigned(s);
    var sign := if !Signed(s) then "" else if s[0] == '+' then "+" else "-";
    assert s == sign + u;
    var e := ScanNumber(u, true).value.rest;
    NumeralPart(u);
    var m := u[..|u| - |e|];
    ExponentIff(e);
    assert u == m + e;
    ScientificIff(sign, m, e);
  }

  lemma NumeralPart(u: string)
    requires ScanNumber(u, true).Some?
    ensures var e := ScanNumber(u, true).value.rest;
            && |e| <= |u| && e == u[|u| - |e|..] && Numeral(u[..|u| - |e|], true)
            && (e == "" || !DigitIn(e[0], BaseOf(u[..|u| - |e|], true)))
  {
    hide ScanDigits, FromDigits, Numeral, PrefixOf, BaseOf, BodyOf, DigitIn;
    var p, e := PrefixOf(u, true), ScanNumber(u, true).value.rest;
    ConsumedAlone(u[p.skip..], p.base, true, p.start);
    var m := u[..|u| - |e|];
    assert m[p.skip..] == u[p.skip..][..|u| - p.skip - |e|];
    SamePrefix(u, |m|);
    NumeralIff(m, true);
    assert p.base == BaseOf(m, true) by { StartsAsPrefixed(m, true); }
  }

  lemma SamePrefix(u: string, n: nat)
    requires PrefixOf(u, true).skip <= n <= |u|
    ensures PrefixOf(u[..n], true) == PrefixOf(u, true)
  {
  }

  lemma WholeReads(m: string, e: string)
    requires Numeral(m, true) && ExponentText(e) && (e == "" || !DigitIn(e[0], BaseOf(m, true)))
    ensures ScanNumber(m, true).Some? && ScanNumber(m + e, true) == Some(Read(ScanNumber(m, true).value.mantissa, e))
  {
    hide ScanDigits, FromDigits;
    NumeralIff(m, true);
    NumeralUnsigned(m);
    var p := PrefixOf(m, true);
    assert PrefixOf(m + e, true) == p;
    assert (m + e)[p.skip..] == m[p.skip..] + e;
    ScanStops(m[p.skip..], e, p.base, true, p.start);
  }
}
