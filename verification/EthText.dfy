/**
 Amounts in ether as text, and back to wei. Models weiToETHString of
 internal/api/handlers_chain.go and parseTransferValue of
 internal/api/handlers_dev_send.go, with all notations that big.Rat's SetString takes.
 */
module EthText {
  import opened Outcomes
  import opened Decimal
  import opened Powers
  import opened Notation

  const ETH_DIGITS := 18

  const WEI_PER_ETH := 1_000_000_000_000_000_000

  // ---------------------------------------------------------------------
  // Printing.
  // ---------------------------------------------------------------------

  /** The `k` lowest decimal digits of `n`, zero-padded. */
  function Digits(n: nat, k: nat): (s: string)
    ensures |s| == k && AllDigits(s)
  {
    if k == 0 then "" else Digits(n / 10, k - 1) + [DigitChar(n % 10)]
  }

  function TrimZeros(s: string): string
  {
    if |s| > 0 && s[|s| - 1] == '0' then TrimZeros(s[..|s| - 1]) else s
  }

  function TrimDot(s: string): string
  {
    if |s| > 0 && s[|s| - 1] == '.' then s[..|s| - 1] else s
  }

  /** All eighteen decimals first, then the trailing zeros and a bare point removed. */
  function WeiToEth(w: int): string
  {
    if w == 0 then "0"
    else
      var n: nat := if w < 0 then 0 - w else w;
      (if w < 0 then "-" else "")
      + TrimDot(TrimZeros(Text(n / WEI_PER_ETH) + "." + Digits(n % WEI_PER_ETH, ETH_DIGITS)))
  }

  // ---------------------------------------------------------------------
  // Parsing.
  // ---------------------------------------------------------------------

  /** Integer division, rounding down. */
  function Quotient(a: nat, b: nat): (q: nat)
    requires b > 0
  {
    a / b
  }

  datatype ValueError = BadWei | Missing | BadEth | NotPositive | TooSmall

  /** A wei amount given directly, or an ether amount scaled and rounded down. */
  function ParseTransferValue(weiText: string, ethText: string): Result<nat, ValueError>
  {
    if weiText != "" then
      var w := ParseWei(weiText);
      if w.None? || w.value == 0 then Err(BadWei) else Ok(w.value)
    else if ethText == "" then Err(Missing)
    else
      match ParseNumber(ethText)
      case None => Err(BadEth)
      case Some(n) =>
        if n.negative || Numerator(n) == 0 then Err(NotPositive)
        else
          var v := Quotient(Numerator(n) * WEI_PER_ETH, Denominator(n));
          if v == 0 then Err(TooSmall) else Ok(v)
  }

  // ---------------------------------------------------------------------
  // Facts about digit strings.
  // ---------------------------------------------------------------------

  lemma {:induction false} ValueConcat(a: string, b: string)
    requires AllDigits(a) && AllDigits(b)
    ensures AllDigits(a + b) && Value(a + b) == Value(a) * Pow(10, |b|) + Value(b)
    decreases |b|
  {
    if |b| == 0 {
      assert a + b == a;
    } else {
      var front := b[..|b| - 1];
      ValueConcat(a, front);
      assert (a + b)[..|a + b| - 1] == a + front;
      TimesTen(Value(a), |front|);
    }
  }

  lemma {:induction false} ValueOfDigits(n: nat, k: nat)
    requires n < Pow(10, k)
    ensures Value(Digits(n, k)) == n
  {
    if k > 0 {
      assert n / 10 < Pow(10, k - 1) by { LessTen(n, Pow(10, k - 1)); }
      ValueOfDigits(n / 10, k - 1);
      LastDigit(n, k);
    }
  }

  lemma LessTen(n: nat, p: nat)
    requires n < 10 * p
    ensures n / 10 < p
  {
  }

  lemma LastDigit(n: nat, k: nat)
    requires k > 0
    ensures Value(Digits(n, k)) == 10 * Value(Digits(n / 10, k - 1)) + n % 10
  {
    var s := Digits(n, k);
    assert s[..k - 1] == Digits(n / 10, k - 1);
    assert DigitValue(s[k - 1]) == n % 10;
  }

  lemma {:induction false} TrimZerosScales(whole: string, f: string)
    requires AllDigits(whole) && AllDigits(f)
    ensures AllDigits(TrimZeros(f)) && |TrimZeros(f)| <= |f|
    ensures AllDigits(whole + f) && AllDigits(whole + TrimZeros(f))
    ensures Value(whole + f) == Value(whole + TrimZeros(f)) * Pow(10, |f| - |TrimZeros(f)|)
    decreases |f|
  {
    if |f| > 0 && f[|f| - 1] == '0' {
      var front := f[..|f| - 1];
      TrimZerosScales(whole, front);
      assert (whole + f)[..|whole + f| - 1] == whole + front;
      TimesTen(Value(whole + TrimZeros(f)), |front| - |TrimZeros(front)|);
    }
  }

  lemma TimesTen(v: nat, k: nat)
    ensures v * Pow(10, k + 1) == 10 * (v * Pow(10, k))
  {
    var p := Pow(10, k);
    assert Pow(10, k + 1) == 10 * p;
  }

  lemma {:induction false} TrimOfPrint(whole: string, f: string)
    requires |whole| > 0 && AllDigits(whole) && AllDigits(f)
    ensures TrimDot(TrimZeros(whole + "." + f)) ==
            if TrimZeros(f) == "" then whole else whole + "." + TrimZeros(f)
    decreases |f|
  {
    var s := whole + "." + f;
    if |f| == 0 {
      assert s == whole + ".";
      assert s[..|s| - 1] == whole;
    } else if f[|f| - 1] == '0' {
      assert s[..|s| - 1] == whole + "." + f[..|f| - 1];
      TrimOfPrint(whole, f[..|f| - 1]);
    } else {
      assert s[|s| - 1] == f[|f| - 1];
      assert IsDigit(f[|f| - 1]);
    }
  }

  lemma UnitIsPower()
    ensures Pow(10, ETH_DIGITS) == WEI_PER_ETH
  {
    assert Pow(10, 6) == 1_000_000;
    PowAdd(10, 6, 6);
    PowAdd(10, 12, 6);
  }

  // ---------------------------------------------------------------------
  // Round trip.
  // ---------------------------------------------------------------------

  /** Every positive amount survives being printed as ether and parsed again. */
  lemma RoundTrip(w: int)
    requires w > 0
    ensures ParseTransferValue("", WeiToEth(w)) == Ok(w)
  {
    hide Pow, Value, TrimZeros, TrimDot, ParseNumber, Text, Digits, Numerator, Denominator;
    var q, r := w / WEI_PER_ETH, w % WEI_PER_ETH;
    var whole, f := Text(q), Digits(r, ETH_DIGITS);
    var z := TrimZeros(f);
    UnitIsPower();
    TrimOfPrint(whole, f);
    TrimZerosScales(whole, f);
    assert "" + TrimDot(TrimZeros(whole + "." + f)) == TrimDot(TrimZeros(whole + "." + f));
    assert WeiToEth(w) == if z == "" then whole else whole + "." + z;
    assert WeiToEth(w) != "";
    ParsePlain(q, z);
    ValueOfText(q);
    ValueOfDigits(r, ETH_DIGITS);
    ValueConcat(whole, f);
    assert Value(whole + f) == w;
    ScaledBack(Value(whole + z), |z|, ETH_DIGITS);
  }

  lemma ScaledBack(v: nat, k: nat, n: nat)
    requires k <= n
    ensures Quotient(v * Pow(10, n), Pow(10, k)) == v * Pow(10, n - k)
  {
    hide Pow;
    PowAdd(10, n - k, k);
    var a, b := Pow(10, n - k), Pow(10, k);
    assert v * (a * b) == (v * a) * b;
    QuotientUnique((v * a) * b, b, v * a, 0);
  }

  lemma LargeMultiple(k: int, b: nat)
    requires b > 0
    ensures k >= 1 ==> k * b >= b
    ensures k <= -1 ==> k * b <= 0 - b
  {
    if k >= 1 {
      assert (k - 1) * b >= 0;
    }
    if k <= -1 {
      assert (-k - 1) * b >= 0;
    }
  }

  /** The quotient is the only one that leaves a small remainder. */
  lemma QuotientUnique(x: nat, b: nat, q: nat, r: nat)
    requires x == q * b + r && r < b
    ensures Quotient(x, b) == q
  {
    var q', r' := x / b, x % b;
    assert x == q' * b + r';
    assert (q - q') * b == r' - r;
    LargeMultiple(q - q', b);
  }

  /**
   What is printed: zero as a bare digit, a negative amount as a minus sign and the positive
   one, and any positive amount without a trailing point and without trailing decimals of
   zero.
   */
  lemma PrintedShape(w: int)
    ensures WeiToEth(0) == "0"
    ensures w > 0 ==> WeiToEth(-w) == "-" + WeiToEth(w)
    ensures w > 0 ==> ShortForm(Text(w / WEI_PER_ETH), Digits(w % WEI_PER_ETH, ETH_DIGITS), WeiToEth(w))
  {
    hide TrimZeros, TrimDot, Text, Digits;
    if w > 0 {
      var whole, f := Text(w / WEI_PER_ETH), Digits(w % WEI_PER_ETH, ETH_DIGITS);
      var s := TrimDot(TrimZeros(whole + "." + f));
      assert "" + s == s;
      TrimOfPrint(whole, f);
      TrimShape(f);
      assert ShortForm(whole, f, s);
    }
  }

  /** The decimals from `k` on are zeros, and the last one before is not. */
  ghost predicate KeptDecimals(f: string, k: nat)
  {
    k <= |f| && (forall i :: k <= i < |f| ==> f[i] == '0') && (k > 0 ==> f[k - 1] != '0')
  }

  /** The whole part, and behind a point the decimals up to the last one that is not zero, if any. */
  ghost predicate ShortForm(whole: string, f: string, text: string)
  {
    exists k: nat :: KeptDecimals(f, k) && text == if k == 0 then whole else whole + "." + f[..k]
  }

  lemma {:induction false} TrimShape(f: string)
    ensures |TrimZeros(f)| <= |f| && TrimZeros(f) == f[..|TrimZeros(f)|] && KeptDecimals(f, |TrimZeros(f)|)
    decreases |f|
  {
    if |f| > 0 && f[|f| - 1] == '0' {
      TrimShape(f[..|f| - 1]);
    }
  }

  /** Which error each refused input gets; a wei amount takes precedence. */
  lemma ValueErrors(weiText: string, ethText: string)
    ensures weiText != "" ==>
              ParseTransferValue(weiText, ethText) ==
              if ParseWei(weiText).Some? && ParseWei(weiText).value > 0 then Ok(ParseWei(weiText).value)
              else Err(BadWei)
    ensures weiText == "" && ethText == "" ==> ParseTransferValue(weiText, ethText) == Err(Missing)
    ensures weiText == "" && ethText != "" && ParseTransferValue(weiText, ethText).Err? ==>
              ParseTransferValue(weiText, ethText).error ==
              if ParseNumber(ethText).None? then BadEth
              else if ParseNumber(ethText).value.negative || Magnitude(ParseNumber(ethText).value) == 0.0
              then NotPositive else TooSmall
  {
    hide ParseNumber, Magnitude, Numerator, Denominator, Valid, Quotient;
    if weiText == "" && ethText != "" && ParseNumber(ethText).Some? {
      var n := ParseNumber(ethText).value;
      FractionIsMagnitude(n);
      ZeroFraction(Numerator(n), Denominator(n));
    }
  }

  lemma ZeroFraction(a: nat, b: nat)
    requires b > 0
    ensures a as real / b as real == 0.0 <==> a == 0
  {
    if a > 0 {
      assert a as real / b as real > 0.0;
    }
  }

  /** Printing is injective on positive amounts. */
  lemma PrintingInjective(v: int, w: int)
    requires v > 0 && w > 0 && WeiToEth(v) == WeiToEth(w)
    ensures v == w
  {
    RoundTrip(v);
    RoundTrip(w);
  }

  // ---------------------------------------------------------------------
  // The parsed amount against the mathematical value of the text.
  // ---------------------------------------------------------------------

  lemma FloorOfFraction(a: nat, b: nat)
    requires b > 0
    ensures (a as real / b as real).Floor == Quotient(a, b)
  {
    var q, r := a / b, a % b;
    assert a == q * b + r;
    RealProduct(q, b);
    FloorBetween(a as real, b as real, q, r as real);
  }

  lemma FloorBetween(a: real, b: real, q: nat, r: real)
    requires b > 0.0 && a == q as real * b + r && 0.0 <= r < b
    ensures (a / b).Floor == q
  {
    var x := a / b;
    assert x * b == a;
    var y := x - q as real;
    assert y * b == r;
    Scaling(y, b);
    assert !(y < 0.0) && !(y >= 1.0);
    assert x == q as real + y;
  }

  lemma Scaling(y: real, b: real)
    requires b > 0.0
    ensures y < 0.0 ==> y * b < 0.0
    ensures y >= 1.0 ==> y * b >= b
  {
    if y >= 1.0 {
      assert (y - 1.0) * b >= 0.0;
    }
  }

  /**
   The library keeps the fraction in lowest terms; dividing out a common factor
   does not change the rounded result.
   */
  lemma ReductionInvisible(num: nat, den: nat, g: nat, scale: nat)
    requires den > 0 && g > 0
    ensures den * g > 0
    ensures Quotient((num * g) * scale, den * g) == Quotient(num * scale, den)
  {
    var q, r := num * scale / den, num * scale % den;
    assert num * scale == q * den + r;
    assert (num * g) * scale == q * (den * g) + r * g by {
      assert (num * g) * scale == (num * scale) * g;
      assert (q * den + r) * g == q * (den * g) + r * g;
    }
    assert r * g < den * g by { assert (den - r) * g > 0; }
    QuotientUnique((num * g) * scale, den * g, q, r * g);
  }

  /**
   An ether text, in any notation, yields the floor of its value times 10^18 when it is
   accepted, and it is accepted exactly when it is a number, not negative, and worth at
   least one wei.
   */
  lemma AcceptedIsFloor(ethText: string)
    requires ethText != ""
    ensures ParseTransferValue("", ethText).Ok? <==>
            ParseNumber(ethText).Some? && !ParseNumber(ethText).value.negative
            && Magnitude(ParseNumber(ethText).value) * WEI_PER_ETH as real >= 1.0
    ensures ParseTransferValue("", ethText).Ok? ==>
              ParseTransferValue("", ethText).value ==
              (Magnitude(ParseNumber(ethText).value) * WEI_PER_ETH as real).Floor
  {
    hide ParseNumber, Magnitude, Numerator, Denominator, Quotient, Valid;
    if ParseNumber(ethText).Some? {
      var n := ParseNumber(ethText).value;
      FractionIsMagnitude(n);
      ScaledFloor(Numerator(n), Denominator(n), Magnitude(n));
    }
  }

  lemma ScaledFloor(a: nat, b: nat, x: real)
    requires b > 0 && x == a as real / b as real
    ensures (x * WEI_PER_ETH as real).Floor == Quotient(a * WEI_PER_ETH, b)
    ensures x * WEI_PER_ETH as real >= 1.0 ==> a > 0
    ensures x * WEI_PER_ETH as real >= 1.0 <==> Quotient(a * WEI_PER_ETH, b) > 0
  {
    FloorOfFraction(a * WEI_PER_ETH, b);
    RealProduct(a, WEI_PER_ETH);
    var ar, br, u := a as real, b as real, WEI_PER_ETH as real;
    assert (ar / br) * u == (ar * u) / br;
    assert (a * WEI_PER_ETH) as real / br == x * u;
    if a == 0 {
      assert x == 0.0;
    }
  }
}
