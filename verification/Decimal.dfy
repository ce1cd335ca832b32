/**
 Decimal text of natural numbers, and the parser that guards every amount.
 Models internal/exchange/wei.go.
 */
module Decimal {
  import opened Outcomes

  predicate IsDigit(c: char) { '0' <= c <= '9' }

  predicate AllDigits(s: string) { forall i :: 0 <= i < |s| ==> IsDigit(s[i]) }

  function DigitChar(d: nat): (c: char)
    requires d < 10
    ensures IsDigit(c) && DigitValue(c) == d
  {
    (('0' as int) + d) as char
  }

  function DigitValue(c: char): (d: nat)
    requires IsDigit(c)
    ensures d < 10
  {
    (c as int) - ('0' as int)
  }

  /** The usual decimal text, without leading zeros. */
  function Text(n: nat): (s: string)
    ensures |s| > 0 && AllDigits(s)
  {
    if n < 10 then [DigitChar(n)] else Text(n / 10) + [DigitChar(n % 10)]
  }

  /** Positional value of a digit string; leading zeros allowed, the empty string is zero. */
  function Value(s: string): nat
    requires AllDigits(s)
  {
    if |s| == 0 then 0 else 10 * Value(s[..|s| - 1]) + DigitValue(s[|s| - 1])
  }

  lemma {:induction false} ValueOfText(n: nat)
    ensures Value(Text(n)) == n
  {
    if n < 10 {
      assert Text(n)[..0] == "";
    } else {
      ValueOfText(n / 10);
      assert Text(n)[..|Text(n)| - 1] == Text(n / 10);
    }
  }

  lemma TextInjective(m: nat, n: nat)
    requires Text(m) == Text(n)
    ensures m == n
  {
    ValueOfText(m);
    ValueOfText(n);
  }

  /** An optionally signed, non-empty digit string whose value is not negative. */
  function ParseWei(s: string): Option<nat>
  {
    var signed := |s| > 0 && (s[0] == '-' || s[0] == '+');
    var body := if signed then s[1..] else s;
    if |body| == 0 || !AllDigits(body) then None
    else if signed && s[0] == '-' && Value(body) > 0 then None
    else Some(Value(body))
  }

  /**
   A non-empty digit string is its value, and so it is behind a plus sign; behind a minus
   sign only zero is accepted; nothing else is a number of wei.
   */
  lemma ParseWeiIff(s: string)
    ensures |s| > 0 && AllDigits(s) ==> ParseWei(s) == Some(Value(s))
    ensures |s| > 0 && AllDigits(s) ==> ParseWei("+" + s) == Some(Value(s))
    ensures |s| > 0 && AllDigits(s) ==> ParseWei("-" + s) == if Value(s) == 0 then Some(0) else None
    ensures ParseWei(s).Some? ==>
              (|s| > 0 && AllDigits(s)) || (|s| > 1 && (s[0] == '+' || s[0] == '-') && AllDigits(s[1..]))
  {
    hide Value;
    if |s| > 0 && AllDigits(s) {
      assert IsDigit(s[0]);
      assert ("+" + s)[1..] == s && ("-" + s)[1..] == s;
    }
  }

  /** Balances and amounts are stored as text; reading them back loses nothing. */
  lemma ParseUndoesText(n: nat)
    ensures ParseWei(Text(n)) == Some(n)
  {
    ValueOfText(n);
    assert IsDigit(Text(n)[0]);
  }
}
