/** Integer powers of a base, as naturals and as reals. */
module Powers {
  function Pow(b: nat, n: nat): (p: nat)
    ensures b > 0 ==> p > 0
  {
    if n == 0 then 1 else b * Pow(b, n - 1)
  }

  /** `b` to any integer power. */
  function RealPow(b: nat, e: int): (p: real)
    requires b > 0
    ensures p > 0.0
  {
    if e >= 0 then Pow(b, e) as real else 1.0 / Pow(b, -e) as real
  }

  lemma RealProduct(a: nat, b: nat)
    ensures (a * b) as real == a as real * b as real
  {
  }

  lemma {:induction false} PowAdd(b: nat, m: nat, n: nat)
    ensures Pow(b, m + n) == Pow(b, m) * Pow(b, n)
  {
    if m > 0 {
      PowAdd(b, m - 1, n);
      Regroup(b, Pow(b, m - 1), Pow(b, n));
    }
  }

  lemma Regroup(x: nat, y: nat, z: nat)
    ensures x * (y * z) == (x * y) * z
  {
  }

  lemma {:induction false} PowProduct(a: nat, b: nat, n: nat)
    ensures Pow(a * b, n) == Pow(a, n) * Pow(b, n)
  {
    if n > 0 {
      PowProduct(a, b, n - 1);
      Shuffle(a, b, Pow(a, n - 1), Pow(b, n - 1));
    }
  }

  lemma Shuffle(a: nat, b: nat, x: nat, y: nat)
    ensures (a * b) * (x * y) == (a * x) * (b * y)
  {
    Regroup(a, x, b * y);
    Regroup(x, b, y);
    Regroup(b, x, y);
    Regroup(a, b, x * y);
    assert x * b == b * x;
  }

  lemma {:induction false} PowPower(b: nat, k: nat, n: nat)
    ensures Pow(Pow(b, k), n) == Pow(b, k * n)
  {
    if n > 0 {
      PowPower(b, k, n - 1);
      PowAdd(b, k, k * (n - 1));
      assert k + k * (n - 1) == k * n;
    } else {
      assert k * n == 0;
    }
  }

  // ---------------------------------------------------------------------
  // Real powers.
  // ---------------------------------------------------------------------

  lemma RealPowUp(b: nat, e: nat)
    requires b > 0
    ensures RealPow(b, e) == Pow(b, e) as real
  {
  }

  lemma RealPowDown(b: nat, e: nat)
    requires b > 0
    ensures RealPow(b, 0 - e) * Pow(b, e) as real == 1.0
  {
  }

  /** One more factor, at any exponent. */
  lemma RealPowStep(b: nat, e: int)
    requires b > 0
    ensures RealPow(b, e + 1) == b as real * RealPow(b, e)
  {
    if e >= 0 {
      assert Pow(b, e + 1) == b * Pow(b, e);
      RealProduct(b, Pow(b, e));
    } else {
      var n: nat := -e - 1;
      assert Pow(b, n + 1) == b * Pow(b, n);
      RealProduct(b, Pow(b, n));
      RealPowDown(b, n);
      RealPowDown(b, n + 1);
      CancelFactor(b as real, Pow(b, n) as real, RealPow(b, e), RealPow(b, e + 1));
    }
  }

  lemma CancelFactor(b: real, p: real, lower: real, upper: real)
    requires b > 0.0 && p > 0.0 && upper * p == 1.0 && lower * (b * p) == 1.0
    ensures upper == b * lower
  {
    assert (b * lower) * p == lower * (b * p);
    assert (upper - b * lower) * p == 0.0;
  }

  lemma {:induction false} RealPowAddNat(b: nat, e: int, n: nat)
    requires b > 0
    ensures RealPow(b, e + n) == RealPow(b, e) * RealPow(b, n)
  {
    hide RealPow;
    if n == 0 {
      RealPowUp(b, 0);
    } else {
      RealPowAddNat(b, e, n - 1);
      RealPowStep(b, e + n - 1);
      RealPowStep(b, n - 1);
      assert (e + n - 1) + 1 == e + n && e + (n - 1) == e + n - 1;
      Slide(b as real, RealPow(b, e), RealPow(b, n - 1));
    }
  }

  lemma Slide(x: real, y: real, z: real)
    ensures x * (y * z) == y * (x * z)
  {
  }

  /** Exponents add, whatever their signs. */
  lemma RealPowAdd(b: nat, e: int, f: int)
    requires b > 0
    ensures RealPow(b, e + f) == RealPow(b, e) * RealPow(b, f)
  {
    hide RealPow;
    if f >= 0 {
      RealPowAddNat(b, e, f);
    } else {
      var n: nat := -f;
      RealPowAddNat(b, e + f, n);
      RealPowAddNat(b, f, n);
      assert (e + f) + n == e && f + n == 0;
      RealPowUp(b, 0);
      Divide(RealPow(b, e + f), RealPow(b, n), RealPow(b, e), RealPow(b, f));
    }
  }

  lemma Divide(sum: real, up: real, e: real, f: real)
    requires up > 0.0 && e == sum * up && f * up == 1.0
    ensures sum == e * f
  {
    assert e * f == sum * (f * up);
  }

  /** A power of a product of two bases. */
  lemma RealPowProduct(a: nat, b: nat, e: int)
    requires a > 0 && b > 0
    ensures a * b > 0 && RealPow(a * b, e) == RealPow(a, e) * RealPow(b, e)
  {
    hide Pow, RealPow;
    assert a * b > 0;
    var n: nat := if e >= 0 then e else -e;
    PowProduct(a, b, n);
    RealProduct(Pow(a, n), Pow(b, n));
    if e >= 0 {
      RealPowUp(a, n);
      RealPowUp(b, n);
      RealPowUp(a * b, n);
    } else {
      RealPowDown(a, n);
      RealPowDown(b, n);
      RealPowDown(a * b, n);
      assert 0 - n == e;
      Inverses(Pow(a, n) as real, Pow(b, n) as real, RealPow(a, e), RealPow(b, e), RealPow(a * b, e));
    }
  }

  lemma Inverses(p: real, q: real, x: real, y: real, z: real)
    requires p > 0.0 && q > 0.0 && x * p == 1.0 && y * q == 1.0 && z * (p * q) == 1.0
    ensures z == x * y
  {
    assert (x * y) * (p * q) == (x * p) * (y * q);
    assert (z - x * y) * (p * q) == 0.0;
  }

  /** A power of a power. */
  lemma RealPowPower(b: nat, k: nat, e: int)
    requires b > 0
    ensures Pow(b, k) > 0 && RealPow(Pow(b, k), e) == RealPow(b, k * e)
  {
    hide RealPow, Pow;
    if e >= 0 {
      PowerUp(b, k, e);
    } else {
      var n: nat := -e;
      PowerDown(b, k, n);
      assert 0 - k * n == k * e;
    }
  }

  lemma PowerUp(b: nat, k: nat, n: nat)
    requires b > 0
    ensures Pow(b, k) > 0 && RealPow(Pow(b, k), n) == RealPow(b, k * n)
  {
    hide RealPow, Pow;
    PowPower(b, k, n);
    RealPowUp(Pow(b, k), n);
    RealPowUp(b, k * n);
  }

  lemma PowerDown(b: nat, k: nat, n: nat)
    requires b > 0
    ensures Pow(b, k) > 0 && RealPow(Pow(b, k), 0 - n) == RealPow(b, 0 - k * n)
  {
    hide RealPow, Pow;
    PowPower(b, k, n);
    RealPowDown(Pow(b, k), n);
    RealPowDown(b, k * n);
    Unique(Pow(b, k * n) as real, RealPow(Pow(b, k), 0 - n), RealPow(b, 0 - k * n));
  }

  lemma Unique(p: real, x: real, y: real)
    requires p > 0.0 && x * p == 1.0 && y * p == 1.0
    ensures x == y
  {
    assert (x - y) * p == 0.0;
  }

  /** The part of a power that multiplies and the part that divides. */
  function Up(b: nat, e: int): (p: nat)
    ensures b > 0 ==> p > 0
  {
    if e > 0 then Pow(b, e) else 1
  }

  function Down(b: nat, e: int): (p: nat)
    ensures b > 0 ==> p > 0
  {
    if e < 0 then Pow(b, -e) else 1
  }

  lemma UpOverDown(b: nat, e: int)
    requires b > 0
    ensures RealPow(b, e) * Down(b, e) as real == Up(b, e) as real
  {
    if e < 0 {
      RealPowDown(b, -e);
    }
  }
}
