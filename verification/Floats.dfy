/** Rounding to double precision: 53 significant bits, ties to even, and no limit on the exponent. */
module Floats {
  const BIT52: real := 4503599627370496.0
  const BIT53: real := 9007199254740992.0

  function Magnitude(x: real): (m: real)
    ensures 0.0 <= m && (m == x || m == -x)
  {
    if x < 0.0 then -x else x
  }

  /** The nearest integer; of two, the even one. */
  function Nearest(x: real): int {
    var f := x.Floor;
    var d := x - f as real;
    if d < 0.5 || (d == 0.5 && f % 2 == 0) then f else f + 1
  }

  /** No integer is nearer, and of two as near the even one is taken. */
  lemma NearestIs(x: real, k: int)
    ensures Magnitude(x - Nearest(x) as real) <= Magnitude(x - k as real)
    ensures k != Nearest(x) && Magnitude(x - Nearest(x) as real) == Magnitude(x - k as real) ==> Nearest(x) % 2 == 0
  {
    var f := x.Floor;
    assert f as real <= x < f as real + 1.0;
    if k <= f {
      assert k as real <= f as real;
    } else {
      assert (f + 1) as real <= k as real;
    }
  }

  /** How far `x` is from having 53 bits before the point. */
  function Away(x: real): (n: nat)
    ensures n == 0 <==> x == 0.0 || BIT52 <= Magnitude(x) < BIT53
  {
    var m := Magnitude(x);
    if x == 0.0 then 0
    else if m < BIT52 then Inverse(m); (BIT52 / m).Floor
    else if m < BIT53 then 0
    else (m / BIT53).Floor
  }

  lemma Inverse(m: real)
    requires 0.0 < m < BIT52
    ensures 1.0 < BIT52 / m && BIT52 / (2.0 * m) == BIT52 / m / 2.0
  {
    var y := BIT52 / m;
    assert y * m == BIT52;
    assert y / 2.0 * (2.0 * m) == BIT52;
  }

  lemma Halves(y: real)
    requires 1.0 <= y
    ensures (y / 2.0).Floor < y.Floor
  {
  }

  lemma Nearer(x: real)
    requires x != 0.0
    ensures Magnitude(x) < BIT52 ==> Away(2.0 * x) < Away(x)
    ensures BIT53 <= Magnitude(x) ==> Away(x / 2.0) < Away(x)
  {
    var m := Magnitude(x);
    if m < BIT52 {
      Inverse(m);
      Halves(BIT52 / m);
    } else if BIT53 <= m {
      Halves(m / BIT53);
    }
  }

  function Rounded(x: real): real
    decreases Away(x)
  {
    if x == 0.0 then 0.0
    else if Magnitude(x) < BIT52 then Nearer(x); Rounded(2.0 * x) / 2.0
    else if Magnitude(x) < BIT53 then Nearest(x) as real
    else Nearer(x); 2.0 * Rounded(x / 2.0)
  }

  lemma NearestBetween(x: real, n: int)
    ensures x <= n as real ==> Nearest(x) <= n
    ensures n as real <= x ==> n <= Nearest(x)
  {
  }

  lemma Twice(k: int)
    ensures (2 * k) as real == 2.0 * k as real
  {
  }

  /** One more or one less bit before the point. */
  lemma RoundedStep(x: real)
    requires x != 0.0
    ensures Magnitude(x) < BIT52 ==> Away(2.0 * x) < Away(x) && Rounded(x) == Rounded(2.0 * x) / 2.0
    ensures BIT53 <= Magnitude(x) ==> Away(x / 2.0) < Away(x) && Rounded(x) == 2.0 * Rounded(x / 2.0)
  {
    Nearer(x);
  }

  /** Rounding does not pass a whole number of up to 53 bits. */
  lemma {:induction false} RoundedBetween(x: real, n: int)
    requires -9007199254740992 <= n <= 9007199254740992
    ensures x <= n as real ==> Rounded(x) <= n as real
    ensures n as real <= x ==> n as real <= Rounded(x)
    decreases Away(x)
  {
    if x == 0.0 {
    } else if Magnitude(x) < BIT52 {
      hide Rounded, Away;
      RoundedStep(x);
      var k := if n < -4503599627370496 then -4503599627370496 else if 4503599627370496 < n then 4503599627370496 else n;
      RoundedBetween(2.0 * x, 2 * k);
      Twice(k);
    } else if Magnitude(x) < BIT53 {
      NearestBetween(x, n);
    } else {
      hide Rounded, Away;
      RoundedStep(x);
      RoundedBetween(x / 2.0, if x < 0.0 then -4503599627370496 else 4503599627370496);
    }
  }

  function Power2(k: nat): (r: real)
    ensures 1.0 <= r
  {
    if k == 0 then 1.0 else 2.0 * Power2(k - 1)
  }

  /** Rounding a fraction: shifted until 53 bits stand before the point, rounded there. */
  lemma {:induction false} RoundedShifted(x: real, k: nat, y: real)
    requires 0.0 < x && y == x * Power2(k) && BIT52 <= y < BIT53
    ensures Rounded(x) * Power2(k) == Nearest(y) as real
    decreases k
  {
    hide Rounded, Away, Power2, Nearest;
    if k == 0 {
      NoShift(x, y);
    } else {
      Shift(x, k);
      ShiftHalf(Rounded(2.0 * x), k);
      RoundedStep(x);
      RoundedShifted(2.0 * x, k - 1, y);
    }
  }

  lemma Shift(x: real, k: nat)
    requires 0 < k && 0.0 < x && x * Power2(k) < BIT53
    ensures x * Power2(k) == 2.0 * x * Power2(k - 1) && x < BIT52
  {
    assert Power2(k) == 2.0 * Power2(k - 1);
    var p := Power2(k - 1);
    assert x * p < BIT52;
    assert x <= x * p;
  }

  lemma NoShift(x: real, y: real)
    requires y == x * Power2(0) && BIT52 <= y < BIT53
    ensures Rounded(x) * Power2(0) == Nearest(y) as real
  {
    assert Power2(0) == 1.0;
    assert x * 1.0 == x;
  }

  lemma ShiftHalf(r: real, k: nat)
    requires 0 < k
    ensures r / 2.0 * Power2(k) == r * Power2(k - 1)
  {
    var p := Power2(k - 1);
    assert r / 2.0 * (2.0 * p) == r * p;
  }

  lemma Fifty2()
    ensures Power2(52) == BIT52
  {
    assert Power2(13) == 8192.0;
    assert Power2(26) == 67108864.0;
    assert Power2(39) == 549755813888.0;
  }

  /** 53 bits and no more: above 2^53 odd numbers are ties, and just below 2^53 halves are. */
  lemma Precision()
    ensures Rounded(9007199254740993.0) == 9007199254740992.0 && Rounded(9007199254740995.0) == 9007199254740996.0
    ensures Rounded(9007199254740991.5) == 9007199254740992.0 && Rounded(4503599627370495.5) == 4503599627370495.5
  {
    RoundedStep(9007199254740993.0);
    RoundedStep(9007199254740995.0);
    RoundedStep(4503599627370495.5);
  }
}
