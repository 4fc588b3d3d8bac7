/** Rounding of natural numbers to 64-bit floating point, as in Python's product of an integer and a float. */
module Doubles {
  /** One more than the largest significand. */
  const SIGNIFICANDS: nat := 0x20_0000_0000_0000

  /** The spacing of doubles around `n`: the first of `u`, `2u`, ... under which `n` fits a significand. */
  function Spacing(n: nat, u: nat): (r: nat)
    requires u > 0
    ensures r >= u && n < SIGNIFICANDS * r
    ensures r == u || SIGNIFICANDS * r <= 2 * n
    decreases if SIGNIFICANDS * u <= n then n - u else 0
  {
    if n < SIGNIFICANDS * u then u else Spacing(n, 2 * u)
  }

  /** The nearest double, ties to even. */
  function Rounded(n: nat): nat {
    var u := Spacing(n, 1);
    var q, r := n / u, n % u;
    if 2 * r < u || (2 * r == u && q % 2 == 0) then n - r else n - r + u
  }

  /** Numbers below 2^53 are doubles, and rounding never moves a number by more than one part in 2^53. */
  lemma RoundedNear(n: nat)
    ensures n < SIGNIFICANDS ==> Rounded(n) == n
    ensures 2 * Rounded(n) >= n && Rounded(n) <= 2 * n
    ensures SIGNIFICANDS * Rounded(n) >= (SIGNIFICANDS - 1) * n && SIGNIFICANDS * Rounded(n) <= (SIGNIFICANDS + 1) * n
  {
    var u := Spacing(n, 1);
    var r := n % u;
    assert 0 <= r < u;
    assert u == 1 || SIGNIFICANDS * u <= 2 * n;
  }

  // ------------------------------------------------------------- nearest, ties to even

  function Power2(e: nat): (r: nat)
    ensures r > 0
  {
    if e == 0 then 1 else 2 * Power2(e - 1)
  }

  /** A significand below 2^53 times a power of two. */
  ghost predicate IsDouble(m: nat, k: nat, e: nat) {
    k < 0x20_0000_0000_0000 && m == k * Power2(e)
  }

  lemma {:induction false} SpacingIsPower(n: nat, d: nat) returns (e: nat)
    ensures e >= d && Spacing(n, Power2(d)) == Power2(e)
    decreases if SIGNIFICANDS * Power2(d) <= n then n - Power2(d) else 0
  {
    e := d;
    if n >= SIGNIFICANDS * Power2(d) {
      e := SpacingIsPower(n, d + 1);
    }
  }

  lemma {:induction false} PowerMultiple(d: nat, e: nat) returns (c: nat)
    requires d <= e
    ensures Power2(e) == c * Power2(d) && c > 0
    decreases e
  {
    c := 1;
    if d < e {
      var b := PowerMultiple(d, e - 1);
      c := 2 * b;
    }
  }

  /** A multiple of `u` is at least as far from `n` as the nearer of its two neighbours. */
  lemma MultiplesAreFar(n: nat, u: nat, j: nat)
    requires u > 0
    ensures j * u <= n ==> n - j * u >= n % u
    ensures j * u > n ==> j * u - n >= u - n % u
  {
    var q, r := n / u, n % u;
    assert n == q * u + r;
    if j <= q {
      assert (q - j) * u >= 0;
    } else {
      assert (j - q - 1) * u >= 0;
    }
  }

  function Distance(a: nat, b: nat): nat {
    if a < b then b - a else a - b
  }

  ghost predicate MultipleOf(m: nat, w: nat) {
    exists h :: 0 <= h && m == h * w
  }

  /** The product is rounded to a double, no double is nearer, and between two as near the even one is taken. */
  lemma {:induction false} RoundedNearest(n: nat)
    ensures exists k, e :: IsDouble(Rounded(n), k, e)
    ensures forall m, k, e :: IsDouble(m, k, e) ==> Distance(Rounded(n), n) <= Distance(m, n)
    ensures var u := Spacing(n, 1); 2 * (n % u) == u ==> MultipleOf(Rounded(n), 2 * u)
  {
    var d := SpacingIsPower(n, 0);
    var u := Power2(d);
    assert Power2(0) == 1 && u == Spacing(n, 1);
    RoundedIsDouble(n, u, d);
    forall m, k, e | IsDouble(m, k, e)
      ensures Distance(Rounded(n), n) <= Distance(m, n)
    {
      NoneNearer(n, u, d, m, k, e);
    }
    TieIsEven(n, u);
  }

  lemma RoundedMultiple(n: nat, u: nat) returns (k: nat)
    requires u == Spacing(n, 1)
    ensures Rounded(n) == k * u && n / u <= k <= n / u + 1 && (2 * (n % u) == u ==> k % 2 == 0)
  {
    var q, r := n / u, n % u;
    assert n - r == q * u;
    k := q;
    if !(2 * r < u || (2 * r == u && q % 2 == 0)) {
      k := q + 1;
      assert k * u == q * u + u;
    }
  }

  lemma {:induction false} TieIsEven(n: nat, u: nat)
    requires u == Spacing(n, 1)
    ensures 2 * (n % u) == u ==> MultipleOf(Rounded(n), 2 * u)
  {
    var k := RoundedMultiple(n, u);
    if 2 * (n % u) == u {
      var h := k / 2;
      Regroup(h, u);
      assert k == 2 * h;
      assert Rounded(n) == h * (2 * u);
    }
  }

  lemma Regroup(h: nat, u: nat)
    ensures (2 * h) * u == h * (2 * u)
  {
  }

  lemma ProductGrows(a: nat, b: nat, u: nat)
    requires a <= b
    ensures a * u <= b * u
  {
    assert b * u - a * u == (b - a) * u;
  }

  lemma QuotientFits(n: nat, u: nat)
    requires u > 0 && n < SIGNIFICANDS * u
    ensures n / u < SIGNIFICANDS
  {
    var q := n / u;
    assert q * u <= n;
    if q >= SIGNIFICANDS {
      ProductGrows(SIGNIFICANDS, q, u);
    }
  }

  lemma {:induction false} RoundedIsDouble(n: nat, u: nat, d: nat)
    requires u == Spacing(n, 1) == Power2(d)
    ensures exists k, e :: IsDouble(Rounded(n), k, e)
  {
    var k := RoundedMultiple(n, u);
    QuotientFits(n, u);
    if k < SIGNIFICANDS {
      assert IsDouble(Rounded(n), k, d);
    } else {
      var half := SIGNIFICANDS / 2;
      Regroup(half, u);
      assert k == 2 * half;
      assert Rounded(n) == half * (2 * u) == half * Power2(d + 1);
      assert IsDouble(Rounded(n), half, d + 1);
    }
  }

  lemma {:induction false} NoneNearer(n: nat, u: nat, d: nat, m: nat, k: nat, e: nat)
    requires u == Spacing(n, 1) == Power2(d) && IsDouble(m, k, e)
    ensures Distance(Rounded(n), n) <= Distance(m, n)
  {
    if d <= e {
      var c := PowerMultiple(d, e);
      Associate(k, c, u);
      MultiplesAreFar(n, u, k * c);
    } else {
      var c := PowerMultiple(e, d - 1);
      ProductGrows(1, c, Power2(e));
      ProductGrows(k, SIGNIFICANDS, Power2(e));
      assert 2 * m <= SIGNIFICANDS * u <= 2 * n;
      HalfIsFar(n, u);
    }
  }

  lemma Associate(k: nat, c: nat, u: nat)
    ensures k * (c * u) == (k * c) * u
  {
  }

  /** Half the significands times the spacing is a multiple of it that does not pass `n`. */
  lemma HalfIsFar(n: nat, u: nat)
    requires u > 0 && SIGNIFICANDS * u <= 2 * n
    ensures (SIGNIFICANDS / 2) * u <= n && n - (SIGNIFICANDS / 2) * u >= n % u
  {
    MultiplesAreFar(n, u, SIGNIFICANDS / 2);
  }
}
