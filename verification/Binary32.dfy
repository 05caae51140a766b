/** Single-precision rounding of whole numbers: 24 significant bits, to nearest, ties to even
    (IEEE 754, binary32). Infinities play no part. */
module Binary32 {

  const PRECISION := 0x100_0000

  /** The spacing of single-precision numbers around `n`, 1 as long as every integer is one. */
  function Ulp(n: nat): (u: nat)
    ensures u > 0
  {
    if n < PRECISION then 1 else 2 * Ulp(n / 2)
  }

  function NearestMultiple(n: nat, u: nat): nat
    requires u > 0
  {
    var q, rem := n / u, n % u;
    if 2 * rem < u || (2 * rem == u && q % 2 == 0) then q * u else (q + 1) * u
  }

  /** `n` as a single-precision number. */
  function Single(n: nat): (f: nat) { NearestMultiple(n, Ulp(n)) }

  // ---------- Rounding ----------

  lemma DivMul(n: nat, u: nat)
    requires u > 0
    ensures n == n / u * u + n % u && n / u * u <= n < (n / u + 1) * u
  {
  }

  lemma MulMonotone(a: int, b: int, u: nat)
    requires a <= b
    ensures a * u <= b * u
  {
  }

  /** A number up to 2^24 is its own rounding. */
  lemma SmallIsExact(n: nat)
    requires n <= PRECISION
    ensures Single(n) == n
  {
    if n == PRECISION {
      assert Ulp(PRECISION / 2) == 1;
      assert Ulp(n) == 2;
    }
  }

  /** So is any multiple of its spacing. */
  lemma MultipleIsExact(q: nat, u: nat)
    requires u > 0 && Ulp(q * u) == u
    ensures Single(q * u) == q * u
  {
    DivMul(q * u, u);
    MultipleDivides(q, u);
  }

  lemma MultipleDivides(q: nat, u: nat)
    requires u > 0
    ensures q * u / u == q && q * u % u == 0
  {
    DivMul(q * u, u);
    var d := q * u / u;
    if d < q { MulMonotone(d + 1, q, u); }
    if d > q { MulMonotone(q + 1, d, u); }
  }

  /** Rounding lands on one of the two neighbouring multiples. */
  lemma NearestBetween(n: nat, u: nat)
    requires u > 0
    ensures var q := n / u; q * u <= NearestMultiple(n, u) <= (q + 1) * u
  {
    MulMonotone(n / u, n / u + 1, u);
  }

  lemma NearestMonotone(a: nat, b: nat, u: nat)
    requires u > 0 && a <= b
    ensures NearestMultiple(a, u) <= NearestMultiple(b, u)
  {
    DivMul(a, u);
    DivMul(b, u);
    NearestBetween(a, u);
    NearestBetween(b, u);
    if a / u > b / u {
      MulMonotone(b / u + 1, a / u, u);
    } else if a / u < b / u {
      MulMonotone(a / u + 1, b / u, u);
    }
  }

  /** The spacing is a power of two that fits 24 bits into the number. */
  lemma {:induction false} UlpBounds(n: nat)
    ensures n < PRECISION * Ulp(n)
    ensures Ulp(n) > 1 ==> PRECISION * Ulp(n) <= 2 * n
    decreases n
  {
    if n >= PRECISION {
      UlpBounds(n / 2);
    }
  }

  lemma {:induction false} UlpSteps(a: nat, b: nat)
    requires a <= b
    ensures Ulp(a) == Ulp(b) || 2 * Ulp(a) <= Ulp(b)
    decreases b
  {
    if a >= PRECISION {
      UlpSteps(a / 2, b / 2);
    }
  }

  /** Rounding keeps the order. */
  lemma SingleMonotone(a: nat, b: nat)
    requires a <= b
    ensures Single(a) <= Single(b)
  {
    UlpSteps(a, b);
    if Ulp(a) == Ulp(b) {
      NearestMonotone(a, b, Ulp(a));
    } else {
      BelowBinade(a);
      AboveBinade(b);
      var u, v := Ulp(a), Ulp(b);
      assert PRECISION * (2 * u) <= PRECISION * v;
    }
  }

  lemma BelowBinade(n: nat)
    ensures Single(n) <= PRECISION * Ulp(n)
  {
    UlpBounds(n);
    DivMul(n, Ulp(n));
    NearestBetween(n, Ulp(n));
    if n / Ulp(n) >= PRECISION { MulMonotone(PRECISION, n / Ulp(n), Ulp(n)); }
    MulMonotone(n / Ulp(n) + 1, PRECISION, Ulp(n));
  }

  lemma AboveBinade(n: nat)
    requires Ulp(n) > 1
    ensures 2 * Single(n) >= PRECISION * Ulp(n)
  {
    var u := Ulp(n);
    UlpBounds(n);
    DivMul(n, u);
    NearestBetween(n, u);
    QuotientAtLeast(n, u, 0x80_0000);
    MulMonotone(0x80_0000, n / u, u);
  }

  lemma QuotientAtLeast(n: nat, u: nat, k: nat)
    requires u > 0 && k * u <= n
    ensures k <= n / u
  {
    DivMul(n, u);
    if n / u < k { MulMonotone(n / u + 1, k, u); }
  }

  /** Numbers of one binade share their spacing. */
  lemma SameBinade(a: nat, b: nat)
    requires a <= b < PRECISION * Ulp(a)
    ensures Ulp(b) == Ulp(a)
  {
    UlpSteps(a, b);
    UlpBounds(b);
  }

  /** A rounded number is a multiple of its own spacing, so rounding it again changes nothing. */
  lemma SingleIsMultiple(n: nat) returns (c: nat)
    ensures var s := Single(n); s == c * Ulp(s) && Single(s) == s
  {
    var s := Single(n);
    UlpBounds(n);
    BelowBinade(n);
    if s == PRECISION * Ulp(n) {
      TopOfBinade(n, s);
      c := 0x80_0000;
    } else {
      InsideBinade(n, s);
      c := NearestQuotient(n, Ulp(n));
    }
    MultipleIsExact(c, Ulp(s));
  }

  lemma NearestQuotient(n: nat, u: nat) returns (c: nat)
    requires u > 0
    ensures NearestMultiple(n, u) == c * u
  {
    c := if NearestMultiple(n, u) == n / u * u then n / u else n / u + 1;
  }

  lemma TopOfBinade(n: nat, s: nat)
    requires n <= s == PRECISION * Ulp(n)
    ensures Ulp(s) == 2 * Ulp(n)
  {
    UlpBounds(s);
    UlpSteps(n, s);
  }

  lemma InsideBinade(n: nat, s: nat)
    requires s == Single(n) < PRECISION * Ulp(n)
    ensures Ulp(s) == Ulp(n)
  {
    var u := Ulp(n);
    if n <= s {
      SameBinade(n, s);
    } else {
      UlpSteps(s, n);
      UlpBounds(s);
      if u > 1 { AboveBinade(n); }
      if u == 1 { SmallIsExact(n); }
    }
  }

  /** One past a rounded number rounds back to it, unless the spacing is 1, or 2 with an odd multiple. */
  lemma OnePast(s: nat, c: nat)
    requires s == c * Ulp(s) && (Ulp(s) >= 4 || (Ulp(s) == 2 && c % 2 == 0))
    ensures Single(s + 1) == s
  {
    var u := Ulp(s);
    UlpBounds(s);
    QuotientBelow(s, c, u);
    SameBinade(s, s + 1);
    DivWithRemainder(s + 1, c, u, 1);
  }

  lemma QuotientBelow(s: nat, c: nat, u: nat)
    requires u > 1 && s == c * u < PRECISION * u
    ensures s + 1 < PRECISION * u
  {
    if c >= PRECISION { MulMonotone(PRECISION, c, u); }
    MulMonotone(c + 1, PRECISION, u);
  }

  lemma DivWithRemainder(n: nat, c: nat, u: nat, rem: nat)
    requires rem < u && n == c * u + rem
    ensures n / u == c && n % u == rem
  {
    DivMul(n, u);
    if n / u < c { MulMonotone(n / u + 1, c, u); }
    if n / u > c { MulMonotone(c + 1, n / u, u); }
  }

  /** From 2^23 on, doubling a number doubles its rounding. */
  lemma SingleDouble(n: nat)
    requires 2 * n >= PRECISION
    ensures Single(2 * n) == 2 * Single(n)
  {
    assert 2 * n / 2 == n;
    NearestDouble(n, Ulp(n));
  }

  lemma NearestDouble(n: nat, u: nat)
    requires u > 0
    ensures NearestMultiple(2 * n, 2 * u) == 2 * NearestMultiple(n, u)
  {
    var q, rem := n / u, n % u;
    DivMul(n, u);
    assert q * (2 * u) == 2 * (q * u);
    DivWithRemainder(2 * n, q, 2 * u, 2 * rem);
    assert (q + 1) * (2 * u) == 2 * ((q + 1) * u);
  }
}
