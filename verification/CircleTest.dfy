/** The circle test of an opaque rounded rectangle, in single precision as the source evaluates it. */
module CircleTest {
  import opened Binary32
  import Cov = Coverage

  function Abs(v: int): nat { if v < 0 then -v else v }

  /** A distance squared in single precision. */
  function Squared(v: int): nat { Single(Single(Abs(v)) * Single(Abs(v))) }

  /** Column `k` of a corner square, `dy` rows from the corner's centre: the rounded sum of squares is
      at most the rounded r * r + 1/2. Both sides are doubled to stay whole. */
  predicate InCircle(k: int, dy: int, r: int) {
    2 * Single(Squared(k - r) + Squared(dy)) <= Single(2 * Squared(r) + 1)
  }

  /** The same test without rounding. */
  predicate Inside(k: int, dy: int, r: int) {
    (k - r) * (k - r) + dy * dy <= r * r
  }

  lemma ProductMonotone(a: nat, b: nat)
    requires a <= b
    ensures a * a <= b * b
  {
  }

  lemma SquaredMonotone(v: int, w: int)
    requires Abs(v) <= Abs(w)
    ensures Squared(v) <= Squared(w)
  {
    SingleMonotone(Abs(v), Abs(w));
    ProductMonotone(Single(Abs(v)), Single(Abs(w)));
    SingleMonotone(Single(Abs(v)) * Single(Abs(v)), Single(Abs(w)) * Single(Abs(w)));
  }

  /** Rounded or not, once a row of a corner is inside the circle it stays inside up to the middle. */
  lemma InsideToTheMiddle(i: int, k: int, dy: int, r: int)
    requires i <= k <= r && InCircle(i, dy, r)
    ensures InCircle(k, dy, r)
  {
    SquaredMonotone(k - r, i - r);
    SingleMonotone(Squared(k - r) + Squared(dy), Squared(i - r) + Squared(dy));
  }

  lemma SquaredExact(v: int)
    requires Abs(v) <= 4096
    ensures Squared(v) == v * v <= PRECISION
  {
    SmallIsExact(Abs(v));
    ProductMonotone(Abs(v), 4096);
    assert Abs(v) * Abs(v) == v * v;
    SmallIsExact(Abs(v) * Abs(v));
  }

  /** The threshold for radii whose square is below 2^24: r * r, and one more when r * r + 1/2 is a tie
      that goes up. */
  lemma Threshold(r: nat)
    requires r < 4096
    ensures Single(2 * (r * r) + 1) / 2 == if r >= 2897 && r % 2 == 1 then r * r + 1 else r * r
  {
    var n := 2 * (r * r) + 1;
    if r <= 2896 {
      ProductMonotone(r, 2896);
      SmallIsExact(n);
    } else {
      ProductMonotone(2897, r);
      ProductMonotone(r, 4095);
      assert n / 2 == r * r && n % 2 == 1;
      assert Ulp(n) == 2;
      SquareParity(r);
    }
  }

  lemma SquareParity(r: nat)
    ensures r * r % 2 == r % 2
  {
    var m := r / 2;
    if r % 2 == 0 {
      assert r * r == 2 * (2 * (m * m));
    } else {
      Halves(m);
      assert r * r == 2 * (2 * (m * m + m)) + 1;
    }
  }

  /** Up to radius 2896, and for even radii below 4096, rounding changes no corner pixel. */
  lemma RoundingHarmless(k: int, dy: int, r: nat)
    requires r < 4096 && 0 <= k <= r && Abs(dy) <= r
    requires r <= 2896 || r % 2 == 0
    ensures InCircle(k, dy, r) <==> Inside(k, dy, r)
  {
    SquaredExact(k - r);
    SquaredExact(dy);
    SquaredExact(r);
    Threshold(r);
    ProductMonotone(r, 4095);
    RoundedSum((k - r) * (k - r) + dy * dy, r * r);
    TestMeans(k, dy, r, (k - r) * (k - r), dy * dy, r * r);
  }

  lemma TestMeans(k: int, dy: int, r: int, x: nat, y: nat, q: nat)
    requires Squared(k - r) == x && Squared(dy) == y && Squared(r) == q && Single(2 * q + 1) / 2 == q
    ensures InCircle(k, dy, r) <==> Single(x + y) <= q
  {
    hide Single;
  }

  /** A sum rounds to at most `q` exactly when it is at most `q`. */
  lemma RoundedSum(sum: nat, q: nat)
    requires q < PRECISION
    ensures Single(sum) <= q <==> sum <= q
  {
    SmallIsExact(q);
    SmallIsExact(q + 1);
    if sum <= q { SingleMonotone(sum, q); } else { SingleMonotone(q + 1, sum); }
  }

  /** For odd radii from 2897 on, the leftmost pixel of the row beside the band is painted although
      its distance squared is r * r + 1. */
  lemma OddRadiusPaintsMore(r: nat)
    requires 2897 <= r < 4096 && r % 2 == 1
    ensures InCircle(0, -1, r) && !Inside(0, -1, r)
  {
    SquaredExact(r);
    SquaredExact(0 - r);
    SquaredExact(-1);
    Threshold(r);
    ProductMonotone(r, 4095);
    SmallIsExact(r * r + 1);
  }

  lemma JustOutside(r: nat)
    ensures !Inside(0, -1, r)
  {
    assert (0 - r) * (0 - r) == r * r;
  }

  lemma RoundedAway(r: nat, q: nat)
    requires Squared(r) == q && Squared(-1) == 1 && Single(q + 1) == q && 2 * q <= Single(2 * q + 1)
    ensures InCircle(0, -1, r)
  {
    assert Squared(0 - r) == Squared(r);
  }

  lemma ThresholdAtLeast(q: nat)
    requires Single(q) == q && 2 * q >= PRECISION
    ensures 2 * q <= Single(2 * q + 1)
  {
    SingleDouble(q);
    SingleMonotone(2 * q, 2 * q + 1);
  }

  lemma LargeSquare(r: nat)
    requires r >= 4096
    ensures Squared(r) >= PRECISION
  {
    SquaredMonotone(4096, r);
    SquaredExact(4096);
  }

  /** So it is for every radius from 4096 on. */
  lemma LargeRadiusPaintsMore(r: nat)
    requires r >= 4096
    ensures InCircle(0, -1, r) && !Inside(0, -1, r)
  {
    var q := Squared(r);
    JustOutside(r);
    SquaredExact(-1);
    var c := SquareIsEven(r);
    OnePast(q, c);
    LargeSquare(r);
    ThresholdAtLeast(q);
    RoundedAway(r, q);
  }

  /** The rounded square of such a radius is a multiple of 4. */
  lemma SquareIsEven(r: nat) returns (c: nat)
    requires r >= 4096
    ensures var q := Squared(r);
            Single(q) == q == c * Ulp(q) && (Ulp(q) >= 4 || (Ulp(q) == 2 && c % 2 == 0))
  {
    var d := Single(r);
    c := SingleIsMultiple(d * d);
    if r < 5793 {
      c := NarrowSquare(r);
    } else {
      WideSquare(r);
    }
  }

  lemma WideSquare(r: nat)
    requires r >= 5793
    ensures Ulp(Squared(r)) >= 4
  {
    SmallIsExact(5793);
    SquareOf5793();
    SquaredMonotone(5793, r);
    UlpSteps(0x200_0000, Squared(r));
    assert Ulp(0x80_0000) == 1 && Ulp(0x100_0000) == 2 && Ulp(0x200_0000) == 4;
  }

  lemma SquareOf5793()
    ensures Squared(5793) >= 0x200_0000
  {
    SmallIsExact(5793);
    assert 5793 * 5793 == 33558849;
    SingleMonotone(0x200_0000, 33558849);
    assert Ulp(0x80_0000) == 1 && Ulp(0x100_0000) == 2 && Ulp(0x200_0000) == 4;
    assert Single(0x200_0000) == 0x200_0000;
  }

  /** For r from 4096 to 5792 the spacing is 2 and r * r / 2 is even. */
  lemma NarrowSquare(r: nat) returns (c: nat)
    requires 4096 <= r < 5793
    ensures var q := Squared(r); q == c * Ulp(q) && Ulp(q) == 2 && c % 2 == 0
  {
    SmallIsExact(r);
    ProductMonotone(4096, r);
    ProductMonotone(r, 5792);
    assert 5792 * 5792 == 33547264;
    var n := r * r;
    assert Ulp(n / 2) == 1 && Ulp(n) == 2;
    c := HalfSquareEven(r);
    assert Squared(r) == c * 2;
    assert Ulp(c) == 1 && Ulp(c * 2) == 2;
  }

  lemma HalfSquareEven(r: nat) returns (c: nat)
    ensures c == r * r / 2 && c % 2 == 0 && r * r - 2 * c <= 1
  {
    var m := r / 2;
    c := r * r / 2;
    if r % 2 == 0 {
      assert r * r == 2 * (2 * (m * m));
    } else {
      Halves(m);
      assert r * r == 2 * (2 * (m * m + m)) + 1;
    }
  }

  lemma Halves(m: nat)
    ensures (2 * m + 1) * (2 * m + 1) == 2 * (2 * (m * m + m)) + 1
  {
  }

  /** Rounding changes no corner pixel exactly for radii up to 2896 and even ones below 4096. */
  lemma RoundingHarmlessExactly(r: nat)
    ensures (forall k, dy | 0 <= k <= r && Abs(dy) <= r :: InCircle(k, dy, r) <==> Inside(k, dy, r)) <==>
            (r <= 2896 || (r < 4096 && r % 2 == 0))
  {
    if r <= 2896 || (r < 4096 && r % 2 == 0) {
      forall k, dy | 0 <= k <= r && Abs(dy) <= r ensures InCircle(k, dy, r) <==> Inside(k, dy, r) {
        RoundingHarmless(k, dy, r);
      }
    } else {
      if r < 4096 { OddRadiusPaintsMore(r); } else { LargeRadiusPaintsMore(r); }
      assert Abs(-1) <= r;
    }
  }
}
