/** Subpixel coverage of a rounded rectangle. A pixel is sampled on a 4x4 grid; all distances
    are in eighths of a pixel, where every sample coordinate is an integer. */
module Coverage {
  import opened Basics

  /** 1 when the sample at (dx, dy) from its corner centre is within radius `r`. */
  function Hit(dx: int, dy: int, r: int): int {
    if dx * dx + dy * dy <= r * r * 64 then 1 else 0
  }

  function RowHits(dx: int -> int, n: nat, dy: int, r: int): (c: int)
    ensures 0 <= c <= n
  {
    if n == 0 then 0 else RowHits(dx, n - 1, dy, r) + Hit(dx(n - 1), dy, r)
  }

  /** Hits in the first `n` rows of samples, each row with four columns. */
  function Hits(dx: int -> int, dy: int -> int, n: nat, r: int): (c: int)
    ensures 0 <= c <= 4 * n
  {
    if n == 0 then 0 else Hits(dx, dy, n - 1, r) + RowHits(dx, 4, dy(n - 1), r)
  }

  /** Signed distance of sample `s` of pixel `i` from the straight part of a side of length `w`. */
  function Distance(i: int, w: int, r: int): int -> int {
    s => var p := i * 8 + s * 2 + 1; p - Clamp(p, r * 8, (w - r) * 8)
  }

  /** The oracle: how many of the 16 samples of pixel (i, j), counted from the rectangle's
      corner, lie inside. */
  function Oracle(i: int, j: int, w: int, h: int, r: int): (c: int)
    ensures 0 <= c <= 16
  {
    Hits(Distance(i, w, r), Distance(j, h, r), 4, r)
  }

  /** The fast form's corner formula, for the top left corner square. */
  function CornerDistance(i: int, r: int): int -> int {
    s => (i - r) * 8 + s * 2 + 1
  }

  function Corner(i: int, j: int, r: int): (c: int)
    ensures 0 <= c <= 16
  {
    Hits(CornerDistance(i, r), CornerDistance(j, r), 4, r)
  }

  function Fold(i: int, w: int, r: int): int {
    if i >= r then w - 1 - i else i
  }

  /** What the fast renderer computes for a pixel. */
  function Fast(i: int, j: int, w: int, h: int, r: int): int {
    if r <= i < w - r || r <= j < h - r then 16
    else Corner(Fold(i, w, r), Fold(j, h, r), r)
  }

  predicate Fits(w: int, h: int, r: int) {
    0 <= r && 2 * r <= w && 2 * r <= h
  }

  // ---------- The distances ----------

  lemma Square(x: int)
    ensures (-x) * (-x) == x * x >= 0
  {
  }

  lemma SquareMonotone(x: int, y: int)
    requires -y <= x <= y
    ensures x * x <= y * y
  {
    assert (y - x) * (y + x) == y * y - x * x;
    assert (y - x) * (y + x) >= 0;
  }

  /** Along one side: the distance is 0 in the band, never more than `r`, and in the corner
      parts it is the corner formula, read backwards and negated on the far side. */
  lemma DistanceCases(i: int, w: int, r: int, s: int)
    requires 0 <= i < w && 0 <= 2 * r <= w && 0 <= s < 4
    ensures r <= i < w - r ==> Distance(i, w, r)(s) == 0
    ensures -8 * r <= Distance(i, w, r)(s) <= 8 * r
    ensures i < r ==> Distance(i, w, r)(s) == CornerDistance(i, r)(s)
    ensures i >= w - r && i >= r ==> Distance(i, w, r)(s) == -CornerDistance(Fold(i, w, r), r)(3 - s)
  {
  }

  // ---------- Rows and grids of samples ----------

  lemma RowFour(dx: int -> int, dy: int, r: int)
    ensures RowHits(dx, 4, dy, r) == Hit(dx(0), dy, r) + Hit(dx(1), dy, r) + Hit(dx(2), dy, r) + Hit(dx(3), dy, r)
  {
    assert RowHits(dx, 1, dy, r) == Hit(dx(0), dy, r);
    assert RowHits(dx, 2, dy, r) == RowHits(dx, 1, dy, r) + Hit(dx(1), dy, r);
    assert RowHits(dx, 3, dy, r) == RowHits(dx, 2, dy, r) + Hit(dx(2), dy, r);
  }

  lemma GridFour(dx: int -> int, dy: int -> int, r: int)
    ensures Hits(dx, dy, 4, r) ==
            RowHits(dx, 4, dy(0), r) + RowHits(dx, 4, dy(1), r) + RowHits(dx, 4, dy(2), r) + RowHits(dx, 4, dy(3), r)
  {
    assert Hits(dx, dy, 1, r) == RowHits(dx, 4, dy(0), r);
    assert Hits(dx, dy, 2, r) == Hits(dx, dy, 1, r) + RowHits(dx, 4, dy(1), r);
    assert Hits(dx, dy, 3, r) == Hits(dx, dy, 2, r) + RowHits(dx, 4, dy(2), r);
  }

  /** `f` and `g` agree on the four samples up to order and sign: they are equal, or one is the
      other read backwards and negated. */
  predicate SameOrMirrored(f: int -> int, g: int -> int) {
    || (f(0) == g(0) && f(1) == g(1) && f(2) == g(2) && f(3) == g(3))
    || (f(0) == -g(3) && f(1) == -g(2) && f(2) == -g(1) && f(3) == -g(0))
  }

  lemma HitEven(dx: int, dy: int, r: int)
    ensures Hit(-dx, dy, r) == Hit(dx, dy, r) == Hit(dx, -dy, r)
  {
    Square(dx);
    Square(dy);
  }

  lemma RowEven(dx: int -> int, dy: int, r: int)
    ensures RowHits(dx, 4, -dy, r) == RowHits(dx, 4, dy, r)
  {
    RowFour(dx, dy, r);
    RowFour(dx, -dy, r);
    HitEven(dx(0), dy, r);
    HitEven(dx(1), dy, r);
    HitEven(dx(2), dy, r);
    HitEven(dx(3), dy, r);
  }

  lemma RowMirror(f: int -> int, g: int -> int, dy: int, r: int)
    requires SameOrMirrored(f, g)
    ensures RowHits(f, 4, dy, r) == RowHits(g, 4, dy, r)
  {
    RowFour(f, dy, r);
    RowFour(g, dy, r);
    HitEven(g(0), dy, r);
    HitEven(g(1), dy, r);
    HitEven(g(2), dy, r);
    HitEven(g(3), dy, r);
  }

  /** Reflecting a corner left to right, top to bottom or both changes no count. */
  lemma GridMirror(fx: int -> int, gx: int -> int, fy: int -> int, gy: int -> int, r: int)
    requires SameOrMirrored(fx, gx) && SameOrMirrored(fy, gy)
    ensures Hits(fx, fy, 4, r) == Hits(gx, gy, 4, r)
  {
    GridFour(fx, fy, r);
    GridFour(gx, gy, r);
    RowMirror(fx, gx, fy(0), r);
    RowMirror(fx, gx, fy(1), r);
    RowMirror(fx, gx, fy(2), r);
    RowMirror(fx, gx, fy(3), r);
    RowEven(gx, gy(0), r);
    RowEven(gx, gy(1), r);
    RowEven(gx, gy(2), r);
    RowEven(gx, gy(3), r);
  }

  /** One side in its band: every sample of the pixel is inside. */
  lemma BandFull(dx: int -> int, dy: int -> int, r: int)
    requires forall s | 0 <= s < 4 :: dx(s) == 0 && -8 * r <= dy(s) <= 8 * r
    ensures Hits(dx, dy, 4, r) == 16 && Hits(dy, dx, 4, r) == 16
  {
    forall s | 0 <= s < 4 ensures Hit(0, dy(s), r) == 1 && Hit(dy(s), 0, r) == 1 {
      SquareMonotone(dy(s), 8 * r);
      assert (8 * r) * (8 * r) == r * r * 64;
    }
    forall s { RowFour(dx, dy(s), r); }
    RowFour(dy, 0, r);
    GridFour(dx, dy, r);
    GridFour(dy, dx, r);
  }

  /** The fast form counts what the oracle counts, for every pixel of every rounded rectangle. */
  lemma FastIsOracle(i: int, j: int, w: int, h: int, r: int)
    requires 0 <= i < w && 0 <= j < h && Fits(w, h, r)
    ensures Fast(i, j, w, h, r) == Oracle(i, j, w, h, r)
  {
    var dx, dy := Distance(i, w, r), Distance(j, h, r);
    forall s | 0 <= s < 4
      ensures -8 * r <= dx(s) <= 8 * r && -8 * r <= dy(s) <= 8 * r
      ensures (r <= i < w - r ==> dx(s) == 0) && (r <= j < h - r ==> dy(s) == 0)
    {
      DistanceCases(i, w, r, s);
      DistanceCases(j, h, r, s);
    }
    if r <= i < w - r {
      BandFull(dx, dy, r);
    } else if r <= j < h - r {
      BandFull(dy, dx, r);
    } else {
      var cx, cy := CornerDistance(Fold(i, w, r), r), CornerDistance(Fold(j, h, r), r);
      SideMirror(i, w, r);
      SideMirror(j, h, r);
      GridMirror(dx, cx, dy, cy, r);
    }
  }

  lemma SideMirror(i: int, w: int, r: int)
    requires 0 <= i < w && 0 <= 2 * r <= w && !(r <= i < w - r)
    ensures SameOrMirrored(Distance(i, w, r), CornerDistance(Fold(i, w, r), r))
    ensures 0 <= Fold(i, w, r) < r
  {
    DistanceCases(i, w, r, 0);
    DistanceCases(i, w, r, 1);
    DistanceCases(i, w, r, 2);
    DistanceCases(i, w, r, 3);
  }

  /** Every lookup of the fast form is inside the corner square. */
  lemma CornerIndexInSquare(i: int, j: int, w: int, h: int, r: int)
    requires 0 <= i < w && 0 <= j < h && Fits(w, h, r)
    requires !(r <= i < w - r || r <= j < h - r)
    ensures 0 <= Fold(i, w, r) < r && 0 <= Fold(j, h, r) < r
  {
  }
}
