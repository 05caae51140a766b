/** Pixels far enough from the edges of a rounded rectangle to be covered whole. */
module DeepPixels {
  import Cov = Coverage

  /** A pixel this far from the edges is inside the panel's rounding (radius 28), a tile's
      (radius 20) or a dot's (radius 6). */
  predicate DeepEnough(r: int, margin: int) {
    (r == 28 && margin == 16) || (r == 20 && margin == 12) || (r == 6 && margin == 2)
  }

  /** A corner pixel is full when the far corner of its sample grid is inside. */
  lemma CornerFull(i: int, j: int, r: int, margin: int)
    requires DeepEnough(r, margin) && margin <= i < r && margin <= j < r
    ensures Cov.Corner(i, j, r) == 16
  {
    hide Cov.Hit, Cov.RowHits, Cov.Hits;
    var dx, dy := Cov.CornerDistance(i, r), Cov.CornerDistance(j, r);
    RowFull(dx, dy(0), r, margin);
    RowFull(dx, dy(1), r, margin);
    RowFull(dx, dy(2), r, margin);
    RowFull(dx, dy(3), r, margin);
    Cov.GridFour(dx, dy, r);
  }

  lemma RowFull(dx: int -> int, b: int, r: int, margin: int)
    requires DeepEnough(r, margin) && Near(b, r, margin)
    requires Near(dx(0), r, margin) && Near(dx(1), r, margin) && Near(dx(2), r, margin) && Near(dx(3), r, margin)
    ensures Cov.RowHits(dx, 4, b, r) == 4
  {
    hide Cov.Hit, Cov.RowHits;
    SampleFull(dx(0), b, r, margin);
    SampleFull(dx(1), b, r, margin);
    SampleFull(dx(2), b, r, margin);
    SampleFull(dx(3), b, r, margin);
    Cov.RowFour(dx, b, r);
  }

  /** A distance that a sample of such a pixel can have along one side. */
  predicate Near(a: int, r: int, margin: int) { -((r - margin) * 8 - 1) <= a <= (r - margin) * 8 - 1 }

  lemma SampleFull(a: int, b: int, r: int, margin: int)
    requires DeepEnough(r, margin) && Near(a, r, margin) && Near(b, r, margin)
    ensures Cov.Hit(a, b, r) == 1
  {
    Cov.SquareMonotone(a, (r - margin) * 8 - 1);
    Cov.SquareMonotone(b, (r - margin) * 8 - 1);
  }

  /** So is every pixel far enough from the edges of the rectangle. */
  lemma FullInside(i: int, j: int, w: int, h: int, r: int, margin: int)
    requires Cov.Fits(w, h, r) && DeepEnough(r, margin)
    requires margin <= i < w - margin && margin <= j < h - margin
    ensures Cov.Oracle(i, j, w, h, r) == 16
  {
    Cov.FastIsOracle(i, j, w, h, r);
    if !(r <= i < w - r || r <= j < h - r) {
      CornerFull(Cov.Fold(i, w, r), Cov.Fold(j, h, r), r, margin);
    }
  }
}
