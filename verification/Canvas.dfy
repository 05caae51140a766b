/** The software canvas: a row-major pixel buffer with a clip, written by the primitives of
    canvas.c and canvas_blend.c. Each primitive is specified by what it does to every pixel. */
module Canvases {
  import opened CArithmetic
  import opened Pixels
  import Circle = CircleTest
  import Float = Binary32
  import Cov = Coverage

  /** Size and clip of a canvas. A clip of no width means none. */
  datatype View = View(w: int, h: int, clipX: int, clipY: int, clipW: int, clipH: int) {
    predicate Contains(x: int, y: int) { 0 <= x < w && 0 <= y < h }

    predicate Visible(x: int, y: int) {
      Contains(x, y) && (clipW <= 0 || (clipX <= x < clipX + clipW && clipY <= y < clipY + clipH))
    }
  }

  datatype Box = Box(x: int, y: int, w: int, h: int) {
    predicate Has(i: int, j: int) { x <= i < x + w && y <= j < y + h }
  }

  // ---------- What each primitive does to the pixel at (i, j) ----------

  function BlendAt(v: View, col: Pixel, i: int, j: int, dst: Pixel): Pixel {
    if v.Visible(i, j) then Over(dst, col) else dst
  }

  function RectAt(v: View, b: Box, col: Pixel, i: int, j: int, dst: Pixel): Pixel {
    if b.Has(i, j) then BlendAt(v, col, i, j, dst) else dst
  }

  /** The radius a blended rounded rectangle uses: cut to half of each side. */
  function BlendRadius(b: Box, r: int): (rr: int)
    requires b.w > 0 && b.h > 0
    ensures Cov.Fits(b.w, b.h, rr)
  {
    var r0 := if r < 0 then 0 else r;
    var r1 := if r0 > b.w / 2 then b.w / 2 else r0;
    if r1 > b.h / 2 then b.h / 2 else r1
  }

  /** The colour with its alpha scaled by `inside` of 16 samples. */
  function Faded(col: Pixel, inside: int): Pixel
    requires 0 <= inside <= 16
  {
    Alpha(col) * inside / 16 * 0x100_0000 + col % 0x100_0000
  }

  /** The reference renderer: every pixel of the rectangle is composited once, with its 4x4
      coverage. */
  function RoundAt(v: View, b: Box, r: int, col: Pixel, i: int, j: int, dst: Pixel): Pixel {
    if b.Has(i, j) then
      BlendAt(v, Faded(col, Cov.Oracle(i - b.x, j - b.y, b.w, b.h, BlendRadius(b, r))), i, j, dst)
    else dst
  }

  lemma FadedFull(col: Pixel)
    ensures Faded(col, 16) == col
  {
    assert Alpha(col) * 16 / 16 == Alpha(col);
  }

  /** The faded colour has the share of the alpha that its samples are of 16, less than one step below
      it, and the colour itself. */
  lemma FadedShare(col: Pixel, inside: int)
    requires 0 <= inside <= 16
    ensures var f := Faded(col, inside);
            && 16 * Alpha(f) <= Alpha(col) * inside < 16 * Alpha(f) + 16
            && Red(f) == Red(col) && Green(f) == Green(col) && Blue(f) == Blue(col)
  {
    hide Alpha, Red, Green, Blue, Pack;
    var a := Alpha(col) * inside / 16;
    MulBounds(Alpha(col), inside, 0, 255);
    DivBetween(Alpha(col) * inside, 16, 0, 255);
    ColourPacks(col, a);
    UnpackPack(a, Red(col), Green(col), Blue(col));
  }

  lemma ColourPacks(col: Pixel, a: int)
    requires 0 <= a < 256
    ensures a * 0x100_0000 + col % 0x100_0000 == Pack(a, Red(col), Green(col), Blue(col))
  {
    PackUnpack(col);
    DivTwice(col);
  }

  // ---------- Opaque spans ----------

  /** The radius an opaque rounded rectangle uses. Widths may be negative here, so the halves
      are C's. */
  function SpanRadius(b: Box, r: int): int {
    var r0 := if r < 0 then 0 else r;
    var r1 := if 2 * r0 > b.w then TruncDiv(b.w, 2) else r0;
    if 2 * r1 > b.h then TruncDiv(b.h, 2) else r1
  }

  /** The per-pixel test the row spans replace, for pixel (i, j) of the rectangle. */
  predicate InRound(b: Box, r: int, i: int, j: int) {
    && 0 <= i < b.w && 0 <= j < b.h
    && var rr := SpanRadius(b, r);
       var k := if i < b.w - 1 - i then i else b.w - 1 - i;
       var cy := if j < rr then rr else b.h - 1 - rr;
       k >= rr || rr <= j < b.h - rr || Circle.InCircle(k, j - cy, rr)
  }

  /** `first` is where row `j` begins when scanning in from the left, at most the radius. */
  ghost predicate FirstInside(r: int, dy: int, first: int) {
    && 0 <= first <= r
    && (first < r ==> Circle.InCircle(first, dy, r))
    && (forall i | 0 <= i < first :: !Circle.InCircle(i, dy, r))
  }

  /** The nearer of the distances from column `i` to the two sides. */
  function Fold(i: int, w: int): int { if i < w - 1 - i then i else w - 1 - i }

  lemma InRoundCorner(b: Box, r: int, i: int, j: int, dy: int)
    requires 0 <= i < b.w && 0 <= j < b.h
    requires var rr := SpanRadius(b, r); !(rr <= j < b.h - rr) && dy == j - (if j < rr then rr else b.h - 1 - rr)
    ensures var rr, k := SpanRadius(b, r), Fold(i, b.w); InRound(b, r, i, j) <==> k >= rr || Circle.InCircle(k, dy, rr)
  {
  }

  lemma FirstIsLeast(r: int, dy: int, first: int, k: int)
    requires FirstInside(r, dy, first) && 0 <= k
    ensures k >= r || Circle.InCircle(k, dy, r) <==> first <= k
  {
    if first <= k < r { Circle.InsideToTheMiddle(first, k, dy, r); }
  }

  /** A row of the corner bands is one span for every radius: the rounded test is monotone towards
      the middle and the same on both sides. */
  lemma RowIsSpan(b: Box, r: int, j: int, first: int, i: int)
    requires b.w > 0 && 0 <= j < b.h
    requires var rr := SpanRadius(b, r);
             !(rr <= j < b.h - rr) && FirstInside(rr, j - (if j < rr then rr else b.h - 1 - rr), first)
    ensures InRound(b, r, i, j) <==> first <= i < b.w - first
  {
    var rr := SpanRadius(b, r);
    var dy := j - (if j < rr then rr else b.h - 1 - rr);
    if 0 <= i < b.w {
      InRoundCorner(b, r, i, j, dy);
      FirstIsLeast(rr, dy, first, Fold(i, b.w));
    }
  }

  /** Pixel (i, j) of the rectangle by exact arithmetic. */
  predicate InExactRound(b: Box, r: int, i: int, j: int) {
    && 0 <= i < b.w && 0 <= j < b.h
    && var rr := SpanRadius(b, r);
       var k := if i < b.w - 1 - i then i else b.w - 1 - i;
       var cy := if j < rr then rr else b.h - 1 - rr;
       k >= rr || rr <= j < b.h - rr || Circle.Inside(k, j - cy, rr)
  }

  predicate RoundsExactly(r: int) { r <= 2896 || (r < 4096 && r % 2 == 0) }

  /** A rounded rectangle is painted as exact arithmetic would have it precisely when its radius is at
      most 2896, or even and below 4096. */
  lemma RoundRectExactly(b: Box, r: int)
    requires b.w > 0 && b.h > 0
    ensures (forall i, j :: InRound(b, r, i, j) <==> InExactRound(b, r, i, j)) <==> RoundsExactly(SpanRadius(b, r))
  {
    var rr := SpanRadius(b, r);
    if RoundsExactly(rr) {
      forall i, j | 0 <= i < b.w && 0 <= j < b.h ensures InRound(b, r, i, j) <==> InExactRound(b, r, i, j) {
        var k := if i < b.w - 1 - i then i else b.w - 1 - i;
        if k < rr && !(rr <= j < b.h - rr) {
          Circle.RoundingHarmless(k, j - (if j < rr then rr else b.h - 1 - rr), rr);
        }
      }
    } else {
      if rr < 4096 { Circle.OddRadiusPaintsMore(rr); } else { Circle.LargeRadiusPaintsMore(rr); }
      assert InRound(b, r, 0, rr - 1) && !InExactRound(b, r, 0, rr - 1);
    }
  }

  // ---------- The row-major buffer ----------

  lemma IndexInside(w: int, h: int, x: int, y: int)
    requires 0 <= x < w && 0 <= y < h
    ensures 0 <= y * w + x < w * h
  {
    MulBounds(y, w, 0, h - 1);
    assert h * w == (h - 1) * w + w;
  }

  lemma IndexInjective(w: int, x: int, y: int, u: int, v: int)
    requires 0 <= x < w && 0 <= u < w
    ensures y * w + x == v * w + u <==> x == u && y == v
  {
    if y < v {
      MulBounds(y, w, y, v - 1);
      assert v * w == (v - 1) * w + w;
    } else if v < y {
      MulBounds(v, w, v, y - 1);
      assert y * w == (y - 1) * w + w;
    }
  }

  const MAX_TABLE_RADIUS := 64

  predicate InCorner(r: int, i: int, j: int) {
    0 <= r <= MAX_TABLE_RADIUS && 0 <= i < r && 0 <= j < r
  }

  /** Where the table of radius `r` keeps the count of corner pixel (i, j). */
  function Cell(r: int, i: int, j: int): (k: int)
    requires InCorner(r, i, j)
    ensures 0 <= k < 64 * 64
  {
    IndexInside(r, r, i, j);
    MulBounds(r, r, 0, 64);
    MulBounds(r, 64, 0, 64);
    j * r + i
  }

  /** The lazily filled coverage tables, one per small radius, shared by every call. */
  class CornerTables {
    const masks: array2<int>
    const ready: array<bool>

    ghost predicate Shaped() {
      masks.Length0 == 65 && masks.Length1 == 64 * 64 && ready.Length == 65
    }

    ghost predicate Valid()
      reads masks, ready
    {
      Shaped() && forall r, i, j | InCorner(r, i, j) && ready[r] :: masks[r, Cell(r, i, j)] == Cov.Corner(i, j, r)
    }

    constructor ()
      ensures Valid() && fresh(masks) && fresh(ready)
    {
      masks := new int[65, 64 * 64]((_, _) => 0);
      ready := new bool[65](_ => false);
    }

    method CountSamples(i: int, j: int, r: int) returns (inside: int)
      ensures inside == Cov.Corner(i, j, r)
    {
      hide Cov.RowHits;
      inside := 0;
      for sy := 0 to 4
        invariant inside == Cov.Hits(Cov.CornerDistance(i, r), Cov.CornerDistance(j, r), sy, r)
      {
        var row := CountRow(i, r, (j - r) * 8 + sy * 2 + 1);
        inside := inside + row;
      }
    }

    method CountRow(i: int, r: int, dy: int) returns (inside: int)
      ensures inside == Cov.RowHits(Cov.CornerDistance(i, r), 4, dy, r)
    {
      inside := 0;
      for sx := 0 to 4
        invariant inside == Cov.RowHits(Cov.CornerDistance(i, r), sx, dy, r)
      {
        var dx := (i - r) * 8 + sx * 2 + 1;
        if dx * dx + dy * dy <= r * r * 64 { inside := inside + 1; }
      }
    }

    method SetCell(r: int, i: int, j: int, inside: int)
      requires Shaped() && InCorner(r, i, j)
      modifies masks
      ensures forall q, u, v | InCorner(q, u, v) ::
        masks[q, Cell(q, u, v)] == if q == r && u == i && v == j then inside else old(masks[q, Cell(q, u, v)])
    {
      masks[r, Cell(r, i, j)] := inside;
      forall u, v | InCorner(r, u, v) ensures Cell(r, u, v) == Cell(r, i, j) <==> u == i && v == j {
        IndexInjective(r, i, j, u, v);
      }
    }

    /** Fills the table of radius `r` on its first use, then answers from it. */
    method Lookup(r: int, x: int, y: int) returns (inside: int)
      requires Valid() && InCorner(r, x, y)
      modifies masks, ready
      ensures Valid() && inside == Cov.Corner(x, y, r)
    {
      if !ready[r] {
        for j := 0 to r
          invariant forall q | 0 <= q <= MAX_TABLE_RADIUS :: ready[q] == old(ready[q])
          invariant forall q, u, v | InCorner(q, u, v) && q != r :: masks[q, Cell(q, u, v)] == old(masks[q, Cell(q, u, v)])
          invariant forall u, v | InCorner(r, u, v) && v < j :: masks[r, Cell(r, u, v)] == Cov.Corner(u, v, r)
        {
          for i := 0 to r
            invariant forall q | 0 <= q <= MAX_TABLE_RADIUS :: ready[q] == old(ready[q])
            invariant forall q, u, v | InCorner(q, u, v) && q != r :: masks[q, Cell(q, u, v)] == old(masks[q, Cell(q, u, v)])
            invariant forall u, v | InCorner(r, u, v) && (v < j || (v == j && u < i)) ::
              masks[r, Cell(r, u, v)] == Cov.Corner(u, v, r)
          {
            var count := CountSamples(i, j, r);
            SetCell(r, i, j, count);
          }
        }
        ready[r] := true;
      }
      return masks[r, Cell(r, x, y)];
    }
  }

  class Canvas {
    const w: int
    const h: int
    const px: array<Pixel>
    var clipX: int
    var clipY: int
    var clipW: int
    var clipH: int

    ghost predicate Valid() {
      w >= 0 && h >= 0 && px.Length == w * h
    }

    function Frame(): View
      reads this
    {
      View(w, h, clipX, clipY, clipW, clipH)
    }

    constructor (w: int, h: int)
      requires w >= 0 && h >= 0
      ensures Valid() && fresh(px) && Frame() == View(w, h, 0, 0, 0, 0)
      ensures forall i, j | Frame().Contains(i, j) :: At(i, j) == 0
    {
      this.w, this.h := w, h;
      clipX, clipY, clipW, clipH := 0, 0, 0, 0;
      MulBounds(w, h, 0, w);
      px := new Pixel[w * h](_ => 0);
      new;
      forall i, j | Frame().Contains(i, j) ensures At(i, j) == 0 { IndexInside(w, h, i, j); }
    }

    ghost function At(x: int, y: int): Pixel
      requires Valid() && Frame().Contains(x, y)
      reads this, px
    {
      IndexInside(w, h, x, y);
      px[y * w + x]
    }

    /** From here on only the pixels of the clip can be drawn; a width of 0 or less clips nothing. */
    method SetClip(x: int, y: int, w: int, h: int)
      modifies this
      ensures forall i, j :: Frame().Visible(i, j) <==> Frame().Contains(i, j) && (w <= 0 || Box(x, y, w, h).Has(i, j))
    {
      clipX, clipY, clipW, clipH := x, y, w, h;
    }

    method ClearClip()
      modifies this`clipW, this`clipH
      ensures forall i, j :: Frame().Visible(i, j) <==> Frame().Contains(i, j)
    {
      clipW, clipH := 0, 0;
    }

    /** The only place a pixel is written. */
    method Store(x: int, y: int, p: Pixel)
      requires Valid() && Frame().Contains(x, y)
      modifies px
      ensures forall i, j | Frame().Contains(i, j) :: At(i, j) == if i == x && j == y then p else old(At(i, j))
    {
      IndexInside(w, h, x, y);
      px[y * w + x] := p;
      forall i, j | Frame().Contains(i, j)
        ensures At(i, j) == if i == x && j == y then p else old(At(i, j))
      {
        IndexInside(w, h, i, j);
        IndexInjective(w, x, y, i, j);
      }
    }

    method Load(x: int, y: int) returns (p: Pixel)
      requires Valid() && Frame().Contains(x, y)
      ensures p == At(x, y)
    {
      IndexInside(w, h, x, y);
      p := px[y * w + x];
    }

    method Blend(x: int, y: int, col: Pixel)
      requires Valid()
      modifies px
      ensures forall i, j | Frame().Contains(i, j) ::
        At(i, j) == if i == x && j == y then BlendAt(Frame(), col, i, j, old(At(i, j))) else old(At(i, j))
    {
      if !Frame().Visible(x, y) { return; }
      var p := Load(x, y);
      Store(x, y, Over(p, col));
    }

    method BlendRect(x: int, y: int, w: int, h: int, col: Pixel)
      requires Valid()
      modifies px
      ensures forall i, j | Frame().Contains(i, j) ::
        At(i, j) == RectAt(Frame(), Box(x, y, w, h), col, i, j, old(At(i, j)))
    {
      if w <= 0 || h <= 0 { return; }
      var right, bottom := x + w, y + h;
      if right > this.w { right := this.w; }
      if bottom > this.h { bottom := this.h; }
      var j := if y < 0 then 0 else y;
      while j < bottom
        invariant j >= 0 && j >= y
        invariant forall u, v | Frame().Contains(u, v) ::
          At(u, v) == if v < j then RectAt(Frame(), Box(x, y, w, h), col, u, v, old(At(u, v))) else old(At(u, v))
      {
        var i := if x < 0 then 0 else x;
        while i < right
          invariant i >= 0 && i >= x
          invariant forall u, v | Frame().Contains(u, v) ::
            At(u, v) == if v < j || (v == j && u < i) then RectAt(Frame(), Box(x, y, w, h), col, u, v, old(At(u, v)))
                        else old(At(u, v))
        {
          Blend(i, j, col);
          i := i + 1;
        }
        j := j + 1;
      }
    }

    /** The direct count, for radii too large for a table. */
    method CountSamples(i: int, j: int, w: int, h: int, r: int) returns (inside: int)
      ensures inside == Cov.Oracle(i, j, w, h, r)
    {
      hide Cov.RowHits;
      inside := 0;
      for sy := 0 to 4
        invariant inside == Cov.Hits(Cov.Distance(i, w, r), Cov.Distance(j, h, r), sy, r)
      {
        var py := j * 8 + sy * 2 + 1;
        var cy := if py < r * 8 then r * 8 else if py > (h - r) * 8 then (h - r) * 8 else py;
        var row := CountRow(i, w, r, py - cy);
        inside := inside + row;
      }
    }

    /** One row of samples, `dy` from the corner's centre. */
    method CountRow(i: int, w: int, r: int, dy: int) returns (inside: int)
      ensures inside == Cov.RowHits(Cov.Distance(i, w, r), 4, dy, r)
    {
      inside := 0;
      for sx := 0 to 4
        invariant inside == Cov.RowHits(Cov.Distance(i, w, r), sx, dy, r)
      {
        var px := i * 8 + sx * 2 + 1;
        var cx := if px < r * 8 then r * 8 else if px > (w - r) * 8 then (w - r) * 8 else px;
        var dx := px - cx;
        if dx * dx + dy * dy <= r * r * 64 { inside := inside + 1; }
      }
    }

    /** How many samples of a pixel of the rectangle are inside: all of them off the corners,
        a table entry for small radii, a direct count otherwise. */
    method Inside(tables: CornerTables, i: int, j: int, w: int, h: int, r: int) returns (inside: int)
      requires tables.Valid() && Cov.Fits(w, h, r) && 0 <= i < w && 0 <= j < h
      modifies tables.masks, tables.ready
      ensures tables.Valid() && inside == Cov.Oracle(i, j, w, h, r)
    {
      Cov.FastIsOracle(i, j, w, h, r);
      if (i >= r && i < w - r) || (j >= r && j < h - r) {
        inside := 16;
      } else if r <= 64 {
        var cx, cy := i, j;
        if cx >= r { cx := w - 1 - cx; }
        if cy >= r { cy := h - 1 - cy; }
        inside := tables.Lookup(r, cx, cy);
      } else {
        inside := CountSamples(i, j, w, h, r);
      }
    }

    /** Composites one pixel of the rectangle. Runs of equal operands reuse the last result. */
    method RoundPixel(i: int, j: int, ghost box: Box, ghost radius: int, src: Pixel, col: Pixel,
                      cached: bool, lastSrc: Pixel, lastDst: Pixel, lastResult: Pixel)
      returns (cached': bool, lastSrc': Pixel, lastDst': Pixel, lastResult': Pixel)
      requires Valid() && Frame().Contains(i, j) && box.Has(i, j)
      requires src == Faded(col, Cov.Oracle(i - box.x, j - box.y, box.w, box.h, BlendRadius(box, radius)))
      requires cached ==> lastResult == Over(lastDst, lastSrc)
      modifies px
      ensures cached' ==> lastResult' == Over(lastDst', lastSrc')
      ensures forall u, v | Frame().Contains(u, v) ::
        At(u, v) == if u == i && v == j then RoundAt(Frame(), box, radius, col, u, v, old(At(u, v))) else old(At(u, v))
    {
      cached', lastSrc', lastDst', lastResult' := cached, lastSrc, lastDst, lastResult;
      if !Frame().Visible(i, j) { return; }
      var dst := Load(i, j);
      if !cached' || lastSrc' != src || lastDst' != dst {
        lastSrc', lastDst' := src, dst;
        lastResult', cached' := Over(dst, src), true;
      }
      Store(i, j, lastResult');
    }

    ghost predicate Apart(tables: CornerTables) {
      px as object != tables.masks as object && px as object != tables.ready as object
    }

    /** One row of the rectangle, up to column `right`. */
    method RoundRow(tables: CornerTables, j: int, right: int, box: Box, ghost radius: int, r: int, col: Pixel,
                    cached: bool, lastSrc: Pixel, lastDst: Pixel, lastResult: Pixel)
      returns (cached': bool, lastSrc': Pixel, lastDst': Pixel, lastResult': Pixel)
      requires Valid() && tables.Valid() && Apart(tables)
      requires 0 <= j < h && box.y <= j < box.y + box.h && box.w > 0
      requires r == BlendRadius(box, radius) && right == (if box.x + box.w > w then w else box.x + box.w)
      requires cached ==> lastResult == Over(lastDst, lastSrc)
      modifies px, tables.masks, tables.ready
      ensures tables.Valid()
      ensures cached' ==> lastResult' == Over(lastDst', lastSrc')
      ensures forall u, v | Frame().Contains(u, v) ::
        At(u, v) == if v == j then RoundAt(Frame(), box, radius, col, u, v, old(At(u, v))) else old(At(u, v))
    {
      cached', lastSrc', lastDst', lastResult' := cached, lastSrc, lastDst, lastResult;
      var i := if box.x < 0 then 0 else box.x;
      while i < right
        invariant i >= 0 && i >= box.x && tables.Valid()
        invariant cached' ==> lastResult' == Over(lastDst', lastSrc')
        invariant forall u, v | Frame().Contains(u, v) ::
          At(u, v) == if v == j && u < i then RoundAt(Frame(), box, radius, col, u, v, old(At(u, v)))
                      else old(At(u, v))
      {
        var inside := Inside(tables, i - box.x, j - box.y, box.w, box.h, r);
        var src := Faded(col, inside);
        cached', lastSrc', lastDst', lastResult' :=
          RoundPixel(i, j, box, radius, src, col, cached', lastSrc', lastDst', lastResult');
        i := i + 1;
      }
    }

    method BlendRoundRect(tables: CornerTables, x: int, y: int, w: int, h: int, radius: int, col: Pixel)
      requires Valid() && tables.Valid() && Apart(tables)
      modifies px, tables.masks, tables.ready
      ensures tables.Valid()
      ensures forall i, j | Frame().Contains(i, j) ::
        At(i, j) == RoundAt(Frame(), Box(x, y, w, h), radius, col, i, j, old(At(i, j)))
    {
      if w <= 0 || h <= 0 { return; }
      var r := radius;
      if r < 0 { r := 0; }
      if r > w / 2 { r := w / 2; }
      if r > h / 2 { r := h / 2; }
      var box := Box(x, y, w, h);
      var right, bottom := x + w, y + h;
      if right > this.w { right := this.w; }
      if bottom > this.h { bottom := this.h; }
      var lastSrc: Pixel, lastDst: Pixel, lastResult: Pixel, cached := 0, 0, 0, false;
      var j := if y < 0 then 0 else y;
      while j < bottom
        invariant j >= 0 && j >= y && tables.Valid()
        invariant cached ==> lastResult == Over(lastDst, lastSrc)
        invariant forall u, v | Frame().Contains(u, v) ::
          At(u, v) == if v < j then RoundAt(Frame(), box, radius, col, u, v, old(At(u, v))) else old(At(u, v))
      {
        cached, lastSrc, lastDst, lastResult :=
          RoundRow(tables, j, right, box, radius, r, col, cached, lastSrc, lastDst, lastResult);
        j := j + 1;
      }
    }

    method Put(x: int, y: int, col: Pixel)
      requires Valid()
      modifies px
      ensures forall i, j | Frame().Contains(i, j) ::
        At(i, j) == if i == x && j == y && Frame().Visible(i, j) then col else old(At(i, j))
    {
      if Frame().Visible(x, y) { Store(x, y, col); }
    }

    /** A row segment cut to the canvas and its clip once, then written directly. */
    method Span(x: int, y: int, w: int, col: Pixel)
      requires Valid()
      modifies px
      ensures forall i, j | Frame().Contains(i, j) ::
        At(i, j) == if j == y && x <= i < x + w && Frame().Visible(i, j) then col else old(At(i, j))
    {
      if y < 0 || y >= h { return; }
      var x0 := if x < 0 then 0 else x;
      var x1 := if x + w > this.w then this.w else x + w;
      if clipW > 0 {
        if y < clipY || y >= clipY + clipH { return; }
        if x0 < clipX { x0 := clipX; }
        if x1 > clipX + clipW { x1 := clipX + clipW; }
      }
      var i := x0;
      while i < x1
        invariant x0 <= i
        invariant forall u, v | Frame().Contains(u, v) ::
          At(u, v) == if v == y && x0 <= u < i && u < x1 then col else old(At(u, v))
      {
        Store(i, y, col);
        i := i + 1;
      }
    }

    method FillRect(x: int, y: int, w: int, h: int, col: Pixel)
      requires Valid()
      modifies px
      ensures forall i, j | Frame().Contains(i, j) ::
        At(i, j) == if Box(x, y, w, h).Has(i, j) && Frame().Visible(i, j) then col else old(At(i, j))
    {
      var j := 0;
      while j < h
        invariant 0 <= j
        invariant forall u, v | Frame().Contains(u, v) ::
          At(u, v) == if Box(x, y, w, h).Has(u, v) && v < y + j && Frame().Visible(u, v) then col else old(At(u, v))
      {
        Span(x, y + j, w, col);
        j := j + 1;
      }
    }

    /** Scans a corner row from the left up to the circle, testing in single precision. */
    method FirstInRow(r: int, dy: int) returns (first: int)
      requires r >= 0
      ensures FirstInside(r, dy, first)
    {
      hide Float.Single;
      first := r;
      for i := 0 to r
        invariant first == r
        invariant forall k | 0 <= k < i :: !Circle.InCircle(k, dy, r)
      {
        var dx2, dy2, r2 := Circle.Squared(i - r), Circle.Squared(dy), Circle.Squared(r);
        if 2 * Float.Single(dx2 + dy2) <= Float.Single(2 * r2 + 1) {
          return i;
        }
      }
    }

    method RoundRect(x: int, y: int, w: int, h: int, radius: int, col: Pixel)
      requires Valid()
      modifies px
      ensures forall i, j | Frame().Contains(i, j) ::
        At(i, j) == if InRound(Box(x, y, w, h), radius, i - x, j - y) && Frame().Visible(i, j) then col
                    else old(At(i, j))
    {
      var r := radius;
      if r < 0 { r := 0; }
      if 2 * r > w { r := TruncDiv(w, 2); }
      if 2 * r > h { r := TruncDiv(h, 2); }
      ghost var box := Box(x, y, w, h);
      assert r == SpanRadius(box, radius);
      var j := 0;
      while j < h
        invariant 0 <= j
        invariant forall u, v | Frame().Contains(u, v) ::
          At(u, v) == if v < y + j && InRound(box, radius, u - x, v - y) && Frame().Visible(u, v) then col
                      else old(At(u, v))
      {
        RoundRectRow(x, y, w, h, radius, r, j, col);
        j := j + 1;
      }
    }

    method RoundRectRow(x: int, y: int, w: int, h: int, ghost radius: int, r: int, j: int, col: Pixel)
      requires Valid() && 0 <= j < h && r == SpanRadius(Box(x, y, w, h), radius)
      modifies px
      ensures forall u, v | Frame().Contains(u, v) ::
        At(u, v) == if v == y + j && InRound(Box(x, y, w, h), radius, u - x, j) && Frame().Visible(u, v) then col
                    else old(At(u, v))
    {
      if j >= r && j < h - r {
        Span(x, y + j, w, col);
        return;
      }
      var cy := if j < r then r else h - 1 - r;
      var first := FirstInRow(r, j - cy);
      assert w > 0;
      forall i ensures InRound(Box(x, y, w, h), radius, i, j) <==> first <= i < w - first {
        RowIsSpan(Box(x, y, w, h), radius, j, first, i);
      }
      Span(x + first, y + j, w - 2 * first, col);
    }
  }
}
