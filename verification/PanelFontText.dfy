/** Text drawn with an open font: glyphs placed along a pen, clipped left and right but not above
    or below, and where that leaves the box the panel gave it. */
module PanelFontText {
  import opened Basics
  import opened CArithmetic
  import opened Pixels
  import opened Canvases
  import opened PanelPaint
  import opened GlyphCacheObject
  import G = GlyphCache
  import T = TextFit
  import U = Utf8

  /** A glyph as it is drawn: its box from the pen and the baseline, and the coverage of its cells.
      What centres a digit in its advance is part of `left`. */
  datatype Stamp = Stamp(left: int, top: int, w: nat, h: nat, mask: (int, int) -> Byte)

  /** An open font as drawing sees it. A glyph is missing when it alone is over the cache's budget. */
  datatype Typeface = Typeface(height: int, ascent: int, advance: int -> int, stamp: int -> Option<Stamp>)

  // ---------- A face, as its cached glyphs show it ----------

  /** What opening a font computes: its height, its ascent and the common advance of its digits. */
  datatype Metrics = Metrics(height: int, ascent: int, digit: int)

  predicate Digit(cp: int) { 48 <= cp <= 57 }

  function AdvanceOf(m: Metrics, face: G.Face, cp: int): int {
    if Digit(cp) then m.digit else face.advance(G.Pick(face, cp))
  }

  function StampOf(m: Metrics, cp: int, a: G.Answer): Option<Stamp> {
    match a
    case NoGlyph => None
    case Found(g) =>
      var r := g.raster;
      Some(Stamp((if Digit(cp) then TruncDiv(m.digit - g.advance, 2) else 0) + r.xoff, r.yoff, r.w, r.h,
                 (u, v) => if 0 <= v * r.w + u < |r.bits| then r.bits[v * r.w + u] % 256 else 0))
  }

  /** The face with every glyph freshly rasterised. */
  function Look(m: Metrics, face: G.Face): Typeface {
    Typeface(m.height, m.ascent, cp => AdvanceOf(m, face, cp), cp => StampOf(m, cp, G.Ideal(face, G.Pick(face, cp))))
  }

  /** Where a text is drawn: pen, baseline, the clip's two sides, colour. */
  datatype Place = Place(x: int, y: int, left: int, right: int, color: Pixel)

  // ---------- What a text leaves at a pixel ----------

  function Shade(color: Pixel, m: Byte): Byte {
    MulBounds(Alpha(color), m, 0, 255);
    DivBetween(Alpha(color) * m, 255, 0, 255);
    Alpha(color) * m / 255
  }

  function Shaded(color: Pixel, m: Byte): Pixel { Shade(color, m) * 0x100_0000 + color % 0x100_0000 }

  /** Pixel (i, j) is a cell of the glyph drawn with the pen at `pen`, inside the clip. */
  predicate InGlyph(g: Stamp, pen: int, p: Place, i: int, j: int) {
    p.left <= i < p.right && 0 <= i - pen - g.left < g.w && 0 <= j - p.y - g.top < g.h
  }

  /** The glyph leaves ink at pixel (i, j). */
  predicate Inks(g: Option<Stamp>, pen: int, p: Place, i: int, j: int) {
    g.Some? && InGlyph(g.value, pen, p, i, j)
    && Shade(p.color, g.value.mask(i - pen - g.value.left, j - p.y - g.value.top)) != 0
  }

  function GlyphInk(g: Option<Stamp>, pen: int, p: Place, i: int, j: int): seq<Pixel> {
    if Inks(g, pen, p, i, j) then [Shaded(p.color, g.value.mask(i - pen - g.value.left, j - p.y - g.value.top))] else []
  }

  /** The pen of code point `k`. */
  function PenAt(f: Typeface, cps: seq<int>, p: Place, k: nat): int
    requires k <= |cps|
  {
    p.x + T.Width(f.advance, cps[..k])
  }

  /** The colours a text composites onto a pixel, in order. */
  function TextInk(f: Typeface, cps: seq<int>, p: Place, i: int, j: int): seq<Pixel> {
    if cps == [] then []
    else
      var n := |cps| - 1;
      TextInk(f, cps[..n], p, i, j) + GlyphInk(f.stamp(cps[n]), PenAt(f, cps, p, n), p, i, j)
  }

  /** Some glyph of the text leaves ink at the pixel. */
  ghost predicate Inked(f: Typeface, cps: seq<int>, p: Place, i: int, j: int) {
    exists k: nat :: k < |cps| && Inks(f.stamp(cps[k]), PenAt(f, cps, p, k), p, i, j)
  }

  lemma PenOfPrefix(f: Typeface, cps: seq<int>, p: Place, n: nat, k: nat)
    requires k <= n <= |cps|
    ensures PenAt(f, cps[..n], p, k) == PenAt(f, cps, p, k)
  {
    assert cps[..n][..k] == cps[..k];
  }

  lemma InkedSnoc(f: Typeface, cps: seq<int>, p: Place, n: nat, i: int, j: int)
    requires |cps| == n + 1
    ensures Inked(f, cps, p, i, j) <==> Inked(f, cps[..n], p, i, j) || Inks(f.stamp(cps[n]), PenAt(f, cps, p, n), p, i, j)
  {
    if Inked(f, cps[..n], p, i, j) {
      var k: nat :| k < n && Inks(f.stamp(cps[..n][k]), PenAt(f, cps[..n], p, k), p, i, j);
      PenOfPrefix(f, cps, p, n, k);
      assert Inks(f.stamp(cps[k]), PenAt(f, cps, p, k), p, i, j);
    }
    if Inked(f, cps, p, i, j) {
      var k: nat :| k < |cps| && Inks(f.stamp(cps[k]), PenAt(f, cps, p, k), p, i, j);
      if k < n {
        PenOfPrefix(f, cps, p, n, k);
        assert Inks(f.stamp(cps[..n][k]), PenAt(f, cps[..n], p, k), p, i, j);
      }
    }
  }

  /** A text composites something onto exactly the pixels that one of its glyphs inks. */
  lemma {:induction false} DrawnWhereInked(f: Typeface, cps: seq<int>, p: Place, i: int, j: int)
    ensures TextInk(f, cps, p, i, j) != [] <==> Inked(f, cps, p, i, j)
  {
    if cps != [] {
      var n := |cps| - 1;
      DrawnWhereInked(f, cps[..n], p, i, j);
      InkedSnoc(f, cps, p, n, i, j);
    }
  }

  /** The ink of a cell has the text's colour, and of its alpha the cell's share, rounded down. */
  lemma InkShare(color: Pixel, m: Byte)
    ensures var ink := Shaded(color, m);
            && ink % 0x100_0000 == color % 0x100_0000
            && Alpha(ink) * 255 <= Alpha(color) * m < (Alpha(ink) + 1) * 255
            && (m == 255 ==> ink == color) && (m == 0 ==> Alpha(ink) == 0)
  {
    ShadedAlpha(color, m);
  }

  /** A glyph is drawn where its face has it, except that a digit is centred in the digits' common advance, to
      half a pixel; the rows of its mask, one after another, are its coverage. */
  lemma StampMeaning(m: Metrics, face: G.Face, cp: int)
    requires Look(m, face).stamp(cp).Some?
    ensures var a := G.Ideal(face, G.Pick(face, cp));
            && a.Found?
            && var g, stamp := a.g, Look(m, face).stamp(cp).value;
               var shift := stamp.left - g.raster.xoff;
               && stamp.top == g.raster.yoff && stamp.w == g.raster.w && stamp.h == g.raster.h
               && (!('0' as int <= cp <= '9' as int) ==> shift == 0)
               && ('0' as int <= cp <= '9' as int ==> -1 <= 2 * shift - (m.digit - g.advance) <= 1)
               && (forall u, v | 0 <= u < stamp.w && 0 <= v && v * stamp.w + u < |g.raster.bits| ::
                     stamp.mask(u, v) == g.raster.bits[v * stamp.w..][u] % 256)
  {
  }

  // ---------- Drawing ----------

  /** A glyph composited cell by cell onto every pixel of a canvas. */
  function GlyphAt(v: View, g: Stamp, pen: int, p: Place, i: int, j: int, dst: Pixel): Pixel {
    if InGlyph(g, pen, p, i, j) then BlendAt(v, Shaded(p.color, g.mask(i - pen - g.left, j - p.y - g.top)), i, j, dst)
    else dst
  }

  /** A cell too faint to show leaves the pixel as it was. */
  lemma GlyphAtIsInk(v: View, g: Stamp, pen: int, p: Place, i: int, j: int, dst: Pixel)
    ensures GlyphAt(v, g, pen, p, i, j, dst) ==
            if v.Visible(i, j) then OverAll(dst, GlyphInk(Some(g), pen, p, i, j)) else dst
  {
    if InGlyph(g, pen, p, i, j) {
      var m := g.mask(i - pen - g.left, j - p.y - g.top);
      ShadedAlpha(p.color, m);
      assert [Shaded(p.color, m)][..0] == [];
    }
  }

  lemma ShadedAlpha(color: Pixel, m: Byte)
    ensures Alpha(Shaded(color, m)) == Shade(color, m)
  {
  }

  method DrawGlyph(c: Canvas, g: Stamp, pen: int, p: Place)
    requires c.Valid()
    modifies c.px
    ensures forall i, j | c.Frame().Contains(i, j) ::
      c.At(i, j) == GlyphAt(c.Frame(), g, pen, p, i, j, old(c.At(i, j)))
  {
    for row := 0 to g.h
      invariant forall i, j | c.Frame().Contains(i, j) ::
        c.At(i, j) == if j < p.y + g.top + row then GlyphAt(c.Frame(), g, pen, p, i, j, old(c.At(i, j)))
                      else old(c.At(i, j))
    {
      var y := p.y + g.top + row;
      for column := 0 to g.w
        invariant forall i, j | c.Frame().Contains(i, j) ::
          c.At(i, j) == if j < y || (j == y && i < pen + g.left + column)
                        then GlyphAt(c.Frame(), g, pen, p, i, j, old(c.At(i, j))) else old(c.At(i, j))
      {
        var x := pen + g.left + column;
        if 0 <= y < c.h && 0 <= x < c.w && p.left <= x < p.right {
          c.Blend(x, y, Shaded(p.color, g.mask(column, row)));
        }
      }
    }
  }

  /** What the whole text leaves at a pixel of a canvas. */
  function TextAt(v: View, f: Typeface, cps: seq<int>, p: Place, i: int, j: int, dst: Pixel): Pixel {
    if v.Visible(i, j) then OverAll(dst, TextInk(f, cps, p, i, j)) else dst
  }

  lemma TextAtSnoc(v: View, f: Typeface, cps: seq<int>, p: Place, k: nat, i: int, j: int, dst: Pixel)
    requires k < |cps|
    ensures var ink := GlyphInk(f.stamp(cps[k]), PenAt(f, cps, p, k), p, i, j);
            TextAt(v, f, cps[..k + 1], p, i, j, dst) ==
            if v.Visible(i, j) then OverAll(TextAt(v, f, cps[..k], p, i, j, dst), ink) else dst
  {
    assert cps[..k + 1][..k] == cps[..k];
    PenOfPrefix(f, cps, p, k + 1, k);
    OverAllConcat(dst, TextInk(f, cps[..k], p, i, j), GlyphInk(f.stamp(cps[k]), PenAt(f, cps, p, k), p, i, j));
  }

  /** draw_text: decodes, looks up, draws and advances the pen, code point by code point. Whatever the
      cache holds and wherever it is cleared on the way, the text is that of fresh glyphs. */
  method DrawText(c: Canvas, lib: FontLibrary, font: FontObject, k: nat, m: Metrics, text: seq<Byte>, p: Place)
    requires c.Valid() && lib.Valid() && G.Inv(lib.State()) && k < |lib.fonts| && lib.fonts[k] == font
    modifies c.px, lib.fonts, lib`cacheTotal
    ensures lib.Valid() && G.Inv(lib.State())
    ensures forall i, j | c.Frame().Contains(i, j) ::
      c.At(i, j) == TextAt(c.Frame(), Look(m, font.face), T.Decode(text, 0), p, i, j, old(c.At(i, j)))
  {
    hide G.Inv;
    var at, pen := 0, p.x;
    ghost var f, cps, n := Look(m, font.face), T.Decode(text, 0), 0;
    assert cps[..0] == [] && cps[..|cps|] == cps;
    while at < |text|
      invariant lib.Valid() && G.Inv(lib.State())
      invariant T.At(text, at, n) && pen == PenAt(f, cps, p, n)
      invariant forall i, j | c.Frame().Contains(i, j) ::
        c.At(i, j) == TextAt(c.Frame(), f, cps[..n], p, i, j, old(c.At(i, j)))
      decreases |text| - at
    {
      T.Advanced(text, at, n);
      var cp, next := T.NextCodePoint(text, at);
      DrawNext(c, lib, font, k, m, cp, pen, p);
      forall i, j | c.Frame().Contains(i, j)
        ensures c.At(i, j) == TextAt(c.Frame(), f, cps[..n + 1], p, i, j, old(c.At(i, j)))
      {
        TextAtSnoc(c.Frame(), f, cps, p, n, i, j, old(c.At(i, j)));
      }
      T.WidthSnoc(f.advance, cps, n);
      pen := pen + AdvanceOf(m, font.face, cp);
      at := next;
      n := n + 1;
    }
    assert cps[n..] == [];
  }

  method DrawNext(c: Canvas, lib: FontLibrary, font: FontObject, k: nat, m: Metrics, cp: int, pen: int, p: Place)
    requires c.Valid() && lib.Valid() && G.Inv(lib.State()) && k < |lib.fonts| && lib.fonts[k] == font
    modifies c.px, lib.fonts, lib`cacheTotal
    ensures lib.Valid() && G.Inv(lib.State())
    ensures var ink := (i, j) => GlyphInk(Look(m, font.face).stamp(cp), pen, p, i, j);
            forall i, j | c.Frame().Contains(i, j) ::
              c.At(i, j) == if c.Frame().Visible(i, j) then OverAll(old(c.At(i, j)), ink(i, j)) else old(c.At(i, j))
  {
    var a := LookUp(lib, font, k, cp);
    DrawMaybe(c, StampOf(m, cp, a), pen, p);
  }

  /** A lookup answers with the face's own glyph, whatever it had to clear. */
  method LookUp(lib: FontLibrary, font: FontObject, k: nat, cp: int) returns (a: G.Answer)
    requires lib.Valid() && G.Inv(lib.State()) && k < |lib.fonts| && lib.fonts[k] == font
    modifies lib.fonts, lib`cacheTotal
    ensures lib.Valid() && G.Inv(lib.State())
    ensures a == G.Ideal(font.face, G.Pick(font.face, cp))
  {
    G.LookupIsFresh(lib.State(), k, cp);
    a := lib.Lookup(font, k, cp);
  }

  method DrawMaybe(c: Canvas, g: Option<Stamp>, pen: int, p: Place)
    requires c.Valid()
    modifies c.px
    ensures forall i, j | c.Frame().Contains(i, j) ::
      c.At(i, j) == if c.Frame().Visible(i, j) then OverAll(old(c.At(i, j)), GlyphInk(g, pen, p, i, j)) else old(c.At(i, j))
  {
    if g.Some? {
      DrawGlyph(c, g.value, pen, p);
      forall i, j | c.Frame().Contains(i, j)
        ensures c.At(i, j) == if c.Frame().Visible(i, j) then OverAll(old(c.At(i, j)), GlyphInk(g, pen, p, i, j))
                              else old(c.At(i, j))
      {
        GlyphAtIsInk(c.Frame(), g.value, pen, p, i, j, old(c.At(i, j)));
      }
    }
  }

  // ---------- Cut to a width ----------

  /** How many code points fit with an ellipsis behind them, `k` being known to. */
  function FitCount(f: Typeface, cps: seq<int>, maxW: int, k: nat): (n: nat)
    requires k <= |cps|
    ensures k <= n <= |cps|
    decreases |cps| - k
  {
    if k == |cps| || T.Width(f.advance, cps[..k + 1]) + f.advance(U.ELLIPSIS) > maxW then k else FitCount(f, cps, maxW, k + 1)
  }

  /** The code points font_draw_fit draws. */
  function Fitted(f: Typeface, cps: seq<int>, maxW: int): seq<int> {
    if maxW <= 0 then []
    else if T.Width(f.advance, cps) <= maxW || maxW == T.INT_MAX then cps
    else if f.advance(U.ELLIPSIS) > maxW then []
    else cps[..FitCount(f, cps, maxW, 0)] + [U.ELLIPSIS]
  }

  lemma {:induction false} FitCountIsLongest(f: Typeface, cps: seq<int>, maxW: int, k: nat)
    requires T.Forward(f.advance) && k < |cps| && T.Width(f.advance, cps) > maxW && f.advance(U.ELLIPSIS) >= 0
    requires T.Width(f.advance, cps[..k]) + f.advance(U.ELLIPSIS) <= maxW
    ensures T.Longest(f.advance, cps, maxW, FitCount(f, cps, maxW, k))
    decreases |cps| - k
  {
    assert cps[..|cps|] == cps;
    if T.Width(f.advance, cps[..k + 1]) + f.advance(U.ELLIPSIS) > maxW {
      T.WidestPrefix(f.advance, cps, maxW, k);
    } else {
      FitCountIsLongest(f, cps, maxW, k + 1);
    }
  }

  lemma PrefixFits(f: Typeface, t: seq<Byte>, maxW: int, d: T.Drawing, k: nat)
    requires T.Forward(f.advance) && T.DrawsPrefix(f.advance, t, maxW, d, k) && T.Width(f.advance, T.Decode(t, 0)) > maxW
    requires f.advance(U.ELLIPSIS) <= maxW
    ensures FitCount(f, T.Decode(t, 0), maxW, 0) == k
  {
    var cps := T.Decode(t, 0);
    assert cps[..0] == [];
    T.ForwardAt(f.advance, U.ELLIPSIS);
    FitCountIsLongest(f, cps, maxW, 0);
  }

  /** font_draw_fit on a canvas: what `DrawFit` cuts the text to, clipped to the width. */
  method DrawTextFit(c: Canvas, lib: FontLibrary, font: FontObject, k: nat, m: Metrics,
                     x: int, y: int, maxW: int, text: seq<Byte>, color: Pixel)
    requires c.Valid() && lib.Valid() && G.Inv(lib.State()) && k < |lib.fonts| && lib.fonts[k] == font
    requires T.Forward(Look(m, font.face).advance) && maxW <= T.INT_MAX
    modifies c.px, lib.fonts, lib`cacheTotal
    ensures lib.Valid() && G.Inv(lib.State())
    ensures var f := Look(m, font.face);
            forall i, j | c.Frame().Contains(i, j) ::
              c.At(i, j) ==
              TextAt(c.Frame(), f, Fitted(f, T.Decode(text, 0), maxW), Place(x, y, x, x + maxW, color), i, j, old(c.At(i, j)))
  {
    var f := Look(m, font.face);
    var d := T.DrawFit(f.advance, text, maxW);
    FittedIsDrawn(f, text, maxW, d);
    if d.Draw? { DrawText(c, lib, font, k, m, d.bytes, Place(x, y, x, x + maxW, color)); }
  }

  lemma FittedIsDrawn(f: Typeface, t: seq<Byte>, maxW: int, d: T.Drawing)
    requires T.Forward(f.advance) && maxW <= T.INT_MAX
    requires maxW <= 0 ==> d == T.Nothing
    requires maxW > 0 && (T.Width(f.advance, T.Decode(t, 0)) <= maxW || maxW == T.INT_MAX) ==> d == T.Draw(t)
    requires 0 < maxW < T.Width(f.advance, T.Decode(t, 0)) && maxW < T.INT_MAX ==>
               if f.advance(U.ELLIPSIS) > maxW then d == T.Nothing
               else exists k: nat :: T.DrawsPrefix(f.advance, t, maxW, d, k)
    ensures Fitted(f, T.Decode(t, 0), maxW) == if d.Draw? then T.Decode(d.bytes, 0) else []
  {
    var cps := T.Decode(t, 0);
    if 0 < maxW < T.Width(f.advance, cps) && maxW < T.INT_MAX && f.advance(U.ELLIPSIS) <= maxW {
      var k: nat :| T.DrawsPrefix(f.advance, t, maxW, d, k);
      PrefixFits(f, t, maxW, d, k);
    }
  }

  // ---------- The panel's texts ----------

  function Bytes(value: string): seq<Byte> { seq(|value|, i requires 0 <= i < |value| => value[i] as int % 256) }

  function Shown(f: Typeface, call: TextCall): seq<int> { Fitted(f, T.Decode(Bytes(call.value), 0), call.box.w) }

  /** How far centring moves a text from the left of its box. */
  function Indent(f: Typeface, call: TextCall): int {
    var width := T.Width(f.advance, T.Decode(Bytes(call.value), 0));
    if call.centered && width < call.box.w then TruncDiv(call.box.w - width, 2) else 0
  }

  function Baseline(f: Typeface, call: TextCall): int {
    if call.baseline != 0 then call.baseline - PANEL.y
    else call.box.y - PANEL.y + TruncDiv(call.box.h - f.height, 2) + f.ascent
  }

  function PlaceOf(f: Typeface, call: TextCall): Place {
    var x := call.box.x - PANEL.x + Indent(f, call);
    Place(x, Baseline(f, call), x, x + call.box.w, call.color)
  }

  function FontEnv(faces: Role -> Typeface): Env {
    Env((call: TextCall, i: int, j: int) =>
      var f := faces(call.role); TextInk(f, Shown(f, call), PlaceOf(f, call), i, j))
  }

  ghost predicate TextInked(f: Typeface, call: TextCall, i: int, j: int) { Inked(f, Shown(f, call), PlaceOf(f, call), i, j) }

  /** Pixel column `i` lies between the sides of the box. */
  predicate Across(b: Box, i: int) { b.x <= i + PANEL.x < b.x + b.w }

  // ---------- Ink by the cells of the glyphs ----------

  /** Where cell column `u` of the glyph of code point `k` stands, from the start of the text. */
  function CellX(f: Typeface, cps: seq<int>, k: nat, u: int): int
    requires k < |cps| && f.stamp(cps[k]).Some?
  {
    T.Width(f.advance, cps[..k]) + f.stamp(cps[k]).value.left + u
  }

  /** And row `v`, on the canvas. */
  function CellY(f: Typeface, call: TextCall, cp: int, v: int): int
    requires f.stamp(cp).Some?
  {
    Baseline(f, call) + f.stamp(cp).value.top + v
  }

  /** The glyph of code point `k` has a cell (u, v) that shows in the colour of the text, and the cell
      is less than the width of the box away from the start of the text. */
  predicate InkedCell(f: Typeface, call: TextCall, k: nat, u: int, v: int) {
    var cps := Shown(f, call);
    && k < |cps| && f.stamp(cps[k]).Some?
    && var s := f.stamp(cps[k]).value;
       && 0 <= u < s.w && 0 <= v < s.h && Shade(call.color, s.mask(u, v)) != 0
       && 0 <= CellX(f, cps, k, u) < call.box.w
  }

  predicate CellAcross(f: Typeface, call: TextCall, k: nat, u: int, v: int)
    requires InkedCell(f, call, k, u, v)
  {
    Indent(f, call) + CellX(f, Shown(f, call), k, u) < call.box.w
  }

  predicate CellInBox(f: Typeface, call: TextCall, k: nat, u: int, v: int)
    requires InkedCell(f, call, k, u, v)
  {
    && CellAcross(f, call, k, u, v)
    && call.box.y <= CellY(f, call, Shown(f, call)[k], v) + PANEL.y < call.box.y + call.box.h
  }

  lemma CellInks(f: Typeface, call: TextCall, k: nat, u: int, v: int) returns (i: int, j: int)
    requires InkedCell(f, call, k, u, v)
    ensures TextInked(f, call, i, j)
    ensures i + PANEL.x == call.box.x + Indent(f, call) + CellX(f, Shown(f, call), k, u)
    ensures j == CellY(f, call, Shown(f, call)[k], v)
  {
    hide Shown, Shade, Indent, Baseline;
    var cps, p := Shown(f, call), PlaceOf(f, call);
    i, j := p.x + CellX(f, cps, k, u), CellY(f, call, cps[k], v);
    assert Inks(f.stamp(cps[k]), PenAt(f, cps, p, k), p, i, j);
  }

  lemma InkHasCell(f: Typeface, call: TextCall, i: int, j: int) returns (k: nat, u: int, v: int)
    requires TextInked(f, call, i, j)
    ensures InkedCell(f, call, k, u, v)
    ensures i + PANEL.x == call.box.x + Indent(f, call) + CellX(f, Shown(f, call), k, u)
    ensures j == CellY(f, call, Shown(f, call)[k], v)
  {
    hide Shown, Shade, Indent, Baseline;
    var cps, p := Shown(f, call), PlaceOf(f, call);
    k :| k < |cps| && Inks(f.stamp(cps[k]), PenAt(f, cps, p, k), p, i, j);
    var s := f.stamp(cps[k]).value;
    u, v := i - PenAt(f, cps, p, k) - s.left, j - p.y - s.top;
  }

  lemma IndentIsSmall(f: Typeface, call: TextCall)
    ensures 0 <= Indent(f, call) && (!call.centered ==> Indent(f, call) == 0)
    ensures Indent(f, call) > 0 ==>
              var width := T.Width(f.advance, T.Decode(Bytes(call.value), 0));
              width < call.box.w && Indent(f, call) + width <= call.box.w
  {
  }

  /** Some glyph reaches past the right side of the box, in a cell that the clip, moved with the text,
      lets through. */
  ghost predicate Overhangs(f: Typeface, call: TextCall) {
    exists k: nat, u, v :: InkedCell(f, call, k, u, v) && !CellAcross(f, call, k, u, v)
  }

  /** A text stays between the sides of its box exactly when no cell of its glyphs, at its pen and
      indented, reaches the right side; only in a centred text can one. */
  lemma AcrossExactly(f: Typeface, call: TextCall)
    ensures (forall i, j | TextInked(f, call, i, j) :: Across(call.box, i)) <==> !Overhangs(f, call)
    ensures !call.centered ==> !Overhangs(f, call)
  {
    IndentIsSmall(f, call);
    if Overhangs(f, call) {
      var k: nat, u, v :| InkedCell(f, call, k, u, v) && !CellAcross(f, call, k, u, v);
      var i, j := CellInks(f, call, k, u, v);
      assert !Across(call.box, i);
    } else {
      forall i, j | TextInked(f, call, i, j) ensures Across(call.box, i) {
        var k, u, v := InkHasCell(f, call, i, j);
        assert CellAcross(f, call, k, u, v);
      }
    }
  }

  /** No cell of any panel text falls outside its box. */
  ghost predicate AllInBox(faces: Role -> Typeface) {
    forall call: TextCall, k: nat, u, v | WellPlaced(call) && InkedCell(faces(call.role), call, k, u, v) ::
      CellInBox(faces(call.role), call, k, u, v)
  }

  lemma CellOutside(f: Typeface, call: TextCall, k: nat, u: int, v: int) returns (i: int, j: int)
    requires InkedCell(f, call, k, u, v) && !CellInBox(f, call, k, u, v)
    ensures TextInked(f, call, i, j) && !On(call.box, i, j)
  {
    i, j := CellInks(f, call, k, u, v);
  }

  lemma InsideByCells(f: Typeface, call: TextCall, i: int, j: int)
    requires forall k: nat, u, v | InkedCell(f, call, k, u, v) :: CellInBox(f, call, k, u, v)
    requires TextInked(f, call, i, j)
    ensures On(call.box, i, j)
  {
    IndentIsSmall(f, call);
    var k, u, v := InkHasCell(f, call, i, j);
    assert CellInBox(f, call, k, u, v);
  }

  /** The fonts keep every panel text in its box exactly when no cell of a glyph, placed by the advances
      before it, the indent and the baseline, falls outside. */
  lemma ConfinedExactly(faces: Role -> Typeface)
    ensures Confined(FontEnv(faces)) <==> AllInBox(faces)
  {
    if AllInBox(faces) {
      forall call: TextCall, i, j | WellPlaced(call) && !On(call.box, i, j)
        ensures FontEnv(faces).draw(call, i, j) == []
      {
        var f := faces(call.role);
        DrawnWhereInked(f, Shown(f, call), PlaceOf(f, call), i, j);
        if TextInked(f, call, i, j) { InsideByCells(f, call, i, j); }
      }
    } else {
      var call: TextCall, k: nat, u, v :| WellPlaced(call) && InkedCell(faces(call.role), call, k, u, v)
                                          && !CellInBox(faces(call.role), call, k, u, v);
      var f := faces(call.role);
      var i, j := CellOutside(f, call, k, u, v);
      DrawnWhereInked(f, Shown(f, call), PlaceOf(f, call), i, j);
      assert FontEnv(faces).draw(call, i, j) != [];
    }
  }

  /** Every glyph of the face that a text can show keeps above and below to the box, and, in a centred
      text, to its advance on the right. */
  ghost predicate Fits(f: Typeface, call: TextCall) {
    forall cp | T.Drawable(cp) :: FitsGlyph(f, call, cp)
  }

  predicate FitsGlyph(f: Typeface, call: TextCall, cp: int) {
    var g := f.stamp(cp);
    g.Some? ==>
      && call.box.y - PANEL.y <= Baseline(f, call) + g.value.top
      && Baseline(f, call) + g.value.top + g.value.h <= call.box.y - PANEL.y + call.box.h
      && (call.centered ==> g.value.left + g.value.w <= f.advance(cp))
  }

  lemma ShownDrawable(f: Typeface, call: TextCall, k: nat)
    requires k < |Shown(f, call)|
    ensures T.Drawable(Shown(f, call)[k])
  {
    var t := Bytes(call.value);
    if k < |T.Decode(t, 0)| { T.DecodeDrawable(t, 0, k); }
  }

  lemma WidthEnds(f: Typeface, cps: seq<int>, k: nat)
    requires T.Forward(f.advance) && k < |cps|
    ensures T.Width(f.advance, cps[..k]) + f.advance(cps[k]) <= T.Width(f.advance, cps)
  {
    T.WidthSnoc(f.advance, cps, k);
    T.WidthMonotone(f.advance, cps, k + 1, |cps|);
    assert cps[..|cps|] == cps;
  }

  lemma FittingStays(f: Typeface, call: TextCall, k: nat, u: int, v: int)
    requires T.Forward(f.advance) && Fits(f, call) && InkedCell(f, call, k, u, v)
    ensures CellInBox(f, call, k, u, v)
  {
    var cps := Shown(f, call);
    ShownDrawable(f, call, k);
    assert FitsGlyph(f, call, cps[k]);
    IndentIsSmall(f, call);
    WidthEnds(f, cps, k);
  }

  /** With fonts whose glyphs fit the boxes they are used in, the panel's text is confined. */
  lemma FontConfined(faces: Role -> Typeface)
    requires forall role :: T.Forward(faces(role).advance)
    requires forall call | WellPlaced(call) :: Fits(faces(call.role), call)
    ensures Confined(FontEnv(faces))
  {
    forall call: TextCall, k: nat, u, v | WellPlaced(call) && InkedCell(faces(call.role), call, k, u, v)
      ensures CellInBox(faces(call.role), call, k, u, v)
    {
      FittingStays(faces(call.role), call, k, u, v);
    }
    ConfinedExactly(faces);
  }

  /** So with such fonts the incremental paint is the full paint. */
  lemma FontUpdateIsFull(faces: Role -> Typeface, v: View, m: Model, p: Model, i: int, j: int)
    requires forall role :: T.Forward(faces(role).advance)
    requires forall call | WellPlaced(call) :: Fits(faces(call.role), call)
    ensures var env := FontEnv(faces); Run(env, v, UpdateOps(m, p), i, j, Full(env, v, p, i, j)) == Full(env, v, m, i, j)
  {
    FontConfined(faces);
    UpdateIsFull(FontEnv(faces), v, m, p, i, j);
  }

  // ---------- A text that leaves its box ----------

  const WIDE_STAMP := Stamp(0, -10, 60, 10, (_, _) => 255)

  /** A face whose glyphs are 60 pixels wide and advance the pen by 10. */
  const WIDE := Typeface(20, 15, _ => 10, _ => Some(WIDE_STAMP))

  const WIDE_FACES: Role -> Typeface := _ => WIDE

  const MINUTE := TextCall(Label, TimerSelection(0), "1", INK, true, 0)

  lemma MinuteShown()
    ensures Indent(WIDE, MINUTE) == 24 && Shown(WIDE, MINUTE) == [49]
  {
    var t := Bytes("1");
    assert t == [49];
    assert T.Decode(t, 1) == [] && T.Decode(t, 0) == [49];
    assert T.Width(WIDE.advance, [49][..0]) == 0 && T.Width(WIDE.advance, [49]) == 10;
  }

  /** Centred, such a digit of the timer begins 24 pixels into its box of 58 and reaches past it. */
  lemma OverhangHappens()
    ensures WellPlaced(MINUTE) && Overhangs(WIDE, MINUTE) && !Confined(FontEnv(WIDE_FACES))
  {
    MinuteShown();
    assert T.Width(WIDE.advance, [49][..0]) == 0;
    assert Alpha(INK) == 255;
    assert InkedCell(WIDE, MINUTE, 0, 34, 0) && !CellAcross(WIDE, MINUTE, 0, 34, 0);
    assert WIDE_FACES(MINUTE.role) == WIDE && !CellInBox(WIDE, MINUTE, 0, 34, 0);
    ConfinedExactly(WIDE_FACES);
  }
}
