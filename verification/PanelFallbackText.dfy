/** The text painter used when no font is open: 3x5 glyphs at three pixels a cell, cut to the
    box and composited through a mask. It meets the confinement the painter's theorem asks for. */
module PanelFallbackText {
  import opened CArithmetic
  import opened Pixels
  import opened Canvases
  import opened PanelPaint

  const CELL := 3
  const FIT_CAPACITY := 128

  /** Which cells of a glyph are set, by character, row and column. */
  type Glyphs = (char, int, int) -> bool

  function Width(n: int): int { n * 4 * CELL - CELL }

  /** How many characters are kept: the buffer holds 127, and the text must not be wider than
      the box. */
  function Shortened(n: nat, w: int): (count: nat)
    ensures count <= n && (count > 0 ==> Width(count) <= w)
    ensures count < n ==> Width(count + 1) > w
  {
    if n > 0 && Width(n) > w then Shortened(n - 1, w) else n
  }

  function Kept(value: string, w: int): nat {
    Shortened(if |value| >= FIT_CAPACITY then FIT_CAPACITY - 1 else |value|, w)
  }

  /** A shortened text of three characters or more ends in dots. */
  function FitText(value: string, w: int): (fit: string)
    ensures |fit| == Kept(value, w)
  {
    var count := Kept(value, w);
    if |value| > count && count >= 3 then value[..count - 3] + "..." else value[..count]
  }

  /** The mask of a text, as wide as the box and 15 rows high. */
  predicate MaskSet(glyphs: Glyphs, fit: string, w: int, mi: int, mj: int) {
    && 0 <= mi < w && 0 <= mj < 5 * CELL && mi / (4 * CELL) < |fit|
    && mi % (4 * CELL) < 3 * CELL
    && glyphs(fit[mi / (4 * CELL)], mj / CELL, mi % (4 * CELL) / CELL)
  }

  function Left(call: TextCall): int {
    var width := Width(|call.value|);
    call.box.x - PANEL.x +
    if call.centered && width < call.box.w then TruncDiv(call.box.w - width, 2) else 0
  }

  function Top(call: TextCall): int {
    if call.baseline != 0 then call.baseline - PANEL.y - 5 * CELL
    else call.box.y - PANEL.y + TruncDiv(call.box.h - 5 * CELL, 2)
  }

  function FallbackEnv(glyphs: Glyphs): Env {
    Env((call: TextCall, i: int, j: int) =>
      if call.color != 0 && MaskSet(glyphs, FitText(call.value, call.box.w), call.box.w, i - Left(call), j - Top(call))
      then [call.color] else [])
  }

  lemma MaskInsideText(glyphs: Glyphs, fit: string, w: int, mi: int, mj: int)
    requires MaskSet(glyphs, fit, w, mi, mj)
    ensures mi < Width(|fit|)
  {
    var p := mi / (4 * CELL);
    assert mi == p * 12 + mi % 12;
  }

  /** The fallback never draws outside the box of a well placed text, whatever the glyphs. */
  lemma FallbackConfined(glyphs: Glyphs)
    ensures Confined(FallbackEnv(glyphs))
  {
    forall call: TextCall, i, j | WellPlaced(call) && !On(call.box, i, j)
      ensures FallbackEnv(glyphs).draw(call, i, j) == []
    {
      var fit := FitText(call.value, call.box.w);
      PlacedHasRoom(call);
      if MaskSet(glyphs, fit, call.box.w, i - Left(call), j - Top(call)) {
        MaskInsideText(glyphs, fit, call.box.w, i - Left(call), j - Top(call));
      }
    }
  }

  /** So without fonts the incremental paint is the full paint with no assumption left. */
  lemma FallbackUpdateIsFull(glyphs: Glyphs, v: View, m: Model, p: Model, i: int, j: int)
    ensures var env := FallbackEnv(glyphs);
            Run(env, v, UpdateOps(m, p), i, j, Full(env, v, p, i, j)) == Full(env, v, m, i, j)
  {
    FallbackConfined(glyphs);
    UpdateIsFull(FallbackEnv(glyphs), v, m, p, i, j);
  }
}
