/** What a full paint of the panel shows: at every pixel off the rounded corners, a ground colour told from
    the model, and over it what the text painter draws there. */
module PanelView {
  import opened Pixels
  import opened Canvases
  import opened PanelPaint
  import Cov = Coverage
  import Deep = DeepPixels

  /** A tile's colour over the glass, and the colours that are painted opaque. */
  const TILED: Pixel := 0xFB29292D
  const LIT: Pixel := 0xFFE08A00
  const WHITE: Pixel := 0xFFF5F5F7
  const GREY: Pixel := 0xFF9A9AA0

  // ---------- The colours that reach a pixel ----------

  function Ink(env: Env, op: Op, i: int, j: int): seq<Pixel> {
    match op
    case Round(b, r, col) =>
      if On(b, i, j) then
        [Faded(col, Cov.Oracle(i + PANEL.x - b.x, j + PANEL.y - b.y, b.w, b.h, BlendRadius(b, r)))]
      else []
    case Rect(b, col) => if On(b, i, j) then [col] else []
    case Clear(_) => []
    case Text(call) => env.draw(call, i, j)
  }

  function Inks(env: Env, ops: seq<Op>, i: int, j: int): seq<Pixel> {
    if ops == [] then [] else Inks(env, ops[..|ops| - 1], i, j) + Ink(env, ops[|ops| - 1], i, j)
  }

  predicate NoClear(ops: seq<Op>) { forall op | op in ops :: !op.Clear? }

  lemma InkIsOp(env: Env, v: View, op: Op, i: int, j: int, dst: Pixel)
    requires v.Visible(i, j) && !op.Clear?
    ensures OpAt(env, v, op, i, j, dst) == OverAll(dst, Ink(env, op, i, j))
  {
    if !op.Text? && On(op.box, i, j) {
      var ink := Ink(env, op, i, j);
      assert ink[..0] == [];
    }
  }

  /** A list of drawing operations composites its colours in order. */
  lemma {:induction false} RunIsInks(env: Env, v: View, ops: seq<Op>, i: int, j: int, dst: Pixel)
    requires v.Visible(i, j) && NoClear(ops)
    ensures Run(env, v, ops, i, j, dst) == OverAll(dst, Inks(env, ops, i, j))
  {
    if ops != [] {
      var n := |ops| - 1;
      assert ops[n] in ops;
      RunIsInks(env, v, ops[..n], i, j, dst);
      InkIsOp(env, v, ops[n], i, j, Run(env, v, ops[..n], i, j, dst));
      OverAllConcat(dst, Inks(env, ops[..n], i, j), Ink(env, ops[n], i, j));
    }
  }

  lemma {:induction false} InksConcat(env: Env, a: seq<Op>, b: seq<Op>, i: int, j: int)
    ensures Inks(env, a + b, i, j) == Inks(env, a, i, j) + Inks(env, b, i, j)
  {
    if b == [] {
      assert a + b == a;
    } else {
      var n := |b| - 1;
      assert (a + b)[..|a + b| - 1] == a + b[..n];
      InksConcat(env, a, b[..n], i, j);
    }
  }

  lemma InksOne(env: Env, a: Op, i: int, j: int)
    ensures Inks(env, [a], i, j) == Ink(env, a, i, j)
  {
    assert [a][..0] == [];
  }

  lemma InksTwo(env: Env, a: Op, b: Op, i: int, j: int)
    ensures Inks(env, [a, b], i, j) == Ink(env, a, i, j) + Ink(env, b, i, j)
  {
    assert [a, b] == [a] + [b];
    InksConcat(env, [a], [b], i, j);
    InksOne(env, a, i, j);
    InksOne(env, b, i, j);
  }

  lemma InksThree(env: Env, a: Op, b: Op, c: Op, i: int, j: int)
    ensures Inks(env, [a, b, c], i, j) == Ink(env, a, i, j) + Ink(env, b, i, j) + Ink(env, c, i, j)
  {
    assert [a, b, c] == [a, b] + [c];
    InksConcat(env, [a, b], [c], i, j);
    InksTwo(env, a, b, i, j);
    InksOne(env, c, i, j);
  }

  // ---------- Covered whole ----------

  /** In the straight part of a rounded box, away from all four corners. */
  predicate Straight(b: Box, r: int, i: int, j: int) {
    && On(b, i, j) && 2 * r <= b.w && 2 * r <= b.h
    && (b.x + r <= i + PANEL.x < b.x + b.w - r || b.y + r <= j + PANEL.y < b.y + b.h - r)
  }

  lemma StraightInk(env: Env, b: Box, r: int, col: Pixel, i: int, j: int)
    requires 0 <= r && Straight(b, r, i, j)
    ensures Ink(env, Round(b, r, col), i, j) == [col]
  {
    Cov.FastIsOracle(i + PANEL.x - b.x, j + PANEL.y - b.y, b.w, b.h, r);
    FadedFull(col);
  }

  /** The middle of a dot: two pixels or more from its box's sides. */
  predicate InDot(b: Box, i: int, j: int) {
    b.x + 2 <= i + PANEL.x < b.x + 10 && b.y + 2 <= j + PANEL.y < b.y + 10
  }

  lemma DotInk(env: Env, b: Box, col: Pixel, i: int, j: int)
    requires b.w == 12 && b.h == 12 && InDot(b, i, j)
    ensures Ink(env, Round(b, 6, col), i, j) == [col]
  {
    Deep.FullInside(i + PANEL.x - b.x, j + PANEL.y - b.y, 12, 12, 6, 2);
    FadedFull(col);
  }

  lemma NoInk(env: Env, op: Op, i: int, j: int)
    requires Confined(env) && !On(op.Area(), i, j) && (op.Text? ==> WellPlaced(op.call))
    ensures Ink(env, op, i, j) == []
  {
  }

  // ---------- Grounds ----------

  lemma OverOne(dst: Pixel, col: Pixel, rest: seq<Pixel>)
    ensures OverAll(dst, [col] + rest) == OverAll(Over(dst, col), rest)
  {
    OverAllConcat(dst, [col], rest);
    assert [col][..0] == [];
  }

  lemma TileOnGlass(rest: seq<Pixel>)
    ensures OverAll(GLASS, [TILE] + rest) == OverAll(TILED, rest)
  {
    OverOne(GLASS, TILE, rest);
    TileOverGlass();
  }

  lemma TileParts()
    ensures Alpha(TILE) == 235 && Red(TILE) == 42 && Green(TILE) == 42 && Blue(TILE) == 46
    ensures Alpha(GLASS) == 199 && Red(GLASS) == 20 && Green(GLASS) == 20 && Blue(GLASS) == 22
  {
  }

  lemma TileMeans()
    ensures OverAlpha(235, 199) == 251
    ensures OverChannel(42, 20, 235, 199) == 41 && OverChannel(46, 22, 235, 199) == 45
  {
    assert SourceWeight(235) == 59925 && TargetWeight(235, 199) == 3980;
  }

  lemma TileOverGlass()
    ensures Over(GLASS, TILE) == TILED
  {
    TileParts();
    TileMeans();
    OverParts(GLASS, TILE, R);
    OverParts(GLASS, TILE, G);
    OverParts(GLASS, TILE, B);
    PackUnpack(Over(GLASS, TILE));
    hide Over, OverAlpha, OverChannel;
  }

  /** An opaque ground: what was under it is gone. */
  lemma OpaqueGround(dst: Pixel, under: seq<Pixel>, col: Pixel, rest: seq<Pixel>)
    requires Alpha(col) == 255
    ensures OverAll(dst, under + [col] + rest) == OverAll(col, rest)
  {
    OpaqueHides(dst, under, col, rest);
  }

  lemma {:induction false} SegmentsDraw(m: Model, n: nat)
    requires n <= 4
    ensures NoClear(SegmentOps(m, n))
  {
    if n > 0 { SegmentsDraw(m, n - 1); }
  }

  lemma ControlsDraw(m: Model, k: Control)
    ensures NoClear(ControlOps(m, k))
  {
    SegmentsDraw(m, 4);
  }

  /** A full paint at a pixel of a control: the control's colours over the glass. */
  lemma FullIsInks(env: Env, v: View, m: Model, k: Control, i: int, j: int)
    requires Confined(env) && v.Visible(i, j) && On(Region(k), i, j)
    ensures Full(env, v, m, i, j) == OverAll(GLASS, Inks(env, ControlOps(m, k), i, j))
  {
    hide Confined;
    FullAtControl(env, v, m, k, i, j);
    ControlsDraw(m, k);
    RunIsInks(env, v, ControlOps(m, k), i, j, GLASS);
  }

  // ---------- Brightness ----------

  /** The level of the model and its maximum as the tile shows them. */
  function ShownMaximum(m: Model): int { if m.brightnessMax < 8 then 8 else m.brightnessMax }

  function ShownLevel(m: Model): int {
    if m.brightness < 8 then 8
    else if m.brightness > ShownMaximum(m) then ShownMaximum(m)
    else m.brightness
  }

  /** `h` rows of the 312 are lit: the share of the level above 8, rounded down. */
  predicate LitRows(m: Model, h: int) {
    if ShownMaximum(m) == 8 then h == 0
    else h * (ShownMaximum(m) - 8) <= (ShownLevel(m) - 8) * 312 < (h + 1) * (ShownMaximum(m) - 8)
  }

  lemma RowsOfFill(m: Model, h: int)
    requires LitRows(m, h)
    ensures h == FillHeight(m)
  {
    if ShownMaximum(m) != 8 { SameQuotient((ShownLevel(m) - 8) * 312, ShownMaximum(m) - 8, h); }
  }

  lemma SameQuotient(n: int, d: int, q: int)
    requires d > 0 && q * d <= n < (q + 1) * d
    ensures n / d == q
  {
    DivBetween(n, d, q, q);
  }

  lemma MoreRows(a: int, b: int, d: nat, h: int, g: int)
    requires h * d <= a && b < (g + 1) * d && h > g
    ensures a > b
  {
    MulBounds(g + 1, d, g + 1, h);
  }

  /** None at level 8, all at the maximum, and never fewer for a higher level. */
  lemma LitRowsRise(m: Model, p: Model, h: int, g: int)
    requires LitRows(m, h) && LitRows(p, g) && ShownMaximum(m) == ShownMaximum(p)
    ensures ShownLevel(m) == 8 ==> h == 0
    ensures ShownLevel(m) == ShownMaximum(m) > 8 ==> h == 312
    ensures ShownLevel(m) <= ShownLevel(p) ==> h <= g
  {
    var d := ShownMaximum(m) - 8;
    if d > 0 {
      var a, b := (ShownLevel(m) - 8) * 312, (ShownLevel(p) - 8) * 312;
      if a == 0 { SameQuotient(0, d, h); SameQuotient(0, d, 0); }
      if a == d * 312 { SameQuotient(a, d, h); SameQuotient(a, d, 312); }
      if h > g { MoreRows(a, b, d, h, g); }
    }
  }

  function BrightTexts(env: Env, m: Model, i: int, j: int): seq<Pixel> {
    env.draw(TextCall(Label, BRIGHT_LABEL, "Brightness", INK, true, 0), i, j) +
    env.draw(TextCall(Big, BRIGHT_VALUE, Decimal(Percent(m)), INK, true, 0), i, j) +
    env.draw(TextCall(Label, BRIGHT_PERCENT, "%", INK, true, 0), i, j)
  }

  lemma FillInk(env: Env, m: Model, h: int, i: int, j: int)
    requires LitRows(m, h) && 732 <= i + PANEL.x < 812 && 80 <= j + PANEL.y < 408
    ensures Inks(env, BrightFillOps(m), i, j) == if 400 - h <= j + PANEL.y < 400 then [LIT] else []
  {
    hide Confined;
    RowsOfFill(m, h);
    if h > 0 {
      var r := if h < 24 then h / 2 else 12;
      InksOne(env, Round(BrightFill(m), r, AMBER), i, j);
      if On(BrightFill(m), i, j) { StraightInk(env, BrightFill(m), r, AMBER, i, j); }
    }
  }

  function Lit(lit: bool): seq<Pixel> { if lit then [LIT] else [] }

  lemma BrightInks(env: Env, m: Model, h: int, i: int, j: int)
    requires LitRows(m, h) && 732 <= i + PANEL.x < 812 && 80 <= j + PANEL.y < 408
    ensures Inks(env, BrightOps(m), i, j) == [TILE] + Lit(400 - h <= j + PANEL.y < 400) + BrightTexts(env, m, i, j)
  {
    var tile := Round(BRIGHT, TILE_RADIUS, TILE);
    var a := Text(TextCall(Label, BRIGHT_LABEL, "Brightness", INK, true, 0));
    var b := Text(TextCall(Big, BRIGHT_VALUE, Decimal(Percent(m)), INK, true, 0));
    var c := Text(TextCall(Label, BRIGHT_PERCENT, "%", INK, true, 0));
    InksConcat(env, [tile] + BrightFillOps(m), [a, b, c], i, j);
    InksConcat(env, [tile], BrightFillOps(m), i, j);
    InksOne(env, tile, i, j);
    InksThree(env, a, b, c, i, j);
    StraightInk(env, BRIGHT, TILE_RADIUS, TILE, i, j);
    FillInk(env, m, h, i, j);
    hide Decimal, Percent, BrightFillOps, Inks, LitRows;
  }

  /** The brightness tile between its rounded sides: the lit rows are the lowest of the 312. */
  lemma BrightnessShows(env: Env, v: View, m: Model, h: int, i: int, j: int)
    requires Confined(env) && v.Visible(i, j) && LitRows(m, h)
    requires 732 <= i + PANEL.x < 812 && 80 <= j + PANEL.y < 408
    ensures Full(env, v, m, i, j) ==
            OverAll(if 400 - h <= j + PANEL.y < 400 then LIT else TILED, BrightTexts(env, m, i, j))
  {
    hide Full, Confined, LitRows, BrightOps, Inks, BrightTexts;
    FullIsInks(env, v, m, CBright, i, j);
    BrightInks(env, m, h, i, j);
    GroundOfTile(400 - h <= j + PANEL.y < 400, BrightTexts(env, m, i, j));
  }

  /** A tile's ground, with an opaque colour over it or without. */
  lemma GroundOfTile(lit: bool, rest: seq<Pixel>)
    ensures OverAll(GLASS, [TILE] + Lit(lit) + rest) == OverAll(if lit then LIT else TILED, rest)
  {
    if lit {
      OpaqueGround(GLASS, [TILE], LIT, rest);
    } else {
      assert [TILE] + [] + rest == [TILE] + rest;
      TileOnGlass(rest);
    }
  }

  // ---------- The other tiles ----------

  /** Off the corners of a tile. */
  predicate TilePixel(b: Box, i: int, j: int) { Straight(b, 20, i, j) }

  function ActionTexts(env: Env, tile: Box, name: string, armed: bool, i: int, j: int): seq<Pixel> {
    env.draw(TextCall(Label, if armed then ArmedLabel(tile) else ActionLabel(tile), name, INK, true, 0), i, j) +
    if armed then env.draw(TextCall(Label, ArmedHint(tile), "Tap again", INK, true, 0), i, j) else []
  }

  function ActionCaption(tile: Box, name: string, armed: bool): Op {
    Text(TextCall(Label, if armed then ArmedLabel(tile) else ActionLabel(tile), name, INK, true, 0))
  }

  function ActionHint(tile: Box): Op { Text(TextCall(Label, ArmedHint(tile), "Tap again", INK, true, 0)) }

  function ActionGround(tile: Box, armed: bool): Op { Round(tile, TILE_RADIUS, if armed then AMBER else TILE) }

  lemma ActionParts(tile: Box, name: string, armed: bool)
    ensures ActionOps(tile, name, armed) ==
            [ActionGround(tile, armed), ActionCaption(tile, name, armed)] + if armed then [ActionHint(tile)] else []
  {
  }

  lemma GroundInk(env: Env, tile: Box, armed: bool, i: int, j: int)
    requires TilePixel(tile, i, j)
    ensures Ink(env, ActionGround(tile, armed), i, j) == [if armed then LIT else TILE]
  {
    StraightInk(env, tile, TILE_RADIUS, if armed then AMBER else TILE, i, j);
  }

  lemma TextsInk(env: Env, tile: Box, name: string, armed: bool, i: int, j: int)
    ensures ActionTexts(env, tile, name, armed, i, j) ==
            Ink(env, ActionCaption(tile, name, armed), i, j) + if armed then Ink(env, ActionHint(tile), i, j) else []
  {
    hide On, ArmedLabel, ActionLabel, ArmedHint;
  }

  lemma ActionInks(env: Env, tile: Box, name: string, armed: bool, i: int, j: int)
    requires TilePixel(tile, i, j)
    ensures Inks(env, ActionOps(tile, name, armed), i, j) ==
            [if armed then LIT else TILE] + ActionTexts(env, tile, name, armed, i, j)
  {
    hide TilePixel, Ink, Inks, ActionOps, ActionTexts, ActionGround, ActionCaption, ActionHint;
    ActionParts(tile, name, armed);
    GroundInk(env, tile, armed, i, j);
    TextsInk(env, tile, name, armed, i, j);
    var ground, caption, hint := ActionGround(tile, armed), ActionCaption(tile, name, armed), ActionHint(tile);
    InksTwo(env, ground, caption, i, j);
    InksConcat(env, [ground, caption], if armed then [hint] else [], i, j);
    InksOne(env, hint, i, j);
    NoOps(env, i, j);
  }

  lemma NoOps(env: Env, i: int, j: int)
    ensures Inks(env, [], i, j) == []
  {
  }

  lemma LitOrTile(lit: bool, rest: seq<Pixel>)
    ensures OverAll(GLASS, [if lit then LIT else TILE] + rest) == OverAll(if lit then LIT else TILED, rest)
  {
    if lit {
      assert [] + [LIT] + rest == [LIT] + rest;
      OpaqueGround(GLASS, [], LIT, rest);
    } else {
      TileOnGlass(rest);
    }
  }

  /** A reboot tile is lit exactly when it is the armed one: 1 is rescue, 2 the loader. */
  lemma RebootTilesShow(env: Env, v: View, m: Model, i: int, j: int)
    requires Confined(env) && v.Visible(i, j)
    ensures TilePixel(RESCUE, i, j) ==>
              Full(env, v, m, i, j) ==
              OverAll(if m.armed == 1 then LIT else TILED, ActionTexts(env, RESCUE, "Rescue", m.armed == 1, i, j))
    ensures TilePixel(LOADER, i, j) ==>
              Full(env, v, m, i, j) ==
              OverAll(if m.armed == 2 then LIT else TILED, ActionTexts(env, LOADER, "Loader", m.armed == 2, i, j))
  {
    hide Full, Confined, ActionOps, Inks, ActionTexts;
    if TilePixel(RESCUE, i, j) {
      FullIsInks(env, v, m, CRescue, i, j);
      ActionInks(env, RESCUE, "Rescue", m.armed == 1, i, j);
      LitOrTile(m.armed == 1, ActionTexts(env, RESCUE, "Rescue", m.armed == 1, i, j));
    }
    if TilePixel(LOADER, i, j) {
      FullIsInks(env, v, m, CLoader, i, j);
      ActionInks(env, LOADER, "Loader", m.armed == 2, i, j);
      LitOrTile(m.armed == 2, ActionTexts(env, LOADER, "Loader", m.armed == 2, i, j));
    }
  }

  lemma AutoInks(env: Env, m: Model, i: int, j: int)
    requires TilePixel(AUTO, i, j) && (On(AUTO_DOT, i, j) ==> InDot(AUTO_DOT, i, j))
    ensures Inks(env, AutoOps(m), i, j) ==
            [if m.autoOn then LIT else TILE] + env.draw(TextCall(Label, AUTO_LABEL, "Auto", INK, false, 0), i, j) +
            if On(AUTO_DOT, i, j) then [if m.autoOn then WHITE else GREY] else []
  {
    var caption := Text(TextCall(Label, AUTO_LABEL, "Auto", INK, false, 0));
    var dot := if m.autoOn then INK else MUTED;
    StraightInk(env, AUTO, TILE_RADIUS, if m.autoOn then AMBER else TILE, i, j);
    if On(AUTO_DOT, i, j) { DotInk(env, AUTO_DOT, dot, i, j); }
    InksThree(env, Round(AUTO, TILE_RADIUS, if m.autoOn then AMBER else TILE), caption,
              Round(AUTO_DOT, DOT_RADIUS, dot), i, j);
  }

  /** The automatic tile is lit exactly while it is on, and its dot is white then and grey otherwise. */
  lemma AutoShows(env: Env, v: View, m: Model, i: int, j: int)
    requires Confined(env) && v.Visible(i, j) && TilePixel(AUTO, i, j)
    ensures InDot(AUTO_DOT, i, j) ==> Full(env, v, m, i, j) == if m.autoOn then WHITE else GREY
    ensures !On(AUTO_DOT, i, j) ==>
              Full(env, v, m, i, j) ==
              OverAll(if m.autoOn then LIT else TILED, env.draw(TextCall(Label, AUTO_LABEL, "Auto", INK, false, 0), i, j))
  {
    hide Full, Confined, AutoOps, Inks;
    var ground, text := [if m.autoOn then LIT else TILE], env.draw(TextCall(Label, AUTO_LABEL, "Auto", INK, false, 0), i, j);
    FullIsInks(env, v, m, CAuto, i, j);
    if InDot(AUTO_DOT, i, j) {
      AutoInks(env, m, i, j);
      var dot := if m.autoOn then WHITE else GREY;
      assert ground + text + [dot] + [] == ground + text + [dot];
      OpaqueGround(GLASS, ground + text, dot, []);
    } else if !On(AUTO_DOT, i, j) {
      AutoInks(env, m, i, j);
      assert ground + text + [] == ground + text;
      LitOrTile(m.autoOn, text);
    }
  }

  // ---------- Wi-Fi ----------

  function NameText(m: Model): string {
    match m.wifi
    case Off => "Off"
    case Starting => "Turning on" + DOTS
    case Associating => "Associating" + DOTS
    case Connected => if m.ssid == "" then "Connected" else m.ssid
    case WifiFailed => "Failed"
  }

  function DetailText(m: Model): string {
    match m.wifi
    case Off => "Tap to turn on"
    case Starting => m.ssid
    case Associating => m.ssid
    case Connected => m.addr
    case WifiFailed => "Tap to retry"
  }

  /** The lines under the dot: name, detail and, while connected, the signal. */
  function WifiTexts(env: Env, m: Model, i: int, j: int): seq<Pixel> {
    env.draw(TextCall(Value, WIFI_NAME, NameText(m), INK, false, 0), i, j) +
    env.draw(TextCall(Label, WIFI_ADDRESS, DetailText(m), MUTED, false, 0), i, j) +
    if m.wifi.Connected? then env.draw(TextCall(Label, WIFI_SIGNAL, Decimal(m.levelDbm) + " dBm", MUTED, false, 0), i, j)
    else []
  }

  lemma WifiHeadInks(env: Env, m: Model, i: int, j: int)
    requires TilePixel(WIFI, i, j) && (On(WIFI_DOT, i, j) ==> InDot(WIFI_DOT, i, j))
    ensures Inks(env, WifiBaseOps(m)[..3], i, j) ==
            [TILE] + env.draw(TextCall(Title, WIFI_TITLE, "Wi-Fi", INK, false, 0), i, j) +
            if On(WIFI_DOT, i, j) then [if m.wifi.Connected? then LIT else GREY] else []
  {
    var tile, title := Round(WIFI, TILE_RADIUS, TILE), Text(TextCall(Title, WIFI_TITLE, "Wi-Fi", INK, false, 0));
    var dot := Round(WIFI_DOT, DOT_RADIUS, if m.wifi == Connected then AMBER else MUTED);
    StraightInk(env, WIFI, TILE_RADIUS, TILE, i, j);
    if On(WIFI_DOT, i, j) { DotInk(env, WIFI_DOT, dot.color, i, j); }
    InksThree(env, tile, title, dot, i, j);
    hide Inks;
    assert WifiBaseOps(m)[..3] == [tile, title, dot];
  }

  lemma WifiLineInks(env: Env, m: Model, i: int, j: int)
    ensures Inks(env, WifiBaseOps(m)[3..] + SignalOps(m), i, j) == WifiTexts(env, m, i, j)
  {
    var name := Text(TextCall(Value, WIFI_NAME, WifiName(m), INK, false, 0));
    var detail := Text(TextCall(Label, WIFI_ADDRESS, WifiDetail(m), MUTED, false, 0));
    var signal := Text(TextCall(Label, WIFI_SIGNAL, Decimal(m.levelDbm) + " dBm", MUTED, false, 0));
    assert WifiName(m) == NameText(m) && WifiDetail(m) == DetailText(m);
    hide Decimal, WifiName, WifiDetail, NameText, DetailText;
    InksTwo(env, name, detail, i, j);
    InksConcat(env, [name, detail], SignalOps(m), i, j);
    InksOne(env, signal, i, j);
    NoOps(env, i, j);
    hide Inks;
    assert WifiBaseOps(m)[3..] == [name, detail];
  }

  lemma WifiInks(env: Env, m: Model, i: int, j: int)
    requires TilePixel(WIFI, i, j) && (On(WIFI_DOT, i, j) ==> InDot(WIFI_DOT, i, j))
    ensures Inks(env, WifiOps(m), i, j) ==
            [TILE] + env.draw(TextCall(Title, WIFI_TITLE, "Wi-Fi", INK, false, 0), i, j) +
            (if On(WIFI_DOT, i, j) then [if m.wifi.Connected? then LIT else GREY] else []) + WifiTexts(env, m, i, j)
  {
    WifiHeadInks(env, m, i, j);
    WifiLineInks(env, m, i, j);
    var base := WifiBaseOps(m);
    assert |base| == 5;
    hide Inks, WifiBaseOps, SignalOps, WifiTexts;
    assert WifiOps(m) == base[..3] + (base[3..] + SignalOps(m));
    InksConcat(env, base[..3], base[3..] + SignalOps(m), i, j);
  }

  /** The Wi-Fi tile: its dot is lit exactly while connected and grey otherwise; off the dot, the title
      and the lines that go with the state. */
  lemma WifiShows(env: Env, v: View, m: Model, i: int, j: int)
    requires Confined(env) && v.Visible(i, j) && TilePixel(WIFI, i, j)
    ensures InDot(WIFI_DOT, i, j) ==>
              Full(env, v, m, i, j) == OverAll(if m.wifi.Connected? then LIT else GREY, WifiTexts(env, m, i, j))
    ensures !On(WIFI_DOT, i, j) ==>
              Full(env, v, m, i, j) ==
              OverAll(TILED, env.draw(TextCall(Title, WIFI_TITLE, "Wi-Fi", INK, false, 0), i, j) + WifiTexts(env, m, i, j))
  {
    hide Full, Confined, WifiOps, Inks, WifiTexts;
    var title, lines := env.draw(TextCall(Title, WIFI_TITLE, "Wi-Fi", INK, false, 0), i, j), WifiTexts(env, m, i, j);
    FullIsInks(env, v, m, CWifi, i, j);
    if InDot(WIFI_DOT, i, j) {
      WifiInks(env, m, i, j);
      OpaqueGround(GLASS, [TILE] + title, if m.wifi.Connected? then LIT else GREY, lines);
    } else if !On(WIFI_DOT, i, j) {
      WifiInks(env, m, i, j);
      assert [TILE] + title + [] + lines == [TILE] + (title + lines);
      TileOnGlass(title + lines);
    }
  }

  // ---------- The timer ----------

  function SegmentText(k: nat): string { if k == 0 then "1" else if k == 1 then "5" else if k == 2 then "15" else "never" }

  /** The sleep minutes that segment `k` stands for; 0 is never. */
  function SegmentMinutes(k: nat): int { if k == 0 then 1 else if k == 1 then 5 else if k == 2 then 15 else 0 }

  /** Off the corners of segment `k`. */
  predicate SegmentPixel(k: nat, i: int, j: int) { Straight(TimerSelection(k), 12, i, j) }

  /** What segment `n` draws. */
  function OwnSegment(m: Model, n: nat): seq<Op>
    requires n < 4
  {
    (if m.sleepMinutes == MINUTES[n] then [Round(TimerSelection(n), SEGMENT_RADIUS, AMBER)] else []) +
    [Text(TextCall(Label, TimerSelection(n), MINUTE_LABELS[n], INK, true, 0))]
  }

  lemma SegmentOpsStep(m: Model, n: nat)
    requires n < 4
    ensures SegmentOps(m, n + 1) == SegmentOps(m, n) + OwnSegment(m, n)
  {
  }

  lemma OwnInks(env: Env, m: Model, k: nat, i: int, j: int)
    requires k < 4 && SegmentPixel(k, i, j)
    ensures Inks(env, OwnSegment(m, k), i, j) ==
            Lit(m.sleepMinutes == SegmentMinutes(k)) +
            env.draw(TextCall(Label, TimerSelection(k), SegmentText(k), INK, true, 0), i, j)
  {
    var ground := Round(TimerSelection(k), SEGMENT_RADIUS, AMBER);
    var caption := Text(TextCall(Label, TimerSelection(k), MINUTE_LABELS[k], INK, true, 0));
    StraightInk(env, TimerSelection(k), SEGMENT_RADIUS, AMBER, i, j);
    InksOne(env, ground, i, j);
    InksOne(env, caption, i, j);
    NoOps(env, i, j);
    InksConcat(env, if m.sleepMinutes == MINUTES[k] then [ground] else [], [caption], i, j);
  }

  lemma OtherInks(env: Env, m: Model, n: nat, k: nat, i: int, j: int)
    requires Confined(env) && n < 4 && k < 4 && n != k && SegmentPixel(k, i, j)
    ensures Inks(env, OwnSegment(m, n), i, j) == []
  {
    var ground := Round(TimerSelection(n), SEGMENT_RADIUS, AMBER);
    var caption := Text(TextCall(Label, TimerSelection(n), MINUTE_LABELS[n], INK, true, 0));
    NoInk(env, ground, i, j);
    NoInk(env, caption, i, j);
    InksOne(env, ground, i, j);
    InksOne(env, caption, i, j);
    NoOps(env, i, j);
    InksConcat(env, if m.sleepMinutes == MINUTES[n] then [ground] else [], [caption], i, j);
  }

  lemma {:induction false} SegmentInks(env: Env, m: Model, n: nat, k: nat, i: int, j: int)
    requires Confined(env) && n <= 4 && k < 4 && SegmentPixel(k, i, j)
    ensures Inks(env, SegmentOps(m, n), i, j) == if n <= k then [] else Inks(env, OwnSegment(m, k), i, j)
  {
    hide Confined, SegmentPixel, Inks, OwnSegment, SegmentOps;
    if n == 0 {
      NoOps(env, i, j);
      NoSegments(m);
    } else {
      SegmentInks(env, m, n - 1, k, i, j);
      SegmentOpsStep(m, n - 1);
      InksConcat(env, SegmentOps(m, n - 1), OwnSegment(m, n - 1), i, j);
      if n - 1 != k { OtherInks(env, m, n - 1, k, i, j); }
    }
  }

  lemma NoSegments(m: Model)
    ensures SegmentOps(m, 0) == []
  {
  }

  function SegmentCaption(env: Env, k: nat, i: int, j: int): seq<Pixel> {
    env.draw(TextCall(Label, TimerSelection(k), SegmentText(k), INK, true, 0), i, j)
  }

  lemma TitleInks(env: Env, k: nat, i: int, j: int)
    requires Confined(env) && k < 4 && SegmentPixel(k, i, j) && TilePixel(TIMER, i, j)
    ensures Inks(env, TimerHead(), i, j) == [TILE]
  {
    var tile := Round(TIMER, TILE_RADIUS, TILE);
    var title := Text(TextCall(Label, TIMER_TITLE, "Screen off after", MUTED, false, 0));
    NoInk(env, title, i, j);
    StraightInk(env, TIMER, TILE_RADIUS, TILE, i, j);
    InksTwo(env, tile, title, i, j);
  }

  function TimerHead(): seq<Op> {
    [Round(TIMER, TILE_RADIUS, TILE), Text(TextCall(Label, TIMER_TITLE, "Screen off after", MUTED, false, 0))]
  }

  lemma TimerIsHead(m: Model)
    ensures TimerOps(m) == TimerHead() + SegmentOps(m, 4)
  {
  }

  lemma TimerInks(env: Env, m: Model, k: nat, i: int, j: int)
    requires Confined(env) && k < 4 && SegmentPixel(k, i, j) && TilePixel(TIMER, i, j)
    ensures Inks(env, TimerOps(m), i, j) ==
            [TILE] + Lit(m.sleepMinutes == SegmentMinutes(k)) + SegmentCaption(env, k, i, j)
  {
    hide Confined, SegmentPixel, TilePixel, Inks, SegmentOps, OwnSegment, Lit, TimerHead, TimerOps;
    hide SegmentText, SegmentMinutes;
    TitleInks(env, k, i, j);
    OwnInks(env, m, k, i, j);
    TimerIsHead(m);
    SegmentInks(env, m, 4, k, i, j);
    InksConcat(env, TimerHead(), SegmentOps(m, 4), i, j);
  }

  lemma InTimer(i: int, j: int)
    requires TilePixel(TIMER, i, j)
    ensures On(Region(CTimer), i, j)
  {
  }

  /** The lit segment of the timer is the one of the minutes set. */
  lemma TimerShows(env: Env, v: View, m: Model, k: nat, i: int, j: int)
    requires Confined(env) && v.Visible(i, j) && k < 4 && SegmentPixel(k, i, j) && TilePixel(TIMER, i, j)
    ensures Full(env, v, m, i, j) ==
            OverAll(if m.sleepMinutes == SegmentMinutes(k) then LIT else TILED, SegmentCaption(env, k, i, j))
  {
    hide Full, Confined, Inks, TimerOps, SegmentPixel, TilePixel, SegmentCaption, On;
    InTimer(i, j);
    FullIsInks(env, v, m, CTimer, i, j);
    TimerInks(env, m, k, i, j);
    GroundOfTile(m.sleepMinutes == SegmentMinutes(k), SegmentCaption(env, k, i, j));
  }

  // ---------- What never changes ----------

  lemma OffTile(i: int, j: int)
    requires TilePixel(OFFNOW, i, j)
    ensures On(OFFNOW, i, j) && !On(HANDLE, i, j) && UnderControl(i, j) && forall k: Control :: !On(Region(k), i, j)
  {
  }

  lemma OffInks(env: Env, i: int, j: int)
    requires TilePixel(OFFNOW, i, j)
    ensures Inks(env, OFF_OPS, i, j) ==
            [TILE] + (env.draw(TextCall(Label, OFF_LABEL, "Screen off", INK, true, 0), i, j) +
                      env.draw(TextCall(Label, OFF_NOW, "now", MUTED, true, 0), i, j))
  {
    var ground := Round(OFFNOW, TILE_RADIUS, TILE);
    var a := Text(TextCall(Label, OFF_LABEL, "Screen off", INK, true, 0));
    var b := Text(TextCall(Label, OFF_NOW, "now", MUTED, true, 0));
    StraightInk(env, OFFNOW, TILE_RADIUS, TILE, i, j);
    InksThree(env, ground, a, b, i, j);
  }

  /** The tile that switches the screen off. */
  lemma OffShows(env: Env, v: View, m: Model, i: int, j: int)
    requires Confined(env) && v.Visible(i, j) && TilePixel(OFFNOW, i, j)
    ensures Full(env, v, m, i, j) ==
            OverAll(TILED, env.draw(TextCall(Label, OFF_LABEL, "Screen off", INK, true, 0), i, j) +
                           env.draw(TextCall(Label, OFF_NOW, "now", MUTED, true, 0), i, j))
  {
    var texts := env.draw(TextCall(Label, OFF_LABEL, "Screen off", INK, true, 0), i, j) +
                 env.draw(TextCall(Label, OFF_NOW, "now", MUTED, true, 0), i, j);
    assert NoClear(OFF_OPS);
    hide Full, Confined, Inks, TilePixel, On, Run, UnderControl, NoClear;
    OffTile(i, j);
    FullFixed(env, v, m, i, j);
    CardIsGlass(env, v, i, j);
    RunIsInks(env, v, OFF_OPS, i, j, GLASS);
    OffInks(env, i, j);
    TileOnGlass(texts);
  }

  lemma HandlePixel(i: int, j: int)
    requires Straight(HANDLE, 2, i, j)
    ensures On(HANDLE, i, j) && forall k: Control :: !On(Region(k), i, j)
  {
  }

  lemma HandleInks(env: Env, i: int, j: int)
    requires Straight(HANDLE, 2, i, j)
    ensures Inks(env, HANDLE_OPS, i, j) == [GREY] && NoClear(HANDLE_OPS)
  {
    StraightInk(env, HANDLE, HANDLE_RADIUS, MUTED, i, j);
    InksOne(env, Round(HANDLE, HANDLE_RADIUS, MUTED), i, j);
  }

  /** The handle is grey. */
  lemma HandleShows(env: Env, v: View, m: Model, i: int, j: int)
    requires Confined(env) && v.Visible(i, j) && Straight(HANDLE, 2, i, j)
    ensures Full(env, v, m, i, j) == GREY
  {
    hide Full, Confined, Inks, Straight, On, Run, NoClear;
    HandlePixel(i, j);
    FullFixed(env, v, m, i, j);
    var card := Run(env, v, CARD_OPS, i, j, 0);
    HandleInks(env, i, j);
    RunIsInks(env, v, HANDLE_OPS, i, j, card);
    assert [] + [GREY] + [] == [GREY];
    OpaqueGround(card, [], GREY, []);
  }

  // ---------- Note and footer ----------

  /** Battery, its word, the build and the kernel, with a middle dot (U+00B7) between. */
  function FooterLine(m: Model): string {
    var dot := " " + Chars(0xb7) + " ";
    Decimal(m.cap) + " %" + dot + m.battWord + dot + m.build + dot + m.kernel
  }

  /** Under the tiles the glass, the note if there is one, and the footer. */
  lemma LinesShow(env: Env, v: View, m: Model, i: int, j: int)
    requires Confined(env) && v.Visible(i, j)
    ensures On(NOTE, i, j) ==>
              Full(env, v, m, i, j) ==
              OverAll(GLASS, if m.note == "" then [] else env.draw(TextCall(Foot, NOTE, m.note, AMBER, false, 0), i, j))
    ensures On(FOOTER, i, j) ==>
              Full(env, v, m, i, j) ==
              OverAll(GLASS, env.draw(TextCall(Foot, FOOTER, FooterLine(m), MUTED, false, FOOTER_BASELINE), i, j))
  {
    assert FooterText(m) == FooterLine(m);
    hide Full, Confined, FooterText, FooterLine;
    if On(NOTE, i, j) {
      FullIsInks(env, v, m, CNote, i, j);
      if m.note != "" { InksOne(env, Text(TextCall(Foot, NOTE, m.note, AMBER, false, 0)), i, j); }
    }
    if On(FOOTER, i, j) {
      FullIsInks(env, v, m, CFooter, i, j);
      InksOne(env, Text(TextCall(Foot, FOOTER, FooterLine(m), MUTED, false, FOOTER_BASELINE)), i, j);
    }
  }

  // ---------- Numbers ----------

  /** The value a decimal shows. */
  function ReadDigits(s: string): int {
    if s == "" then 0 else ReadDigits(s[..|s| - 1]) * 10 + (s[|s| - 1] as int - '0' as int)
  }

  function ReadDecimal(s: string): int { if s != "" && s[0] == '-' then -ReadDigits(s[1..]) else ReadDigits(s) }

  lemma {:induction false} DigitsRead(n: nat)
    ensures ReadDigits(Decimal(n)) == n && Decimal(n) != "" && Decimal(n)[0] != '-'
  {
    if n >= 10 {
      DigitsRead(n / 10);
      assert Decimal(n)[..|Decimal(n)| - 1] == Decimal(n / 10);
    } else {
      assert Decimal(n)[..0] == "";
    }
  }

  /** A number is written so that it reads back. */
  lemma DecimalReads(n: int)
    ensures ReadDecimal(Decimal(n)) == n
  {
    if n < 0 {
      DigitsRead(-n);
      assert Decimal(n)[1..] == Decimal(-n);
    } else {
      DigitsRead(n);
    }
  }

  /** The percentage is the nearest to the level's share of the maximum. */
  lemma PercentNearest(m: Model)
    ensures -ShownMaximum(m) < 2 * (Percent(m) * ShownMaximum(m) - ShownLevel(m) * 100) <= ShownMaximum(m)
  {
    var n, d := ShownLevel(m) * 200 + ShownMaximum(m), 2 * ShownMaximum(m);
    assert Percent(m) == n / d;
    assert n / d * d <= n < n / d * d + d;
  }
}
