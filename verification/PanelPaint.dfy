/** The control panel painter: what a full paint and an incremental one do to each pixel, and
    why they agree. Text is an abstract painter; the chars of a string stand for UTF-8 bytes. */
module PanelPaint {
  import opened CArithmetic
  import opened Pixels
  import opened Canvases
  import Cov = Coverage
  import Deep = DeepPixels
  import U = Utf8

  const GLASS: Pixel := 0xC7141416
  const TILE: Pixel := 0xEB2A2A2E
  const INK: Pixel := 0xFFF5F5F7
  const MUTED: Pixel := 0xFF9A9AA0
  const AMBER: Pixel := 0xFFE08A00

  // Boxes are placed on the screen; a canvas pixel is relative to the panel's corner.
  const PANEL := Box(416, 56, 560, 400)
  const HANDLE := Box(678, 66, 36, 5)
  const WIFI := Box(432, 80, 264, 160)
  const BRIGHT := Box(712, 80, 120, 328)
  const AUTO := Box(848, 80, 112, 76)
  const OFFNOW := Box(848, 164, 112, 76)
  const RESCUE := Box(848, 248, 112, 76)
  const LOADER := Box(848, 332, 112, 76)
  const TIMER := Box(432, 256, 264, 76)
  const WIFI_TITLE := Box(448, 88, 208, 30)
  const WIFI_NAME := Box(448, 124, 232, 34)
  const WIFI_ADDRESS := Box(448, 166, 232, 26)
  const WIFI_SIGNAL := Box(448, 202, 232, 26)
  const WIFI_DOT := Box(668, 99, 12, 12)
  const BRIGHT_FILL := Box(720, 88, 104, 312)
  const BRIGHT_LABEL := Box(720, 92, 104, 28)
  const BRIGHT_VALUE := Box(720, 204, 104, 66)
  const BRIGHT_PERCENT := Box(720, 274, 104, 28)
  const AUTO_LABEL := Box(860, 104, 64, 28)
  const AUTO_DOT := Box(932, 112, 12, 12)
  const OFF_LABEL := Box(856, 175, 96, 28)
  const OFF_NOW := Box(856, 201, 96, 28)
  const TIMER_TITLE := Box(448, 262, 232, 26)
  const NOTE := Box(432, 354, 264, 28)
  const FOOTER := Box(432, 416, 528, 24)
  const FOOTER_BASELINE := 436
  const CARD_RADIUS := 28
  const TILE_RADIUS := 20
  const FILL_RADIUS := 12
  const SEGMENT_RADIUS := 12
  const DOT_RADIUS := 6
  const HANDLE_RADIUS := 2

  function TimerSelection(i: int): Box { Box(436 + i * 66, 290, 58, 36) }

  function ActionLabel(tile: Box): Box { Box(tile.x + 8, tile.y + 24, tile.w - 16, 28) }

  function ArmedLabel(tile: Box): Box { Box(tile.x + 8, tile.y + 9, tile.w - 16, 28) }

  function ArmedHint(tile: Box): Box { Box(tile.x + 8, tile.y + 39, tile.w - 16, 28) }

  datatype Wifi = Off | Starting | Associating | Connected | WifiFailed

  /** The fields of the panel model that the painter reads. */
  datatype Model = Model(
    brightness: int, brightnessMax: int, autoOn: bool, sleepMinutes: int,
    wifi: Wifi, ssid: string, addr: string, levelDbm: int,
    cap: int, battWord: string, build: string, kernel: string, note: string, armed: int)

  datatype Role = Title | Value | Big | Label | Foot

  datatype TextCall = TextCall(role: Role, box: Box, value: string, color: Pixel, centered: bool, baseline: int)

  /** The text painter: the colours a call composites onto a canvas pixel, in order. */
  datatype Env = Env(draw: (TextCall, int, int) -> seq<Pixel>)

  /** One drawing operation, in screen coordinates. */
  datatype Op =
    | Round(box: Box, radius: int, color: Pixel)
    | Rect(box: Box, color: Pixel)
    | Clear(box: Box)
    | Text(call: TextCall)
  {
    function Area(): Box { if Text? then call.box else box }
  }

  /** Canvas pixel (i, j) lies in a box given in screen coordinates. */
  predicate On(b: Box, i: int, j: int) {
    b.Has(i + PANEL.x, j + PANEL.y)
  }

  function Local(b: Box): Box {
    Box(b.x - PANEL.x, b.y - PANEL.y, b.w, b.h)
  }

  function OpAt(env: Env, v: View, op: Op, i: int, j: int, dst: Pixel): Pixel {
    match op
    case Round(b, r, col) => RoundAt(v, Local(b), r, col, i, j, dst)
    case Rect(b, col) => RectAt(v, Local(b), col, i, j, dst)
    case Clear(b) => if On(b, i, j) then 0 else dst
    case Text(call) => if v.Visible(i, j) then OverAll(dst, env.draw(call, i, j)) else dst
  }

  /** What a list of operations leaves at a pixel. */
  function Run(env: Env, v: View, ops: seq<Op>, i: int, j: int, dst: Pixel): Pixel {
    if ops == [] then dst
    else OpAt(env, v, ops[|ops| - 1], i, j, Run(env, v, ops[..|ops| - 1], i, j, dst))
  }

  // ---------- What is drawn ----------

  function Decimal(n: int): string
    decreases n < 0, if n < 0 then -n else n
  {
    if n < 0 then "-" + Decimal(-n)
    else if n < 10 then ['0' + n as char]
    else Decimal(n / 10) + ['0' + (n % 10) as char]
  }

  /** The bytes of one code point, as the chars that stand for them. */
  function Chars(cp: int): string
    requires U.Scalar(cp)
  {
    var e := U.Encode(cp); seq(|e|, i requires 0 <= i < |e| => e[i] as char)
  }

  const DOTS := Chars(U.ELLIPSIS)
  const MIDDOT := Chars(0xb7)

  function WifiName(m: Model): string {
    match m.wifi
    case Off => "Off"
    case Starting => "Turning on" + DOTS
    case Associating => "Associating" + DOTS
    case Connected => if m.ssid != "" then m.ssid else "Connected"
    case WifiFailed => "Failed"
  }

  function WifiDetail(m: Model): string {
    match m.wifi
    case Off => "Tap to turn on"
    case Starting => m.ssid
    case Associating => m.ssid
    case Connected => m.addr
    case WifiFailed => "Tap to retry"
  }

  function WifiBaseOps(m: Model): seq<Op> {
    [Round(WIFI, TILE_RADIUS, TILE),
     Text(TextCall(Title, WIFI_TITLE, "Wi-Fi", INK, false, 0)),
     Round(WIFI_DOT, DOT_RADIUS, if m.wifi == Connected then AMBER else MUTED),
     Text(TextCall(Value, WIFI_NAME, WifiName(m), INK, false, 0)),
     Text(TextCall(Label, WIFI_ADDRESS, WifiDetail(m), MUTED, false, 0))]
  }

  function SignalOps(m: Model): seq<Op> {
    if m.wifi == Connected
    then [Text(TextCall(Label, WIFI_SIGNAL, Decimal(m.levelDbm) + " dBm", MUTED, false, 0))]
    else []
  }

  function WifiOps(m: Model): seq<Op> { WifiBaseOps(m) + SignalOps(m) }

  function Maximum(m: Model): int { if m.brightnessMax < 8 then 8 else m.brightnessMax }

  function Level(m: Model): (l: int)
    ensures 8 <= l <= Maximum(m)
  {
    if m.brightness < 8 then 8 else if m.brightness > Maximum(m) then Maximum(m) else m.brightness
  }

  function FillHeight(m: Model): (h: int)
    ensures 0 <= h <= BRIGHT_FILL.h
  {
    if Maximum(m) == 8 then 0
    else
      var n, d := Level(m) - 8, Maximum(m) - 8;
      DivBetween(n * BRIGHT_FILL.h, d, 0, BRIGHT_FILL.h);
      n * BRIGHT_FILL.h / d
  }

  /** The level as a rounded percentage of the maximum. */
  function Percent(m: Model): int { (Level(m) * 200 + Maximum(m)) / (2 * Maximum(m)) }

  function BrightFill(m: Model): Box {
    var height := FillHeight(m);
    BRIGHT_FILL.(y := BRIGHT_FILL.y + BRIGHT_FILL.h - height, h := height)
  }

  function BrightFillOps(m: Model): seq<Op> {
    var height := FillHeight(m);
    if height == 0 then []
    else [Round(BrightFill(m), if height < FILL_RADIUS * 2 then height / 2 else FILL_RADIUS, AMBER)]
  }

  function BrightOps(m: Model): seq<Op> {
    [Round(BRIGHT, TILE_RADIUS, TILE)] + BrightFillOps(m) +
    [Text(TextCall(Label, BRIGHT_LABEL, "Brightness", INK, true, 0)),
     Text(TextCall(Big, BRIGHT_VALUE, Decimal(Percent(m)), INK, true, 0)),
     Text(TextCall(Label, BRIGHT_PERCENT, "%", INK, true, 0))]
  }

  function ActionOps(tile: Box, name: string, armed: bool): seq<Op> {
    [Round(tile, TILE_RADIUS, if armed then AMBER else TILE),
     Text(TextCall(Label, if armed then ArmedLabel(tile) else ActionLabel(tile), name, INK, true, 0))] +
    if armed then [Text(TextCall(Label, ArmedHint(tile), "Tap again", INK, true, 0))] else []
  }

  function AutoOps(m: Model): seq<Op> {
    [Round(AUTO, TILE_RADIUS, if m.autoOn then AMBER else TILE),
     Text(TextCall(Label, AUTO_LABEL, "Auto", INK, false, 0)),
     Round(AUTO_DOT, DOT_RADIUS, if m.autoOn then INK else MUTED)]
  }

  const MINUTES: seq<int> := [1, 5, 15, 0]
  const MINUTE_LABELS: seq<string> := ["1", "5", "15", "never"]

  /** The first `n` segments of the timer. */
  function SegmentOps(m: Model, n: nat): seq<Op>
    requires n <= 4
  {
    if n == 0 then []
    else
      var box := TimerSelection(n - 1);
      SegmentOps(m, n - 1) +
      (if m.sleepMinutes == MINUTES[n - 1] then [Round(box, SEGMENT_RADIUS, AMBER)] else []) +
      [Text(TextCall(Label, box, MINUTE_LABELS[n - 1], INK, true, 0))]
  }

  function TimerOps(m: Model): seq<Op> {
    [Round(TIMER, TILE_RADIUS, TILE), Text(TextCall(Label, TIMER_TITLE, "Screen off after", MUTED, false, 0))] +
    SegmentOps(m, 4)
  }

  function NoteOps(m: Model): seq<Op> {
    if m.note != "" then [Text(TextCall(Foot, NOTE, m.note, AMBER, false, 0))] else []
  }

  function FooterText(m: Model): string {
    var sep := " " + MIDDOT + " ";
    Decimal(m.cap) + " %" + sep + m.battWord + sep + m.build + sep + m.kernel
  }

  function FooterOps(m: Model): seq<Op> {
    [Text(TextCall(Foot, FOOTER, FooterText(m), MUTED, false, FOOTER_BASELINE))]
  }

  const CARD_OPS: seq<Op> := [Round(PANEL, CARD_RADIUS, GLASS)]
  const HANDLE_OPS: seq<Op> := [Round(HANDLE, HANDLE_RADIUS, MUTED)]
  const OFF_OPS: seq<Op> := [
    Round(OFFNOW, TILE_RADIUS, TILE),
    Text(TextCall(Label, OFF_LABEL, "Screen off", INK, true, 0)),
    Text(TextCall(Label, OFF_NOW, "now", MUTED, true, 0))]

  function Flatten(parts: seq<seq<Op>>): seq<Op> {
    if parts == [] then [] else Flatten(parts[..|parts| - 1]) + parts[|parts| - 1]
  }

  const FULL_PARTS := 10

  function FullBox(q: int): Box {
    if q == 0 then HANDLE else if q == 1 then WIFI else if q == 2 then BRIGHT else if q == 3 then AUTO
    else if q == 4 then OFFNOW else if q == 5 then RESCUE else if q == 6 then LOADER
    else if q == 7 then TIMER else if q == 8 then NOTE else FOOTER
  }

  function FullPart(m: Model, q: int): seq<Op> {
    if q == 0 then HANDLE_OPS else if q == 1 then WifiOps(m) else if q == 2 then BrightOps(m)
    else if q == 3 then AutoOps(m) else if q == 4 then OFF_OPS
    else if q == 5 then ActionOps(RESCUE, "Rescue", m.armed == 1)
    else if q == 6 then ActionOps(LOADER, "Loader", m.armed == 2)
    else if q == 7 then TimerOps(m) else if q == 8 then NoteOps(m) else FooterOps(m)
  }

  function FullParts(m: Model): seq<seq<Op>> {
    seq(FULL_PARTS, q => FullPart(m, q))
  }

  /** A full paint, after the canvas has been zeroed. */
  function FullOps(m: Model): seq<Op> {
    CARD_OPS + Flatten(FullParts(m))
  }

  /** The pixel a full paint of `m` leaves at (i, j). */
  function Full(env: Env, v: View, m: Model, i: int, j: int): Pixel {
    Run(env, v, FullOps(m), i, j, 0)
  }

  // ---------- The incremental paint ----------

  predicate BrightChanged(m: Model, p: Model) {
    m.brightness != p.brightness || m.brightnessMax != p.brightnessMax
  }

  predicate WifiChanged(m: Model, p: Model) {
    m.wifi != p.wifi || m.ssid != p.ssid || m.addr != p.addr
  }

  predicate SignalChanged(m: Model, p: Model) {
    m.wifi == Connected && m.levelDbm != p.levelDbm
  }

  predicate FooterChanged(m: Model, p: Model) {
    m.cap != p.cap || m.battWord != p.battWord || m.build != p.build || m.kernel != p.kernel
  }

  function Restore(b: Box): seq<Op> { [Clear(b), Rect(b, GLASS)] }

  function When(changed: bool, ops: seq<Op>): seq<Op> { if changed then ops else [] }

  function WifiUpdate(m: Model, p: Model): seq<Op> {
    if WifiChanged(m, p) then Restore(WIFI) + WifiOps(m)
    else When(SignalChanged(m, p), Restore(WIFI_SIGNAL) + [Rect(WIFI_SIGNAL, TILE)] + SignalOps(m))
  }

  function ActionUpdate(m: Model, p: Model): seq<Op> {
    When(m.armed != p.armed,
         Restore(RESCUE) + Restore(LOADER) +
         ActionOps(RESCUE, "Rescue", m.armed == 1) + ActionOps(LOADER, "Loader", m.armed == 2))
  }

  /** Both reboot tiles: their restores and repaints are interleaved. */
  const ACTIONS := Box(848, 248, 112, 160)

  const UPDATE_PARTS := 7

  function UpdateBox(q: int): Box {
    if q == 0 then BRIGHT else if q == 1 then AUTO else if q == 2 then WIFI else if q == 3 then ACTIONS
    else if q == 4 then TIMER else if q == 5 then NOTE else FOOTER
  }

  function UpdatePart(m: Model, p: Model, q: int): seq<Op> {
    if q == 0 then When(BrightChanged(m, p), Restore(BRIGHT) + BrightOps(m))
    else if q == 1 then When(m.autoOn != p.autoOn, Restore(AUTO) + AutoOps(m))
    else if q == 2 then WifiUpdate(m, p)
    else if q == 3 then ActionUpdate(m, p)
    else if q == 4 then When(m.sleepMinutes != p.sleepMinutes, Restore(TIMER) + TimerOps(m))
    else if q == 5 then When(m.note != p.note, Restore(NOTE) + NoteOps(m))
    else When(FooterChanged(m, p), Restore(FOOTER) + FooterOps(m))
  }

  function UpdateParts(m: Model, p: Model): seq<seq<Op>> {
    seq(UPDATE_PARTS, q => UpdatePart(m, p, q))
  }

  function UpdateOps(m: Model, p: Model): seq<Op> {
    Flatten(UpdateParts(m, p))
  }

  /** The damage rectangle grows to the union with each restored box. */
  function Grow(dirty: Box, b: Box): Box {
    if dirty.w == 0 then b
    else
      var right := if b.x + b.w > dirty.x + dirty.w then b.x + b.w else dirty.x + dirty.w;
      var bottom := if b.y + b.h > dirty.y + dirty.h then b.y + b.h else dirty.y + dirty.h;
      var x := if b.x < dirty.x then b.x else dirty.x;
      var y := if b.y < dirty.y then b.y else dirty.y;
      Box(x, y, right - x, bottom - y)
  }

  const NO_DAMAGE := Box(0, 0, 0, 0)

  function GrowAll(boxes: seq<Box>): Box {
    if boxes == [] then NO_DAMAGE else Grow(GrowAll(boxes[..|boxes| - 1]), boxes[|boxes| - 1])
  }

  function Just(changed: bool, boxes: seq<Box>): seq<Box> { if changed then boxes else [] }

  /** The boxes the `q`-th part of an update restores. */
  function RestoredPart(m: Model, p: Model, q: int): seq<Box> {
    if q == 0 then Just(BrightChanged(m, p), [BRIGHT])
    else if q == 1 then Just(m.autoOn != p.autoOn, [AUTO])
    else if q == 2 then if WifiChanged(m, p) then [WIFI] else Just(SignalChanged(m, p), [WIFI_SIGNAL])
    else if q == 3 then Just(m.armed != p.armed, [RESCUE, LOADER])
    else if q == 4 then Just(m.sleepMinutes != p.sleepMinutes, [TIMER])
    else if q == 5 then Just(m.note != p.note, [NOTE])
    else Just(FooterChanged(m, p), [FOOTER])
  }

  function RestoredBelow(m: Model, p: Model, n: nat): seq<Box> {
    if n == 0 then [] else RestoredBelow(m, p, n - 1) + RestoredPart(m, p, n - 1)
  }

  /** The boxes an update restores, in order. */
  function Restored(m: Model, p: Model): seq<Box> { RestoredBelow(m, p, UPDATE_PARTS) }

  function Damage(m: Model, p: Model): Box { GrowAll(Restored(m, p)) }

  // ---------- Confinement ----------

  /** The boxes of the tiles' own labels, whose text is centred. */
  predicate CenteredLabel(b: Box) {
    || b == BRIGHT_LABEL || b == BRIGHT_PERCENT || b == OFF_LABEL || b == OFF_NOW
    || b == ActionLabel(RESCUE) || b == ArmedLabel(RESCUE) || b == ArmedHint(RESCUE)
    || b == ActionLabel(LOADER) || b == ArmedLabel(LOADER) || b == ArmedHint(LOADER)
    || b == TimerSelection(0) || b == TimerSelection(1) || b == TimerSelection(2) || b == TimerSelection(3)
  }

  predicate PlainLabel(b: Box) { b == WIFI_ADDRESS || b == WIFI_SIGNAL || b == AUTO_LABEL || b == TIMER_TITLE }

  /** The text boxes of the panel, and how each face is used in them. */
  predicate WellPlaced(call: TextCall) {
    match call.role
    case Title => call.box == WIFI_TITLE && !call.centered && call.baseline == 0
    case Value => call.box == WIFI_NAME && !call.centered && call.baseline == 0
    case Big => call.box == BRIGHT_VALUE && call.centered && call.baseline == 0
    case Label => call.baseline == 0 && if call.centered then CenteredLabel(call.box) else PlainLabel(call.box)
    case Foot =>
      !call.centered && ((call.box == NOTE && call.baseline == 0) || (call.box == FOOTER && call.baseline == FOOTER_BASELINE))
  }

  /** Every text box has room for the bitmap fallback: 15 rows, at the baseline when one is given. */
  lemma PlacedHasRoom(call: TextCall)
    requires WellPlaced(call)
    ensures call.box.w >= 1 && call.box.h >= 15
    ensures call.baseline == 0 || call.box.y + 15 <= call.baseline <= call.box.y + call.box.h
  {
  }

  /** A text painter that stays inside the boxes the panel gives it. */
  ghost predicate Confined(env: Env) {
    forall call, i, j :: WellPlaced(call) && !On(call.box, i, j) ==> env.draw(call, i, j) == []
  }

  predicate Within(a: Box, b: Box) {
    a.w <= 0 || a.h <= 0 || (b.x <= a.x && a.x + a.w <= b.x + b.w && b.y <= a.y && a.y + a.h <= b.y + b.h)
  }

  predicate AllWithin(ops: seq<Op>, b: Box) {
    forall op | op in ops :: Within(op.Area(), b) && (op.Text? ==> WellPlaced(op.call))
  }

  lemma {:induction false} RunOutside(env: Env, v: View, ops: seq<Op>, b: Box, i: int, j: int, dst: Pixel)
    requires Confined(env) && AllWithin(ops, b) && !On(b, i, j)
    ensures Run(env, v, ops, i, j, dst) == dst
  {
    if ops != [] {
      var op := ops[|ops| - 1];
      assert op in ops;
      RunOutside(env, v, ops[..|ops| - 1], b, i, j, dst);
      assert !On(op.Area(), i, j);
      if op.Text? { assert env.draw(op.call, i, j) == []; }
    }
  }

  lemma {:induction false} RunConcat(env: Env, v: View, a: seq<Op>, b: seq<Op>, i: int, j: int, dst: Pixel)
    ensures Run(env, v, a + b, i, j, dst) == Run(env, v, b, i, j, Run(env, v, a, i, j, dst))
  {
    if b == [] {
      assert a + b == a;
    } else {
      var n := |b| - 1;
      assert (a + b)[..|a + b| - 1] == a + b[..n];
      RunConcat(env, v, a, b[..n], i, j, dst);
    }
  }

  /** The operations leave pixel (i, j) alone, whatever it holds. */
  ghost predicate Misses(env: Env, v: View, ops: seq<Op>, i: int, j: int) {
    forall dst: Pixel :: Run(env, v, ops, i, j, dst) == dst
  }

  lemma OutsideMisses(env: Env, v: View, ops: seq<Op>, b: Box, i: int, j: int)
    requires Confined(env) && AllWithin(ops, b) && !On(b, i, j)
    ensures Misses(env, v, ops, i, j)
  {
    forall dst: Pixel ensures Run(env, v, ops, i, j, dst) == dst { RunOutside(env, v, ops, b, i, j, dst); }
  }

  lemma {:induction false} NoPart(env: Env, v: View, parts: seq<seq<Op>>, i: int, j: int, dst: Pixel)
    requires forall q | 0 <= q < |parts| :: Misses(env, v, parts[q], i, j)
    ensures Run(env, v, Flatten(parts), i, j, dst) == dst
  {
    if parts != [] {
      var n := |parts| - 1;
      NoPart(env, v, parts[..n], i, j, dst);
      RunConcat(env, v, Flatten(parts[..n]), parts[n], i, j, dst);
    }
  }

  /** At a pixel that only part `k` can reach, the whole drawing does what part `k` does. */
  lemma {:induction false} OnlyPart(env: Env, v: View, parts: seq<seq<Op>>, k: nat, i: int, j: int, dst: Pixel)
    requires k < |parts| && forall q | 0 <= q < |parts| && q != k :: Misses(env, v, parts[q], i, j)
    ensures Run(env, v, Flatten(parts), i, j, dst) == Run(env, v, parts[k], i, j, dst)
  {
    var n := |parts| - 1;
    RunConcat(env, v, Flatten(parts[..n]), parts[n], i, j, dst);
    if k == n {
      NoPart(env, v, parts[..n], i, j, dst);
    } else {
      OnlyPart(env, v, parts[..n], k, i, j, dst);
    }
  }

  lemma WifiConfined(m: Model)
    ensures AllWithin(WifiOps(m), WIFI) && AllWithin(SignalOps(m), WIFI_SIGNAL)
  {
  }

  lemma BrightConfined(m: Model)
    ensures AllWithin(BrightOps(m), BRIGHT)
  {
    assert Within(BrightFill(m), BRIGHT);
  }

  lemma ActionConfined(tile: Box, name: string, armed: bool)
    requires tile == RESCUE || tile == LOADER
    ensures AllWithin(ActionOps(tile, name, armed), tile)
  {
  }

  lemma {:induction false} SegmentsConfined(m: Model, n: nat)
    requires n <= 4
    ensures AllWithin(SegmentOps(m, n), TIMER)
  {
    if n > 0 { SegmentsConfined(m, n - 1); }
  }

  lemma TimerConfined(m: Model)
    ensures AllWithin(TimerOps(m), TIMER)
  {
    SegmentsConfined(m, 4);
  }

  lemma FullPartConfined(m: Model, q: int)
    ensures AllWithin(FullPart(m, q), FullBox(q))
  {
    if q == 1 { WifiConfined(m); }
    else if q == 2 { BrightConfined(m); }
    else if q == 5 { ActionConfined(RESCUE, "Rescue", m.armed == 1); }
    else if q == 6 { ActionConfined(LOADER, "Loader", m.armed == 2); }
    else if q == 7 { TimerConfined(m); }
  }

  lemma WifiUpdateConfined(m: Model, p: Model)
    ensures AllWithin(WifiUpdate(m, p), WIFI)
  {
    WifiConfined(m);
  }

  lemma ActionUpdateConfined(m: Model, p: Model)
    ensures AllWithin(ActionUpdate(m, p), ACTIONS)
  {
    ActionConfined(RESCUE, "Rescue", m.armed == 1);
    ActionConfined(LOADER, "Loader", m.armed == 2);
  }

  lemma UpdatePartConfined(m: Model, p: Model, q: int)
    ensures AllWithin(UpdatePart(m, p, q), UpdateBox(q))
  {
    if q == 0 { BrightConfined(m); }
    else if q == 2 { WifiUpdateConfined(m, p); }
    else if q == 3 { ActionUpdateConfined(m, p); }
    else if q == 4 { TimerConfined(m); }
  }

  lemma FullPartMisses(env: Env, v: View, m: Model, q: int, i: int, j: int)
    requires Confined(env) && !On(FullBox(q), i, j)
    ensures Misses(env, v, FullPart(m, q), i, j)
  {
    FullPartConfined(m, q);
    OutsideMisses(env, v, FullPart(m, q), FullBox(q), i, j);
  }

  /** The gap between the two reboot tiles is left alone too. */
  predicate Reaches(q: int, i: int, j: int) {
    if q == 3 then On(RESCUE, i, j) || On(LOADER, i, j) else On(UpdateBox(q), i, j)
  }

  lemma UpdatePartMisses(env: Env, v: View, m: Model, p: Model, q: int, i: int, j: int)
    requires Confined(env) && !Reaches(q, i, j)
    ensures Misses(env, v, UpdatePart(m, p, q), i, j)
  {
    UpdatePartConfined(m, p, q);
    if q == 3 {
      ActionConfined(RESCUE, "Rescue", m.armed == 1);
      ActionConfined(LOADER, "Loader", m.armed == 2);
      var r, l := Restore(RESCUE), Restore(LOADER);
      var x, y := ActionOps(RESCUE, "Rescue", m.armed == 1), ActionOps(LOADER, "Loader", m.armed == 2);
      OutsideMisses(env, v, r, RESCUE, i, j);
      OutsideMisses(env, v, l, LOADER, i, j);
      OutsideMisses(env, v, x, RESCUE, i, j);
      OutsideMisses(env, v, y, LOADER, i, j);
      forall dst: Pixel ensures Run(env, v, r + l + x + y, i, j, dst) == dst {
        RunConcat(env, v, r, l, i, j, dst);
        RunConcat(env, v, r + l, x, i, j, dst);
        RunConcat(env, v, r + l + x, y, i, j, dst);
      }
    } else {
      OutsideMisses(env, v, UpdatePart(m, p, q), UpdateBox(q), i, j);
    }
  }

  // ---------- The glass under the controls ----------

  /** What the card leaves on an untouched pixel under a control. */
  function Glass(v: View, i: int, j: int): Pixel { if v.Visible(i, j) then GLASS else 0 }

  predicate UnderControl(i: int, j: int) {
    16 <= i < 544 && 24 <= j < 384
  }

  /** The rounded card covers every control with plain glass. */
  lemma CardIsGlass(env: Env, v: View, i: int, j: int)
    requires UnderControl(i, j)
    ensures Run(env, v, CARD_OPS, i, j, 0) == Glass(v, i, j)
    ensures OpAt(env, v, Rect(PANEL, GLASS), i, j, 0) == Glass(v, i, j)
  {
    assert CARD_OPS[..0] == [];
    assert Run(env, v, CARD_OPS, i, j, 0) == OpAt(env, v, CARD_OPS[0], i, j, 0);
    Deep.FullInside(i, j, PANEL.w, PANEL.h, CARD_RADIUS, 16);
    FadedFull(GLASS);
  }

  /** Restoring a control's box puts the same glass back. */
  lemma RestoreIsGlass(env: Env, v: View, b: Box, i: int, j: int, dst: Pixel)
    requires On(b, i, j)
    ensures Run(env, v, Restore(b), i, j, dst) == Glass(v, i, j)
  {
    var ops := Restore(b);
    assert ops[..1] == [ops[0]] && ops[..1][..0] == [];
    assert Run(env, v, ops[..1], i, j, dst) == 0;
  }

  /** Under the signal line the Wi-Fi tile is plain, so a plain rectangle repaints it. */
  lemma TileUnderSignal(env: Env, v: View, m: Model, i: int, j: int, dst: Pixel)
    requires Confined(env) && On(WIFI_SIGNAL, i, j)
    ensures Run(env, v, WifiBaseOps(m), i, j, dst) == OpAt(env, v, Rect(WIFI_SIGNAL, TILE), i, j, dst)
  {
    var ops := WifiBaseOps(m);
    var tile := ops[..1];
    assert ops == tile + ops[1..] && tile == [ops[0]] && tile[..0] == [];
    RunConcat(env, v, tile, ops[1..], i, j, dst);
    TileInside(i, j);
    FadedFull(TILE);
    AboveSignal(m);
    RunOutside(env, v, ops[1..], ABOVE_SIGNAL, i, j, Run(env, v, tile, i, j, dst));
  }

  const ABOVE_SIGNAL := Box(432, 80, 264, 122)

  lemma AboveSignal(m: Model)
    ensures AllWithin(WifiBaseOps(m)[1..], ABOVE_SIGNAL)
  {
  }

  lemma TileInside(i: int, j: int)
    requires On(WIFI_SIGNAL, i, j)
    ensures Cov.Oracle(i + PANEL.x - WIFI.x, j + PANEL.y - WIFI.y, WIFI.w, WIFI.h, TILE_RADIUS) == 16
  {
    Deep.FullInside(i + PANEL.x - WIFI.x, j + PANEL.y - WIFI.y, WIFI.w, WIFI.h, TILE_RADIUS, 12);
  }

  // ---------- Full paints, control by control ----------

  datatype Control = CWifi | CBright | CAuto | CRescue | CLoader | CTimer | CNote | CFooter

  function Region(k: Control): Box {
    match k
    case CWifi => WIFI case CBright => BRIGHT case CAuto => AUTO case CRescue => RESCUE
    case CLoader => LOADER case CTimer => TIMER case CNote => NOTE case CFooter => FOOTER
  }

  function ControlOps(m: Model, k: Control): seq<Op> {
    match k
    case CWifi => WifiOps(m)
    case CBright => BrightOps(m)
    case CAuto => AutoOps(m)
    case CRescue => ActionOps(RESCUE, "Rescue", m.armed == 1)
    case CLoader => ActionOps(LOADER, "Loader", m.armed == 2)
    case CTimer => TimerOps(m)
    case CNote => NoteOps(m)
    case CFooter => FooterOps(m)
  }

  function FullIndex(k: Control): nat {
    match k
    case CWifi => 1 case CBright => 2 case CAuto => 3 case CRescue => 5
    case CLoader => 6 case CTimer => 7 case CNote => 8 case CFooter => 9
  }

  lemma ControlsApart(k: Control, i: int, j: int)
    requires On(Region(k), i, j)
    ensures UnderControl(i, j)
    ensures FullIndex(k) < FULL_PARTS && forall q | 0 <= q < FULL_PARTS && q != FullIndex(k) :: !On(FullBox(q), i, j)
    ensures UpdateIndex(k) < UPDATE_PARTS && forall q | 0 <= q < UPDATE_PARTS && q != UpdateIndex(k) :: !Reaches(q, i, j)
  {
  }

  lemma FullAtControl(env: Env, v: View, m: Model, k: Control, i: int, j: int)
    requires Confined(env) && On(Region(k), i, j)
    ensures Full(env, v, m, i, j) == Run(env, v, ControlOps(m, k), i, j, Glass(v, i, j))
  {
    ControlsApart(k, i, j);
    RunConcat(env, v, CARD_OPS, Flatten(FullParts(m)), i, j, 0);
    CardIsGlass(env, v, i, j);
    forall q | 0 <= q < FULL_PARTS && q != FullIndex(k) ensures Misses(env, v, FullPart(m, q), i, j) {
      FullPartMisses(env, v, m, q, i, j);
    }
    OnlyPart(env, v, FullParts(m), FullIndex(k), i, j, Glass(v, i, j));
    ControlIsPart(m, k);
  }

  lemma ControlIsPart(m: Model, k: Control)
    ensures FullIndex(k) < FULL_PARTS && FullParts(m)[FullIndex(k)] == ControlOps(m, k)
  {
  }

  /** Off every changing control a full paint does not depend on the model. */
  lemma FullElsewhere(env: Env, v: View, m: Model, p: Model, i: int, j: int)
    requires Confined(env) && forall k: Control :: !On(Region(k), i, j)
    ensures Full(env, v, m, i, j) == Full(env, v, p, i, j)
  {
    FullFixed(env, v, m, i, j);
    FullFixed(env, v, p, i, j);
  }

  /** The parts of a full paint that can reach such a pixel are the handle and the off tile. */
  lemma OnlyFixedParts(q: int, i: int, j: int)
    requires forall k: Control :: !On(Region(k), i, j)
    ensures q != 0 && q != 4 ==> !On(FullBox(q), i, j)
    ensures !Reaches(q, i, j)
    ensures !(On(HANDLE, i, j) && On(OFFNOW, i, j))
  {
    assert !On(Region(CWifi), i, j) && !On(Region(CBright), i, j) && !On(Region(CAuto), i, j);
    assert !On(Region(CRescue), i, j) && !On(Region(CLoader), i, j) && !On(Region(CTimer), i, j);
    assert !On(Region(CNote), i, j) && !On(Region(CFooter), i, j);
  }

  lemma FullFixed(env: Env, v: View, m: Model, i: int, j: int)
    requires Confined(env) && forall k: Control :: !On(Region(k), i, j)
    ensures var card := Run(env, v, CARD_OPS, i, j, 0);
            Full(env, v, m, i, j) ==
            if On(HANDLE, i, j) then Run(env, v, HANDLE_OPS, i, j, card)
            else if On(OFFNOW, i, j) then Run(env, v, OFF_OPS, i, j, card)
            else card
  {
    var parts := FullParts(m);
    var card := Run(env, v, CARD_OPS, i, j, 0);
    RunConcat(env, v, CARD_OPS, Flatten(parts), i, j, 0);
    OnlyFixedParts(0, i, j);
    forall q | 0 <= q < FULL_PARTS && !(q == 0 && On(HANDLE, i, j)) && !(q == 4 && On(OFFNOW, i, j))
      ensures Misses(env, v, parts[q], i, j)
    {
      OnlyFixedParts(q, i, j);
      FullPartMisses(env, v, m, q, i, j);
    }
    if On(HANDLE, i, j) {
      OnlyPart(env, v, parts, 0, i, j, card);
    } else if On(OFFNOW, i, j) {
      OnlyPart(env, v, parts, 4, i, j, card);
    } else {
      NoPart(env, v, parts, i, j, card);
    }
  }

  // ---------- Updates, control by control ----------

  predicate Changed(m: Model, p: Model, k: Control) {
    match k
    case CWifi => WifiChanged(m, p)
    case CBright => BrightChanged(m, p)
    case CAuto => m.autoOn != p.autoOn
    case CRescue => m.armed != p.armed
    case CLoader => m.armed != p.armed
    case CTimer => m.sleepMinutes != p.sleepMinutes
    case CNote => m.note != p.note
    case CFooter => FooterChanged(m, p)
  }

  /** The change tests miss nothing that is painted, the signal line aside. */
  lemma UnchangedOps(m: Model, p: Model, k: Control)
    requires !Changed(m, p, k)
    ensures if k == CWifi then WifiBaseOps(m) == WifiBaseOps(p) && (!SignalChanged(m, p) ==> SignalOps(m) == SignalOps(p))
            else ControlOps(m, k) == ControlOps(p, k)
  {
    if k == CTimer { SegmentsSame(m, p, 4); }
  }

  lemma {:induction false} SegmentsSame(m: Model, p: Model, n: nat)
    requires m.sleepMinutes == p.sleepMinutes && n <= 4
    ensures SegmentOps(m, n) == SegmentOps(p, n)
  {
    if n > 0 { SegmentsSame(m, p, n - 1); }
  }

  lemma ActionAt(env: Env, v: View, m: Model, p: Model, k: Control, i: int, j: int, dst: Pixel)
    requires Confined(env) && (k == CRescue || k == CLoader) && On(Region(k), i, j) && m.armed != p.armed
    ensures Run(env, v, ActionUpdate(m, p), i, j, dst) == Run(env, v, ControlOps(m, k), i, j, Glass(v, i, j))
  {
    hide ActionOps, OpAt, Confined;
    var a, b := Restore(RESCUE), Restore(LOADER);
    var x, y := ControlOps(m, CRescue), ControlOps(m, CLoader);
    ActionConfined(RESCUE, "Rescue", m.armed == 1);
    ActionConfined(LOADER, "Loader", m.armed == 2);
    var d1 := Run(env, v, a, i, j, dst);
    var d2 := Run(env, v, b, i, j, d1);
    var d3 := Run(env, v, x, i, j, d2);
    RunConcat(env, v, a, b, i, j, dst);
    RunConcat(env, v, a + b, x, i, j, dst);
    RunConcat(env, v, a + b + x, y, i, j, dst);
    if k == CRescue {
      RestoreIsGlass(env, v, RESCUE, i, j, dst);
      RunOutside(env, v, b, LOADER, i, j, d1);
      RunOutside(env, v, y, LOADER, i, j, d3);
    } else {
      RestoreIsGlass(env, v, LOADER, i, j, d1);
      RunOutside(env, v, x, RESCUE, i, j, d2);
    }
  }

  function UpdateIndex(k: Control): nat {
    match k
    case CBright => 0 case CAuto => 1 case CWifi => 2 case CRescue => 3
    case CLoader => 3 case CTimer => 4 case CNote => 5 case CFooter => 6
  }

  lemma UpdateAtControl(env: Env, v: View, m: Model, p: Model, k: Control, i: int, j: int, dst: Pixel)
    requires Confined(env) && On(Region(k), i, j)
    ensures Run(env, v, UpdateOps(m, p), i, j, dst) == Run(env, v, UpdatePart(m, p, UpdateIndex(k)), i, j, dst)
  {
    ControlsApart(k, i, j);
    forall q | 0 <= q < UPDATE_PARTS && q != UpdateIndex(k) ensures Misses(env, v, UpdatePart(m, p, q), i, j) {
      UpdatePartMisses(env, v, m, p, q, i, j);
    }
    OnlyPart(env, v, UpdateParts(m, p), UpdateIndex(k), i, j, dst);
  }

  lemma RestoredControl(env: Env, v: View, m: Model, k: Control, i: int, j: int, dst: Pixel)
    requires On(Region(k), i, j)
    ensures Run(env, v, Restore(Region(k)) + ControlOps(m, k), i, j, dst) ==
            Run(env, v, ControlOps(m, k), i, j, Glass(v, i, j))
  {
    RunConcat(env, v, Restore(Region(k)), ControlOps(m, k), i, j, dst);
    RestoreIsGlass(env, v, Region(k), i, j, dst);
  }

  /** The Wi-Fi tile, repainted whole, repainted under the signal line only, or left alone. */
  lemma WifiUpdated(env: Env, v: View, m: Model, p: Model, i: int, j: int)
    requires Confined(env) && On(WIFI, i, j)
    ensures Run(env, v, WifiUpdate(m, p), i, j, Full(env, v, p, i, j)) == Full(env, v, m, i, j)
  {
    var dst, glass := Full(env, v, p, i, j), Glass(v, i, j);
    FullAtControl(env, v, m, CWifi, i, j);
    FullAtControl(env, v, p, CWifi, i, j);
    if WifiChanged(m, p) {
      RestoredControl(env, v, m, CWifi, i, j, dst);
    } else {
      UnchangedOps(m, p, CWifi);
      if SignalChanged(m, p) {
        var base := Run(env, v, WifiBaseOps(m), i, j, glass);
        RunConcat(env, v, WifiBaseOps(m), SignalOps(m), i, j, glass);
        RunConcat(env, v, WifiBaseOps(p), SignalOps(p), i, j, glass);
        WifiConfined(m);
        WifiConfined(p);
        var tile: seq<Op> := [Rect(WIFI_SIGNAL, TILE)];
        if On(WIFI_SIGNAL, i, j) {
          RestoreIsGlass(env, v, WIFI_SIGNAL, i, j, dst);
          TileUnderSignal(env, v, m, i, j, glass);
          RunConcat(env, v, Restore(WIFI_SIGNAL), tile, i, j, dst);
          RunConcat(env, v, Restore(WIFI_SIGNAL) + tile, SignalOps(m), i, j, dst);
          assert tile[..0] == [];
          assert Run(env, v, tile, i, j, glass) == base;
        } else {
          RunOutside(env, v, SignalOps(m), WIFI_SIGNAL, i, j, base);
          RunOutside(env, v, SignalOps(p), WIFI_SIGNAL, i, j, base);
          RunOutside(env, v, WifiUpdate(m, p), WIFI_SIGNAL, i, j, dst);
        }
      }
    }
  }

  lemma ControlUpdated(env: Env, v: View, m: Model, p: Model, k: Control, i: int, j: int)
    requires Confined(env) && On(Region(k), i, j)
    ensures Run(env, v, UpdatePart(m, p, UpdateIndex(k)), i, j, Full(env, v, p, i, j)) == Full(env, v, m, i, j)
  {
    var dst := Full(env, v, p, i, j);
    if k == CWifi {
      WifiUpdated(env, v, m, p, i, j);
    } else {
      FullAtControl(env, v, m, k, i, j);
      FullAtControl(env, v, p, k, i, j);
      if !Changed(m, p, k) {
        UnchangedOps(m, p, k);
        assert UpdatePart(m, p, UpdateIndex(k)) == [];
      } else if k == CRescue || k == CLoader {
        ActionAt(env, v, m, p, k, i, j, dst);
      } else {
        assert UpdatePart(m, p, UpdateIndex(k)) == Restore(Region(k)) + ControlOps(m, k);
        RestoredControl(env, v, m, k, i, j, dst);
      }
    }
  }

  /** At every pixel, an incremental paint over a full paint of the previous model gives the
      full paint of the new one. */
  lemma UpdateIsFull(env: Env, v: View, m: Model, p: Model, i: int, j: int)
    requires Confined(env)
    ensures Run(env, v, UpdateOps(m, p), i, j, Full(env, v, p, i, j)) == Full(env, v, m, i, j)
  {
    var dst := Full(env, v, p, i, j);
    if k: Control :| On(Region(k), i, j) {
      UpdateAtControl(env, v, m, p, k, i, j, dst);
      ControlUpdated(env, v, m, p, k, i, j);
    } else {
      FullElsewhere(env, v, m, p, i, j);
      forall q | 0 <= q < UPDATE_PARTS ensures Misses(env, v, UpdatePart(m, p, q), i, j) {
        OnlyFixedParts(q, i, j);
        UpdatePartMisses(env, v, m, p, q, i, j);
      }
      NoPart(env, v, UpdateParts(m, p), i, j, dst);
    }
  }

  // ---------- Damage ----------

  /** The box each part of an update really damages. */
  function TightBox(m: Model, p: Model, q: int): Box {
    if q == 2 && !WifiChanged(m, p) then (if SignalChanged(m, p) then WIFI_SIGNAL else NO_DAMAGE)
    else if UpdatePart(m, p, q) == [] then NO_DAMAGE
    else UpdateBox(q)
  }

  lemma TightConfined(m: Model, p: Model, q: int)
    ensures AllWithin(UpdatePart(m, p, q), TightBox(m, p, q))
  {
    UpdatePartConfined(m, p, q);
    if q == 2 { WifiConfined(m); }
  }

  predicate OnPanel(b: Box) { b.w > 0 && b.h > 0 && Within(b, PANEL) }

  predicate Covers(d: Box, b: Box) { d.w > 0 && d.h > 0 && b.w > 0 && b.h > 0 && Within(b, d) }

  /** The damage covers every box it has grown over and stays on the panel. */
  lemma {:induction false} GrowAllCovers(boxes: seq<Box>)
    requires forall b | b in boxes :: OnPanel(b)
    ensures if boxes == [] then GrowAll(boxes) == NO_DAMAGE else OnPanel(GrowAll(boxes))
    ensures forall b | b in boxes :: Covers(GrowAll(boxes), b)
  {
    if boxes != [] {
      var n := |boxes| - 1;
      assert boxes[n] in boxes;
      GrowAllCovers(boxes[..n]);
      forall b | b in boxes ensures Covers(GrowAll(boxes), b) {
        if b != boxes[n] { assert b in boxes[..n]; }
      }
    }
  }

  lemma {:induction false} RestoredOnPanel(m: Model, p: Model, n: nat)
    ensures forall b | b in RestoredBelow(m, p, n) :: OnPanel(b)
  {
    if n > 0 {
      RestoredOnPanel(m, p, n - 1);
      assert forall b | b in RestoredPart(m, p, n - 1) :: OnPanel(b);
    }
  }

  lemma {:induction false} PartRestored(m: Model, p: Model, q: nat, n: nat)
    requires q < n
    ensures forall b | b in RestoredPart(m, p, q) :: b in RestoredBelow(m, p, n)
  {
    if q < n - 1 { PartRestored(m, p, q, n - 1); }
  }

  /** Every damaged box is one of those restored, or lies between two of them. */
  lemma TightIsRestored(m: Model, p: Model, q: int)
    requires 0 <= q < UPDATE_PARTS && TightBox(m, p, q) != NO_DAMAGE
    ensures TightBox(m, p, q) in Restored(m, p) ||
            (TightBox(m, p, q) == ACTIONS && RESCUE in Restored(m, p) && LOADER in Restored(m, p))
  {
    PartRestored(m, p, q, UPDATE_PARTS);
    TightCases(m, p, q);
  }

  lemma TightCases(m: Model, p: Model, q: int)
    requires 0 <= q < UPDATE_PARTS && TightBox(m, p, q) != NO_DAMAGE
    ensures TightBox(m, p, q) in RestoredPart(m, p, q) ||
            (TightBox(m, p, q) == ACTIONS && RESCUE in RestoredPart(m, p, q) && LOADER in RestoredPart(m, p, q))
  {
  }

  /** Nothing outside the reported damage changes, and the damage is on the panel. */
  lemma DamageCovers(env: Env, v: View, m: Model, p: Model, i: int, j: int, dst: Pixel)
    requires Confined(env)
    ensures Damage(m, p) == NO_DAMAGE || OnPanel(Damage(m, p))
    ensures !On(Damage(m, p), i, j) ==> Run(env, v, UpdateOps(m, p), i, j, dst) == dst
  {
    RestoredOnPanel(m, p, UPDATE_PARTS);
    GrowAllCovers(Restored(m, p));
    if !On(Damage(m, p), i, j) {
      forall q | 0 <= q < UPDATE_PARTS ensures Misses(env, v, UpdatePart(m, p, q), i, j) {
        TightConfined(m, p, q);
        if TightBox(m, p, q) != NO_DAMAGE { TightIsRestored(m, p, q); }
        OutsideMisses(env, v, UpdatePart(m, p, q), TightBox(m, p, q), i, j);
      }
      NoPart(env, v, UpdateParts(m, p), i, j, dst);
    }
  }

  // ---------- Drawing part by part ----------

  lemma GrowSnoc(boxes: seq<Box>, b: Box)
    ensures GrowAll(boxes + [b]) == Grow(GrowAll(boxes), b)
  {
    assert (boxes + [b])[..|boxes|] == boxes;
  }

  lemma FlattenSnoc(parts: seq<seq<Op>>, part: seq<Op>)
    ensures Flatten(parts + [part]) == Flatten(parts) + part
  {
    assert (parts + [part])[..|parts|] == parts;
  }

  /** The calls of a full paint up to part `n`. */
  function FullBelow(m: Model, n: nat): seq<Op>
    requires n <= FULL_PARTS
  {
    CARD_OPS + Flatten(FullParts(m)[..n])
  }

  lemma FullStep(m: Model, n: nat)
    requires n < FULL_PARTS
    ensures FullBelow(m, n + 1) == FullBelow(m, n) + FullPart(m, n)
  {
    var parts := FullParts(m);
    assert parts[..n + 1] == parts[..n] + [FullPart(m, n)];
    FlattenSnoc(parts[..n], FullPart(m, n));
  }

  lemma FullEnds(m: Model)
    ensures FullBelow(m, 0) == CARD_OPS && FullBelow(m, FULL_PARTS) == FullOps(m)
  {
    assert FullParts(m)[..FULL_PARTS] == FullParts(m);
  }

  function UpdateBelow(m: Model, p: Model, n: nat): seq<Op>
    requires n <= UPDATE_PARTS
  {
    Flatten(UpdateParts(m, p)[..n])
  }

  lemma UpdateStep(m: Model, p: Model, n: nat)
    requires n < UPDATE_PARTS
    ensures UpdateBelow(m, p, n + 1) == UpdateBelow(m, p, n) + UpdatePart(m, p, n)
  {
    var parts := UpdateParts(m, p);
    assert parts[..n + 1] == parts[..n] + [UpdatePart(m, p, n)];
    FlattenSnoc(parts[..n], UpdatePart(m, p, n));
  }

  lemma UpdateEnds(m: Model, p: Model)
    ensures UpdateBelow(m, p, 0) == [] && UpdateBelow(m, p, UPDATE_PARTS) == UpdateOps(m, p)
  {
    assert UpdateParts(m, p)[..UPDATE_PARTS] == UpdateParts(m, p);
  }

  lemma DamageSame(m: Model, p: Model, n: nat)
    requires RestoredPart(m, p, n) == []
    ensures RestoredBelow(m, p, n + 1) == RestoredBelow(m, p, n)
  {
  }

  /** What the damage becomes when part `n` restores one box. */
  lemma DamageGrows(m: Model, p: Model, n: nat, b: Box)
    requires RestoredPart(m, p, n) == [b]
    ensures GrowAll(RestoredBelow(m, p, n + 1)) == Grow(GrowAll(RestoredBelow(m, p, n)), b)
    ensures RestoredBelow(m, p, n + 1) != []
  {
    GrowSnoc(RestoredBelow(m, p, n), b);
  }

  lemma ActionsRestored(m: Model, p: Model)
    requires m.armed != p.armed
    ensures GrowAll(RestoredBelow(m, p, 4)) == Grow(Grow(GrowAll(RestoredBelow(m, p, 3)), RESCUE), LOADER)
    ensures RestoredBelow(m, p, 4) != []
  {
    var boxes := RestoredBelow(m, p, 3);
    GrowSnoc(boxes, RESCUE);
    GrowSnoc(boxes + [RESCUE], LOADER);
    assert boxes + [RESCUE] + [LOADER] == boxes + [RESCUE, LOADER];
  }
}
