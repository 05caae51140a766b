/** The control panel's model: capture of one contact, taps, brightness drags, the two-tap
    reboot and the transactional result buffer; and what whole runs guarantee. */
module ControlPanel {
  import opened Basics
  import opened TouchEvents
  import L = PanelPaint
  import opened Canvases

  datatype Coord = Finite(v: real) | NotFinite

  datatype PanelEvent = PanelEvent(kind: Kind, slot: int, x: Coord, y: Coord)

  datatype Tile =
    | NoTile | HandleTile | WifiTile | BrightTile | AutoTile | OffTile | RescueTile | LoaderTile
    | TimerTile(i: int) | Outside

  datatype Action =
    | SetBrightness(level: int) | SetAuto(on: bool) | SleepNow | SetSleepMinutes(minutes: int)
    | WifiToggle(wanted: bool) | RebootRescue | RebootLoader | SaveSettings

  datatype Panel = Panel(
    open: bool, slide: real, slideStart: int, slideFrom: real,
    brightness: int, brightnessMax: int, autoOn: bool, sleepMinutes: int, wifi: L.Wifi,
    armed: int, armedAt: int, dragging: bool, lastDragPaint: int, dirty: bool,
    captureSlot: int, captureTile: Tile, captureY: real, captureAt: int, pendingBrightness: int)

  const SLIDE_MS := 180
  const TAP_MS := 401
  const ARM_MS := 3000
  const DRAG_PAINT_MS := 33
  const MAX_ACTIONS := 3

  predicate Elapsed(now: int, since: int, limit: int) { now >= since && now - since >= limit }

  predicate Inside(b: Box, x: real, y: real) {
    x >= b.x as real && y >= b.y as real && x < (b.x + b.w) as real && y < (b.y + b.h) as real
  }

  function TimerSegment(i: int): Box { Box(432 + i * 66, 289, 66, 43) }

  function Hit(x: real, y: real): Tile {
    if Inside(L.HANDLE, x, y) then HandleTile
    else if Inside(L.WIFI, x, y) then WifiTile
    else if Inside(L.BRIGHT, x, y) then BrightTile
    else if Inside(L.AUTO, x, y) then AutoTile
    else if Inside(L.OFFNOW, x, y) then OffTile
    else if Inside(L.RESCUE, x, y) then RescueTile
    else if Inside(L.LOADER, x, y) then LoaderTile
    else if Inside(TimerSegment(0), x, y) then TimerTile(0)
    else if Inside(TimerSegment(1), x, y) then TimerTile(1)
    else if Inside(TimerSegment(2), x, y) then TimerTile(2)
    else if Inside(TimerSegment(3), x, y) then TimerTile(3)
    else if Inside(L.PANEL, x, y) then NoTile
    else Outside
  }

  /** Where a control is touched. */
  function Area(t: Tile): Box
    requires !t.NoTile? && !t.Outside? && (t.TimerTile? ==> 0 <= t.i < 4)
  {
    match t
    case HandleTile => L.HANDLE
    case WifiTile => L.WIFI
    case BrightTile => L.BRIGHT
    case AutoTile => L.AUTO
    case OffTile => L.OFFNOW
    case RescueTile => L.RESCUE
    case LoaderTile => L.LOADER
    case TimerTile(i) => TimerSegment(i)
  }

  /** No two controls overlap and all are on the panel, so the order of the tests is immaterial:
      a point hits a control exactly when it is inside that control's rectangle. */
  lemma HitExactly(x: real, y: real, t: Tile)
    requires t.TimerTile? ==> 0 <= t.i < 4
    ensures if t.Outside? then Hit(x, y) == t <==> !Inside(L.PANEL, x, y)
            else t.NoTile? || (Hit(x, y) == t <==> Inside(Area(t), x, y))
    ensures !t.Outside? && !t.NoTile? && Inside(Area(t), x, y) ==> Inside(L.PANEL, x, y)
  {
    if t.TimerTile? { assert t.i == 0 || t.i == 1 || t.i == 2 || t.i == 3; }
  }

  function Release(m: Panel): Panel { m.(captureSlot := -1, captureTile := NoTile, dragging := false) }

  function Disarm(m: Panel): Panel { if m.armed != 0 then m.(armed := 0, dirty := true) else m }

  function Cube(v: real): real { v * v * v }

  /** How much of a slide begun at `start` is done; its floating-point rounding is not modelled. */
  function Eased(now: int, start: int): (part: real)
    ensures 0.0 <= part <= 1.0 && (Elapsed(now, start, SLIDE_MS) ==> part == 1.0)
  {
    var progress := if Elapsed(now, start, SLIDE_MS) then 1.0
                    else if now > start then (now - start) as real / 180.0 else 0.0;
    CubeWithin(1.0 - progress);
    1.0 - Cube(1.0 - progress)
  }

  lemma CubeWithin(v: real)
    requires 0.0 <= v <= 1.0
    ensures 0.0 <= Cube(v) <= 1.0 && (v == 0.0 ==> Cube(v) == 0.0)
  {
    PartWithin(v, v);
    PartWithin(v * v, v);
  }

  function SlideTick(m: Panel, now: int): Panel {
    m.(slide := m.slideFrom + ((if m.open then 1.0 else 0.0) - m.slideFrom) * Eased(now, m.slideStart))
  }

  predicate MinutesOk(n: int) { n == 0 || n == 1 || n == 5 || n == 15 }

  function Init(brightness: int, maximum: int, automatic: bool, minutes: int): Panel {
    var max := if maximum < 8 then 8 else maximum;
    var b := Clamp(brightness, 8, max);
    Panel(false, 0.0, 0, 0.0, b, max, automatic, if MinutesOk(minutes) then minutes else 5, L.Off,
          0, 0, false, 0, true, -1, NoTile, 0.0, 0, b)
  }

  function StartSlide(m: Panel, now: int, open: bool): Panel {
    var t := SlideTick(m, now);
    t.(slideFrom := t.slide, slideStart := now, open := open)
  }

  function Open(m: Panel, now: int): Panel { if m.open then m else StartSlide(m, now, true) }

  function Close(m: Panel, now: int): Panel {
    var r := Release(Disarm(m));
    if r.open then StartSlide(r, now, false) else r
  }

  predicate Visible(m: Panel) { m.open || m.slide > 0.0 }

  function Tick(m: Panel, now: int): Panel {
    var t := SlideTick(m, now);
    if t.armed != 0 && Elapsed(now, t.armedAt, ARM_MS) then Disarm(t) else t
  }

  /** How far up the slider a height is. */
  function Share(y: real): (p: real)
    ensures 0.0 <= p <= 1.0
  {
    var part := ((L.BRIGHT.y + L.BRIGHT.h - 1) as real - y) / (L.BRIGHT.h - 1) as real;
    if part < 0.0 then 0.0 else if part > 1.0 then 1.0 else part
  }

  /** The level a share of the slider stands for, rounded half away from zero. */
  function LevelOf(maximum: int, share: real): (l: int)
    requires maximum >= 8 && 0.0 <= share <= 1.0
    ensures 8 <= l <= maximum
  {
    var span := (maximum - 8) as real;
    PartWithin(share, span);
    8 + (share * span + 0.5).Floor
  }

  /** The brightness a height on the slider stands for. */
  function LevelAt(m: Panel, y: real): (l: int)
    requires m.brightnessMax >= 8
    ensures 8 <= l <= m.brightnessMax
  {
    LevelOf(m.brightnessMax, Share(y))
  }

  /** The slider: its ends stand for the maximum and 8, and a level in between is the nearest to
      the height. */
  lemma SliderLevels(m: Panel, y: real)
    requires m.brightnessMax >= 8
    ensures y <= L.BRIGHT.y as real ==> LevelAt(m, y) == m.brightnessMax
    ensures y >= (L.BRIGHT.y + L.BRIGHT.h - 1) as real ==> LevelAt(m, y) == 8
    ensures var exact := 8.0 + Share(y) * (m.brightnessMax - 8) as real;
            -0.5 < LevelAt(m, y) as real - exact <= 0.5
  {
    FloorNear(Share(y) * (m.brightnessMax - 8) as real);
  }

  /** Higher on the slider is never darker. */
  lemma SliderRises(m: Panel, y: real, lower: real)
    requires m.brightnessMax >= 8 && y <= lower
    ensures LevelAt(m, lower) <= LevelAt(m, y)
  {
    ShareFalls(y, lower);
    LevelRises(m.brightnessMax, Share(lower), Share(y));
  }

  lemma ShareFalls(y: real, lower: real)
    requires y <= lower
    ensures Share(lower) <= Share(y)
  {
  }

  lemma LevelRises(maximum: int, p: real, q: real)
    requires maximum >= 8 && 0.0 <= p <= q <= 1.0
    ensures LevelOf(maximum, p) <= LevelOf(maximum, q)
  {
    var span := (maximum - 8) as real;
    RealMonotone(p, q, span);
    FloorMonotone(p * span + 0.5, q * span + 0.5);
  }

  lemma FloorMonotone(a: real, b: real)
    requires a <= b
    ensures a.Floor <= b.Floor
  {
  }

  lemma RealMonotone(a: real, b: real, k: real)
    requires a <= b && 0.0 <= k
    ensures a * k <= b * k
  {
  }

  lemma FloorNear(v: real)
    ensures v - 0.5 < (v + 0.5).Floor as real <= v + 0.5
  {
  }

  function PartOf(p: real, span: real): real { p * span }

  lemma PartWithin(p: real, span: real)
    requires 0.0 <= p <= 1.0 && 0.0 <= span
    ensures 0.0 <= PartOf(p, span) <= span
    ensures 0.0 <= p * span <= span
  {
  }

  datatype Outcome = Outcome(m: Panel, actions: seq<Action>)

  function ApplyBrightness(m: Panel, now: int): Outcome {
    if m.pendingBrightness == m.brightness then Outcome(m, [])
    else Outcome(m.(brightness := m.pendingBrightness, lastDragPaint := now, dirty := true),
                 [SetBrightness(m.pendingBrightness)])
  }

  function HandleDown(m: Panel, slot: int, x: real, y: real, now: int): Outcome
    requires m.brightnessMax >= 8
  {
    if m.captureSlot >= 0 then Outcome(m, [])
    else
      var c := m.(captureSlot := slot, captureTile := Hit(x, y), captureY := y, captureAt := now);
      if c.captureTile != BrightTile then Outcome(c, [])
      else
        var d := c.(dragging := true, autoOn := false, dirty := c.dirty || c.autoOn, pendingBrightness := LevelAt(c, y));
        var b := ApplyBrightness(d, now);
        Outcome(b.m.(lastDragPaint := now), (if c.autoOn then [SetAuto(false)] else []) + b.actions)
  }

  function HandleDrag(m: Panel, up: bool, y: real, now: int): Outcome
    requires m.brightnessMax >= 8
  {
    var p := m.(pendingBrightness := LevelAt(m, y));
    var b := if up || Elapsed(now, p.lastDragPaint, DRAG_PAINT_MS) then ApplyBrightness(p, now) else Outcome(p, []);
    if up then Outcome(Release(b.m), b.actions + [SaveSettings]) else b
  }

  /** A completed tap on `tile`, after the capture has been released. */
  function Tapped(m: Panel, tile: Tile, now: int): Outcome {
    match tile
    case AutoTile =>
      Outcome(m.(autoOn := !m.autoOn, dirty := true), [SetAuto(!m.autoOn), SaveSettings])
    case TimerTile(i) =>
      if 0 <= i < 4 then
        Outcome(m.(sleepMinutes := L.MINUTES[i], dirty := true), [SetSleepMinutes(L.MINUTES[i]), SaveSettings])
      else Outcome(m, [])
    case WifiTile =>
      var wanted := m.wifi == L.Off || m.wifi == L.WifiFailed;
      Outcome(m.(wifi := if wanted then L.Starting else L.Off, dirty := true), [WifiToggle(wanted)])
    case OffTile => Outcome(Close(m, now), [SleepNow])
    case RescueTile => TapReboot(m, 1, now)
    case LoaderTile => TapReboot(m, 2, now)
    case _ => Outcome(m, [])
  }

  /** The first tap arms, a second one within three seconds reboots. */
  function TapReboot(m: Panel, arm: int, now: int): Outcome {
    if m.armed == arm && now >= m.armedAt && !Elapsed(now, m.armedAt, ARM_MS) then
      Outcome(Disarm(m), [if arm == 1 then RebootRescue else RebootLoader])
    else Outcome(m.(armed := arm, armedAt := now, dirty := true), [])
  }

  predicate IsTap(m: Panel, x: real, y: real, now: int) {
    now >= m.captureAt && !Elapsed(now, m.captureAt, TAP_MS) && m.captureTile == Hit(x, y)
  }

  function HandleUp(m: Panel, x: real, y: real, now: int): Outcome {
    var r := Release(m);
    if m.captureTile == Outside then Outcome(Close(r, now), [])
    else if IsTap(m, x, y, now) then Tapped(r, m.captureTile, now)
    else Outcome(r, [])
  }

  function Handle(m: Panel, e: PanelEvent, now: int): Outcome
    requires m.brightnessMax >= 8
  {
    if !Visible(m) || e.x.NotFinite? || e.y.NotFinite? then Outcome(m, [])
    else if e.kind.Down? then HandleDown(m, e.slot, e.x.v, e.y.v, now)
    else if m.captureSlot < 0 || e.slot != m.captureSlot then Outcome(m, [])
    else if e.kind.Cancel? then Outcome(Release(m), [])
    else if m.dragging then HandleDrag(m, e.kind.Up?, e.y.v, now)
    else if m.captureTile == HandleTile && m.captureY - e.y.v > 60.0 then Outcome(Close(m, now), [])
    else if e.kind.Up? then HandleUp(m, e.x.v, e.y.v, now)
    else Outcome(m, [])
  }

  /** Without room for every action nothing happens and the negated need is returned. */
  function HandleInto(m: Panel, e: PanelEvent, now: int, max: int): (Outcome, int)
    requires m.brightnessMax >= 8
  {
    var o := Handle(m, e, now);
    if |o.actions| > max then (Outcome(m, []), -|o.actions|) else (o, |o.actions|)
  }

  // ---------- Runs ----------

  /** The calls on the model and what the application does to it directly. */
  datatype Step =
    | Event(e: PanelEvent, now: int, max: int)
    | OpenCall(now: int)
    | CloseCall(now: int)
    | TickCall(now: int)
    | Hide
    | ForceDisarm
    | Adopt(brightness: int, autoOn: bool, wifi: L.Wifi)

  function Next(m: Panel, s: Step): Outcome
    requires m.brightnessMax >= 8
  {
    match s
    case Event(e, now, max) => HandleInto(m, e, now, max).0
    case OpenCall(now) => Outcome(Open(m, now), [])
    case CloseCall(now) => Outcome(Close(m, now), [])
    case TickCall(now) => Outcome(Tick(m, now), [])
    case Hide => Outcome(m.(slide := 0.0, slideFrom := 0.0), [])
    case ForceDisarm => Outcome(m.(armed := 0, dirty := true), [])
    case Adopt(b, a, w) => Outcome(m.(brightness := Clamp(b, 8, m.brightnessMax), autoOn := a, wifi := w), [])
  }

  predicate RangesOk(m: Panel) {
    && m.brightnessMax >= 8 && 8 <= m.brightness <= m.brightnessMax && 8 <= m.pendingBrightness <= m.brightnessMax
    && MinutesOk(m.sleepMinutes) && 0 <= m.armed <= 2
  }

  lemma InitRanges(brightness: int, maximum: int, automatic: bool, minutes: int)
    ensures RangesOk(Init(brightness, maximum, automatic, minutes))
  {
  }

  predicate Reboots(a: Action) { a.RebootRescue? || a.RebootLoader? }

  predicate ActionOk(m: Panel, a: Action) {
    && (a.SetBrightness? ==> 8 <= a.level <= m.brightnessMax)
    && (a.SetSleepMinutes? ==> MinutesOk(a.minutes))
  }

  /** What every operation keeps: the ranges, the maximum, and the size and contents of its
      answer. */
  predicate Sound(m: Panel, o: Outcome) {
    && RangesOk(o.m) && o.m.brightnessMax == m.brightnessMax && |o.actions| <= MAX_ACTIONS
    && forall a | a in o.actions :: ActionOk(m, a)
  }

  predicate SameArming(m: Panel, m': Panel) { m'.armed == m.armed && m'.armedAt == m.armedAt }

  predicate SameCapture(m: Panel, m': Panel) {
    m'.captureSlot == m.captureSlot && m'.captureTile == m.captureTile && m'.captureAt == m.captureAt
  }

  predicate NoReboot(o: Outcome) { forall a | a in o.actions :: !Reboots(a) }

  lemma DownEffect(m: Panel, slot: int, x: real, y: real, now: int)
    requires RangesOk(m)
    ensures var o := HandleDown(m, slot, x, y, now);
            && Sound(m, o) && SameArming(m, o.m) && NoReboot(o)
            && (if m.captureSlot >= 0 then o.m == m
                else o.m.captureSlot == slot && o.m.captureTile == Hit(x, y) && o.m.captureAt == now)
  {
  }

  lemma DragEffect(m: Panel, up: bool, y: real, now: int)
    requires RangesOk(m)
    ensures var o := HandleDrag(m, up, y, now);
            && Sound(m, o) && SameArming(m, o.m) && NoReboot(o)
            && (if up then o.m.captureSlot == -1 else SameCapture(m, o.m))
  {
  }

  lemma CloseEffect(m: Panel, now: int)
    requires RangesOk(m)
    ensures var r := Close(m, now);
            RangesOk(r) && r.brightnessMax == m.brightnessMax && r.armed == 0 && r.captureSlot == -1
  {
  }

  function TileOf(arm: int): Tile { if arm == 1 then RescueTile else LoaderTile }

  lemma TapRebootEffect(m: Panel, arm: int, now: int)
    requires RangesOk(m) && m.captureSlot == -1 && (arm == 1 || arm == 2)
    ensures var o := TapReboot(m, arm, now);
            && Sound(m, o) && o.m.captureSlot == -1
            && (o.m.armed != 0 && !SameArming(m, o.m) ==> arm == o.m.armed && o.m.armedAt == now)
            && (forall a | a in o.actions ::
                  && a == (if arm == 1 then RebootRescue else RebootLoader) && m.armed == arm
                  && 0 <= now - m.armedAt < ARM_MS && o.m.armed == 0)
  {
  }

  lemma TappedEffect(m: Panel, tile: Tile, now: int)
    requires RangesOk(m) && m.captureSlot == -1
    ensures var o := Tapped(m, tile, now);
            && Sound(m, o) && o.m.captureSlot == -1
            && (o.m.armed != 0 && !SameArming(m, o.m) ==> tile == TileOf(o.m.armed) && o.m.armedAt == now)
            && (forall a | a in o.actions && Reboots(a) ::
                  && tile == TileOf(if a.RebootRescue? then 1 else 2) && tile == TileOf(m.armed) && m.armed != 0
                  && 0 <= now - m.armedAt < ARM_MS && o.m.armed == 0)
  {
    match tile
    case OffTile => CloseEffect(m, now);
    case RescueTile => TapRebootEffect(m, 1, now);
    case LoaderTile => TapRebootEffect(m, 2, now);
    case _ =>
  }

  /** What an event may do to the capture and the arming, and when it may reboot. */
  predicate Accounted(m: Panel, e: PanelEvent, now: int, o: Outcome) {
    && Sound(m, o)
    && (o.m.captureSlot >= 0 && !SameCapture(m, o.m) ==>
          m.captureSlot < 0 && IsDownAt(e, o.m.captureSlot, o.m.captureTile) && o.m.captureAt == now)
    && (o.m.armed != 0 && !SameArming(m, o.m) ==>
          EndsTap(m, e, now, TileOf(o.m.armed)) && o.m.armedAt == now && o.m.captureSlot == -1)
    && (forall a | a in o.actions && Reboots(a) ::
          && EndsTap(m, e, now, TileOf(if a.RebootRescue? then 1 else 2))
          && m.armed == (if a.RebootRescue? then 1 else 2) && 0 <= now - m.armedAt < ARM_MS && o.m.armed == 0)
  }

  lemma UpEffect(m: Panel, e: PanelEvent, now: int)
    requires RangesOk(m) && e.kind.Up? && e.x.Finite? && e.y.Finite? && m.captureSlot >= 0 && e.slot == m.captureSlot
    ensures Accounted(m, e, now, HandleUp(m, e.x.v, e.y.v, now))
  {
    CloseEffect(Release(m), now);
    TappedEffect(Release(m), m.captureTile, now);
  }

  lemma HandleEffect(m: Panel, e: PanelEvent, now: int)
    requires RangesOk(m)
    ensures Accounted(m, e, now, Handle(m, e, now))
  {
    if Visible(m) && e.x.Finite? && e.y.Finite? {
      if e.kind.Down? {
        DownEffect(m, e.slot, e.x.v, e.y.v, now);
      } else if m.captureSlot >= 0 && e.slot == m.captureSlot && !e.kind.Cancel? {
        CloseEffect(m, now);
        if m.dragging {
          DragEffect(m, e.kind.Up?, e.y.v, now);
        } else if e.kind.Up? {
          UpEffect(m, e, now);
        }
      }
    }
  }

  predicate IsDownAt(e: PanelEvent, slot: int, tile: Tile) {
    e.kind.Down? && e.slot == slot && e.x.Finite? && e.y.Finite? && Hit(e.x.v, e.y.v) == tile
  }

  /** The UP of the captured contact, in time and on the tile where it began. */
  predicate EndsTap(m: Panel, e: PanelEvent, now: int, tile: Tile) {
    && e.kind.Up? && e.x.Finite? && e.y.Finite?
    && m.captureSlot >= 0 && e.slot == m.captureSlot && m.captureTile == tile
    && IsTap(m, e.x.v, e.y.v, now)
  }

  /** Brightness, sleep time and arming stay in range; at most three actions come of a step. */
  lemma StepRanges(m: Panel, s: Step)
    requires RangesOk(m)
    ensures Sound(m, Next(m, s))
  {
    match s
    case Event(e, now, max) => HandleEffect(m, e, now);
    case CloseCall(now) => CloseEffect(m, now);
    case _ =>
  }

  /** Three is enough room for any event, and with less than needed the model is untouched. A
      negative capacity refuses every event, even one that needs no room and returns 0. */
  lemma RoomIsTransactional(m: Panel, e: PanelEvent, now: int, max: int)
    requires RangesOk(m)
    ensures var (o, n) := HandleInto(m, e, now, max);
            && (max >= MAX_ACTIONS ==> n >= 0)
            && (n < 0 || max < 0 ==> o == Outcome(m, []))
            && (n < 0 ==> HandleInto(m, e, now, -n) == (Handle(m, e, now), -n))
            && (n >= 0 && max >= 0 ==> o == Handle(m, e, now) && n == |o.actions|)
  {
    HandleEffect(m, e, now);
  }

  /** A DOWN on an open panel's automatic tile, offered no room at all, is lost behind the answer 0. */
  lemma NegativeRoomLosesDown()
    ensures var m := Open(Init(100, 255, false, 5), 0);
            var e := PanelEvent(Down, 0, Finite(900.0), Finite(100.0));
            RangesOk(m) && forall max | max < 0 :: HandleInto(m, e, 0, max) == (Outcome(m, []), 0) && Handle(m, e, 0).m != m
  {
    InitRanges(100, 255, false, 5);
  }

  /** An answer that is not negative means that the event was handled whole. */
  ghost predicate AnswersTrue(max: int) {
    forall m: Panel, e: PanelEvent, now: int | RangesOk(m) :: AnswersTrueTo(m, e, now, max)
  }

  predicate AnswersTrueTo(m: Panel, e: PanelEvent, now: int, max: int)
    requires m.brightnessMax >= 8
  {
    var (o, n) := HandleInto(m, e, now, max); n >= 0 ==> o == Handle(m, e, now)
  }

  /** It does for every panel, event and time exactly when the capacity is not negative. */
  lemma AnswersTrueExactly(max: int)
    ensures AnswersTrue(max) <==> max >= 0
  {
    if max >= 0 {
      forall m: Panel, e: PanelEvent, now: int | RangesOk(m)
        ensures AnswersTrueTo(m, e, now, max)
      {
        RoomIsTransactional(m, e, now, max);
      }
    } else {
      NegativeRoomLosesDown();
      assert !AnswersTrueTo(Open(Init(100, 255, false, 5), 0), PanelEvent(Down, 0, Finite(900.0), Finite(100.0)), 0, max);
    }
  }

  ghost predicate Linked(steps: seq<Step>, states: seq<Panel>, i: int)
    requires |states| == |steps| + 1 && 0 <= i < |steps|
  {
    RangesOk(states[i]) && states[i + 1] == Next(states[i], steps[i]).m
  }

  ghost predicate Started(m: Panel) {
    exists b, x, a, n :: m == Init(b, x, a, n)
  }

  lemma StartsIdle(m: Panel)
    requires Started(m)
    ensures RangesOk(m) && m.armed == 0 && m.captureSlot == -1
  {
    var b, x, a, n :| m == Init(b, x, a, n);
    InitRanges(b, x, a, n);
  }

  ghost predicate IsRun(steps: seq<Step>, states: seq<Panel>) {
    && |states| == |steps| + 1
    && Started(states[0])
    && forall i | 0 <= i < |steps| :: Linked(steps, states, i)
  }

  lemma {:induction false} RunRanges(steps: seq<Step>, states: seq<Panel>, n: nat)
    requires IsRun(steps, states) && n <= |steps|
    ensures RangesOk(states[n])
  {
    if n > 0 {
      RunRanges(steps, states, n - 1);
      assert Linked(steps, states, n - 1);
      StepRanges(states[n - 1], steps[n - 1]);
    } else {
      StartsIdle(states[0]);
    }
  }

  /** Step `n` is a completed tap on `tile`. */
  predicate CompletesTap(steps: seq<Step>, states: seq<Panel>, n: nat, tile: Tile)
    requires n < |steps| && |states| == |steps| + 1
  {
    steps[n].Event? && EndsTap(states[n], steps[n].e, steps[n].now, tile)
  }

  predicate Begins(steps: seq<Step>, n: nat, slot: int, tile: Tile, now: int)
    requires n < |steps|
  {
    steps[n].Event? && steps[n].now == now && IsDownAt(steps[n].e, slot, tile)
  }

  lemma EffectOf(m: Panel, s: Step)
    requires RangesOk(m)
    ensures !s.Event? ==> SameCapture(m, Next(m, s).m) || Next(m, s).m.captureSlot == -1
    ensures !s.Event? ==> SameArming(m, Next(m, s).m) || Next(m, s).m.armed == 0
    ensures !s.Event? ==> Next(m, s).actions == []
    ensures s.Event? ==> Next(m, s) == Outcome(m, []) || Next(m, s) == Handle(m, s.e, s.now)
  {
    if s.CloseCall? { CloseEffect(m, s.now); }
  }

  /** How a step can change who is captured: a DOWN captures, anything else keeps or releases. */
  lemma CaptureStep(steps: seq<Step>, states: seq<Panel>, n: nat)
    requires IsRun(steps, states) && n < |steps| && states[n + 1].captureSlot >= 0
    ensures var m, m' := states[n], states[n + 1];
            || (m'.captureSlot == m.captureSlot && m'.captureTile == m.captureTile && m'.captureAt == m.captureAt)
            || (m.captureSlot < 0 && Begins(steps, n, m'.captureSlot, m'.captureTile, m'.captureAt))
  {
    assert Linked(steps, states, n);
    EffectOf(states[n], steps[n]);
    if steps[n].Event? { HandleEffect(states[n], steps[n].e, steps[n].now); }
  }

  ghost predicate CapturedThrough(states: seq<Panel>, d: int, n: int)
    requires -1 <= d <= n < |states|
  {
    forall i | d < i <= n :: states[i].captureSlot >= 0
  }

  /** A captured contact has a DOWN of its own, and has been captured ever since. */
  lemma {:induction false} CaptureBegan(steps: seq<Step>, states: seq<Panel>, n: nat) returns (d: nat)
    requires IsRun(steps, states) && n <= |steps| && states[n].captureSlot >= 0
    ensures d < n && Begins(steps, d, states[n].captureSlot, states[n].captureTile, states[n].captureAt)
    ensures CapturedThrough(states, d, n)
  {
    assert n > 0 by { StartsIdle(states[0]); }
    CaptureStep(steps, states, n - 1);
    if states[n - 1].captureSlot >= 0 {
      d := CaptureBegan(steps, states, n - 1);
    } else {
      d := n - 1;
    }
  }

  /** Step `n` is the completed tap that armed `arm` at time `at`; it released the contact. */
  predicate ArmTap(steps: seq<Step>, states: seq<Panel>, n: nat, arm: int, at: int)
    requires n < |steps| && |states| == |steps| + 1
  {
    CompletesTap(steps, states, n, TileOf(arm)) && steps[n].now == at && states[n + 1].captureSlot < 0
  }

  /** How a step can leave a tile armed: it was, since the same moment, or the step is a
      completed tap on that tile. */
  lemma ArmStep(steps: seq<Step>, states: seq<Panel>, n: nat, arm: int, at: int)
    requires IsRun(steps, states) && n < |steps|
    requires arm != 0 && states[n + 1].armed == arm && states[n + 1].armedAt == at
    ensures (states[n].armed == arm && states[n].armedAt == at) || ArmTap(steps, states, n, arm, at)
  {
    assert Linked(steps, states, n);
    EffectOf(states[n], steps[n]);
    if steps[n].Event? { HandleEffect(states[n], steps[n].e, steps[n].now); }
  }

  ghost predicate ArmedThrough(states: seq<Panel>, j: int, n: int, arm: int, at: int)
    requires -1 <= j <= n < |states|
  {
    forall i | j < i <= n :: states[i].armed == arm && states[i].armedAt == at
  }

  /** An armed tile was armed by a completed tap on it and has stayed armed ever since. */
  lemma {:induction false} ArmBegan(steps: seq<Step>, states: seq<Panel>, n: nat, arm: int, at: int) returns (j: nat)
    requires IsRun(steps, states) && n <= |steps| && states[n].armed == arm != 0 && states[n].armedAt == at
    ensures j < n && ArmTap(steps, states, j, arm, at)
    ensures ArmedThrough(states, j, n, arm, at)
  {
    assert n > 0 by { StartsIdle(states[0]); }
    ArmStep(steps, states, n - 1, arm, at);
    if states[n - 1].armed == arm && states[n - 1].armedAt == at {
      j := ArmBegan(steps, states, n - 1, arm, at);
    } else {
      j := n - 1;
    }
  }

  /** A reboot comes only from a completed tap on the tile that is armed and fresh. */
  lemma RebootStep(steps: seq<Step>, states: seq<Panel>, n: nat, arm: int)
    requires IsRun(steps, states) && n < |steps| && RangesOk(states[n])
    requires arm == 1 || arm == 2
    requires (if arm == 1 then RebootRescue else RebootLoader) in Next(states[n], steps[n]).actions
    ensures CompletesTap(steps, states, n, TileOf(arm))
    ensures states[n].armed == arm && 0 <= steps[n].now - states[n].armedAt < ARM_MS
    ensures states[n + 1].armed == 0
  {
    assert Linked(steps, states, n);
    EffectOf(states[n], steps[n]);
    if steps[n].Event? { HandleEffect(states[n], steps[n].e, steps[n].now); }
  }

  /** A close or an expired tick leaves nothing armed. */
  lemma CloseDisarms(m: Panel, s: Step)
    requires RangesOk(m)
    requires s.CloseCall? || s.ForceDisarm? || (s.TickCall? && Elapsed(s.now, m.armedAt, ARM_MS))
    ensures Next(m, s).m.armed == 0
  {
  }

  /** Over every run a reboot is the second of two separate completed taps on one tile, less
      than three seconds apart, with no close, expiry, disarm or other arming in between; the
      second tap has a DOWN of its own after the first, at most 400 ms before its UP. */
  lemma RebootNeedsTwoTaps(steps: seq<Step>, states: seq<Panel>, k: nat, arm: int) returns (j: nat, d: nat)
    requires IsRun(steps, states) && k < |steps| && (arm == 1 || arm == 2)
    requires RangesOk(states[k])
    requires (if arm == 1 then RebootRescue else RebootLoader) in Next(states[k], steps[k]).actions
    ensures var tile := TileOf(arm);
            && j < d < k
            && CompletesTap(steps, states, j, tile) && CompletesTap(steps, states, k, tile)
            && 0 <= steps[k].now - steps[j].now < ARM_MS
            && Begins(steps, d, steps[k].e.slot, tile, states[k].captureAt)
            && 0 <= steps[k].now - steps[d].now < TAP_MS
    ensures ArmedThrough(states, j, k, arm, steps[j].now)
    ensures forall i | j < i < k ::
              && !steps[i].CloseCall? && !steps[i].ForceDisarm?
              && (steps[i].TickCall? ==> !Elapsed(steps[i].now, steps[j].now, ARM_MS))
  {
    RebootStep(steps, states, k, arm);
    j := ArmBegan(steps, states, k, arm, states[k].armedAt);
    d := CaptureBegan(steps, states, k);
    forall i | j < i < k
      ensures !steps[i].CloseCall? && !steps[i].ForceDisarm?
      ensures steps[i].TickCall? ==> !Elapsed(steps[i].now, steps[j].now, ARM_MS)
    {
      assert Linked(steps, states, i);
      assert states[i].armedAt == steps[j].now && states[i + 1].armed == arm;
      if steps[i].CloseCall? || steps[i].ForceDisarm? ||
         (steps[i].TickCall? && Elapsed(steps[i].now, states[i].armedAt, ARM_MS)) {
        CloseDisarms(states[i], steps[i]);
      }
    }
  }

  /** Only the captured contact can act: any other slot's event can be taken out of a run, and what is
      left is a run through the same states, with the same actions. */
  lemma OthersAreInert(steps: seq<Step>, states: seq<Panel>, n: nat)
    requires IsRun(steps, states) && n < |steps|
    requires steps[n].Event? && states[n].captureSlot >= 0 && steps[n].e.slot != states[n].captureSlot
    ensures RangesOk(states[n]) && Next(states[n], steps[n]).actions == []
    ensures IsRun(steps[..n] + steps[n + 1..], states[..n] + states[n + 1..])
  {
    assert Linked(steps, states, n);
    var left, seen := steps[..n] + steps[n + 1..], states[..n] + states[n + 1..];
    assert seen[0] == states[0] && states[n + 1] == states[n];
    forall i | 0 <= i < |left| ensures Linked(left, seen, i) {
      assert Linked(steps, states, if i < n then i else i + 1);
    }
  }

  // ---------- The slide ----------

  predicate SlideOk(m: Panel) { 0.0 <= m.slide <= 1.0 && 0.0 <= m.slideFrom <= 1.0 }

  /** A part of the way from one end to the other is between them. */
  lemma Between(from: real, to: real, part: real)
    requires 0.0 <= from <= 1.0 && 0.0 <= to <= 1.0 && 0.0 <= part <= 1.0
    ensures 0.0 <= from + (to - from) * part <= 1.0
    ensures part == 1.0 ==> from + (to - from) * part == to
  {
    var rest := 1.0 - part;
    var x, y := PartOf(from, rest), PartOf(to, part);
    PartWithin(from, rest);
    PartWithin(to, part);
    Mix(from, to, part, rest);
    assert from + (to - from) * part == x + y;
  }

  lemma Mix(a: real, b: real, part: real, rest: real)
    requires rest == 1.0 - part
    ensures a + (b - a) * part == PartOf(a, rest) + PartOf(b, part)
  {
  }

  lemma SlideTickOk(m: Panel, now: int)
    requires SlideOk(m)
    ensures SlideOk(SlideTick(m, now))
    ensures Elapsed(now, m.slideStart, SLIDE_MS) ==> SlideTick(m, now).slide == if m.open then 1.0 else 0.0
  {
    Between(m.slideFrom, if m.open then 1.0 else 0.0, Eased(now, m.slideStart));
  }

  /** The slide of `r` is that of `m`, or has just begun to close. */
  predicate SlidesOn(m: Panel, r: Panel, now: int) {
    || (r.slide == m.slide && r.slideFrom == m.slideFrom && r.slideStart == m.slideStart && r.open == m.open)
    || (m.open && !r.open && r.slide == r.slideFrom == SlideTick(m, now).slide && r.slideStart == now)
  }

  lemma CloseSlides(m: Panel, now: int)
    ensures SlidesOn(m, Close(m, now), now)
  {
  }

  lemma TappedSlides(m: Panel, tile: Tile, now: int)
    ensures SlidesOn(m, Tapped(m, tile, now).m, now)
  {
    if tile == OffTile { CloseSlides(m, now); }
  }

  lemma ReleasedSlides(m: Panel, r: Panel, now: int)
    requires SlidesOn(Release(m), r, now)
    ensures SlidesOn(m, r, now)
  {
    assert SlideTick(Release(m), now).slide == SlideTick(m, now).slide;
  }

  lemma UpSlides(m: Panel, x: real, y: real, now: int)
    ensures SlidesOn(m, HandleUp(m, x, y, now).m, now)
  {
    if m.captureTile == Outside {
      CloseSlides(Release(m), now);
      ReleasedSlides(m, Close(Release(m), now), now);
    } else if IsTap(m, x, y, now) {
      TappedSlides(Release(m), m.captureTile, now);
      ReleasedSlides(m, Tapped(Release(m), m.captureTile, now).m, now);
    }
  }

  lemma DownSlides(m: Panel, slot: int, x: real, y: real, now: int)
    requires m.brightnessMax >= 8
    ensures SlidesOn(m, HandleDown(m, slot, x, y, now).m, now)
  {
  }

  lemma HandleSlides(m: Panel, e: PanelEvent, now: int)
    requires m.brightnessMax >= 8
    ensures SlidesOn(m, Handle(m, e, now).m, now)
  {
    hide HandleDown, HandleUp, Close;
    if e.x.Finite? && e.y.Finite? {
      DownSlides(m, e.slot, e.x.v, e.y.v, now);
      UpSlides(m, e.x.v, e.y.v, now);
      CloseSlides(m, now);
    }
  }

  lemma StepSlide(m: Panel, s: Step)
    requires RangesOk(m) && SlideOk(m)
    ensures SlideOk(Next(m, s).m)
    ensures Next(m, s).m.open == m.open ==> Next(m, s).m.slideStart == m.slideStart
  {
    match s
    case Event(e, now, max) =>
      HandleSlides(m, e, now);
      SlideTickOk(m, now);
    case OpenCall(now) => SlideTickOk(m, now);
    case CloseCall(now) => SlideTickOk(Release(Disarm(m)), now);
    case TickCall(now) => SlideTickOk(m, now);
    case _ =>
  }

  /** In every run the slide stays between hidden and fully shown. */
  lemma {:induction false} RunSlide(steps: seq<Step>, states: seq<Panel>, n: nat)
    requires IsRun(steps, states) && n <= |steps|
    ensures SlideOk(states[n])
  {
    if n > 0 {
      RunSlide(steps, states, n - 1);
      RunRanges(steps, states, n - 1);
      assert Linked(steps, states, n - 1);
      StepSlide(states[n - 1], steps[n - 1]);
    }
  }

  /** From state `i` to state `k` the panel is neither opened nor closed. */
  ghost predicate Stays(states: seq<Panel>, i: nat, k: nat)
    requires i <= k < |states|
  {
    forall j | i <= j <= k :: states[j].open == states[i].open
  }

  lemma {:induction false} StaysSince(steps: seq<Step>, states: seq<Panel>, i: nat, k: nat)
    requires IsRun(steps, states) && i <= k <= |steps| && Stays(states, i, k)
    ensures states[k].slideStart == states[i].slideStart && states[k].open == states[i].open
  {
    if i < k {
      assert states[k - 1].open == states[i].open;
      StaysSince(steps, states, i, k - 1);
      RunSlide(steps, states, k - 1);
      RunRanges(steps, states, k - 1);
      assert Linked(steps, states, k - 1);
      StepSlide(states[k - 1], steps[k - 1]);
    }
  }

  /** A panel that was not opened or closed since has settled at the first tick 180 ms after its slide
      began. */
  lemma SlideSettles(steps: seq<Step>, states: seq<Panel>, i: nat, k: nat)
    requires IsRun(steps, states) && i <= k < |steps| && Stays(states, i, k)
    requires steps[k].TickCall? && Elapsed(steps[k].now, states[i].slideStart, SLIDE_MS)
    ensures RangesOk(states[k + 1]) && states[k + 1].open == states[i].open
    ensures states[k + 1].slide == if states[i].open then 1.0 else 0.0
  {
    StaysSince(steps, states, i, k);
    RunSlide(steps, states, k);
    RunRanges(steps, states, k);
    RunRanges(steps, states, k + 1);
    assert Linked(steps, states, k);
    SlideTickOk(states[k], steps[k].now);
  }

  /** The call opens or closes the panel at `t`. */
  predicate Toggles(m: Panel, s: Step, t: int) {
    (s == OpenCall(t) && !m.open) || (s == CloseCall(t) && m.open)
  }

  lemma ToggleBegins(m: Panel, s: Step, t: int)
    requires RangesOk(m) && Toggles(m, s, t)
    ensures Next(m, s).m.open == !m.open && Next(m, s).m.slideStart == t
  {
  }

  /** 180 ms after a call that opened or closed it, a panel left alone is whole or gone at the next
      tick: whole, or invisible and deaf to every event. */
  lemma ToggleSettles(steps: seq<Step>, states: seq<Panel>, i: nat, k: nat, t: int, e: PanelEvent, now: int)
    requires IsRun(steps, states) && i < k < |steps| && Toggles(states[i], steps[i], t) && Stays(states, i + 1, k)
    requires steps[k].TickCall? && Elapsed(steps[k].now, t, SLIDE_MS)
    ensures RangesOk(states[k + 1])
    ensures var m := states[k + 1];
            if states[i].open then m.slide == 0.0 && !Visible(m) && Handle(m, e, now) == Outcome(m, []) else m.slide == 1.0
  {
    RunRanges(steps, states, i);
    assert Linked(steps, states, i);
    ToggleBegins(states[i], steps[i], t);
    SlideSettles(steps, states, i + 1, k);
  }
}
