/** What a tap and a drag on the panel bring about, told over whole runs from the touch events: the DOWN,
    the UP and what lies between them. */
module ControlTaps {
  import opened TouchEvents
  import opened Canvases
  import opened ControlPanel
  import L = PanelPaint

  // ---------- Taps, from the events ----------

  /** A finite event of `slot` on `tile`, while the panel shows and with room for its answer. */
  predicate Touches(steps: seq<Step>, states: seq<Panel>, n: nat, kind: Kind, slot: int, tile: Tile)
    requires n < |steps| && |states| == |steps| + 1 && Button(tile)
  {
    && steps[n].Event? && steps[n].max >= 3 && (states[n].open || states[n].slide > 0.0)
    && var e := steps[n].e;
       e.kind == kind && e.slot == slot && e.x.Finite? && e.y.Finite? && Inside(Area(tile), e.x.v, e.y.v)
  }

  /** A tile that acts when it is tapped. */
  predicate Button(t: Tile) {
    t == WifiTile || t == AutoTile || t == OffTile || t == RescueTile || t == LoaderTile ||
    (t.TimerTile? && 0 <= t.i < 4)
  }

  /** The step takes the captured contact of `slot` away: a close, or the contact's own end. */
  predicate TakesAway(s: Step, slot: int) {
    s.CloseCall? || (s.Event? && s.e.slot == slot && (s.e.kind.Up? || s.e.kind.Cancel?))
  }

  ghost predicate Undisturbed(steps: seq<Step>, d: nat, n: nat, slot: int)
    requires d < n <= |steps|
  {
    forall i | d < i < n :: !TakesAway(steps[i], slot)
  }

  predicate Untouched(m: Panel) { m.captureSlot < 0 && !m.dragging }

  /** A tap on `tile`: a DOWN on it at step `d` with no contact held, and that contact's UP on it at
      step `n`, at most 400 ms later. */
  ghost predicate Tap(steps: seq<Step>, states: seq<Panel>, d: nat, n: nat, tile: Tile)
    requires d < n < |steps| && |states| == |steps| + 1 && Button(tile)
  {
    && steps[d].Event? && steps[n].Event?
    && var slot := steps[d].e.slot;
       && slot >= 0 && Untouched(states[d])
       && Touches(steps, states, d, Down, slot, tile) && Touches(steps, states, n, Up, slot, tile)
       && 0 <= steps[n].now - steps[d].now <= 400
       && Undisturbed(steps, d, n, slot)
  }

  /** The capture that a DOWN on `tile` begins. */
  predicate Holds(m: Panel, slot: int, tile: Tile, at: int) {
    m.captureSlot == slot && m.captureTile == tile && m.captureAt == at && !m.dragging
  }

  // ---------- A tap stays captured ----------

  /** What is dragged is the brightness, by a captured contact. */
  predicate Tidy(m: Panel) { m.dragging ==> m.captureSlot >= 0 && m.captureTile == BrightTile }

  /** Events of the slots there are leave nothing dragged without a captured contact. */
  lemma {:induction false} UntouchedWithoutCapture(steps: seq<Step>, states: seq<Panel>, n: nat)
    requires IsRun(steps, states) && n <= |steps|
    requires forall i | 0 <= i < n && steps[i].Event? :: steps[i].e.slot >= 0
    ensures Tidy(states[n])
    ensures states[n].captureSlot < 0 ==> Untouched(states[n])
  {
    if n > 0 {
      UntouchedWithoutCapture(steps, states, n - 1);
      assert Linked(steps, states, n - 1);
      UntouchedStep(states[n - 1], steps[n - 1]);
    }
  }

  lemma UntouchedStep(m: Panel, s: Step)
    requires RangesOk(m) && Tidy(m) && (s.Event? ==> s.e.slot >= 0)
    ensures Tidy(Next(m, s).m)
  {
    EffectOf(m, s);
    match s
    case Event(e, now, _) =>
      hide Next, Handle;
      HandleUntouched(m, e, now);
    case _ => hide Eased;
  }

  lemma TapReleases(m: Panel, tile: Tile, now: int)
    requires Untouched(m)
    ensures Untouched(Tapped(m, tile, now).m)
  {
    hide Eased;
  }

  lemma HandleUntouched(m: Panel, e: PanelEvent, now: int)
    requires m.brightnessMax >= 8 && Tidy(m) && e.slot >= 0
    ensures Tidy(Handle(m, e, now).m)
  {
    TapReleases(Release(m), m.captureTile, now);
    hide Hit, LevelAt, Eased, IsTap, Tapped;
  }

  lemma DownHolds(m: Panel, s: Step, tile: Tile)
    requires RangesOk(m) && Untouched(m) && Button(tile)
    requires s.Event? && s.max >= 3 && Visible(m) && s.e.kind.Down? && s.e.slot >= 0
    requires s.e.x.Finite? && s.e.y.Finite? && Inside(Area(tile), s.e.x.v, s.e.y.v)
    ensures Holds(Next(m, s).m, s.e.slot, tile, s.now)
  {
    HitExactly(s.e.x.v, s.e.y.v, tile);
  }

  lemma HoldKept(m: Panel, s: Step, slot: int, tile: Tile, at: int)
    requires RangesOk(m) && slot >= 0 && Button(tile) && Holds(m, slot, tile, at) && !TakesAway(s, slot)
    ensures Holds(Next(m, s).m, slot, tile, at)
  {
  }

  lemma {:induction false} HeldThrough(steps: seq<Step>, states: seq<Panel>, d: nat, n: nat, slot: int, tile: Tile)
    requires IsRun(steps, states) && d < n <= |steps| && Button(tile) && slot >= 0 && Untouched(states[d])
    requires Touches(steps, states, d, Down, slot, tile) && Undisturbed(steps, d, n, slot)
    ensures Holds(states[n], slot, tile, steps[d].now)
  {
    assert Linked(steps, states, n - 1);
    if n == d + 1 {
      DownHolds(states[d], steps[d], tile);
    } else {
      HeldThrough(steps, states, d, n - 1, slot, tile);
      HoldKept(states[n - 1], steps[n - 1], slot, tile, steps[d].now);
    }
  }

  // ---------- What a tap yields ----------

  function Minutes(i: int): int { if i == 0 then 1 else if i == 1 then 5 else if i == 2 then 15 else 0 }

  /** What the UP of a tap answers, by the tile and the model it finds. */
  function Answer(m: Panel, tile: Tile, now: int): seq<Action>
    requires Button(tile)
  {
    match tile
    case AutoTile => [SetAuto(!m.autoOn), SaveSettings]
    case TimerTile(i) => [SetSleepMinutes(Minutes(i)), SaveSettings]
    case WifiTile => [WifiToggle(m.wifi.Off? || m.wifi.WifiFailed?)]
    case OffTile => [SleepNow]
    case _ =>
      if Primed(m, tile, now) then [if tile == RescueTile then RebootRescue else RebootLoader] else []
  }

  /** The tile was armed less than three seconds ago. */
  predicate Primed(m: Panel, tile: Tile, now: int) {
    m.armed == (if tile == RescueTile then 1 else 2) && 0 <= now - m.armedAt < 3000
  }

  /** And what it leaves of the model: the tapped setting changed, the contact released, every other
      setting as it was. */
  predicate Leaves(m: Panel, r: Panel, tile: Tile, now: int)
    requires Button(tile)
  {
    && r.captureSlot < 0 && !r.dragging
    && r.brightness == m.brightness && r.brightnessMax == m.brightnessMax
    && r.autoOn == (if tile == AutoTile then !m.autoOn else m.autoOn)
    && r.sleepMinutes == (if tile.TimerTile? then Minutes(tile.i) else m.sleepMinutes)
    && r.wifi == (if tile != WifiTile then m.wifi
                  else if m.wifi.Off? || m.wifi.WifiFailed? then L.Starting else L.Off)
    && (if tile == RescueTile || tile == LoaderTile then
          if Primed(m, tile, now) then r.armed == 0
          else r.armed == (if tile == RescueTile then 1 else 2) && r.armedAt == now
        else r.armed == (if tile == OffTile then 0 else m.armed) && r.armedAt == m.armedAt)
    && r.open == (m.open && tile != OffTile)
  }

  lemma UpYields(m: Panel, s: Step, tile: Tile, at: int)
    requires RangesOk(m) && Button(tile)
    requires s.Event? && s.max >= 3 && Visible(m) && s.e.kind.Up? && s.e.slot >= 0 && Holds(m, s.e.slot, tile, at)
    requires s.e.x.Finite? && s.e.y.Finite? && Inside(Area(tile), s.e.x.v, s.e.y.v) && 0 <= s.now - at <= 400
    ensures Next(m, s).actions == Answer(m, tile, s.now) && Leaves(m, Next(m, s).m, tile, s.now)
  {
    HitExactly(s.e.x.v, s.e.y.v, tile);
    assert IsTap(m, s.e.x.v, s.e.y.v, s.now);
    assert Handle(m, s.e, s.now) == Tapped(Release(m), tile, s.now);
    HandleEffect(m, s.e, s.now);
  }

  /** In every run a tap on a tile brings about what the tile is for, and nothing else. */
  lemma TapYields(steps: seq<Step>, states: seq<Panel>, d: nat, n: nat, tile: Tile)
    requires IsRun(steps, states) && d < n < |steps| && Button(tile) && Tap(steps, states, d, n, tile)
    ensures RangesOk(states[n])
    ensures Next(states[n], steps[n]).actions == Answer(states[n], tile, steps[n].now)
    ensures Leaves(states[n], states[n + 1], tile, steps[n].now)
  {
    assert Linked(steps, states, n);
    HeldThrough(steps, states, d, n, steps[d].e.slot, tile);
    UpYields(states[n], steps[n], tile, steps[d].now);
  }

  // ---------- Two taps reboot ----------

  /** The step disarms or arms: a close or a disarm, a tick three seconds after `at`, or an event of the
      captured contact that slides the handle off, ends a contact from outside the panel, or completes a
      tap on a tile that closes or arms. */
  predicate Upsets(m: Panel, s: Step, at: int) {
    || s.CloseCall? || s.ForceDisarm? || (s.TickCall? && s.now - at >= 3000)
    || (s.Event? && s.e.slot == m.captureSlot && !s.e.kind.Down? && s.e.x.Finite? && s.e.y.Finite? && Parts(m, s.e, s.now))
  }

  predicate Parts(m: Panel, e: PanelEvent, now: int)
    requires e.x.Finite? && e.y.Finite?
  {
    || (m.captureTile == HandleTile && m.captureY - e.y.v > 60.0)
    || (e.kind.Up? && m.captureTile == Outside)
    || (e.kind.Up? && (m.captureTile == OffTile || m.captureTile == RescueTile || m.captureTile == LoaderTile)
        && Inside(Area(m.captureTile), e.x.v, e.y.v) && 0 <= now - m.captureAt <= 400)
  }

  ghost predicate Calm(steps: seq<Step>, states: seq<Panel>, j: nat, k: nat)
    requires j < k <= |steps| && |states| == |steps| + 1 && steps[j].Event?
  {
    forall i | j < i < k :: !Upsets(states[i], steps[i], steps[j].now)
  }

  lemma ArmKept(m: Panel, s: Step, at: int)
    requires RangesOk(m) && m.armed != 0 && m.armedAt == at && !Upsets(m, s, at)
    ensures Next(m, s).m.armed == m.armed && Next(m, s).m.armedAt == at
  {
    EffectOf(m, s);
    match s
    case Event(e, now, _) =>
      hide Next, Handle;
      HandleKeepsArm(m, e, now);
    case _ => hide Eased;
  }

  lemma HandleKeepsArm(m: Panel, e: PanelEvent, now: int)
    requires m.brightnessMax >= 8
    requires e.slot == m.captureSlot && !e.kind.Down? && e.x.Finite? && e.y.Finite? ==> !Parts(m, e, now)
    ensures SameArming(m, Handle(m, e, now).m)
  {
    TapKeepsArm(Release(m), m.captureTile, now);
    if e.x.Finite? && e.y.Finite? {
      HitExactly(e.x.v, e.y.v, OffTile);
      HitExactly(e.x.v, e.y.v, RescueTile);
      HitExactly(e.x.v, e.y.v, LoaderTile);
    }
    hide Hit, LevelAt, Eased, Inside, Tapped;
  }

  lemma TapKeepsArm(m: Panel, tile: Tile, now: int)
    ensures tile == OffTile || tile == RescueTile || tile == LoaderTile || SameArming(m, Tapped(m, tile, now).m)
  {
  }

  lemma {:induction false} ArmedOn(steps: seq<Step>, states: seq<Panel>, j: nat, k: nat, arm: int)
    requires IsRun(steps, states) && j < k <= |steps| && steps[j].Event? && arm != 0
    requires states[j + 1].armed == arm && states[j + 1].armedAt == steps[j].now && Calm(steps, states, j, k)
    ensures states[k].armed == arm && states[k].armedAt == steps[j].now
  {
    if k > j + 1 {
      ArmedOn(steps, states, j, k - 1, arm);
      assert Linked(steps, states, k - 1);
      ArmKept(states[k - 1], steps[k - 1], steps[j].now);
    }
  }

  /** In every run, two taps on one reboot tile less than three seconds apart reboot to it: the first one
      arms the tile, unless it is armed and fresh already, and the second one reboots, unless something
      in between has disarmed it or armed the other. */
  lemma TwoTapsReboot(steps: seq<Step>, states: seq<Panel>, c: nat, j: nat, d: nat, k: nat, tile: Tile)
    requires IsRun(steps, states) && c < j < d < k < |steps| && (tile == RescueTile || tile == LoaderTile)
    requires Tap(steps, states, c, j, tile) && !Primed(states[j], tile, steps[j].now)
    requires Tap(steps, states, d, k, tile) && 0 <= steps[k].now - steps[j].now < 3000 && Calm(steps, states, j, k)
    ensures RangesOk(states[j]) && RangesOk(states[k])
    ensures Next(states[j], steps[j]).actions == []
    ensures Next(states[k], steps[k]).actions == [if tile == RescueTile then RebootRescue else RebootLoader]
  {
    TapYields(steps, states, c, j, tile);
    ArmedOn(steps, states, j, k, if tile == RescueTile then 1 else 2);
    TapYields(steps, states, d, k, tile);
  }

  // ---------- Brightness ----------

  /** A contact that began on the brightness tile is held and drags. */
  predicate Drags(m: Panel, slot: int) {
    m.captureSlot == slot && m.captureTile == BrightTile && m.dragging
  }

  lemma GrabDrags(m: Panel, s: Step)
    requires RangesOk(m) && m.captureSlot < 0
    requires s.Event? && s.max >= 3 && Visible(m) && s.e.kind.Down? && s.e.slot >= 0
    requires s.e.x.Finite? && s.e.y.Finite? && Inside(L.BRIGHT, s.e.x.v, s.e.y.v)
    ensures var r, level := Next(m, s), LevelAt(m, s.e.y.v);
            && Drags(r.m, s.e.slot) && !r.m.autoOn && r.m.brightness == level
            && r.actions == (if m.autoOn then [SetAuto(false)] else []) +
                            (if level != m.brightness then [SetBrightness(level)] else [])
  {
    HitExactly(s.e.x.v, s.e.y.v, BrightTile);
  }

  lemma DragKept(m: Panel, s: Step, slot: int)
    requires RangesOk(m) && slot >= 0 && Drags(m, slot) && !TakesAway(s, slot)
    ensures Drags(Next(m, s).m, slot)
  {
  }

  lemma ReleaseSets(m: Panel, s: Step)
    requires RangesOk(m) && s.Event? && s.max >= 3 && Visible(m) && s.e.slot >= 0 && Drags(m, s.e.slot)
    requires s.e.kind.Up? && s.e.x.Finite? && s.e.y.Finite?
    ensures var r, level := Next(m, s), LevelAt(m, s.e.y.v);
            && r.m.brightness == level && r.m.captureSlot < 0 && r.m.autoOn == m.autoOn
            && r.actions == (if level != m.brightness then [SetBrightness(level)] else []) + [SaveSettings]
  {
  }

  /** In every run a drag that begins on the brightness tile switches automatic brightness off at once
      and sets the level under the finger, and its UP leaves the level under the finger and saves it. */
  lemma DragSets(steps: seq<Step>, states: seq<Panel>, d: nat, n: nat)
    requires IsRun(steps, states) && d < n < |steps| && steps[d].Event? && steps[n].Event?
    requires states[d].captureSlot < 0 && Visible(states[d]) && Visible(states[n])
    requires steps[d].e.slot == steps[n].e.slot >= 0 && steps[d].max >= 3 && steps[n].max >= 3
    requires steps[d].e.kind.Down? && steps[d].e.x.Finite? && steps[d].e.y.Finite?
    requires Inside(L.BRIGHT, steps[d].e.x.v, steps[d].e.y.v) && Undisturbed(steps, d, n, steps[d].e.slot)
    requires steps[n].e.kind.Up? && steps[n].e.x.Finite? && steps[n].e.y.Finite?
    ensures RangesOk(states[d]) && RangesOk(states[n])
    ensures !states[d + 1].autoOn && states[d + 1].brightness == LevelAt(states[d], steps[d].e.y.v)
    ensures Next(states[d], steps[d]).actions ==
            (if states[d].autoOn then [SetAuto(false)] else []) +
            (if states[d + 1].brightness != states[d].brightness then [SetBrightness(states[d + 1].brightness)] else [])
    ensures states[n + 1].brightness == LevelAt(states[n], steps[n].e.y.v)
    ensures Next(states[n], steps[n]).actions ==
            (if states[n + 1].brightness != states[n].brightness then [SetBrightness(states[n + 1].brightness)] else []) +
            [SaveSettings]
  {
    assert Linked(steps, states, d) && Linked(steps, states, n);
    GrabDrags(states[d], steps[d]);
    DragsThrough(steps, states, d, n, steps[d].e.slot);
    ReleaseSets(states[n], steps[n]);
  }

  lemma {:induction false} DragsThrough(steps: seq<Step>, states: seq<Panel>, d: nat, n: nat, slot: int)
    requires IsRun(steps, states) && d < n <= |steps| && slot >= 0
    requires Drags(states[d + 1], slot) && Undisturbed(steps, d, n, slot)
    ensures Drags(states[n], slot)
  {
    if n > d + 1 {
      DragsThrough(steps, states, d, n - 1, slot);
      assert Linked(steps, states, n - 1);
      DragKept(states[n - 1], steps[n - 1], slot);
    }
  }

  // ---------- Closing ----------

  /** The touch that closes an open panel: the captured contact slides the handle off by more than 60,
      ends where it began outside the panel, or taps the tile that switches the screen off. */
  predicate Dismisses(m: Panel, e: PanelEvent, now: int)
    requires e.x.Finite? && e.y.Finite?
  {
    && m.captureSlot >= 0 && e.slot == m.captureSlot && (e.kind.Move? || e.kind.Up?)
    && (|| (m.captureTile == HandleTile && m.captureY - e.y.v > 60.0)
        || (e.kind.Up? && m.captureTile == Outside)
        || (e.kind.Up? && m.captureTile == OffTile && Inside(L.OFFNOW, e.x.v, e.y.v) && 0 <= now - m.captureAt <= 400))
  }

  lemma TapCloses(m: Panel, tile: Tile, now: int)
    requires m.open
    ensures Tapped(m, tile, now).m.open <==> tile != OffTile
  {
    hide Eased;
  }

  lemma HandleCloses(m: Panel, e: PanelEvent, now: int)
    requires m.brightnessMax >= 8 && m.open && e.x.Finite? && e.y.Finite?
    requires m.dragging ==> m.captureTile == BrightTile
    ensures !Handle(m, e, now).m.open <==> Dismisses(m, e, now)
  {
    HitExactly(e.x.v, e.y.v, OffTile);
    TapCloses(Release(m), m.captureTile, now);
    hide Hit, LevelAt, Eased, Inside, Tapped;
  }

  /** In every run an event closes the open panel exactly when it is such a touch. */
  lemma ClosesExactly(steps: seq<Step>, states: seq<Panel>, n: nat)
    requires IsRun(steps, states) && n < |steps| && states[n].open && steps[n].Event? && steps[n].max >= 3
    requires steps[n].e.x.Finite? && steps[n].e.y.Finite?
    requires forall i | 0 <= i < n && steps[i].Event? :: steps[i].e.slot >= 0
    ensures !states[n + 1].open <==> Dismisses(states[n], steps[n].e, steps[n].now)
  {
    RunRanges(steps, states, n);
    UntouchedWithoutCapture(steps, states, n);
    assert Linked(steps, states, n);
    HandleCloses(states[n], steps[n].e, steps[n].now);
    RoomIsTransactional(states[n], steps[n].e, steps[n].now, steps[n].max);
  }
}
