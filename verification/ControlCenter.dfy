/** The panel model object. A copy of the whole model is kept while an event is handled, so that
    an event the caller has no room for leaves the model as it was. */
module ControlCenter {
  import opened TouchEvents
  import L = PanelPaint
  import opened P = ControlPanel

  class PanelModel {
    var m: Panel

    constructor (brightness: int, maximum: int, automatic: bool, minutes: int)
      ensures m == Init(brightness, maximum, automatic, minutes) && RangesOk(m)
    {
      var max := if maximum < 8 then 8 else maximum;
      var b := if brightness < 8 then 8 else if brightness > max then max else brightness;
      var sleep := if minutes == 0 || minutes == 1 || minutes == 5 || minutes == 15 then minutes else 5;
      m := Panel(false, 0.0, 0, 0.0, b, max, automatic, sleep, L.Off,
                 0, 0, false, 0, true, -1, NoTile, 0.0, 0, b);
    }

    method SlideTick(now: int)
      modifies this
      ensures m == P.SlideTick(old(m), now)
    {
      var progress := if Elapsed(now, m.slideStart, SLIDE_MS) then 1.0
                      else if now > m.slideStart then (now - m.slideStart) as real / 180.0 else 0.0;
      var eased := 1.0 - (1.0 - progress) * (1.0 - progress) * (1.0 - progress);
      m := m.(slide := m.slideFrom + ((if m.open then 1.0 else 0.0) - m.slideFrom) * eased);
    }

    method Disarm()
      modifies this
      ensures m == P.Disarm(old(m))
    {
      if m.armed != 0 {
        m := m.(armed := 0, dirty := true);
      }
    }

    method Release()
      modifies this
      ensures m == P.Release(old(m))
    {
      m := m.(captureSlot := -1, captureTile := NoTile, dragging := false);
    }

    method Open(now: int)
      modifies this
      ensures m == P.Open(old(m), now)
    {
      if m.open { return; }
      SlideTick(now);
      m := m.(slideFrom := m.slide, slideStart := now, open := true);
    }

    method Close(now: int)
      modifies this
      ensures m == P.Close(old(m), now)
    {
      Disarm();
      Release();
      if !m.open { return; }
      SlideTick(now);
      m := m.(slideFrom := m.slide, slideStart := now, open := false);
    }

    method Tick(now: int)
      modifies this
      ensures m == P.Tick(old(m), now)
    {
      SlideTick(now);
      if m.armed != 0 && Elapsed(now, m.armedAt, ARM_MS) {
        Disarm();
      }
    }

    method Brightness(now: int) returns (actions: seq<Action>)
      modifies this
      ensures Outcome(m, actions) == ApplyBrightness(old(m), now)
    {
      if m.pendingBrightness == m.brightness { return []; }
      m := m.(brightness := m.pendingBrightness, lastDragPaint := now, dirty := true);
      actions := [SetBrightness(m.brightness)];
    }

    method Down(slot: int, x: real, y: real, now: int) returns (actions: seq<Action>)
      requires m.brightnessMax >= 8
      modifies this
      ensures Outcome(m, actions) == HandleDown(old(m), slot, x, y, now)
    {
      actions := [];
      if m.captureSlot >= 0 { return; }
      m := m.(captureSlot := slot, captureTile := Hit(x, y), captureY := y, captureAt := now);
      if m.captureTile == BrightTile {
        actions := DownOnSlider(y, now);
      }
    }

    method DownOnSlider(y: real, now: int) returns (actions: seq<Action>)
      requires m.brightnessMax >= 8
      modifies this
      ensures var c := old(m);
              var d := c.(dragging := true, autoOn := false, dirty := c.dirty || c.autoOn,
                         pendingBrightness := LevelAt(c, y));
              var b := ApplyBrightness(d, now);
              m == b.m.(lastDragPaint := now) && actions == (if c.autoOn then [SetAuto(false)] else []) + b.actions
    {
      actions := [];
      m := m.(dragging := true);
      if m.autoOn {
        m := m.(autoOn := false, dirty := true);
        actions := [SetAuto(false)];
      }
      m := m.(pendingBrightness := LevelAt(m, y));
      var more := Brightness(now);
      actions := actions + more;
      m := m.(lastDragPaint := now);
    }

    method Drag(up: bool, y: real, now: int) returns (actions: seq<Action>)
      requires m.brightnessMax >= 8
      modifies this
      ensures Outcome(m, actions) == HandleDrag(old(m), up, y, now)
    {
      actions := [];
      m := m.(pendingBrightness := LevelAt(m, y));
      if up || Elapsed(now, m.lastDragPaint, DRAG_PAINT_MS) {
        actions := Brightness(now);
      }
      if up {
        actions := actions + [SaveSettings];
        Release();
      }
    }

    method Up(x: real, y: real, now: int) returns (actions: seq<Action>)
      modifies this
      ensures Outcome(m, actions) == HandleUp(old(m), x, y, now)
    {
      actions := [];
      var tile := m.captureTile;
      var tapped := now >= m.captureAt && !Elapsed(now, m.captureAt, TAP_MS) && tile == Hit(x, y);
      Release();
      if tile == Outside {
        Close(now);
        return;
      }
      if !tapped { return; }
      match tile {
        case AutoTile =>
          m := m.(autoOn := !m.autoOn, dirty := true);
          actions := [SetAuto(m.autoOn), SaveSettings];
        case TimerTile(i) =>
          if 0 <= i < 4 {
            m := m.(sleepMinutes := L.MINUTES[i], dirty := true);
            actions := [SetSleepMinutes(m.sleepMinutes), SaveSettings];
          }
        case WifiTile =>
          var wanted := m.wifi == L.Off || m.wifi == L.WifiFailed;
          m := m.(wifi := if wanted then L.Starting else L.Off, dirty := true);
          actions := [WifiToggle(wanted)];
        case OffTile =>
          Close(now);
          actions := [SleepNow];
        case RescueTile => actions := Reboot(1, now);
        case LoaderTile => actions := Reboot(2, now);
        case _ =>
      }
    }

    method Reboot(arm: int, now: int) returns (actions: seq<Action>)
      modifies this
      ensures Outcome(m, actions) == TapReboot(old(m), arm, now)
    {
      actions := [];
      if m.armed == arm && now >= m.armedAt && !Elapsed(now, m.armedAt, ARM_MS) {
        Disarm();
        actions := [if arm == 1 then RebootRescue else RebootLoader];
      } else {
        m := m.(armed := arm, armedAt := now, dirty := true);
      }
    }

    method Handle(e: PanelEvent, now: int) returns (actions: seq<Action>)
      requires m.brightnessMax >= 8
      modifies this
      ensures Outcome(m, actions) == P.Handle(old(m), e, now)
    {
      actions := [];
      if !Visible(m) || e.x.NotFinite? || e.y.NotFinite? { return; }
      if e.kind == Kind.Down {
        actions := Down(e.slot, e.x.v, e.y.v, now);
        return;
      }
      if m.captureSlot < 0 || e.slot != m.captureSlot { return; }
      if e.kind == Kind.Cancel {
        Release();
        return;
      }
      if m.dragging {
        actions := Drag(e.kind == Kind.Up, e.y.v, now);
        return;
      }
      if m.captureTile == HandleTile && m.captureY - e.y.v > 60.0 {
        Close(now);
        return;
      }
      if e.kind != Kind.Up { return; }
      actions := Up(e.x.v, e.y.v, now);
    }

    /** The transactional entry: `out` is filled and the model replaced only when all fits. */
    method HandleEvent(e: PanelEvent, now: int, max: int) returns (n: int, out: seq<Action>)
      requires m.brightnessMax >= 8
      modifies this
      ensures (Outcome(m, out), n) == HandleInto(old(m), e, now, max)
    {
      var before := m;
      out := Handle(e, now);
      n := |out|;
      if n > max {
        m := before;
        return -n, [];
      }
    }
  }
}
