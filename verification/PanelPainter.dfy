/** The panel painter as the source writes it: drawing calls in order on one canvas. A ghost log
    of the calls made since a known image ties every pixel to PanelPaint's account of it. */
module PanelPainter {
  import opened CArithmetic
  import opened Pixels
  import opened Canvases
  import opened PanelPaint

  datatype Previous = None | Some(model: Model)

  class Painter {
    const c: Canvas
    const tables: CornerTables
    const env: Env
    ghost var base: (int, int) -> Pixel
    ghost var ops: seq<Op>

    ghost predicate Valid()
      reads tables.masks, tables.ready
    {
      c.Valid() && tables.Valid() && c.Apart(tables)
    }

    /** The canvas shows `ops` drawn over `base`. */
    ghost predicate Traced()
      reads this, c, c.px, tables.masks, tables.ready
    {
      Valid() && forall i, j | c.Frame().Contains(i, j) ::
        c.At(i, j) == Run(env, c.Frame(), ops, i, j, base(i, j))
    }

    constructor (c: Canvas, tables: CornerTables, env: Env)
      requires c.Valid() && tables.Valid() && c.Apart(tables)
      ensures Valid() && this.c == c && this.tables == tables && this.env == env
    {
      this.c, this.tables, this.env := c, tables, env;
      base, ops := (_, _) => 0, [];
    }

    /** Starts the log at the present image. */
    ghost method Mark()
      requires Valid()
      modifies this
      ensures Traced() && ops == []
      ensures forall i, j | c.Frame().Contains(i, j) :: base(i, j) == c.At(i, j)
    {
      var px, w := c.px[..], c.w;
      base := (i, j) => if 0 <= j * w + i < |px| then px[j * w + i] else 0;
      ops := [];
      forall i, j | c.Frame().Contains(i, j) ensures base(i, j) == c.At(i, j) {
        IndexInside(c.w, c.h, i, j);
      }
    }

    method Rectangle(r: Box, radius: int, color: Pixel)
      requires Traced()
      modifies this`ops, c.px, tables.masks, tables.ready
      ensures Traced() && ops == old(ops) + [Round(r, radius, color)]
    {
      c.BlendRoundRect(tables, r.x - PANEL.x, r.y - PANEL.y, r.w, r.h, radius, color);
      ops := ops + [Round(r, radius, color)];
      assert ops[..|ops| - 1] == old(ops);
    }

    /** The text painter composites its colours pixel by pixel. */
    method DrawText(call: TextCall)
      requires Traced()
      modifies this`ops, c.px
      ensures Traced() && ops == old(ops) + [Text(call)]
    {
      for j := 0 to c.h
        invariant Valid() && ops == old(ops)
        invariant forall u, v | c.Frame().Contains(u, v) ::
          c.At(u, v) == if v < j then OpAt(env, c.Frame(), Text(call), u, v, old(c.At(u, v))) else old(c.At(u, v))
      {
        for i := 0 to c.w
          invariant Valid() && ops == old(ops)
          invariant forall u, v | c.Frame().Contains(u, v) ::
            c.At(u, v) == if v < j || (v == j && u < i) then OpAt(env, c.Frame(), Text(call), u, v, old(c.At(u, v)))
                          else old(c.At(u, v))
        {
          BlendAll(i, j, env.draw(call, i, j));
        }
      }
      ops := ops + [Text(call)];
      assert ops[..|ops| - 1] == old(ops);
    }

    method BlendAll(i: int, j: int, colors: seq<Pixel>)
      requires Valid() && c.Frame().Contains(i, j)
      modifies c.px
      ensures forall u, v | c.Frame().Contains(u, v) ::
        c.At(u, v) == if u == i && v == j && c.Frame().Visible(u, v) then OverAll(old(c.At(u, v)), colors)
                      else old(c.At(u, v))
    {
      for k := 0 to |colors|
        invariant forall u, v | c.Frame().Contains(u, v) ::
          c.At(u, v) == if u == i && v == j && c.Frame().Visible(u, v) then OverAll(old(c.At(u, v)), colors[..k])
                        else old(c.At(u, v))
      {
        assert colors[..k + 1][..k] == colors[..k];
        c.Blend(i, j, colors[k]);
      }
      assert colors[..|colors|] == colors;
    }

    method WriteText(role: Role, box: Box, value: string, color: Pixel, centered: bool, baseline: int)
      requires Traced()
      modifies this`ops, c.px
      ensures Traced() && ops == old(ops) + [Text(TextCall(role, box, value, color, centered, baseline))]
    {
      DrawText(TextCall(role, box, value, color, centered, baseline));
    }

    method PaintWifi(m: Model)
      requires Traced()
      modifies this`ops, c.px, tables.masks, tables.ready
      ensures Traced() && ops == old(ops) + WifiOps(m)
    {
      Rectangle(WIFI, TILE_RADIUS, TILE);
      WriteText(Title, WIFI_TITLE, "Wi-Fi", INK, false, 0);
      Rectangle(WIFI_DOT, DOT_RADIUS, if m.wifi == Connected then AMBER else MUTED);
      var name, detail := "Off", "Tap to turn on";
      match m.wifi {
        case Starting => name := "Turning on" + DOTS; detail := m.ssid;
        case Associating => name := "Associating" + DOTS; detail := m.ssid;
        case Connected => name := if m.ssid != "" then m.ssid else "Connected"; detail := m.addr;
        case WifiFailed => name := "Failed"; detail := "Tap to retry";
        case Off =>
      }
      WriteText(Value, WIFI_NAME, name, INK, false, 0);
      WriteText(Label, WIFI_ADDRESS, detail, MUTED, false, 0);
      assert ops == old(ops) + WifiBaseOps(m);
      if m.wifi == Connected {
        WriteText(Label, WIFI_SIGNAL, Decimal(m.levelDbm) + " dBm", MUTED, false, 0);
      }
    }

    method PaintBrightness(m: Model)
      requires Traced()
      modifies this`ops, c.px, tables.masks, tables.ready
      ensures Traced() && ops == old(ops) + BrightOps(m)
    {
      Rectangle(BRIGHT, TILE_RADIUS, TILE);
      var maximum := if m.brightnessMax < 8 then 8 else m.brightnessMax;
      var level := if m.brightness < 8 then 8 else if m.brightness > maximum then maximum else m.brightness;
      var fill := BRIGHT_FILL;
      var height := if maximum == 8 then 0 else (level - 8) * fill.h / (maximum - 8);
      assert height == FillHeight(m);
      fill := fill.(y := fill.y + fill.h - height, h := height);
      if height != 0 {
        Rectangle(fill, if height < FILL_RADIUS * 2 then TruncDiv(height, 2) else FILL_RADIUS, AMBER);
      }
      assert ops == old(ops) + ([Round(BRIGHT, TILE_RADIUS, TILE)] + BrightFillOps(m));
      WriteText(Label, BRIGHT_LABEL, "Brightness", INK, true, 0);
      WriteText(Big, BRIGHT_VALUE, Decimal((level * 200 + maximum) / (2 * maximum)), INK, true, 0);
      WriteText(Label, BRIGHT_PERCENT, "%", INK, true, 0);
    }

    method PaintAction(tile: Box, name: string, armed: bool)
      requires Traced()
      modifies this`ops, c.px, tables.masks, tables.ready
      ensures Traced() && ops == old(ops) + ActionOps(tile, name, armed)
    {
      Rectangle(tile, TILE_RADIUS, if armed then AMBER else TILE);
      WriteText(Label, if armed then ArmedLabel(tile) else ActionLabel(tile), name, INK, true, 0);
      if armed {
        WriteText(Label, ArmedHint(tile), "Tap again", INK, true, 0);
      }
    }

    method PaintAuto(m: Model)
      requires Traced()
      modifies this`ops, c.px, tables.masks, tables.ready
      ensures Traced() && ops == old(ops) + AutoOps(m)
    {
      Rectangle(AUTO, TILE_RADIUS, if m.autoOn then AMBER else TILE);
      WriteText(Label, AUTO_LABEL, "Auto", INK, false, 0);
      Rectangle(AUTO_DOT, DOT_RADIUS, if m.autoOn then INK else MUTED);
    }

    method PaintTimer(m: Model)
      requires Traced()
      modifies this`ops, c.px, tables.masks, tables.ready
      ensures Traced() && ops == old(ops) + TimerOps(m)
    {
      Rectangle(TIMER, TILE_RADIUS, TILE);
      WriteText(Label, TIMER_TITLE, "Screen off after", MUTED, false, 0);
      ghost var start := ops;
      for i := 0 to 4
        invariant Traced() && ops == start + SegmentOps(m, i)
      {
        var segment := TimerSelection(i);
        if m.sleepMinutes == MINUTES[i] {
          Rectangle(segment, SEGMENT_RADIUS, AMBER);
        }
        WriteText(Label, segment, MINUTE_LABELS[i], INK, true, 0);
      }
    }

    method PaintNote(m: Model)
      requires Traced()
      modifies this`ops, c.px
      ensures Traced() && ops == old(ops) + NoteOps(m)
    {
      if m.note != "" {
        WriteText(Foot, NOTE, m.note, AMBER, false, 0);
      }
    }

    method PaintFooter(m: Model)
      requires Traced()
      modifies this`ops, c.px
      ensures Traced() && ops == old(ops) + FooterOps(m)
    {
      WriteText(Foot, FOOTER, FooterText(m), MUTED, false, FOOTER_BASELINE);
    }

    /** Zeroes the whole buffer, clip or not. */
    method Wipe()
      requires Valid()
      modifies this, c.px
      ensures Traced() && ops == [] && forall i, j :: base(i, j) == 0
    {
      for j := 0 to c.h
        invariant Valid()
        invariant forall u, v | c.Frame().Contains(u, v) && v < j :: c.At(u, v) == 0
      {
        for i := 0 to c.w
          invariant Valid()
          invariant forall u, v | c.Frame().Contains(u, v) && (v < j || (v == j && u < i)) :: c.At(u, v) == 0
        {
          c.Store(i, j, 0);
        }
      }
      base, ops := (_, _) => 0, [];
    }

    method PaintOff()
      requires Traced()
      modifies this`ops, c.px, tables.masks, tables.ready
      ensures Traced() && ops == old(ops) + OFF_OPS
    {
      Rectangle(OFFNOW, TILE_RADIUS, TILE);
      WriteText(Label, OFF_LABEL, "Screen off", INK, true, 0);
      WriteText(Label, OFF_NOW, "now", MUTED, true, 0);
    }

    method Paint(m: Model)
      requires Valid()
      modifies this, c.px, tables.masks, tables.ready
      ensures Traced()
      ensures forall i, j | c.Frame().Contains(i, j) :: c.At(i, j) == Full(env, c.Frame(), m, i, j)
    {
      FullEnds(m);
      Wipe();
      Rectangle(PANEL, CARD_RADIUS, GLASS);
      PaintUpper(m);
      PaintLower(m);
    }

    method PaintUpper(m: Model)
      requires Traced() && ops == FullBelow(m, 0)
      modifies this`ops, c.px, tables.masks, tables.ready
      ensures Traced() && ops == FullBelow(m, 5)
    {
      Rectangle(HANDLE, HANDLE_RADIUS, MUTED);
      FullStep(m, 0);
      PaintWifi(m);
      FullStep(m, 1);
      PaintBrightness(m);
      FullStep(m, 2);
      PaintAuto(m);
      FullStep(m, 3);
      PaintOff();
      FullStep(m, 4);
    }

    method PaintLower(m: Model)
      requires Traced() && ops == FullBelow(m, 5)
      modifies this`ops, c.px, tables.masks, tables.ready
      ensures Traced() && ops == FullBelow(m, FULL_PARTS)
    {
      hide Run, FullBelow, ActionOps, TimerOps, NoteOps, FooterOps;
      PaintAction(RESCUE, "Rescue", m.armed == 1);
      FullStep(m, 5);
      PaintAction(LOADER, "Loader", m.armed == 2);
      FullStep(m, 6);
      PaintTimer(m);
      FullStep(m, 7);
      PaintNote(m);
      FullStep(m, 8);
      PaintFooter(m);
      FullStep(m, 9);
    }

    /** Zeroes the pixels of `r` on the canvas and composites the glass over them again. */
    method RestoreGlass(r: Box, dirty: Box) returns (dirty': Box)
      requires Traced()
      modifies this`ops, c.px
      ensures Traced() && ops == old(ops) + Restore(r) && dirty' == Grow(dirty, r)
    {
      dirty' := dirty;
      if dirty'.w == 0 {
        dirty' := r;
      } else {
        var right, bottom := dirty'.x + dirty'.w, dirty'.y + dirty'.h;
        if r.x + r.w > right { right := r.x + r.w; }
        if r.y + r.h > bottom { bottom := r.y + r.h; }
        if r.x < dirty'.x { dirty' := dirty'.(x := r.x); }
        if r.y < dirty'.y { dirty' := dirty'.(y := r.y); }
        dirty' := dirty'.(w := right - dirty'.x, h := bottom - dirty'.y);
      }
      Erase(r);
      c.BlendRect(r.x - PANEL.x, r.y - PANEL.y, r.w, r.h, GLASS);
      assert ops == old(ops) + [Clear(r)];
      ops := ops + [Rect(r, GLASS)];
      assert ops[..|ops| - 1] == old(ops) + [Clear(r)];
      assert ops == old(ops) + Restore(r);
    }

    method Erase(r: Box)
      requires Traced()
      modifies this`ops, c.px
      ensures Traced() && ops == old(ops) + [Clear(r)]
    {
      var x, y := r.x - PANEL.x, r.y - PANEL.y;
      var j := y;
      while j < y + r.h && j < c.h
        invariant Valid() && ops == old(ops) && y <= j
        invariant forall u, v | c.Frame().Contains(u, v) ::
          c.At(u, v) == if On(r, u, v) && v < j then 0 else old(c.At(u, v))
      {
        if j >= 0 {
          var i := x;
          while i < x + r.w && i < c.w
            invariant Valid() && ops == old(ops) && x <= i
            invariant forall u, v | c.Frame().Contains(u, v) ::
              c.At(u, v) == if On(r, u, v) && (v < j || (v == j && u < i)) then 0 else old(c.At(u, v))
          {
            if i >= 0 { c.Store(i, j, 0); }
            i := i + 1;
          }
        }
        j := j + 1;
      }
      ops := ops + [Clear(r)];
      assert ops[..|ops| - 1] == old(ops);
    }

    method RepaintSignal(m: Model, dirty: Box) returns (dirty': Box)
      requires Traced() && m.wifi == Connected
      modifies this`ops, c.px
      ensures Traced() && dirty' == Grow(dirty, WIFI_SIGNAL)
      ensures ops == old(ops) + (Restore(WIFI_SIGNAL) + [Rect(WIFI_SIGNAL, TILE)] + SignalOps(m))
    {
      dirty' := RestoreGlass(WIFI_SIGNAL, dirty);
      c.BlendRect(WIFI_SIGNAL.x - PANEL.x, WIFI_SIGNAL.y - PANEL.y, WIFI_SIGNAL.w, WIFI_SIGNAL.h, TILE);
      ghost var restored := ops;
      ops := ops + [Rect(WIFI_SIGNAL, TILE)];
      assert ops[..|ops| - 1] == restored;
      WriteText(Label, WIFI_SIGNAL, Decimal(m.levelDbm) + " dBm", MUTED, false, 0);
    }

    /** The first `n` tests of an update are done. */
    ghost predicate Stage(m: Model, p: Model, n: nat, dirty: Box, changed: bool)
      requires n <= UPDATE_PARTS
      reads this, c, c.px, tables.masks, tables.ready
    {
      && Traced() && ops == UpdateBelow(m, p, n)
      && dirty == GrowAll(RestoredBelow(m, p, n)) && changed == (RestoredBelow(m, p, n) != [])
    }

    method UpdateBright(m: Model, p: Model, d: Box, was: bool) returns (dirty: Box, changed: bool)
      requires Stage(m, p, 0, d, was)
      modifies this`ops, c.px, tables.masks, tables.ready
      ensures Stage(m, p, 1, dirty, changed)
    {
      dirty, changed := d, was;
      UpdateStep(m, p, 0);
      if m.brightness != p.brightness || m.brightnessMax != p.brightnessMax {
        dirty := RestoreGlass(BRIGHT, dirty);
        PaintBrightness(m);
        changed := true;
        Join(old(ops), Restore(BRIGHT), BrightOps(m));
        DamageGrows(m, p, 0, BRIGHT);
      } else {
        DamageSame(m, p, 0);
      }
    }

    method UpdateAuto(m: Model, p: Model, d: Box, was: bool) returns (dirty: Box, changed: bool)
      requires Stage(m, p, 1, d, was)
      modifies this`ops, c.px, tables.masks, tables.ready
      ensures Stage(m, p, 2, dirty, changed)
    {
      dirty, changed := d, was;
      UpdateStep(m, p, 1);
      if m.autoOn != p.autoOn {
        dirty := RestoreGlass(AUTO, dirty);
        PaintAuto(m);
        changed := true;
        Join(old(ops), Restore(AUTO), AutoOps(m));
        DamageGrows(m, p, 1, AUTO);
      } else {
        DamageSame(m, p, 1);
      }
    }

    method UpdateWifi(m: Model, p: Model, d: Box, was: bool) returns (dirty: Box, changed: bool)
      requires Stage(m, p, 2, d, was)
      modifies this`ops, c.px, tables.masks, tables.ready
      ensures Stage(m, p, 3, dirty, changed)
    {
      dirty, changed := d, was;
      UpdateStep(m, p, 2);
      if m.wifi != p.wifi || m.ssid != p.ssid || m.addr != p.addr {
        dirty := RestoreGlass(WIFI, dirty);
        PaintWifi(m);
        changed := true;
        Join(old(ops), Restore(WIFI), WifiOps(m));
        DamageGrows(m, p, 2, WIFI);
      } else if m.wifi == Connected && m.levelDbm != p.levelDbm {
        dirty := RepaintSignal(m, dirty);
        changed := true;
        DamageGrows(m, p, 2, WIFI_SIGNAL);
      } else {
        DamageSame(m, p, 2);
      }
    }

    method UpdateActions(m: Model, p: Model, d: Box, was: bool) returns (dirty: Box, changed: bool)
      requires Stage(m, p, 3, d, was)
      modifies this`ops, c.px, tables.masks, tables.ready
      ensures Stage(m, p, 4, dirty, changed)
    {
      dirty, changed := d, was;
      UpdateStep(m, p, 3);
      if m.armed != p.armed {
        ActionsRestored(m, p);
        dirty := RepaintActions(m, dirty);
        changed := true;
      } else {
        DamageSame(m, p, 3);
      }
    }

    method RepaintActions(m: Model, dirty: Box) returns (dirty': Box)
      requires Traced()
      modifies this`ops, c.px, tables.masks, tables.ready
      ensures Traced() && dirty' == Grow(Grow(dirty, RESCUE), LOADER)
      ensures ops == old(ops) + (Restore(RESCUE) + Restore(LOADER) + ActionOps(RESCUE, "Rescue", m.armed == 1) +
                                 ActionOps(LOADER, "Loader", m.armed == 2))
    {
      dirty' := RestoreGlass(RESCUE, dirty);
      dirty' := RestoreGlass(LOADER, dirty');
      PaintAction(RESCUE, "Rescue", m.armed == 1);
      PaintAction(LOADER, "Loader", m.armed == 2);
      Regroup(old(ops), Restore(RESCUE), Restore(LOADER), ActionOps(RESCUE, "Rescue", m.armed == 1),
              ActionOps(LOADER, "Loader", m.armed == 2));
    }

    method UpdateTimer(m: Model, p: Model, d: Box, was: bool) returns (dirty: Box, changed: bool)
      requires Stage(m, p, 4, d, was)
      modifies this`ops, c.px, tables.masks, tables.ready
      ensures Stage(m, p, 5, dirty, changed)
    {
      dirty, changed := d, was;
      UpdateStep(m, p, 4);
      if m.sleepMinutes != p.sleepMinutes {
        dirty := RestoreGlass(TIMER, dirty);
        PaintTimer(m);
        changed := true;
        Join(old(ops), Restore(TIMER), TimerOps(m));
        DamageGrows(m, p, 4, TIMER);
      } else {
        DamageSame(m, p, 4);
      }
    }

    method UpdateNote(m: Model, p: Model, d: Box, was: bool) returns (dirty: Box, changed: bool)
      requires Stage(m, p, 5, d, was)
      modifies this`ops, c.px, tables.masks, tables.ready
      ensures Stage(m, p, 6, dirty, changed)
    {
      dirty, changed := d, was;
      UpdateStep(m, p, 5);
      if m.note != p.note {
        dirty := RestoreGlass(NOTE, dirty);
        PaintNote(m);
        changed := true;
        Join(old(ops), Restore(NOTE), NoteOps(m));
        DamageGrows(m, p, 5, NOTE);
      } else {
        DamageSame(m, p, 5);
      }
    }

    method UpdateFooter(m: Model, p: Model, d: Box, was: bool) returns (dirty: Box, changed: bool)
      requires Stage(m, p, 6, d, was)
      modifies this`ops, c.px, tables.masks, tables.ready
      ensures Stage(m, p, 7, dirty, changed)
    {
      dirty, changed := d, was;
      UpdateStep(m, p, 6);
      if m.cap != p.cap || m.battWord != p.battWord || m.build != p.build || m.kernel != p.kernel {
        dirty := RestoreGlass(FOOTER, dirty);
        PaintFooter(m);
        changed := true;
        Join(old(ops), Restore(FOOTER), FooterOps(m));
        DamageGrows(m, p, 6, FOOTER);
      } else {
        DamageSame(m, p, 6);
      }
    }

    /** The drawing calls of an update and the boxes it restores, in the source's order. */
    method Repaint(m: Model, p: Model) returns (changed: bool, dirty: Box)
      requires Traced() && ops == []
      modifies this`ops, c.px, tables.masks, tables.ready
      ensures Traced() && ops == UpdateOps(m, p)
      ensures dirty == Damage(m, p) && changed == (Restored(m, p) != [])
    {
      dirty, changed := NO_DAMAGE, false;
      UpdateEnds(m, p);
      dirty, changed := UpdateBright(m, p, dirty, changed);
      dirty, changed := UpdateAuto(m, p, dirty, changed);
      dirty, changed := UpdateWifi(m, p, dirty, changed);
      dirty, changed := UpdateActions(m, p, dirty, changed);
      dirty, changed := UpdateTimer(m, p, dirty, changed);
      dirty, changed := UpdateNote(m, p, dirty, changed);
      dirty, changed := UpdateFooter(m, p, dirty, changed);
    }

    /** After an update the canvas is what a full paint of `m` gives, provided it was what a full
        paint of the previous model gives; only pixels inside the reported damage changed. */
    method Update(m: Model, previous: Previous) returns (changed: bool, dirty: Box)
      requires Valid() && Confined(env)
      modifies this, c.px, tables.masks, tables.ready
      ensures Valid()
      ensures (previous.Some? ==> forall i, j | c.Frame().Contains(i, j) ::
                 old(c.At(i, j)) == Full(env, c.Frame(), previous.model, i, j)) ==>
              forall i, j | c.Frame().Contains(i, j) :: c.At(i, j) == Full(env, c.Frame(), m, i, j)
      ensures previous.Some? ==> forall i, j | c.Frame().Contains(i, j) && !On(dirty, i, j) ::
                c.At(i, j) == old(c.At(i, j))
      ensures dirty == NO_DAMAGE || OnPanel(dirty)
      ensures previous.Some? ==> changed == (Restored(m, previous.model) != [])
    {
      if previous.None? {
        Paint(m);
        return true, PANEL;
      }
      var p := previous.model;
      Mark();
      changed, dirty := Repaint(m, p);
      forall i, j { DamageCovers(env, c.Frame(), m, p, i, j, base(i, j)); }
      forall i, j { UpdateIsFull(env, c.Frame(), m, p, i, j); }
    }
  }

  lemma Join(start: seq<Op>, a: seq<Op>, b: seq<Op>)
    ensures start + a + b == start + (a + b)
  {
  }

  lemma Regroup(start: seq<Op>, a: seq<Op>, b: seq<Op>, x: seq<Op>, y: seq<Op>)
    ensures start + a + b + x + y == start + (a + b + x + y)
  {
  }
}
