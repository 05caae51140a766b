/** What each operation of the multitouch decoder does to its state, as functions on a value.
    The imperative decoder in TouchInput.dfy is proved to compute exactly these. */
module TouchDecoder {
  import opened TouchEvents

  const EV_SYN := 0
  const EV_ABS := 3
  const SYN_REPORT := 0
  const SYN_DROPPED := 3
  const ABS_MT_SLOT := 0x2f
  const ABS_MT_POSITION_X := 0x35
  const ABS_MT_POSITION_Y := 0x36
  const ABS_MT_TRACKING_ID := 0x39
  const SLOT_SILENCE_SECONDS := 0.5

  datatype Raw = Raw(kind: int, code: int, value: int, t: real)

  /** The axis transform (axis is X?, raw value, flipped?) and the 1-euro filter, both kept
      abstract: the filter is some function of the samples seen since its last reset. */
  datatype Env = Env(flip: (bool, int, bool) -> real, smooth: seq<(real, real)> -> real)

  datatype Slot = Slot(
    active: bool, announced: bool, trackingId: int, frameEvent: int, x: real, y: real,
    lastSpoke: real, timeOrigin: real, timeStarted: bool, fx: seq<(real, real)>, fy: seq<(real, real)>)

  datatype Decoder = Decoder(
    flipped: bool, currentSlot: int, discarding: bool, slot: seq<Slot>,
    frame: seq<Event>, ready: seq<Event>, resyncNeeded: bool, resyncTime: real)

  /** The kernel's answer to the resync ioctls: a failure, or the slot range, the selected
      slot and the per-slot tables (padded by the caller with -1, 0 and 0). */
  datatype Probe = Failed | Answer(minimum: int, maximum: int, value: int, ids: seq<int>, xs: seq<int>, ys: seq<int>)

  type Probed = p: Probe |
      p.Answer? ==> |p.ids| == TOUCH_MAX_SLOTS && |p.xs| == TOUCH_MAX_SLOTS && |p.ys| == TOUCH_MAX_SLOTS
    witness Failed

  // ---------- Invariant ----------

  predicate StartsOrMoves(k: Kind) {
    k.Down? || k.Move?
  }

  /** Slot `s` agrees with the pending frame: `frameEvent` is its last pending event, which
      leaves the contact open when the slot is active and carries the slot's position.
      Nothing is tracked while discarding. */
  predicate SlotValid(d: Decoder, s: int)
    requires InRange(s) && |d.slot| == TOUCH_MAX_SLOTS
  {
    var sl := d.slot[s];
    if d.discarding then !sl.active && !sl.announced && sl.frameEvent == -1
    else
      && sl.frameEvent == LastIndex(d.frame, s)
      && (sl.frameEvent >= 0 ==>
            && (sl.active <==> StartsOrMoves(d.frame[sl.frameEvent].kind))
            && d.frame[sl.frameEvent].x == sl.x
            && d.frame[sl.frameEvent].y == sl.y)
  }

  ghost predicate Valid(d: Decoder) {
    && |d.slot| == TOUCH_MAX_SLOTS
    && (forall e | e in d.frame :: InRange(e.slot))
    && (forall s | InRange(s) :: SlotValid(d, s))
  }

  /** A resync is owed only between the report that ended a dropped frame and the next record:
      nothing is pending and no contact is known. */
  ghost predicate Owing(d: Decoder) {
    d.resyncNeeded ==> !d.discarding && d.frame == [] && Quiet(d.slot)
  }

  ghost predicate Quiet(slot: seq<Slot>) {
    forall sl | sl in slot :: !sl.active && !sl.announced
  }

  // ---------- Building blocks ----------

  function Cleared(sl: Slot): Slot {
    sl.(active := false, announced := false, trackingId := -1, frameEvent := -1,
        timeOrigin := 0.0, timeStarted := false, fx := [], fy := [])
  }

  function FreshSlot(): Slot {
    Slot(false, false, -1, -1, 0.0, 0.0, 0.0, 0.0, false, [], [])
  }

  function Initial(): Decoder {
    Decoder(false, 0, false, seq(TOUCH_MAX_SLOTS, _ => FreshSlot()), [], [], false, 0.0)
  }

  function AppendFrame(d: Decoder, kind: Kind, s: int, t: real): Decoder
    requires InRange(s) && |d.slot| == TOUCH_MAX_SLOTS
  {
    d.(frame := d.frame + [Event(kind, s, d.slot[s].x, d.slot[s].y, t)],
       slot := d.slot[s := d.slot[s].(frameEvent := |d.frame|)])
  }

  /** Whether the application knows of a contact on `s` after these events. */
  function AnnouncedAfter(es: seq<Event>, s: int, was: bool): bool {
    if es == [] then was
    else
      var e := es[|es| - 1];
      var before := AnnouncedAfter(es[..|es| - 1], s, was);
      if e.slot != s || e.kind.Move? then before else e.kind.Down?
  }

  function Publish(d: Decoder): (r: Decoder)
    requires |d.slot| == TOUCH_MAX_SLOTS
    ensures |r.slot| == TOUCH_MAX_SLOTS
  {
    if d.frame == [] then d
    else d.(ready := d.ready + d.frame, frame := [],
            slot := seq(TOUCH_MAX_SLOTS, i requires 0 <= i < TOUCH_MAX_SLOTS =>
              d.slot[i].(announced := AnnouncedAfter(d.frame, i, d.slot[i].announced), frameEvent := -1)))
  }

  /** `es` without the events of slot `s`. */
  function Without(es: seq<Event>, s: int): (r: seq<Event>)
    ensures |r| <= |es|
  {
    if es == [] then []
    else
      var r := Without(es[..|es| - 1], s);
      if es[|es| - 1].slot == s then r else r + [es[|es| - 1]]
  }

  lemma {:induction false} WithoutMembers(es: seq<Event>, s: int)
    ensures forall e :: e in Without(es, s) <==> e in es && e.slot != s
  {
    if es != [] {
      WithoutMembers(es[..|es| - 1], s);
      assert es == es[..|es| - 1] + [es[|es| - 1]];
    }
  }

  function DiscardFrameSlot(d: Decoder, s: int): (r: Decoder)
    requires |d.slot| == TOUCH_MAX_SLOTS
    ensures |r.slot| == TOUCH_MAX_SLOTS
  {
    var frame := Without(d.frame, s);
    d.(frame := frame,
       slot := seq(TOUCH_MAX_SLOTS, i requires 0 <= i < TOUCH_MAX_SLOTS =>
         d.slot[i].(frameEvent := LastIndex(frame, i))))
  }

  /** One CANCEL for each announced slot below `n`, in slot order. */
  function CancelEvents(slot: seq<Slot>, n: nat, t: real): seq<Event>
    requires n <= |slot|
  {
    if n == 0 then []
    else
      var r := CancelEvents(slot, n - 1, t);
      if slot[n - 1].announced then r + [Event(Cancel, n - 1, slot[n - 1].x, slot[n - 1].y, t)] else r
  }

  function ClearedAll(slot: seq<Slot>): (r: seq<Slot>)
    ensures |r| == |slot| && forall i | 0 <= i < |slot| :: r[i] == Cleared(slot[i])
  {
    seq(|slot|, i requires 0 <= i < |slot| => Cleared(slot[i]))
  }

  function CancelToFrame(d: Decoder, t: real): Decoder
    requires |d.slot| == TOUCH_MAX_SLOTS
  {
    d.(frame := CancelEvents(d.slot, TOUCH_MAX_SLOTS, t), slot := ClearedAll(d.slot))
  }

  function CancelToReady(d: Decoder, t: real): Decoder
    requires |d.slot| == TOUCH_MAX_SLOTS
  {
    d.(frame := [], ready := d.ready + CancelEvents(d.slot, TOUCH_MAX_SLOTS, t), slot := ClearedAll(d.slot))
  }

  /** The latest time any slot spoke, at least 0. */
  function LatestSpoke(slot: seq<Slot>, n: nat): real
    requires n <= |slot|
  {
    if n == 0 then 0.0
    else
      var t := LatestSpoke(slot, n - 1);
      if slot[n - 1].lastSpoke > t then slot[n - 1].lastSpoke else t
  }

  // ---------- Raw events ----------

  function WithSlot(d: Decoder, s: int, sl: Slot): Decoder
    requires InRange(s) && |d.slot| == TOUCH_MAX_SLOTS
  {
    d.(slot := d.slot[s := sl])
  }

  function Lifted(d: Decoder, s: int, t: real): Decoder
    requires InRange(s) && |d.slot| == TOUCH_MAX_SLOTS
  {
    var up := AppendFrame(d, Up, s, t);
    WithSlot(up, s, up.slot[s].(active := false, trackingId := -1))
  }

  function Begun(d: Decoder, s: int, id: int, t: real): Decoder
    requires InRange(s) && |d.slot| == TOUCH_MAX_SLOTS
  {
    var ended := if d.slot[s].active then AppendFrame(d, Cancel, s, t) else d;
    var sl := ended.slot[s].(active := true, trackingId := id, fx := [], fy := [], timeOrigin := t, timeStarted := true);
    AppendFrame(WithSlot(ended, s, sl), Down, s, t)
  }

  function HandleTrackingId(d: Decoder, value: int, t: real): Decoder
    requires Valid(d)
  {
    var s := d.currentSlot;
    if !InRange(s) then d
    else
      var spoke := WithSlot(d, s, d.slot[s].(lastSpoke := t));
      var sl := spoke.slot[s];
      if value == -1 then
        if sl.active then Lifted(spoke, s, t) else spoke
      else if sl.active && sl.trackingId == value then spoke
      else Begun(spoke, s, value, t)
  }

  /** The slot after a position report: the clock starts with the first sample of a contact
      the resync did not start, and the sample goes through the flip and the filter. */
  function Moved(env: Env, sl: Slot, isX: bool, value: int, flipped: bool, t: real): Slot {
    var clocked := if sl.timeStarted then sl else sl.(timeOrigin := t, timeStarted := true);
    var sample := (env.flip(isX, value, flipped), t - clocked.timeOrigin);
    if isX then
      var fx := clocked.fx + [sample];
      clocked.(fx := fx, x := env.smooth(fx))
    else
      var fy := clocked.fy + [sample];
      clocked.(fy := fy, y := env.smooth(fy))
  }

  function HandlePosition(env: Env, d: Decoder, isX: bool, value: int, t: real): Decoder
    requires Valid(d) && !d.discarding
  {
    var s := d.currentSlot;
    if !InRange(s) then d
    else
      var sl := d.slot[s].(lastSpoke := t);
      if !sl.active then WithSlot(d, s, sl)
      else
        var sl' := Moved(env, sl, isX, value, d.flipped, t);
        assert SlotValid(d, s);
        if sl'.frameEvent >= 0 && StartsOrMoves(d.frame[sl'.frameEvent].kind) then
          Coalesced(d, s, sl', t)
        else AppendFrame(WithSlot(d, s, sl'), Move, s, t)
  }

  /** The pending DOWN or MOVE of slot `s` takes the new position and time. */
  function Coalesced(d: Decoder, s: int, sl: Slot, t: real): Decoder
    requires InRange(s) && |d.slot| == TOUCH_MAX_SLOTS && 0 <= sl.frameEvent < |d.frame|
  {
    var e := d.frame[sl.frameEvent];
    WithSlot(d, s, sl).(frame := d.frame[sl.frameEvent := e.(x := sl.x, y := sl.y, t := t)])
  }

  predicate IsDrop(raw: Raw) {
    raw.kind == EV_SYN && raw.code == SYN_DROPPED
  }

  predicate IsReport(raw: Raw) {
    raw.kind == EV_SYN && raw.code == SYN_REPORT
  }

  function FeedOne(env: Env, d: Decoder, raw: Raw): Decoder
    requires Valid(d)
  {
    if IsDrop(raw) then CancelToFrame(d, raw.t).(discarding := true, currentSlot := 0)
    else if d.discarding then
      if IsReport(raw) then Publish(d.(discarding := false)) else d
    else if IsReport(raw) then Publish(d)
    else if raw.kind != EV_ABS then d
    else if raw.code == ABS_MT_SLOT then d.(currentSlot := raw.value)
    else if raw.code == ABS_MT_TRACKING_ID then HandleTrackingId(d, raw.value, raw.t)
    else if raw.code == ABS_MT_POSITION_X || raw.code == ABS_MT_POSITION_Y then
      HandlePosition(env, d, raw.code == ABS_MT_POSITION_X, raw.value, raw.t)
    else d
  }

  // ---------- The other entry points ----------

  function SetFlipped(d: Decoder, flipped: bool): Decoder
    requires |d.slot| == TOUCH_MAX_SLOTS
  {
    if d.flipped == flipped then d
    else CancelToReady(d, LatestSpoke(d.slot, TOUCH_MAX_SLOTS)).(discarding := false, flipped := flipped)
  }

  function CancelAll(d: Decoder): Decoder
    requires |d.slot| == TOUCH_MAX_SLOTS
  {
    CancelToReady(d, LatestSpoke(d.slot, TOUCH_MAX_SLOTS)).(discarding := false)
  }

  predicate Silent(sl: Slot, now: real) {
    (sl.active || sl.announced) && now - sl.lastSpoke > SLOT_SILENCE_SECONDS
  }

  function ExpireSlot(d: Decoder, s: int, now: real): (r: Decoder)
    requires |d.slot| == TOUCH_MAX_SLOTS && InRange(s)
    ensures |r.slot| == TOUCH_MAX_SLOTS
  {
    if !Silent(d.slot[s], now) then d
    else
      var e := DiscardFrameSlot(d, s);
      var sl := e.slot[s];
      var told := if sl.announced then e.(ready := e.ready + [Event(Cancel, s, sl.x, sl.y, now)]) else e;
      told.(slot := told.slot[s := Cleared(sl)])
  }

  function ExpireBelow(d: Decoder, n: nat, now: real): (r: Decoder)
    requires |d.slot| == TOUCH_MAX_SLOTS && n <= TOUCH_MAX_SLOTS
    ensures |r.slot| == TOUCH_MAX_SLOTS
  {
    if n == 0 then d else ExpireSlot(ExpireBelow(d, n - 1, now), n - 1, now)
  }

  /** The slot the driver holds at table position `i`, when it is one of ours. */
  function Resynced(env: Env, sl: Slot, id: int, x: int, y: int, flipped: bool, t: real): Slot {
    var fx := [(env.flip(true, x, flipped), 0.0)];
    var fy := [(env.flip(false, y, flipped), 0.0)];
    Cleared(sl).(active := true, announced := true, trackingId := id, lastSpoke := t,
                 timeOrigin := t, timeStarted := true, fx := fx, fy := fy, x := env.smooth(fx), y := env.smooth(fy))
  }

  /** The contact the device holds in the `k`-th slot it was asked about. */
  function ResyncOne(env: Env, d: Decoder, p: Probed, k: nat, t: real): (r: Decoder)
    requires |d.slot| == TOUCH_MAX_SLOTS && k < TOUCH_MAX_SLOTS && p.Answer?
    ensures |r.slot| == TOUCH_MAX_SLOTS
  {
    var s := p.minimum + k;
    if p.ids[k] < 0 || !InRange(s) then d
    else
      var sl := Resynced(env, d.slot[s], p.ids[k], p.xs[k], p.ys[k], d.flipped, t);
      d.(slot := d.slot[s := sl], ready := d.ready + [Event(Down, s, sl.x, sl.y, t)])
  }

  function ResyncBelow(env: Env, d: Decoder, p: Probed, n: nat, t: real): (r: Decoder)
    requires |d.slot| == TOUCH_MAX_SLOTS && n <= TOUCH_MAX_SLOTS && p.Answer?
    ensures |r.slot| == TOUCH_MAX_SLOTS
  {
    if n == 0 then d
    else ResyncOne(env, ResyncBelow(env, d, p, n - 1, t), p, n - 1, t)
  }

  function SlotCount(p: Probed): int
    requires p.Answer?
  {
    var count := p.maximum - p.minimum + 1;
    if count > TOUCH_MAX_SLOTS then TOUCH_MAX_SLOTS else count
  }

  predicate Usable(p: Probed) {
    p.Answer? && SlotCount(p) > 0
  }

  /** The resync as one atomic step. An unusable answer changes nothing. */
  function Resync(env: Env, d: Decoder, p: Probed): (r: Decoder)
    requires |d.slot| == TOUCH_MAX_SLOTS
    ensures |r.slot| == TOUCH_MAX_SLOTS
  {
    if !Usable(p) then d
    else ResyncBelow(env, d.(currentSlot := p.value), p, SlotCount(p), d.resyncTime).(resyncNeeded := false)
  }

  /** One complete record from the device. While a resync is owed and cannot be done the
      record is lost; a SYN_REPORT that ends a dropped frame owes one. */
  function Record(env: Env, d: Decoder, raw: Raw, before: Probed, after: Probed): Decoder
    requires Valid(d) && Owing(d)
  {
    if d.resyncNeeded && !Usable(before) then d
    else
      var e := if d.resyncNeeded then ResyncKeepsValid(env, d, before); Resync(env, d, before) else d;
      var fed := FeedOne(env, e, raw);
      if e.discarding && IsReport(raw) then
        Resync(env, fed.(resyncNeeded := true, resyncTime := raw.t), after)
      else fed
  }

  /** What one call hands out: the oldest `max` queued events; a negative `max` is refused. */
  function Drained(d: Decoder, max: int): (Decoder, seq<Event>) {
    var n := if max < 0 then 0 else if |d.ready| > max then max else |d.ready|;
    (d.(ready := d.ready[n..]), d.ready[..n])
  }

  function FeedAll(env: Env, d: Decoder, raws: seq<Raw>): (r: Decoder)
    requires Valid(d)
    ensures Valid(r)
  {
    if raws == [] then d
    else
      FeedKeepsValid(env, FeedAll(env, d, raws[..|raws| - 1]), raws[|raws| - 1]);
      FeedOne(env, FeedAll(env, d, raws[..|raws| - 1]), raws[|raws| - 1])
  }

  // ---------- Validity is kept ----------

  lemma LastIndexSnoc(es: seq<Event>, e: Event, s: int)
    ensures LastIndex(es + [e], s) == if e.slot == s then |es| else LastIndex(es, s)
  {
    assert (es + [e])[..|es|] == es;
  }

  lemma {:induction false} LastIndexUpdate(es: seq<Event>, i: int, e: Event, s: int)
    requires 0 <= i < |es| && es[i].slot == e.slot
    ensures LastIndex(es[i := e], s) == LastIndex(es, s)
  {
    var es' := es[i := e];
    assert forall j | 0 <= j < |es| :: es'[j].slot == es[j].slot;
    var l, m := LastIndex(es, s), LastIndex(es', s);
    assert l >= 0 ==> es'[l].slot == s;
    assert m >= 0 ==> es[m].slot == s;
  }

  lemma AppendKeeps(d: Decoder, kind: Kind, s: int, t: real)
    requires |d.slot| == TOUCH_MAX_SLOTS && InRange(s) && !d.discarding
    requires forall e | e in d.frame :: InRange(e.slot)
    requires forall o | InRange(o) && o != s :: SlotValid(d, o)
    requires d.slot[s].active <==> StartsOrMoves(kind)
    ensures Valid(AppendFrame(d, kind, s, t))
  {
    var r := AppendFrame(d, kind, s, t);
    forall o | InRange(o) ensures SlotValid(r, o) {
      LastIndexSnoc(d.frame, r.frame[|d.frame|], o);
    }
  }

  /** The invariant at every slot but `s`. */
  ghost predicate ValidBeside(d: Decoder, s: int) {
    && |d.slot| == TOUCH_MAX_SLOTS && !d.discarding
    && (forall e | e in d.frame :: InRange(e.slot))
    && (forall o | InRange(o) && o != s :: SlotValid(d, o))
  }

  lemma WithSlotBeside(d: Decoder, s: int, sl: Slot)
    requires InRange(s) && ValidBeside(d, s)
    ensures ValidBeside(WithSlot(d, s, sl), s)
  {
    forall o | InRange(o) && o != s ensures SlotValid(WithSlot(d, s, sl), o) {
      assert SlotValid(d, o);
    }
  }

  lemma AppendBeside(d: Decoder, kind: Kind, s: int, t: real)
    requires InRange(s) && ValidBeside(d, s)
    ensures ValidBeside(AppendFrame(d, kind, s, t), s)
  {
    var r := AppendFrame(d, kind, s, t);
    forall o | InRange(o) && o != s ensures SlotValid(r, o) {
      assert SlotValid(d, o);
      LastIndexSnoc(d.frame, r.frame[|d.frame|], o);
    }
  }

  lemma LiftedKeeps(d: Decoder, s: int, t: real)
    requires InRange(s) && ValidBeside(d, s)
    ensures Valid(Lifted(d, s, t))
  {
    AppendBeside(d, Up, s, t);
    var up := AppendFrame(d, Up, s, t);
    LastIndexSnoc(d.frame, up.frame[|d.frame|], s);
    WithSlotBeside(up, s, up.slot[s].(active := false, trackingId := -1));
  }

  lemma BegunKeeps(d: Decoder, s: int, id: int, t: real)
    requires InRange(s) && ValidBeside(d, s)
    ensures Valid(Begun(d, s, id, t))
  {
    if d.slot[s].active { AppendBeside(d, Cancel, s, t); }
    var ended := if d.slot[s].active then AppendFrame(d, Cancel, s, t) else d;
    var sl := ended.slot[s].(active := true, trackingId := id, fx := [], fy := [], timeOrigin := t, timeStarted := true);
    WithSlotBeside(ended, s, sl);
    AppendKeeps(WithSlot(ended, s, sl), Down, s, t);
  }

  lemma HandleTrackingIdKeeps(d: Decoder, value: int, t: real)
    requires Valid(d) && !d.discarding
    ensures Valid(HandleTrackingId(d, value, t))
  {
    var s := d.currentSlot;
    if InRange(s) {
      var spoke := WithSlot(d, s, d.slot[s].(lastSpoke := t));
      WithSlotBeside(d, s, d.slot[s].(lastSpoke := t));
      assert SlotValid(d, s);
      var sl := spoke.slot[s];
      if value == -1 {
        if sl.active { LiftedKeeps(spoke, s, t); }
      } else if !(sl.active && sl.trackingId == value) {
        BegunKeeps(spoke, s, value, t);
      }
    }
  }

  lemma CoalescedKeeps(d: Decoder, s: int, sl: Slot, t: real)
    requires InRange(s) && ValidBeside(d, s)
    requires sl.active && sl.frameEvent == LastIndex(d.frame, s) >= 0
    requires StartsOrMoves(d.frame[sl.frameEvent].kind)
    ensures Valid(Coalesced(d, s, sl, t))
  {
    var r := Coalesced(d, s, sl, t);
    forall o | InRange(o) ensures SlotValid(r, o) {
      LastIndexUpdate(d.frame, sl.frameEvent, r.frame[sl.frameEvent], o);
      assert o != s ==> SlotValid(d, o);
    }
  }

  lemma HandlePositionKeeps(env: Env, d: Decoder, isX: bool, value: int, t: real)
    requires Valid(d) && !d.discarding
    ensures Valid(HandlePosition(env, d, isX, value, t))
  {
    var s := d.currentSlot;
    if InRange(s) {
      assert SlotValid(d, s);
      var sl := d.slot[s].(lastSpoke := t);
      WithSlotBeside(d, s, sl);
      if sl.active {
        var sl' := Moved(env, sl, isX, value, d.flipped, t);
        WithSlotBeside(d, s, sl');
        if sl.frameEvent >= 0 {
          CoalescedKeeps(d, s, sl', t);
        } else {
          AppendKeeps(WithSlot(d, s, sl'), Move, s, t);
        }
      }
    }
  }

  lemma {:induction false} CancelEventsInRange(slot: seq<Slot>, n: nat, t: real)
    requires n <= |slot|
    ensures forall e | e in CancelEvents(slot, n, t) :: 0 <= e.slot < n && e.kind.Cancel?
  {
    if n > 0 { CancelEventsInRange(slot, n - 1, t); }
  }

  lemma {:induction false} AnnouncedAfterCancels(es: seq<Event>, s: int)
    requires forall e | e in es :: e.kind.Cancel?
    ensures !AnnouncedAfter(es, s, false)
  {
    if es != [] {
      assert es[|es| - 1] in es;
      AnnouncedAfterCancels(es[..|es| - 1], s);
    }
  }

  lemma PublishKeeps(d: Decoder)
    requires Valid(d)
    ensures Valid(Publish(d.(discarding := false)))
    ensures Publish(d.(discarding := false)).frame == []
  {
    var r := Publish(d.(discarding := false));
    forall s | InRange(s) ensures SlotValid(r, s) { assert SlotValid(d, s); }
  }

  lemma CancelToFrameKeeps(d: Decoder, t: real)
    requires Valid(d)
    ensures Valid(CancelToFrame(d, t).(discarding := true, currentSlot := 0))
  {
    CancelEventsInRange(d.slot, TOUCH_MAX_SLOTS, t);
  }

  lemma FeedKeepsValid(env: Env, d: Decoder, raw: Raw)
    requires Valid(d)
    ensures Valid(FeedOne(env, d, raw))
  {
    if IsDrop(raw) {
      CancelToFrameKeeps(d, raw.t);
    } else if IsReport(raw) {
      PublishKeeps(d);
      assert !d.discarding ==> d.(discarding := false) == d;
    } else if !d.discarding && raw.kind == EV_ABS {
      if raw.code == ABS_MT_SLOT {
        forall s | InRange(s) ensures SlotValid(d.(currentSlot := raw.value), s) { assert SlotValid(d, s); }
      } else if raw.code == ABS_MT_TRACKING_ID {
        HandleTrackingIdKeeps(d, raw.value, raw.t);
      } else if raw.code == ABS_MT_POSITION_X || raw.code == ABS_MT_POSITION_Y {
        HandlePositionKeeps(env, d, raw.code == ABS_MT_POSITION_X, raw.value, raw.t);
      }
    }
  }

  lemma ResyncOneKeeps(env: Env, d: Decoder, p: Probed, k: nat, t: real)
    requires |d.slot| == TOUCH_MAX_SLOTS && k < TOUCH_MAX_SLOTS && p.Answer?
    requires Valid(d) && !d.discarding && d.frame == []
    ensures var r := ResyncOne(env, d, p, k, t); Valid(r) && r.frame == [] && !r.discarding
  {
    var r := ResyncOne(env, d, p, k, t);
    forall s | InRange(s) ensures SlotValid(r, s) { assert SlotValid(d, s); }
  }

  lemma {:induction false} ResyncBelowKeeps(env: Env, d: Decoder, p: Probed, n: nat, t: real)
    requires |d.slot| == TOUCH_MAX_SLOTS && n <= TOUCH_MAX_SLOTS && p.Answer?
    requires Valid(d) && !d.discarding && d.frame == []
    ensures Valid(ResyncBelow(env, d, p, n, t))
    ensures ResyncBelow(env, d, p, n, t).frame == [] && !ResyncBelow(env, d, p, n, t).discarding
  {
    hide Valid, ResyncOne;
    if n > 0 {
      ResyncBelowKeeps(env, d, p, n - 1, t);
      ResyncOneKeeps(env, ResyncBelow(env, d, p, n - 1, t), p, n - 1, t);
    }
  }

  lemma ResyncKeepsValid(env: Env, d: Decoder, p: Probed)
    requires Valid(d) && (Usable(p) ==> !d.discarding && d.frame == [])
    ensures Valid(Resync(env, d, p))
  {
    if Usable(p) {
      var e := d.(currentSlot := p.value);
      forall s | InRange(s) ensures SlotValid(e, s) { assert SlotValid(d, s); }
      ResyncBelowKeeps(env, e, p, SlotCount(p), d.resyncTime);
      var f := ResyncBelow(env, e, p, SlotCount(p), d.resyncTime);
      forall s | InRange(s) ensures SlotValid(f.(resyncNeeded := false), s) { assert SlotValid(f, s); }
    }
  }

  lemma {:induction false} ResyncBelowFrame(env: Env, d: Decoder, p: Probed, n: nat, t: real)
    requires |d.slot| == TOUCH_MAX_SLOTS && n <= TOUCH_MAX_SLOTS && p.Answer?
    ensures var r := ResyncBelow(env, d, p, n, t);
            r == d.(slot := r.slot, ready := r.ready)
  {
    if n > 0 { ResyncBelowFrame(env, d, p, n - 1, t); }
  }

  lemma ResyncClears(env: Env, d: Decoder, p: Probed)
    requires |d.slot| == TOUCH_MAX_SLOTS && d.resyncNeeded
    ensures Resync(env, d, p).resyncNeeded == !Usable(p)
    ensures !Usable(p) ==> Resync(env, d, p) == d
    ensures Resync(env, d, p).discarding == d.discarding && Resync(env, d, p).frame == d.frame
  {
    if Usable(p) { ResyncBelowFrame(env, d.(currentSlot := p.value), p, SlotCount(p), d.resyncTime); }
  }

  /** A raw event touches the loss flags only as the protocol says. */
  lemma FeedFlags(env: Env, d: Decoder, raw: Raw)
    requires Valid(d)
    ensures FeedOne(env, d, raw).resyncNeeded == d.resyncNeeded
    ensures FeedOne(env, d, raw).discarding <==> IsDrop(raw) || (d.discarding && !IsReport(raw))
  {
  }
}
