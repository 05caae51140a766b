/** Whole runs of the decoder: the life cycle of every published contact, what a loss of
    events can break, batching, and the atomicity of frames. */
module TouchContacts {
  import opened TouchEvents
  import opened TouchDecoder

  /** The decoder together with everything it has handed out. */
  datatype Stream = Stream(d: Decoder, delivered: seq<Event>) {
    /** What has been published, delivered or not. */
    function History(): seq<Event> { delivered + d.ready }
  }

  datatype Step =
    | Raw(raw: Raw)
    | FromDevice(record: Raw, before: Probed, after: Probed)
    | Retry(probe: Probed)
    | Flip(flipped: bool)
    | Expire(now: real)
    | CancelEverything
    | Drain(max: int)

  /** Raw events are not mixed with device records while a resync is owed. */
  predicate Legal(d: Decoder, step: Step) {
    step.Raw? ==> !d.resyncNeeded
  }

  function Apply(env: Env, st: Stream, step: Step): Stream
    requires Valid(st.d) && Owing(st.d)
  {
    match step
    case Raw(raw) => st.(d := FeedOne(env, st.d, raw))
    case FromDevice(raw, before, after) => st.(d := Record(env, st.d, raw, before, after))
    case Retry(p) => if st.d.resyncNeeded then st.(d := Resync(env, st.d, p)) else st
    case Flip(b) => st.(d := SetFlipped(st.d, b))
    case Expire(now) => st.(d := ExpireBelow(st.d, TOUCH_MAX_SLOTS, now))
    case CancelEverything => st.(d := CancelAll(st.d))
    case Drain(max) => var (d, out) := Drained(st.d, max); Stream(d, st.delivered + out)
  }

  /** The step empties a pending frame that still holds CANCELs of a dropped frame: a second
      SYN_DROPPED, a change of orientation or a cancel-all before the closing SYN_REPORT. */
  predicate Orphaning(d: Decoder, step: Step) {
    d.discarding && d.frame != [] &&
    match step
    case Raw(raw) => IsDrop(raw)
    case FromDevice(raw, _, _) => IsDrop(raw)
    case Flip(b) => b != d.flipped
    case CancelEverything => true
    case _ => false
  }

  // ---------- The invariant of a run ----------

  /** In a frame a MOVE is the first event of its slot, so a slot has at most one. */
  ghost predicate Shaped(frame: seq<Event>) {
    forall i, j :: 0 <= i < j < |frame| && frame[i].slot == frame[j].slot ==> !frame[j].kind.Move?
  }

  ghost predicate OnlyCancels(es: seq<Event>) {
    forall e | e in es :: e.kind.Cancel?
  }

  ghost predicate Base(st: Stream) {
    && Valid(st.d) && Owing(st.d)
    && Shaped(st.d.frame)
    && (st.d.discarding ==> OnlyCancels(st.d.frame))
    && (forall e | e in st.History() :: InRange(e.slot))
  }

  /** The phase of slot `s` in the published history, and with the pending frame added. */
  function Published(loose: bool, st: Stream, s: int): Phase {
    Track(loose, Closed, st.History(), s)
  }

  function Pending(loose: bool, st: Stream, s: int): Phase {
    Track(loose, Published(loose, st, s), st.d.frame, s)
  }

  /** How one slot's flags relate to its phases `h` (published) and `f` (with the frame).
      The strict reading makes both relations exact. */
  predicate SlotStory(loose: bool, h: Phase, f: Phase, sl: Slot, discarding: bool) {
    && f != Broken
    && (sl.active ==> f == Opened)
    && (sl.announced ==> h == Opened)
    && (!loose && f == Opened ==> sl.active)
    && (!loose && !discarding && h == Opened ==> sl.announced)
  }

  ghost predicate StoryAt(loose: bool, st: Stream, s: int)
    requires |st.d.slot| == TOUCH_MAX_SLOTS && InRange(s)
  {
    SlotStory(loose, Published(loose, st, s), Pending(loose, st, s), st.d.slot[s], st.d.discarding)
  }

  ghost predicate Inv(loose: bool, st: Stream) {
    Base(st) && forall s | InRange(s) :: StoryAt(loose, st, s)
  }

  // ---------- Small facts ----------

  /** Publishing a frame keeps `announced` in step with the phase. */
  lemma {:induction false} AnnouncedTrack(loose: bool, p: Phase, es: seq<Event>, s: int, was: bool)
    requires Track(loose, p, es, s) != Broken && (was <==> p == Opened)
    ensures AnnouncedAfter(es, s, was) <==> Track(loose, p, es, s) == Opened
  {
    if es != [] { AnnouncedTrack(loose, p, es[..|es| - 1], s, was); }
  }

  lemma {:induction false} AnnouncedMonotone(es: seq<Event>, s: int, was: bool, p: Phase)
    requires Track(true, p, es, s) != Broken && (was ==> p == Opened)
    ensures AnnouncedAfter(es, s, was) ==> Track(true, p, es, s) == Opened
  {
    if es != [] { AnnouncedMonotone(es[..|es| - 1], s, was, p); }
  }

  lemma {:induction false} CancelEventsTrack(loose: bool, p: Phase, slot: seq<Slot>, n: nat, t: real, s: int)
    requires n <= |slot| == TOUCH_MAX_SLOTS && InRange(s)
    ensures Track(loose, p, CancelEvents(slot, n, t), s) ==
            if s < n && slot[s].announced then Advance(loose, p, Cancel) else p
  {
    if n > 0 {
      var before, e := CancelEvents(slot, n - 1, t), Event(Cancel, n - 1, slot[n - 1].x, slot[n - 1].y, t);
      CancelEventsTrack(loose, p, slot, n - 1, t, s);
      TrackSnoc(loose, p, before, e, s);
      assert CancelEvents(slot, n, t) == if slot[n - 1].announced then before + [e] else before;
    }
  }

  lemma {:induction false} CancelEventsShaped(slot: seq<Slot>, n: nat, t: real)
    requires n <= |slot|
    ensures Shaped(CancelEvents(slot, n, t)) && OnlyCancels(CancelEvents(slot, n, t))
    ensures forall e | e in CancelEvents(slot, n, t) :: 0 <= e.slot < n
  {
    CancelEventsInRange(slot, n, t);
    var es := CancelEvents(slot, n, t);
    forall j | 0 <= j < |es| ensures !es[j].kind.Move? { assert es[j] in es; }
  }

  lemma {:induction false} WithoutTrack(loose: bool, p: Phase, es: seq<Event>, gone: int, s: int)
    ensures Track(loose, p, Without(es, gone), s) == if s == gone then p else Track(loose, p, es, s)
  {
    if es != [] {
      var e := es[|es| - 1];
      WithoutTrack(loose, p, es[..|es| - 1], gone, s);
      if e.slot != gone { TrackSnoc(loose, p, Without(es[..|es| - 1], gone), e, s); }
    }
  }

  lemma {:induction false} WithoutShaped(es: seq<Event>, gone: int)
    requires Shaped(es)
    ensures Shaped(Without(es, gone))
  {
    if es != [] {
      var n := |es| - 1;
      WithoutShaped(es[..n], gone);
      var r := Without(es[..n], gone);
      WithoutMembers(es[..n], gone);
      if es[n].kind.Move? {
        forall i | 0 <= i < |r| ensures r[i].slot != es[n].slot { assert r[i] in r; }
      }
    }
  }

  /** Cancels alone leave a slot open only if it was open and untouched. */
  lemma {:induction false} CancelsOpened(p: Phase, es: seq<Event>, s: int)
    requires OnlyCancels(es) && Track(false, p, es, s) == Opened
    ensures p == Opened
  {
    if es != [] {
      assert es[|es| - 1] in es;
      CancelsOpened(p, es[..|es| - 1], s);
    }
  }

  // ---------- Raw events ----------

  /** Nothing that the invariant looks at has changed. */
  lemma SameStory(loose: bool, st: Stream, r: Stream)
    requires |st.d.slot| == |r.d.slot| == TOUCH_MAX_SLOTS
    requires r.History() == st.History() && r.d.frame == st.d.frame && r.d.discarding == st.d.discarding
    requires forall o | InRange(o) ::
      r.d.slot[o].active == st.d.slot[o].active && r.d.slot[o].announced == st.d.slot[o].announced
    ensures forall o | InRange(o) :: StoryAt(loose, r, o) <==> StoryAt(loose, st, o)
  {
  }

  /** One more pending event: only its own slot's story moves on. */
  lemma AppendStory(loose: bool, st: Stream, r: Stream, e: Event)
    requires |st.d.slot| == |r.d.slot| == TOUCH_MAX_SLOTS && InRange(e.slot)
    requires r.History() == st.History() && r.d.frame == st.d.frame + [e] && r.d.discarding == st.d.discarding
    requires forall o | InRange(o) && o != e.slot :: r.d.slot[o] == st.d.slot[o]
    ensures forall o | InRange(o) && o != e.slot :: StoryAt(loose, r, o) <==> StoryAt(loose, st, o)
    ensures Published(loose, r, e.slot) == Published(loose, st, e.slot)
    ensures Pending(loose, r, e.slot) == Advance(loose, Pending(loose, st, e.slot), e.kind)
  {
    forall o { TrackSnoc(loose, Published(loose, st, o), st.d.frame, e, o); }
  }

  lemma AppendShaped(frame: seq<Event>, e: Event)
    requires Shaped(frame) && (e.kind.Move? ==> LastIndex(frame, e.slot) < 0)
    ensures Shaped(frame + [e])
  {
  }

  ghost predicate Stories(loose: bool, st: Stream) {
    && |st.d.slot| == TOUCH_MAX_SLOTS && Shaped(st.d.frame) && !st.d.discarding
    && forall o | InRange(o) :: StoryAt(loose, st, o)
  }

  lemma LiftedStory(loose: bool, st: Stream, s: int, t: real)
    requires InRange(s) && Stories(loose, st) && st.d.slot[s].active
    ensures Stories(loose, st.(d := Lifted(st.d, s, t)))
  {
    var r := st.(d := Lifted(st.d, s, t));
    var e := Event(Up, s, st.d.slot[s].x, st.d.slot[s].y, t);
    assert StoryAt(loose, st, s);
    AppendShaped(st.d.frame, e);
    AppendStory(loose, st, r, e);
  }

  lemma BegunIdle(loose: bool, st: Stream, s: int, id: int, t: real)
    requires InRange(s) && Stories(loose, st) && !st.d.slot[s].active
    ensures Stories(loose, st.(d := Begun(st.d, s, id, t)))
  {
    assert StoryAt(loose, st, s);
    var down := Event(Down, s, st.d.slot[s].x, st.d.slot[s].y, t);
    AppendShaped(st.d.frame, down);
    AppendStory(loose, st, st.(d := Begun(st.d, s, id, t)), down);
  }

  lemma BegunHeld(loose: bool, st: Stream, s: int, id: int, t: real)
    requires InRange(s) && Stories(loose, st) && st.d.slot[s].active
    ensures Stories(loose, st.(d := Begun(st.d, s, id, t)))
  {
    assert StoryAt(loose, st, s);
    var ended := st.(d := AppendFrame(st.d, Cancel, s, t));
    var cancel := Event(Cancel, s, st.d.slot[s].x, st.d.slot[s].y, t);
    AppendShaped(st.d.frame, cancel);
    AppendStory(loose, st, ended, cancel);
    var down := Event(Down, s, st.d.slot[s].x, st.d.slot[s].y, t);
    AppendShaped(ended.d.frame, down);
    AppendStory(loose, ended, st.(d := Begun(st.d, s, id, t)), down);
  }

  lemma BegunStory(loose: bool, st: Stream, s: int, id: int, t: real)
    requires InRange(s) && Stories(loose, st)
    ensures Stories(loose, st.(d := Begun(st.d, s, id, t)))
  {
    if st.d.slot[s].active { BegunHeld(loose, st, s, id, t); } else { BegunIdle(loose, st, s, id, t); }
  }

  lemma TrackingIdStory(loose: bool, st: Stream, value: int, t: real)
    requires Inv(loose, st) && !st.d.discarding && !st.d.resyncNeeded
    ensures Inv(loose, st.(d := HandleTrackingId(st.d, value, t)))
  {
    var d := st.d;
    HandleTrackingIdKeeps(d, value, t);
    var s := d.currentSlot;
    if InRange(s) {
      var st1 := st.(d := WithSlot(d, s, d.slot[s].(lastSpoke := t)));
      SameStory(loose, st, st1);
      if value == -1 && d.slot[s].active {
        LiftedStory(loose, st1, s, t);
      } else if value != -1 && !(d.slot[s].active && d.slot[s].trackingId == value) {
        BegunStory(loose, st1, s, value, t);
      }
    }
  }

  /** A new position and time for a pending event change no phase. */
  lemma {:induction false} UpdateTrack(loose: bool, p: Phase, es: seq<Event>, i: int, e: Event, s: int)
    requires 0 <= i < |es| && es[i].slot == e.slot && es[i].kind == e.kind
    ensures Track(loose, p, es[i := e], s) == Track(loose, p, es, s)
  {
    var n := |es| - 1;
    if i < n {
      assert es[i := e][..n] == es[..n][i := e];
      UpdateTrack(loose, p, es[..n], i, e, s);
    } else {
      assert es[i := e][..n] == es[..n];
    }
  }

  lemma CoalescedStory(loose: bool, st: Stream, s: int, sl: Slot, t: real)
    requires InRange(s) && Stories(loose, st) && 0 <= sl.frameEvent < |st.d.frame|
    requires st.d.frame[sl.frameEvent].slot == s
    requires sl.active == st.d.slot[s].active && sl.announced == st.d.slot[s].announced
    ensures Stories(loose, st.(d := Coalesced(st.d, s, sl, t)))
  {
    var r := st.(d := Coalesced(st.d, s, sl, t));
    forall o | InRange(o) ensures StoryAt(loose, r, o) {
      assert StoryAt(loose, st, o);
      UpdateTrack(loose, Published(loose, st, o), st.d.frame, sl.frameEvent, r.d.frame[sl.frameEvent], o);
    }
  }

  lemma MovedStory(loose: bool, st: Stream, s: int, sl: Slot, t: real)
    requires InRange(s) && Stories(loose, st) && LastIndex(st.d.frame, s) < 0
    requires sl.active && st.d.slot[s].active && sl.announced == st.d.slot[s].announced
    ensures Stories(loose, st.(d := AppendFrame(WithSlot(st.d, s, sl), Move, s, t)))
  {
    var e := Event(Move, s, sl.x, sl.y, t);
    assert StoryAt(loose, st, s);
    AppendShaped(st.d.frame, e);
    AppendStory(loose, st, st.(d := AppendFrame(WithSlot(st.d, s, sl), Move, s, t)), e);
  }

  lemma PositionStories(loose: bool, env: Env, st: Stream, isX: bool, value: int, t: real)
    requires Stories(loose, st) && Valid(st.d)
    ensures Stories(loose, st.(d := HandlePosition(env, st.d, isX, value, t)))
  {
    hide Moved, SlotStory;
    var d := st.d;
    var s := d.currentSlot;
    if InRange(s) {
      assert SlotValid(d, s);
      var sl := d.slot[s].(lastSpoke := t);
      if !sl.active {
        SameStory(loose, st, st.(d := WithSlot(d, s, sl)));
      } else {
        var sl' := Moved(env, sl, isX, value, d.flipped, t);
        MovedFlags(env, sl, isX, value, d.flipped, t);
        if sl.frameEvent >= 0 {
          CoalescedStory(loose, st, s, sl', t);
        } else {
          MovedStory(loose, st, s, sl', t);
        }
      }
    }
  }

  lemma MovedFlags(env: Env, sl: Slot, isX: bool, value: int, flipped: bool, t: real)
    ensures var r := Moved(env, sl, isX, value, flipped, t);
            r.active == sl.active && r.announced == sl.announced && r.frameEvent == sl.frameEvent
  {
  }

  lemma PositionStory(loose: bool, env: Env, st: Stream, isX: bool, value: int, t: real)
    requires Inv(loose, st) && !st.d.discarding && !st.d.resyncNeeded
    ensures Inv(loose, st.(d := HandlePosition(env, st.d, isX, value, t)))
  {
    HandlePositionKeeps(env, st.d, isX, value, t);
    PositionStories(loose, env, st, isX, value, t);
    PositionFlags(env, st.d, isX, value, t);
  }

  lemma PositionFlags(env: Env, d: Decoder, isX: bool, value: int, t: real)
    requires Valid(d) && !d.discarding
    ensures var r := HandlePosition(env, d, isX, value, t);
            r.ready == d.ready && r.discarding == d.discarding && r.resyncNeeded == d.resyncNeeded
  {
    hide Moved;
  }

  lemma PublishStory(loose: bool, st: Stream)
    requires Inv(loose, st) && !st.d.resyncNeeded
    ensures Inv(loose, st.(d := Publish(st.d.(discarding := false))))
    ensures st.d.discarding ==> Quiet(Publish(st.d.(discarding := false)).slot)
  {
    var d := st.d.(discarding := false);
    var r := st.(d := Publish(d));
    PublishKeeps(st.d);
    assert r.History() == st.History() + d.frame;
    forall s | InRange(s)
      ensures StoryAt(loose, r, s)
      ensures st.d.discarding ==> !r.d.slot[s].active && !r.d.slot[s].announced
    {
      assert StoryAt(loose, st, s) && SlotValid(st.d, s);
      var h := Published(loose, st, s);
      TrackConcat(loose, Closed, st.History(), d.frame, s);
      if st.d.discarding {
        AnnouncedAfterCancels(d.frame, s);
      } else if loose {
        AnnouncedMonotone(d.frame, s, d.slot[s].announced, h);
      } else {
        AnnouncedTrack(false, h, d.frame, s, d.slot[s].announced);
      }
    }
  }

  lemma DropStory(loose: bool, st: Stream, t: real)
    requires Inv(loose, st) && !st.d.resyncNeeded
    requires loose || !st.d.discarding || st.d.frame == []
    ensures Inv(loose, st.(d := CancelToFrame(st.d, t).(discarding := true, currentSlot := 0)))
  {
    var d := st.d;
    var r := st.(d := CancelToFrame(d, t).(discarding := true, currentSlot := 0));
    CancelToFrameKeeps(d, t);
    CancelEventsShaped(d.slot, TOUCH_MAX_SLOTS, t);
    forall s | InRange(s) ensures StoryAt(loose, r, s) {
      assert StoryAt(loose, st, s) && SlotValid(d, s);
      CancelEventsTrack(loose, Published(loose, st, s), d.slot, TOUCH_MAX_SLOTS, t, s);
      PublishedUnbroken(loose, st, s);
    }
  }

  lemma PublishedUnbroken(loose: bool, st: Stream, s: int)
    requires Pending(loose, st, s) != Broken
    ensures Published(loose, st, s) != Broken
  {
    TrackBroken(loose, st.d.frame, s);
  }

  lemma FeedStory(loose: bool, env: Env, st: Stream, raw: Raw)
    requires Inv(loose, st) && !st.d.resyncNeeded
    requires loose || !Orphaning(st.d, Step.Raw(raw))
    ensures Inv(loose, st.(d := FeedOne(env, st.d, raw)))
  {
    var d := st.d;
    if IsDrop(raw) {
      DropStory(loose, st, raw.t);
    } else if IsReport(raw) {
      PublishStory(loose, st);
      assert !d.discarding ==> d.(discarding := false) == d;
    } else if !d.discarding && raw.kind == EV_ABS {
      if raw.code == ABS_MT_SLOT {
        FeedKeepsValid(env, d, raw);
        forall s | InRange(s) ensures StoryAt(loose, st.(d := FeedOne(env, d, raw)), s) { assert StoryAt(loose, st, s); }
      } else if raw.code == ABS_MT_TRACKING_ID {
        TrackingIdStory(loose, st, raw.value, raw.t);
      } else if raw.code == ABS_MT_POSITION_X || raw.code == ABS_MT_POSITION_Y {
        PositionStory(loose, env, st, raw.code == ABS_MT_POSITION_X, raw.value, raw.t);
      }
    }
  }

  // ---------- Cancel, expiry and resync ----------

  lemma CancelToReadyStory(loose: bool, st: Stream, t: real, flipped: bool)
    requires Inv(loose, st)
    requires loose || !st.d.discarding || st.d.frame == []
    ensures Inv(loose, st.(d := CancelToReady(st.d, t).(discarding := false, flipped := flipped)))
  {
    var d := st.d;
    var r := st.(d := CancelToReady(d, t).(discarding := false, flipped := flipped));
    var cancels := CancelEvents(d.slot, TOUCH_MAX_SLOTS, t);
    CancelEventsShaped(d.slot, TOUCH_MAX_SLOTS, t);
    assert r.History() == st.History() + cancels;
    forall s | InRange(s) ensures SlotValid(r.d, s) && StoryAt(loose, r, s) {
      assert StoryAt(loose, st, s) && SlotValid(d, s);
      PublishedUnbroken(loose, st, s);
      TrackConcat(loose, Closed, st.History(), cancels, s);
      CancelEventsTrack(loose, Published(loose, st, s), d.slot, TOUCH_MAX_SLOTS, t, s);
    }
  }

  /** Dropping one slot's events keeps the last event of every other slot. */
  lemma {:induction false} WithoutLast(es: seq<Event>, gone: int, s: int)
    ensures var r := Without(es, gone);
            var l := LastIndex(r, s);
            if s == gone then l == -1
            else if LastIndex(es, s) < 0 then l < 0
            else l >= 0 && r[l] == es[LastIndex(es, s)]
  {
    if es != [] {
      var e := es[|es| - 1];
      WithoutLast(es[..|es| - 1], gone, s);
      if e.slot != gone { LastIndexSnoc(Without(es[..|es| - 1], gone), e, s); }
    }
  }

  lemma ExpireSlotKeeps(d: Decoder, n: int, now: real)
    requires Valid(d) && InRange(n)
    ensures Valid(ExpireSlot(d, n, now))
  {
    var r := ExpireSlot(d, n, now);
    WithoutMembers(d.frame, n);
    forall s | InRange(s) ensures SlotValid(r, s) {
      assert SlotValid(d, s) && SlotValid(d, n);
      WithoutLast(d.frame, n, s);
    }
  }

  lemma ExpireSlotStory(loose: bool, st: Stream, n: int, now: real)
    requires Inv(loose, st) && InRange(n)
    ensures Inv(loose, st.(d := ExpireSlot(st.d, n, now)))
  {
    ExpireSlotKeeps(st.d, n, now);
    if Silent(st.d.slot[n], now) {
      assert SlotValid(st.d, n) && st.d.slot[n] in st.d.slot;
      SilentStory(loose, st, n, now);
    }
  }

  lemma SilentStory(loose: bool, st: Stream, n: int, now: real)
    requires Stories(loose, st) && InRange(n) && Silent(st.d.slot[n], now)
    requires forall e | e in st.History() :: InRange(e.slot)
    ensures var r := st.(d := ExpireSlot(st.d, n, now));
            Stories(loose, r) && forall e | e in r.History() :: InRange(e.slot)
  {
    var d := st.d;
    var r := st.(d := ExpireSlot(d, n, now));
    WithoutShaped(d.frame, n);
    var told := if d.slot[n].announced then [Event(Cancel, n, d.slot[n].x, d.slot[n].y, now)] else [];
    assert r.History() == st.History() + told;
    forall s | InRange(s) ensures StoryAt(loose, r, s) {
      ExpiredPhases(loose, st, n, told, s);
      assert StoryAt(loose, st, s);
      PublishedUnbroken(loose, st, s);
    }
  }

  lemma ExpiredPhases(loose: bool, st: Stream, n: int, told: seq<Event>, s: int)
    requires told == [] || (|told| == 1 && told[0].slot == n && told[0].kind.Cancel?)
    ensures Track(loose, Closed, st.History() + told, s) ==
            if s == n && told != [] then Advance(loose, Published(loose, st, s), Cancel) else Published(loose, st, s)
    ensures var h := Track(loose, Closed, st.History() + told, s);
            Track(loose, h, Without(st.d.frame, n), s) == if s == n then h else Pending(loose, st, s)
  {
    WithoutTrack(loose, Track(loose, Closed, st.History() + told, s), st.d.frame, n, s);
    if told == [] {
      assert st.History() + told == st.History();
    } else {
      assert told == [told[0]];
      TrackSnoc(loose, Closed, st.History(), told[0], s);
    }
  }

  lemma SlotsInInv(loose: bool, st: Stream)
    requires Inv(loose, st)
    ensures |st.d.slot| == TOUCH_MAX_SLOTS
  {
  }

  lemma {:induction false} ExpireStory(loose: bool, st: Stream, n: nat, now: real)
    requires Inv(loose, st) && n <= TOUCH_MAX_SLOTS
    ensures Inv(loose, st.(d := ExpireBelow(st.d, n, now)))
  {
    hide Inv, ExpireSlot;
    SlotsInInv(loose, st);
    if n > 0 {
      ExpireStory(loose, st, n - 1, now);
      ExpireSlotStory(loose, st.(d := ExpireBelow(st.d, n - 1, now)), n - 1, now);
    }
  }

  /** One more queued event, with nothing pending. */
  lemma QueuedPhase(loose: bool, st: Stream, r: Stream, e: Event, o: int)
    requires r.History() == st.History() + [e] && st.d.frame == r.d.frame == []
    ensures Published(loose, r, o) == Pending(loose, r, o)
    ensures Pending(loose, st, o) == Published(loose, st, o)
    ensures Published(loose, r, o) ==
            if e.slot == o then Advance(loose, Published(loose, st, o), e.kind) else Published(loose, st, o)
  {
    TrackSnoc(loose, Closed, st.History(), e, o);
  }

  lemma QueuedHistory(st: Stream, slot: seq<Slot>, e: Event)
    ensures st.(d := st.d.(slot := slot, ready := st.d.ready + [e])).History() == st.History() + [e]
  {
    assert st.delivered + (st.d.ready + [e]) == st.delivered + st.d.ready + [e];
  }

  /** One resynced contact: its DOWN goes straight to the queue. */
  lemma ResyncedStory(loose: bool, st: Stream, s: int, sl: Slot, t: real)
    requires InRange(s) && Stories(loose, st) && st.d.frame == []
    requires !st.d.slot[s].active && !st.d.slot[s].announced && sl.active && sl.announced
    ensures var e := Event(Down, s, sl.x, sl.y, t);
            Stories(loose, st.(d := st.d.(slot := st.d.slot[s := sl], ready := st.d.ready + [e])))
  {
    var e := Event(Down, s, sl.x, sl.y, t);
    var r := st.(d := st.d.(slot := st.d.slot[s := sl], ready := st.d.ready + [e]));
    QueuedHistory(st, st.d.slot[s := sl], e);
    forall o | InRange(o) ensures StoryAt(loose, r, o) {
      assert StoryAt(loose, st, o);
      QueuedPhase(loose, st, r, e, o);
    }
  }

  lemma {:induction false} ResyncBelowAbove(env: Env, d: Decoder, p: Probed, n: nat, t: real)
    requires p.Answer? && n <= TOUCH_MAX_SLOTS && |d.slot| == TOUCH_MAX_SLOTS
    ensures forall s | InRange(s) && s >= p.minimum + n :: ResyncBelow(env, d, p, n, t).slot[s] == d.slot[s]
  {
    if n > 0 { ResyncBelowAbove(env, d, p, n - 1, t); }
  }

  lemma ResyncOneStory(loose: bool, env: Env, st: Stream, p: Probed, k: nat, t: real)
    requires p.Answer? && k < TOUCH_MAX_SLOTS
    requires Stories(loose, st) && st.d.frame == []
    requires forall e | e in st.History() :: InRange(e.slot)
    requires InRange(p.minimum + k) ==> var sl := st.d.slot[p.minimum + k]; !sl.active && !sl.announced
    ensures var r := st.(d := ResyncOne(env, st.d, p, k, t));
            Stories(loose, r) && r.d.frame == [] && forall e | e in r.History() :: InRange(e.slot)
  {
    hide StoryAt;
    var s := p.minimum + k;
    if p.ids[k] >= 0 && InRange(s) {
      ResyncedStory(loose, st, s, Resynced(env, st.d.slot[s], p.ids[k], p.xs[k], p.ys[k], st.d.flipped, t), t);
    }
  }

  lemma {:induction false} ResyncBelowStory(loose: bool, env: Env, st: Stream, p: Probed, n: nat, t: real)
    requires p.Answer? && n <= TOUCH_MAX_SLOTS
    requires Stories(loose, st) && st.d.frame == [] && Quiet(st.d.slot)
    requires forall e | e in st.History() :: InRange(e.slot)
    ensures var r := st.(d := ResyncBelow(env, st.d, p, n, t));
            Stories(loose, r) && r.d.frame == [] && forall e | e in r.History() :: InRange(e.slot)
  {
    hide StoryAt, ResyncOne;
    if n > 0 {
      ResyncBelowStory(loose, env, st, p, n - 1, t);
      var e := st.(d := ResyncBelow(env, st.d, p, n - 1, t));
      var s := p.minimum + n - 1;
      ResyncBelowAbove(env, st.d, p, n - 1, t);
      assert InRange(s) ==> st.d.slot[s] in st.d.slot;
      ResyncOneStory(loose, env, e, p, n - 1, t);
    }
  }

  lemma ResyncStory(loose: bool, env: Env, st: Stream, p: Probed)
    requires Inv(loose, st) && st.d.resyncNeeded
    ensures Inv(loose, st.(d := Resync(env, st.d, p)))
    ensures Usable(p) ==> var r := Resync(env, st.d, p); !r.resyncNeeded && !r.discarding
  {
    if Usable(p) {
      var st' := st.(d := st.d.(currentSlot := p.value));
      SameStory(loose, st, st');
      ResyncBelowStory(loose, env, st', p, SlotCount(p), st.d.resyncTime);
      ResyncBelowFrame(env, st'.d, p, SlotCount(p), st.d.resyncTime);
      ResyncKeepsValid(env, st.d, p);
      SameStory(loose, st.(d := ResyncBelow(env, st'.d, p, SlotCount(p), st.d.resyncTime)), st.(d := Resync(env, st.d, p)));
    }
  }

  lemma RecordStory(loose: bool, env: Env, st: Stream, raw: Raw, before: Probed, after: Probed)
    requires Inv(loose, st) && (loose || !Orphaning(st.d, FromDevice(raw, before, after)))
    ensures Inv(loose, st.(d := Record(env, st.d, raw, before, after)))
  {
    var d := st.d;
    if !d.resyncNeeded || Usable(before) {
      if d.resyncNeeded { ResyncStory(loose, env, st, before); }
      var e := if d.resyncNeeded then Resync(env, d, before) else d;
      var st1 := st.(d := e);
      FeedStory(loose, env, st1, raw);
      if e.discarding && IsReport(raw) {
        var fed := FeedOne(env, e, raw);
        var owed := fed.(resyncNeeded := true, resyncTime := raw.t);
        PublishStory(loose, st1);
        PublishKeeps(e);
        forall s | InRange(s) ensures SlotValid(owed, s) && StoryAt(loose, st.(d := owed), s) {
          assert SlotValid(fed, s) && StoryAt(loose, st.(d := fed), s);
        }
        ResyncStory(loose, env, st.(d := owed), after);
      }
    }
  }

  // ---------- The step and run theorems ----------

  /** Every legal step keeps the loose invariant; the strict one is kept by every legal step
      that does not lose queued CANCELs. */
  lemma StepStory(loose: bool, env: Env, st: Stream, step: Step)
    requires Inv(loose, st) && Legal(st.d, step)
    requires loose || !Orphaning(st.d, step)
    ensures Inv(loose, Apply(env, st, step))
  {
    match step
    case Raw(raw) => FeedStory(loose, env, st, raw);
    case FromDevice(raw, before, after) => RecordStory(loose, env, st, raw, before, after);
    case Retry(p) => if st.d.resyncNeeded { ResyncStory(loose, env, st, p); }
    case Flip(b) =>
      if b != st.d.flipped {
        CancelToReadyStory(loose, st, LatestSpoke(st.d.slot, TOUCH_MAX_SLOTS), b);
      }
    case Expire(now) => ExpireStory(loose, st, TOUCH_MAX_SLOTS, now);
    case CancelEverything =>
      CancelToReadyStory(loose, st, LatestSpoke(st.d.slot, TOUCH_MAX_SLOTS), st.d.flipped);
    case Drain(max) =>
      DrainStory(loose, st, max);
  }

  lemma DrainStory(loose: bool, st: Stream, max: int)
    requires Inv(loose, st)
    ensures var (d, out) := Drained(st.d, max); Inv(loose, Stream(d, st.delivered + out))
  {
    var (d, out) := Drained(st.d, max);
    var r := Stream(d, st.delivered + out);
    assert r.History() == st.History();
    ValidReady(st.d, d.ready);
    SameStory(loose, st, r);
  }

  lemma Start(loose: bool)
    ensures Inv(loose, Stream(Initial(), []))
  {
    var st := Stream(Initial(), []);
    forall s | InRange(s) ensures SlotValid(st.d, s) && StoryAt(loose, st, s) {
      assert Track(loose, Closed, [], s) == Closed;
    }
  }

  /** A run from power-up; every step is legal where it is taken. */
  ghost predicate IsRun(env: Env, steps: seq<Step>, states: seq<Stream>) {
    && |states| == |steps| + 1
    && states[0] == Stream(Initial(), [])
    && (forall i | 0 <= i < |steps| ::
          && Valid(states[i].d) && Owing(states[i].d)
          && Legal(states[i].d, steps[i])
          && states[i + 1] == Apply(env, states[i], steps[i]))
  }

  ghost predicate NoOrphans(steps: seq<Step>, states: seq<Stream>)
    requires |states| == |steps| + 1
  {
    forall i | 0 <= i < |steps| :: !Orphaning(states[i].d, steps[i])
  }

  lemma {:induction false} RunInv(loose: bool, env: Env, steps: seq<Step>, states: seq<Stream>, i: nat)
    requires IsRun(env, steps, states) && i <= |steps|
    requires loose || NoOrphans(steps, states)
    ensures Inv(loose, states[i])
  {
    hide Inv, Apply;
    if i == 0 { Start(loose); }
    else {
      RunInv(loose, env, steps, states, i - 1);
      StepStory(loose, env, states[i - 1], steps[i - 1]);
    }
  }

  /** Every published MOVE, UP and CANCEL has an open DOWN on its slot, in every run. */
  lemma PublishedNeedsDown(env: Env, steps: seq<Step>, states: seq<Stream>, i: nat, k: nat)
    requires IsRun(env, steps, states) && i <= |steps| && k < |states[i].History()|
    requires !states[i].History()[k].kind.Down?
    ensures Track(true, Closed, states[i].History()[..k], states[i].History()[k].slot) == Opened
  {
    var h := states[i].History();
    var s := h[k].slot;
    RunInv(true, env, steps, states, i);
    assert h[k] in h && StoryAt(true, states[i], s);
    PublishedUnbroken(true, states[i], s);
    NeedsDown(h, k);
  }

  lemma NeedsDown(h: seq<Event>, k: nat)
    requires k < |h| && Track(true, Closed, h, h[k].slot) != Broken && !h[k].kind.Down?
    ensures Track(true, Closed, h[..k], h[k].slot) == Opened
  {
    var s := h[k].slot;
    assert h == h[..k + 1] + h[k + 1..];
    TrackConcat(true, Closed, h[..k + 1], h[k + 1..], s);
    TrackBroken(true, h[k + 1..], s);
    assert h[..k + 1][..k] == h[..k];
  }

  /** Without lost CANCELs the published events of every slot are (DOWN MOVE* (UP|CANCEL))*. */
  lemma PublishedIsBracketed(env: Env, steps: seq<Step>, states: seq<Stream>, i: nat)
    requires IsRun(env, steps, states) && i <= |steps| && NoOrphans(steps, states)
    ensures Bracketed(states[i].History())
    ensures forall s :: Follows(states[i].History(), s)
  {
    RunInv(false, env, steps, states, i);
    forall s
      ensures Track(false, Closed, states[i].History(), s) != Broken
      ensures Follows(states[i].History(), s)
    {
      if InRange(s) {
        assert StoryAt(false, states[i], s);
        PublishedUnbroken(false, states[i], s);
      } else {
        TrackOther(false, Closed, states[i].History(), s);
      }
      BracketedMeaning(states[i].History(), s);
    }
  }

  // ---------- Exactly which steps break the strict reading ----------

  /** A contact the application still holds and the decoder has forgotten. */
  ghost predicate Orphan(st: Stream, s: int) {
    && InRange(s) && |st.d.slot| == TOUCH_MAX_SLOTS
    && Published(false, st, s) == Opened && st.d.frame == []
    && !st.d.slot[s].active && !st.d.slot[s].announced
  }

  /** Such a step forgets the frame, says nothing and leaves every slot inactive. */
  lemma OrphaningForgets(env: Env, st: Stream, step: Step)
    requires Base(st) && Orphaning(st.d, step)
    ensures var r := Apply(env, st, step);
            && r.History() == st.History() && r.d.frame == []
            && r.d.slot == ClearedAll(st.d.slot) && !r.d.resyncNeeded
  {
    forall t { NoCancelEvents(st.d.slot, TOUCH_MAX_SLOTS, t, st.d); }
  }

  lemma OrphaningOrphans(env: Env, st: Stream, step: Step) returns (s: int)
    requires Inv(false, st) && Legal(st.d, step) && Orphaning(st.d, step)
    ensures Orphan(Apply(env, st, step), s)
    ensures Base(Apply(env, st, step)) && !Apply(env, st, step).d.resyncNeeded
  {
    var n := |st.d.frame| - 1;
    s := st.d.frame[n].slot;
    assert st.d.frame[n] in st.d.frame;
    assert StoryAt(false, st, s);
    CancelsOpened(Published(false, st, s), st.d.frame[..n], s);
    OrphaningForgets(env, st, step);
    StartLoose(st);
    StepStory(true, env, st, step);
  }

  lemma {:induction false} NoCancelEvents(slot: seq<Slot>, n: nat, t: real, d: Decoder)
    requires slot == d.slot && Valid(d) && d.discarding && n <= TOUCH_MAX_SLOTS
    ensures CancelEvents(slot, n, t) == []
  {
    if n > 0 {
      assert SlotValid(d, n - 1);
      NoCancelEvents(slot, n - 1, t, d);
    }
  }

  /** The strict invariant implies the loose one. */
  lemma StartLoose(st: Stream)
    requires Inv(false, st)
    ensures Inv(true, st)
  {
    forall s | InRange(s) ensures StoryAt(true, st, s) {
      assert StoryAt(false, st, s);
      PublishedUnbroken(false, st, s);
      StrictIsLoose(Closed, st.History(), s);
      StrictIsLoose(Published(false, st, s), st.d.frame, s);
    }
  }

  lemma {:induction false} StrictIsLoose(p: Phase, es: seq<Event>, s: int)
    requires Track(false, p, es, s) != Broken
    ensures Track(true, p, es, s) == Track(false, p, es, s)
  {
    if es != [] { StrictIsLoose(p, es[..|es| - 1], s); }
  }

  /** A legal step keeps the strict invariant exactly when it loses no queued CANCEL. */
  lemma StrictStepExactly(env: Env, st: Stream, step: Step)
    requires Inv(false, st) && Legal(st.d, step)
    ensures Inv(false, Apply(env, st, step)) <==> !Orphaning(st.d, step)
  {
    if Orphaning(st.d, step) {
      var s := OrphaningOrphans(env, st, step);
      assert !StoryAt(false, Apply(env, st, step), s);
    } else {
      StepStory(false, env, st, step);
    }
  }

  function FeedRaws(env: Env, st: Stream, raws: seq<Raw>): Stream
    requires Valid(st.d)
  {
    st.(d := FeedAll(env, st.d, raws))
  }

  const REPORT := Raw.Raw(EV_SYN, SYN_REPORT, 0, 0.0)
  const DROP := Raw.Raw(EV_SYN, SYN_DROPPED, 0, 0.0)

  function Select(s: int): Raw { Raw.Raw(EV_ABS, ABS_MT_SLOT, s, 0.0) }

  function Touch(id: int): Raw { Raw.Raw(EV_ABS, ABS_MT_TRACKING_ID, id, 0.0) }

  lemma ReportKeepsOrphan(env: Env, st: Stream, s: int)
    requires Base(st) && Orphan(st, s)
    ensures var r := st.(d := FeedOne(env, st.d, REPORT));
            Valid(r.d) && Orphan(r, s) && !r.d.discarding
  {
    FeedKeepsValid(env, st.d, REPORT);
    assert st.(d := st.d.(discarding := false)).History() == st.History();
  }

  /** A contact that begins on an idle slot is one pending DOWN. */
  lemma TouchPends(env: Env, d: Decoder, s: int)
    requires Valid(d) && !d.discarding && d.frame == [] && InRange(s) && !d.slot[s].active
    ensures Valid(FeedOne(env, d, Select(s)))
    ensures var r := FeedOne(env, FeedOne(env, d, Select(s)), Touch(0));
            && Valid(r) && !r.discarding && r.ready == d.ready
            && |r.frame| == 1 && r.frame[0].kind.Down? && r.frame[0].slot == s
  {
    FeedKeepsValid(env, d, Select(s));
    FeedKeepsValid(env, FeedOne(env, d, Select(s)), Touch(0));
  }

  /** An orphan is seen as soon as its slot is used again: the next frame publishes a DOWN on
      a slot that is still down. */
  lemma OrphanDoublesDown(env: Env, st: Stream, s: int)
    requires Base(st) && Orphan(st, s)
    ensures !Bracketed(FeedRaws(env, st, [REPORT, Select(s), Touch(0), REPORT]).History())
  {
    ReportKeepsOrphan(env, st, s);
    var d1 := FeedOne(env, st.d, REPORT);
    TouchPends(env, d1, s);
    var d3 := FeedOne(env, FeedOne(env, d1, Select(s)), Touch(0));
    var d4 := FeedOne(env, d3, REPORT);
    var history := st.(d := d1).History();
    assert d3.frame == [d3.frame[0]];
    assert st.(d := d4).History() == history + [d3.frame[0]];
    TrackSnoc(false, Closed, history, d3.frame[0], s);
    FeedFour(env, st.d, REPORT, Select(s), Touch(0), REPORT);
  }

  lemma FeedFour(env: Env, d: Decoder, a: Raw, b: Raw, c: Raw, e: Raw)
    requires Valid(d)
    ensures Valid(FeedOne(env, d, a)) && Valid(FeedOne(env, FeedOne(env, d, a), b))
    ensures Valid(FeedOne(env, FeedOne(env, FeedOne(env, d, a), b), c))
    ensures FeedAll(env, d, [a, b, c]) == FeedOne(env, FeedOne(env, FeedOne(env, d, a), b), c)
    ensures FeedAll(env, d, [a, b, c, e]) == FeedOne(env, FeedOne(env, FeedOne(env, FeedOne(env, d, a), b), c), e)
  {
    assert [] + [a] == [a] && [a] + [b] == [a, b] && [a, b] + [c] == [a, b, c] && [a, b, c] + [e] == [a, b, c, e];
    FeedAllSnoc(env, d, [], a);
    FeedAllSnoc(env, d, [a], b);
    FeedAllSnoc(env, d, [a, b], c);
    FeedAllSnoc(env, d, [a, b, c], e);
    FeedKeepsValid(env, d, a);
    FeedKeepsValid(env, FeedOne(env, d, a), b);
    FeedKeepsValid(env, FeedOne(env, FeedOne(env, d, a), b), c);
  }

  lemma FeedAllSnoc(env: Env, d: Decoder, raws: seq<Raw>, raw: Raw)
    requires Valid(d)
    ensures FeedAll(env, d, raws + [raw]) == FeedOne(env, FeedAll(env, d, raws), raw)
  {
    assert (raws + [raw])[..|raws|] == raws;
  }

  /** Orphaning steps do occur: a contact goes down, a drop follows and then a second one. */
  lemma OrphaningHappens(env: Env)
    ensures Valid(Initial())
    ensures var st := FeedRaws(env, Stream(Initial(), []), [Touch(5), REPORT, DROP]);
            Inv(false, st) && Orphaning(st.d, Step.Raw(DROP))
  {
    var st := Stream(Initial(), []);
    Start(false);
    FeedStory(false, env, st, Touch(5));
    var d1 := FeedOne(env, st.d, Touch(5));
    assert d1.frame == [Event(Down, 0, 0.0, 0.0, 0.0)];
    FeedStory(false, env, st.(d := d1), REPORT);
    var d2 := FeedOne(env, d1, REPORT);
    AnnouncedAfterDown(d1.frame, 0);
    FeedStory(false, env, st.(d := d2), DROP);
    CancelEventsTrack(false, Opened, d2.slot, TOUCH_MAX_SLOTS, 0.0, 0);
    FeedFour(env, st.d, Touch(5), REPORT, DROP, DROP);
  }

  lemma AnnouncedAfterDown(es: seq<Event>, s: int)
    requires |es| == 1 && es[0].kind.Down? && es[0].slot == s
    ensures AnnouncedAfter(es, s, false)
  {
  }

  // ---------- Batching and atomic frames ----------

  /** What is already queued never matters to what a raw event does. */
  lemma ReadyShift(env: Env, d: Decoder, pre: seq<Event>, raw: Raw)
    requires Valid(d) && Valid(d.(ready := pre + d.ready))
    ensures FeedOne(env, d.(ready := pre + d.ready), raw) ==
            FeedOne(env, d, raw).(ready := pre + FeedOne(env, d, raw).ready)
  {
    if IsReport(raw) {
      assert (pre + d.ready) + d.frame == pre + (d.ready + d.frame);
    } else if !IsDrop(raw) && !d.discarding && raw.kind == EV_ABS {
      if raw.code == ABS_MT_TRACKING_ID {
        TrackingIdReady(d, pre + d.ready, raw.value, raw.t);
      } else if raw.code == ABS_MT_POSITION_X || raw.code == ABS_MT_POSITION_Y {
        PositionReady(env, d, pre + d.ready, raw.code == ABS_MT_POSITION_X, raw.value, raw.t);
      }
    }
  }

  lemma TrackingIdReady(d: Decoder, ready: seq<Event>, value: int, t: real)
    requires Valid(d) && Valid(d.(ready := ready))
    ensures HandleTrackingId(d.(ready := ready), value, t) == HandleTrackingId(d, value, t).(ready := ready)
    ensures HandleTrackingId(d, value, t).ready == d.ready
  {
    var s := d.currentSlot;
    if InRange(s) {
      var spoke := WithSlot(d, s, d.slot[s].(lastSpoke := t));
      if value == -1 {
        LiftedReady(spoke, ready, s, t);
      } else {
        BegunReady(spoke, ready, s, value, t);
      }
    }
  }

  lemma LiftedReady(d: Decoder, ready: seq<Event>, s: int, t: real)
    requires InRange(s) && |d.slot| == TOUCH_MAX_SLOTS
    ensures Lifted(d.(ready := ready), s, t) == Lifted(d, s, t).(ready := ready)
    ensures Lifted(d, s, t).ready == d.ready
  {
  }

  lemma BegunReady(d: Decoder, ready: seq<Event>, s: int, id: int, t: real)
    requires InRange(s) && |d.slot| == TOUCH_MAX_SLOTS
    ensures Begun(d.(ready := ready), s, id, t) == Begun(d, s, id, t).(ready := ready)
    ensures Begun(d, s, id, t).ready == d.ready
  {
  }

  lemma PositionReady(env: Env, d: Decoder, ready: seq<Event>, isX: bool, value: int, t: real)
    requires Valid(d) && Valid(d.(ready := ready)) && !d.discarding
    ensures HandlePosition(env, d.(ready := ready), isX, value, t) ==
            HandlePosition(env, d, isX, value, t).(ready := ready)
    ensures HandlePosition(env, d, isX, value, t).ready == d.ready
  {
    hide Moved;
  }

  lemma ValidReady(d: Decoder, ready: seq<Event>)
    requires Valid(d)
    ensures Valid(d.(ready := ready))
  {
    forall s | InRange(s) ensures SlotValid(d.(ready := ready), s) { assert SlotValid(d, s); }
  }

  lemma {:induction false} ReadyShiftAll(env: Env, d: Decoder, pre: seq<Event>, raws: seq<Raw>)
    requires Valid(d) && Valid(d.(ready := pre + d.ready))
    ensures FeedAll(env, d.(ready := pre + d.ready), raws) ==
            FeedAll(env, d, raws).(ready := pre + FeedAll(env, d, raws).ready)
  {
    if raws != [] {
      ReadyShiftAll(env, d, pre, raws[..|raws| - 1]);
      var e := FeedAll(env, d, raws[..|raws| - 1]);
      ValidReady(e, pre + e.ready);
      ReadyShift(env, e, pre, raws[|raws| - 1]);
    }
  }

  datatype Call = Call(raws: seq<Raw>, max: int)

  /** The state after some feed calls, and everything they handed out. */
  function FeedCalls(env: Env, d: Decoder, calls: seq<Call>): (r: (Decoder, seq<Event>))
    requires Valid(d)
    ensures Valid(r.0)
  {
    if calls == [] then (d, [])
    else
      var (e, out) := FeedCalls(env, d, calls[..|calls| - 1]);
      var c := calls[|calls| - 1];
      var fed := FeedAll(env, e, c.raws);
      var (f, more) := Drained(fed, c.max);
      ValidReady(fed, f.ready);
      (f, out + more)
  }

  function AllRaws(calls: seq<Call>): seq<Raw> {
    if calls == [] then [] else AllRaws(calls[..|calls| - 1]) + calls[|calls| - 1].raws
  }

  lemma {:induction false} FeedAllConcat(env: Env, d: Decoder, a: seq<Raw>, b: seq<Raw>)
    requires Valid(d)
    ensures FeedAll(env, d, a + b) == FeedAll(env, FeedAll(env, d, a), b)
  {
    if b == [] {
      assert a + b == a;
    } else {
      var b' := b[..|b| - 1];
      assert (a + b)[..|a + b| - 1] == a + b';
      FeedAllConcat(env, d, a, b');
    }
  }

  lemma DrainSplits(d: Decoder, out: seq<Event>, max: int)
    ensures var (f, more) := Drained(d, max);
            d.(ready := out + d.ready) == f.(ready := (out + more) + f.ready)
  {
    var (f, more) := Drained(d, max);
    assert out + d.ready == (out + more) + f.ready;
  }

  /** However a raw sequence is cut into feed calls and whatever room each call offers, what
      was handed out followed by what is still queued is the one list an uncut feed queues,
      and the rest of the state is the same. */
  lemma {:induction false} BatchingIrrelevant(env: Env, d: Decoder, calls: seq<Call>)
    requires Valid(d)
    ensures var (e, out) := FeedCalls(env, d, calls);
            FeedAll(env, d, AllRaws(calls)) == e.(ready := out + e.ready)
  {
    if calls == [] {
      assert [] + d.ready == d.ready;
    } else {
      var calls', c := calls[..|calls| - 1], calls[|calls| - 1];
      var (e, out) := FeedCalls(env, d, calls');
      BatchingIrrelevant(env, d, calls');
      FeedAllConcat(env, d, AllRaws(calls'), c.raws);
      ValidReady(e, out + e.ready);
      ReadyShiftAll(env, e, out, c.raws);
      DrainSplits(FeedAll(env, e, c.raws), out, c.max);
    }
  }

  /** Nothing of a frame is visible before its SYN_REPORT, which publishes all of it; a slot's
      only MOVE comes first in its part of the frame, and its last event carries the position
      the slot holds. */
  lemma FramesAreAtomic(env: Env, st: Stream, raw: Raw)
    requires Inv(true, st) && !st.d.resyncNeeded
    ensures var r := FeedOne(env, st.d, raw);
            && r.ready == st.d.ready + (if IsReport(raw) then st.d.frame else [])
            && (IsReport(raw) ==> r.frame == [])
    ensures Shaped(st.d.frame) && Shaped(FeedOne(env, st.d, raw).frame)
    ensures !st.d.discarding ==> forall s | InRange(s) && LastIndex(st.d.frame, s) >= 0 ::
              var e := st.d.frame[LastIndex(st.d.frame, s)];
              e.x == st.d.slot[s].x && e.y == st.d.slot[s].y
  {
    FeedStory(true, env, st, raw);
    OnlyReportsPublish(env, st.d, raw);
    forall s | InRange(s) ensures SlotValid(st.d, s) {}
  }

  lemma OnlyReportsPublish(env: Env, d: Decoder, raw: Raw)
    requires Valid(d)
    ensures FeedOne(env, d, raw).ready == d.ready + (if IsReport(raw) then d.frame else [])
    ensures IsReport(raw) ==> FeedOne(env, d, raw).frame == []
  {
    if !IsDrop(raw) && !d.discarding && raw.kind == EV_ABS {
      if raw.code == ABS_MT_TRACKING_ID {
        TrackingIdReady(d, d.ready, raw.value, raw.t);
      } else if raw.code == ABS_MT_POSITION_X || raw.code == ABS_MT_POSITION_Y {
        PositionReady(env, d, d.ready, raw.code == ABS_MT_POSITION_X, raw.value, raw.t);
      }
    }
  }
}
