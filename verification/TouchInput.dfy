/** The multitouch decoder as the source writes it: one object, updated in place by loops over
    slots and events. Every method is proved to have the effect TouchDecoder describes. */
module TouchInputObject {
  import opened TouchEvents
  import opened D = TouchDecoder

  class TouchInput {
    const env: Env
    var flipped: bool
    var currentSlot: int
    var discarding: bool
    var slot: seq<Slot>
    var frame: seq<Event>
    var ready: seq<Event>
    var resyncNeeded: bool
    var resyncTime: real

    ghost function State(): Decoder
      reads this
    {
      Decoder(flipped, currentSlot, discarding, slot, frame, ready, resyncNeeded, resyncTime)
    }

    constructor (env: Env)
      ensures this.env == env && State() == Initial()
    {
      this.env := env;
      flipped, currentSlot, discarding := false, 0, false;
      slot := seq(TOUCH_MAX_SLOTS, _ => FreshSlot());
      frame, ready := [], [];
      resyncNeeded, resyncTime := false, 0.0;
    }

    method AppendFrameEvent(kind: Kind, s: int, t: real)
      requires InRange(s) && |slot| == TOUCH_MAX_SLOTS
      modifies this
      ensures State() == AppendFrame(old(State()), kind, s, t)
    {
      frame := frame + [Event(kind, s, slot[s].x, slot[s].y, t)];
      slot := slot[s := slot[s].(frameEvent := |frame| - 1)];
    }

    method PublishFrame()
      requires |slot| == TOUCH_MAX_SLOTS && forall e | e in frame :: InRange(e.slot)
      modifies this
      ensures State() == Publish(old(State()))
    {
      if |frame| == 0 { return; }
      ready := ready + frame;
      MarkAnnounced();
      frame := [];
      ForgetFrameEvents();
      assert slot == Publish(old(State())).slot;
    }

    method MarkAnnounced()
      requires |slot| == TOUCH_MAX_SLOTS && forall e | e in frame :: InRange(e.slot)
      modifies this`slot
      ensures |slot| == TOUCH_MAX_SLOTS
      ensures forall s | InRange(s) ::
        slot[s] == old(slot)[s].(announced := AnnouncedAfter(frame, s, old(slot)[s].announced))
    {
      for i := 0 to |frame|
        invariant |slot| == TOUCH_MAX_SLOTS
        invariant forall s | InRange(s) ::
          slot[s] == old(slot)[s].(announced := AnnouncedAfter(frame[..i], s, old(slot)[s].announced))
      {
        var event := frame[i];
        assert event in frame;
        assert frame[..i + 1][..i] == frame[..i];
        if event.kind == Down {
          slot := slot[event.slot := slot[event.slot].(announced := true)];
        } else if event.kind == Up || event.kind == Cancel {
          slot := slot[event.slot := slot[event.slot].(announced := false)];
        }
      }
      assert frame[..|frame|] == frame;
    }

    method ForgetFrameEvents()
      requires |slot| == TOUCH_MAX_SLOTS
      modifies this`slot
      ensures |slot| == TOUCH_MAX_SLOTS
      ensures forall s | InRange(s) :: slot[s] == old(slot)[s].(frameEvent := -1)
    {
      for i := 0 to TOUCH_MAX_SLOTS
        invariant |slot| == TOUCH_MAX_SLOTS
        invariant forall s | InRange(s) ::
          slot[s] == if s < i then old(slot)[s].(frameEvent := -1) else old(slot)[s]
      {
        slot := slot[i := slot[i].(frameEvent := -1)];
      }
    }

    method DiscardFrameSlot(index: int)
      requires InRange(index) && |slot| == TOUCH_MAX_SLOTS && forall e | e in frame :: InRange(e.slot)
      modifies this
      ensures State() == D.DiscardFrameSlot(old(State()), index)
    {
      WithoutMembers(frame, index);
      CompactFrame(index);
      ForgetFrameEvents();
      IndexFrameEvents();
      assert slot == D.DiscardFrameSlot(old(State()), index).slot;
    }

    /** Moves the events of the other slots down over those of `index`, in place. */
    method CompactFrame(index: int)
      modifies this`frame
      ensures frame == Without(old(frame), index)
    {
      var write := 0;
      ghost var was := frame;
      for i := 0 to |frame|
        invariant 0 <= write <= i && |frame| == |was|
        invariant frame[..write] == Without(was[..i], index)
        invariant forall k | i <= k < |was| :: frame[k] == was[k]
      {
        assert was[..i + 1][..i] == was[..i];
        if frame[i].slot != index {
          assert frame[write := was[i]][..write + 1] == frame[..write] + [was[i]];
          frame := frame[write := frame[i]];
          write := write + 1;
        }
      }
      assert was[..|was|] == was;
      frame := frame[..write];
    }

    method IndexFrameEvents()
      requires |slot| == TOUCH_MAX_SLOTS && forall e | e in frame :: InRange(e.slot)
      requires forall sl | sl in slot :: sl.frameEvent == -1
      modifies this`slot
      ensures |slot| == TOUCH_MAX_SLOTS
      ensures forall s | InRange(s) :: slot[s] == old(slot)[s].(frameEvent := LastIndex(frame, s))
    {
      for i := 0 to |frame|
        invariant |slot| == TOUCH_MAX_SLOTS
        invariant forall s | InRange(s) :: slot[s] == old(slot)[s].(frameEvent := LastIndex(frame[..i], s))
      {
        var s := frame[i].slot;
        assert frame[i] in frame;
        assert frame[..i + 1] == frame[..i] + [frame[i]];
        forall o | InRange(o)
          ensures LastIndex(frame[..i + 1], o) == if o == s then i else LastIndex(frame[..i], o)
        {
          LastIndexSnoc(frame[..i], frame[i], o);
        }
        slot := slot[s := slot[s].(frameEvent := i)];
      }
      assert frame[..|frame|] == frame;
    }

    method ClearSlot(i: int)
      requires InRange(i) && |slot| == TOUCH_MAX_SLOTS
      modifies this`slot
      ensures slot == old(slot)[i := Cleared(old(slot)[i])]
    {
      slot := slot[i := slot[i].(
        active := false, announced := false, trackingId := -1, frameEvent := -1,
        timeOrigin := 0.0, timeStarted := false, fx := [], fy := [])];
    }

    method CancelActiveToFrame(t: real)
      requires |slot| == TOUCH_MAX_SLOTS
      modifies this
      ensures State() == CancelToFrame(old(State()), t)
    {
      frame := [];
      for i := 0 to TOUCH_MAX_SLOTS
        invariant |slot| == TOUCH_MAX_SLOTS
        invariant flipped == old(flipped) && currentSlot == old(currentSlot) && discarding == old(discarding)
        invariant ready == old(ready) && resyncNeeded == old(resyncNeeded) && resyncTime == old(resyncTime)
        invariant forall s | InRange(s) :: slot[s] == if s < i then Cleared(old(slot)[s]) else old(slot)[s]
        invariant frame == CancelEvents(old(slot), i, t)
      {
        slot := slot[i := slot[i].(frameEvent := -1)];
        if slot[i].announced {
          AppendFrameEvent(Cancel, i, t);
        }
        ClearSlot(i);
      }
      assert slot == ClearedAll(old(slot));
    }

    method CancelActiveToReady(t: real)
      requires |slot| == TOUCH_MAX_SLOTS
      modifies this
      ensures State() == CancelToReady(old(State()), t)
    {
      frame := [];
      for i := 0 to TOUCH_MAX_SLOTS
        invariant |slot| == TOUCH_MAX_SLOTS && frame == []
        invariant flipped == old(flipped) && currentSlot == old(currentSlot) && discarding == old(discarding)
        invariant resyncNeeded == old(resyncNeeded) && resyncTime == old(resyncTime)
        invariant forall s | InRange(s) :: slot[s] == if s < i then Cleared(old(slot)[s]) else old(slot)[s]
        invariant ready == old(ready) + CancelEvents(old(slot), i, t)
      {
        if slot[i].announced {
          ready := ready + [Event(Cancel, i, slot[i].x, slot[i].y, t)];
        }
        ClearSlot(i);
      }
      assert slot == ClearedAll(old(slot));
    }

    method LatestSpoke() returns (t: real)
      requires |slot| == TOUCH_MAX_SLOTS
      ensures t == D.LatestSpoke(slot, TOUCH_MAX_SLOTS)
    {
      t := 0.0;
      for i := 0 to TOUCH_MAX_SLOTS
        invariant t == D.LatestSpoke(slot, i)
      {
        if slot[i].lastSpoke > t { t := slot[i].lastSpoke; }
      }
    }

    method SetFlipped(to: bool)
      requires |slot| == TOUCH_MAX_SLOTS
      modifies this
      ensures State() == D.SetFlipped(old(State()), to)
    {
      if flipped == to { return; }
      var t := LatestSpoke();
      CancelActiveToReady(t);
      discarding := false;
      flipped := to;
    }

    method HandleTrackingId(value: int, t: real)
      requires Valid(State())
      modifies this
      ensures State() == D.HandleTrackingId(old(State()), value, t)
    {
      var index := currentSlot;
      if index < 0 || index >= TOUCH_MAX_SLOTS { return; }
      slot := slot[index := slot[index].(lastSpoke := t)];
      if value == -1 {
        if !slot[index].active { return; }
        AppendFrameEvent(Up, index, t);
        slot := slot[index := slot[index].(active := false, trackingId := -1)];
        return;
      }
      if slot[index].active && slot[index].trackingId == value { return; }
      if slot[index].active {
        AppendFrameEvent(Cancel, index, t);
      }
      slot := slot[index := slot[index].(
        active := true, trackingId := value, fx := [], fy := [], timeOrigin := t, timeStarted := true)];
      AppendFrameEvent(Down, index, t);
    }

    method Smooth(index: int, code: int, value: int, t: real)
      requires InRange(index) && |slot| == TOUCH_MAX_SLOTS
      modifies this`slot
      ensures slot == old(slot)[index := Moved(env, old(slot)[index], code == ABS_MT_POSITION_X, value, flipped, t)]
    {
      if !slot[index].timeStarted {
        slot := slot[index := slot[index].(timeOrigin := t, timeStarted := true)];
      }
      var filterTime := t - slot[index].timeOrigin;
      if code == ABS_MT_POSITION_X {
        var fx := slot[index].fx + [(env.flip(true, value, flipped), filterTime)];
        slot := slot[index := slot[index].(fx := fx, x := env.smooth(fx))];
      } else {
        var fy := slot[index].fy + [(env.flip(false, value, flipped), filterTime)];
        slot := slot[index := slot[index].(fy := fy, y := env.smooth(fy))];
      }
    }

    method HandlePosition(code: int, value: int, t: real)
      requires Valid(State()) && !discarding
      modifies this
      ensures State() == D.HandlePosition(env, old(State()), code == ABS_MT_POSITION_X, value, t)
    {
      var index := currentSlot;
      if index < 0 || index >= TOUCH_MAX_SLOTS { return; }
      assert SlotValid(State(), index);
      slot := slot[index := slot[index].(lastSpoke := t)];
      if !slot[index].active { return; }
      Smooth(index, code, value, t);
      var i := slot[index].frameEvent;
      if i >= 0 && (frame[i].kind == Down || frame[i].kind == Move) {
        frame := frame[i := frame[i].(x := slot[index].x, y := slot[index].y, t := t)];
        return;
      }
      AppendFrameEvent(Move, index, t);
    }

    method FeedOne(raw: Raw)
      requires Valid(State())
      modifies this
      ensures State() == D.FeedOne(env, old(State()), raw)
      ensures Valid(State())
    {
      FeedKeepsValid(env, State(), raw);
      if raw.kind == EV_SYN && raw.code == SYN_DROPPED {
        CancelActiveToFrame(raw.t);
        discarding := true;
        currentSlot := 0;
        return;
      }
      if discarding {
        if raw.kind == EV_SYN && raw.code == SYN_REPORT {
          discarding := false;
          PublishFrame();
        }
        return;
      }
      if raw.kind == EV_SYN && raw.code == SYN_REPORT {
        PublishFrame();
        return;
      }
      if raw.kind != EV_ABS { return; }
      if raw.code == ABS_MT_SLOT {
        currentSlot := raw.value;
        return;
      }
      if raw.code == ABS_MT_TRACKING_ID {
        HandleTrackingId(raw.value, raw.t);
        return;
      }
      if raw.code == ABS_MT_POSITION_X || raw.code == ABS_MT_POSITION_Y {
        HandlePosition(raw.code, raw.value, raw.t);
      }
    }

    /** Hands out the oldest `max` queued events and keeps the rest; refuses a negative `max`. */
    method DrainReady(max: int) returns (ok: bool, out: seq<Event>)
      modifies this`ready
      ensures ok == (max >= 0)
      ensures (State(), out) == Drained(old(State()), max)
    {
      if max < 0 { return false, []; }
      var count := |ready|;
      if count > max { count := max; }
      out := ready[..count];
      ready := ready[count..];
      ok := true;
    }

    method Feed(raws: seq<Raw>, max: int) returns (ok: bool, out: seq<Event>)
      requires Valid(State())
      modifies this
      ensures Valid(State()) && ok == (max >= 0)
      ensures (State(), out) == Drained(FeedAll(env, old(State()), raws), max)
    {
      for i := 0 to |raws|
        invariant Valid(State()) && State() == FeedAll(env, old(State()), raws[..i])
      {
        assert raws[..i + 1][..i] == raws[..i];
        FeedOne(raws[i]);
      }
      assert raws[..|raws|] == raws;
      ok, out := DrainReady(max);
    }

    method Expire(now: real, max: int) returns (ok: bool, out: seq<Event>)
      requires Valid(State())
      modifies this
      ensures ok == (max >= 0)
      ensures (State(), out) == Drained(ExpireBelow(old(State()), TOUCH_MAX_SLOTS, now), max)
    {
      for i := 0 to TOUCH_MAX_SLOTS
        invariant |slot| == TOUCH_MAX_SLOTS && forall e | e in frame :: InRange(e.slot)
        invariant State() == ExpireBelow(old(State()), i, now)
      {
        if (!slot[i].active && !slot[i].announced) || now - slot[i].lastSpoke <= SLOT_SILENCE_SECONDS {
          continue;
        }
        WithoutMembers(frame, i);
        ExpireContact(i, now);
      }
      ok, out := DrainReady(max);
    }

    method ExpireContact(i: int, now: real)
      requires InRange(i) && |slot| == TOUCH_MAX_SLOTS && Silent(slot[i], now)
      requires forall e | e in frame :: InRange(e.slot)
      modifies this
      ensures State() == ExpireSlot(old(State()), i, now)
    {
      DiscardFrameSlot(i);
      if slot[i].announced {
        ready := ready + [Event(Cancel, i, slot[i].x, slot[i].y, now)];
      }
      ClearSlot(i);
    }

    method CancelAll(max: int) returns (ok: bool, out: seq<Event>)
      requires |slot| == TOUCH_MAX_SLOTS
      modifies this
      ensures ok == (max >= 0)
      ensures (State(), out) == Drained(D.CancelAll(old(State())), max)
    {
      var t := LatestSpoke();
      CancelActiveToReady(t);
      discarding := false;
      ok, out := DrainReady(max);
    }

    /** The ioctl answers come in as `p`; the loop reads the driver's tables position by position. */
    method ResyncDriver(p: Probed) returns (ok: bool)
      requires |slot| == TOUCH_MAX_SLOTS
      modifies this
      ensures ok == Usable(p)
      ensures State() == Resync(env, old(State()), p).(resyncNeeded := old(resyncNeeded))
    {
      if p.Failed? { return false; }
      var first := p.minimum;
      var count := p.maximum - first + 1;
      if count <= 0 { return false; }
      if count > TOUCH_MAX_SLOTS { count := TOUCH_MAX_SLOTS; }
      currentSlot := p.value;
      ghost var start := State();
      for i := 0 to count
        invariant |slot| == TOUCH_MAX_SLOTS && resyncNeeded == old(resyncNeeded) && resyncTime == old(resyncTime)
        invariant State() == ResyncBelow(env, start, p, i, old(resyncTime))
      {
        var s := first + i;
        if p.ids[i] < 0 || s < 0 || s >= TOUCH_MAX_SLOTS { continue; }
        ResyncContact(s, p.ids[i], p.xs[i], p.ys[i]);
      }
      return true;
    }

    method ResyncContact(s: int, id: int, x: int, y: int)
      requires InRange(s) && |slot| == TOUCH_MAX_SLOTS
      modifies this`slot, this`ready
      ensures var sl := Resynced(env, old(slot)[s], id, x, y, flipped, resyncTime);
              slot == old(slot)[s := sl] && ready == old(ready) + [Event(Down, s, sl.x, sl.y, resyncTime)]
    {
      ClearSlot(s);
      var fx := [(env.flip(true, x, flipped), 0.0)];
      var fy := [(env.flip(false, y, flipped), 0.0)];
      slot := slot[s := slot[s].(
        active := true, announced := true, trackingId := id, lastSpoke := resyncTime,
        timeOrigin := resyncTime, timeStarted := true, fx := fx, fy := fy,
        x := env.smooth(fx), y := env.smooth(fy))];
      ready := ready + [Event(Down, s, slot[s].x, slot[s].y, resyncTime)];
    }

    /** Tries an owed resync; a failed one stays owed. */
    method SettleResync(p: Probed)
      requires |slot| == TOUCH_MAX_SLOTS
      modifies this
      ensures State() == if old(resyncNeeded) then Resync(env, old(State()), p) else old(State())
    {
      if resyncNeeded {
        var ok := ResyncDriver(p);
        if ok { resyncNeeded := false; }
      }
    }

    method ProcessInputEvent(raw: Raw, before: Probed, after: Probed)
      requires Valid(State()) && Owing(State())
      modifies this
      ensures State() == Record(env, old(State()), raw, before, after)
    {
      ghost var entry := State();
      if resyncNeeded {
        ResyncClears(env, entry, before);
        ResyncKeepsValid(env, entry, before);
      }
      SettleResync(before);
      if resyncNeeded { return; }
      var wasDiscarding := discarding;
      ghost var settled := State();
      FeedOne(raw);
      ghost var fed := State();
      FeedFlags(env, settled, raw);
      if wasDiscarding && !discarding && raw.kind == EV_SYN && raw.code == SYN_REPORT {
        resyncNeeded := true;
        resyncTime := raw.t;
        assert State() == fed.(resyncNeeded := true, resyncTime := raw.t);
      }
      SettleResync(after);
    }
  }
}
