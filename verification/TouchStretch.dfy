/** What the decoder makes of a stretch of raw records without a loss: which contact each record speaks to,
    who is down, and where. Everything here is told from the records alone. */
module TouchStretch {
  import opened Basics
  import opened TouchEvents
  import opened TouchDecoder

  predicate IsAbs(r: Raw, code: int) { r.kind == 3 && r.code == code }

  /** ABS_MT_SLOT, ABS_MT_TRACKING_ID, ABS_MT_POSITION_X and ABS_MT_POSITION_Y, by their numbers. */
  predicate Selects(r: Raw) { IsAbs(r, 0x2f) }

  predicate Tracks(r: Raw) { IsAbs(r, 0x39) }

  predicate Places(r: Raw, isX: bool) { IsAbs(r, if isX then 0x35 else 0x36) }

  predicate Lossless(raws: seq<Raw>) { forall r | r in raws :: !(r.kind == 0 && r.code == 3) }

  /** The slot that records speak to after `raws`, starting from `first`. */
  function Selected(first: int, raws: seq<Raw>): int {
    if raws == [] then first
    else if Selects(raws[|raws| - 1]) then raws[|raws| - 1].value
    else Selected(first, raws[..|raws| - 1])
  }

  /** The last record speaks to slot `s`. */
  predicate SpeaksTo(first: int, raws: seq<Raw>, s: int)
    requires raws != []
  {
    Selected(first, raws[..|raws| - 1]) == s
  }

  /** The tracking id of the contact down on `s`: the last one given to it, unless that was -1. */
  function Held(first: int, raws: seq<Raw>, s: int): Option<int> {
    if raws == [] then None
    else
      var r := raws[|raws| - 1];
      if Tracks(r) && SpeaksTo(first, raws, s) then (if r.value == -1 then None else Some(r.value))
      else Held(first, raws[..|raws| - 1], s)
  }

  /** The last record begins a contact on `s`: an id that is not the one held. */
  predicate Begins(first: int, raws: seq<Raw>, s: int)
    requires raws != []
  {
    var r := raws[|raws| - 1];
    Tracks(r) && SpeaksTo(first, raws, s) && r.value != -1 && Held(first, raws[..|raws| - 1], s) != Some(r.value)
  }

  /** The last record is a position on this axis of a contact down on `s`. */
  predicate Samples(first: int, raws: seq<Raw>, s: int, isX: bool)
    requires raws != []
  {
    Places(raws[|raws| - 1], isX) && SpeaksTo(first, raws, s) && Held(first, raws[..|raws| - 1], s).Some?
  }

  /** When the contact on `s` began. */
  function Start(first: int, raws: seq<Raw>, s: int): real {
    if raws == [] then 0.0
    else if Begins(first, raws, s) then raws[|raws| - 1].t
    else Start(first, raws[..|raws| - 1], s)
  }

  /** The positions of the contact on `s` since it began, turned as the screen is and timed from there. */
  function Trail(env: Env, flipped: bool, first: int, raws: seq<Raw>, s: int, isX: bool): seq<(real, real)> {
    if raws == [] || Begins(first, raws, s) then []
    else
      var n := |raws| - 1;
      var before := Trail(env, flipped, first, raws[..n], s, isX);
      if Samples(first, raws, s, isX) then
        before + [(env.flip(isX, raws[n].value, flipped), raws[n].t - Start(first, raws[..n], s))]
      else before
  }

  /** Where slot `s` is: the filtered track as of the last position it was given, or where it was. */
  function Place(env: Env, flipped: bool, first: int, raws: seq<Raw>, s: int, isX: bool, was: real): real {
    if raws == [] then was
    else if Samples(first, raws, s, isX) then env.smooth(Trail(env, flipped, first, raws, s, isX))
    else Place(env, flipped, first, raws[..|raws| - 1], s, isX, was)
  }

  /** When slot `s` was last spoken to. */
  function Heard(first: int, raws: seq<Raw>, s: int, was: real): real {
    if raws == [] then was
    else
      var r := raws[|raws| - 1];
      if (Tracks(r) || Places(r, true) || Places(r, false)) && SpeaksTo(first, raws, s) then r.t
      else Heard(first, raws[..|raws| - 1], s, was)
  }

  // ---------- The decoder agrees ----------

  /** The decoder's account of slot `s` is the records'. */
  predicate SlotTells(env: Env, d0: Decoder, raws: seq<Raw>, sl: Slot, s: int)
    requires InRange(s) && |d0.slot| == TOUCH_MAX_SLOTS
  {
    var first, was := d0.currentSlot, d0.slot[s];
    && (sl.active <==> Held(first, raws, s).Some?)
    && (sl.active ==>
          && sl.trackingId == Held(first, raws, s).value && sl.timeStarted && sl.timeOrigin == Start(first, raws, s)
          && sl.fx == Trail(env, d0.flipped, first, raws, s, true) && sl.fy == Trail(env, d0.flipped, first, raws, s, false))
    && sl.x == Place(env, d0.flipped, first, raws, s, true, was.x)
    && sl.y == Place(env, d0.flipped, first, raws, s, false, was.y)
    && sl.lastSpoke == Heard(first, raws, s, was.lastSpoke)
  }

  /** What one record does to the slot it speaks to, and to no other. */
  function Told(env: Env, sl: Slot, r: Raw, flipped: bool): Slot {
    if Tracks(r) then
      var spoke := sl.(lastSpoke := r.t);
      if r.value == -1 then spoke.(active := false)
      else if sl.active && sl.trackingId == r.value then spoke
      else spoke.(active := true, trackingId := r.value, fx := [], fy := [], timeOrigin := r.t, timeStarted := true)
    else if Places(r, true) || Places(r, false) then
      var spoke := sl.(lastSpoke := r.t);
      if !sl.active then spoke
      else
        var sample := (env.flip(Places(r, true), r.value, flipped), r.t - sl.timeOrigin);
        if Places(r, true) then spoke.(fx := sl.fx + [sample], x := env.smooth(sl.fx + [sample]))
        else spoke.(fy := sl.fy + [sample], y := env.smooth(sl.fy + [sample]))
    else sl
  }

  /** Slots as the records tell of them; the pending events and the announcements aside. */
  predicate SameContact(a: Slot, b: Slot) {
    && a.active == b.active && (a.active ==> a.trackingId == b.trackingId)
    && (a.active ==> a.timeStarted == b.timeStarted && a.timeOrigin == b.timeOrigin && a.fx == b.fx && a.fy == b.fy)
    && a.x == b.x && a.y == b.y && a.lastSpoke == b.lastSpoke
  }

  lemma TrackingTells(d: Decoder, value: int, t: real, s: int)
    requires Valid(d) && !d.discarding && InRange(s)
    ensures var e, sl := HandleTrackingId(d, value, t), d.slot[s];
            && |e.slot| == TOUCH_MAX_SLOTS && !e.discarding && e.flipped == d.flipped && e.currentSlot == d.currentSlot
            && (d.currentSlot != s ==> e.slot[s] == sl)
            && (d.currentSlot == s ==>
                  SameContact(e.slot[s],
                              if value == -1 then sl.(lastSpoke := t, active := false)
                              else if sl.active && sl.trackingId == value then sl.(lastSpoke := t)
                              else sl.(lastSpoke := t, active := true, trackingId := value, fx := [], fy := [],
                                       timeOrigin := t, timeStarted := true)))
  {
  }

  lemma PositionTells(env: Env, d: Decoder, isX: bool, value: int, t: real, s: int)
    requires Valid(d) && !d.discarding && InRange(s) && (d.slot[s].active ==> d.slot[s].timeStarted)
    ensures var e, sl := HandlePosition(env, d, isX, value, t), d.slot[s];
            && |e.slot| == TOUCH_MAX_SLOTS && !e.discarding && e.flipped == d.flipped && e.currentSlot == d.currentSlot
            && (d.currentSlot != s ==> e.slot[s] == sl)
            && (d.currentSlot == s ==>
                  SameContact(e.slot[s],
                              if sl.active then Moved(env, sl.(lastSpoke := t), isX, value, d.flipped, t)
                              else sl.(lastSpoke := t)))
  {
    hide Moved, SameContact;
    if InRange(d.currentSlot) {
      assert SlotValid(d, d.currentSlot);
      if d.currentSlot == s && d.slot[s].active {
        ContactSame(Moved(env, d.slot[s].(lastSpoke := t), isX, value, d.flipped, t), |d.frame|);
      }
    }
    ContactItself(d.slot[s].(lastSpoke := t));
  }

  lemma ContactItself(sl: Slot)
    ensures SameContact(sl, sl)
  {
  }

  lemma ContactSame(sl: Slot, i: int)
    ensures SameContact(sl.(frameEvent := i), sl) && SameContact(sl, sl)
  {
  }

  lemma PublishTells(d: Decoder, s: int)
    requires Valid(d) && InRange(s)
    ensures var e := Publish(d);
            && |e.slot| == TOUCH_MAX_SLOTS && e.discarding == d.discarding && e.flipped == d.flipped
            && e.currentSlot == d.currentSlot && SameContact(e.slot[s], d.slot[s])
  {
  }

  lemma ToldOfPosition(env: Env, sl: Slot, r: Raw, flipped: bool)
    requires (sl.active ==> sl.timeStarted) && (Places(r, true) || Places(r, false))
    ensures Told(env, sl, r, flipped) ==
            if sl.active then Moved(env, sl.(lastSpoke := r.t), Places(r, true), r.value, flipped, r.t)
            else sl.(lastSpoke := r.t)
  {
  }

  lemma FeedTells(env: Env, d: Decoder, r: Raw, s: int)
    requires Valid(d) && !d.discarding && InRange(s) && !IsDrop(r)
    requires d.slot[s].active ==> d.slot[s].timeStarted
    ensures var e := FeedOne(env, d, r);
            && |e.slot| == TOUCH_MAX_SLOTS && !e.discarding && e.flipped == d.flipped
            && e.currentSlot == (if Selects(r) then r.value else d.currentSlot)
            && SameContact(e.slot[s], if d.currentSlot == s then Told(env, d.slot[s], r, d.flipped) else d.slot[s])
  {
    ContactItself(d.slot[s]);
    if IsReport(r) {
      PublishTells(d, s);
    } else if Tracks(r) {
      TrackingTells(d, r.value, r.t, s);
    } else if Places(r, true) || Places(r, false) {
      ToldOfPosition(env, d.slot[s], r, d.flipped);
      PositionTells(env, d, Places(r, true), r.value, r.t, s);
    }
    hide SameContact, Publish, HandleTrackingId, HandlePosition, Moved;
  }

  lemma TellStep(env: Env, d0: Decoder, raws: seq<Raw>, a: Slot, b: Slot, s: int)
    requires InRange(s) && |d0.slot| == TOUCH_MAX_SLOTS && raws != []
    requires var n := |raws| - 1;
             && SlotTells(env, d0, raws[..n], a, s)
             && SameContact(b, if SpeaksTo(d0.currentSlot, raws, s) then Told(env, a, raws[n], d0.flipped) else a)
    ensures SlotTells(env, d0, raws, b, s)
  {
  }

  /** After any stretch without a loss, from a state with no contact down, the decoder speaks to the slot
      last selected, and each of its slots holds the contact last given to it, with the track since that
      contact began, the place the filter makes of it, and the time it was last spoken to. */
  lemma {:induction false} StretchMeaning(env: Env, d0: Decoder, raws: seq<Raw>)
    requires Valid(d0) && !d0.discarding && Quiet(d0.slot) && Lossless(raws)
    ensures var d := FeedAll(env, d0, raws);
            && d.currentSlot == Selected(d0.currentSlot, raws) && !d.discarding && d.flipped == d0.flipped
            && |d.slot| == |d0.slot| == TOUCH_MAX_SLOTS
            && forall s | InRange(s) :: SlotTells(env, d0, raws, d.slot[s], s)
  {
    if raws == [] {
      forall s | InRange(s) ensures SlotTells(env, d0, raws, d0.slot[s], s) { assert d0.slot[s] in d0.slot; }
    } else {
      var n := |raws| - 1;
      var d := FeedAll(env, d0, raws[..n]);
      assert raws[n] in raws && forall r | r in raws[..n] :: r in raws;
      hide SlotTells, FeedOne, Valid;
      StretchMeaning(env, d0, raws[..n]);
      forall s | InRange(s) ensures SlotTells(env, d0, raws, FeedAll(env, d0, raws).slot[s], s) {
        ClockRuns(env, d0, raws[..n], d.slot[s], s);
        FeedTells(env, d, raws[n], s);
        TellStep(env, d0, raws, d.slot[s], FeedOne(env, d, raws[n]).slot[s], s);
      }
      FeedTells(env, d, raws[n], 0);
    }
  }

  lemma ClockRuns(env: Env, d0: Decoder, raws: seq<Raw>, sl: Slot, s: int)
    requires InRange(s) && |d0.slot| == TOUCH_MAX_SLOTS && SlotTells(env, d0, raws, sl, s)
    ensures sl.active ==> sl.timeStarted
  {
  }
}
