/** Where every published event comes from, over whole runs: which raw record or which call made it, and what
    becomes of it on its way through the pending frame. */
module TouchCauses {
  import opened Basics
  import opened TouchEvents
  import opened TouchDecoder
  import opened TouchStretch
  import C = TouchContacts

  // ---------- What a record makes pending ----------

  /** An event on slot `s`, where the slot is. */
  function Here(kind: Kind, sl: Slot, s: int, t: real): Event { Event(kind, s, sl.x, sl.y, t) }

  predicate Ends(e: Event) { e.kind.Up? || e.kind.Cancel? }

  /** The decoder is listening and speaks of slot `s`. */
  predicate Listens(d: Decoder, s: int) { !d.discarding && d.currentSlot == s }

  /** The contact on the slot of `e` lifts, where it was. */
  predicate Lifts(d: Decoder, raw: Raw, e: Event)
    requires InRange(e.slot) && |d.slot| == TOUCH_MAX_SLOTS
  {
    var sl := d.slot[e.slot];
    Listens(d, e.slot) && Tracks(raw) && raw.value == -1 && sl.active && e == Here(Up, sl, e.slot, raw.t)
  }

  /** A contact with another id takes over the slot of `e`, which was held. */
  predicate TakesOver(d: Decoder, raw: Raw, e: Event)
    requires InRange(e.slot) && |d.slot| == TOUCH_MAX_SLOTS
  {
    var sl := d.slot[e.slot];
    && Listens(d, e.slot) && Tracks(raw) && raw.value != -1 && sl.active && sl.trackingId != raw.value
    && e == Here(Cancel, sl, e.slot, raw.t)
  }

  /** A contact begins on the slot of `e`. */
  predicate Starts(d: Decoder, raw: Raw, e: Event)
    requires InRange(e.slot) && |d.slot| == TOUCH_MAX_SLOTS
  {
    var sl := d.slot[e.slot];
    && Listens(d, e.slot) && Tracks(raw) && raw.value != -1 && !(sl.active && sl.trackingId == raw.value)
    && e == Here(Down, sl, e.slot, raw.t)
  }

  /** The contact on slot `s` gives a position. */
  predicate Positions(d: Decoder, raw: Raw, s: int)
    requires InRange(s) && |d.slot| == TOUCH_MAX_SLOTS
  {
    Listens(d, s) && (Places(raw, true) || Places(raw, false)) && d.slot[s].active
  }

  /** It does, and `e` tells where the contact now is: as its DOWN when that is the slot's last pending event. */
  predicate Shows(env: Env, d: Decoder, raw: Raw, e: Event)
    requires InRange(e.slot) && |d.slot| == TOUCH_MAX_SLOTS && Valid(d)
  {
    var last := LastIndex(d.frame, e.slot);
    && Positions(d, raw, e.slot)
    && e == Here(if last >= 0 && d.frame[last].kind.Down? then Down else Move,
                 FeedOne(env, d, raw).slot[e.slot], e.slot, raw.t)
  }

  /** Events were lost, and the application knows of a contact on the slot of `e`. */
  predicate Loses(d: Decoder, raw: Raw, e: Event)
    requires InRange(e.slot) && |d.slot| == TOUCH_MAX_SLOTS
  {
    IsDrop(raw) && d.slot[e.slot].announced && e == Here(Cancel, d.slot[e.slot], e.slot, raw.t)
  }

  predicate Makes(env: Env, d: Decoder, raw: Raw, e: Event)
    requires Valid(d)
  {
    && InRange(e.slot)
    && (Lifts(d, raw, e) || TakesOver(d, raw, e) || Starts(d, raw, e) || Shows(env, d, raw, e) || Loses(d, raw, e))
  }

  // ---------- What a call publishes at once ----------

  /** Every known contact is cancelled at the latest time any slot spoke. */
  predicate CancelsAll(d: Decoder, e: Event)
    requires |d.slot| == TOUCH_MAX_SLOTS
  {
    && InRange(e.slot) && d.slot[e.slot].announced
    && e == Here(Cancel, d.slot[e.slot], e.slot, LatestSpoke(d.slot, TOUCH_MAX_SLOTS))
  }

  /** Slot `s` held a contact and has said nothing for more than half a second. */
  predicate Forgets(d: Decoder, s: int, now: real)
    requires |d.slot| == TOUCH_MAX_SLOTS
  {
    InRange(s) && (d.slot[s].active || d.slot[s].announced) && now - d.slot[s].lastSpoke > 0.5
  }

  predicate Expires(d: Decoder, now: real, e: Event)
    requires |d.slot| == TOUCH_MAX_SLOTS
  {
    Forgets(d, e.slot, now) && d.slot[e.slot].announced && e == Here(Cancel, d.slot[e.slot], e.slot, now)
  }

  /** The driver says that it holds a contact on the slot of `e`, and where. */
  predicate Holds(env: Env, p: Probed, flipped: bool, t: real, n: nat, e: Event) {
    && p.Answer? && n <= TOUCH_MAX_SLOTS && InRange(e.slot)
    && var k := e.slot - p.minimum;
       && 0 <= k < n && p.ids[k] >= 0
       && e == Event(Down, e.slot, env.smooth([(env.flip(true, p.xs[k], flipped), 0.0)]),
                     env.smooth([(env.flip(false, p.ys[k], flipped), 0.0)]), t)
  }

  /** How many slots the driver is asked about: those of its range, at most as many as there are here. */
  function Asked(p: Probed): nat {
    if p.Failed? || p.maximum < p.minimum then 0
    else if p.maximum - p.minimum >= TOUCH_MAX_SLOTS then TOUCH_MAX_SLOTS else p.maximum - p.minimum + 1
  }

  predicate Finds(env: Env, p: Probed, flipped: bool, t: real, e: Event) {
    Holds(env, p, flipped, t, Asked(p), e)
  }

  // ---------- Steps ----------

  /** The decoder a step's record is fed to, if it is fed. */
  function Fed(env: Env, d: Decoder, step: C.Step): (r: Option<Decoder>)
    requires Valid(d) && Owing(d)
    ensures r.Some? ==> Valid(r.value) && |r.value.slot| == TOUCH_MAX_SLOTS && (step.Raw? || step.FromDevice?)
  {
    match step
    case Raw(_) => Some(d)
    case FromDevice(_, before, _) =>
      if !d.resyncNeeded then Some(d)
      else if Asked(before) > 0 then ResyncKeepsValid(env, d, before); Some(Resync(env, d, before))
      else None
    case _ => None
  }

  function RecordOf(step: C.Step): Raw
    requires step.Raw? || step.FromDevice?
  {
    if step.Raw? then step.raw else step.record
  }

  /** The step makes `e` pending. */
  predicate Pends(env: Env, d: Decoder, step: C.Step, e: Event)
    requires Valid(d) && Owing(d)
  {
    Fed(env, d, step).Some? && Makes(env, Fed(env, d, step).value, RecordOf(step), e)
  }

  /** The step reports: what is pending is published. */
  predicate Reports(env: Env, d: Decoder, step: C.Step)
    requires Valid(d) && Owing(d)
  {
    Fed(env, d, step).Some? && IsReport(RecordOf(step))
  }

  /** The step drops what is pending on slot `s`: a loss, a change of orientation, a cancel-all, or silence. */
  predicate Drops(env: Env, d: Decoder, step: C.Step, s: int)
    requires Valid(d) && Owing(d)
  {
    match step
    case Raw(_) => IsDrop(step.raw)
    case FromDevice(raw, _, _) => Fed(env, d, step).Some? && IsDrop(raw)
    case Flip(b) => b != d.flipped
    case CancelEverything => true
    case Expire(now) => Forgets(d, s, now)
    case _ => false
  }

  /** The step gives the pending DOWN or MOVE `e` a new position. */
  predicate Rewrites(env: Env, d: Decoder, step: C.Step, e: Event)
    requires Valid(d) && Owing(d)
  {
    && !Ends(e) && InRange(e.slot) && Fed(env, d, step).Some?
    && Positions(Fed(env, d, step).value, RecordOf(step), e.slot)
  }

  /** The step publishes `e` without a report. */
  predicate Publishes(env: Env, d: Decoder, step: C.Step, e: Event)
    requires Valid(d) && Owing(d)
  {
    match step
    case Flip(b) => b != d.flipped && CancelsAll(d, e)
    case CancelEverything => CancelsAll(d, e)
    case Expire(now) => Expires(d, now, e)
    case Retry(p) => d.resyncNeeded && Finds(env, p, d.flipped, d.resyncTime, e)
    case FromDevice(raw, before, after) =>
      || (d.resyncNeeded && Finds(env, before, d.flipped, d.resyncTime, e))
      || (Fed(env, d, step).Some? && Fed(env, d, step).value.discarding && IsReport(raw)
          && Finds(env, after, d.flipped, raw.t, e))
    case _ => false
  }

  // ---------- One record ----------

  lemma {:induction false} CancelsExactly(slot: seq<Slot>, n: nat, t: real, e: Event)
    requires n <= |slot|
    ensures e in CancelEvents(slot, n, t) <==>
            0 <= e.slot < n && slot[e.slot].announced && e == Here(Cancel, slot[e.slot], e.slot, t)
  {
    if n > 0 { CancelsExactly(slot, n - 1, t, e); }
  }

  lemma SlotsOfValid(d: Decoder)
    requires Valid(d)
    ensures |d.slot| == TOUCH_MAX_SLOTS
  {
  }

  lemma TrackingFrame(d: Decoder, value: int, t: real)
    requires Valid(d) && InRange(d.currentSlot)
    ensures var s, r := d.currentSlot, HandleTrackingId(d, value, t);
            var sl := d.slot[s];
            r.ready == d.ready && r.frame ==
            if value == -1 then (if sl.active then d.frame + [Here(Up, sl, s, t)] else d.frame)
            else if sl.active && sl.trackingId == value then d.frame
            else if sl.active then d.frame + [Here(Cancel, sl, s, t)] + [Here(Down, sl, s, t)]
            else d.frame + [Here(Down, sl, s, t)]
  {
  }

  lemma PositionFrame(env: Env, d: Decoder, isX: bool, value: int, t: real)
    requires Valid(d) && !d.discarding && InRange(d.currentSlot)
    ensures var s, r := d.currentSlot, HandlePosition(env, d, isX, value, t);
            var last := LastIndex(d.frame, s);
            && r.ready == d.ready && |r.slot| == TOUCH_MAX_SLOTS
            && (!d.slot[s].active ==> r.frame == d.frame)
            && (d.slot[s].active && last < 0 ==> r.frame == d.frame + [Here(Move, r.slot[s], s, t)])
            && (d.slot[s].active && last >= 0 ==>
                  StartsOrMoves(d.frame[last].kind) && r.frame == d.frame[last := Here(d.frame[last].kind, r.slot[s], s, t)])
  {
    hide Moved;
    var s := d.currentSlot;
    assert SlotValid(d, s);
    C.MovedFlags(env, d.slot[s].(lastSpoke := t), isX, value, d.flipped, t);
  }

  /** Replacing one element: what is found afterwards. */
  lemma UpdateMembers(es: seq<Event>, i: nat, r: Event, e: Event)
    requires i < |es|
    ensures r in es[i := r]
    ensures e in es[i := r] ==> e == r || e in es
    ensures e in es && e != es[i] ==> e in es[i := r]
  {
    assert es[i := r][i] == r;
    if e in es && e != es[i] {
      var j :| 0 <= j < |es| && es[j] == e;
      assert es[i := r][j] == e;
    }
  }

  /** A record makes exactly its own events pending; what was pending stays, but for a report, a loss, and the
      event that takes a new position. */
  ghost predicate Accounts(env: Env, d: Decoder, raw: Raw, r: Decoder, e: Event)
    requires Valid(d)
  {
    && (Makes(env, d, raw, e) ==> e in r.frame)
    && (e in r.frame ==> Makes(env, d, raw, e) || (e in d.frame && !IsDrop(raw) && !IsReport(raw)))
    && (e in d.frame && !IsDrop(raw) && !IsReport(raw)
        && !(!Ends(e) && InRange(e.slot) && Positions(d, raw, e.slot))
        ==> e in r.frame)
    && (e in r.ready <==> e in d.ready || (IsReport(raw) && e in d.frame))
  }

  lemma TrackingAccounts(env: Env, d: Decoder, raw: Raw, e: Event)
    requires Valid(d) && !d.discarding && Tracks(raw)
    ensures Accounts(env, d, raw, FeedOne(env, d, raw), e)
  {
    hide Valid, HandleTrackingId, HandlePosition, Publish, CancelToFrame;
    SlotsOfValid(d);
    if InRange(d.currentSlot) {
      TrackingFrame(d, raw.value, raw.t);
      hide FeedOne, Shows;
      if InRange(e.slot) { NotShown(env, d, raw, e); }
      FeedTracks(env, d, raw);
    } else {
      OutOfRangeTracking(d, raw.value, raw.t);
    }
  }

  lemma FeedTracks(env: Env, d: Decoder, raw: Raw)
    requires Valid(d) && !d.discarding && Tracks(raw)
    ensures FeedOne(env, d, raw) == HandleTrackingId(d, raw.value, raw.t)
  {
  }

  lemma NotShown(env: Env, d: Decoder, raw: Raw, e: Event)
    requires Valid(d) && Tracks(raw) && InRange(e.slot)
    ensures !Shows(env, d, raw, e)
  {
  }

  lemma OutOfRangeTracking(d: Decoder, value: int, t: real)
    requires Valid(d) && !InRange(d.currentSlot)
    ensures HandleTrackingId(d, value, t) == d
  {
  }

  lemma PositionAccounts(env: Env, d: Decoder, raw: Raw, e: Event)
    requires Valid(d) && !d.discarding && (Places(raw, true) || Places(raw, false))
    ensures Accounts(env, d, raw, FeedOne(env, d, raw), e)
  {
    hide Valid, HandleTrackingId, HandlePosition, Publish, CancelToFrame;
    SlotsOfValid(d);
    var s := d.currentSlot;
    if InRange(s) {
      PositionFrame(env, d, Places(raw, true), raw.value, raw.t);
      var last, r := LastIndex(d.frame, s), FeedOne(env, d, raw);
      if d.slot[s].active && last >= 0 {
        UpdateMembers(d.frame, last, Here(d.frame[last].kind, r.slot[s], s, raw.t), e);
      }
    } else {
      OutOfRangePosition(env, d, Places(raw, true), raw.value, raw.t);
    }
  }

  lemma OutOfRangePosition(env: Env, d: Decoder, isX: bool, value: int, t: real)
    requires Valid(d) && !d.discarding && !InRange(d.currentSlot)
    ensures HandlePosition(env, d, isX, value, t) == d
  {
  }

  lemma FeedAccounts(env: Env, d: Decoder, raw: Raw, e: Event)
    requires Valid(d)
    ensures Accounts(env, d, raw, FeedOne(env, d, raw), e)
  {
    if IsDrop(raw) {
      CancelsExactly(d.slot, TOUCH_MAX_SLOTS, raw.t, e);
    } else if IsReport(raw) {
      C.OnlyReportsPublish(env, d, raw);
    } else if !d.discarding && Tracks(raw) {
      TrackingAccounts(env, d, raw, e);
    } else if !d.discarding && (Places(raw, true) || Places(raw, false)) {
      PositionAccounts(env, d, raw, e);
    }
  }

  // ---------- The other calls ----------

  lemma {:induction false} ResyncBelowFinds(env: Env, d: Decoder, p: Probed, n: nat, t: real, e: Event)
    requires |d.slot| == TOUCH_MAX_SLOTS && n <= TOUCH_MAX_SLOTS && p.Answer?
    ensures e in ResyncBelow(env, d, p, n, t).ready <==> e in d.ready || Holds(env, p, d.flipped, t, n, e)
  {
    if n > 0 {
      ResyncBelowFinds(env, d, p, n - 1, t, e);
      ResyncBelowFrame(env, d, p, n - 1, t);
    }
  }

  lemma ResyncFinds(env: Env, d: Decoder, p: Probed, e: Event)
    requires |d.slot| == TOUCH_MAX_SLOTS
    ensures var r := Resync(env, d, p);
            && (e in r.ready <==> e in d.ready || Finds(env, p, d.flipped, d.resyncTime, e))
            && r.frame == d.frame && r.discarding == d.discarding && r.flipped == d.flipped
    ensures Usable(p) <==> Asked(p) > 0
    ensures Finds(env, p, d.flipped, d.resyncTime, e) ==> Usable(p)
  {
    if Usable(p) {
      ResyncBelowFinds(env, d.(currentSlot := p.value), p, SlotCount(p), d.resyncTime, e);
      ResyncBelowFrame(env, d.(currentSlot := p.value), p, SlotCount(p), d.resyncTime);
    }
  }

  lemma ExpireOneAccounts(d: Decoder, n: nat, now: real, e: Event)
    requires |d.slot| == TOUCH_MAX_SLOTS && InRange(n)
    ensures var r, silent := ExpireSlot(d, n, now), Silent(d.slot[n], now);
            && (e in r.frame <==> e in d.frame && !(silent && e.slot == n))
            && (e in r.ready <==>
                e in d.ready || (silent && d.slot[n].announced && e == Here(Cancel, d.slot[n], n, now)))
            && forall s | InRange(s) && s != n :: r.slot[s] == d.slot[s].(frameEvent := r.slot[s].frameEvent)
  {
    WithoutMembers(d.frame, n);
  }

  lemma {:induction false} ExpireBelowAccounts(d: Decoder, n: nat, now: real, e: Event)
    requires |d.slot| == TOUCH_MAX_SLOTS && n <= TOUCH_MAX_SLOTS
    ensures var r := ExpireBelow(d, n, now);
            && (e in r.frame <==> e in d.frame && !(e.slot < n && Forgets(d, e.slot, now)))
            && (e in r.ready <==> e in d.ready || (e.slot < n && Expires(d, now, e)))
            && forall s | n <= s < TOUCH_MAX_SLOTS :: r.slot[s] == d.slot[s].(frameEvent := r.slot[s].frameEvent)
  {
    hide ExpireSlot;
    if n > 0 {
      ExpireBelowAccounts(d, n - 1, now, e);
      ExpireOneAccounts(ExpireBelow(d, n - 1, now), n - 1, now, e);
    }
  }

  // ---------- Every step ----------

  /** `e` is pending after a step exactly when the step makes it pending or leaves it there, and published
      exactly when it was, the step reports it, or the step publishes it at once. */
  ghost predicate StepAccounts(env: Env, st: C.Stream, step: C.Step, r: C.Stream, e: Event)
    requires Valid(st.d) && Owing(st.d)
  {
    var stays := e in st.d.frame && !Drops(env, st.d, step, e.slot) && !Reports(env, st.d, step);
    && (Pends(env, st.d, step, e) ==> e in r.d.frame)
    && (e in r.d.frame ==> Pends(env, st.d, step, e) || stays)
    && (stays && !Rewrites(env, st.d, step, e) ==> e in r.d.frame)
    && (e in r.History() <==>
        e in st.History() || (Reports(env, st.d, step) && e in st.d.frame) || Publishes(env, st.d, step, e))
  }

  lemma RecordAccounts(env: Env, st: C.Stream, step: C.Step, e: Event)
    requires Valid(st.d) && Owing(st.d) && step.FromDevice?
    ensures StepAccounts(env, st, step, C.Apply(env, st, step), e)
  {
    hide FeedOne, Makes, Resync, Valid, Finds, Usable, Asked, Rewrites;
    var d, raw := st.d, step.record;
    assert |d.slot| == TOUCH_MAX_SLOTS by { SlotsOfValid(d); }
    ResyncFinds(env, d, step.before, e);
    var from := Fed(env, d, step);
    if from.Some? {
      FeedAccounts(env, from.value, raw, e);
      RewritesRecord(env, d, step, e);
      FeedFlags(env, from.value, raw);
      var fed := FeedOne(env, from.value, raw);
      FeedFlipped(env, from.value, raw);
      if IsReport(raw) {
        FeedKeepsValid(env, from.value, raw);
        SlotsOfValid(fed);
        C.OnlyReportsPublish(env, from.value, raw);
        ResyncFinds(env, fed.(resyncNeeded := true, resyncTime := raw.t), step.after, e);
      }
    }
  }

  lemma RewritesRecord(env: Env, d: Decoder, step: C.Step, e: Event)
    requires Valid(d) && Owing(d) && Fed(env, d, step).Some?
    ensures Rewrites(env, d, step, e) <==>
            !Ends(e) && InRange(e.slot) && Positions(Fed(env, d, step).value, RecordOf(step), e.slot)
  {
  }

  lemma FeedFlipped(env: Env, d: Decoder, raw: Raw)
    requires Valid(d)
    ensures FeedOne(env, d, raw).flipped == d.flipped
  {
    hide Moved;
  }

  lemma CancelAccounts(env: Env, st: C.Stream, step: C.Step, e: Event)
    requires Valid(st.d) && Owing(st.d) && (step.Flip? || step.CancelEverything?)
    ensures StepAccounts(env, st, step, C.Apply(env, st, step), e)
  {
    hide CancelEvents, LatestSpoke, Valid, Owing, FeedOne, Record, ExpireBelow, Resync;
    SlotsOfValid(st.d);
    CancelsExactly(st.d.slot, TOUCH_MAX_SLOTS, LatestSpoke(st.d.slot, TOUCH_MAX_SLOTS), e);
  }

  lemma ExpireAccounts(env: Env, st: C.Stream, step: C.Step, e: Event)
    requires Valid(st.d) && Owing(st.d) && step.Expire?
    ensures StepAccounts(env, st, step, C.Apply(env, st, step), e)
  {
    ExpireBelowAccounts(st.d, TOUCH_MAX_SLOTS, step.now, e);
    assert e in st.d.frame ==> InRange(e.slot);
    hide ExpireBelow, Valid;
  }

  lemma DrainAccounts(env: Env, st: C.Stream, step: C.Step, e: Event)
    requires Valid(st.d) && Owing(st.d) && step.Drain?
    ensures StepAccounts(env, st, step, C.Apply(env, st, step), e)
  {
    var (d, out) := Drained(st.d, step.max);
    assert C.Stream(d, st.delivered + out).History() == st.History();
  }

  lemma StepAccount(env: Env, st: C.Stream, step: C.Step, e: Event)
    requires Valid(st.d) && Owing(st.d)
    ensures StepAccounts(env, st, step, C.Apply(env, st, step), e)
  {
    match step
    case Raw(raw) => FeedAccounts(env, st.d, raw, e); hide FeedOne, Makes, Valid;
    case FromDevice(_, _, _) => RecordAccounts(env, st, step, e);
    case Retry(p) => ResyncFinds(env, st.d, p, e); hide Resync, Finds, Valid;
    case Expire(_) => ExpireAccounts(env, st, step, e);
    case Drain(_) => DrainAccounts(env, st, step, e);
    case _ => CancelAccounts(env, st, step, e);
  }

  // ---------- Runs ----------

  /** The decoder that a run's step hears its record with; `at` is a step of the run. */
  ghost function HeardBy(env: Env, steps: seq<C.Step>, states: seq<C.Stream>, at: nat): (r: Option<Decoder>)
    requires C.IsRun(env, steps, states) && at < |steps|
    ensures r.Some? ==> |r.value.slot| == TOUCH_MAX_SLOTS && (steps[at].Raw? || steps[at].FromDevice?)
  {
    Fed(env, states[at].d, steps[at])
  }

  ghost predicate PendsAt(env: Env, steps: seq<C.Step>, states: seq<C.Stream>, at: nat, e: Event)
    requires C.IsRun(env, steps, states) && at < |steps|
  {
    Pends(env, states[at].d, steps[at], e)
  }

  ghost predicate ReportsAt(env: Env, steps: seq<C.Step>, states: seq<C.Stream>, at: nat)
    requires C.IsRun(env, steps, states) && at < |steps|
  {
    Reports(env, states[at].d, steps[at])
  }

  ghost predicate PublishesAt(env: Env, steps: seq<C.Step>, states: seq<C.Stream>, at: nat, e: Event)
    requires C.IsRun(env, steps, states) && at < |steps|
  {
    Publishes(env, states[at].d, steps[at], e)
  }

  ghost predicate DropsAt(env: Env, steps: seq<C.Step>, states: seq<C.Stream>, at: nat, s: int)
    requires C.IsRun(env, steps, states) && at < |steps|
  {
    Drops(env, states[at].d, steps[at], s)
  }

  ghost predicate RewritesAt(env: Env, steps: seq<C.Step>, states: seq<C.Stream>, at: nat, e: Event)
    requires C.IsRun(env, steps, states) && at < |steps|
  {
    Rewrites(env, states[at].d, steps[at], e)
  }

  /** From step `j` on and before step `i` nothing is reported and the slot's pending events are not dropped. */
  ghost predicate Waits(env: Env, steps: seq<C.Step>, states: seq<C.Stream>, j: nat, i: nat, s: int)
    requires C.IsRun(env, steps, states) && i <= |steps|
  {
    forall m :: j <= m < i ==> !ReportsAt(env, steps, states, m) && !DropsAt(env, steps, states, m, s)
  }

  /** Nor is `e` given a new position. */
  ghost predicate Unmoved(env: Env, steps: seq<C.Step>, states: seq<C.Stream>, j: nat, i: nat, e: Event)
    requires C.IsRun(env, steps, states) && i <= |steps|
  {
    forall m :: j <= m < i ==> !RewritesAt(env, steps, states, m, e)
  }

  lemma EndsUnmoved(env: Env, steps: seq<C.Step>, states: seq<C.Stream>, j: nat, i: nat, e: Event)
    requires C.IsRun(env, steps, states) && i <= |steps| && Ends(e)
    ensures Unmoved(env, steps, states, j, i, e)
  {
  }

  lemma RunAccount(env: Env, steps: seq<C.Step>, states: seq<C.Stream>, at: nat, e: Event)
    requires C.IsRun(env, steps, states) && at < |steps|
    ensures var st, r := states[at], states[at + 1];
            var stays := e in st.d.frame && !DropsAt(env, steps, states, at, e.slot) && !ReportsAt(env, steps, states, at);
            && (PendsAt(env, steps, states, at, e) ==> e in r.d.frame)
            && (e in r.d.frame ==> PendsAt(env, steps, states, at, e) || stays)
            && (stays && !RewritesAt(env, steps, states, at, e) ==> e in r.d.frame)
            && (e in r.History() <==>
                e in st.History() || (ReportsAt(env, steps, states, at) && e in st.d.frame)
                || PublishesAt(env, steps, states, at, e))
  {
    StepAccount(env, states[at], steps[at], e);
    hide Valid, Owing, C.Apply, C.Legal, Pends, Reports, Drops, Rewrites, Publishes;
  }

  /** What is pending was made so by an earlier step and has waited since. */
  lemma {:induction false} PendingBecause(env: Env, steps: seq<C.Step>, states: seq<C.Stream>, i: nat, e: Event)
    returns (j: nat)
    requires C.IsRun(env, steps, states) && i <= |steps| && e in states[i].d.frame
    ensures j < i && PendsAt(env, steps, states, j, e) && Waits(env, steps, states, j + 1, i, e.slot)
  {
    hide Valid, Owing, C.Apply, C.Legal, PendsAt, ReportsAt, DropsAt, RewritesAt, PublishesAt;
    RunAccount(env, steps, states, i - 1, e);
    if PendsAt(env, steps, states, i - 1, e) {
      j := i - 1;
    } else {
      j := PendingBecause(env, steps, states, i - 1, e);
    }
  }

  /** What a step makes pending is pending for as long as it waits and is not moved. */
  lemma {:induction false} PendingWaits(env: Env, steps: seq<C.Step>, states: seq<C.Stream>, j: nat, i: nat, e: Event)
    requires C.IsRun(env, steps, states) && j < i <= |steps| && PendsAt(env, steps, states, j, e)
    requires Waits(env, steps, states, j + 1, i, e.slot) && Unmoved(env, steps, states, j + 1, i, e)
    ensures e in states[i].d.frame
  {
    hide Valid, Owing, C.Apply, C.Legal, PendsAt, ReportsAt, DropsAt, RewritesAt, PublishesAt;
    RunAccount(env, steps, states, i - 1, e);
    if j < i - 1 {
      PendingWaits(env, steps, states, j, i - 1, e);
      assert !ReportsAt(env, steps, states, i - 1);
    }
  }

  /** What is published stays published. */
  lemma {:induction false} PublishedStays(env: Env, steps: seq<C.Step>, states: seq<C.Stream>, j: nat, i: nat, e: Event)
    requires C.IsRun(env, steps, states) && j <= i <= |steps| && e in states[j].History()
    ensures e in states[i].History()
  {
    hide Valid, Owing, C.Apply, C.Legal, PendsAt, ReportsAt, DropsAt, RewritesAt, PublishesAt;
    if j < i {
      RunAccount(env, steps, states, i - 1, e);
      PublishedStays(env, steps, states, j, i - 1, e);
    }
  }

  /** Made pending by step `j`, still there when step `k` reports. */
  ghost predicate Travels(env: Env, steps: seq<C.Step>, states: seq<C.Stream>, j: nat, k: nat, e: Event)
    requires C.IsRun(env, steps, states) && j < k < |steps|
  {
    && PendsAt(env, steps, states, j, e) && Waits(env, steps, states, j + 1, k, e.slot)
    && ReportsAt(env, steps, states, k)
  }

  /** Everything published was published at once by a call, or made pending by a record and then reported. */
  lemma {:induction false} PublishedBecause(env: Env, steps: seq<C.Step>, states: seq<C.Stream>, i: nat, e: Event)
    requires C.IsRun(env, steps, states) && i <= |steps| && e in states[i].History()
    ensures (exists j: nat :: j < i && PublishesAt(env, steps, states, j, e))
            || (exists j: nat, k: nat :: j < k < i && Travels(env, steps, states, j, k, e))
  {
    hide Valid, Owing, C.Apply, C.Legal, PendsAt, ReportsAt, DropsAt, RewritesAt, PublishesAt;
    if i > 0 {
      RunAccount(env, steps, states, i - 1, e);
      if e in states[i - 1].History() {
        PublishedBecause(env, steps, states, i - 1, e);
      } else if PublishesAt(env, steps, states, i - 1, e) {
      } else {
        var j := PendingBecause(env, steps, states, i - 1, e);
        assert Travels(env, steps, states, j, i - 1, e);
      }
    }
  }

  /** What a record makes pending is published by the next report, unless it is dropped or moved before. */
  lemma MadeIsPublished(env: Env, steps: seq<C.Step>, states: seq<C.Stream>, j: nat, k: nat, i: nat, e: Event)
    requires C.IsRun(env, steps, states) && j < k < i <= |steps|
    requires Travels(env, steps, states, j, k, e) && Unmoved(env, steps, states, j + 1, k, e)
    ensures e in states[i].History()
  {
    hide Valid, Owing, C.Apply, C.Legal, PendsAt, ReportsAt, DropsAt, RewritesAt, PublishesAt;
    PendingWaits(env, steps, states, j, k, e);
    RunAccount(env, steps, states, k, e);
    PublishedStays(env, steps, states, k + 1, i, e);
  }

  /** An UP or CANCEL is published exactly when a record made it pending and a report came before anything
      dropped it, or a call published it at once. */
  lemma EndsExactly(env: Env, steps: seq<C.Step>, states: seq<C.Stream>, i: nat, e: Event)
    requires C.IsRun(env, steps, states) && i <= |steps| && Ends(e)
    ensures e in states[i].History() <==>
            || (exists j: nat :: j < i && PublishesAt(env, steps, states, j, e))
            || (exists j: nat, k: nat :: j < k < i && Travels(env, steps, states, j, k, e))
  {
    hide Valid, Owing, C.Apply, C.Legal, PendsAt, ReportsAt, DropsAt, RewritesAt, PublishesAt;
    if e in states[i].History() {
      PublishedBecause(env, steps, states, i, e);
    } else {
      forall j: nat | j < i ensures !PublishesAt(env, steps, states, j, e) {
        RunAccount(env, steps, states, j, e);
        if PublishesAt(env, steps, states, j, e) { PublishedStays(env, steps, states, j + 1, i, e); }
      }
      forall j: nat, k: nat | j < k < i ensures !Travels(env, steps, states, j, k, e) {
        EndsUnmoved(env, steps, states, j + 1, k, e);
        if Travels(env, steps, states, j, k, e) { MadeIsPublished(env, steps, states, j, k, i, e); }
      }
    }
  }

  /** Whatever is published or pending was made pending by a record or published at once by a call. */
  lemma Because(env: Env, steps: seq<C.Step>, states: seq<C.Stream>, i: nat, e: Event) returns (j: nat)
    requires C.IsRun(env, steps, states) && i <= |steps|
    requires e in states[i].History() || e in states[i].d.frame
    ensures j < i && (PendsAt(env, steps, states, j, e) || PublishesAt(env, steps, states, j, e))
  {
    hide Valid, Owing, C.Apply, C.Legal, PendsAt, ReportsAt, DropsAt, RewritesAt, PublishesAt;
    if e in states[i].History() {
      PublishedBecause(env, steps, states, i, e);
      if !exists j: nat :: j < i && PublishesAt(env, steps, states, j, e) {
        var k: nat;
        j, k :| j < k < i && Travels(env, steps, states, j, k, e);
      } else {
        j :| j < i && PublishesAt(env, steps, states, j, e);
      }
    } else {
      j := PendingBecause(env, steps, states, i, e);
    }
  }

  /** Step `j` feeds a record that lifts the contact `e` tells of. */
  ghost predicate LiftsAt(env: Env, steps: seq<C.Step>, states: seq<C.Stream>, j: nat, e: Event)
    requires C.IsRun(env, steps, states) && j < |steps|
  {
    && InRange(e.slot) && HeardBy(env, steps, states, j).Some?
    && Lifts(HeardBy(env, steps, states, j).value, RecordOf(steps[j]), e)
  }

  /** Every UP, published or pending, is a contact that a record lifted: id -1, where and when it lifted. */
  lemma UpMeansLift(env: Env, steps: seq<C.Step>, states: seq<C.Stream>, i: nat, e: Event)
    requires C.IsRun(env, steps, states) && i <= |steps| && e.kind.Up?
    requires e in states[i].History() || e in states[i].d.frame
    ensures exists j: nat :: j < i && LiftsAt(env, steps, states, j, e)
  {
    hide Valid, Owing, C.Apply, C.Legal, Fed, LatestSpoke;
    var j := Because(env, steps, states, i, e);
    assert LiftsAt(env, steps, states, j, e);
  }

  /** Step `j` loses the contact `e` tells of: a loss of records, another contact on its slot, a change of
      orientation, a cancel-all, or half a second of silence. */
  ghost predicate LosesAt(env: Env, steps: seq<C.Step>, states: seq<C.Stream>, j: nat, e: Event)
    requires C.IsRun(env, steps, states) && j < |steps|
  {
    var d, step, from := states[j].d, steps[j], HeardBy(env, steps, states, j);
    && InRange(e.slot)
    && (|| (from.Some? && (Loses(from.value, RecordOf(step), e) || TakesOver(from.value, RecordOf(step), e)))
        || (step.Flip? && step.flipped != d.flipped && CancelsAll(d, e))
        || (step.CancelEverything? && CancelsAll(d, e))
        || (step.Expire? && Expires(d, step.now, e)))
  }

  /** Every CANCEL, published or pending, is a contact lost in one of these ways, and in no other. */
  lemma CancelMeansLoss(env: Env, steps: seq<C.Step>, states: seq<C.Stream>, i: nat, e: Event)
    requires C.IsRun(env, steps, states) && i <= |steps| && e.kind.Cancel?
    requires e in states[i].History() || e in states[i].d.frame
    ensures exists j: nat :: j < i && LosesAt(env, steps, states, j, e)
  {
    hide Valid, Owing, C.Apply, C.Legal, Fed, LatestSpoke;
    var j := Because(env, steps, states, i, e);
    assert LosesAt(env, steps, states, j, e);
  }

  /** Step `j` begins the contact `e` tells of or gives it a position, or learns of it from the driver. */
  ghost predicate TellsAt(env: Env, steps: seq<C.Step>, states: seq<C.Stream>, j: nat, e: Event)
    requires C.IsRun(env, steps, states) && j < |steps|
  {
    var step, from := steps[j], HeardBy(env, steps, states, j);
    && InRange(e.slot)
    && (|| (from.Some? && (Starts(from.value, RecordOf(step), e) || Shows(env, from.value, RecordOf(step), e)))
        || (e.kind.Down? && (step.Retry? || step.FromDevice?) && PublishesAt(env, steps, states, j, e)))
  }

  /** Every DOWN or MOVE, published or pending, tells of a contact that a record began or gave a position,
      where that record left it and when, or it is the DOWN of a contact the driver says it holds. */
  lemma DownOrMoveTells(env: Env, steps: seq<C.Step>, states: seq<C.Stream>, i: nat, e: Event)
    requires C.IsRun(env, steps, states) && i <= |steps| && !Ends(e)
    requires e in states[i].History() || e in states[i].d.frame
    ensures exists j: nat :: j < i && TellsAt(env, steps, states, j, e)
  {
    hide Valid, Owing, C.Apply, C.Legal, Fed, LatestSpoke;
    var j := Because(env, steps, states, i, e);
    assert TellsAt(env, steps, states, j, e);
  }

  /** Id -1 on a slot with a contact down gives an UP there, at that place and time, in the frame that the next
      report publishes, unless the slot's events are dropped in between. */
  lemma LiftIsPublished(env: Env, steps: seq<C.Step>, states: seq<C.Stream>, j: nat, k: nat, i: nat, s: int)
    requires C.IsRun(env, steps, states) && j < k < i <= |steps| && InRange(s)
    requires HeardBy(env, steps, states, j).Some? && ReportsAt(env, steps, states, k)
    requires var d, raw := HeardBy(env, steps, states, j).value, RecordOf(steps[j]);
             && raw.kind == 3 && raw.code == 0x39 && raw.value == -1
             && !d.discarding && d.currentSlot == s && d.slot[s].active
    requires Waits(env, steps, states, j + 1, k, s)
    ensures var d, raw := HeardBy(env, steps, states, j).value, RecordOf(steps[j]);
            var e := Event(Up, s, d.slot[s].x, d.slot[s].y, raw.t);
            e in states[k].d.frame && e in states[i].History()
  {
    hide Valid, Owing, C.Apply, C.Legal, Fed, LatestSpoke;
    var d, raw := HeardBy(env, steps, states, j).value, RecordOf(steps[j]);
    var e := Event(Up, s, d.slot[s].x, d.slot[s].y, raw.t);
    assert Lifts(d, raw, e);
    assert PendsAt(env, steps, states, j, e);
    EndsUnmoved(env, steps, states, j + 1, k, e);
    PendingWaits(env, steps, states, j, k, e);
    MadeIsPublished(env, steps, states, j, k, i, e);
  }

  // ---------- The time of a cancel, and the state after a resync ----------

  /** The latest time any slot spoke, but at least 0. */
  lemma {:induction false} LatestMeaning(slot: seq<Slot>, n: nat)
    requires n <= |slot|
    ensures var t := LatestSpoke(slot, n);
            && t >= 0.0 && (forall s | 0 <= s < n :: slot[s].lastSpoke <= t)
            && (t == 0.0 || exists s | 0 <= s < n :: slot[s].lastSpoke == t)
  {
    if n > 0 { LatestMeaning(slot, n - 1); }
  }

  /** The slots after the first `n` answers: those the driver holds are contacts announced at time `t`, with
      one sample each; the others are as they were. */
  predicate TakenOver(env: Env, d: Decoder, p: Probed, n: nat, t: real, r: Decoder, s: int)
    requires |d.slot| == |r.slot| == TOUCH_MAX_SLOTS && n <= TOUCH_MAX_SLOTS && p.Answer? && InRange(s)
  {
    var k, sl := s - p.minimum, r.slot[s];
    if 0 <= k < n && p.ids[k] >= 0 then
      && sl.active && sl.announced && sl.trackingId == p.ids[k] && sl.lastSpoke == t
      && sl.timeStarted && sl.timeOrigin == t && sl.frameEvent == -1
      && sl.fx == [(env.flip(true, p.xs[k], d.flipped), 0.0)] && sl.x == env.smooth(sl.fx)
      && sl.fy == [(env.flip(false, p.ys[k], d.flipped), 0.0)] && sl.y == env.smooth(sl.fy)
    else sl == d.slot[s]
  }

  lemma {:induction false} ResyncBelowTakes(env: Env, d: Decoder, p: Probed, n: nat, t: real)
    requires |d.slot| == TOUCH_MAX_SLOTS && n <= TOUCH_MAX_SLOTS && p.Answer?
    ensures forall s | InRange(s) :: TakenOver(env, d, p, n, t, ResyncBelow(env, d, p, n, t), s)
  {
    if n > 0 {
      hide ResyncOne, TakenOver;
      ResyncBelowTakes(env, d, p, n - 1, t);
      ResyncBelowFrame(env, d, p, n - 1, t);
      forall s | InRange(s) ensures TakenOver(env, d, p, n, t, ResyncBelow(env, d, p, n, t), s) {
        TakesOne(env, d, p, n - 1, t, ResyncBelow(env, d, p, n - 1, t), s);
      }
    }
  }

  lemma TakesOne(env: Env, d: Decoder, p: Probed, k: nat, t: real, e: Decoder, s: int)
    requires |d.slot| == |e.slot| == TOUCH_MAX_SLOTS && k < TOUCH_MAX_SLOTS && p.Answer? && InRange(s)
    requires TakenOver(env, d, p, k, t, e, s) && e.flipped == d.flipped
    ensures TakenOver(env, d, p, k + 1, t, ResyncOne(env, e, p, k, t), s)
  {
  }

  /** After an answered resync the slots hold the contacts the driver named, and records speak to the slot it
      named; without an answer nothing changes. */
  lemma ResyncMeaning(env: Env, d: Decoder, p: Probed)
    requires |d.slot| == TOUCH_MAX_SLOTS
    ensures var r := Resync(env, d, p);
            if Asked(p) > 0 then
              && r.currentSlot == p.value && !r.resyncNeeded && r.frame == d.frame && r.flipped == d.flipped
              && forall s | InRange(s) :: TakenOver(env, d, p, Asked(p), d.resyncTime, r, s)
            else r == d
  {
    if Asked(p) > 0 {
      var e := d.(currentSlot := p.value);
      ResyncBelowTakes(env, e, p, SlotCount(p), d.resyncTime);
      ResyncBelowFrame(env, e, p, SlotCount(p), d.resyncTime);
      var f := ResyncBelow(env, e, p, SlotCount(p), d.resyncTime);
      forall s | InRange(s) ensures TakenOver(env, d, p, Asked(p), d.resyncTime, Resync(env, d, p), s) {
        assert TakenOver(env, e, p, SlotCount(p), d.resyncTime, f, s);
      }
    }
  }

  // ---------- The state after a call ----------

  /** Slot `s` after it was asked about, if `asked`. */
  predicate Forgotten(d: Decoder, now: real, s: int, asked: bool, r: Decoder)
    requires |d.slot| == |r.slot| == TOUCH_MAX_SLOTS && InRange(s)
  {
    r.slot[s] == (if asked && Forgets(d, s, now) then Cleared(d.slot[s]) else d.slot[s]).(frameEvent := r.slot[s].frameEvent)
  }

  lemma {:induction false} ExpireBelowForgets(d: Decoder, n: nat, now: real, s: int)
    requires |d.slot| == TOUCH_MAX_SLOTS && n <= TOUCH_MAX_SLOTS && InRange(s)
    ensures Forgotten(d, now, s, s < n, ExpireBelow(d, n, now))
  {
    if n > 0 {
      hide ExpireSlot, Forgotten;
      ExpireBelowForgets(d, n - 1, now, s);
      ExpireForgets(d, ExpireBelow(d, n - 1, now), n - 1, now, s);
    }
  }

  lemma {:induction false} ExpireBelowRest(d: Decoder, n: nat, now: real)
    requires |d.slot| == TOUCH_MAX_SLOTS && n <= TOUCH_MAX_SLOTS
    ensures var r := ExpireBelow(d, n, now); r == d.(slot := r.slot, frame := r.frame, ready := r.ready)
  {
    if n > 0 { ExpireBelowRest(d, n - 1, now); }
  }

  lemma ExpireForgets(d: Decoder, e: Decoder, n: nat, now: real, s: int)
    requires |d.slot| == |e.slot| == TOUCH_MAX_SLOTS && InRange(n) && InRange(s)
    requires Forgotten(d, now, s, s < n, e)
    ensures Forgotten(d, now, s, s < n + 1, ExpireSlot(e, n, now))
  {
    DiscardKeeps(e, n);
    hide DiscardFrameSlot;
  }

  lemma DiscardKeeps(d: Decoder, n: int)
    requires |d.slot| == TOUCH_MAX_SLOTS
    ensures var r := DiscardFrameSlot(d, n);
            && r == d.(slot := r.slot, frame := r.frame)
            && forall s | InRange(s) :: r.slot[s] == d.slot[s].(frameEvent := r.slot[s].frameEvent)
  {
  }

  /** A loss, a change of orientation, a cancel-all or silence leaves no contact on the slots it drops, and
      leaves the others as they were; every slot stays where it was and was last heard when it was. Only a
      loss moves what records speak to, to slot 0. */
  lemma DropMeaning(env: Env, st: C.Stream, step: C.Step, s: int)
    requires Valid(st.d) && Owing(st.d) && InRange(s)
    requires step.Flip? || step.CancelEverything? || step.Expire? || (step.Raw? && IsDrop(step.raw))
    ensures var d, r := st.d, C.Apply(env, st, step).d;
            && |r.slot| == TOUCH_MAX_SLOTS && r.currentSlot == (if step.Raw? then 0 else d.currentSlot)
            && r.flipped == (if step.Flip? then step.flipped else d.flipped)
            && var was, sl := d.slot[s], r.slot[s];
               && sl.x == was.x && sl.y == was.y && sl.lastSpoke == was.lastSpoke
               && (if Drops(env, d, step, s) then !sl.active && !sl.announced && sl.trackingId == -1
                   else SameContact(sl, was) && sl.announced == was.announced)
  {
    if step.Expire? {
      ExpireBelowForgets(st.d, TOUCH_MAX_SLOTS, step.now, s);
      ExpireBelowRest(st.d, TOUCH_MAX_SLOTS, step.now);
      hide ExpireBelow;
    }
    hide Valid, CancelEvents, LatestSpoke;
  }
}
