/** The decoder feeding the router, as the application joins them: drained events are handled one by
    one, the panel opens and closes in between, and a reset clears both ends. */
module TouchPipeline {
  import opened TouchEvents
  import opened TouchDecoder
  import C = TouchContacts
  import R = TouchRouting

  /** The decoder and what it has handed out since the last reset, the router, and whether since then
      queued CANCELs have been lost or an event that begins or ends a contact has been left unrouted. */
  datatype Pipe = Pipe(st: C.Stream, r: R.Router, lost: bool)

  /** A delivery hands over at most `max` events; `taken` of them are handled before the application
      goes to sleep, and before event `i` it tells the router whether the panel shows. */
  datatype Step =
    | Decode(step: C.Step)
    | Deliver(max: int, taken: nat, shown: int -> bool)
    | Show(open: bool)
    | ResetAll(flipped: bool)

  /** Decoder steps are legal and leave handing out to Deliver. */
  predicate Allowed(p: Pipe, s: Step) {
    s.Decode? ==> !s.step.Drain? && C.Legal(p.st.d, s.step)
  }

  /** The largest time in seconds that still counts in milliseconds, as a double. */
  const TIME_LIMIT := 9223372036854776.0

  /** Event `i` of a delivery reaches the router: its time can be used and sleep was not requested. */
  predicate Handled(e: Event, i: int, taken: int) { i < taken && 0.0 <= e.t < TIME_LIMIT }

  function HandleAll(r: R.Router, es: seq<Event>, taken: int, shown: int -> bool): (out: R.Router)
    requires R.Sized(r)
    ensures R.Sized(out)
  {
    if es == [] then r
    else
      var n := |es| - 1;
      var before := HandleAll(r, es[..n], taken, shown);
      if Handled(es[n], n, taken) then R.Window(R.Route(before.(panelOpen := shown(n)), es[n]).r).0 else before
  }

  /** An event that is not a MOVE is left out. */
  predicate LeavesOut(es: seq<Event>, taken: int) {
    exists i :: 0 <= i < |es| && !es[i].kind.Move? && !Handled(es[i], i, taken)
  }

  function Apply(env: Env, p: Pipe, s: Step): Pipe
    requires Valid(p.st.d) && Owing(p.st.d) && R.Sized(p.r)
  {
    match s
    case Decode(step) => p.(st := C.Apply(env, p.st, step), lost := p.lost || C.Orphaning(p.st.d, step))
    case Deliver(max, taken, shown) =>
      var (d, out) := Drained(p.st.d, max);
      Pipe(C.Stream(d, p.st.delivered + out), HandleAll(p.r, out, taken, shown), p.lost || LeavesOut(out, taken))
    case Show(open) => p.(r := p.r.(panelOpen := open))
    case ResetAll(flipped) =>
      var d := CancelAll(SetFlipped(p.st.d, flipped));
      Pipe(C.Stream(d.(ready := []), []), R.Reset(p.r), false)
  }

  ghost predicate Inv(p: Pipe) {
    C.Inv(p.lost, p.st) && R.Sized(p.r) && (!p.lost ==> R.Agrees(p.r, p.st.delivered))
  }

  lemma HistoryBracketed(st: C.Stream)
    requires C.Inv(false, st)
    ensures Bracketed(st.History())
  {
    forall s ensures Track(false, Closed, st.History(), s) != Broken {
      if InRange(s) {
        assert C.StoryAt(false, st, s);
        C.PublishedUnbroken(false, st, s);
      } else {
        TrackOther(false, Closed, st.History(), s);
      }
    }
  }

  lemma PrefixBracketed(a: seq<Event>, b: seq<Event>)
    requires Bracketed(a + b)
    ensures Bracketed(a)
  {
    forall s ensures Track(false, Closed, a, s) != Broken {
      TrackConcat(false, Closed, a, b, s);
      TrackBroken(false, b, s);
    }
  }

  /** Leaving an event out keeps router and history in agreement exactly when it is a MOVE. */
  lemma LeftOutExactly(r: R.Router, fed: seq<Event>, e: Event)
    requires R.Agrees(r, fed) && InRange(e.slot) && Track(false, Closed, fed + [e], e.slot) != Broken
    ensures R.Agrees(r, fed + [e]) <==> e.kind.Move?
  {
    forall s ensures Track(false, Closed, fed + [e], s) ==
        if s == e.slot then Advance(false, Track(false, Closed, fed, s), e.kind) else Track(false, Closed, fed, s)
    {
      TrackSnoc(false, Closed, fed, e, s);
    }
  }

  lemma HandledAgrees(r: R.Router, fed: seq<Event>, e: Event, open: bool)
    requires R.Agrees(r, fed) && Track(false, Closed, fed + [e], e.slot) != Broken
    ensures R.Agrees(R.Window(R.Route(r.(panelOpen := open), e).r).0, fed + [e])
  {
    R.RouteAgrees(r.(panelOpen := open), fed, e);
  }

  lemma {:induction false} HandleAllAgrees(r: R.Router, fed: seq<Event>, es: seq<Event>, taken: int, shown: int -> bool)
    requires R.Agrees(r, fed) && Bracketed(fed + es) && !LeavesOut(es, taken)
    requires forall e | e in es :: InRange(e.slot)
    ensures R.Agrees(HandleAll(r, es, taken, shown), fed + es)
  {
    if es == [] {
      assert fed + es == fed;
    } else {
      var n := |es| - 1;
      assert fed + es == (fed + es[..n]) + [es[n]];
      PrefixBracketed(fed + es[..n], [es[n]]);
      assert forall i | 0 <= i < n :: es[..n][i] == es[i];
      HandleAllAgrees(r, fed, es[..n], taken, shown);
      assert Track(false, Closed, fed + es, es[n].slot) != Broken;
      if Handled(es[n], n, taken) {
        HandledAgrees(HandleAll(r, es[..n], taken, shown), fed + es[..n], es[n], shown(n));
      } else {
        LeftOutExactly(HandleAll(r, es[..n], taken, shown), fed + es[..n], es[n]);
      }
    }
  }

  lemma DeliverKeeps(env: Env, p: Pipe, max: int, taken: nat, shown: int -> bool)
    requires Inv(p)
    ensures Inv(Apply(env, p, Deliver(max, taken, shown)))
  {
    var (d, out) := Drained(p.st.d, max);
    C.DrainStory(p.lost, p.st, max);
    if !p.lost && !LeavesOut(out, taken) {
      HistoryBracketed(p.st);
      assert p.st.History() == (p.st.delivered + out) + d.ready;
      PrefixBracketed(p.st.delivered + out, d.ready);
      assert forall e | e in out :: e in p.st.History();
      HandleAllAgrees(p.r, p.st.delivered, out, taken, shown);
    } else if !p.lost {
      C.StartLoose(C.Stream(d, p.st.delivered + out));
    }
  }

  lemma DecodeKeeps(env: Env, p: Pipe, step: C.Step)
    requires Inv(p) && Allowed(p, Decode(step))
    ensures Inv(Apply(env, p, Decode(step)))
  {
    DecodeDelivers(env, p.st, step);
    if !p.lost && C.Orphaning(p.st.d, step) {
      C.StartLoose(p.st);
      C.StepStory(true, env, p.st, step);
    } else {
      C.StepStory(p.lost, env, p.st, step);
    }
  }

  lemma CancelAllIdle(d: Decoder)
    requires Valid(d) && Owing(d)
    ensures var r := CancelAll(d).(ready := []);
            Valid(r) && Owing(r) && r.frame == [] && Quiet(r.slot) && !r.discarding
  {
  }

  lemma FlipKeeps(d: Decoder, flipped: bool)
    requires Valid(d) && Owing(d)
    ensures Valid(SetFlipped(d, flipped)) && Owing(SetFlipped(d, flipped))
  {
    forall s | InRange(s) ensures SlotValid(SetFlipped(d, flipped), s) { assert SlotValid(d, s); }
  }

  lemma IdleStory(d: Decoder)
    requires Valid(d) && Owing(d) && d.frame == [] && d.ready == [] && Quiet(d.slot) && !d.discarding
    ensures C.Inv(false, C.Stream(d, []))
  {
    forall s | InRange(s) ensures C.StoryAt(false, C.Stream(d, []), s) {
      assert d.slot[s] in d.slot;
      assert Track(false, Closed, [], s) == Closed;
    }
  }

  /** Cancelling everything leaves an idle decoder from any valid state, so a reset restores
      agreement even where queued CANCELs had been lost. */
  lemma ResetRestores(env: Env, p: Pipe, flipped: bool)
    requires Valid(p.st.d) && Owing(p.st.d) && R.Sized(p.r)
    ensures Inv(Apply(env, p, ResetAll(flipped)))
  {
    FlipKeeps(p.st.d, flipped);
    CancelAllIdle(SetFlipped(p.st.d, flipped));
    IdleStory(CancelAll(SetFlipped(p.st.d, flipped)).(ready := []));
  }

  lemma StepKeeps(env: Env, p: Pipe, s: Step)
    requires Inv(p) && Allowed(p, s)
    ensures Inv(Apply(env, p, s))
  {
    match s
    case Decode(step) => DecodeKeeps(env, p, step);
    case Deliver(max, taken, shown) => DeliverKeeps(env, p, max, taken, shown);
    case Show(_) =>
    case ResetAll(flipped) => ResetRestores(env, p, flipped);
  }

  lemma DecodeDelivers(env: Env, st: C.Stream, step: C.Step)
    requires Valid(st.d) && Owing(st.d) && !step.Drain?
    ensures C.Apply(env, st, step).delivered == st.delivered
  {
  }

  ghost predicate IsRun(env: Env, layout: R.Layout, steps: seq<Step>, states: seq<Pipe>) {
    && |states| == |steps| + 1
    && states[0] == Pipe(C.Stream(Initial(), []), R.Fresh(layout, false), false)
    && (forall i | 0 <= i < |steps| ::
          && Valid(states[i].st.d) && Owing(states[i].st.d) && R.Sized(states[i].r)
          && Allowed(states[i], steps[i])
          && states[i + 1] == Apply(env, states[i], steps[i]))
  }

  lemma {:induction false} RunKeeps(env: Env, layout: R.Layout, steps: seq<Step>, states: seq<Pipe>, i: nat)
    requires IsRun(env, layout, steps, states) && i <= |steps|
    ensures Inv(states[i])
  {
    if i == 0 {
      C.Start(false);
    } else {
      RunKeeps(env, layout, steps, states, i - 1);
      StepKeeps(env, states[i - 1], steps[i - 1]);
    }
  }

  /** With nothing queued, nothing lost or left out since the last reset and no dropped frame in
      progress, the router owns exactly the contacts the decoder has announced, the cube holds
      exactly those owned by the cube, and when none is down an open panel captures the next one. */
  lemma PipelineAgrees(env: Env, layout: R.Layout, steps: seq<Step>, states: seq<Pipe>, i: nat)
    requires IsRun(env, layout, steps, states) && i <= |steps|
    requires states[i].st.d.ready == [] && !states[i].st.d.discarding && !states[i].lost
    ensures var d, r := states[i].st.d, states[i].r;
            && |d.slot| == TOUCH_MAX_SLOTS && R.Sized(r)
            && (forall s | InRange(s) ::
                  && (r.contact[s].owner != R.Nobody <==> d.slot[s].announced)
                  && (r.cube[s].active <==> r.contact[s].owner == R.Cube))
            && (Quiet(d.slot) ==> r.primary == -1)
            && (Quiet(d.slot) && r.panelOpen ==>
                  forall e: Event | InRange(e.slot) && e.kind.Down? ::
                    R.Route(r, e).r.contact[e.slot].owner == R.Panel)
  {
    var d, r := states[i].st.d, states[i].r;
    RunKeeps(env, layout, steps, states, i);
    assert states[i].st.History() == states[i].st.delivered;
    forall s | InRange(s)
      ensures r.contact[s].owner != R.Nobody <==> d.slot[s].announced
    {
      assert C.StoryAt(false, states[i].st, s);
    }
    if Quiet(d.slot) {
      forall s | InRange(s) ensures !d.slot[s].announced { assert d.slot[s] in d.slot; }
    }
  }
}
