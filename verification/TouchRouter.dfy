/** The router gives each contact an owner at its DOWN and keeps it until UP or CANCEL. What
    each event does to the state, as a function on a value, and what whole runs guarantee. */
module TouchRouting {
  import opened CArithmetic
  import opened TouchEvents

  const PANEL_OUTPUT_CAPACITY := 32
  const OPEN_DRAG_DISTANCE := 60.0
  const CLOSE_DRAG_DISTANCE := 60.0
  const HANDLE_WIDTH := 36
  const HANDLE_HEIGHT := 5
  const HANDLE_TOP := 10

  datatype Owner = Nobody | Candidate | Cube | Panel | PanelIgnored

  datatype Contact = Contact(
    owner: Owner, startY: real, openingTriggered: bool, dismissOnRelease: bool,
    handleDrag: bool, closingTriggered: bool)

  const ZERO_CONTACT := Contact(Nobody, 0.0, false, false, false, false)

  datatype CubeSlot = CubeSlot(active: bool, x: real, y: real)

  const ZERO_CUBE := CubeSlot(false, 0.0, 0.0)

  datatype Layout = Layout(barH: int, x: int, y: int, w: int, h: int)

  datatype Router = Router(
    layout: Layout, panelOpen: bool, primary: int,
    contact: seq<Contact>, cube: seq<CubeSlot>, pending: seq<Event>)

  /** The state after an event, and whether it asks to open or close the panel. */
  datatype Routed = Routed(r: Router, open: bool, close: bool)

  predicate Sized(r: Router) {
    |r.contact| == |r.cube| == TOUCH_MAX_SLOTS
  }

  function Fresh(layout: Layout, panelOpen: bool): (r: Router)
    ensures Sized(r)
  {
    Router(layout, panelOpen, -1, seq(TOUCH_MAX_SLOTS, _ => ZERO_CONTACT), seq(TOUCH_MAX_SLOTS, _ => ZERO_CUBE), [])
  }

  /** A reset forgets every contact and every pending event, not whether the panel is open. */
  function Reset(r: Router): Router {
    Fresh(r.layout, r.panelOpen)
  }

  predicate InPanel(l: Layout, x: real, y: real) {
    l.x as real <= x < (l.x + l.w) as real && l.y as real <= y < (l.y + l.h) as real
  }

  predicate InHandle(l: Layout, x: real, y: real) {
    var x0 := l.x + TruncDiv(l.w - HANDLE_WIDTH, 2);
    var y0 := l.y + HANDLE_TOP;
    x0 as real <= x < (x0 + HANDLE_WIDTH) as real && y0 as real <= y < (y0 + HANDLE_HEIGHT) as real
  }

  function ClearContact(r: Router, s: int): Router
    requires Sized(r) && InRange(s)
  {
    r.(primary := if r.primary == s then -1 else r.primary, contact := r.contact[s := ZERO_CONTACT])
  }

  /** Whether an open panel would take a contact that begins now on `s`. */
  predicate Free(r: Router, s: int) {
    r.primary < 0 || r.primary == s
  }

  /** The owner a DOWN gives its contact. */
  function Decide(r: Router, e: Event): Owner {
    if r.panelOpen then
      if Free(r, e.slot) then Panel else PanelIgnored
    else if e.y < r.layout.barH as real then Candidate
    else Cube
  }

  function Begin(r: Router, e: Event): Router
    requires Sized(r) && InRange(e.slot)
  {
    var s := e.slot;
    var c := ClearContact(r, s);
    var owner := Decide(r, e);
    var contact := ZERO_CONTACT.(owner := owner, startY := e.y);
    match owner
    case Panel =>
      c.(primary := s, pending := c.pending + [e],
         contact := c.contact[s := contact.(
           dismissOnRelease := !InPanel(c.layout, e.x, e.y), handleDrag := InHandle(c.layout, e.x, e.y))])
    case Cube =>
      c.(contact := c.contact[s := contact], cube := c.cube[s := CubeSlot(true, e.x, e.y)])
    case _ => c.(contact := c.contact[s := contact])
  }

  predicate Ends(k: Kind) {
    k.Up? || k.Cancel?
  }

  /** What an event of a contact that has begun does, by owner. */
  function Continue(r: Router, e: Event): Routed
    requires Sized(r) && InRange(e.slot) && !e.kind.Down?
  {
    var s := e.slot;
    var c := r.contact[s];
    match c.owner
    case Nobody => Routed(r, false, false)
    case Candidate =>
      if e.kind.Move? && !c.openingTriggered && e.y - c.startY >= OPEN_DRAG_DISTANCE then
        Routed(r.(contact := r.contact[s := c.(openingTriggered := true)], panelOpen := true, primary := s), true, false)
      else Routed(if Ends(e.kind) then ClearContact(r, s) else r, false, false)
    case Cube =>
      if e.kind.Move? then Routed(r.(cube := r.cube[s := r.cube[s].(x := e.x, y := e.y)]), false, false)
      else Routed(ClearContact(r.(cube := r.cube[s := r.cube[s].(active := false)]), s), false, false)
    case Panel =>
      var kept := r.(pending := r.pending + [e]);
      if e.kind.Move? then
        if c.handleDrag && !c.closingTriggered && c.startY - e.y >= CLOSE_DRAG_DISTANCE then
          Routed(kept.(contact := kept.contact[s := c.(closingTriggered := true)]), false, true)
        else Routed(kept, false, false)
      else Routed(ClearContact(kept, s), false, e.kind.Up? && c.dismissOnRelease)
    case PanelIgnored => Routed(if Ends(e.kind) then ClearContact(r, s) else r, false, false)
  }

  /** One event. Slots out of range are ignored. */
  function Route(r: Router, e: Event): (out: Routed)
    requires Sized(r)
    ensures Sized(out.r)
  {
    if !InRange(e.slot) then Routed(r, false, false)
    else if e.kind.Down? then Routed(Begin(r, e), false, false)
    else Continue(r, e)
  }

  function RouteAll(r: Router, es: seq<Event>): (out: Routed)
    requires Sized(r)
    ensures Sized(out.r)
  {
    if es == [] then Routed(r, false, false)
    else
      var before := RouteAll(r, es[..|es| - 1]);
      var last := Route(before.r, es[|es| - 1]);
      Routed(last.r, before.open || last.open, before.close || last.close)
  }

  /** A call hands out at most 32 pending panel events and keeps the rest. */
  function Window(r: Router): (Router, seq<Event>) {
    var n := if |r.pending| > PANEL_OUTPUT_CAPACITY then PANEL_OUTPUT_CAPACITY else |r.pending|;
    (r.(pending := r.pending[n..]), r.pending[..n])
  }

  // ---------- Runs ----------

  /** What can happen to a router: an event, the panel opening or closing from outside, and a
      window of panel events handed out. */
  datatype Input = Touch(e: Event) | SetOpen(open: bool) | Drain

  function Next(r: Router, i: Input): (out: Router)
    requires Sized(r)
    ensures Sized(out)
  {
    match i
    case Touch(e) => Route(r, e).r
    case SetOpen(open) => r.(panelOpen := open)
    case Drain => Window(r).0
  }

  ghost predicate IsRun(ins: seq<Input>, states: seq<Router>) {
    && |states| == |ins| + 1
    && Sized(states[0]) && states[0] == Fresh(states[0].layout, states[0].panelOpen)
    && forall i | 0 <= i < |ins| :: Sized(states[i]) && states[i + 1] == Next(states[i], ins[i])
  }

  /** The input that began the contact now on slot `s`, or -1. */
  function CurrentDown(ins: seq<Input>, n: nat, s: int): (j: int)
    requires n <= |ins|
    ensures -1 <= j < n
    ensures j >= 0 ==> ins[j].Touch? && ins[j].e.kind.Down? && ins[j].e.slot == s
    ensures j >= 0 ==> forall k | j < k < n && ins[k].Touch? && ins[k].e.slot == s :: ins[k].e.kind.Move?
  {
    if n == 0 then -1
    else
      var i := ins[n - 1];
      if i.Touch? && i.e.slot == s && !i.e.kind.Move? then
        if i.e.kind.Down? then n - 1 else -1
      else CurrentDown(ins, n - 1, s)
  }

  /** Input `i` is an event of a contact the panel accepted at its DOWN. */
  predicate ForPanel(ins: seq<Input>, states: seq<Router>, i: nat)
    requires i < |ins| && |states| == |ins| + 1
  {
    && ins[i].Touch? && InRange(ins[i].e.slot)
    && var e := ins[i].e;
       var j := if e.kind.Down? then i else CurrentDown(ins, i, e.slot);
       j >= 0 && states[j].panelOpen && Free(states[j], e.slot)
  }

  function PanelEvents(ins: seq<Input>, states: seq<Router>, n: nat): seq<Event>
    requires n <= |ins| && |states| == |ins| + 1
  {
    if n == 0 then []
    else
      var before := PanelEvents(ins, states, n - 1);
      if ForPanel(ins, states, n - 1) then before + [ins[n - 1].e] else before
  }

  /** Every panel event handed out before step `n`. */
  function Delivered(ins: seq<Input>, states: seq<Router>, n: nat): seq<Event>
    requires n <= |ins| && |states| == |ins| + 1
  {
    if n == 0 then []
    else
      var before := Delivered(ins, states, n - 1);
      if ins[n - 1].Drain? then before + Window(states[n - 1]).1 else before
  }

  /** What one event does to ownership, the cube's view and the panel's queue. */
  lemma RouteEffect(r: Router, e: Event)
    requires Sized(r) && InRange(e.slot)
    ensures var r', s := Route(r, e).r, e.slot;
            var was := r.contact[s].owner;
            && (forall o | InRange(o) && o != s :: r'.contact[o] == r.contact[o] && r'.cube[o] == r.cube[o])
            && r'.contact[s].owner == (if e.kind.Down? then Decide(r, e) else if e.kind.Move? then was else Nobody)
            && (r'.cube[s].active <==>
                  if e.kind.Down? then Decide(r, e) == Cube || r.cube[s].active
                  else r.cube[s].active && !(was == Cube && Ends(e.kind)))
            && r'.pending == if (if e.kind.Down? then Decide(r, e) else was) == Panel then r.pending + [e] else r.pending
  {
  }

  /** Ownership is decided once: at every point of a run the owner of a slot is what the DOWN
      of its current contact decided, and nobody when no contact is current. */
  lemma {:induction false} OwnerFixedAtDown(ins: seq<Input>, states: seq<Router>, n: nat, s: int)
    requires IsRun(ins, states) && n <= |ins| && InRange(s)
    ensures Sized(states[n])
    ensures var j := CurrentDown(ins, n, s);
            states[n].contact[s].owner == if j < 0 then Nobody else Decide(states[j], ins[j].e)
  {
    if n > 0 {
      OwnerFixedAtDown(ins, states, n - 1, s);
      assert states[n] == Next(states[n - 1], ins[n - 1]);
      if ins[n - 1].Touch? && InRange(ins[n - 1].e.slot) { RouteEffect(states[n - 1], ins[n - 1].e); }
    }
  }

  lemma WindowKeepsOrder(r: Router, out: seq<Event>)
    ensures var (after, more) := Window(r);
            && (out + more) + after.pending == out + r.pending
            && r.(pending := out + r.pending) == after.(pending := (out + more) + after.pending)
    ensures |Window(r).1| <= PANEL_OUTPUT_CAPACITY
  {
    var (after, more) := Window(r);
    assert (out + more) + after.pending == out + r.pending;
  }

  /** An event joins the panel's queue exactly when it is one of an accepted contact's. */
  lemma TouchJoins(ins: seq<Input>, states: seq<Router>, n: nat)
    requires IsRun(ins, states) && n < |ins| && ins[n].Touch?
    ensures Sized(states[n])
    ensures states[n + 1].pending == if ForPanel(ins, states, n) then states[n].pending + [ins[n].e] else states[n].pending
  {
    assert states[n + 1] == Next(states[n], ins[n]);
    if InRange(ins[n].e.slot) {
      OwnerFixedAtDown(ins, states, n, ins[n].e.slot);
      RouteEffect(states[n], ins[n].e);
    }
  }

  lemma Append(a: seq<Event>, b: seq<Event>, e: Event)
    ensures a + (b + [e]) == a + b + [e]
  {
  }

  /** However events, openings, closings and windows interleave: what has been handed to the panel
      followed by what is pending is exactly, and in order, the events of the contacts the panel
      accepted at their DOWN. */
  lemma {:induction false} PanelIsStableFilter(ins: seq<Input>, states: seq<Router>, n: nat)
    requires IsRun(ins, states) && n <= |ins|
    ensures Delivered(ins, states, n) + states[n].pending == PanelEvents(ins, states, n)
  {
    if n > 0 {
      PanelIsStableFilter(ins, states, n - 1);
      var before, r := Delivered(ins, states, n - 1), states[n - 1];
      match ins[n - 1]
      case Drain =>
        WindowKeepsOrder(r, before);
        assert states[n] == Next(r, ins[n - 1]);
      case SetOpen(_) => assert states[n] == Next(r, ins[n - 1]);
      case Touch(e) =>
        TouchJoins(ins, states, n - 1);
        Append(before, r.pending, e);
    }
  }

  ghost predicate Fires(ins: seq<Input>, states: seq<Router>, i: nat)
    requires i < |ins| && |states| == |ins| + 1
  {
    ins[i].Touch? && Sized(states[i]) && Route(states[i], ins[i].e).open
  }

  lemma TriggerKept(r: Router, i: Input, s: int)
    requires Sized(r) && InRange(s) && r.contact[s].openingTriggered
    requires i.Touch? && i.e.slot == s ==> i.e.kind.Move?
    ensures Next(r, i).contact[s].openingTriggered
  {
  }

  lemma OpeningTriggers(r: Router, e: Event)
    requires Sized(r) && Route(r, e).open
    ensures InRange(e.slot) && r.contact[e.slot].owner == Candidate && !r.contact[e.slot].openingTriggered
    ensures e.kind.Move? && Next(r, Touch(e)).contact[e.slot].openingTriggered
  {
  }

  lemma {:induction false} TriggeredStays(ins: seq<Input>, states: seq<Router>, i: nat, n: nat)
    requires IsRun(ins, states) && i < n <= |ins| && Fires(ins, states, i)
    requires CurrentDown(ins, n, ins[i].e.slot) <= i
    ensures var s := ins[i].e.slot;
            && InRange(s) && Sized(states[n]) && CurrentDown(ins, i, s) >= 0
            && (CurrentDown(ins, n, s) >= 0 ==> states[n].contact[s].openingTriggered)
  {
    hide Next, Route;
    var s := ins[i].e.slot;
    OpeningTriggers(states[i], ins[i].e);
    OwnerFixedAtDown(ins, states, i, s);
    assert states[n] == Next(states[n - 1], ins[n - 1]);
    if n > i + 1 && CurrentDown(ins, n, s) >= 0 {
      TriggeredStays(ins, states, i, n - 1);
      TriggerKept(states[n - 1], ins[n - 1], s);
    }
  }

  /** A contact asks for the panel at most once: between two requests from one slot a new
      contact has begun on it. */
  lemma OpensOncePerContact(ins: seq<Input>, states: seq<Router>, i: nat, k: nat)
    requires IsRun(ins, states) && i < k < |ins|
    requires Fires(ins, states, i) && Fires(ins, states, k) && ins[i].e.slot == ins[k].e.slot
    ensures CurrentDown(ins, k, ins[k].e.slot) > i
  {
    var s := ins[k].e.slot;
    OpeningTriggers(states[k], ins[k].e);
    OwnerFixedAtDown(ins, states, k, s);
    if CurrentDown(ins, k, s) <= i { TriggeredStays(ins, states, i, k); }
  }

  // ---------- Agreement with the history of bracketed input ----------

  /** The router's books against the phases of the events it has been given. */
  ghost predicate Agrees(r: Router, fed: seq<Event>) {
    && Sized(r)
    && (forall s | InRange(s) ::
          && (r.contact[s].owner != Nobody <==> Track(false, Closed, fed, s) == Opened)
          && (r.cube[s].active <==> r.contact[s].owner == Cube))
    && PrimaryHeld(r)
  }

  /** `primary` names a contact that is down and came through the bar or the panel. */
  predicate PrimaryHeld(r: Router)
    requires Sized(r)
  {
    r.primary == -1 || (InRange(r.primary) && r.contact[r.primary].owner in {Candidate, Panel})
  }

  lemma RouteKeepsPrimary(r: Router, e: Event)
    requires Sized(r) && PrimaryHeld(r)
    ensures PrimaryHeld(Route(r, e).r)
  {
  }

  lemma RouteAgrees(r: Router, fed: seq<Event>, e: Event)
    requires Agrees(r, fed) && Track(false, Closed, fed + [e], e.slot) != Broken
    ensures Agrees(Route(r, e).r, fed + [e])
  {
    RouteKeepsPrimary(r, e);
    var r' := Route(r, e).r;
    if InRange(e.slot) { RouteEffect(r, e); }
    TrackSnoc(false, Closed, fed, e, e.slot);
    forall s | InRange(s)
      ensures r'.contact[s].owner != Nobody <==> Track(false, Closed, fed + [e], s) == Opened
      ensures r'.cube[s].active <==> r'.contact[s].owner == Cube
    {
      TrackSnoc(false, Closed, fed, e, s);
    }
  }

  lemma {:induction false} RouteAllAgrees(r: Router, fed: seq<Event>, es: seq<Event>)
    requires Agrees(r, fed) && Bracketed(fed + es)
    ensures Agrees(RouteAll(r, es).r, fed + es)
  {
    if es == [] {
      assert fed + es == fed;
    } else {
      var n := |es| - 1;
      assert (fed + es)[..|fed + es| - 1] == fed + es[..n];
      assert fed + es == (fed + es[..n]) + [es[n]];
      forall s ensures Track(false, Closed, fed + es[..n], s) != Broken {
        TrackSnoc(false, Closed, fed + es[..n], es[n], s);
      }
      RouteAllAgrees(r, fed, es[..n]);
      assert Track(false, Closed, fed + es, es[n].slot) != Broken;
      RouteAgrees(RouteAll(r, es[..n]).r, fed + es[..n], es[n]);
    }
  }

  /** The bracketing is needed: a second DOWN on a cube contact while the panel is open leaves
      the cube holding a contact that now belongs to the panel. */
  lemma DoubleDownConfusesCube(layout: Layout, y: real)
    requires y >= layout.barH as real
    ensures var down := Event(Down, 0, 0.0, y, 0.0);
            var r := Next(Next(Next(Fresh(layout, false), Touch(down)), SetOpen(true)), Touch(down));
            r.cube[0].active && r.contact[0].owner == Panel
  {
  }

  // ---------- How many contacts the panel can hold ----------

  /** Any contact of the panel's is the primary one, so there is at most one. */
  predicate OnlyPrimary(r: Router)
    requires Sized(r)
  {
    forall s | 0 <= s < |r.contact| && r.contact[s].owner == Panel :: r.primary == s
  }

  /** A contact that began on the bar while the panel was closed, and has not asked for it yet, is
      dragged 60 or more below its start while a contact of the panel's is still held. */
  predicate Usurps(r: Router, i: Input)
    requires Sized(r)
  {
    && i.Touch? && i.e.kind.Move? && 0 <= i.e.slot < |r.contact|
    && (exists s :: 0 <= s < |r.contact| && r.contact[s].owner == Panel)
    && var c := r.contact[i.e.slot];
       c.owner == Candidate && !c.openingTriggered && i.e.y - c.startY >= 60.0
  }

  /** A step leaves the panel with its primary contact alone exactly when it does not usurp. */
  lemma UsurpingExactly(r: Router, i: Input)
    requires Sized(r) && OnlyPrimary(r)
    ensures OnlyPrimary(Next(r, i)) <==> !Usurps(r, i)
  {
    if i.Touch? && InRange(i.e.slot) {
      var s, next := i.e.slot, Next(r, i);
      RouteEffect(r, i.e);
      if Usurps(r, i) {
        var o :| InRange(o) && r.contact[o].owner == Panel;
        assert o != s && next.contact[o].owner == Panel && next.primary == s;
      }
    }
  }

  lemma {:induction false} NoUsurper(ins: seq<Input>, states: seq<Router>, n: nat)
    requires IsRun(ins, states) && n <= |ins|
    requires forall i | 0 <= i < n :: !(Sized(states[i]) && Usurps(states[i], ins[i]))
    ensures Sized(states[n]) && OnlyPrimary(states[n])
  {
    if n > 0 {
      NoUsurper(ins, states, n - 1);
      assert states[n] == Next(states[n - 1], ins[n - 1]);
      UsurpingExactly(states[n - 1], ins[n - 1]);
    }
  }

  /** Without such a drag no run ever gives the panel two contacts at once. */
  lemma PanelHoldsOne(ins: seq<Input>, states: seq<Router>, n: nat, s: int, o: int)
    requires IsRun(ins, states) && n <= |ins| && InRange(s) && InRange(o)
    requires forall i | 0 <= i < n :: !(Sized(states[i]) && Usurps(states[i], ins[i]))
    ensures Sized(states[n])
    ensures states[n].contact[s].owner == Panel && states[n].contact[o].owner == Panel ==> s == o
  {
    NoUsurper(ins, states, n);
  }

  /** With one it can, even for bracketed input: the drag takes `primary` from a panel contact that
      is still held, and the next contact is accepted too. */
  lemma PanelContactsCanOverlap(layout: Layout)
    requires layout.barH > 0
    ensures var r0 := Fresh(layout, false);
            var r1 := Next(r0, Touch(Event(Down, 1, 0.0, 0.0, 0.0)));
            var r2 := Next(r1, SetOpen(true));
            var r3 := Next(r2, Touch(Event(Down, 2, 0.0, 0.0, 0.0)));
            var drag := Touch(Event(Move, 1, 0.0, 60.0, 0.0));
            var r4 := Next(r3, drag);
            var r5 := Next(r4, Touch(Event(Up, 1, 0.0, 60.0, 0.0)));
            var r6 := Next(r5, Touch(Event(Down, 3, 0.0, 0.0, 0.0)));
            Usurps(r3, drag) && r6.contact[2].owner == Panel && r6.contact[3].owner == Panel
  {
    assert Next(Next(Next(Fresh(layout, false), Touch(Event(Down, 1, 0.0, 0.0, 0.0))), SetOpen(true)),
                Touch(Event(Down, 2, 0.0, 0.0, 0.0))).contact[2].owner == Panel;
  }

  // ---------- Batching ----------

  lemma RouteShift(r: Router, pre: seq<Event>, e: Event)
    requires Sized(r)
    ensures var a := Route(r, e);
            var b := Route(r.(pending := pre + r.pending), e);
            b == a.(r := a.r.(pending := pre + a.r.pending))
  {
    if InRange(e.slot) {
      if e.kind.Down? { BeginShift(r, pre, e); } else { ContinueShift(r, pre, e); }
    }
  }

  lemma BeginShift(r: Router, pre: seq<Event>, e: Event)
    requires Sized(r) && InRange(e.slot)
    ensures var a := Begin(r, e);
            Begin(r.(pending := pre + r.pending), e) == a.(pending := pre + a.pending)
  {
    assert pre + (r.pending + [e]) == (pre + r.pending) + [e];
  }

  lemma ContinueShift(r: Router, pre: seq<Event>, e: Event)
    requires Sized(r) && InRange(e.slot) && !e.kind.Down?
    ensures var a := Continue(r, e);
            Continue(r.(pending := pre + r.pending), e) == a.(r := a.r.(pending := pre + a.r.pending))
  {
    assert pre + (r.pending + [e]) == (pre + r.pending) + [e];
  }

  lemma {:induction false} RouteAllShift(r: Router, pre: seq<Event>, es: seq<Event>)
    requires Sized(r)
    ensures var a := RouteAll(r, es);
            var b := RouteAll(r.(pending := pre + r.pending), es);
            b == a.(r := a.r.(pending := pre + a.r.pending))
  {
    if es != [] {
      var n := |es| - 1;
      RouteAllShift(r, pre, es[..n]);
      RouteShift(RouteAll(r, es[..n]).r, pre, es[n]);
    }
  }

  /** A call of the program: a batch of events followed by one window, or the panel's state. */
  datatype Call = Feed(events: seq<Event>) | Show(open: bool)

  /** Several calls in a row: the state and flags at the end, and every panel event handed out. */
  function RouteCalls(r: Router, calls: seq<Call>): (out: (Routed, seq<Event>))
    requires Sized(r)
    ensures Sized(out.0.r)
  {
    if calls == [] then (Routed(r, false, false), [])
    else
      var (before, out) := RouteCalls(r, calls[..|calls| - 1]);
      match calls[|calls| - 1]
      case Show(open) => (before.(r := before.r.(panelOpen := open)), out)
      case Feed(events) =>
        var fed := RouteAll(before.r, events);
        var (after, more) := Window(fed.r);
        (Routed(after, before.open || fed.open, before.close || fed.close), out + more)
  }

  /** The same calls without windows: the events and the panel's states, one after the other. */
  function RouteUncut(r: Router, calls: seq<Call>): (out: Routed)
    requires Sized(r)
    ensures Sized(out.r)
  {
    if calls == [] then Routed(r, false, false)
    else
      var before := RouteUncut(r, calls[..|calls| - 1]);
      match calls[|calls| - 1]
      case Show(open) => before.(r := before.r.(panelOpen := open))
      case Feed(events) =>
        var fed := RouteAll(before.r, events);
        Routed(fed.r, before.open || fed.open, before.close || fed.close)
  }

  /** The 32-event window changes nothing, with the panel opening and closing between the calls:
      what was handed out followed by what is pending is what stays pending without windows, with
      the same state and requests. */
  lemma {:induction false} CallsIrrelevant(r: Router, calls: seq<Call>)
    requires Sized(r)
    ensures var (end, out) := RouteCalls(r, calls);
            RouteUncut(r, calls) == end.(r := end.r.(pending := out + end.r.pending))
  {
    if calls == [] {
      assert [] + r.pending == r.pending;
    } else {
      var calls', last := calls[..|calls| - 1], calls[|calls| - 1];
      CallsIrrelevant(r, calls');
      var (before, out) := RouteCalls(r, calls');
      if last.Feed? {
        RouteAllShift(before.r, out, last.events);
        WindowKeepsOrder(RouteAll(before.r, last.events).r, out);
      }
    }
  }

  /** Nor does the cutting into batches: one batch does what its two parts do. */
  lemma {:induction false} RouteAllConcat(r: Router, a: seq<Event>, b: seq<Event>)
    requires Sized(r)
    ensures var x := RouteAll(r, a);
            var y := RouteAll(x.r, b);
            RouteAll(r, a + b) == Routed(y.r, x.open || y.open, x.close || y.close)
  {
    if b == [] {
      assert a + b == a;
    } else {
      var n := |b| - 1;
      assert (a + b)[..|a + b| - 1] == a + b[..n];
      RouteAllConcat(r, a, b[..n]);
    }
  }

  /** A program's calls are inputs of a run: a batch is its events and then a drain. */
  function InputsOf(calls: seq<Call>): seq<Input> {
    if calls == [] then []
    else
      InputsOf(calls[..|calls| - 1]) +
      match calls[|calls| - 1]
      case Show(open) => [SetOpen(open)]
      case Feed(events) => Touches(events) + [Drain]
  }

  function Touches(es: seq<Event>): (ins: seq<Input>)
    ensures |ins| == |es| && forall i | 0 <= i < |es| :: ins[i] == Touch(es[i])
  {
    seq(|es|, i requires 0 <= i < |es| => Touch(es[i]))
  }

  /** Where some inputs lead, and what the drains among them hand out. */
  function Follow(r: Router, ins: seq<Input>): (out: (Router, seq<Event>))
    requires Sized(r)
    ensures Sized(out.0)
  {
    if ins == [] then (r, [])
    else
      var (before, out) := Follow(r, ins[..|ins| - 1]);
      var i := ins[|ins| - 1];
      (Next(before, i), if i.Drain? then out + Window(before).1 else out)
  }

  lemma FollowSnoc(r: Router, ins: seq<Input>, i: Input)
    requires Sized(r)
    ensures var (before, out) := Follow(r, ins);
            Follow(r, ins + [i]) == (Next(before, i), if i.Drain? then out + Window(before).1 else out)
  {
    assert (ins + [i])[..|ins|] == ins;
  }

  lemma RouteAllLast(r: Router, es: seq<Event>)
    requires Sized(r) && es != []
    ensures RouteAll(r, es).r == Next(RouteAll(r, es[..|es| - 1]).r, Touch(es[|es| - 1]))
  {
  }

  lemma {:induction false} FollowTouches(r: Router, ins: seq<Input>, es: seq<Event>)
    requires Sized(r)
    ensures var (before, out) := Follow(r, ins);
            Follow(r, ins + Touches(es)) == (RouteAll(before, es).r, out)
  {
    if es == [] {
      assert ins + Touches(es) == ins;
    } else {
      var n := |es| - 1;
      FollowTouches(r, ins, es[..n]);
      FollowSnoc(r, ins + Touches(es[..n]), Touch(es[n]));
      RouteAllLast(Follow(r, ins).0, es);
      assert ins + Touches(es) == ins + Touches(es[..n]) + [Touch(es[n])];
    }
  }

  lemma FollowBatch(r: Router, ins: seq<Input>, es: seq<Event>)
    requires Sized(r)
    ensures var (before, out) := Follow(r, ins);
            var (after, more) := Window(RouteAll(before, es).r);
            Follow(r, ins + (Touches(es) + [Drain])) == (after, out + more)
  {
    hide RouteAll, Window;
    FollowTouches(r, ins, es);
    FollowSnoc(r, ins + Touches(es), Drain);
    assert ins + (Touches(es) + [Drain]) == ins + Touches(es) + [Drain];
  }

  lemma {:induction false} CallsAreInputs(r: Router, calls: seq<Call>)
    requires Sized(r)
    ensures var (end, out) := RouteCalls(r, calls);
            Follow(r, InputsOf(calls)) == (end.r, out)
  {
    if calls != [] {
      var ins := InputsOf(calls[..|calls| - 1]);
      CallsAreInputs(r, calls[..|calls| - 1]);
      match calls[|calls| - 1]
      case Show(open) => FollowSnoc(r, ins, SetOpen(open));
      case Feed(events) => FollowBatch(r, ins, events);
    }
  }

  lemma {:induction false} RunIsFollow(ins: seq<Input>, states: seq<Router>, n: nat)
    requires IsRun(ins, states) && n <= |ins|
    ensures Follow(states[0], ins[..n]) == (states[n], Delivered(ins, states, n))
  {
    if n > 0 {
      assert ins[..n][..n - 1] == ins[..n - 1];
      RunIsFollow(ins, states, n - 1);
      assert states[n] == Next(states[n - 1], ins[n - 1]);
    }
  }

  /** The stable filter for whole programs: batches of any size, each with its window, and the panel
      opening and closing between them. What the calls hand out and leave pending is exactly, in
      order, the events of the contacts accepted at their DOWN. */
  lemma ProgramIsStableFilter(calls: seq<Call>, states: seq<Router>)
    requires IsRun(InputsOf(calls), states)
    ensures var (end, out) := RouteCalls(states[0], calls);
            out + end.r.pending == PanelEvents(InputsOf(calls), states, |InputsOf(calls)|)
  {
    var ins := InputsOf(calls);
    CallsAreInputs(states[0], calls);
    RunIsFollow(ins, states, |ins|);
    assert ins[..|ins|] == ins;
    PanelIsStableFilter(ins, states, |ins|);
  }
}
