/** The router as the source writes it, proved to compute what TouchRouting describes. */
module TouchRouterObject {
  import opened CArithmetic
  import opened TouchEvents
  import opened R = TouchRouting

  class TouchRouter {
    const layout: Layout
    var panelOpen: bool
    var primary: int
    var contact: seq<Contact>
    var cube: seq<CubeSlot>
    var pending: seq<Event>

    ghost function State(): Router
      reads this
    {
      Router(layout, panelOpen, primary, contact, cube, pending)
    }

    constructor (layout: Layout)
      ensures State() == Fresh(layout, false)
    {
      this.layout := layout;
      panelOpen, primary, pending := false, -1, [];
      contact := seq(TOUCH_MAX_SLOTS, _ => ZERO_CONTACT);
      cube := seq(TOUCH_MAX_SLOTS, _ => ZERO_CUBE);
    }

    method PointInPanel(x: real, y: real) returns (r: bool)
      ensures r == InPanel(layout, x, y)
    {
      r := x >= layout.x as real && x < (layout.x + layout.w) as real &&
           y >= layout.y as real && y < (layout.y + layout.h) as real;
    }

    method PointInHandle(x: real, y: real) returns (r: bool)
      ensures r == InHandle(layout, x, y)
    {
      var x0 := layout.x + TruncDiv(layout.w - HANDLE_WIDTH, 2);
      var y0 := layout.y + HANDLE_TOP;
      r := x >= x0 as real && x < (x0 + HANDLE_WIDTH) as real &&
           y >= y0 as real && y < (y0 + HANDLE_HEIGHT) as real;
    }

    method ClearContact(s: int)
      requires Sized(State()) && InRange(s)
      modifies this
      ensures State() == R.ClearContact(old(State()), s)
    {
      if primary == s { primary := -1; }
      contact := contact[s := ZERO_CONTACT];
    }

    method BeginContact(e: Event)
      requires Sized(State()) && InRange(e.slot)
      modifies this
      ensures State() == Begin(old(State()), e)
    {
      var s := e.slot;
      ClearContact(s);
      var c := contact[s].(startY := e.y);
      if panelOpen {
        if primary >= 0 {
          contact := contact[s := c.(owner := PanelIgnored)];
          return;
        }
        primary := s;
        var inPanel := PointInPanel(e.x, e.y);
        var inHandle := PointInHandle(e.x, e.y);
        contact := contact[s := c.(owner := Panel, dismissOnRelease := !inPanel, handleDrag := inHandle)];
        pending := pending + [e];
        return;
      }
      if e.y < layout.barH as real {
        contact := contact[s := c.(owner := Candidate)];
        return;
      }
      contact := contact[s := c.(owner := Cube)];
      cube := cube[s := CubeSlot(true, e.x, e.y)];
    }

    method RouteCandidate(e: Event) returns (open: bool)
      requires Sized(State()) && InRange(e.slot) && !e.kind.Down? && contact[e.slot].owner == Candidate
      modifies this
      ensures Routed(State(), open, false) == Continue(old(State()), e)
    {
      open := false;
      var c := contact[e.slot];
      if e.kind == Move && !c.openingTriggered && e.y - c.startY >= OPEN_DRAG_DISTANCE {
        contact := contact[e.slot := c.(openingTriggered := true)];
        panelOpen := true;
        primary := e.slot;
        open := true;
      }
      if e.kind == Up || e.kind == Cancel {
        ClearContact(e.slot);
      }
    }

    method RouteCube(e: Event)
      requires Sized(State()) && InRange(e.slot) && !e.kind.Down? && contact[e.slot].owner == Cube
      modifies this
      ensures Routed(State(), false, false) == Continue(old(State()), e)
    {
      var s := e.slot;
      if e.kind == Move {
        cube := cube[s := cube[s].(x := e.x, y := e.y)];
      } else if e.kind == Up || e.kind == Cancel {
        cube := cube[s := cube[s].(active := false)];
        ClearContact(s);
      }
    }

    method RoutePanel(e: Event) returns (close: bool)
      requires Sized(State()) && InRange(e.slot) && !e.kind.Down? && contact[e.slot].owner == Panel
      modifies this
      ensures Routed(State(), false, close) == Continue(old(State()), e)
    {
      close := false;
      var c := contact[e.slot];
      pending := pending + [e];
      if e.kind == Move && c.handleDrag && !c.closingTriggered && c.startY - e.y >= CLOSE_DRAG_DISTANCE {
        contact := contact[e.slot := c.(closingTriggered := true)];
        close := true;
      }
      if e.kind == Up {
        if c.dismissOnRelease { close := true; }
        ClearContact(e.slot);
      } else if e.kind == Cancel {
        ClearContact(e.slot);
      }
    }

    method RouteIgnored(e: Event)
      requires Sized(State()) && InRange(e.slot) && !e.kind.Down? && contact[e.slot].owner == PanelIgnored
      modifies this
      ensures Routed(State(), false, false) == Continue(old(State()), e)
    {
      if e.kind == Up || e.kind == Cancel {
        ClearContact(e.slot);
      }
    }

    method RouteOne(e: Event) returns (open: bool, close: bool)
      requires Sized(State())
      modifies this
      ensures Routed(State(), open, close) == Route(old(State()), e)
    {
      open, close := false, false;
      if e.slot < 0 || e.slot >= TOUCH_MAX_SLOTS { return; }
      if e.kind == Down {
        BeginContact(e);
        return;
      }
      match contact[e.slot].owner
      case Candidate => open := RouteCandidate(e);
      case Cube => RouteCube(e);
      case Panel => close := RoutePanel(e);
      case PanelIgnored => RouteIgnored(e);
      case Nobody =>
    }

    method DrainPanel() returns (out: seq<Event>)
      modifies this`pending
      ensures (State(), out) == Window(old(State()))
    {
      var count := |pending|;
      if count > PANEL_OUTPUT_CAPACITY { count := PANEL_OUTPUT_CAPACITY; }
      out := pending[..count];
      pending := pending[count..];
    }

    method Feed(events: seq<Event>) returns (open: bool, close: bool, cubeOut: seq<CubeSlot>, panel: seq<Event>)
      requires Sized(State())
      modifies this
      ensures var all := RouteAll(old(State()), events);
              && (State(), panel) == Window(all.r) && cubeOut == all.r.cube
              && open == all.open && close == all.close
    {
      open, close := false, false;
      for i := 0 to |events|
        invariant Sized(State())
        invariant Routed(State(), open, close) == RouteAll(old(State()), events[..i])
      {
        assert events[..i + 1][..i] == events[..i];
        var o, c := RouteOne(events[i]);
        open := open || o;
        close := close || c;
      }
      assert events[..|events|] == events;
      cubeOut := cube;
      panel := DrainPanel();
    }

    method SetPanelOpen(open: bool)
      requires Sized(State())
      modifies this`panelOpen
      ensures State() == Next(old(State()), SetOpen(open))
    {
      panelOpen := open;
    }

    method Reset()
      modifies this
      ensures State() == R.Reset(old(State()))
    {
      contact := seq(TOUCH_MAX_SLOTS, _ => ZERO_CONTACT);
      cube := seq(TOUCH_MAX_SLOTS, _ => ZERO_CUBE);
      primary := -1;
      pending := [];
    }
  }
}
