/** When an event asks for the panel to open or to close, and what the cube is shown, told over whole
    runs from the inputs and the layout. */
module TouchRequests {
  import opened CArithmetic
  import opened TouchEvents
  import opened TouchRouting

  // ---------- Places ----------

  predicate OnPanel(l: Layout, e: Event) {
    e.x >= l.x as real && e.x < (l.x + l.w) as real && e.y >= l.y as real && e.y < (l.y + l.h) as real
  }

  /** The handle: 36 by 5, centred, 10 below the top edge of the panel. */
  predicate OnHandle(l: Layout, e: Event) {
    var left, top := l.x + TruncDiv(l.w - 36, 2), l.y + 10;
    e.x >= left as real && e.x < (left + 36) as real && e.y >= top as real && e.y < (top + 5) as real
  }

  // ---------- Contacts of a run ----------

  /** The contact now on slot `s` began at input `j` and was accepted by the open panel. */
  predicate Accepted(ins: seq<Input>, states: seq<Router>, n: nat, s: int, j: int)
    requires n <= |ins| && |states| == |ins| + 1
  {
    j == CurrentDown(ins, n, s) >= 0 && states[j].panelOpen && Free(states[j], s)
  }

  /** It began on the bar, with the panel closed. */
  predicate FromBar(ins: seq<Input>, states: seq<Router>, n: nat, s: int, j: int)
    requires n <= |ins| && |states| == |ins| + 1
  {
    j == CurrentDown(ins, n, s) >= 0 && !states[j].panelOpen && ins[j].e.y < states[j].layout.barH as real
  }

  /** Between `j` and `n` the contact on `s` was dragged `far` or more, down for `sign` 1 and up for -1. */
  ghost predicate Dragged(ins: seq<Input>, j: int, n: nat, s: int, sign: real)
    requires 0 <= j < n <= |ins| && ins[j].Touch?
  {
    exists k :: j < k < n && ins[k].Touch? && ins[k].e.slot == s && ins[k].e.kind.Move?
                && sign * (ins[k].e.y - ins[j].e.y) >= 60.0
  }

  /** Input `n` is the first MOVE to drag its contact so far. */
  ghost predicate FirstDrag(ins: seq<Input>, j: int, n: nat, sign: real)
    requires 0 <= j < n < |ins| && ins[j].Touch? && ins[n].Touch?
  {
    && ins[n].e.kind.Move? && sign * (ins[n].e.y - ins[j].e.y) >= 60.0
    && !Dragged(ins, j, n, ins[n].e.slot, sign)
  }

  lemma DraggedSnoc(ins: seq<Input>, j: int, n: nat, s: int, sign: real)
    requires 0 <= j < n < |ins| && ins[j].Touch?
    ensures Dragged(ins, j, n + 1, s, sign) <==>
            || Dragged(ins, j, n, s, sign)
            || (ins[n].Touch? && ins[n].e.slot == s && ins[n].e.kind.Move? && sign * (ins[n].e.y - ins[j].e.y) >= 60.0)
  {
  }

  lemma NotYetDragged(ins: seq<Input>, j: nat, s: int)
    requires j < |ins| && ins[j].Touch?
    ensures !Dragged(ins, j, j + 1, s, 1.0) && !Dragged(ins, j, j + 1, s, -1.0)
  {
  }

  // ---------- What a contact remembers ----------

  /** The flags of the contact on `s` tell where it began and how far it has been dragged. */
  ghost predicate Remembers(ins: seq<Input>, states: seq<Router>, n: nat, s: int)
    requires n <= |ins| && |states| == |ins| + 1 && InRange(s) && Sized(states[n])
  {
    var j, c := CurrentDown(ins, n, s), states[n].contact[s];
    j >= 0 ==>
      && c.startY == ins[j].e.y
      && (c.owner == Candidate ==> (c.openingTriggered <==> Dragged(ins, j, n, s, 1.0)))
      && (c.owner == Panel ==>
            && (c.dismissOnRelease <==> !OnPanel(states[n].layout, ins[j].e))
            && (c.handleDrag <==> OnHandle(states[n].layout, ins[j].e))
            && (c.closingTriggered <==> c.handleDrag && Dragged(ins, j, n, s, -1.0)))
  }

  lemma LayoutKept(r: Router, i: Input)
    requires Sized(r)
    ensures Next(r, i).layout == r.layout
  {
  }

  lemma OtherKept(r: Router, i: Input, s: int)
    requires Sized(r) && InRange(s) && (i.Touch? ==> i.e.slot != s)
    ensures Next(r, i).contact[s] == r.contact[s] && Next(r, i).cube[s] == r.cube[s]
  {
  }

  lemma MoveRemembers(r: Router, e: Event)
    requires Sized(r) && InRange(e.slot) && e.kind.Move?
    ensures var c, d := r.contact[e.slot], Next(r, Touch(e)).contact[e.slot];
            && d.owner == c.owner && d.startY == c.startY
            && d.dismissOnRelease == c.dismissOnRelease && d.handleDrag == c.handleDrag
            && (c.owner == Candidate ==> (d.openingTriggered <==> c.openingTriggered || e.y - c.startY >= 60.0))
            && (c.owner == Panel ==>
                  (d.closingTriggered <==> c.closingTriggered || (c.handleDrag && c.startY - e.y >= 60.0)))
  {
  }

  lemma DownRemembers(r: Router, e: Event)
    requires Sized(r) && InRange(e.slot) && e.kind.Down?
    ensures var c := Next(r, Touch(e)).contact[e.slot];
            && c.startY == e.y && !c.openingTriggered && !c.closingTriggered
            && (c.owner == Panel ==>
                  && (c.dismissOnRelease <==> !OnPanel(r.layout, e)) && (c.handleDrag <==> OnHandle(r.layout, e)))
  {
  }

  lemma {:induction false} RunRemembers(ins: seq<Input>, states: seq<Router>, n: nat, s: int)
    requires IsRun(ins, states) && n <= |ins| && InRange(s)
    ensures Sized(states[n]) && Remembers(ins, states, n, s)
  {
    hide Next, Dragged, OnPanel, OnHandle;
    if n > 0 {
      var r, i, j := states[n - 1], ins[n - 1], CurrentDown(ins, n, s);
      RunRemembers(ins, states, n - 1, s);
      assert states[n] == Next(r, i);
      LayoutKept(r, i);
      if j >= 0 {
        if i.Touch? && i.e.slot == s {
          if i.e.kind.Down? {
            DownRemembers(r, i.e);
            NotYetDragged(ins, n - 1, s);
          } else {
            MoveRemembers(r, i.e);
            DraggedSnoc(ins, j, n - 1, s, 1.0);
            DraggedSnoc(ins, j, n - 1, s, -1.0);
          }
        } else {
          OtherKept(r, i, s);
          DraggedSnoc(ins, j, n - 1, s, 1.0);
          DraggedSnoc(ins, j, n - 1, s, -1.0);
        }
      }
    }
  }

  // ---------- The requests ----------

  lemma CloseOf(r: Router, e: Event)
    requires Sized(r) && InRange(e.slot)
    ensures var c := r.contact[e.slot];
            Route(r, e).close <==>
              && c.owner == Panel
              && ((e.kind.Up? && c.dismissOnRelease) ||
                  (e.kind.Move? && c.handleDrag && !c.closingTriggered && c.startY - e.y >= 60.0))
  {
  }

  lemma OpenOf(r: Router, e: Event)
    requires Sized(r) && InRange(e.slot)
    ensures var c := r.contact[e.slot];
            Route(r, e).open <==> c.owner == Candidate && e.kind.Move? && !c.openingTriggered && e.y - c.startY >= 60.0
  {
  }

  /** An event asks to close exactly when its contact was accepted by the panel, and it either ends,
      with an UP, a contact that began beside the panel, or is the first MOVE 60 or more above the DOWN
      of a contact that began on the handle. */
  lemma CloseExactly(ins: seq<Input>, states: seq<Router>, n: nat)
    requires IsRun(ins, states) && n < |ins| && ins[n].Touch? && InRange(ins[n].e.slot)
    ensures Sized(states[n])
    ensures var e, l := ins[n].e, states[n].layout;
            Route(states[n], e).close <==>
              exists j :: Accepted(ins, states, n, e.slot, j)
                && ((e.kind.Up? && !OnPanel(l, ins[j].e)) || (OnHandle(l, ins[j].e) && FirstDrag(ins, j, n, -1.0)))
  {
    var e := ins[n].e;
    hide Route;
    RunRemembers(ins, states, n, e.slot);
    OwnerFixedAtDown(ins, states, n, e.slot);
    CloseOf(states[n], e);
    var j := CurrentDown(ins, n, e.slot);
    if Route(states[n], e).close { assert Accepted(ins, states, n, e.slot, j); }
  }

  /** And to open exactly when it is the first MOVE 60 or more below the DOWN of a contact that began on
      the bar with the panel closed. */
  lemma OpenExactly(ins: seq<Input>, states: seq<Router>, n: nat)
    requires IsRun(ins, states) && n < |ins| && ins[n].Touch? && InRange(ins[n].e.slot)
    ensures Sized(states[n])
    ensures Route(states[n], ins[n].e).open <==>
              exists j :: FromBar(ins, states, n, ins[n].e.slot, j) && FirstDrag(ins, j, n, 1.0)
  {
    var e := ins[n].e;
    hide Route;
    RunRemembers(ins, states, n, e.slot);
    OwnerFixedAtDown(ins, states, n, e.slot);
    OpenOf(states[n], e);
    var j := CurrentDown(ins, n, e.slot);
    if Route(states[n], e).open { assert FromBar(ins, states, n, e.slot, j); }
  }

  /** The panel is open after a step exactly when it was told so, has just asked for it, or was open
      and not told otherwise. */
  lemma OpenFlag(ins: seq<Input>, states: seq<Router>, n: nat)
    requires IsRun(ins, states) && n < |ins|
    ensures Sized(states[n])
    ensures states[n + 1].panelOpen ==
            match ins[n]
            case SetOpen(open) => open
            case Touch(e) => states[n].panelOpen || Route(states[n], e).open
            case Drain => states[n].panelOpen
  {
    assert states[n + 1] == Next(states[n], ins[n]);
  }

  // ---------- The cube ----------

  /** The last event of slot `s`, or -1. */
  function LastTouch(ins: seq<Input>, n: nat, s: int): (j: int)
    requires n <= |ins|
    ensures -1 <= j < n && (j >= 0 ==> ins[j].Touch? && ins[j].e.slot == s)
    ensures forall k | j < k < n && ins[k].Touch? :: ins[k].e.slot != s
  {
    if n == 0 then -1
    else if ins[n - 1].Touch? && ins[n - 1].e.slot == s then n - 1
    else LastTouch(ins, n - 1, s)
  }

  lemma CubeStep(r: Router, e: Event)
    requires Sized(r) && InRange(e.slot) && Next(r, Touch(e)).contact[e.slot].owner == Cube
    ensures Next(r, Touch(e)).cube[e.slot] == CubeSlot(r.cube[e.slot].active || e.kind.Down?, e.x, e.y)
  {
  }

  /** The cube sees each of its contacts where that contact's last event was. */
  lemma {:induction false} CubeFollows(ins: seq<Input>, states: seq<Router>, n: nat, s: int)
    requires IsRun(ins, states) && n <= |ins| && InRange(s)
    ensures Sized(states[n])
    ensures states[n].contact[s].owner == Cube ==>
              var k := LastTouch(ins, n, s); k >= 0 && states[n].cube[s] == CubeSlot(true, ins[k].e.x, ins[k].e.y)
  {
    if n > 0 {
      var r, i := states[n - 1], ins[n - 1];
      CubeFollows(ins, states, n - 1, s);
      assert states[n] == Next(r, i);
      if i.Touch? && i.e.slot == s {
        RouteEffect(r, i.e);
        if states[n].contact[s].owner == Cube { CubeStep(r, i.e); }
      } else {
        OtherKept(r, i, s);
      }
    }
  }

  // ---------- Batches ----------

  /** The `k`-th event of the batch asks to open, or to close. */
  predicate AsksAt(r: Router, es: seq<Event>, k: nat, opens: bool)
    requires Sized(r) && k < |es|
  {
    var one := Route(RouteAll(r, es[..k]).r, es[k]);
    if opens then one.open else one.close
  }

  lemma AskBefore(r: Router, es: seq<Event>, k: nat, opens: bool)
    requires Sized(r) && k < |es| - 1
    ensures AsksAt(r, es[..|es| - 1], k, opens) == AsksAt(r, es, k, opens)
  {
    assert es[..|es| - 1][..k] == es[..k];
  }

  lemma {:induction false} SomeAsks(r: Router, es: seq<Event>, opens: bool)
    requires Sized(r)
    ensures (if opens then RouteAll(r, es).open else RouteAll(r, es).close) <==>
            exists k: nat :: k < |es| && AsksAt(r, es, k, opens)
  {
    if es != [] {
      var n := |es| - 1;
      SomeAsks(r, es[..n], opens);
      RouteSnoc(r, es, opens);
      hide RouteAll, AsksAt;
      forall k: nat | k < n ensures AsksAt(r, es[..n], k, opens) == AsksAt(r, es, k, opens) {
        AskBefore(r, es, k, opens);
      }
    }
  }

  lemma RouteSnoc(r: Router, es: seq<Event>, opens: bool)
    requires Sized(r) && es != []
    ensures var n := |es| - 1;
            (if opens then RouteAll(r, es).open else RouteAll(r, es).close) ==
            ((if opens then RouteAll(r, es[..n]).open else RouteAll(r, es[..n]).close) || AsksAt(r, es, n, opens))
  {
    hide Route;
  }

  /** A batch asks for what any one of its events asks for. */
  lemma BatchAsks(r: Router, es: seq<Event>)
    requires Sized(r)
    ensures RouteAll(r, es).open <==> exists k: nat :: k < |es| && AsksAt(r, es, k, true)
    ensures RouteAll(r, es).close <==> exists k: nat :: k < |es| && AsksAt(r, es, k, false)
  {
    hide RouteAll, AsksAt;
    SomeAsks(r, es, true);
    SomeAsks(r, es, false);
  }
}
