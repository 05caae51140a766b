/** Touch events and the life cycle of a contact, shared by the decoder and the router. */
module TouchEvents {

  const TOUCH_MAX_SLOTS := 10

  datatype Kind = Down | Move | Up | Cancel

  // Screen coordinates are floats and times doubles in the source; rounding plays no part here.
  datatype Event = Event(kind: Kind, slot: int, x: real, y: real, t: real)

  predicate InRange(s: int) {
    0 <= s < TOUCH_MAX_SLOTS
  }

  /** Where one slot stands after a list of events. `Broken` is absorbing. */
  datatype Phase = Closed | Opened | Broken

  /** One event of a slot. The strict reading allows a DOWN only when the slot is closed;
      the loose one also lets a DOWN follow a DOWN. A MOVE, UP or CANCEL always needs an
      open contact. */
  function Advance(loose: bool, p: Phase, k: Kind): Phase {
    match p
    case Broken => Broken
    case Closed => if k.Down? then Opened else Broken
    case Opened =>
      match k
      case Down => if loose then Opened else Broken
      case Move => Opened
      case Up => Closed
      case Cancel => Closed
  }

  /** The phase of slot `s` after `es`, starting from `p`. */
  function Track(loose: bool, p: Phase, es: seq<Event>, s: int): Phase {
    if es == [] then p
    else
      var before := Track(loose, p, es[..|es| - 1], s);
      var e := es[|es| - 1];
      if e.slot == s then Advance(loose, before, e.kind) else before
  }

  /** The history is (DOWN MOVE* (UP|CANCEL))* on every slot, up to an unfinished last contact. */
  ghost predicate Bracketed(es: seq<Event>) {
    forall s :: Track(false, Closed, es, s) != Broken
  }

  lemma {:induction false} TrackConcat(loose: bool, p: Phase, a: seq<Event>, b: seq<Event>, s: int)
    ensures Track(loose, p, a + b, s) == Track(loose, Track(loose, p, a, s), b, s)
  {
    if b == [] {
      assert a + b == a;
    } else {
      var b' := b[..|b| - 1];
      assert (a + b)[..|a + b| - 1] == a + b';
      TrackConcat(loose, p, a, b', s);
    }
  }

  lemma {:induction false} TrackOther(loose: bool, p: Phase, es: seq<Event>, s: int)
    requires forall e | e in es :: e.slot != s
    ensures Track(loose, p, es, s) == p
  {
    if es != [] {
      TrackOther(loose, p, es[..|es| - 1], s);
    }
  }

  lemma {:induction false} TrackBroken(loose: bool, es: seq<Event>, s: int)
    ensures Track(loose, Broken, es, s) == Broken
  {
    if es != [] {
      TrackBroken(loose, es[..|es| - 1], s);
    }
  }

  lemma TrackSnoc(loose: bool, p: Phase, es: seq<Event>, e: Event, s: int)
    ensures Track(loose, p, es + [e], s) ==
            (if e.slot == s then Advance(loose, Track(loose, p, es, s), e.kind) else Track(loose, p, es, s))
  {
    assert (es + [e])[..|es|] == es;
  }

  /** Index of the last event of slot `s`, or -1. */
  function LastIndex(es: seq<Event>, s: int): (r: int)
    ensures -1 <= r < |es|
    ensures r >= 0 ==> es[r].slot == s
    ensures forall i :: r < i < |es| ==> es[i].slot != s
  {
    if es == [] then -1
    else if es[|es| - 1].slot == s then |es| - 1
    else LastIndex(es[..|es| - 1], s)
  }

  /** No contact of `s` is open after `es`: its last event, if any, ends one. */
  predicate Idle(es: seq<Event>, s: int) {
    var l := LastIndex(es, s);
    l < 0 || es[l].kind.Up? || es[l].kind.Cancel?
  }

  /** An open phase means the last event is a DOWN or a MOVE, a closed one that there is none
      or that it ends a contact. */
  lemma {:induction false} TrackLast(es: seq<Event>, s: int)
    requires Track(false, Closed, es, s) != Broken
    ensures Track(false, Closed, es, s) == if Idle(es, s) then Closed else Opened
  {
    if es != [] && es[|es| - 1].slot != s {
      TrackLast(es[..|es| - 1], s);
    }
  }

  /** The life cycle without an automaton: an event of `s` is a DOWN exactly when the last
      event of `s` before it, if any, ends a contact. */
  ghost predicate Follows(es: seq<Event>, s: int) {
    forall j :: 0 <= j < |es| && es[j].slot == s ==> (es[j].kind.Down? <==> Idle(es[..j], s))
  }

  lemma {:induction false} BracketedMeaning(es: seq<Event>, s: int)
    ensures Track(false, Closed, es, s) != Broken <==> Follows(es, s)
  {
    if es != [] {
      var n := |es| - 1;
      var es' := es[..n];
      BracketedMeaning(es', s);
      assert forall j | 0 <= j <= n :: es'[..j] == es[..j];
      assert Follows(es, s) <==> Follows(es', s) && (es[n].slot == s ==> (es[n].kind.Down? <==> Idle(es', s)));
      if Track(false, Closed, es', s) != Broken {
        TrackLast(es', s);
      }
    }
  }
}
