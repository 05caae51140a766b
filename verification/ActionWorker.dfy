/** The child-process worker: client calls, monitor iterations and child exits interleave as
    atomic steps, because every one of them holds the worker's lock. */
module ActionWorker {

  datatype Exit = Code(code: int) | Killed(signal: int) | Unknown

  /** What the monitor reports for a reaped child. */
  function StatusOf(e: Exit): int {
    match e
    case Code(c) => c
    case Killed(s) => 128 + s
    case Unknown => -1
  }

  datatype Worker = Worker(
    pid: int, busy: bool, pending: bool, result: int, stopped: bool, released: bool, deadline: int)

  const IDLE := Worker(0, false, false, 0, false, false, 0)

  /** The nonblocking wait's answer: nothing yet, the child's end, or no such child. */
  datatype Wait = Nothing | Got(exit: Exit) | NoChild

  predicate Stoppable(w: Worker) { w.pid != 0 && !w.stopped }

  /** stop_child: two SIGKILLs and an immediate completion, once per child. */
  function Stop(w: Worker): Worker {
    if Stoppable(w) then w.(stopped := true, busy := false, result := -1, pending := true) else w
  }

  predicate CanStart(w: Worker, timeout: int) {
    timeout > 0 && w.pid == 0 && !w.pending
  }

  /** aw_start once its arguments, limits and clock are in order; `fork` is the new pid, or
      not positive when the fork failed. */
  function Launch(w: Worker, now: int, timeout: int, fork: int): Worker {
    var d := w.(deadline := now + timeout * 1000);
    if fork <= 0 then d else d.(pid := fork, busy := true, stopped := false)
  }

  function Poll(w: Worker): Worker { w.(pending := false) }

  function Release(w: Worker): Worker { Stop(w).(released := true) }

  predicate Expired(w: Worker, now: int) {
    w.released || now < 0 || now >= w.deadline
  }

  /** One monitor iteration on a worker with a child. */
  function Watch(w: Worker, now: int, wait: Wait): Worker {
    var s := if Expired(w, now) then Stop(w) else w;
    match wait
    case Nothing => s
    case Got(e) => (if s.stopped then s else s.(result := StatusOf(e), pending := true, busy := false)).(pid := 0)
    case NoChild => (if s.stopped then s else s.(result := -1, pending := true, busy := false)).(pid := 0)
  }

  // ---------- The worker in its world ----------

  /** The operating system's view of the current child. `Gone` is reaped, by whomever. */
  datatype Child = Absent | Running | Zombie(exit: Exit) | Gone

  /** How a child's completion came about. */
  datatype Cause = Stopped | Ended(exit: Exit) | Vanished

  /** The worker, the child, and what has been observed: children started, completions raised
      (with cause and value) and polled, children reaped, whether the object is freed, and
      whether a signal was sent to a pid that had been reaped. */
  datatype World = World(
    w: Worker, child: Child, started: nat, raised: seq<(Cause, int)>, polled: seq<int>, reaped: nat,
    freed: bool, strayed: bool, stolen: bool)

  function Boot(): World { World(IDLE, Absent, 0, [], [], 0, false, false, false) }

  datatype Step =
    | StartCall(ready: bool, now: int, timeout: int, fork: int)
    | CancelCall
    | PollCall
    | FreeCall
    | Monitor(now: int)
    | ChildEnds(exit: Exit)
    | Steal

  /** Clients stop using the worker once they release it; the monitor runs until it frees the
      object and sleeps while there is nothing to do; `Steal` is another party reaping the child. */
  predicate Enabled(s: World, step: Step) {
    match step
    case StartCall(_, _, _, _) => !s.w.released && !s.freed
    case CancelCall => !s.w.released && !s.freed
    case PollCall => !s.w.released && !s.freed
    case FreeCall => !s.w.released && !s.freed
    case Monitor(_) => !s.freed && (s.w.pid != 0 || s.w.released)
    case ChildEnds(_) => s.child == Running
    case Steal => s.child.Zombie?
  }

  function WaitFor(c: Child): Wait {
    match c
    case Absent => NoChild
    case Running => Nothing
    case Zombie(e) => Got(e)
    case Gone => NoChild
  }

  /** A stop, with its signals seen by the world. */
  function StopIn(s: World): World {
    if Stoppable(s.w) then
      s.(w := Stop(s.w), raised := s.raised + [(Stopped, -1)],
         strayed := s.strayed || !(s.child.Running? || s.child.Zombie?))
    else s
  }

  function Accepted(s: World, step: Step): bool {
    step.StartCall? && step.ready && CanStart(s.w, step.timeout) && step.now >= 0 && step.fork > 0
  }

  function Next(s: World, step: Step): World {
    match step
    case StartCall(ready, now, timeout, fork) =>
      if !ready || !CanStart(s.w, timeout) || now < 0 then s
      else
        var w := Launch(s.w, now, timeout, fork);
        if fork <= 0 then s.(w := w) else s.(w := w, child := Running, started := s.started + 1)
    case CancelCall => StopIn(s)
    case PollCall => if s.w.pending then s.(w := Poll(s.w), polled := s.polled + [s.w.result]) else s
    case FreeCall => var t := StopIn(s); t.(w := t.w.(released := true))
    case Monitor(now) =>
      if s.w.pid == 0 then (if s.w.released then s.(freed := true) else s)
      else
        var t := if Expired(s.w, now) then StopIn(s) else s;
        var wait := WaitFor(t.child);
        var w := Watch(s.w, now, wait);
        if wait.Nothing? then t
        else
          var cause := if wait.Got? then Ended(wait.exit) else Vanished;
          t.(w := w, child := if wait.Got? then Gone else t.child, reaped := t.reaped + 1,
             raised := if t.w.stopped then t.raised else t.raised + [(cause, w.result)])
    case ChildEnds(e) => s.(child := Zombie(e))
    case Steal => s.(child := Gone, stolen := true)
  }

  ghost predicate Inv(s: World) {
    var w := s.w;
    && (w.busy <==> w.pid != 0 && !w.stopped)
    && w.pid >= 0
    && s.started == s.reaped + (if w.pid != 0 then 1 else 0)
    && s.started == |s.raised| + (if w.busy then 1 else 0)
    && |s.raised| == |s.polled| + (if w.pending then 1 else 0)
    && (w.busy ==> !w.pending)
    && (w.pending ==> w.result == s.raised[|s.raised| - 1].1)
    && (forall k | 0 <= k < |s.polled| :: s.polled[k] == s.raised[k].1)
    && (forall c | c in s.raised :: c.1 == Value(c.0))
    && (!s.stolen && w.pid != 0 ==> s.child.Running? || s.child.Zombie?)
    && (w.pid == 0 ==> s.child.Absent? || s.child.Gone?)
    && (s.strayed ==> s.stolen)
    && (s.freed ==> w.released && w.pid == 0)
  }

  /** The value reported for each cause: the exit status only for a child reaped unstopped. */
  function Value(c: Cause): int {
    match c
    case Stopped => -1
    case Ended(e) => StatusOf(e)
    case Vanished => -1
  }

  lemma StopKeeps(s: World)
    requires Inv(s)
    ensures Inv(StopIn(s)) && StopIn(s).w == Stop(s.w)
    ensures StopIn(s) == s.(w := StopIn(s).w, raised := StopIn(s).raised, strayed := StopIn(s).strayed)
  {
  }

  /** Reaping after the iteration's stop, if any. */
  lemma ReapKeeps(t: World, wait: Wait, w: Worker, cause: Cause)
    requires Inv(t) && !t.freed && t.w.pid != 0 && wait == WaitFor(t.child) && !wait.Nothing?
    requires cause == (if wait.Got? then Ended(wait.exit) else Vanished)
    requires w == (if t.w.stopped then t.w else t.w.(result := Value(cause), pending := true, busy := false)).(pid := 0)
    ensures Inv(t.(w := w, child := if wait.Got? then Gone else t.child, reaped := t.reaped + 1,
                   raised := if t.w.stopped then t.raised else t.raised + [(cause, w.result)]))
  {
  }

  lemma MonitorKeeps(s: World, now: int)
    requires Inv(s) && Enabled(s, Monitor(now)) && s.w.pid != 0
    ensures Inv(Next(s, Monitor(now)))
  {
    StopKeeps(s);
    var t := if Expired(s.w, now) then StopIn(s) else s;
    var wait := WaitFor(t.child);
    if !wait.Nothing? {
      ReapKeeps(t, wait, Watch(s.w, now, wait), if wait.Got? then Ended(wait.exit) else Vanished);
    }
  }

  lemma StepKeeps(s: World, step: Step)
    requires Inv(s) && Enabled(s, step)
    ensures Inv(Next(s, step))
  {
    StopKeeps(s);
    if step.Monitor? && s.w.pid != 0 { MonitorKeeps(s, step.now); }
  }

  ghost predicate Linked(steps: seq<Step>, states: seq<World>, i: int)
    requires |states| == |steps| + 1 && 0 <= i < |steps|
  {
    Enabled(states[i], steps[i]) && states[i + 1] == Next(states[i], steps[i])
  }

  ghost predicate IsRun(steps: seq<Step>, states: seq<World>) {
    && |states| == |steps| + 1 && states[0] == Boot()
    && forall i | 0 <= i < |steps| :: Linked(steps, states, i)
  }

  lemma {:induction false} RunInv(steps: seq<Step>, states: seq<World>, n: nat)
    requires IsRun(steps, states) && n <= |steps|
    ensures Inv(states[n])
  {
    if n > 0 {
      RunInv(steps, states, n - 1);
      assert Linked(steps, states, n - 1);
      StepKeeps(states[n - 1], steps[n - 1]);
    }
  }

  /** Every accepted start raises exactly one completion and it is polled at most once, in every
      interleaving: the three counts differ only by the child that is busy and the completion
      that is pending. */
  lemma CompletionsBalance(steps: seq<Step>, states: seq<World>, n: nat)
    requires IsRun(steps, states) && n <= |steps|
    ensures var s := states[n];
            && s.started == |s.raised| + (if s.w.busy then 1 else 0)
            && |s.raised| == |s.polled| + (if s.w.pending then 1 else 0)
            && (forall k | 0 <= k < |s.polled| :: s.polled[k] == s.raised[k].1)
            && (s.w.busy <==> s.w.pid != 0 && !s.w.stopped)
  {
    RunInv(steps, states, n);
  }

  /** No second child starts until the first is both reaped and polled, and each accepted start
      counts once. */
  lemma OneChildAtATime(steps: seq<Step>, states: seq<World>, n: nat)
    requires IsRun(steps, states) && n < |steps|
    ensures var s := states[n];
            && (Accepted(s, steps[n]) ==>
                  s.started == s.reaped == |s.raised| == |s.polled| && (s.child.Absent? || s.child.Gone?))
            && (states[n + 1].started == s.started + (if Accepted(s, steps[n]) then 1 else 0))
  {
    RunInv(steps, states, n);
    assert Linked(steps, states, n);
  }

  /** A start is refused exactly when its arguments or environment fail, a child is unreaped, or
      a completion is unpolled. */
  lemma StartRefusedExactly(s: World, ready: bool, now: int, timeout: int, fork: int)
    requires Inv(s)
    ensures Accepted(s, StartCall(ready, now, timeout, fork)) <==>
            ready && timeout > 0 && now >= 0 && fork > 0 && s.started == s.reaped && |s.raised| == |s.polled|
  {
  }

  lemma {:induction false} RaisedGrows(steps: seq<Step>, states: seq<World>, i: nat, n: nat)
    requires IsRun(steps, states) && i <= n <= |steps|
    ensures states[i].raised <= states[n].raised
  {
    if i < n {
      RaisedGrows(steps, states, i, n - 1);
      assert Linked(steps, states, n - 1);
    }
  }

  /** The completion of a child carries its exit status only when a monitor iteration reaped it
      before anything stopped it; every other completion is -1. A raised completion is never
      changed or withdrawn. */
  lemma CompletionTellsTheCause(steps: seq<Step>, states: seq<World>, n: nat)
    requires IsRun(steps, states) && n < |steps|
    ensures var s, t := states[n], states[n + 1];
            && s.raised <= t.raised && |t.raised| <= |s.raised| + 1
            && (|t.raised| > |s.raised| ==>
                  var (cause, value) := t.raised[|s.raised|];
                  && value == Value(cause)
                  && s.w.busy && !s.w.pending && t.w.pending && t.w.result == value
                  && (cause == Stopped <==> t.w.stopped)
                  && (cause.Ended? ==> steps[n].Monitor? && !Expired(s.w, steps[n].now) && s.child == Zombie(cause.exit))
                  && (cause.Vanished? ==> s.stolen))
  {
    RunInv(steps, states, n);
    assert Linked(steps, states, n);
    StepTellsTheCause(states[n], steps[n]);
    hide Inv, Next, Enabled;
  }

  lemma StepTellsTheCause(s: World, step: Step)
    requires Inv(s) && Enabled(s, step)
    ensures var t := Next(s, step);
            && s.raised <= t.raised && |t.raised| <= |s.raised| + 1
            && (|t.raised| > |s.raised| ==>
                  var (cause, value) := t.raised[|s.raised|];
                  && value == Value(cause)
                  && s.w.busy && !s.w.pending && t.w.pending && t.w.result == value
                  && (cause == Stopped <==> t.w.stopped)
                  && (cause.Ended? ==> step.Monitor? && !Expired(s.w, step.now) && s.child == Zombie(cause.exit))
                  && (cause.Vanished? ==> s.stolen))
  {
    hide StatusOf;
  }

  /** A cancel, a release or an expired iteration on a pid that was not stopped yet: the steps that
      send signals. */
  predicate Signals(w: Worker, step: Step) {
    Stoppable(w) && (step.CancelCall? || step.FreeCall? || (step.Monitor? && Expired(w, step.now)))
  }

  /** Another party has reaped a child, and the monitor has not come round since. */
  ghost predicate StolenUnseen(steps: seq<Step>, i: nat)
    requires i <= |steps|
  {
    exists j: nat :: j < i && steps[j].Steal? && Unwatched(steps, j + 1, i)
  }

  predicate Unwatched(steps: seq<Step>, from: nat, to: nat)
    requires to <= |steps|
  {
    forall m | from <= m < to :: !steps[m].Monitor?
  }

  lemma StolenUnseenStep(steps: seq<Step>, i: nat)
    requires i < |steps|
    ensures StolenUnseen(steps, i + 1) <==> steps[i].Steal? || (StolenUnseen(steps, i) && !steps[i].Monitor?)
  {
    if steps[i].Steal? { assert Unwatched(steps, i + 1, i + 1); }
    if StolenUnseen(steps, i + 1) && !steps[i].Steal? {
      var j: nat :| j < i + 1 && steps[j].Steal? && Unwatched(steps, j + 1, i + 1);
      assert Unwatched(steps, j + 1, i);
    }
    if StolenUnseen(steps, i) && !steps[i].Monitor? {
      var j: nat :| j < i && steps[j].Steal? && Unwatched(steps, j + 1, i);
      assert Unwatched(steps, j + 1, i + 1);
    }
  }

  lemma GoneStep(s: World, step: Step)
    requires Inv(s) && Enabled(s, step) && (s.w.pid != 0 ==> !s.child.Absent?)
    ensures var t := Next(s, step);
            && (t.w.pid != 0 ==> !t.child.Absent?)
            && (t.w.pid != 0 && t.child.Gone? <==> step.Steal? || (s.w.pid != 0 && s.child.Gone? && !step.Monitor?))
  {
  }

  /** The worker holds the pid of a reaped child exactly from such a theft to the next iteration. */
  lemma {:induction false} GoneMeansStolen(steps: seq<Step>, states: seq<World>, n: nat)
    requires IsRun(steps, states) && n <= |steps|
    ensures states[n].w.pid != 0 ==> !states[n].child.Absent?
    ensures states[n].w.pid != 0 && states[n].child.Gone? <==> StolenUnseen(steps, n)
  {
    if n > 0 {
      GoneMeansStolen(steps, states, n - 1);
      RunInv(steps, states, n - 1);
      assert Linked(steps, states, n - 1);
      GoneStep(states[n - 1], steps[n - 1]);
      StolenUnseenStep(steps, n - 1);
    }
  }

  lemma StrayStep(steps: seq<Step>, states: seq<World>, n: nat)
    requires IsRun(steps, states) && n < |steps|
    ensures states[n + 1].strayed <==> states[n].strayed || (Signals(states[n].w, steps[n]) && StolenUnseen(steps, n))
  {
    GoneMeansStolen(steps, states, n);
    assert Linked(steps, states, n);
  }

  /** A signal has strayed exactly when some cancel, release or expired iteration of the run, on a
      pid not stopped yet, came after another party's reap with no iteration in between. */
  lemma {:induction false} StraysExactly(steps: seq<Step>, states: seq<World>, n: nat)
    requires IsRun(steps, states) && n <= |steps|
    ensures states[n].strayed <==>
            exists i: nat :: i < n && Signals(states[i].w, steps[i]) && StolenUnseen(steps, i)
  {
    if n > 0 {
      StraysExactly(steps, states, n - 1);
      StrayStep(steps, states, n - 1);
    }
  }

  ghost predicate NobodySteals(steps: seq<Step>) {
    forall i | 0 <= i < |steps| :: !steps[i].Steal?
  }

  lemma {:induction false} NothingStolen(steps: seq<Step>, states: seq<World>, n: nat)
    requires IsRun(steps, states) && n <= |steps| && NobodySteals(steps)
    ensures !states[n].stolen
  {
    if n > 0 {
      NothingStolen(steps, states, n - 1);
      assert Linked(steps, states, n - 1);
    }
  }

  /** While the monitor alone reaps, no signal ever goes to a reaped pid. */
  lemma NoStraySignal(steps: seq<Step>, states: seq<World>, n: nat)
    requires IsRun(steps, states) && n <= |steps| && NobodySteals(steps)
    ensures !states[n].strayed
  {
    RunInv(steps, states, n);
    NothingStolen(steps, states, n);
  }

  /** The condition is needed: another party's reap between the child's end and a cancel makes
      the cancel signal a pid that is no longer the child's. */
  lemma TheftStrays()
    ensures var s1 := Next(Boot(), StartCall(true, 0, 1, 7));
            var s2 := Next(s1, ChildEnds(Code(0)));
            var s3 := Next(s2, Steal);
            && Enabled(Boot(), StartCall(true, 0, 1, 7)) && Enabled(s1, ChildEnds(Code(0)))
            && Enabled(s2, Steal) && Enabled(s3, CancelCall) && Next(s3, CancelCall).strayed
  {
  }

  /** The object is freed only after it was released and its last child reaped, and nothing but
      the children's world moves after that. */
  lemma FreedLast(steps: seq<Step>, states: seq<World>, n: nat)
    requires IsRun(steps, states) && n <= |steps| && states[n].freed
    ensures states[n].w.released && states[n].started == states[n].reaped
    ensures states[n].child.Absent? || states[n].child.Gone?
    ensures forall step: Step :: !Enabled(states[n], step)
  {
    RunInv(steps, states, n);
  }

  /** Release leads to freedom: once the child has ended, two monitor iterations reap it and
      free the object, whatever the clock says. */
  lemma ReleasedIsFreed(s: World, t1: int, t2: int)
    requires Inv(s) && s.w.released && !s.freed && (s.w.pid != 0 ==> !s.child.Running?)
    ensures Enabled(s, Monitor(t1))
    ensures var a := Next(s, Monitor(t1));
            a.freed || (Enabled(a, Monitor(t2)) && Next(a, Monitor(t2)).freed)
  {
  }

  /** No child is busy past its deadline by more than one monitor iteration. */
  lemma DeadlineEndsBusy(s: World, now: int)
    requires Inv(s) && s.w.pid != 0 && (now >= s.w.deadline || now < 0) && !s.freed
    ensures Enabled(s, Monitor(now)) && !Next(s, Monitor(now)).w.busy
    ensures s.w.busy ==> Next(s, Monitor(now)).raised == s.raised + [(Stopped, -1)]
  {
  }

  /** What the caller reads for each end of a child that nothing stopped: its exit code, 128 and the signal
      that killed it, or -1; and the iteration that finds it ended before its deadline reports it. */
  lemma EndIsReported(s: World, now: int)
    requires Inv(s) && s.w.busy && s.child.Zombie? && !s.w.released && !s.freed && 0 <= now < s.w.deadline
    ensures var t, e := Next(s, Monitor(now)), s.child.exit;
            && Enabled(s, Monitor(now)) && t.w.pending && !t.w.busy && t.w.pid == 0
            && t.raised == s.raised + [(Ended(e), t.w.result)]
            && (e.Code? ==> t.w.result == e.code)
            && (e.Killed? ==> t.w.result - 128 == e.signal)
            && (e.Unknown? ==> t.w.result == -1)
  {
  }

  /** While a child is held, its deadline is the accepted start's time and as many seconds as that start
      allowed it, in milliseconds. */
  lemma {:induction false} DeadlineOfStart(steps: seq<Step>, states: seq<World>, n: nat) returns (i: nat)
    requires IsRun(steps, states) && n <= |steps| && states[n].w.pid != 0
    ensures i < n && Accepted(states[i], steps[i]) && states[i + 1].started == states[n].started
    ensures states[n].w.pid == steps[i].fork && states[n].w.deadline - steps[i].now == 1000 * steps[i].timeout
  {
    RunInv(steps, states, n - 1);
    assert Linked(steps, states, n - 1);
    ChildKept(states[n - 1], steps[n - 1]);
    i := n - 1;
    if !Accepted(states[n - 1], steps[n - 1]) {
      i := DeadlineOfStart(steps, states, n - 1);
    }
    hide Inv, Next, Enabled;
  }

  lemma ChildKept(s: World, step: Step)
    requires Inv(s) && Enabled(s, step) && Next(s, step).w.pid != 0
    ensures var t := Next(s, step);
            if Accepted(s, step) then t.w.pid == step.fork && t.w.deadline - step.now == 1000 * step.timeout
            else s.w.pid == t.w.pid && s.started == t.started && s.w.deadline == t.w.deadline
  {
  }

  /** A child that still runs when its time is up is stopped by the next iteration and reported as -1, and no
      iteration within its time stops it unless the clock fails or the worker was released. */
  lemma StoppedOnTime(steps: seq<Step>, states: seq<World>, n: nat) returns (i: nat)
    requires IsRun(steps, states) && n < |steps| && steps[n].Monitor? && states[n].w.busy && states[n].child.Running?
    ensures i < n && Accepted(states[i], steps[i]) && states[i + 1].started == states[n].started
    ensures states[n + 1].raised == states[n].raised + [(Stopped, -1)] <==>
            states[n].w.released || steps[n].now < 0 || steps[n].now - steps[i].now >= 1000 * steps[i].timeout
    ensures states[n + 1].raised == states[n].raised <==>
            !(states[n].w.released || steps[n].now < 0 || steps[n].now - steps[i].now >= 1000 * steps[i].timeout)
  {
    RunInv(steps, states, n);
    i := DeadlineOfStart(steps, states, n);
    assert Linked(steps, states, n);
  }

  // ---------- The worker object ----------

  /** Each method is the body of one lock-held section; the system calls' answers come in as
      parameters. */
  class ActionWorkerObject {
    var pid: int
    var busy: bool
    var pending: bool
    var result: int
    var stopped: bool
    var released: bool
    var deadline: int

    ghost function State(): Worker
      reads this
    {
      Worker(pid, busy, pending, result, stopped, released, deadline)
    }

    constructor ()
      ensures State() == IDLE
    {
      pid, busy, pending, result, stopped, released, deadline := 0, false, false, 0, false, false, 0;
    }

    method StopChild() returns (signalled: bool)
      modifies this
      ensures State() == Stop(old(State())) && signalled == Stoppable(old(State()))
    {
      if pid == 0 || stopped { return false; }
      signalled := true;
      stopped := true;
      busy := false;
      result := -1;
      pending := true;
    }

    method Cancel() returns (signalled: bool)
      modifies this
      ensures State() == Stop(old(State())) && signalled == Stoppable(old(State()))
    {
      signalled := false;
      if pid != 0 && !stopped { signalled := StopChild(); }
    }

    method Start(ready: bool, now: int, timeout: int, fork: int) returns (ok: bool)
      modifies this
      ensures ok == (ready && CanStart(old(State()), timeout) && now >= 0 && fork > 0)
      ensures State() == if ready && CanStart(old(State()), timeout) && now >= 0
                         then Launch(old(State()), now, timeout, fork) else old(State())
    {
      if timeout <= 0 { return false; }
      if pid != 0 || pending { return false; }
      if !ready || now < 0 { return false; }
      deadline := now + timeout * 1000;
      if fork <= 0 { return false; }
      pid, busy, stopped := fork, true, false;
      return true;
    }

    method PollResult() returns (raised: bool, status: int)
      modifies this
      ensures raised == old(pending) && (raised ==> status == old(result))
      ensures State() == if raised then Poll(old(State())) else old(State())
    {
      if !pending { return false, 0; }
      status := result;
      pending := false;
      raised := true;
    }

    method Free() returns (signalled: bool)
      modifies this
      ensures State() == Release(old(State())) && signalled == Stoppable(old(State()))
    {
      signalled := StopChild();
      released := true;
    }

    /** One monitor iteration that found a child; true when it was reaped. */
    method MonitorOnce(now: int, wait: Wait) returns (reaped: bool)
      requires pid != 0
      modifies this
      ensures State() == Watch(old(State()), now, wait) && reaped == !wait.Nothing?
    {
      if released || now < 0 || now >= deadline {
        var _ := StopChild();
      }
      reaped := wait.Got? || wait.NoChild?;
      if reaped {
        if !stopped {
          result := if wait.NoChild? then -1 else StatusOf(wait.exit);
          pending := true;
          busy := false;
        }
        pid := 0;
      }
    }
  }
}
