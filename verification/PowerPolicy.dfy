/** The automatic brightness controller: what one call does, and what every decision of a run
    rests on. */
module PowerPolicy {
  import opened CArithmetic

  /** The level learned for one supply, the last raise, and the last level that failed. */
  datatype Supply = Supply(level: int, failedLevel: int, failedAt: int, lastUpAt: int, lastUpLevel: int)

  /** A ring of three current readings with its running sum, and the levels. */
  datatype Policy = Policy(
    maxLevel: int, effectiveLevel: int, effectiveSource: int, supply: seq<Supply>,
    samples: int, sum: int, ring: seq<int>, next: int,
    windowStarted: int, lastRead: int, windowSource: int, windowFull: int, note: string)

  datatype Status = Status(
    onlineValid: bool, usbValid: bool, acValid: bool, currentValid: bool, capValid: bool, wordValid: bool,
    usbOnline: bool, acOnline: bool, currentUa: int, word: string, readMs: int)

  datatype Call = Call(status: Status, now: int, asleep: bool)

  const NO_SOURCE := -2

  function Minimum(a: int, b: int): int { if a < b then a else b }

  function Floor(p: Policy): int { Minimum(40, p.maxLevel) }

  predicate Shaped(p: Policy) {
    |p.supply| == 2 && |p.ring| == 3 && 0 <= p.samples <= 3 && 0 <= p.next < 3
  }

  function New(maxLevel: int, now: int): (p: Policy)
    ensures Shaped(p)
  {
    var s := Supply(0, 0, 0, 0, 0);
    Policy(maxLevel, 0, NO_SOURCE, [s, s], 0, 0, [0, 0, 0], 0, now, 0, NO_SOURCE, -1, "")
  }

  function ResetWindow(p: Policy, now: int): Policy {
    p.(samples := 0, sum := 0, next := 0, windowStarted := now, windowSource := NO_SOURCE, windowFull := -1)
  }

  /** Which supply feeds the tablet: -1 battery, 0 USB, 1 AC. */
  function Source(st: Status): (s: int)
    ensures -1 <= s <= 1
  {
    if !st.usbOnline && !st.acOnline then -1 else if st.acOnline then 1 else 0
  }

  function Full(st: Status): int { if Source(st) >= 0 && st.word == "Full" then 1 else 0 }

  predicate Fresh(p: Policy, c: Call) {
    var st, age := c.status, c.now - c.status.readMs;
    && st.onlineValid && st.usbValid && st.acValid && st.currentValid && st.capValid && st.wordValid
    && 0 <= age <= 10000 && (p.lastRead == 0 || st.readMs > p.lastRead)
  }

  /** The reading came too soon after the last one. */
  predicate Hasty(p: Policy, c: Call) {
    p.lastRead != 0 && c.status.readMs - p.lastRead < 5000
  }

  predicate Late(p: Policy, c: Call) {
    p.lastRead != 0 && c.status.readMs - p.lastRead > 15000
  }

  /** The call's reading enters the window. */
  predicate Accepts(p: Policy, c: Call) {
    !c.asleep && Fresh(p, c) && !Hasty(p, c)
  }

  predicate SourceSwitch(p: Policy, st: Status) {
    || (p.windowSource != NO_SOURCE && p.windowSource != Source(st))
    || (p.windowFull >= 0 && p.windowFull != Full(st))
  }

  /** The window an accepted reading finds: cleared when the reading is late or the supply or the
      Full flag changed. */
  function Prepared(p: Policy, c: Call): Policy {
    var st := c.status;
    var p1 := (if Late(p, c) then ResetWindow(p, c.now - 10000) else p).(lastRead := st.readMs);
    (if SourceSwitch(p1, st) then ResetWindow(p1, c.now - 10000) else p1)
    .(windowSource := Source(st), windowFull := Full(st))
  }

  /** A reading enters the ring, which holds at most the last three. */
  function Push(p: Policy, ua: int): Policy
    requires Shaped(p)
  {
    var q := if p.samples == 3 then p.(sum := p.sum - p.ring[p.next]) else p.(samples := p.samples + 1);
    q.(ring := q.ring[q.next := ua], sum := q.sum + ua, next := (q.next + 1) % 3)
  }

  function Observe(p: Policy, c: Call): (r: Policy)
    requires Shaped(p)
    ensures Shaped(r) && r.supply == p.supply && r.maxLevel == p.maxLevel
  {
    Push(Prepared(p, c), c.status.currentUa)
  }

  predicate Ripe(p: Policy, now: int) {
    p.samples == 3 && now - p.windowStarted >= 30000
  }

  predicate Decides(p: Policy, c: Call)
    requires Shaped(p)
  {
    Accepts(p, c) && Ripe(Observe(p, c), c.now)
  }

  /** The average a decision uses; C's division. */
  function Average(p: Policy, c: Call): int
    requires Shaped(p) && Decides(p, c)
  {
    TruncDiv(Observe(p, c).sum, Observe(p, c).samples)
  }

  predicate Lowers(s: Supply, floor: int, average: int) {
    s.level != 0 && average < -50000 && s.level != floor
  }

  /** A drop within a minute of the raise that reached this level marks the level as failed. */
  predicate Fails(s: Supply, floor: int, average: int, now: int) {
    Lowers(s, floor, average) && s.lastUpLevel == s.level && now - s.lastUpAt <= 60000
  }

  function Candidate(s: Supply, maxLevel: int): int { Minimum(s.level + 16, maxLevel) }

  predicate Raises(s: Supply, maxLevel: int, average: int, now: int) {
    && s.level != 0 && average > 100000 && s.level < maxLevel
    && !(Candidate(s, maxLevel) == s.failedLevel && now - s.failedAt < 600000)
  }

  /** One decision on a charging supply. */
  function Decide(s: Supply, maxLevel: int, average: int, now: int): Supply {
    var floor := Minimum(40, maxLevel);
    if s.level == 0 then s.(level := floor)
    else if Lowers(s, floor, average) then
      var lowered := s.(level := if s.level - 16 < floor then floor else s.level - 16);
      if Fails(s, floor, average, now) then lowered.(failedLevel := s.lastUpLevel, failedAt := now, lastUpLevel := 0)
      else lowered
    else if Raises(s, maxLevel, average, now) then
      s.(level := Candidate(s, maxLevel), lastUpAt := now, lastUpLevel := Candidate(s, maxLevel))
    else s
  }

  function Apply(p: Policy, level: int, source: int): (Policy, int) {
    (p.(effectiveLevel := level, effectiveSource := source), if level != p.effectiveLevel then level else -1)
  }

  function Note(s: Supply, floor: int, average: int): string {
    if s.level != 0 && average < -50000 && s.level == floor then "cannot sustain" else ""
  }

  /** One call: the new state and the level to apply, or -1. */
  function Step(p: Policy, c: Call): (r: (Policy, int))
    requires Shaped(p)
    ensures Shaped(r.0) && r.0.maxLevel == p.maxLevel
  {
    if c.asleep then (ResetWindow(p, c.now).(lastRead := 0), -1)
    else if !Fresh(p, c) then (ResetWindow(p, c.now), -1)
    else if Hasty(p, c) then (ResetWindow(p, c.now).(lastRead := c.status.readMs), -1)
    else
      var seen := Observe(p, c);
      if !Ripe(seen, c.now) then (seen, -1)
      else
        var average := TruncDiv(seen.sum, seen.samples);
        var done := ResetWindow(seen, c.now);
        var source := Source(c.status);
        if source < 0 then Apply(done.(note := ""), Minimum(128, p.maxLevel), -1)
        else if Full(c.status) == 1 then Apply(done.(note := ""), p.maxLevel, source + 2)
        else
          var s := Decide(done.supply[source], p.maxLevel, average, c.now);
          Apply(done.(supply := done.supply[source := s],
                      note := Note(done.supply[source], Floor(p), average)), s.level, source)
  }

  // ---------- Runs ----------

  /** Call `i` takes state `i` to the next. */
  ghost predicate Linked(calls: seq<Call>, states: seq<Policy>, i: int)
    requires |states| == |calls| + 1 && 0 <= i < |calls|
  {
    Shaped(states[i]) && states[i + 1] == Step(states[i], calls[i]).0
  }

  ghost predicate IsRun(calls: seq<Call>, states: seq<Policy>) {
    && |states| == |calls| + 1
    && Shaped(states[0]) && states[0] == New(states[0].maxLevel, states[0].windowStarted)
    && states[0].maxLevel >= 8
    && (forall i | 0 <= i < |calls| :: Linked(calls, states, i))
  }

  lemma {:induction false} RunShaped(calls: seq<Call>, states: seq<Policy>, n: nat)
    requires IsRun(calls, states) && n <= |calls|
    ensures Shaped(states[n]) && states[n].maxLevel == states[0].maxLevel
  {
    if n > 0 {
      RunShaped(calls, states, n - 1);
      assert Linked(calls, states, n - 1);
    }
  }

  /** The ring position after `i`. */
  function After(i: int): (j: int)
    requires 0 <= i < 3
    ensures 0 <= j < 3 && j == (i + 1) % 3
  {
    if i == 2 then 0 else i + 1
  }

  /** The live entries of the ring, oldest first. */
  function Live(p: Policy): seq<int>
    requires Shaped(p)
  {
    if p.samples < 3 then p.ring[..p.samples]
    else [p.ring[p.next], p.ring[After(p.next)], p.ring[After(After(p.next))]]
  }

  function Sum(s: seq<int>): int
    requires |s| <= 3
  {
    (if |s| > 0 then s[0] else 0) + (if |s| > 1 then s[1] else 0) + (if |s| > 2 then s[2] else 0)
  }

  /** The running sum is the sum of what the ring holds, and an unfilled ring grows from 0. */
  predicate SumHolds(p: Policy)
    requires Shaped(p)
  {
    p.sum == Sum(Live(p)) && (p.samples < 3 ==> p.next == p.samples)
  }

  lemma PushShort(p: Policy, ua: int)
    requires Shaped(p) && SumHolds(p) && p.samples < 3
    ensures var r := Push(p, ua); SumHolds(r) && Live(r) == Live(p) + [ua]
  {
    var r := Push(p, ua);
    assert r.ring[..p.samples + 1] == p.ring[..p.samples] + [ua];
    if p.samples == 2 { assert Live(r) == [p.ring[0], p.ring[1], ua]; }
  }

  lemma PushLong(p: Policy, ua: int)
    requires Shaped(p) && SumHolds(p) && p.samples == 3
    ensures var r := Push(p, ua); SumHolds(r) && Live(r) == Live(p)[1..] + [ua]
  {
    var r := Push(p, ua);
    assert r.next == After(p.next) && After(After(After(p.next))) == p.next;
    assert Live(r) == [Live(p)[1], Live(p)[2], ua];
  }

  lemma PushLive(p: Policy, ua: int)
    requires Shaped(p) && SumHolds(p)
    ensures var r, kept := Push(p, ua), Live(p);
            SumHolds(r) && Live(r) == (if |kept| == 3 then kept[1..] else kept) + [ua]
  {
    if p.samples < 3 {
      PushShort(p, ua);
    } else {
      PushLong(p, ua);
    }
  }

  /** An accepted reading joins the live entries and the oldest of three leaves. */
  lemma ObserveLive(p: Policy, c: Call)
    requires Shaped(p) && SumHolds(p)
    ensures var r := Observe(p, c);
            && SumHolds(r) && r.lastRead == c.status.readMs
            && r.windowSource == Source(c.status) && r.windowFull == Full(c.status)
            && var kept := if Late(p, c) || SourceSwitch(p, c.status) then [] else Live(p);
               Live(r) == (if |kept| == 3 then kept[1..] else kept) + [c.status.currentUa]
  {
    var q := Prepared(p, c);
    assert Live(q) == if Late(p, c) || SourceSwitch(p, c.status) then [] else Live(p);
    PushLive(q, c.status.currentUa);
  }

  /** What a call does to the window. */
  lemma StepWindow(p: Policy, c: Call)
    requires Shaped(p)
    ensures var r := Step(p, c).0;
            if Accepts(p, c) && !Ripe(Observe(p, c), c.now) then r == Observe(p, c)
            else r.samples == r.sum == r.next == 0 && r.windowSource == NO_SOURCE && r.windowFull == -1
  {
  }

  lemma StepSum(p: Policy, c: Call)
    requires Shaped(p) && SumHolds(p)
    ensures SumHolds(Step(p, c).0)
  {
    if Accepts(p, c) { ObserveLive(p, c); }
    StepWindow(p, c);
  }

  lemma {:induction false} RunSum(calls: seq<Call>, states: seq<Policy>, n: nat)
    requires IsRun(calls, states) && n <= |calls|
    ensures Shaped(states[n]) && SumHolds(states[n])
  {
    if n > 0 {
      RunSum(calls, states, n - 1);
      assert Linked(calls, states, n - 1);
      StepSum(states[n - 1], calls[n - 1]);
    } else {
      assert Live(states[0]) == [];
    }
  }

  /** Readings `i - 1` and `i` are 5 to 15 seconds apart. */
  predicate GapOk(calls: seq<Call>, i: int)
    requires 0 < i < |calls|
  {
    5000 <= calls[i].status.readMs - calls[i - 1].status.readMs <= 15000
  }

  /** The last `k` of the first `n` calls were accepted one after another, from one supply with
      one Full flag, each 5 to 15 seconds after the one before, unless that one was stamped 0. */
  ghost predicate Steady(calls: seq<Call>, states: seq<Policy>, n: nat, k: nat)
    requires k <= n <= |calls| && |states| == |calls| + 1
  {
    && (forall i | n - k <= i < n ::
          && Accepts(states[i], calls[i])
          && Source(calls[i].status) == Source(calls[n - 1].status)
          && Full(calls[i].status) == Full(calls[n - 1].status))
    && (forall i | n - k < i < n :: calls[i - 1].status.readMs == 0 || GapOk(calls, i))
  }

  function Readings(calls: seq<Call>): (r: seq<int>)
    ensures |r| == |calls| && forall i | 0 <= i < |r| :: r[i] == calls[i].status.currentUa
  {
    seq(|calls|, i requires 0 <= i < |calls| => calls[i].status.currentUa)
  }

  /** The window always holds the readings of a steady tail of the run. */
  ghost predicate WindowHolds(calls: seq<Call>, states: seq<Policy>, n: nat)
    requires n <= |calls| && |states| == |calls| + 1 && Shaped(states[n])
  {
    var p := states[n];
    var k := p.samples;
    && k <= n && Steady(calls, states, n, k)
    && Live(p) == Readings(calls[n - k..n])
    && (k > 0 ==> p.lastRead == calls[n - 1].status.readMs && p.windowSource == Source(calls[n - 1].status)
                  && p.windowFull == Full(calls[n - 1].status))
    && (k == 0 ==> p.windowSource == NO_SOURCE && p.windowFull == -1)
  }

  /** The call's reading joins the window that is open. */
  predicate Continues(p: Policy, c: Call) { Accepts(p, c) && !Late(p, c) && !SourceSwitch(p, c.status) }

  /** A reading that neither came late nor switched the supply continues the tail. */
  lemma ContinuesTail(calls: seq<Call>, states: seq<Policy>, n: nat)
    requires |states| == |calls| + 1 && n < |calls|
    requires Shaped(states[n]) && WindowHolds(calls, states, n) && states[n].samples > 0
    requires Continues(states[n], calls[n])
    ensures calls[n - 1].status.readMs == 0 || GapOk(calls, n)
    ensures Source(calls[n].status) == Source(calls[n - 1].status) && Full(calls[n].status) == Full(calls[n - 1].status)
  {
  }

  lemma SteadyExtends(calls: seq<Call>, states: seq<Policy>, n: nat, kept: nat, k: nat)
    requires |states| == |calls| + 1 && kept <= n < |calls| && 1 <= k <= kept + 1
    requires Accepts(states[n], calls[n]) && Steady(calls, states, n, kept)
    requires kept > 0 ==>
      && (calls[n - 1].status.readMs == 0 || GapOk(calls, n))
      && Source(calls[n].status) == Source(calls[n - 1].status) && Full(calls[n].status) == Full(calls[n - 1].status)
    ensures Steady(calls, states, n + 1, k)
  {
  }

  lemma ReadingsExtend(calls: seq<Call>, n: nat, kept: nat)
    requires kept <= n < |calls| && kept <= 3
    ensures var r := Readings(calls[n - kept..n]);
            (if kept == 3 then r[1..] else r) + [calls[n].status.currentUa] ==
            Readings(calls[n + 1 - (if kept == 3 then 3 else kept + 1)..n + 1])
  {
    var now := if kept == 3 then 3 else kept + 1;
    var was, next := Readings(calls[n - kept..n]), Readings(calls[n + 1 - now..n + 1]);
    forall i | 0 <= i < now ensures next[i] == calls[n + 1 - now + i].status.currentUa { }
    forall i | 0 <= i < kept ensures was[i] == calls[n - kept + i].status.currentUa { }
  }

  lemma LiveLength(p: Policy)
    requires Shaped(p)
    ensures |Live(p)| == p.samples
  {
  }

  /** With `kept` readings of a steady tail in the window, a new one leaves a steady tail. */
  lemma TailGrows(calls: seq<Call>, states: seq<Policy>, n: nat, kept: nat, r: Policy)
    requires |states| == |calls| + 1 && kept <= n < |calls| && kept <= 3
    requires Accepts(states[n], calls[n]) && Steady(calls, states, n, kept)
    requires kept > 0 ==>
      && (calls[n - 1].status.readMs == 0 || GapOk(calls, n))
      && Source(calls[n].status) == Source(calls[n - 1].status) && Full(calls[n].status) == Full(calls[n - 1].status)
    requires Shaped(r)
    requires var was := Readings(calls[n - kept..n]);
             Live(r) == (if kept == 3 then was[1..] else was) + [calls[n].status.currentUa]
    ensures 0 < r.samples <= n + 1 && Steady(calls, states, n + 1, r.samples)
    ensures Live(r) == Readings(calls[n + 1 - r.samples..n + 1])
  {
    LiveLength(r);
    ReadingsExtend(calls, n, kept);
    SteadyExtends(calls, states, n, kept, r.samples);
  }

  lemma TailSteady(calls: seq<Call>, states: seq<Policy>, n: nat, r: Policy)
    requires |states| == |calls| + 1 && n < |calls|
    requires Shaped(states[n]) && WindowHolds(calls, states, n) && Accepts(states[n], calls[n])
    requires Shaped(r)
    requires var p, c := states[n], calls[n];
             var kept := if Late(p, c) || SourceSwitch(p, c.status) then [] else Live(p);
             Live(r) == (if |kept| == 3 then kept[1..] else kept) + [c.status.currentUa]
    ensures 0 < r.samples <= n + 1 && Steady(calls, states, n + 1, r.samples)
    ensures Live(r) == Readings(calls[n + 1 - r.samples..n + 1])
  {
    var p, c := states[n], calls[n];
    if Late(p, c) || SourceSwitch(p, c.status) {
      assert Readings(calls[n..n]) == [];
      TailGrows(calls, states, n, 0, r);
    } else {
      LiveLength(p);
      if p.samples > 0 { ContinuesTail(calls, states, n); }
      TailGrows(calls, states, n, p.samples, r);
    }
  }

  /** An accepted reading extends the steady tail or starts a new one. */
  lemma ObserveSteady(calls: seq<Call>, states: seq<Policy>, n: nat)
    requires |states| == |calls| + 1 && n < |calls|
    requires Shaped(states[n]) && SumHolds(states[n]) && WindowHolds(calls, states, n)
    requires Accepts(states[n], calls[n])
    ensures var r := Observe(states[n], calls[n]);
            && 0 < r.samples <= n + 1 && Steady(calls, states, n + 1, r.samples)
            && Live(r) == Readings(calls[n + 1 - r.samples..n + 1])
  {
    ObserveLive(states[n], calls[n]);
    TailSteady(calls, states, n, Observe(states[n], calls[n]));
  }

  lemma WindowStep(calls: seq<Call>, states: seq<Policy>, n: nat)
    requires |states| == |calls| + 1 && n < |calls|
    requires Shaped(states[n]) && SumHolds(states[n]) && WindowHolds(calls, states, n)
    requires Linked(calls, states, n)
    ensures Shaped(states[n + 1]) && WindowHolds(calls, states, n + 1)
  {
    var p, c, next := states[n], calls[n], states[n + 1];
    StepWindow(p, c);
    LiveLength(next);
    assert Readings(calls[n + 1..n + 1]) == [];
    if Accepts(p, c) && !Ripe(Observe(p, c), c.now) {
      ObserveSteady(calls, states, n);
      ObserveLive(p, c);
    }
  }

  lemma {:induction false} RunWindow(calls: seq<Call>, states: seq<Policy>, n: nat)
    requires IsRun(calls, states) && n <= |calls|
    ensures Shaped(states[n]) && WindowHolds(calls, states, n)
  {
    RunSum(calls, states, n);
    if n > 0 {
      RunWindow(calls, states, n - 1);
      RunSum(calls, states, n - 1);
      assert Linked(calls, states, n - 1);
      WindowStep(calls, states, n - 1);
    } else {
      assert Readings(calls[0..0]) == [];
    }
  }

  /** Every decision rests on exactly the last three readings: consecutive accepted calls from
      one supply with one Full flag, averaged with C's division, each 5 to 15 seconds after the one
      before unless that one was stamped 0. */
  lemma DecisionsAreJustified(calls: seq<Call>, states: seq<Policy>, n: nat)
    requires IsRun(calls, states) && n < |calls|
    requires Shaped(states[n]) && Decides(states[n], calls[n])
    ensures n >= 2 && Steady(calls, states, n + 1, 3)
    ensures Average(states[n], calls[n]) ==
            TruncDiv(calls[n - 2].status.currentUa + calls[n - 1].status.currentUa + calls[n].status.currentUa, 3)
  {
    RunWindow(calls, states, n);
    RunSum(calls, states, n);
    ObserveSteady(calls, states, n);
    ObserveLive(states[n], calls[n]);
    SumOfReadings(Observe(states[n], calls[n]), calls, n);
  }

  /** So both gaps behind a decision are in range exactly when those after a 0 stamp are. */
  lemma GapsHoldExactly(calls: seq<Call>, states: seq<Policy>, n: nat)
    requires IsRun(calls, states) && n < |calls|
    requires Shaped(states[n]) && Decides(states[n], calls[n])
    ensures n >= 2
    ensures GapOk(calls, n - 1) && GapOk(calls, n) <==>
            && (calls[n - 2].status.readMs == 0 ==> GapOk(calls, n - 1))
            && (calls[n - 1].status.readMs == 0 ==> GapOk(calls, n))
  {
    DecisionsAreJustified(calls, states, n);
  }

  lemma SumOfReadings(r: Policy, calls: seq<Call>, n: nat)
    requires Shaped(r) && SumHolds(r) && 2 <= n < |calls| && Live(r) == Readings(calls[n - 2..n + 1])
    ensures r.sum == calls[n - 2].status.currentUa + calls[n - 1].status.currentUa + calls[n].status.currentUa
  {
  }

  /** A call that continues the window of `p` with a reading taken at `ms`. */
  function Witness(p: Policy, ms: int): Call {
    Call(Status(true, true, true, true, true, true, p.windowSource == 0, p.windowSource == 1, 0,
                if p.windowFull == 1 then "Full" else "", ms), ms, false)
  }

  /** 0 doubles as "no reading yet": with a window open, whatever continues it is 5 to 15 seconds
      later exactly when the last reading was not stamped 0. */
  lemma GapGuardExactly(calls: seq<Call>, states: seq<Policy>, n: nat)
    requires IsRun(calls, states) && n <= |calls|
    ensures Shaped(states[n])
    ensures var p := states[n];
            p.samples > 0 ==>
              (p.lastRead != 0 <==> forall c | Continues(p, c) :: 5000 <= c.status.readMs - p.lastRead <= 15000)
  {
    var p := states[n];
    RunWindow(calls, states, n);
    if p.samples > 0 && p.lastRead == 0 {
      var c := Witness(p, 3600000);
      assert Continues(p, c) && c.status.readMs - p.lastRead == 3600000;
    }
  }

  /** An hour's gap can then stand behind a decision. */
  lemma ZeroStampHidesGap()
    ensures var st := Status(true, true, true, true, true, true, false, false, 7, "", 0);
            var first := Step(New(8, 0), Call(st, 0, false)).0;
            var second := Step(first, Call(st.(readMs := 3600000), 3600000, false)).0;
            Decides(second, Call(st.(readMs := 3605000), 3605000, false))
  {
    var st := Status(true, true, true, true, true, true, false, false, 7, "", 0);
    var first := Step(New(8, 0), Call(st, 0, false)).0;
    assert first.samples == 1 && first.lastRead == 0;
    var second := Step(first, Call(st.(readMs := 3600000), 3600000, false)).0;
    assert second.samples == 2 && second.windowStarted == 0;
  }

  // ---------- Pace ----------

  ghost predicate TimeFlows(calls: seq<Call>) {
    forall i, j | 0 <= i <= j < |calls| :: calls[i].now <= calls[j].now
  }

  lemma {:induction false} WindowStartsAfter(calls: seq<Call>, states: seq<Policy>, i: nat, n: nat)
    requires IsRun(calls, states) && TimeFlows(calls) && i < n <= |calls|
    requires Shaped(states[i]) && Decides(states[i], calls[i])
    ensures Shaped(states[n]) && states[n].windowStarted >= calls[i].now - 10000
  {
    RunShaped(calls, states, n);
    assert Linked(calls, states, n - 1);
    if n > i + 1 { WindowStartsAfter(calls, states, i, n - 1); }
  }

  /** Two decisions of a run are at least 20 seconds apart. */
  lemma DecisionsAreSpaced(calls: seq<Call>, states: seq<Policy>, i: nat, j: nat)
    requires IsRun(calls, states) && TimeFlows(calls) && i < j < |calls|
    requires Shaped(states[i]) && Decides(states[i], calls[i])
    requires Shaped(states[j]) && Decides(states[j], calls[j])
    ensures calls[j].now - calls[i].now >= 20000
  {
    WindowStartsAfter(calls, states, i, j);
  }

  // ---------- Levels ----------

  predicate LevelOk(p: Policy, s: Supply) {
    s.level == 0 || Floor(p) <= s.level <= p.maxLevel
  }

  lemma DecideLevel(s: Supply, maxLevel: int, average: int, now: int)
    requires maxLevel >= 8 && (s.level == 0 || Minimum(40, maxLevel) <= s.level <= maxLevel)
    ensures var level := Decide(s, maxLevel, average, now).level;
            && Minimum(40, maxLevel) <= level <= maxLevel
            && (s.level != 0 ==> -16 <= level - s.level <= 16)
  {
  }

  lemma StepSupply(p: Policy, c: Call, k: nat)
    requires Shaped(p) && p.maxLevel >= 8 && k < 2 && LevelOk(p, p.supply[k])
    ensures var r := Step(p, c).0;
            && LevelOk(r, r.supply[k])
            && (p.supply[k].level != 0 ==> -16 <= r.supply[k].level - p.supply[k].level <= 16)
            && (r.supply[k] != p.supply[k] ==> Decides(p, c) && Source(c.status) == k && Full(c.status) == 0)
  {
    if Decides(p, c) { DecideLevel(p.supply[k], p.maxLevel, Average(p, c), c.now); }
  }

  lemma StepApplied(p: Policy, c: Call)
    requires Shaped(p) && p.maxLevel >= 8 && LevelOk(p, p.supply[0]) && LevelOk(p, p.supply[1])
    ensures var (r, applied) := Step(p, c);
            && applied == (if r.effectiveLevel != p.effectiveLevel then r.effectiveLevel else -1)
            && (!Decides(p, c) ==> r.effectiveLevel == p.effectiveLevel)
            && (Decides(p, c) ==> 8 <= r.effectiveLevel <= p.maxLevel)
  {
    if Decides(p, c) {
      DecideLevel(p.supply[0], p.maxLevel, Average(p, c), c.now);
      DecideLevel(p.supply[1], p.maxLevel, Average(p, c), c.now);
    }
  }

  lemma StepLevels(p: Policy, c: Call)
    requires Shaped(p) && p.maxLevel >= 8 && forall s | s in p.supply :: LevelOk(p, s)
    ensures var r := Step(p, c).0;
            && (forall s | s in r.supply :: LevelOk(r, s))
            && (forall k | 0 <= k < 2 && p.supply[k].level != 0 ::
                  -16 <= r.supply[k].level - p.supply[k].level <= 16)
            && (forall k | 0 <= k < 2 && r.supply[k] != p.supply[k] ::
                  Decides(p, c) && Source(c.status) == k && Full(c.status) == 0)
    ensures var (r, applied) := Step(p, c);
            && applied == (if r.effectiveLevel != p.effectiveLevel then r.effectiveLevel else -1)
            && (!Decides(p, c) ==> r.effectiveLevel == p.effectiveLevel)
            && (Decides(p, c) ==> 8 <= r.effectiveLevel <= p.maxLevel)
  {
    assert LevelOk(p, p.supply[0]) && LevelOk(p, p.supply[1]);
    StepSupply(p, c, 0);
    StepSupply(p, c, 1);
    StepApplied(p, c);
  }

  lemma {:induction false} RunLevels(calls: seq<Call>, states: seq<Policy>, n: nat)
    requires IsRun(calls, states) && n <= |calls|
    ensures Shaped(states[n]) && states[n].maxLevel == states[0].maxLevel
    ensures forall s | s in states[n].supply :: LevelOk(states[n], s)
  {
    RunShaped(calls, states, n);
    if n > 0 {
      RunLevels(calls, states, n - 1);
      assert Linked(calls, states, n - 1);
      StepLevels(states[n - 1], calls[n - 1]);
    }
  }

  /** In every run a supply's level is unset or between the floor and the maximum, moves by at
      most 16 once set, and moves only in a decision on that supply. */
  lemma LevelsMoveSlowly(calls: seq<Call>, states: seq<Policy>, n: nat, k: nat)
    requires IsRun(calls, states) && n < |calls| && k < 2
    ensures Shaped(states[n]) && Shaped(states[n + 1])
    ensures LevelOk(states[n], states[n].supply[k])
    ensures var a, b := states[n].supply[k].level, states[n + 1].supply[k].level;
            && (a != 0 ==> -16 <= b - a <= 16)
            && (a == 0 ==> b == 0 || b == Floor(states[n]))
            && (b != a ==> Decides(states[n], calls[n]) && Source(calls[n].status) == k)
  {
    RunLevels(calls, states, n);
    RunShaped(calls, states, n + 1);
    assert states[n].supply[k] in states[n].supply;
    assert Linked(calls, states, n);
    StepLevels(states[n], calls[n]);
  }

  // ---------- When there is a decision, and what it applies ----------

  /** Every reading behind a decision was whole and at most ten seconds old. */
  lemma DecisionsTrustReadings(calls: seq<Call>, states: seq<Policy>, n: nat, m: nat)
    requires IsRun(calls, states) && n < |calls|
    requires Shaped(states[n]) && Decides(states[n], calls[n])
    requires n - 2 <= m <= n
    ensures var st := calls[m].status;
            && st.onlineValid && st.usbValid && st.acValid && st.currentValid && st.capValid && st.wordValid
            && st.readMs <= calls[m].now <= st.readMs + 10000 && !calls[m].asleep
  {
    DecisionsAreJustified(calls, states, n);
    assert Accepts(states[m], calls[m]);
  }

  /** A decision applies 128, or the maximum if that is less, with no supply; the maximum when the battery is
      full; and otherwise the level of the supply, AC before USB. It is handed out when it is a change, and it
      says that the supply cannot sustain the tablet exactly when the average is below -50 mA at the floor. */
  lemma DecisionsApply(calls: seq<Call>, states: seq<Policy>, n: nat)
    requires IsRun(calls, states) && n < |calls|
    requires Shaped(states[n]) && Decides(states[n], calls[n])
    ensures Shaped(states[n + 1])
    ensures var p, r, st := states[n], states[n + 1], calls[n].status;
            var none, full := !st.usbOnline && !st.acOnline, st.word == "Full";
            var k := if st.acOnline then 1 else 0;
            && (none ==> r.effectiveLevel <= 128 && r.effectiveLevel <= p.maxLevel && r.effectiveSource == -1
                         && (r.effectiveLevel == 128 || r.effectiveLevel == p.maxLevel))
            && (!none && full ==> r.effectiveLevel == p.maxLevel && r.effectiveSource == 2 + k)
            && (none || full ==> r.supply == p.supply && r.note == "")
            && (!none && !full ==>
                  && r.effectiveLevel == r.supply[k].level && r.effectiveSource == k && r.supply[1 - k] == p.supply[1 - k]
                  && r.note == (if Average(p, calls[n]) < -50000 && p.supply[k].level == Floor(p) then "cannot sustain"
                                else ""))
            && Step(p, calls[n]).1 == (if r.effectiveLevel == p.effectiveLevel then -1 else r.effectiveLevel)
  {
    RunLevels(calls, states, n);
    assert Linked(calls, states, n);
    assert Floor(states[n]) >= 8;
  }

  /** Readings that continue an open window fill it, and it keeps its beginning. */
  lemma {:induction false} WindowFills(calls: seq<Call>, states: seq<Policy>, i: nat, n: nat)
    requires IsRun(calls, states) && i <= n <= |calls| && Shaped(states[i])
    requires forall m | i <= m < n :: Shaped(states[m]) && Continues(states[m], calls[m]) && !Decides(states[m], calls[m])
    ensures Shaped(states[n]) && states[n].windowStarted == states[i].windowStarted
    ensures states[n].samples == Minimum(3, states[i].samples + n - i)
  {
    if i < n {
      WindowFills(calls, states, i, n - 1);
      assert Linked(calls, states, n - 1);
    }
  }

  /** After a call that was refused or decided, as long as every reading continues the window, the third or a
      later one decides exactly when 30 seconds have passed since that call. */
  lemma DecidesExactly(calls: seq<Call>, states: seq<Policy>, i: nat, n: nat)
    requires IsRun(calls, states) && i < n < |calls| && Shaped(states[i])
    requires Accepts(states[i], calls[i]) ==> Decides(states[i], calls[i])
    requires forall m | i < m <= n :: Shaped(states[m]) && Continues(states[m], calls[m])
    requires forall m | i < m < n :: !Decides(states[m], calls[m])
    ensures Decides(states[n], calls[n]) <==> n - i >= 3 && calls[n].now - calls[i].now >= 30000
  {
    assert Linked(calls, states, i);
    WindowFills(calls, states, i + 1, n);
  }

  /** A reading that is late or switches the supply opens a window ten seconds back: the second reading after
      it, or a later one, decides exactly when 20 seconds have passed. */
  lemma ReopenedDecidesExactly(calls: seq<Call>, states: seq<Policy>, i: nat, n: nat)
    requires IsRun(calls, states) && i < n < |calls| && Shaped(states[i])
    requires Accepts(states[i], calls[i]) && (Late(states[i], calls[i]) || SourceSwitch(states[i], calls[i].status))
    requires forall m | i < m <= n :: Shaped(states[m]) && Continues(states[m], calls[m])
    requires forall m | i < m < n :: !Decides(states[m], calls[m])
    ensures Decides(states[n], calls[n]) <==> n - i >= 2 && calls[n].now - calls[i].now >= 20000
  {
    assert Linked(calls, states, i);
    assert !Decides(states[i], calls[i]);
    WindowFills(calls, states, i + 1, n);
  }

  // ---------- Back-off ----------

  /** Call `n` decides on supply `k` while it is charging and not full. */
  predicate DecidesOn(calls: seq<Call>, states: seq<Policy>, n: nat, k: nat)
    requires n < |calls| && |states| == |calls| + 1
  {
    Shaped(states[n]) && Decides(states[n], calls[n]) && Source(calls[n].status) == k && Full(calls[n].status) == 0
  }

  predicate RaisesAt(calls: seq<Call>, states: seq<Policy>, n: nat, k: nat)
    requires n < |calls| && |states| == |calls| + 1 && k < 2
  {
    && DecidesOn(calls, states, n, k)
    && Raises(states[n].supply[k], states[n].maxLevel, Average(states[n], calls[n]), calls[n].now)
  }

  predicate FailsAt(calls: seq<Call>, states: seq<Policy>, n: nat, k: nat)
    requires n < |calls| && |states| == |calls| + 1 && k < 2
  {
    && DecidesOn(calls, states, n, k)
    && Fails(states[n].supply[k], Floor(states[n]), Average(states[n], calls[n]), calls[n].now)
  }

  /** The level follows the current: in a charging decision it falls exactly when the average of
      the last three readings is below -50 mA and there is room above the floor, rises from a set
      level only above 100 mA, by one cut step of 16, and holds above 100 mA only at the maximum
      or when that step failed less than ten minutes ago. */
  lemma LevelsFollowCurrent(calls: seq<Call>, states: seq<Policy>, n: nat, k: nat)
    requires IsRun(calls, states) && n < |calls| && k < 2
    requires DecidesOn(calls, states, n, k)
    ensures n >= 2 && Shaped(states[n]) && Shaped(states[n + 1])
    ensures var was, max := states[n].supply[k], states[n].maxLevel;
            var a, b := was.level, states[n + 1].supply[k].level;
            var ua := calls[n - 2].status.currentUa + calls[n - 1].status.currentUa + calls[n].status.currentUa;
            && states[n + 1].effectiveLevel == b
            && (b < a <==> TruncDiv(ua, 3) < -50000 && a > Floor(states[n]))
            && (b < a ==> b == a - 16 || (b == Floor(states[n]) && a - b < 16))
            && (b > a > 0 ==> TruncDiv(ua, 3) > 100000 && (b == a + 16 || (b == max && b - a < 16)))
            && (b == a > 0 && TruncDiv(ua, 3) > 100000 ==>
                  a == max || (was.failedLevel == Candidate(was, max) && calls[n].now - was.failedAt < 600000))
  {
    DecisionsAreJustified(calls, states, n);
    RunLevels(calls, states, n);
    RunShaped(calls, states, n + 1);
    assert states[n].supply[k] in states[n].supply;
    assert Linked(calls, states, n);
  }

  lemma DecideEffect(s: Supply, maxLevel: int, average: int, now: int)
    ensures var r, floor := Decide(s, maxLevel, average, now), Minimum(40, maxLevel);
            && (if Raises(s, maxLevel, average, now)
                then r.lastUpAt == now && r.lastUpLevel == r.level == Candidate(s, maxLevel)
                else r.lastUpLevel == 0 || (r.lastUpLevel == s.lastUpLevel && r.lastUpAt == s.lastUpAt))
            && (if Fails(s, floor, average, now)
                then r.failedLevel == s.level && r.failedAt == now && (s.level >= floor ==> r.level < s.level)
                else r.failedLevel == s.failedLevel && r.failedAt == s.failedAt)
  {
  }

  /** What a call does to one supply's records. */
  lemma SupplyEffect(calls: seq<Call>, states: seq<Policy>, n: nat, k: nat)
    requires IsRun(calls, states) && n < |calls| && k < 2
    ensures Shaped(states[n]) && Shaped(states[n + 1])
    ensures var s, r := states[n].supply[k], states[n + 1].supply[k];
            && (if RaisesAt(calls, states, n, k)
                then r.lastUpAt == calls[n].now && r.lastUpLevel == r.level == Candidate(s, states[n].maxLevel)
                else r.lastUpLevel == 0 || (r.lastUpLevel == s.lastUpLevel && r.lastUpAt == s.lastUpAt))
            && (if FailsAt(calls, states, n, k)
                then r.failedLevel == s.level && r.failedAt == calls[n].now &&
                     (s.level >= Floor(states[n]) ==> r.level < s.level)
                else r.failedLevel == s.failedLevel && r.failedAt == s.failedAt)
  {
    RunShaped(calls, states, n);
    RunShaped(calls, states, n + 1);
    assert Linked(calls, states, n);
    if DecidesOn(calls, states, n, k) {
      DecideEffect(states[n].supply[k], states[n].maxLevel, Average(states[n], calls[n]), calls[n].now);
    }
  }

  /** The record of the last raise is true: some earlier call made it. */
  lemma {:induction false} RaiseRecorded(calls: seq<Call>, states: seq<Policy>, n: nat, k: nat) returns (r: nat)
    requires IsRun(calls, states) && n <= |calls| && k < 2
    requires Shaped(states[n]) && states[n].supply[k].lastUpLevel != 0
    ensures r < n && RaisesAt(calls, states, r, k) && Shaped(states[r + 1])
    ensures calls[r].now == states[n].supply[k].lastUpAt
    ensures states[r + 1].supply[k].level == states[n].supply[k].lastUpLevel
  {
    r := n - 1;
    SupplyEffect(calls, states, n - 1, k);
    if !RaisesAt(calls, states, n - 1, k) {
      r := RaiseRecorded(calls, states, n - 1, k);
    }
  }

  /** A failed level is one an earlier call raised to at most a minute before. */
  lemma FailuresAreRecent(calls: seq<Call>, states: seq<Policy>, n: nat, k: nat) returns (r: nat)
    requires IsRun(calls, states) && n < |calls| && k < 2 && FailsAt(calls, states, n, k)
    ensures Shaped(states[n]) && Shaped(states[n + 1])
    ensures r < n && RaisesAt(calls, states, r, k) && Shaped(states[r + 1])
    ensures states[r + 1].supply[k].level == states[n].supply[k].level && calls[n].now - calls[r].now <= 60000
    ensures states[n + 1].supply[k].failedLevel == states[n].supply[k].level
    ensures states[n + 1].supply[k].level < states[n].supply[k].level
  {
    RunLevels(calls, states, n);
    assert states[n].supply[k] in states[n].supply;
    SupplyEffect(calls, states, n, k);
    r := RaiseRecorded(calls, states, n, k);
  }

  lemma {:induction false} FailureKept(calls: seq<Call>, states: seq<Policy>, i: nat, n: nat, k: nat)
    requires IsRun(calls, states) && i < n <= |calls| && k < 2 && FailsAt(calls, states, i, k)
    requires forall f | i < f < n :: !FailsAt(calls, states, f, k)
    ensures Shaped(states[n]) && Shaped(states[i])
    ensures states[n].supply[k].failedLevel == states[i].supply[k].level && states[n].supply[k].failedAt == calls[i].now
  {
    RunLevels(calls, states, i);
    assert states[i].supply[k] in states[i].supply;
    SupplyEffect(calls, states, n - 1, k);
    if n > i + 1 {
      FailureKept(calls, states, i, n - 1, k);
      assert !FailsAt(calls, states, n - 1, k);
    }
  }

  /** After a level failed it is not raised to again for ten minutes, unless another failure of
      that supply has been recorded in between. */
  lemma FailedLevelNotRetried(calls: seq<Call>, states: seq<Policy>, i: nat, j: nat, k: nat)
    requires IsRun(calls, states) && i < j < |calls| && k < 2
    requires FailsAt(calls, states, i, k) && RaisesAt(calls, states, j, k)
    requires forall f | i < f < j :: !FailsAt(calls, states, f, k)
    ensures Shaped(states[i]) && Shaped(states[j + 1])
    ensures states[j + 1].supply[k].level == states[i].supply[k].level ==> calls[j].now - calls[i].now >= 600000
  {
    FailureKept(calls, states, i, j, k);
    SupplyEffect(calls, states, j, k);
  }
}
