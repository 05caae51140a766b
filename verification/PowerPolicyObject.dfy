/** The brightness controller as the source writes it, proved to compute what PowerPolicy
    describes. The ring buffer is a fixed array. */
module PowerPolicyObject {
  import opened CArithmetic
  import opened P = PowerPolicy

  class Controller {
    const maxLevel: int
    var effectiveLevel: int
    var effectiveSource: int
    var supply: seq<Supply>
    var samples: int
    var currentSum: int
    const currentUa: array<int>
    var nextSample: int
    var windowStarted: int
    var lastRead: int
    var windowSource: int
    var windowFull: int
    var note: string

    ghost function State(): Policy
      reads this, currentUa
    {
      Policy(maxLevel, effectiveLevel, effectiveSource, supply, samples, currentSum, currentUa[..], nextSample,
             windowStarted, lastRead, windowSource, windowFull, note)
    }

    constructor (maxLevel: int, now: int)
      ensures State() == New(maxLevel, now) && fresh(currentUa)
    {
      this.maxLevel := maxLevel;
      effectiveLevel, effectiveSource := 0, NO_SOURCE;
      supply := [Supply(0, 0, 0, 0, 0), Supply(0, 0, 0, 0, 0)];
      samples, currentSum, nextSample := 0, 0, 0;
      currentUa := new int[3](_ => 0);
      windowStarted, lastRead, windowSource, windowFull := now, 0, NO_SOURCE, -1;
      note := "";
      new;
      assert currentUa[..] == [0, 0, 0];
    }

    method ResetWindow(now: int)
      modifies this
      ensures State() == P.ResetWindow(old(State()), now)
    {
      samples, currentSum, nextSample := 0, 0, 0;
      windowStarted := now;
      windowSource, windowFull := NO_SOURCE, -1;
    }

    method ApplyLevel(level: int, source: int) returns (applied: int)
      modifies this`effectiveLevel, this`effectiveSource
      ensures (State(), applied) == Apply(old(State()), level, source)
    {
      var changed := level != effectiveLevel;
      effectiveLevel, effectiveSource := level, source;
      applied := if changed then level else -1;
    }

    method Decide(source: int, average: int, now: int) returns (applied: int)
      requires Shaped(State()) && 0 <= source < 2
      modifies this
      ensures var was := old(State());
              var s := P.Decide(was.supply[source], maxLevel, average, now);
              (State(), applied) ==
              Apply(was.(supply := was.supply[source := s],
                         note := Note(was.supply[source], Floor(was), average)), s.level, source)
    {
      var s := supply[source];
      var floor := Minimum(40, maxLevel);
      note := "";
      if s.level == 0 {
        s := s.(level := floor);
      } else if average < -50000 {
        if s.level == floor {
          note := "cannot sustain";
        } else {
          var previous := s.level;
          s := s.(level := if s.level - 16 < floor then floor else s.level - 16);
          if s.lastUpLevel == previous && now - s.lastUpAt <= 60000 {
            s := s.(failedLevel := s.lastUpLevel, failedAt := now, lastUpLevel := 0);
          }
        }
      } else if average > 100000 && s.level < maxLevel {
        var candidate := s.level + 16;
        if candidate > maxLevel { candidate := maxLevel; }
        if !(candidate == s.failedLevel && now - s.failedAt < 600000) {
          s := s.(level := candidate, lastUpAt := now, lastUpLevel := candidate);
        }
      }
      supply := supply[source := s];
      applied := ApplyLevel(s.level, source);
    }

    method Push(ua: int)
      requires Shaped(State())
      modifies this`samples, this`currentSum, this`nextSample, currentUa
      ensures State() == P.Push(old(State()), ua)
    {
      if samples == 3 {
        currentSum := currentSum - currentUa[nextSample];
      } else {
        samples := samples + 1;
      }
      currentUa[nextSample] := ua;
      currentSum := currentSum + ua;
      nextSample := (nextSample + 1) % 3;
    }

    /** Readies the window for an accepted reading. */
    method Prepare(st: Status, now: int, ghost c: Call)
      requires c == Call(st, now, false)
      modifies this
      ensures State() == Prepared(old(State()), c)
    {
      if lastRead != 0 && st.readMs - lastRead > 15000 {
        ResetWindow(now - 10000);
      }
      lastRead := st.readMs;
      var source := Source(st);
      var full := if source >= 0 && st.word == "Full" then 1 else 0;
      if (windowSource != NO_SOURCE && windowSource != source) || (windowFull >= 0 && windowFull != full) {
        ResetWindow(now - 10000);
      }
      windowSource, windowFull := source, full;
    }

    method Step(st: Status, now: int, asleep: bool) returns (applied: int)
      requires Shaped(State())
      modifies this, currentUa
      ensures (State(), applied) == P.Step(old(State()), Call(st, now, asleep))
    {
      ghost var c := Call(st, now, asleep);
      if asleep {
        ResetWindow(now);
        lastRead := 0;
        return -1;
      }
      var age := now - st.readMs;
      var valid := st.onlineValid && st.usbValid && st.acValid && st.currentValid && st.capValid && st.wordValid &&
                   age >= 0 && age <= 10000 && (lastRead == 0 || st.readMs > lastRead);
      if !valid {
        ResetWindow(now);
        return -1;
      }
      if lastRead != 0 && st.readMs - lastRead < 5000 {
        ResetWindow(now);
        lastRead := st.readMs;
        return -1;
      }
      Prepare(st, now, c);
      Push(st.currentUa);
      if samples < 3 || now - windowStarted < 30000 { return -1; }
      var average := TruncDiv(currentSum, samples);
      ResetWindow(now);
      var source := Source(st);
      if source < 0 {
        note := "";
        applied := ApplyLevel(Minimum(128, maxLevel), -1);
        return;
      }
      if st.word == "Full" {
        note := "";
        applied := ApplyLevel(maxLevel, source + 2);
        return;
      }
      applied := Decide(source, average, now);
    }
  }
}
