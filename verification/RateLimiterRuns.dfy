/** What holds over every run of the rate limiter: the window law for each remembered agent, and
    that closing and reopening on the same table changes no answer. */
module RateLimiterRuns {
  import opened JsText
  import opened InsertionOrder
  import opened Gcra
  import opened RateLimiter

  // ---- The window law in a limiter shared by many agents.

  /** The admitted times of `a` since it was last forgotten, one operation later. */
  function StreakStep(c: Config, s: State, op: Op, a: Agent, streak: seq<real>): seq<real> {
    var (s', answer) := Step(c, s, op);
    if a !in s'.tats then []
    else if op.Ask? && op.agent == a && answer == Some(Allowed) then streak + [op.now]
    else streak
  }

  function RunStreak(c: Config, s: State, ops: seq<Op>, a: Agent, streak: seq<real>): (State, seq<real>)
    decreases |ops|
  {
    if ops == [] then (s, streak)
    else RunStreak(c, Step(c, s, ops[0]).0, ops[1..], a, StreakStep(c, s, ops[0], a, streak))
  }

  ghost predicate WindowInv(c: Config, s: State, a: Agent, streak: seq<real>) {
    Ok(s) && Schedules(c, streak, Tat(s, a)) && RateBounded(c, streak)
  }

  lemma OtherAgentKept(c: Config, s: State, op: Op, a: Agent)
    requires Ok(s) && !op.Reopen? && !(op.Ask? && op.agent == a)
    ensures a in Step(c, s, op).0.tats ==> Tat(Step(c, s, op).0, a) == Tat(s, a)
  {
    if op.Ask? && Step(c, s, op).1 == Some(Allowed) && a in Step(c, s, op).0.tats {
      EvictTats(c, Put(s, op.agent, NextTat(c, Tat(s, op.agent), op.now)), a);
    }
  }

  lemma WindowStep(c: Config, s: State, op: Op, a: Agent, streak: seq<real>)
    requires ValidConfig(c) && WindowInv(c, s, a, streak) && !op.Reopen?
    ensures WindowInv(c, Step(c, s, op).0, a, StreakStep(c, s, op, a, streak))
  {
    StepOk(c, s, op);
    var (s', answer) := Step(c, s, op);
    if a in s'.tats {
      if op.Ask? && op.agent == a {
        if answer == Some(Allowed) {
          DecideIffFits(c, streak, Tat(s, a), op.now);
          ScheduleStep(c, streak, Tat(s, a), op.now);
          RateBoundedStep(c, streak, op.now);
          EvictTats(c, Put(s, a, NextTat(c, Tat(s, a), op.now)), a);
        }
      } else {
        OtherAgentKept(c, s, op, a);
      }
    }
  }

  /** Over any interleaving of checks by any agents, write-behind ticks, resets and evictions:
      the requests of `a` admitted since it was last forgotten never exceed the rate in any
      window, and the next one is admitted exactly when it still fits every window. */
  lemma {:induction false} WindowLaw(c: Config, s: State, ops: seq<Op>, a: Agent, streak: seq<real>)
    requires ValidConfig(c) && WindowInv(c, s, a, streak)
    requires forall i :: 0 <= i < |ops| ==> !ops[i].Reopen?
    ensures var (s', streak') := RunStreak(c, s, ops, a, streak);
      RateBounded(c, streak')
      && forall now :: Check(c, s', a, now).1.Allowed? <==> FitsEveryWindow(c, streak', now)
    decreases |ops|
  {
    if ops == [] {
      forall now ensures Check(c, s, a, now).1.Allowed? <==> FitsEveryWindow(c, streak, now) {
        DecideIffFits(c, streak, Tat(s, a), now);
      }
    } else {
      WindowStep(c, s, ops[0], a, streak);
      WindowLaw(c, Step(c, s, ops[0]).0, ops[1..], a, StreakStep(c, s, ops[0], a, streak));
    }
  }

  lemma WindowLawFromStart(c: Config, persistent: bool, ops: seq<Op>, a: Agent)
    requires ValidConfig(c) && forall i :: 0 <= i < |ops| ==> !ops[i].Reopen?
    ensures var (s, streak) := RunStreak(c, Fresh(persistent), ops, a, []);
      RateBounded(c, streak)
      && forall now :: Check(c, s, a, now).1.Allowed? <==> FitsEveryWindow(c, streak, now)
  {
    WindowLaw(c, Fresh(persistent), ops, a, []);
  }

  // ---- Restarting.

  /** No check of the run evicts anybody. */
  ghost predicate NoEviction(c: Config, s: State, ops: seq<Op>)
    decreases |ops|
  {
    ops == [] || (HasRoom(c, s, ops[0]) && NoEviction(c, Step(c, s, ops[0]).0, ops[1..]))
  }

  ghost predicate HasRoom(c: Config, s: State, op: Op) {
    op.Ask? && Decide(c, Tat(s, op.agent), op.now).Allowed? ==> Fits(c, s, op.agent)
  }

  /** `a` is tracked, or there is room for one more agent. */
  predicate Fits(c: Config, s: State, a: Agent) {
    (if a in s.tats then |s.order| else |s.order| + 1) <= c.maxAgents
  }

  /** The clock does not go back from `clock` on. */
  ghost predicate Timely(ops: seq<Op>, clock: real)
    decreases |ops|
  {
    ops == [] ||
    match ops[0]
    case Ask(_, now) => clock <= now && Timely(ops[1..], now)
    case Reopen(now, _) => clock <= now && Timely(ops[1..], now)
    case _ => Timely(ops[1..], clock)
  }

  /** Every reopening reads each row of the table once, in some order. */
  ghost predicate Scans(c: Config, s: State, ops: seq<Op>)
    decreases |ops|
  {
    ops == [] || (Applicable(s, ops[0]) && Scans(c, Step(c, s, ops[0]).0, ops[1..]))
  }

  /** The same run on a limiter that is never closed. */
  function WithoutReopening(ops: seq<Op>): (r: seq<Op>)
    ensures |r| == |ops|
  {
    if ops == [] then []
    else [if ops[0].Reopen? then Tick else ops[0]] + WithoutReopening(ops[1..])
  }

  /** The table is current up to the dirty agents, and what it alone remembers has expired. */
  ghost predicate TableInv(c: Config, s: State, clock: real) {
    && Ok(s) && s.table.Some?
    && (forall x :: x in s.tats && x !in s.dirty ==> x in s.table.value && s.table.value[x] == s.tats[x])
    && (forall x :: x in s.table.value && x !in s.tats ==> s.table.value[x] <= clock - c.period)
  }

  /** `v`, reopened from time to time, remembers what `u` does, up to expired times. */
  ghost predicate Tracks(c: Config, u: State, v: State, clock: real) {
    && Ok(u)
    && (forall x :: x in v.tats ==> x in u.tats && u.tats[x] == v.tats[x])
    && (forall x :: x in u.tats && x !in v.tats ==> u.tats[x] <= clock - c.period)
  }

  lemma RoomyCheck(c: Config, s: State, a: Agent, now: real)
    requires Fits(c, s, a) && Decide(c, Tat(s, a), now).Allowed?
    ensures Check(c, s, a, now).0 == Put(s, a, NextTat(c, Tat(s, a), now))
  { }

  /** A limiter that remembers less has room where one that remembers more has room. */
  lemma LessHasRoom(c: Config, u: State, v: State, a: Agent)
    requires Ok(u) && Ok(v) && v.tats.Keys <= u.tats.Keys && Fits(c, u, a)
    ensures Fits(c, v, a)
  {
    KeysCounted(u.order, u.tats.Keys);
    KeysCounted(v.order, v.tats.Keys);
    CardinalityGrows(v.tats.Keys, u.tats.Keys);
    if a in u.tats && a !in v.tats {
      assert v.tats.Keys + {a} <= u.tats.Keys;
      CardinalityGrows(v.tats.Keys + {a}, u.tats.Keys);
    }
  }

  lemma CardinalityGrows(x: set<Agent>, y: set<Agent>)
    requires x <= y
    ensures |x| <= |y|
  {
    assert y == x + (y - x);
  }

  /** An expired time decides like no time at all. */
  lemma ExpiredDecidesAlike(c: Config, tat: real, now: real)
    requires ValidConfig(c) && tat <= now - c.period
    ensures NextTat(c, Some(tat), now) == NextTat(c, None, now)
  { }

  lemma AskTracks(c: Config, u: State, v: State, clock: real, a: Agent, now: real)
    requires ValidConfig(c) && Tracks(c, u, v, clock) && TableInv(c, v, clock) && clock <= now
    requires HasRoom(c, u, Ask(a, now))
    ensures Check(c, u, a, now).1 == Check(c, v, a, now).1
    ensures Tracks(c, Check(c, u, a, now).0, Check(c, v, a, now).0, now)
    ensures TableInv(c, Check(c, v, a, now).0, now)
  {
    if a in u.tats && a !in v.tats {
      ExpiredDecidesAlike(c, u.tats[a], now);
    }
    var tat := NextTat(c, Tat(u, a), now);
    assert tat == NextTat(c, Tat(v, a), now);
    StepOk(c, u, Ask(a, now));
    StepOk(c, v, Ask(a, now));
    if Decide(c, Tat(v, a), now).Allowed? {
      LessHasRoom(c, u, v, a);
      RoomyCheck(c, u, a, now);
      RoomyCheck(c, v, a, now);
      PutOk(u, a, tat);
      PutOk(v, a, tat);
      PutTracks(c, u, v, clock, a, tat, now);
    }
  }

  lemma PutTracks(c: Config, u: State, v: State, clock: real, a: Agent, tat: real, now: real)
    requires Tracks(c, u, v, clock) && TableInv(c, v, clock) && clock <= now
    requires Ok(Put(u, a, tat)) && Ok(Put(v, a, tat))
    ensures Tracks(c, Put(u, a, tat), Put(v, a, tat), now)
    ensures TableInv(c, Put(v, a, tat), now)
  { }

  lemma FlushKeepsTable(c: Config, s: State, clock: real)
    requires TableInv(c, s, clock)
    ensures TableInv(c, Flush(s), clock) && Flush(s).tats == s.tats
  { }

  lemma ReopenTracks(c: Config, u: State, v: State, clock: real, now: real, scan: seq<Agent>)
    requires ValidConfig(c) && Tracks(c, u, v, clock) && TableInv(c, v, clock) && clock <= now
    requires Enumerates(scan, Written(v))
    ensures Tracks(c, Flush(u), Load(c, Written(v), now, scan), now)
    ensures TableInv(c, Load(c, Written(v), now, scan), now)
  {
    StepOk(c, v, Reopen(now, scan));
    StepOk(c, u, Tick);
  }

  lemma ResetTracks(c: Config, u: State, v: State, clock: real, op: Op)
    requires Tracks(c, u, v, clock) && TableInv(c, v, clock) && (op.Forget? || op.ForgetAll?)
    ensures Tracks(c, Step(c, u, op).0, Step(c, v, op).0, clock)
    ensures TableInv(c, Step(c, v, op).0, clock)
  {
    StepOk(c, u, op);
    StepOk(c, v, op);
  }

  /** One operation on the limiter that is reopened, against one on the limiter that is not. */
  lemma StepTracks(c: Config, u: State, v: State, clock: real, op: Op) returns (clock': real)
    requires ValidConfig(c) && Tracks(c, u, v, clock) && TableInv(c, v, clock)
    requires Timely([op], clock) && Applicable(v, op) && HasRoom(c, u, op)
    ensures clock' == match op case Ask(_, now) => now case Reopen(now, _) => now case _ => clock
    ensures var (u', x) := Step(c, u, if op.Reopen? then Tick else op);
      var (v', y) := Step(c, v, op);
      x == y && Tracks(c, u', v', clock') && TableInv(c, v', clock')
  {
    match op
    case Ask(a, now) =>
      clock' := now;
      AskTracks(c, u, v, clock, a, now);
    case Tick =>
      clock' := clock;
      FlushKeepsTable(c, v, clock);
    case Reopen(now, scan) =>
      clock' := now;
      ReopenTracks(c, u, v, clock, now, scan);
    case _ =>
      clock' := clock;
      ResetTracks(c, u, v, clock, op);
  }

  /** The state a run ends in. */
  function End(c: Config, s: State, ops: seq<Op>): State
    decreases |ops|
  {
    if ops == [] then s else End(c, Step(c, s, ops[0]).0, ops[1..])
  }

  /** The time of the last timed operation. */
  function Latest(ops: seq<Op>, clock: real): real
    decreases |ops|
  {
    if ops == [] then clock
    else
      Latest(ops[1..], match ops[0] case Ask(_, now) => now case Reopen(now, _) => now case _ => clock)
  }

  /** The limiter that is reopened answers like the one that is not, and at the end it remembers what that
      one does, up to expired times, with every clean time equal to its row. */
  lemma {:induction false} RunsTrack(c: Config, u: State, v: State, clock: real, ops: seq<Op>)
      returns (clock': real)
    requires ValidConfig(c) && Tracks(c, u, v, clock) && TableInv(c, v, clock)
    requires Timely(ops, clock) && Scans(c, v, ops) && NoEviction(c, u, WithoutReopening(ops))
    ensures Answers(c, v, ops) == Answers(c, u, WithoutReopening(ops))
    ensures Tracks(c, End(c, u, WithoutReopening(ops)), End(c, v, ops), clock')
    ensures TableInv(c, End(c, v, ops), clock') && clock' == Latest(ops, clock)
    decreases |ops|
  {
    if ops != [] {
      var op := ops[0];
      var op' := if op.Reopen? then Tick else op;
      assert WithoutReopening(ops)[0] == op' && WithoutReopening(ops)[1..] == WithoutReopening(ops[1..]);
      clock' := StepTracks(c, u, v, clock, op);
      clock' := RunsTrack(c, Step(c, u, op').0, Step(c, v, op).0, clock', ops[1..]);
    } else {
      clock' := clock;
    }
  }

  /** A run with any number of reopenings gives, answer for answer, what the same run gives on a
      limiter that is never closed, as long as that limiter evicts nobody. */
  lemma RestartTransparent(c: Config, ops: seq<Op>, start: real)
    requires ValidConfig(c) && Timely(ops, start) && Scans(c, Fresh(true), ops)
    requires NoEviction(c, Fresh(true), WithoutReopening(ops))
    ensures Answers(c, Fresh(true), ops) == Answers(c, Fresh(true), WithoutReopening(ops))
  {
    var end := RunsTrack(c, Fresh(true), Fresh(true), start, ops);
  }

  // ---- The rate bound in terms of what a client sees.

  /** The times at which `a` was answered `Allowed` since it was last reset. */
  function AllowedTimes(ops: seq<Op>, answers: seq<Option<Answer>>, a: Agent, earlier: seq<real>): seq<real>
    requires |ops| == |answers|
    decreases |ops|
  {
    if ops == [] then earlier
    else
      var next := match ops[0]
        case Ask(x, now) => if x == a && answers[0] == Some(Allowed) then earlier + [now] else earlier
        case Forget(x) => if x == a then [] else earlier
        case ForgetAll => []
        case _ => earlier;
      AllowedTimes(ops[1..], answers[1..], a, next)
  }

  lemma {:induction false} AllowedTimesIgnoreReopening(
    ops: seq<Op>, answers: seq<Option<Answer>>, a: Agent, earlier: seq<real>)
    requires |ops| == |answers|
    ensures AllowedTimes(ops, answers, a, earlier) == AllowedTimes(WithoutReopening(ops), answers, a, earlier)
    decreases |ops|
  {
    if ops != [] {
      var ops' := WithoutReopening(ops);
      assert ops'[1..] == WithoutReopening(ops[1..]);
      var next := match ops[0]
        case Ask(x, now) => if x == a && answers[0] == Some(Allowed) then earlier + [now] else earlier
        case Forget(x) => if x == a then [] else earlier
        case ForgetAll => []
        case _ => earlier;
      AllowedTimesIgnoreReopening(ops[1..], answers[1..], a, next);
    }
  }

  /** Where nobody is evicted, the streak is what the client sees. */
  lemma {:induction false} StreakIsVisible(c: Config, s: State, ops: seq<Op>, a: Agent, streak: seq<real>)
    requires ValidConfig(c) && WindowInv(c, s, a, streak) && NoEviction(c, s, ops)
    requires forall i :: 0 <= i < |ops| ==> !ops[i].Reopen?
    ensures AllowedTimes(ops, Answers(c, s, ops), a, streak) == RunStreak(c, s, ops, a, streak).1
    decreases |ops|
  {
    if ops != [] {
      var op := ops[0];
      WindowStep(c, s, op, a, streak);
      var (s', answer) := Step(c, s, op);
      if op.Ask? && answer == Some(Allowed) {
        RoomyCheck(c, s, op.agent, op.now);
      }
      assert Answers(c, s, ops)[0] == answer && Answers(c, s, ops)[1..] == Answers(c, s', ops[1..]);
      StreakIsVisible(c, s', ops[1..], a, StreakStep(c, s, op, a, streak));
    }
  }

  lemma {:induction false} NeverReopens(ops: seq<Op>)
    ensures forall i :: 0 <= i < |ops| ==> !WithoutReopening(ops)[i].Reopen?
  {
    if ops != [] {
      NeverReopens(ops[1..]);
    }
  }

  /** Across restarts, ticks and resets, the answers an agent receives respect the rate in every
      window since its last reset. */
  lemma RateBoundAcrossRestarts(c: Config, ops: seq<Op>, start: real, a: Agent)
    requires ValidConfig(c) && Timely(ops, start) && Scans(c, Fresh(true), ops)
    requires NoEviction(c, Fresh(true), WithoutReopening(ops))
    ensures RateBounded(c, AllowedTimes(ops, Answers(c, Fresh(true), ops), a, []))
  {
    var ops' := WithoutReopening(ops);
    var answers := Answers(c, Fresh(true), ops);
    RestartTransparent(c, ops, start);
    AllowedTimesIgnoreReopening(ops, answers, a, []);
    NeverReopens(ops);
    StreakIsVisible(c, Fresh(true), ops', a, []);
    WindowLaw(c, Fresh(true), ops', a, []);
  }

  lemma {:induction false} StreakEnds(c: Config, s: State, ops: seq<Op>, a: Agent, streak: seq<real>)
    ensures RunStreak(c, s, ops, a, streak).0 == End(c, s, ops)
    decreases |ops|
  {
    if ops != [] {
      StreakEnds(c, Step(c, s, ops[0]).0, ops[1..], a, StreakStep(c, s, ops[0], a, streak));
    }
  }

  /** And across restarts, ticks and resets, a request is admitted exactly when it still fits every window beside
      the admissions that the agent has seen since its last reset. */
  lemma AdmissionAcrossRestarts(c: Config, ops: seq<Op>, start: real, a: Agent, now: real)
    requires ValidConfig(c) && Timely(ops, start) && Scans(c, Fresh(true), ops) && Latest(ops, start) <= now
    requires NoEviction(c, Fresh(true), WithoutReopening(ops))
    ensures Check(c, End(c, Fresh(true), ops), a, now).1.Allowed?
      <==> FitsEveryWindow(c, AllowedTimes(ops, Answers(c, Fresh(true), ops), a, []), now)
  {
    var ops' := WithoutReopening(ops);
    var answers := Answers(c, Fresh(true), ops);
    var clock := RunsTrack(c, Fresh(true), Fresh(true), start, ops);
    AllowedTimesIgnoreReopening(ops, answers, a, []);
    NeverReopens(ops);
    StreakIsVisible(c, Fresh(true), ops', a, []);
    StreakEnds(c, Fresh(true), ops', a, []);
    WindowLaw(c, Fresh(true), ops', a, []);
    var u, v := End(c, Fresh(true), ops'), End(c, Fresh(true), ops);
    if a in u.tats && a !in v.tats {
      ExpiredDecidesAlike(c, u.tats[a], now);
    }
  }

  /** After a tick the table alone is enough: a limiter opened on it, the old one never having been closed,
      remembers every time that has not expired. */
  lemma TickSurvivesCrash(c: Config, ops: seq<Op>, start: real, now: real, scan: seq<Agent>)
    requires ValidConfig(c) && Timely(ops, start) && Scans(c, Fresh(true), ops) && Latest(ops, start) <= now
    requires NoEviction(c, Fresh(true), WithoutReopening(ops))
    requires var s := Step(c, End(c, Fresh(true), ops), Tick).0; s.table.Some? && Enumerates(scan, s.table.value)
    ensures var s := Step(c, End(c, Fresh(true), ops), Tick).0;
      Tracks(c, s, Load(c, s.table.value, now, scan), now)
  {
    var clock := RunsTrack(c, Fresh(true), Fresh(true), start, ops);
    FlushedTable(c, End(c, Fresh(true), ops), clock, now, scan);
  }

  lemma FlushTwice(s: State)
    requires s.table.Some?
    ensures Flush(Flush(s)) == Flush(s) && Written(Flush(s)) == Flush(s).table.value
  {
    assert Written(Flush(s)) == Flush(s).table.value;
  }

  lemma FlushedTable(c: Config, s: State, clock: real, now: real, scan: seq<Agent>)
    requires ValidConfig(c) && TableInv(c, s, clock) && clock <= now
    requires Enumerates(scan, Flush(s).table.value)
    ensures Tracks(c, Flush(s), Load(c, Flush(s).table.value, now, scan), now)
  {
    FlushKeepsTable(c, s, clock);
    FlushTwice(s);
    ReopenTracks(c, Flush(s), Flush(s), clock, now, scan);
  }
}
