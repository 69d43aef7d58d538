/** One agent's virtual-scheduling rate decision, its exact admission law, and the leaky bucket
    it is equivalent to (ITU-T I.371 Annex A). Times are in milliseconds. */
module Gcra {
  import opened JsText

  /** `interval` is the emission interval, `period / rate`. */
  datatype Config = Config(interval: real, period: real, maxAgents: nat)

  predicate ValidConfig(c: Config) {
    c.interval > 0.0 && c.period > 0.0 && c.maxAgents >= 1
  }

  datatype Answer = Allowed | Denied(retryAfter: real)

  function Max(a: real, b: real): real { if a >= b then a else b }

  /** The theoretical arrival time that an admitted request would leave behind. */
  function NextTat(c: Config, tat: Option<real>, now: real): real {
    Max(now, if tat.Some? then tat.value else now) + c.interval
  }

  function Decide(c: Config, tat: Option<real>, now: real): Answer {
    var next := NextTat(c, tat, now);
    if next - now > c.period then Denied(next - now - c.period) else Allowed
  }

  function After(c: Config, tat: Option<real>, now: real): Option<real> {
    if Decide(c, tat, now).Allowed? then Some(NextTat(c, tat, now)) else tat
  }

  // ---- Retry hints.

  /** Whether waiting `delay` is enough is what the hint says it is. */
  ghost predicate HintRightAt(c: Config, tat: Option<real>, now: real, delay: real)
    requires Decide(c, tat, now).Denied?
  {
    Decide(c, tat, now + delay).Allowed? <==> delay >= Decide(c, tat, now).retryAfter
  }

  /** For a denied request the hint is the earliest delay after which a request is admitted,
      exactly when the configured rate is at least one request per period. */
  lemma RetryAfterExact(c: Config, tat: Option<real>, now: real)
    requires ValidConfig(c) && Decide(c, tat, now).Denied?
    ensures Decide(c, tat, now).retryAfter > 0.0
    ensures c.interval <= c.period <==> forall delay: real :: delay >= 0.0 ==> HintRightAt(c, tat, now, delay)
  {
    var hint := Decide(c, tat, now).retryAfter;
    if c.interval > c.period {
      SlowRateNeverAdmits(c, tat, now + hint);
      assert hint >= 0.0 && !HintRightAt(c, tat, now, hint);
    }
  }

  /** Below one request per period the limiter admits nothing, ever. */
  lemma SlowRateNeverAdmits(c: Config, tat: Option<real>, now: real)
    requires ValidConfig(c) && c.interval > c.period
    ensures Decide(c, tat, now).Denied?
  { }

  // ---- The admission law over a whole history of requests.

  function TatAfter(c: Config, times: seq<real>): Option<real> {
    if times == [] then None
    else After(c, TatAfter(c, times[..|times| - 1]), times[|times| - 1])
  }

  /** The times of the admitted requests among `times`. */
  function Admitted(c: Config, times: seq<real>): seq<real> {
    if times == [] then []
    else
      var earlier := times[..|times| - 1];
      Admitted(c, earlier)
      + if Decide(c, TatAfter(c, earlier), times[|times| - 1]).Allowed? then [times[|times| - 1]] else []
  }

  /** `tat` is the latest of the instants `admitted[j] + (n - j) * interval`: every admitted
      request pushes the schedule one interval further. */
  ghost predicate Schedules(c: Config, admitted: seq<real>, tat: Option<real>) {
    && (tat.None? <==> admitted == [])
    && (forall j :: 0 <= j < |admitted| ==> Due(c, admitted, j) <= tat.value)
    && (tat.Some? ==> exists j :: 0 <= j < |admitted| && Due(c, admitted, j) == tat.value)
  }

  ghost function Due(c: Config, admitted: seq<real>, j: int): real
    requires 0 <= j < |admitted|
  {
    admitted[j] + (|admitted| - j) as real * c.interval
  }

  lemma DueAppend(c: Config, admitted: seq<real>, t: real, j: int)
    requires 0 <= j < |admitted|
    ensures Due(c, admitted + [t], j) == Due(c, admitted, j) + c.interval
  {
    var n := (|admitted| - j) as real;
    assert (|admitted + [t]| - j) as real == n + 1.0;
  }

  /** Admitting a request at `now` keeps the schedule described by the admitted times. */
  lemma ScheduleStep(c: Config, admitted: seq<real>, tat: Option<real>, now: real)
    requires ValidConfig(c) && Schedules(c, admitted, tat)
    ensures Schedules(c, admitted + [now], Some(NextTat(c, tat, now)))
  {
    var next, more := NextTat(c, tat, now), admitted + [now];
    forall j | 0 <= j < |admitted| ensures Due(c, more, j) == Due(c, admitted, j) + c.interval {
      DueAppend(c, admitted, now, j);
    }
    assert Due(c, more, |admitted|) == now + c.interval;
    if tat.Some? && tat.value > now {
      var j :| 0 <= j < |admitted| && Due(c, admitted, j) == tat.value;
      assert Due(c, more, j) == next;
    } else {
      assert Due(c, more, |admitted|) == next;
    }
  }

  /** With `m` the number of requests admitted from `admitted[j]` on, one more at `now` keeps
      every window bound `(m + 1) * interval <= (now - admitted[j]) + period`. */
  ghost predicate FitsEveryWindow(c: Config, admitted: seq<real>, now: real) {
    && c.interval <= c.period
    && (forall j :: 0 <= j < |admitted| ==> Due(c, admitted, j) + c.interval <= now + c.period)
  }

  lemma DecideIffFits(c: Config, admitted: seq<real>, tat: Option<real>, now: real)
    requires ValidConfig(c) && Schedules(c, admitted, tat)
    ensures Decide(c, tat, now).Allowed? <==> FitsEveryWindow(c, admitted, now)
  {
    if tat.Some? {
      var j :| 0 <= j < |admitted| && Due(c, admitted, j) == tat.value;
    }
  }

  lemma {:induction false} HistorySchedules(c: Config, times: seq<real>)
    requires ValidConfig(c)
    ensures Schedules(c, Admitted(c, times), TatAfter(c, times))
  {
    if times != [] {
      var earlier, now := times[..|times| - 1], times[|times| - 1];
      HistorySchedules(c, earlier);
      if Decide(c, TatAfter(c, earlier), now).Allowed? {
        ScheduleStep(c, Admitted(c, earlier), TatAfter(c, earlier), now);
      } else {
        assert Admitted(c, times) == Admitted(c, earlier);
      }
    }
  }

  /** After any history, in any order of times, a request is admitted exactly when admitting it
      breaks no window bound. */
  lemma ExactAdmission(c: Config, times: seq<real>, now: real)
    requires ValidConfig(c)
    ensures Decide(c, TatAfter(c, times), now).Allowed? <==> FitsEveryWindow(c, Admitted(c, times), now)
  {
    HistorySchedules(c, times);
    DecideIffFits(c, Admitted(c, times), TatAfter(c, times), now);
  }

  /** Every window of admitted requests is within the rate. */
  ghost predicate RateBounded(c: Config, admitted: seq<real>) {
    forall i, j :: 0 <= i <= j < |admitted| ==>
      (j - i + 1) as real * c.interval <= (admitted[j] - admitted[i]) + c.period
  }

  lemma RateBoundedStep(c: Config, admitted: seq<real>, now: real)
    requires ValidConfig(c) && RateBounded(c, admitted) && FitsEveryWindow(c, admitted, now)
    ensures RateBounded(c, admitted + [now])
  {
    var more := admitted + [now];
    forall i, j | 0 <= i <= j < |more|
      ensures (j - i + 1) as real * c.interval <= (more[j] - more[i]) + c.period
    {
      if j == |admitted| && i < j {
        var m := (|admitted| - i) as real;
        assert Due(c, admitted, i) == admitted[i] + m * c.interval;
        assert (j - i + 1) as real == m + 1.0;
        assert (m + 1.0) * c.interval == m * c.interval + c.interval;
      } else if i == j {
        assert (j - i + 1) as real == 1.0;
      } else {
        assert more[i] == admitted[i] && more[j] == admitted[j];
      }
    }
  }

  lemma {:induction false} HistoryRateBounded(c: Config, times: seq<real>)
    requires ValidConfig(c)
    ensures RateBounded(c, Admitted(c, times))
  {
    if times != [] {
      var earlier, now := times[..|times| - 1], times[|times| - 1];
      HistoryRateBounded(c, earlier);
      if Decide(c, TatAfter(c, earlier), now).Allowed? {
        ExactAdmission(c, earlier, now);
        RateBoundedStep(c, Admitted(c, earlier), now);
      } else {
        assert Admitted(c, times) == Admitted(c, earlier);
      }
    }
  }

  // ---- The leaky bucket.

  /** The continuous-state leaky bucket: a level that drains at unit rate since `last`. */
  datatype Bucket = Empty | Filled(level: real, last: real)

  function Drained(b: Bucket, now: real): real {
    if b.Empty? then 0.0 else Max(0.0, b.level - (now - b.last))
  }

  function Pour(c: Config, b: Bucket, now: real): (Answer, Bucket) {
    var level := Drained(b, now) + c.interval;
    if level > c.period then (Denied(level - c.period), b) else (Allowed, Filled(level, now))
  }

  function BucketRun(c: Config, b: Bucket, times: seq<real>): seq<Answer>
    decreases |times|
  {
    if times == [] then []
    else [Pour(c, b, times[0]).0] + BucketRun(c, Pour(c, b, times[0]).1, times[1..])
  }

  function TatRun(c: Config, tat: Option<real>, times: seq<real>): seq<Answer>
    decreases |times|
  {
    if times == [] then []
    else [Decide(c, tat, times[0])] + TatRun(c, After(c, tat, times[0]), times[1..])
  }

  ghost predicate NonDecreasing(times: seq<real>) {
    forall i, j :: 0 <= i <= j < |times| ==> times[i] <= times[j]
  }

  ghost predicate SameLevel(tat: Option<real>, b: Bucket) {
    if tat.None? then b.Empty? else b.Filled? && tat.value == b.last + b.level
  }

  /** On every run with a clock that does not go back, both give the same answers, retry hints
      included. */
  lemma {:induction false} BucketAgrees(c: Config, tat: Option<real>, b: Bucket, times: seq<real>)
    requires ValidConfig(c) && SameLevel(tat, b) && NonDecreasing(times)
    requires b.Filled? && times != [] ==> b.last <= times[0]
    ensures TatRun(c, tat, times) == BucketRun(c, b, times)
    decreases |times|
  {
    if times != [] {
      var b' := Pour(c, b, times[0]).1;
      assert times[1..] != [] ==> times[1..][0] >= times[0];
      BucketAgrees(c, After(c, tat, times[0]), b', times[1..]);
    }
  }
}
