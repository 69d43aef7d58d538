/** Whom the rate limiter evicts over whole runs, against the least-recently-used rule that its
    configuration names. */
module RateLimiterEviction {
  import opened JsText
  import opened InsertionOrder
  import opened Gcra
  import opened RateLimiter
  import opened RateLimiterRuns

  function After(c: Config, s: State, ops: seq<Op>): State {
    if ops == [] then s else Step(c, After(c, s, ops[..|ops| - 1]), ops[|ops| - 1]).0
  }

  /** Operation `op`, performed in state `s`, admits a request of `a`. */
  predicate Admits(c: Config, s: State, op: Op, a: Agent) {
    op.Ask? && op.agent == a && Step(c, s, op).1 == Some(Allowed)
  }

  /** The position of the latest operation that admitted a request of `a`, or -1. */
  function LastUse(c: Config, s: State, ops: seq<Op>, a: Agent): (k: int)
    ensures -1 <= k < |ops|
  {
    if ops == [] then -1
    else if Admits(c, After(c, s, ops[..|ops| - 1]), ops[|ops| - 1], a) then |ops| - 1
    else LastUse(c, s, ops[..|ops| - 1], a)
  }

  /** After the run `ops` from `s`, the check `op` evicts an agent although another one was used less recently. */
  ghost predicate EvictsAgainstLru(c: Config, s: State, ops: seq<Op>, op: Op) {
    var before := After(c, s, ops);
    op.Ask? && exists x, y ::
      && x in before.tats && x !in Step(c, before, op).0.tats
      && y in before.tats && LastUse(c, s, ops, y) < LastUse(c, s, ops, x)
  }

  ghost predicate WithoutReopen(ops: seq<Op>) {
    forall i :: 0 <= i < |ops| ==> !ops[i].Reopen?
  }

  lemma {:induction false} RunOk(c: Config, s: State, ops: seq<Op>)
    requires Ok(s) && |s.order| <= c.maxAgents && WithoutReopen(ops)
    ensures Ok(After(c, s, ops)) && |After(c, s, ops).order| <= c.maxAgents
  {
    if ops != [] {
      var n := |ops| - 1;
      RunOk(c, s, ops[..n]);
      StepOk(c, After(c, s, ops[..n]), ops[n]);
      StepFits(c, After(c, s, ops[..n]), ops[n]);
    }
  }

  lemma StepFits(c: Config, s: State, op: Op)
    requires |s.order| <= c.maxAgents && !op.Reopen?
    ensures |Step(c, s, op).0.order| <= c.maxAgents
  {
    match op
    case Ask(a, now) => EvictOrder(c, Put(s, a, NextTat(c, Tat(s, a), now)));
    case Forget(a) => WithoutMembers(s.order, a);
    case _ =>
  }

  /** Below one request per period nothing is ever tracked. */
  lemma {:induction false} SlowRateTracksNothing(c: Config, persistent: bool, ops: seq<Op>)
    requires ValidConfig(c) && c.interval > c.period && WithoutReopen(ops)
    ensures After(c, Fresh(persistent), ops).tats == map[]
  {
    if ops != [] {
      var n := |ops| - 1;
      SlowRateTracksNothing(c, persistent, ops[..n]);
      if ops[n].Ask? {
        SlowRateNeverAdmits(c, Tat(After(c, Fresh(persistent), ops[..n]), ops[n].agent), ops[n].now);
      }
    }
  }

  lemma OneAgentOnly(c: Config, s: State, x: Agent, y: Agent)
    requires Ok(s) && |s.order| <= 1 && x in s.tats && y in s.tats
    ensures x == y
  {
    assert x in s.order && y in s.order;
  }

  // ---- A run that shows the difference.

  function Name(i: nat): Agent {
    seq(i, _ => 0)
  }

  function Names(n: nat): seq<Agent> {
    seq(n, i requires 0 <= i < n => Name(i))
  }

  function AskAll(n: nat): seq<Op> {
    seq(n, i requires 0 <= i < n => Ask(Name(i), 0.0))
  }

  lemma NamesDiffer(i: nat, j: nat)
    ensures Name(i) == Name(j) <==> i == j
  {
    assert |Name(i)| == i && |Name(j)| == j;
  }

  /** `n` agents are tracked, in the order of their names, and all could ask again at `c.interval`. */
  ghost predicate Filled(c: Config, s: State, n: nat) {
    && Ok(s) && s.order == Names(n)
    && forall a :: a in s.tats ==> s.tats[a] == c.interval
  }

  lemma {:induction false} Fill(c: Config, persistent: bool, n: nat)
    requires ValidConfig(c) && c.interval <= c.period && n <= c.maxAgents
    ensures Filled(c, After(c, Fresh(persistent), AskAll(n)), n)
    ensures forall i :: 0 <= i < n ==> LastUse(c, Fresh(persistent), AskAll(n), Name(i)) == i
  {
    if n > 0 {
      Fill(c, persistent, n - 1);
      var s := After(c, Fresh(persistent), AskAll(n - 1));
      assert AskAll(n)[..n - 1] == AskAll(n - 1) && AskAll(n)[n - 1] == Ask(Name(n - 1), 0.0);
      FillStep(c, s, n - 1);
      forall i | 0 <= i < n ensures LastUse(c, Fresh(persistent), AskAll(n), Name(i)) == i {
        LastUseStep(c, persistent, n, i);
      }
    }
  }

  lemma LastUseStep(c: Config, persistent: bool, n: nat, i: nat)
    requires i < n && AskAll(n)[..n - 1] == AskAll(n - 1) && AskAll(n)[n - 1] == Ask(Name(n - 1), 0.0)
    requires Step(c, After(c, Fresh(persistent), AskAll(n - 1)), Ask(Name(n - 1), 0.0)).1 == Some(Allowed)
    requires i < n - 1 ==> LastUse(c, Fresh(persistent), AskAll(n - 1), Name(i)) == i
    ensures LastUse(c, Fresh(persistent), AskAll(n), Name(i)) == i
  {
    NamesDiffer(i, n - 1);
    assert |AskAll(n)| == n;
  }

  lemma FillStep(c: Config, s: State, n: nat)
    requires ValidConfig(c) && c.interval <= c.period && n < c.maxAgents && Filled(c, s, n)
    ensures Filled(c, Step(c, s, Ask(Name(n), 0.0)).0, n + 1)
    ensures Step(c, s, Ask(Name(n), 0.0)).1 == Some(Allowed)
  {
    var op := Ask(Name(n), 0.0);
    NewName(s, n);
    StepOk(c, s, op);
    NamesSnoc(n);
    assert Decide(c, None, 0.0) == Allowed && NextTat(c, None, 0.0) == c.interval;
    assert |Put(s, Name(n), c.interval).order| == n + 1;
    assert Step(c, s, op).0 == Put(s, Name(n), c.interval);
  }

  lemma NamesSnoc(n: nat)
    ensures |Names(n)| == n && Names(n + 1) == Names(n) + [Name(n)]
  { }

  lemma NewName(s: State, n: nat)
    requires Ok(s) && s.order == Names(n)
    ensures Name(n) !in s.tats
  {
    if Name(n) in s.order {
      var i :| 0 <= i < n && s.order[i] == Name(n);
      NamesDiffer(i, n);
    }
  }

  /** Every agent asks once, the first one asks again, and a new one comes: the first one is evicted. */
  lemma FirstInsertedGoes(c: Config, persistent: bool) returns (ops: seq<Op>, op: Op)
    requires ValidConfig(c) && c.maxAgents >= 2 && c.interval <= c.period
    ensures WithoutReopen(ops) && Timely(ops + [op], 0.0) && EvictsAgainstLru(c, Fresh(persistent), ops, op)
  {
    var m := c.maxAgents;
    var again := Ask(Name(0), c.interval);
    ops, op := AskAll(m) + [again], Ask(Name(m), c.interval);
    FilledAndAsked(c, persistent, ops, again);
    Newcomer(c, After(c, Fresh(persistent), ops), m);
    FirstTwo(After(c, Fresh(persistent), ops), m);
    WitnessTimely(c, m, again, op);
  }

  lemma WitnessTimely(c: Config, m: nat, again: Op, op: Op)
    requires ValidConfig(c) && again == Ask(Name(0), c.interval) && op == Ask(Name(m), c.interval)
    ensures Timely(AskAll(m) + [again] + [op], 0.0)
  {
    AskAllTimely(c, m, 0, [again, op]);
    assert AskAll(m) + [again] + [op] == AskAll(m)[0..] + [again, op];
  }

  lemma FirstTwo(s: State, m: nat)
    requires Ok(s) && s.order == Names(m) && m >= 2
    ensures Name(0) in s.tats && Name(1) in s.tats
  {
    assert s.order[0] == Name(0) && s.order[1] == Name(1);
  }

  lemma FilledAndAsked(c: Config, persistent: bool, ops: seq<Op>, again: Op)
    requires ValidConfig(c) && c.maxAgents >= 2 && c.interval <= c.period
    requires again == Ask(Name(0), c.interval) && ops == AskAll(c.maxAgents) + [again]
    ensures var s := After(c, Fresh(persistent), ops);
      Ok(s) && s.order == Names(c.maxAgents)
    ensures LastUse(c, Fresh(persistent), ops, Name(1)) < LastUse(c, Fresh(persistent), ops, Name(0))
  {
    var m := c.maxAgents;
    Fill(c, persistent, m);
    assert ops[..m] == AskAll(m) && ops[m] == again && |ops| - 1 == m;
    AskAgain(c, After(c, Fresh(persistent), AskAll(m)), m);
    NamesDiffer(0, 1);
  }

  lemma AskAgain(c: Config, s: State, m: nat)
    requires ValidConfig(c) && c.interval <= c.period && 0 < m <= c.maxAgents && Filled(c, s, m)
    ensures var (s', answer) := Step(c, s, Ask(Name(0), c.interval));
      answer == Some(Allowed) && Ok(s') && s'.order == Names(m)
  {
    assert Names(m)[0] == Name(0);
    assert Name(0) in s.tats;
    StepOk(c, s, Ask(Name(0), c.interval));
    assert |Names(m)| == m;
  }

  lemma Newcomer(c: Config, s: State, m: nat)
    requires ValidConfig(c) && c.interval <= c.period && m == c.maxAgents && Ok(s) && s.order == Names(m)
    ensures Name(0) !in Step(c, s, Ask(Name(m), c.interval)).0.tats
  {
    NewName(s, m);
    var s' := Put(s, Name(m), NextTat(c, None, c.interval));
    assert s'.order == Names(m) + [Name(m)];
    assert |Names(m)| == m && Names(m)[0] == Name(0);
    assert Evict(c, s') == DropOldest(s');
  }

  lemma {:induction false} AskAllTimely(c: Config, m: nat, k: nat, rest: seq<Op>)
    requires k <= m && Timely(rest, 0.0)
    ensures Timely(AskAll(m)[k..] + rest, 0.0)
    decreases m - k
  {
    var ops := AskAll(m)[k..] + rest;
    if k < m {
      AskAllTimely(c, m, k + 1, rest);
      assert ops[0] == Ask(Name(k), 0.0) && ops[1..] == AskAll(m)[k + 1..] + rest;
    } else {
      assert ops == rest;
    }
  }

  /** Some run of a limiter that is never reopened evicts an agent although another was used less recently,
      exactly when two agents fit and one request per period is admitted. */
  lemma EvictionIsNotLru(c: Config, persistent: bool)
    requires ValidConfig(c)
    ensures (exists ops, op ::
        WithoutReopen(ops) && Timely(ops + [op], 0.0) && EvictsAgainstLru(c, Fresh(persistent), ops, op))
      <==> c.maxAgents >= 2 && c.interval <= c.period
  {
    if c.maxAgents >= 2 && c.interval <= c.period {
      var ops, op := FirstInsertedGoes(c, persistent);
    } else {
      forall ops, op | WithoutReopen(ops) ensures !EvictsAgainstLru(c, Fresh(persistent), ops, op) {
        SmallOrSlow(c, persistent, ops, op);
      }
    }
  }

  lemma SmallOrSlow(c: Config, persistent: bool, ops: seq<Op>, op: Op)
    requires ValidConfig(c) && WithoutReopen(ops) && (c.maxAgents < 2 || c.interval > c.period)
    ensures !EvictsAgainstLru(c, Fresh(persistent), ops, op)
  {
    var s := After(c, Fresh(persistent), ops);
    if c.interval > c.period {
      SlowRateTracksNothing(c, persistent, ops);
    } else {
      RunOk(c, Fresh(persistent), ops);
      forall x, y | x in s.tats && y in s.tats ensures x == y {
        OneAgentOnly(c, s, x, y);
      }
    }
  }
}
