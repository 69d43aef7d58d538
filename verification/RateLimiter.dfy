/** The rate limiter as a whole: the `Map` of arrival times with its insertion order and FIFO
    eviction, the write-behind table, and reopening on the same table. */
module RateLimiter {
  import opened JsText
  import opened InsertionOrder
  import opened Gcra

  type Agent = Text

  /** `order` lists the keys of the JavaScript `Map` in insertion order. `table` is the database
      table, or `None` for a purely in-memory limiter. */
  datatype State = State(
    order: seq<Agent>, tats: map<Agent, real>, dirty: set<Agent>, table: Option<map<Agent, real>>)

  ghost predicate Ok(s: State) {
    && Distinct(s.order)
    && (forall a :: a in s.order <==> a in s.tats)
    && s.dirty <= s.tats.Keys
    && (s.table.None? ==> s.dirty == {})
  }

  function Tat(s: State, a: Agent): Option<real> {
    if a in s.tats then Some(s.tats[a]) else None
  }

  /** `Map.set` followed by `Set.add`: a key that is already present keeps its place. */
  function Put(s: State, a: Agent, tat: real): State {
    State(if a in s.tats then s.order else s.order + [a], s.tats[a := tat],
          if s.table.Some? then s.dirty + {a} else s.dirty, s.table)
  }

  /** Deletes the first key of the `Map`. */
  function DropOldest(s: State): State
    requires s.order != []
  {
    var oldest := s.order[0];
    s.(order := s.order[1..], tats := s.tats - {oldest}, dirty := s.dirty - {oldest})
  }

  function Evict(c: Config, s: State): State
    decreases |s.order|
  {
    if |s.order| > c.maxAgents then Evict(c, DropOldest(s)) else s
  }

  function Excess(c: Config, s: State): nat {
    if |s.order| > c.maxAgents then |s.order| - c.maxAgents else 0
  }

  function Check(c: Config, s: State, a: Agent, now: real): (State, Answer) {
    var answer := Decide(c, Tat(s, a), now);
    if answer.Denied? then (s, answer)
    else (Evict(c, Put(s, a, NextTat(c, Tat(s, a), now))), answer)
  }

  function ResetAgent(s: State, a: Agent): State {
    State(Without(s.order, a), s.tats - {a}, s.dirty - {a},
          if s.table.Some? then Some(s.table.value - {a}) else None)
  }

  function ResetAll(s: State): State {
    State([], map[], {}, if s.table.Some? then Some(map[]) else None)
  }

  function Upserted(rows: map<Agent, real>, tats: map<Agent, real>, agents: set<Agent>): map<Agent, real> {
    rows + map a | a in agents && a in tats :: tats[a]
  }

  /** What the table holds once the dirty agents are written. */
  function Written(s: State): map<Agent, real>
    requires s.table.Some?
  {
    Upserted(s.table.value, s.tats, s.dirty)
  }

  function Flush(s: State): State {
    if s.table.None? then s else s.(table := Some(Written(s)), dirty := {})
  }

  ghost predicate Enumerates(scan: seq<Agent>, rows: map<Agent, real>) {
    Distinct(scan) && forall a :: a in scan <==> a in rows
  }

  function LiveOrder(c: Config, rows: map<Agent, real>, now: real, scan: seq<Agent>): seq<Agent> {
    if scan == [] then []
    else
      (if scan[0] in rows && rows[scan[0]] > now - c.period then [scan[0]] else [])
      + LiveOrder(c, rows, now, scan[1..])
  }

  /** Opening a table whose rows come back in the order `scan`: expired times are skipped. */
  function Load(c: Config, rows: map<Agent, real>, now: real, scan: seq<Agent>): State {
    State(LiveOrder(c, rows, now, scan),
          map a | a in rows && rows[a] > now - c.period :: rows[a], {}, Some(rows))
  }

  // ---- Runs.

  /** `Tick` is the one-second write-behind timer; `Reopen` is `close` followed by construction
      on the same table. */
  datatype Op =
    | Ask(agent: Agent, now: real)
    | Tick
    | Forget(agent: Agent)
    | ForgetAll
    | Reopen(now: real, scan: seq<Agent>)

  function Step(c: Config, s: State, op: Op): (State, Option<Answer>) {
    match op
    case Ask(a, now) => var (s', answer) := Check(c, s, a, now); (s', Some(answer))
    case Tick => (Flush(s), None)
    case Forget(a) => (ResetAgent(s, a), None)
    case ForgetAll => (ResetAll(s), None)
    case Reopen(now, scan) => (if s.table.Some? then Load(c, Written(s), now, scan) else s, None)
  }

  function Answers(c: Config, s: State, ops: seq<Op>): (r: seq<Option<Answer>>)
    ensures |r| == |ops|
    decreases |ops|
  {
    if ops == [] then []
    else var (s', answer) := Step(c, s, ops[0]); [answer] + Answers(c, s', ops[1..])
  }

  function Fresh(persistent: bool): State {
    State([], map[], {}, if persistent then Some(map[]) else None)
  }

  // ---- Well-formedness is kept by every operation.

  lemma PutOk(s: State, a: Agent, tat: real)
    requires Ok(s)
    ensures Ok(Put(s, a, tat))
  {
    var s' := Put(s, a, tat);
    forall i, j | 0 <= i < j < |s'.order| ensures s'.order[i] != s'.order[j] {
      assert s'.order[i] in s.order;
    }
  }

  lemma DropOldestOk(s: State)
    requires Ok(s) && s.order != []
    ensures Ok(DropOldest(s))
  {
    var oldest := s.order[0];
    assert forall a :: a in s.order[1..] ==> a in s.order && a != oldest;
    assert forall a :: a in s.order && a != oldest ==> a in s.order[1..] by {
      assert s.order == [oldest] + s.order[1..];
    }
  }

  lemma {:induction false} EvictOk(c: Config, s: State)
    requires Ok(s)
    ensures Ok(Evict(c, s))
    decreases |s.order|
  {
    if |s.order| > c.maxAgents {
      DropOldestOk(s);
      EvictOk(c, DropOldest(s));
    }
  }

  lemma {:induction false} EvictOrder(c: Config, s: State)
    ensures Evict(c, s).order == s.order[Excess(c, s)..]
    decreases |s.order|
  {
    if |s.order| > c.maxAgents {
      EvictOrder(c, DropOldest(s));
      assert s.order[1..][Excess(c, s) - 1..] == s.order[Excess(c, s)..];
    }
  }

  lemma {:induction false} EvictTats(c: Config, s: State, a: Agent)
    requires a in Evict(c, s).tats
    ensures a in s.tats && Evict(c, s).tats[a] == s.tats[a]
    decreases |s.order|
  {
    if |s.order| > c.maxAgents {
      EvictTats(c, DropOldest(s), a);
    }
  }

  lemma {:induction false} LiveOrderMembers(c: Config, rows: map<Agent, real>, now: real, scan: seq<Agent>)
    ensures forall x :: x in LiveOrder(c, rows, now, scan) <==> x in scan && x in rows && rows[x] > now - c.period
    ensures Distinct(scan) ==> Distinct(LiveOrder(c, rows, now, scan))
  {
    if scan != [] {
      LiveOrderMembers(c, rows, now, scan[1..]);
      assert scan == [scan[0]] + scan[1..];
      if Distinct(scan) {
        assert scan[0] !in scan[1..];
        DistinctCons(scan[0], LiveOrder(c, rows, now, scan[1..]));
      }
    }
  }

  ghost predicate Applicable(s: State, op: Op) {
    op.Reopen? ==> s.table.Some? && Enumerates(op.scan, Written(s))
  }

  lemma StepOk(c: Config, s: State, op: Op)
    requires Ok(s) && Applicable(s, op)
    ensures Ok(Step(c, s, op).0)
  {
    match op
    case Ask(a, now) =>
      PutOk(s, a, NextTat(c, Tat(s, a), now));
      EvictOk(c, Put(s, a, NextTat(c, Tat(s, a), now)));
    case Tick =>
    case Forget(a) => WithoutMembers(s.order, a);
    case ForgetAll =>
    case Reopen(now, scan) => LiveOrderMembers(c, Written(s), now, scan);
  }

  // ---- Eviction.

  /** `x` is one of the last `n` keys. */
  ghost predicate AmongLast(order: seq<Agent>, n: nat, x: Agent) {
    exists i :: 0 <= i < |order| && |order| - i <= n && order[i] == x
  }

  lemma SuffixIsAmongLast(order: seq<Agent>, k: nat, x: Agent)
    requires k <= |order|
    ensures x in order[k..] <==> AmongLast(order, |order| - k, x)
  {
    if x in order[k..] {
      var i :| 0 <= i < |order[k..]| && order[k..][i] == x;
      assert order[k + i] == x;
    }
    if AmongLast(order, |order| - k, x) {
      var i :| 0 <= i < |order| && |order| - i <= |order| - k && order[i] == x;
      assert order[k..][i - k] == x;
    }
  }

  /** Which agents an admitted check leaves behind: exactly the last `maxAgents` keys. */
  lemma EvictionKeepsNewest(c: Config, s: State, a: Agent, now: real, x: Agent)
    requires Ok(s) && Check(c, s, a, now).1.Allowed?
    ensures x in Check(c, s, a, now).0.tats
      <==> AmongLast(Put(s, a, NextTat(c, Tat(s, a), now)).order, c.maxAgents, x)
  {
    var tat := NextTat(c, Tat(s, a), now);
    var s' := Put(s, a, tat);
    PutOk(s, a, tat);
    EvictOk(c, s');
    EvictOrder(c, s');
    SuffixIsAmongLast(s'.order, Excess(c, s'), x);
  }

  /** An admitted check does not forget its own agent while at most `maxAgents` are tracked. */
  lemma OwnCheckIsRemembered(c: Config, s: State, a: Agent, now: real)
    requires ValidConfig(c) && Ok(s) && |s.order| <= c.maxAgents && Check(c, s, a, now).1.Allowed?
    ensures Tat(Check(c, s, a, now).0, a) == Some(NextTat(c, Tat(s, a), now))
  {
    var tat := NextTat(c, Tat(s, a), now);
    var s' := Put(s, a, tat);
    PutOk(s, a, tat);
    EvictOk(c, s');
    EvictOrder(c, s');
    if a !in s.tats {
      assert s'.order[|s.order|] == a;
      assert s'.order[Excess(c, s')..][|s.order| - Excess(c, s')] == a;
    }
    EvictTats(c, s', a);
  }

  /** An admitted check forgets its own agent exactly when the agent was tracked before at least `maxAgents`
      others. */
  lemma OwnCheckForgottenIff(c: Config, s: State, a: Agent, now: real)
    requires ValidConfig(c) && Ok(s) && Check(c, s, a, now).1.Allowed?
    ensures Tat(Check(c, s, a, now).0, a) == None <==> exists i :: 0 <= i < |s.order| - c.maxAgents && s.order[i] == a
  {
    var order := Put(s, a, NextTat(c, Tat(s, a), now)).order;
    EvictionKeepsNewest(c, s, a, now, a);
    if a in s.tats {
      var i :| 0 <= i < |order| && order[i] == a;
      assert AmongLast(order, c.maxAgents, a) <==> |order| - i <= c.maxAgents;
    } else {
      assert order[|order| - 1] == a;
      assert AmongLast(order, c.maxAgents, a);
    }
  }

  /** Loading does not evict, so from a table with more than `maxAgents` live rows the limiter forgets in the
      very check that admits it each agent read before the last `maxAgents`, and no other. */
  lemma OverfullLoadForgetsOwnCheck(
      c: Config, rows: map<Agent, real>, loaded: real, scan: seq<Agent>, a: Agent, now: real)
    requires ValidConfig(c) && Enumerates(scan, rows)
    ensures var s := Load(c, rows, loaded, scan);
      Ok(s) && (Check(c, s, a, now).1.Allowed? ==>
        (Tat(Check(c, s, a, now).0, a) == None <==> exists i :: 0 <= i < |s.order| - c.maxAgents && s.order[i] == a))
  {
    var s := Load(c, rows, loaded, scan);
    LoadOk(c, rows, loaded, scan);
    if Check(c, s, a, now).1.Allowed? {
      OwnCheckForgottenIff(c, s, a, now);
    }
  }

  lemma LoadOk(c: Config, rows: map<Agent, real>, loaded: real, scan: seq<Agent>)
    requires Enumerates(scan, rows)
    ensures Ok(Load(c, rows, loaded, scan))
  {
    LiveOrderMembers(c, rows, loaded, scan);
  }

  /** It happens with two live rows where one agent fits. */
  lemma OverfullLoadWitness()
    ensures var c := Config(1.0, 60.0, 1);
      var s := Load(c, map[[1] := 100.0, [2] := 100.0], 99.0, [[1], [2]]);
      Ok(s) && Check(c, s, [1], 99.0).1.Allowed? && Tat(Check(c, s, [1], 99.0).0, [1]) == None
  {
    var c := Config(1.0, 60.0, 1);
    var a, b: Agent := [1], [2];
    var rows := map[a := 100.0, b := 100.0];
    var scan := [a, b];
    var s := Load(c, rows, 99.0, scan);
    LiveOrderMembers(c, rows, 99.0, scan);
    assert scan[1..] == [b] && [b][1..] == [];
    assert LiveOrder(c, rows, 99.0, [b]) == [b];
    assert s.order == scan;
    var s' := Put(s, a, NextTat(c, Tat(s, a), 99.0));
    PutOk(s, a, NextTat(c, Tat(s, a), 99.0));
    EvictOk(c, s');
    EvictOrder(c, s');
    assert s'.order[1..] == [b];
  }
}
