/** The memory store's quota, deduplication and pruning, as state functions over whole runs. */
module MemoryStore {
  import opened JsText
  import opened JsonText
  import Utf8

  const DAY := 86400

  /** `now` and `created` count seconds: the store writes `datetime('now')`. */
  datatype Observation = Observation(id: Text, content: Text, hash: Text, created: int)

  datatype SummaryInput = SummaryInput(
    title: Text, investigated: seq<Text>, learned: seq<Text>, completed: seq<Text>, nextSteps: seq<Text>,
    observationIds: seq<Text>)

  datatype Summary = Summary(id: Text, input: SummaryInput)

  datatype Config = Config(quota: int, window: int, sha256: Text -> Text)

  datatype State = State(observations: seq<Observation>, summaries: seq<Summary>, totalBytes: int)

  /** A request with what the outside supplies: the clock, a new UUID, and the validated input
      (redacted content, parsed summary), or nothing when validation refuses it. */
  datatype Request =
    | Observe(now: int, id: Text, content: Option<Text>)
    | WriteSummary(now: int, id: Text, input: Option<SummaryInput>)
    | Prune(now: int, days: int)

  datatype Answer = Invalid | QuotaExceeded | Id(id: Text) | Deleted(count: nat)

  const EMPTY := State([], [], 0)

  function SummaryBytes(s: SummaryInput): nat {
    Utf8.ByteLength(StringifyStrings(s.investigated) + StringifyStrings(s.learned)
                    + StringifyStrings(s.completed) + StringifyStrings(s.nextSteps) + s.title)
  }

  /** A summary is charged for its title and its four lists, each as it is written to its column, and not for the
      observations that it lists. */
  lemma SummaryCharge(s: SummaryInput)
    ensures SummaryBytes(s)
      == Utf8.ByteLength(StringifyStrings(s.investigated)) + Utf8.ByteLength(StringifyStrings(s.learned))
         + Utf8.ByteLength(StringifyStrings(s.completed)) + Utf8.ByteLength(StringifyStrings(s.nextSteps))
         + Utf8.ByteLength(s.title)
  {
    var a, b := StringifyStrings(s.investigated), StringifyStrings(s.learned);
    var c, d := StringifyStrings(s.completed), StringifyStrings(s.nextSteps);
    Utf8.ByteLengthAppend(a, b);
    Utf8.ByteLengthAppend(a + b, c);
    Utf8.ByteLengthAppend(a + b + c, d);
    Utf8.ByteLengthAppend(a + b + c + d, s.title);
  }

  /** The row that the duplicate query returns. */
  function Recent(rows: seq<Observation>, hash: Text, cutoff: int): (r: Option<Observation>)
    ensures r.Some? ==> r.value in rows && r.value.hash == hash && r.value.created > cutoff
    ensures r.None? ==> forall o :: o in rows && o.hash == hash ==> o.created <= cutoff
  {
    if rows == [] then None
    else if rows[0].hash == hash && rows[0].created > cutoff then Some(rows[0])
    else Recent(rows[1..], hash, cutoff)
  }

  ghost predicate Listed(summaries: seq<Summary>, id: Text) {
    exists i :: 0 <= i < |summaries| && id in summaries[i].input.observationIds
  }

  function ListedIds(summaries: seq<Summary>): (r: set<Text>)
    ensures forall id :: id in r <==> Listed(summaries, id)
  {
    set s, id | s in summaries && id in s.input.observationIds :: id
  }

  /** A negative retention makes an invalid date modifier, so the comparison is null and selects nothing. */
  predicate Expired(o: Observation, listed: set<Text>, now: int, days: int) {
    days >= 0 && o.created < now - days * DAY && o.id !in listed
  }

  function Kept(rows: seq<Observation>, listed: set<Text>, now: int, days: int): seq<Observation> {
    if rows == [] then []
    else (if Expired(rows[0], listed, now, days) then [] else [rows[0]]) + Kept(rows[1..], listed, now, days)
  }

  function Dropped(rows: seq<Observation>, listed: set<Text>, now: int, days: int): seq<Observation> {
    if rows == [] then []
    else (if Expired(rows[0], listed, now, days) then [rows[0]] else []) + Dropped(rows[1..], listed, now, days)
  }

  function NewRow(config: Config, id: Text, content: Text, now: int): Observation {
    Observation(id, content, config.sha256(content), now)
  }

  function Duplicate(config: Config, s: State, content: Text, now: int): Option<Observation> {
    if config.window > 0 then Recent(s.observations, config.sha256(content), now - config.window) else None
  }

  function Step(config: Config, s: State, r: Request): (State, Answer) {
    match r
    case Observe(now, id, None) => (s, Invalid)
    case Observe(now, id, Some(content)) =>
      var duplicate := Duplicate(config, s, content, now);
      var bytes := Utf8.ByteLength(content);
      if duplicate.Some? then (s, Id(duplicate.value.id))
      else if s.totalBytes + bytes > config.quota then (s, QuotaExceeded)
      else (State(s.observations + [NewRow(config, id, content, now)], s.summaries, s.totalBytes + bytes), Id(id))
    case WriteSummary(now, id, None) => (s, Invalid)
    case WriteSummary(now, id, Some(input)) =>
      var bytes := SummaryBytes(input);
      if s.totalBytes + bytes > config.quota then (s, QuotaExceeded)
      else (State(s.observations, s.summaries + [Summary(id, input)], s.totalBytes + bytes), Id(id))
    case Prune(now, days) =>
      var listed := ListedIds(s.summaries);
      (State(Kept(s.observations, listed, now, days), s.summaries, s.totalBytes),
       Deleted(|Dropped(s.observations, listed, now, days)|))
  }

  function Front<T>(s: seq<T>): seq<T>
    requires s != []
  {
    s[..|s| - 1]
  }

  function Last<T>(s: seq<T>): T
    requires s != []
  {
    s[|s| - 1]
  }

  function Run(config: Config, ops: seq<Request>): State {
    if ops == [] then EMPTY else Step(config, Run(config, Front(ops)), Last(ops)).0
  }

  function Answered(config: Config, ops: seq<Request>): Answer
    requires ops != []
  {
    Step(config, Run(config, Front(ops)), Last(ops)).1
  }

  ghost predicate Timely(ops: seq<Request>) {
    forall i, j :: 0 <= i < j < |ops| ==> ops[i].now <= ops[j].now
  }

  /** `randomUUID` never repeats itself. */
  ghost predicate FreshIds(ops: seq<Request>) {
    forall i, j :: 0 <= i < j < |ops| && !ops[i].Prune? && !ops[j].Prune? ==> ops[i].id != ops[j].id
  }

  /** The observations a run was told are stored under the id made for them, pruned since or not. */
  function Inserted(config: Config, ops: seq<Request>): seq<Observation> {
    if ops == [] then []
    else Inserted(config, Front(ops)) + Stored(config, Last(ops), Answered(config, ops))
  }

  /** The row a request stores, told from its answer alone. */
  function Stored(config: Config, r: Request, answer: Answer): seq<Observation> {
    if r.Observe? && r.content.Some? && answer == Id(r.id) then [NewRow(config, r.id, r.content.value, r.now)] else []
  }

  /** The rows every prune of a run deleted. */
  function Removed(config: Config, ops: seq<Request>): seq<Observation> {
    if ops == [] then []
    else Removed(config, Front(ops)) + Gone(Run(config, Front(ops)), Last(ops))
  }

  function Gone(s: State, r: Request): seq<Observation> {
    if r.Prune? then Dropped(s.observations, ListedIds(s.summaries), r.now, r.days) else []
  }

  function Sum<T>(rows: seq<T>, size: T -> nat): nat {
    if rows == [] then 0 else size(rows[0]) + Sum(rows[1..], size)
  }

  function RowBytes(o: Observation): nat {
    Utf8.ByteLength(o.content)
  }

  function SummaryRowBytes(s: Summary): nat {
    SummaryBytes(s.input)
  }

  function ContentBytes(rows: seq<Observation>): nat {
    Sum(rows, RowBytes)
  }

  function SummariesBytes(rows: seq<Summary>): nat {
    Sum(rows, SummaryRowBytes)
  }

  lemma {:induction false} SumAppend<T>(a: seq<T>, b: seq<T>, size: T -> nat)
    ensures Sum(a + b, size) == Sum(a, size) + Sum(b, size)
  {
    if a == [] {
      assert a + b == b;
    } else {
      SumAppend(a[1..], b, size);
      assert (a + b)[1..] == a[1..] + b;
    }
  }

  lemma {:induction false} KeptExactly(rows: seq<Observation>, listed: set<Text>, now: int, days: int)
    ensures forall o :: o in Kept(rows, listed, now, days) <==> o in rows && !Expired(o, listed, now, days)
  {
    if rows != [] {
      KeptExactly(rows[1..], listed, now, days);
      assert rows == [rows[0]] + rows[1..];
    }
  }

  /** A prune divides the rows between those it keeps and those it drops. */
  lemma {:induction false} PruneDivides(rows: seq<Observation>, listed: set<Text>, now: int, days: int)
    ensures multiset(rows) == multiset(Kept(rows, listed, now, days)) + multiset(Dropped(rows, listed, now, days))
  {
    if rows != [] {
      var kept, dropped := Kept(rows[1..], listed, now, days), Dropped(rows[1..], listed, now, days);
      PruneDivides(rows[1..], listed, now, days);
      assert rows == [rows[0]] + rows[1..];
      if Expired(rows[0], listed, now, days) {
        assert multiset([rows[0]] + dropped) == multiset{rows[0]} + multiset(dropped);
      } else {
        assert multiset([rows[0]] + kept) == multiset{rows[0]} + multiset(kept);
      }
    }
  }

  lemma {:induction false} PruneDividesSum(
      rows: seq<Observation>, listed: set<Text>, now: int, days: int, size: Observation -> nat)
    ensures Sum(Kept(rows, listed, now, days), size) + Sum(Dropped(rows, listed, now, days), size) == Sum(rows, size)
  {
    if rows != [] {
      var kept, dropped := Kept(rows[1..], listed, now, days), Dropped(rows[1..], listed, now, days);
      PruneDividesSum(rows[1..], listed, now, days, size);
      assert [] + kept == kept && [] + dropped == dropped;
      SumAppend([rows[0]], kept, size);
      SumAppend([rows[0]], dropped, size);
    }
  }

  lemma AddContent(rows: seq<Observation>, o: Observation)
    ensures ContentBytes(rows + [o]) == ContentBytes(rows) + RowBytes(o)
  {
    SumAppend(rows, [o], RowBytes);
  }

  lemma AddSummary(rows: seq<Summary>, s: Summary)
    ensures SummariesBytes(rows + [s]) == SummariesBytes(rows) + SummaryRowBytes(s)
  {
    SumAppend(rows, [s], SummaryRowBytes);
  }

  lemma StepAccounting(config: Config, s: State, r: Request)
    ensures var t := Step(config, s, r).0;
      t.totalBytes + ContentBytes(s.observations) + SummariesBytes(s.summaries)
      == s.totalBytes + ContentBytes(t.observations) + SummariesBytes(t.summaries) + ContentBytes(Gone(s, r))
    ensures s.totalBytes <= Step(config, s, r).0.totalBytes
    ensures s.totalBytes <= config.quota ==> Step(config, s, r).0.totalBytes <= config.quota
  {
    if r.Observe? && r.content.Some? {
      ObserveAccounting(config, s, r);
    } else if r.WriteSummary? && r.input.Some? {
      AddSummary(s.summaries, Summary(r.id, r.input.value));
    } else if r.Prune? {
      PruneDividesSum(s.observations, ListedIds(s.summaries), r.now, r.days, RowBytes);
    }
  }

  lemma ObserveAccounting(config: Config, s: State, r: Request)
    requires r.Observe? && r.content.Some?
    ensures var t := Step(config, s, r).0;
      && t.summaries == s.summaries
      && t.totalBytes - s.totalBytes == ContentBytes(t.observations) - ContentBytes(s.observations)
      && s.totalBytes <= t.totalBytes && (s.totalBytes <= config.quota ==> t.totalBytes <= config.quota)
  {
    AddContent(s.observations, NewRow(config, r.id, r.content.value, r.now));
  }

  /** Over every run the counter is the bytes still stored plus the bytes pruned, so pruning never gives
      any back, and it stays within the quota. */
  lemma {:induction false} StorageAccounting(config: Config, ops: seq<Request>)
    ensures var s := Run(config, ops);
      s.totalBytes == ContentBytes(s.observations) + ContentBytes(Removed(config, ops)) + SummariesBytes(s.summaries)
    ensures config.quota >= 0 ==> Run(config, ops).totalBytes <= config.quota
  {
    if ops != [] {
      StorageAccounting(config, Front(ops));
      StepAccounting(config, Run(config, Front(ops)), Last(ops));
      SumAppend(Removed(config, Front(ops)), Gone(Run(config, Front(ops)), Last(ops)), RowBytes);
    }
  }

  ghost predicate Known(ops: seq<Request>, o: Observation) {
    exists i :: 0 <= i < |ops| && ops[i].Observe? && ops[i].id == o.id && ops[i].now == o.created
  }

  lemma KnownGrows(ops: seq<Request>, o: Observation)
    requires ops != [] && Known(Front(ops), o)
    ensures Known(ops, o)
  {
    var i :| 0 <= i < |ops| - 1 && Front(ops)[i].Observe? && Front(ops)[i].id == o.id && Front(ops)[i].now == o.created;
    assert ops[i] == Front(ops)[i];
  }

  /** Every stored row was made by a request of the run. */
  lemma {:induction false} RowsAreKnown(config: Config, ops: seq<Request>)
    ensures forall o :: o in Run(config, ops).observations ==> Known(ops, o)
  {
    if ops != [] {
      RowsAreKnown(config, Front(ops));
      var s, r := Run(config, Front(ops)), Last(ops);
      forall o | o in Run(config, ops).observations ensures Known(ops, o) {
        if r.Prune? {
          KeptExactly(s.observations, ListedIds(s.summaries), r.now, r.days);
        }
        if o in s.observations {
          KnownGrows(ops, o);
        } else {
          assert ops[|ops| - 1] == r;
        }
      }
    }
  }

  lemma FreshPrefix(ops: seq<Request>)
    requires ops != [] && FreshIds(ops)
    ensures FreshIds(Front(ops))
  {
    assert forall i :: 0 <= i < |ops| - 1 ==> Front(ops)[i] == ops[i];
  }

  lemma TimelyPrefix(ops: seq<Request>)
    requires ops != [] && Timely(ops)
    ensures Timely(Front(ops))
    ensures |ops| > 1 ==> Last(Front(ops)).now <= Last(ops).now
  {
    assert forall i :: 0 <= i < |ops| - 1 ==> Front(ops)[i] == ops[i];
  }

  lemma StepRows(config: Config, s: State, r: Request)
    requires r.Observe? ==> forall o :: o in s.observations ==> o.id != r.id
    requires !r.Prune?
    ensures Step(config, s, r).0.observations == s.observations + Stored(config, r, Step(config, s, r).1)
  {
    if r.Observe? && r.content.Some? {
      var duplicate := Duplicate(config, s, r.content.value, r.now);
      assert duplicate.Some? ==> duplicate.value in s.observations;
    }
  }

  lemma FreshAgainstRows(config: Config, ops: seq<Request>)
    requires ops != [] && FreshIds(ops) && Last(ops).Observe?
    ensures forall o :: o in Run(config, Front(ops)).observations ==> o.id != Last(ops).id
  {
    RowsAreKnown(config, Front(ops));
    forall o | o in Run(config, Front(ops)).observations ensures o.id != Last(ops).id {
      assert Known(Front(ops), o);
      var i :| 0 <= i < |ops| - 1 && Front(ops)[i].Observe? && Front(ops)[i].id == o.id;
      assert ops[i] == Front(ops)[i] && ops[|ops| - 1] == Last(ops);
    }
  }

  lemma StepConserves(config: Config, s: State, r: Request)
    requires r.Observe? ==> forall o :: o in s.observations ==> o.id != r.id
    ensures multiset(s.observations) + multiset(Stored(config, r, Step(config, s, r).1))
      == multiset(Step(config, s, r).0.observations) + multiset(Gone(s, r))
  {
    if r.Prune? {
      PruneDivides(s.observations, ListedIds(s.summaries), r.now, r.days);
    } else {
      StepRows(config, s, r);
    }
  }

  lemma Balance<T>(stored: seq<T>, more: seq<T>, rows: seq<T>, next: seq<T>, removed: seq<T>, gone: seq<T>)
    requires multiset(stored) == multiset(rows) + multiset(removed)
    requires multiset(rows) + multiset(more) == multiset(next) + multiset(gone)
    ensures multiset(stored + more) == multiset(next) + multiset(removed + gone)
  {
    assert multiset(stored + more) == multiset(stored) + multiset(more);
    assert multiset(removed + gone) == multiset(removed) + multiset(gone);
    var r, m, n, d, g := multiset(rows), multiset(more), multiset(next), multiset(removed), multiset(gone);
    assert r + d + m == r + m + d;
    assert n + g + d == n + (d + g);
  }

  /** No row is lost or made up: whatever was ever stored is either still there or was pruned, once. */
  lemma {:induction false} RowsConserved(config: Config, ops: seq<Request>)
    requires FreshIds(ops)
    ensures multiset(Inserted(config, ops)) == multiset(Run(config, ops).observations) + multiset(Removed(config, ops))
  {
    if ops != [] {
      FreshPrefix(ops);
      RowsConserved(config, Front(ops));
      if Last(ops).Observe? {
        FreshAgainstRows(config, ops);
      }
      var s, r := Run(config, Front(ops)), Last(ops);
      var t := Step(config, s, r).0.observations;
      StepConserves(config, s, r);
      Balance(Inserted(config, Front(ops)), Stored(config, r, Answered(config, ops)), s.observations, t,
        Removed(config, Front(ops)), Gone(s, r));
    }
  }

  lemma StepBytes(config: Config, s: State, r: Request)
    requires r.Observe? ==> forall o :: o in s.observations ==> o.id != r.id
    ensures Step(config, s, r).0.totalBytes - SummariesBytes(Step(config, s, r).0.summaries)
      == s.totalBytes - SummariesBytes(s.summaries) + ContentBytes(Stored(config, r, Step(config, s, r).1))
  {
    StepAccounting(config, s, r);
    if !r.Prune? {
      StepRows(config, s, r);
      SumAppend(s.observations, Stored(config, r, Step(config, s, r).1), RowBytes);
    } else {
      PruneDividesSum(s.observations, ListedIds(s.summaries), r.now, r.days, RowBytes);
    }
  }

  /** The counter is every byte ever stored. */
  lemma {:induction false} CounterIsAllBytes(config: Config, ops: seq<Request>)
    requires FreshIds(ops)
    ensures Run(config, ops).totalBytes
      == ContentBytes(Inserted(config, ops)) + SummariesBytes(Run(config, ops).summaries)
  {
    if ops != [] {
      FreshPrefix(ops);
      CounterIsAllBytes(config, Front(ops));
      if Last(ops).Observe? {
        FreshAgainstRows(config, ops);
      }
      StepBytes(config, Run(config, Front(ops)), Last(ops));
      SumAppend(Inserted(config, Front(ops)), Stored(config, Last(ops), Answered(config, ops)), RowBytes);
    }
  }

  /** Every byte ever stored, pruned since or not. */
  function EverStored(config: Config, ops: seq<Request>): nat {
    ContentBytes(Inserted(config, ops)) + SummariesBytes(Run(config, ops).summaries)
  }

  ghost predicate IsDuplicate(config: Config, o: Observation, content: Text, now: int) {
    config.window > 0 && o.hash == config.sha256(content) && o.created > now - config.window
  }

  /** Over every run, content is answered with the row of a live duplicate when there is one, refused exactly when
      it would take the bytes ever stored past the quota, and otherwise stored as a new row. */
  lemma AdmittedIffFits(config: Config, ops: seq<Request>, now: int, id: Text, content: Text)
    requires FreshIds(ops)
    ensures var s := Run(config, ops); var (s', answer) := Step(config, s, Observe(now, id, Some(content)));
      if exists o :: o in s.observations && IsDuplicate(config, o, content, now) then
        s' == s && exists o :: o in s.observations && IsDuplicate(config, o, content, now) && answer == Id(o.id)
      else if EverStored(config, ops) + Utf8.ByteLength(content) > config.quota then
        s' == s && answer == QuotaExceeded
      else
        && answer == Id(id) && s'.summaries == s.summaries
        && s'.observations == s.observations + [Observation(id, content, config.sha256(content), now)]
  {
    CounterIsAllBytes(config, ops);
    var s := Run(config, ops);
    if config.window > 0 {
      var row := Recent(s.observations, config.sha256(content), now - config.window);
      if row.Some? { assert IsDuplicate(config, row.value, content, now); }
    }
  }

  /** Likewise for summaries, which have no duplicates. */
  lemma SummaryAdmittedIffFits(config: Config, ops: seq<Request>, now: int, id: Text, input: SummaryInput)
    requires FreshIds(ops)
    ensures var s := Run(config, ops); var (s', answer) := Step(config, s, WriteSummary(now, id, Some(input)));
      if EverStored(config, ops) + SummaryBytes(input) > config.quota then s' == s && answer == QuotaExceeded
      else answer == Id(id) && s'.observations == s.observations && s'.summaries == s.summaries + [Summary(id, input)]
  {
    CounterIsAllBytes(config, ops);
  }

  /** Rows with equal hashes are at least the window apart, in the order of the rows. */
  ghost predicate Spaced(window: int, rows: seq<Observation>) {
    forall i, j :: 0 <= i < j < |rows| && rows[i].hash == rows[j].hash ==> rows[i].created + window <= rows[j].created
  }

  /** What every step relies on: no row is younger than the clock, and a pruned row is out of the window. */
  ghost predicate Aged(window: int, ever: seq<Observation>, live: seq<Observation>, now: int) {
    forall o :: o in ever ==> o.created <= now && (o in live || o.created + window <= now)
  }

  /** A prune with this retention deletes no row that the duplicate check still needs. */
  predicate PruneSafe(window: int, days: int) {
    days < 0 || days * DAY + 1 >= window
  }

  ghost predicate PrunesSafely(config: Config, ops: seq<Request>) {
    forall i :: 0 <= i < |ops| && ops[i].Prune? ==> PruneSafe(config.window, ops[i].days)
  }

  lemma SpacedSnoc(window: int, rows: seq<Observation>, o: Observation)
    requires Spaced(window, rows)
    requires forall p :: p in rows && p.hash == o.hash ==> p.created + window <= o.created
    ensures Spaced(window, rows + [o])
  { }

  lemma NewRowSpaced(config: Config, s: State, ever: seq<Observation>, content: Text, now: int)
    requires Aged(config.window, ever, s.observations, now)
    requires Duplicate(config, s, content, now).None?
    ensures forall p :: p in ever && p.hash == config.sha256(content) ==> p.created + config.window <= now
  { }

  lemma StepSpaced(config: Config, s: State, ever: seq<Observation>, r: Request)
    requires r.Observe? ==> forall o :: o in s.observations ==> o.id != r.id
    requires Aged(config.window, ever, s.observations, r.now) && Spaced(config.window, ever)
    requires r.Prune? ==> PruneSafe(config.window, r.days)
    ensures var more := ever + Stored(config, r, Step(config, s, r).1);
      Spaced(config.window, more) && Aged(config.window, more, Step(config, s, r).0.observations, r.now)
  {
    var more := Stored(config, r, Step(config, s, r).1);
    assert ever + [] == ever;
    if r.Prune? {
      KeptExactly(s.observations, ListedIds(s.summaries), r.now, r.days);
    } else {
      StepRows(config, s, r);
      if more != [] {
        NewRowSpaced(config, s, ever, r.content.value, r.now);
        SpacedSnoc(config.window, ever, more[0]);
      }
    }
  }

  lemma {:induction false} EverSpaced(config: Config, ops: seq<Request>)
    requires Timely(ops) && FreshIds(ops) && PrunesSafely(config, ops)
    ensures Spaced(config.window, Inserted(config, ops))
    ensures ops != [] ==> Aged(config.window, Inserted(config, ops), Run(config, ops).observations, Last(ops).now)
  {
    if ops != [] {
      FreshPrefix(ops);
      TimelyPrefix(ops);
      assert forall i :: 0 <= i < |ops| - 1 ==> Front(ops)[i] == ops[i];
      EverSpaced(config, Front(ops));
      if Last(ops).Observe? {
        FreshAgainstRows(config, ops);
      }
      StepSpaced(config, Run(config, Front(ops)), Inserted(config, Front(ops)), Last(ops));
    }
  }

  lemma {:induction false} KeptSpaced(window: int, rows: seq<Observation>, listed: set<Text>, now: int, days: int)
    requires Spaced(window, rows)
    ensures Spaced(window, Kept(rows, listed, now, days))
  {
    if rows != [] {
      assert forall i :: 0 <= i < |rows| - 1 ==> rows[1..][i] == rows[i + 1];
      KeptSpaced(window, rows[1..], listed, now, days);
      KeptExactly(rows[1..], listed, now, days);
      var kept := Kept(rows[1..], listed, now, days);
      forall p | p in kept && p.hash == rows[0].hash ensures rows[0].created + window <= p.created {
        var j :| 0 <= j < |rows[1..]| && rows[1..][j] == p;
      }
    }
  }

  lemma RowsNotYounger(config: Config, ops: seq<Request>)
    requires Timely(ops) && ops != []
    ensures forall o :: o in Run(config, ops).observations ==> o.created <= Last(ops).now
  {
    RowsAreKnown(config, ops);
    forall o | o in Run(config, ops).observations ensures o.created <= Last(ops).now {
      assert Known(ops, o);
      var i :| 0 <= i < |ops| && ops[i].Observe? && ops[i].id == o.id && ops[i].now == o.created;
    }
  }

  /** The stored rows are spaced over every run, however it prunes. */
  lemma {:induction false} LiveSpaced(config: Config, ops: seq<Request>)
    requires Timely(ops) && FreshIds(ops)
    ensures Spaced(config.window, Run(config, ops).observations)
  {
    if ops != [] {
      FreshPrefix(ops);
      TimelyPrefix(ops);
      LiveSpaced(config, Front(ops));
      var s, r := Run(config, Front(ops)), Last(ops);
      if r.Prune? {
        KeptSpaced(config.window, s.observations, ListedIds(s.summaries), r.now, r.days);
      } else {
        if r.Observe? { FreshAgainstRows(config, ops); }
        if |ops| > 1 { RowsNotYounger(config, Front(ops)); }
        StepRows(config, s, r);
        if Stored(config, r, Answered(config, ops)) != [] {
          NewRowSpaced(config, s, s.observations, r.content.value, r.now);
          SpacedSnoc(config.window, s.observations, NewRow(config, r.id, r.content.value, r.now));
        }
      }
    }
  }

  /** At most one row can match the duplicate query, so its unspecified row order decides nothing. */
  lemma DuplicateUnique(config: Config, ops: seq<Request>, now: int, hash: Text, i: nat, j: nat)
    requires Timely(ops) && FreshIds(ops) && ops != [] && Last(ops).now <= now && config.window > 0
    requires i < |Run(config, ops).observations| && j < |Run(config, ops).observations|
    requires Run(config, ops).observations[i].hash == hash == Run(config, ops).observations[j].hash
    requires Run(config, ops).observations[i].created > now - config.window
    requires Run(config, ops).observations[j].created > now - config.window
    ensures i == j
  {
    LiveSpaced(config, ops);
    RowsNotYounger(config, ops);
    var rows := Run(config, ops).observations;
    assert rows[i] in rows && rows[j] in rows;
  }

  /** A run that stores one content twice around a prune. */
  function StoreTwice(days: int, content: Text, a: Text, b: Text): seq<Request> {
    var later := days * DAY + 1;
    [Observe(0, a, Some(content)), Prune(later, days), Observe(later, b, Some(content))]
  }

  lemma UnsafePruneForgets(config: Config, days: int, content: Text, a: Text, b: Text)
    requires !PruneSafe(config.window, days) && a != b && 2 * Utf8.ByteLength(content) <= config.quota
    ensures var ops := StoreTwice(days, content, a, b);
      Timely(ops) && FreshIds(ops) && !Spaced(config.window, Inserted(config, ops))
  {
    var ops := StoreTwice(days, content, a, b);
    var later := days * DAY + 1;
    var bytes := Utf8.ByteLength(content);
    var o, p := NewRow(config, a, content, 0), NewRow(config, b, content, later);
    var two := [ops[0], ops[1]];
    StoreThenPrune(config, days, content, a);
    RunSnoc(config, two, ops[2]);
    StoreIntoEmpty(config, State([], [], bytes), later, b, content);
    assert two + [ops[2]] == ops;
    assert Inserted(config, ops) == [o, p];
    TooClose(config.window, o, p);
  }

  lemma StoreThenPrune(config: Config, days: int, content: Text, a: Text)
    requires days >= 0 && Utf8.ByteLength(content) <= config.quota
    ensures var ops := [Observe(0, a, Some(content)), Prune(days * DAY + 1, days)];
      && Run(config, ops) == State([], [], Utf8.ByteLength(content))
      && Inserted(config, ops) == [NewRow(config, a, content, 0)]
  {
    var first, second := Observe(0, a, Some(content)), Prune(days * DAY + 1, days);
    var o, bytes := NewRow(config, a, content, 0), Utf8.ByteLength(content);
    StoreFirst(config, content, a);
    RunSnoc(config, [first], second);
    PruneLast(config, o, bytes, days * DAY + 1, days);
    assert [first] + [second] == [first, second];
  }

  lemma StoreFirst(config: Config, content: Text, a: Text)
    requires Utf8.ByteLength(content) <= config.quota
    ensures var ops := [Observe(0, a, Some(content))]; var o := NewRow(config, a, content, 0);
      Run(config, ops) == State([o], [], Utf8.ByteLength(content)) && Inserted(config, ops) == [o]
  {
    var first := Observe(0, a, Some(content));
    RunSnoc(config, [], first);
    StoreIntoEmpty(config, EMPTY, 0, a, content);
    assert [] + [first] == [first];
  }

  lemma TooClose(window: int, o: Observation, p: Observation)
    requires o.hash == p.hash && p.created < o.created + window
    ensures !Spaced(window, [o, p])
  {
    assert [o, p][0].hash == [o, p][1].hash;
  }

  lemma StoreIntoEmpty(config: Config, s: State, now: int, id: Text, content: Text)
    requires s.observations == [] && s.totalBytes + Utf8.ByteLength(content) <= config.quota
    ensures Step(config, s, Observe(now, id, Some(content)))
      == (State([NewRow(config, id, content, now)], s.summaries, s.totalBytes + Utf8.ByteLength(content)), Id(id))
  {
    assert Recent([], config.sha256(content), now - config.window).None?;
    assert s.observations + [NewRow(config, id, content, now)] == [NewRow(config, id, content, now)];
  }

  lemma PruneLast(config: Config, o: Observation, bytes: int, now: int, days: int)
    requires days >= 0 && o.created < now - days * DAY
    ensures Step(config, State([o], [], bytes), Prune(now, days)).0 == State([], [], bytes)
  {
    assert Kept([o], ListedIds([]), now, days) == [];
  }

  lemma RunSnoc(config: Config, ops: seq<Request>, r: Request)
    ensures Run(config, ops + [r]) == Step(config, Run(config, ops), r).0
    ensures Inserted(config, ops + [r])
      == Inserted(config, ops) + Stored(config, r, Step(config, Run(config, ops), r).1)
  {
    assert Front(ops + [r]) == ops;
  }

  /** Equal contents stored in any run, pruned since or not, are the window apart exactly when the
      retention leaves no gap below the window. */
  lemma SpacingEverStoredIff(config: Config, days: int)
    requires config.quota >= 0
    ensures PruneSafe(config.window, days) <==>
      (forall ops: seq<Request> ::
        Timely(ops) && FreshIds(ops) && (forall i :: 0 <= i < |ops| && ops[i].Prune? ==> ops[i].days == days)
        ==> Spaced(config.window, Inserted(config, ops)))
  {
    if PruneSafe(config.window, days) {
      forall ops: seq<Request> | Timely(ops) && FreshIds(ops)
        && (forall i :: 0 <= i < |ops| && ops[i].Prune? ==> ops[i].days == days)
        ensures Spaced(config.window, Inserted(config, ops))
      {
        EverSpaced(config, ops);
      }
    } else {
      UnsafePruneForgets(config, days, [], [], [0]);
    }
  }

  lemma {:induction false} RunContinues(config: Config, ops: seq<Request>, more: seq<Request>)
    requires more != []
    ensures Run(config, ops + more) == Step(config, Run(config, ops + Front(more)), Last(more)).0
  {
    assert Front(ops + more) == ops + Front(more);
  }

  lemma ListedSurvives(config: Config, s: State, r: Request, o: Observation)
    requires o in s.observations && Listed(s.summaries, o.id)
    ensures o in Step(config, s, r).0.observations && Listed(Step(config, s, r).0.summaries, o.id)
  {
    var i :| 0 <= i < |s.summaries| && o.id in s.summaries[i].input.observationIds;
    var t := Step(config, s, r).0;
    assert s.summaries <= t.summaries;
    assert o.id in t.summaries[i].input.observationIds;
    if r.Prune? {
      KeptExactly(s.observations, ListedIds(s.summaries), r.now, r.days);
    }
  }

  /** An observation that is stored and listed in a summary outlives every continuation of the run. */
  lemma {:induction false} ListedNeverPruned(config: Config, ops: seq<Request>, more: seq<Request>, o: Observation)
    requires o in Run(config, ops).observations && Listed(Run(config, ops).summaries, o.id)
    ensures o in Run(config, ops + more).observations && Listed(Run(config, ops + more).summaries, o.id)
  {
    if more == [] {
      assert ops + more == ops;
    } else {
      ListedNeverPruned(config, ops, Front(more), o);
      RunContinues(config, ops, more);
      ListedSurvives(config, Run(config, ops + Front(more)), Last(more), o);
    }
  }

  /** No store can be in this state and admit `content`: it is over the quota, and no row is recent enough. */
  ghost predicate Shut(config: Config, s: State, content: Text, since: int) {
    && s.totalBytes + Utf8.ByteLength(content) > config.quota
    && forall o :: o in s.observations && o.hash == config.sha256(content) ==> o.created <= since - config.window
  }

  lemma StepStaysShut(config: Config, s: State, r: Request, content: Text, since: int)
    requires forall x :: config.sha256(x) == config.sha256(content) ==> x == content
    requires Shut(config, s, content, since)
    ensures Shut(config, Step(config, s, r).0, content, since)
  {
    StepAccounting(config, s, r);
    if r.Prune? {
      KeptExactly(s.observations, ListedIds(s.summaries), r.now, r.days);
    } else if r.Observe? && r.content.Some? && config.sha256(r.content.value) == config.sha256(content) {
      assert r.content.value == content;
      assert Step(config, s, r).0 == s;
    }
  }

  lemma {:induction false} StaysShut(config: Config, ops: seq<Request>, more: seq<Request>, content: Text, since: int)
    requires forall x :: config.sha256(x) == config.sha256(content) ==> x == content
    requires Shut(config, Run(config, ops), content, since)
    ensures Shut(config, Run(config, ops + more), content, since)
  {
    if more == [] {
      assert ops + more == ops;
    } else {
      StaysShut(config, ops, Front(more), content, since);
      RunContinues(config, ops, more);
      StepStaysShut(config, Run(config, ops + Front(more)), Last(more), content, since);
    }
  }

  /** Content refused for want of quota is refused for ever after, whatever is pruned. */
  lemma RefusedForGood(config: Config, ops: seq<Request>, more: seq<Request>, r: Request, again: Request)
    requires r.Observe? && r.content.Some? && again.Observe? && again.content == r.content && r.now <= again.now
    requires forall x :: config.sha256(x) == config.sha256(r.content.value) ==> x == r.content.value
    requires Answered(config, ops + [r]) == QuotaExceeded
    ensures Answered(config, ops + [r] + more + [again]) == QuotaExceeded
  {
    assert Front(ops + [r]) == ops && Front(ops + [r] + more + [again]) == ops + [r] + more;
    var s := Run(config, ops);
    assert Run(config, ops + [r]) == s;
    if config.window > 0 {
      assert Shut(config, s, r.content.value, r.now);
      StaysShut(config, ops + [r], more, r.content.value, r.now);
    } else {
      TotalGrows(config, ops + [r], more);
    }
  }

  lemma {:induction false} TotalGrows(config: Config, ops: seq<Request>, more: seq<Request>)
    ensures Run(config, ops).totalBytes <= Run(config, ops + more).totalBytes
  {
    if more == [] {
      assert ops + more == ops;
    } else {
      TotalGrows(config, ops, Front(more));
      RunContinues(config, ops, more);
      StepAccounting(config, Run(config, ops + Front(more)), Last(more));
    }
  }
}
