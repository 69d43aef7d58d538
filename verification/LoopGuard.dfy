/** The loop guard: a trimmed sliding window of call fingerprints for each agent, against the
    full history of calls. */
module LoopGuard {
  import opened JsText
  import opened InsertionOrder
  import opened CanonicalJson
  import opened CanonicalDecoding

  type Agent = Text

  datatype Config = Config(maxHistory: int, warn: int, block: int, window: int, maxAgents: int)

  predicate ValidConfig(c: Config) {
    c.warn < c.block && c.maxHistory >= 1 && c.window >= 1 && c.maxAgents >= 1
  }

  datatype Entry = Entry(hash: Text, timestamp: int)

  datatype Call = Call(tool: Text, params: Json, time: int)

  datatype Action = Allow | Warn | Block

  datatype Verdict = Verdict(action: Action, duplicateCount: nat)

  // ---- Fingerprints.

  const TOOL: Text := [116, 111, 111, 108]
  const PARAMS: Text := [112, 97, 114, 97, 109, 115]

  function Identity(tool: Text, params: Json): Json {
    Obj([Member(TOOL, Str(tool)), Member(PARAMS, params)])
  }

  function Fingerprint(sha256: Text -> Text, tool: Text, params: Json): Text {
    sha256(StableStringify(Identity(tool, params)))
  }

  ghost predicate Injective(f: Text -> Text) {
    forall x, y :: f(x) == f(y) ==> x == y
  }

  /** Two calls share a fingerprint exactly when they name the same tool and their parameters
      differ in key order only. */
  lemma FingerprintDecides(sha256: Text -> Text, tool: Text, params: Json, tool': Text, params': Json)
    requires Injective(sha256) && WellFormed(params) && WellFormed(params')
    ensures Fingerprint(sha256, tool, params) == Fingerprint(sha256, tool', params')
      <==> tool == tool' && SameUpToKeyOrder(params, params')
  {
    var v, w := Identity(tool, params), Identity(tool', params');
    CanonicalForm(v, w);
    IdentityMembers(tool, params);
    IdentityMembers(tool', params');
  }

  lemma IdentityMembers(tool: Text, params: Json)
    requires WellFormed(params)
    ensures WellFormed(Identity(tool, params))
    ensures var ms := Identity(tool, params).members;
      && (forall k :: k in Keys(ms) <==> k == TOOL || k == PARAMS)
      && Lookup(ms, TOOL) == Str(tool) && Lookup(ms, PARAMS) == params
  {
    var ms := Identity(tool, params).members;
    assert Keys(ms) == [TOOL, PARAMS];
    assert |TOOL| != |PARAMS|;
  }

  // ---- The window.

  function Newer(entries: seq<Entry>, cutoff: int): seq<Entry> {
    if entries == [] then []
    else (if entries[0].timestamp > cutoff then [entries[0]] else []) + Newer(entries[1..], cutoff)
  }

  function Last<T>(s: seq<T>, n: int): (r: seq<T>)
    requires n >= 0
  {
    if |s| > n then s[|s| - n..] else s
  }

  function Count(entries: seq<Entry>, hash: Text): nat {
    if entries == [] then 0
    else (if entries[0].hash == hash then 1 else 0) + Count(entries[1..], hash)
  }

  /** What one check stores: expired entries dropped, the new one added, the oldest trimmed. */
  function Retain(c: Config, entries: seq<Entry>, e: Entry): seq<Entry>
    requires ValidConfig(c)
  {
    Last(Newer(entries, e.timestamp - c.window) + [e], c.maxHistory)
  }

  /** The window as it is defined on the full history. */
  function InWindow(c: Config, full: seq<Entry>, now: int): seq<Entry>
    requires ValidConfig(c)
  {
    Newer(Last(full, c.maxHistory), now - c.window)
  }

  ghost predicate Ordered(entries: seq<Entry>) {
    forall i, j :: 0 <= i <= j < |entries| ==> entries[i].timestamp <= entries[j].timestamp
  }

  /** The number of entries that are not newer than `cutoff`. */
  function Expired(entries: seq<Entry>, cutoff: int): (n: nat)
    ensures n <= |entries|
  {
    if entries != [] && entries[0].timestamp <= cutoff then 1 + Expired(entries[1..], cutoff) else 0
  }

  lemma {:induction false} ExpiredBoundary(entries: seq<Entry>, cutoff: int)
    requires Ordered(entries)
    ensures forall i :: 0 <= i < |entries| ==> (entries[i].timestamp <= cutoff <==> i < Expired(entries, cutoff))
  {
    if entries != [] && entries[0].timestamp <= cutoff {
      ExpiredBoundary(entries[1..], cutoff);
      assert forall i :: 0 < i < |entries| ==> entries[i] == entries[1..][i - 1];
    }
  }

  function Max(a: int, b: int): int { if a >= b then a else b }

  /** On ordered entries the filter keeps a suffix. */
  lemma NewerSuffix(entries: seq<Entry>, k: nat, cutoff: int)
    requires Ordered(entries) && k <= |entries|
    ensures Newer(entries[k..], cutoff) == entries[Max(k, Expired(entries, cutoff))..]
  {
    ExpiredBoundary(entries, cutoff);
    NewerAfter(entries, k, cutoff, Expired(entries, cutoff));
  }

  lemma {:induction false} NewerAfter(entries: seq<Entry>, k: nat, cutoff: int, e: nat)
    requires k <= |entries| && e <= |entries|
    requires forall i :: 0 <= i < |entries| ==> (entries[i].timestamp <= cutoff <==> i < e)
    ensures Newer(entries[k..], cutoff) == entries[Max(k, e)..]
    decreases |entries| - k
  {
    if k < |entries| {
      NewerAfter(entries, k + 1, cutoff, e);
      NewerFrom(entries, k, cutoff);
      assert entries[k..] == [entries[k]] + entries[k + 1..];
    }
  }

  lemma NewerFrom(entries: seq<Entry>, k: nat, cutoff: int)
    requires k < |entries|
    ensures Newer(entries[k..], cutoff)
      == (if entries[k].timestamp > cutoff then [entries[k]] else []) + Newer(entries[k + 1..], cutoff)
  {
    assert entries[k..][0] == entries[k] && entries[k..][1..] == entries[k + 1..];
  }

  lemma ExpiredMonotone(entries: seq<Entry>, cutoff: int, later: int)
    requires Ordered(entries) && cutoff <= later
    ensures Expired(entries, cutoff) <= Expired(entries, later)
  {
    ExpiredBoundary(entries, cutoff);
    ExpiredBoundary(entries, later);
    var n := Expired(entries, cutoff);
    if n > 0 { assert entries[n - 1].timestamp <= cutoff; }
  }

  /** Where the window of an ordered history begins. */
  function Start(c: Config, full: seq<Entry>, now: int): int
    requires ValidConfig(c)
  {
    Max(Max(0, |full| - c.maxHistory), Expired(full, now - c.window))
  }

  lemma InWindowSuffix(c: Config, full: seq<Entry>, now: int)
    requires ValidConfig(c) && Ordered(full)
    ensures 0 <= Start(c, full, now) <= |full| && InWindow(c, full, now) == full[Start(c, full, now)..]
  {
    LastFrom(full, c.maxHistory);
    NewerSuffix(full, Max(0, |full| - c.maxHistory), now - c.window);
  }

  lemma LastFrom<T>(s: seq<T>, n: nat)
    ensures Last(s, n) == s[Max(0, |s| - n)..]
  { }

  lemma {:induction false} ExpiredAppend(full: seq<Entry>, e: Entry, cutoff: int)
    requires cutoff < e.timestamp
    ensures Expired(full + [e], cutoff) == Expired(full, cutoff)
  {
    if full != [] {
      assert (full + [e])[1..] == full[1..] + [e];
      ExpiredAppend(full[1..], e, cutoff);
    }
  }

  lemma LastSuffix<T>(s: seq<T>, k: nat, n: nat)
    requires k <= |s|
    ensures Last(s[k..], n) == s[Max(k, Max(0, |s| - n))..]
  { }

  lemma OrderedPrefix(full: seq<Entry>, e: Entry)
    requires Ordered(full + [e])
    ensures Ordered(full)
  {
    forall i, j | 0 <= i <= j < |full| ensures full[i].timestamp <= full[j].timestamp {
      assert (full + [e])[i] == full[i] && (full + [e])[j] == full[j];
    }
  }

  lemma AppendSuffix<T>(s: seq<T>, m: nat, x: T)
    requires m <= |s|
    ensures s[m..] + [x] == (s + [x])[m..]
  { }

  /** What one check makes of a stored suffix of the history. */
  lemma RetainSuffix(c: Config, stored: seq<Entry>, e: Entry, m: int, all: seq<Entry>)
    requires ValidConfig(c) && 0 <= m <= |all|
    requires Newer(stored, e.timestamp - c.window) + [e] == all[m..]
    ensures Retain(c, stored, e) == all[Max(m, Max(0, |all| - c.maxHistory))..]
  {
    LastSuffix(all, m, c.maxHistory);
  }

  lemma StartMoves(c: Config, full: seq<Entry>, before: int, e: Entry, cutoff: int)
    requires ValidConfig(c) && cutoff == e.timestamp - c.window
    requires Expired(full, before - c.window) <= Expired(full, cutoff)
    ensures Start(c, full + [e], e.timestamp)
      == Max(Max(Start(c, full, before), Expired(full, cutoff)), Max(0, |full| + 1 - c.maxHistory))
  {
    ExpiredAppend(full, e, cutoff);
    StartArithmetic(|full|, c.maxHistory, Expired(full, before - c.window), Expired(full, cutoff));
  }

  lemma NewerInWindow(c: Config, full: seq<Entry>, before: int, cutoff: int)
    requires ValidConfig(c) && Ordered(full)
    ensures var m := Max(Start(c, full, before), Expired(full, cutoff));
      0 <= m <= |full| && Newer(InWindow(c, full, before), cutoff) == full[m..]
  {
    InWindowSuffix(c, full, before);
    NewerSuffix(full, Start(c, full, before), cutoff);
  }

  /** Pruning at every call loses nothing: what is stored is the window of the full history. */
  lemma WindowStep(c: Config, full: seq<Entry>, before: int, e: Entry)
    requires ValidConfig(c) && Ordered(full + [e]) && before <= e.timestamp
    ensures Retain(c, InWindow(c, full, before), e) == InWindow(c, full + [e], e.timestamp)
  {
    var cutoff, all := e.timestamp - c.window, full + [e];
    OrderedPrefix(full, e);
    var k := Start(c, full, before);
    var m := Max(k, Expired(full, cutoff));
    NewerInWindow(c, full, before, cutoff);
    AppendSuffix(full, m, e);
    RetainSuffix(c, InWindow(c, full, before), e, m, all);
    ExpiredMonotone(full, before - c.window, cutoff);
    StartMoves(c, full, before, e, cutoff);
    InWindowSuffix(c, all, e.timestamp);
  }

  lemma StartArithmetic(n: int, h: int, x: int, y: int)
    requires 0 <= x <= y <= n && h >= 1
    ensures Max(Max(Max(Max(0, n - h), x), y), Max(0, n + 1 - h)) == Max(Max(0, n + 1 - h), y)
  { }

  // ---- Counting calls instead of fingerprints.

  function Logged(sha256: Text -> Text, calls: seq<Call>): (r: seq<Entry>)
    ensures |r| == |calls|
    ensures forall i :: 0 <= i < |calls| ==>
      r[i] == Entry(Fingerprint(sha256, calls[i].tool, calls[i].params), calls[i].time)
  {
    seq(|calls|, i requires 0 <= i < |calls| =>
      Entry(Fingerprint(sha256, calls[i].tool, calls[i].params), calls[i].time))
  }

  ghost function CountCalls(calls: seq<Call>, tool: Text, params: Json): nat {
    if calls == [] then 0
    else
      (if calls[0].tool == tool && SameUpToKeyOrder(calls[0].params, params) then 1 else 0)
      + CountCalls(calls[1..], tool, params)
  }

  /** The calls of the full history that are in the window. */
  ghost function CallsInWindow(c: Config, calls: seq<Call>, now: int): seq<Call>
    requires ValidConfig(c)
  {
    NewerCalls(Last(calls, c.maxHistory), now - c.window)
  }

  function NewerCalls(calls: seq<Call>, cutoff: int): seq<Call> {
    if calls == [] then []
    else (if calls[0].time > cutoff then [calls[0]] else []) + NewerCalls(calls[1..], cutoff)
  }

  lemma {:induction false} NewerLogged(sha256: Text -> Text, calls: seq<Call>, cutoff: int)
    ensures Newer(Logged(sha256, calls), cutoff) == Logged(sha256, NewerCalls(calls, cutoff))
  {
    if calls != [] {
      NewerLogged(sha256, calls[1..], cutoff);
      assert Logged(sha256, calls)[1..] == Logged(sha256, calls[1..]);
    }
  }

  lemma {:induction false} CountLogged(sha256: Text -> Text, calls: seq<Call>, tool: Text, params: Json)
    requires Injective(sha256) && WellFormed(params)
    requires forall i :: 0 <= i < |calls| ==> WellFormed(calls[i].params)
    ensures Count(Logged(sha256, calls), Fingerprint(sha256, tool, params)) == CountCalls(calls, tool, params)
  {
    if calls != [] {
      CountLogged(sha256, calls[1..], tool, params);
      assert Logged(sha256, calls)[1..] == Logged(sha256, calls[1..]);
      FingerprintDecides(sha256, calls[0].tool, calls[0].params, tool, params);
    }
  }

  lemma {:induction false} NewerWellFormed(calls: seq<Call>, cutoff: int)
    requires WellFormedCalls(calls)
    ensures WellFormedCalls(NewerCalls(calls, cutoff))
  {
    if calls != [] {
      NewerWellFormed(calls[1..], cutoff);
    }
  }

  ghost predicate WellFormedCalls(calls: seq<Call>) {
    forall i :: 0 <= i < |calls| ==> WellFormed(calls[i].params)
  }

  /** The fingerprint count over the stored window counts the calls of the full history. */
  lemma WindowCountsCalls(c: Config, sha256: Text -> Text, calls: seq<Call>, now: int, tool: Text, params: Json)
    requires ValidConfig(c) && Injective(sha256) && WellFormed(params) && WellFormedCalls(calls)
    ensures Count(InWindow(c, Logged(sha256, calls), now), Fingerprint(sha256, tool, params))
      == CountCalls(CallsInWindow(c, calls, now), tool, params)
  {
    var recent := Last(calls, c.maxHistory);
    LastLogged(sha256, calls, c.maxHistory);
    NewerLogged(sha256, recent, now - c.window);
    assert WellFormedCalls(recent);
    NewerWellFormed(recent, now - c.window);
    CountLogged(sha256, CallsInWindow(c, calls, now), tool, params);
  }

  lemma LastLogged(sha256: Text -> Text, calls: seq<Call>, n: nat)
    ensures Last(Logged(sha256, calls), n) == Logged(sha256, Last(calls, n))
  { }

  // ---- The guard.

  /** `calls` is the full history of each tracked agent since it was last forgotten; only the
      specification has it. */
  datatype State = State(order: seq<Agent>, history: map<Agent, seq<Entry>>, calls: map<Agent, seq<Call>>)

  function DropOldest(s: State): State
    requires s.order != []
  {
    var oldest := s.order[0];
    State(s.order[1..], s.history - {oldest}, s.calls - {oldest})
  }

  function Evict(c: Config, s: State): State
    decreases |s.order|
  {
    if |s.order| > c.maxAgents && s.order != [] then Evict(c, DropOldest(s)) else s
  }

  function Judge(c: Config, entries: seq<Entry>, hash: Text): Verdict {
    var n := Count(entries, hash);
    Verdict(if n >= c.block then Block else if n >= c.warn then Warn else Allow, n)
  }

  /** The state between storing the entries and evicting. */
  function Stored(c: Config, sha256: Text -> Text, s: State, a: Agent, call: Call): State
    requires ValidConfig(c)
  {
    var e := Entry(Fingerprint(sha256, call.tool, call.params), call.time);
    State(if a in s.history then s.order else s.order + [a],
          s.history[a := Retain(c, if a in s.history then s.history[a] else [], e)],
          s.calls[a := (if a in s.calls then s.calls[a] else []) + [call]])
  }

  function Check(c: Config, sha256: Text -> Text, s: State, a: Agent, call: Call): (State, Verdict)
    requires ValidConfig(c)
  {
    var stored := Stored(c, sha256, s, a, call);
    (Evict(c, stored), Judge(c, stored.history[a], Fingerprint(sha256, call.tool, call.params)))
  }

  function Forget(s: State, a: Agent): State {
    State(Without(s.order, a), s.history - {a}, s.calls - {a})
  }

  ghost predicate OrderedCalls(calls: seq<Call>, clock: int) {
    && (forall i, j :: 0 <= i <= j < |calls| ==> calls[i].time <= calls[j].time)
    && (forall i :: 0 <= i < |calls| ==> calls[i].time <= clock)
  }

  /** Each tracked agent's stored entries are the window of its full history, as of its latest
      call. */
  ghost predicate Inv(c: Config, sha256: Text -> Text, s: State, clock: int)
    requires ValidConfig(c)
  {
    && InOrder(s) && |s.order| <= c.maxAgents
    && (forall a :: a in s.calls ==> AgentInv(c, sha256, s.calls[a], s.history[a], clock))
  }

  ghost predicate InOrder(s: State) {
    && Distinct(s.order)
    && (forall a :: a in s.order <==> a in s.history)
    && s.calls.Keys == s.history.Keys
  }

  ghost predicate AgentInv(c: Config, sha256: Text -> Text, calls: seq<Call>, entries: seq<Entry>, clock: int)
    requires ValidConfig(c)
  {
    && OrderedCalls(calls, clock) && calls != [] && WellFormedCalls(calls)
    && entries == InWindow(c, Logged(sha256, calls), calls[|calls| - 1].time)
  }

  lemma AgentStep(c: Config, sha256: Text -> Text, calls: seq<Call>, entries: seq<Entry>, clock: int, call: Call)
    requires ValidConfig(c) && clock <= call.time && WellFormed(call.params)
    requires calls != [] ==> AgentInv(c, sha256, calls, entries, clock)
    requires calls == [] ==> entries == []
    ensures AgentInv(c, sha256, calls + [call],
                     Retain(c, entries, Entry(Fingerprint(sha256, call.tool, call.params), call.time)), call.time)
  {
    var e := Entry(Fingerprint(sha256, call.tool, call.params), call.time);
    var full := Logged(sha256, calls);
    var before := if calls == [] then call.time else calls[|calls| - 1].time;
    CallsSnoc(calls, clock, call);
    LoggedSnoc(sha256, calls, call);
    LoggedOrdered(sha256, calls + [call], call.time);
    assert calls == [] ==> InWindow(c, full, before) == [];
    WindowStep(c, full, before, e);
  }

  lemma LoggedSnoc(sha256: Text -> Text, calls: seq<Call>, call: Call)
    ensures Logged(sha256, calls + [call])
      == Logged(sha256, calls) + [Entry(Fingerprint(sha256, call.tool, call.params), call.time)]
  { }

  lemma LoggedOrdered(sha256: Text -> Text, calls: seq<Call>, clock: int)
    requires OrderedCalls(calls, clock)
    ensures Ordered(Logged(sha256, calls))
  { }

  lemma CallsSnoc(calls: seq<Call>, clock: int, call: Call)
    requires calls != [] ==> OrderedCalls(calls, clock) && WellFormedCalls(calls)
    requires clock <= call.time && WellFormed(call.params)
    ensures OrderedCalls(calls + [call], call.time) && WellFormedCalls(calls + [call])
  { }

  lemma AgentLater(c: Config, sha256: Text -> Text, calls: seq<Call>, entries: seq<Entry>, clock: int, clock': int)
    requires ValidConfig(c) && clock <= clock' && AgentInv(c, sha256, calls, entries, clock)
    ensures AgentInv(c, sha256, calls, entries, clock')
  { }

  /** One call evicts at most one other agent and never the caller. */
  lemma EvictSparesCaller(c: Config, s: State, a: Agent)
    requires ValidConfig(c) && Distinct(s.order) && (forall x :: x in s.order <==> x in s.history)
    requires a in s.order && |s.order| <= c.maxAgents + 1
    requires |s.order| == c.maxAgents + 1 ==> s.order[|s.order| - 1] == a
    ensures var s' := Evict(c, s);
      && a in s'.order && Distinct(s'.order) && |s'.order| <= c.maxAgents
      && (forall x :: x in s'.order <==> x in s'.history)
      && (s' == s || s' == DropOldest(s))
  {
    if |s.order| > c.maxAgents {
      assert Evict(c, s) == DropOldest(s);
      assert s.order[1..][|s.order| - 2] == a;
      DropKeepsOrder(s);
    }
  }

  lemma DropKeepsOrder(s: State)
    requires Distinct(s.order) && s.order != [] && (forall x :: x in s.order <==> x in s.history)
    ensures Distinct(DropOldest(s).order)
    ensures forall x :: x in DropOldest(s).order <==> x in DropOldest(s).history
  {
    assert s.order == [s.order[0]] + s.order[1..];
  }

  lemma StoredAgents(c: Config, sha256: Text -> Text, s: State, clock: int, a: Agent, call: Call, x: Agent)
    requires ValidConfig(c) && Inv(c, sha256, s, clock) && clock <= call.time && WellFormed(call.params)
    requires x == a || x in s.calls
    ensures var mid := Stored(c, sha256, s, a, call);
      AgentInv(c, sha256, mid.calls[x], mid.history[x], call.time)
  {
    if x == a {
      AgentStep(c, sha256, if a in s.calls then s.calls[a] else [],
                if a in s.history then s.history[a] else [], clock, call);
    } else {
      AgentLater(c, sha256, s.calls[x], s.history[x], clock, call.time);
    }
  }

  lemma StoredOrder(c: Config, sha256: Text -> Text, s: State, a: Agent, call: Call)
    requires ValidConfig(c) && InOrder(s) && |s.order| <= c.maxAgents
    ensures var mid := Stored(c, sha256, s, a, call);
      && InOrder(mid) && a in mid.order && |mid.order| <= c.maxAgents + 1
      && (|mid.order| == c.maxAgents + 1 ==> mid.order[|mid.order| - 1] == a)
  {
    var mid := Stored(c, sha256, s, a, call);
    assert mid.history.Keys == s.history.Keys + {a} && mid.calls.Keys == s.calls.Keys + {a};
    OrderSnoc(s.order, a);
  }

  lemma OrderSnoc(order: seq<Agent>, a: Agent)
    ensures Distinct(order) && a !in order ==> Distinct(order + [a])
    ensures forall x :: x in order + [a] <==> x in order || x == a
    ensures (order + [a])[|order|] == a
  { }

  lemma CheckKeeps(c: Config, sha256: Text -> Text, s: State, clock: int, a: Agent, call: Call)
    requires ValidConfig(c) && Inv(c, sha256, s, clock) && clock <= call.time && WellFormed(call.params)
    ensures var (s', v) := Check(c, sha256, s, a, call);
      && Inv(c, sha256, s', call.time)
      && a in s'.calls && s'.calls[a] == (if a in s.calls then s.calls[a] else []) + [call]
      && v == Judge(c, s'.history[a], Fingerprint(sha256, call.tool, call.params))
  {
    var mid := Stored(c, sha256, s, a, call);
    StoredOrder(c, sha256, s, a, call);
    EvictSparesCaller(c, mid, a);
    var s' := Evict(c, mid);
    assert s'.calls.Keys == s'.history.Keys;
    forall x | x in s'.calls ensures AgentInv(c, sha256, s'.calls[x], s'.history[x], call.time) {
      StoredAgents(c, sha256, s, clock, a, call, x);
    }
  }

  // ---- Whole runs.

  datatype Op = Ask(agent: Agent, call: Call) | Reset(agent: Agent) | ResetAll

  function Step(c: Config, sha256: Text -> Text, s: State, op: Op): State
    requires ValidConfig(c)
  {
    match op
    case Ask(a, call) => Check(c, sha256, s, a, call).0
    case Reset(a) => Forget(s, a)
    case ResetAll => State([], map[], map[])
  }

  function Run(c: Config, sha256: Text -> Text, s: State, ops: seq<Op>): State
    requires ValidConfig(c)
    decreases |ops|
  {
    if ops == [] then s else Run(c, sha256, Step(c, sha256, s, ops[0]), ops[1..])
  }

  /** Calls are well formed and their times do not go back from `clock` to `end`. */
  ghost predicate Timely(ops: seq<Op>, clock: int, end: int)
    decreases |ops|
  {
    if ops == [] then clock <= end
    else if ops[0].Ask? then
      clock <= ops[0].call.time && WellFormed(ops[0].call.params) && Timely(ops[1..], ops[0].call.time, end)
    else Timely(ops[1..], clock, end)
  }

  lemma InvLater(c: Config, sha256: Text -> Text, s: State, clock: int, end: int)
    requires ValidConfig(c) && Inv(c, sha256, s, clock) && clock <= end
    ensures Inv(c, sha256, s, end)
  {
    forall a | a in s.calls ensures AgentInv(c, sha256, s.calls[a], s.history[a], end) {
      AgentLater(c, sha256, s.calls[a], s.history[a], clock, end);
    }
  }

  lemma ResetKeeps(c: Config, sha256: Text -> Text, s: State, clock: int, op: Op)
    requires ValidConfig(c) && Inv(c, sha256, s, clock) && !op.Ask?
    ensures Inv(c, sha256, Step(c, sha256, s, op), clock)
  {
    if op.Reset? {
      WithoutMembers(s.order, op.agent);
    }
  }

  lemma {:induction false} RunKeeps(c: Config, sha256: Text -> Text, s: State, clock: int, ops: seq<Op>, end: int)
    requires ValidConfig(c) && Inv(c, sha256, s, clock) && Timely(ops, clock, end)
    ensures Inv(c, sha256, Run(c, sha256, s, ops), end)
    decreases |ops|
  {
    if ops == [] {
      InvLater(c, sha256, s, clock, end);
    } else {
      var s' := Step(c, sha256, s, ops[0]);
      if ops[0].Ask? {
        CheckKeeps(c, sha256, s, clock, ops[0].agent, ops[0].call);
        RunKeeps(c, sha256, s', ops[0].call.time, ops[1..], end);
      } else {
        ResetKeeps(c, sha256, s, clock, ops[0]);
        RunKeeps(c, sha256, s', clock, ops[1..], end);
      }
    }
  }

  const FRESH := State([], map[], map[])

  /** After any run, the verdict on a call counts the caller's equal calls (same tool, parameters
      equal up to key order) among its last `maxHistory` calls since it was last forgotten that
      are newer than the window, this call included. */
  lemma DuplicateCountExact(
    c: Config, sha256: Text -> Text, ops: seq<Op>, start: int, clock: int, a: Agent, call: Call)
    requires ValidConfig(c) && Injective(sha256) && Timely(ops, start, clock)
    requires clock <= call.time && WellFormed(call.params)
    ensures var s := Run(c, sha256, FRESH, ops);
      var full := (if a in s.calls then s.calls[a] else []) + [call];
      Check(c, sha256, s, a, call).1.duplicateCount
      == CountCalls(CallsInWindow(c, full, call.time), call.tool, call.params)
  {
    RunKeeps(c, sha256, FRESH, start, ops, clock);
    var s := Run(c, sha256, FRESH, ops);
    CheckKeeps(c, sha256, s, clock, a, call);
    var full := (if a in s.calls then s.calls[a] else []) + [call];
    var s' := Check(c, sha256, s, a, call).0;
    assert AgentInv(c, sha256, s'.calls[a], s'.history[a], call.time);
    WindowCountsCalls(c, sha256, full, call.time, call.tool, call.params);
  }

  // ---- The history in terms of what a client does.

  /** The calls of `a` since it was last reset. */
  function CallsSince(ops: seq<Op>, a: Agent, earlier: seq<Call>): seq<Call>
    decreases |ops|
  {
    if ops == [] then earlier else CallsSince(ops[1..], a, NextCalls(ops[0], a, earlier))
  }

  function NextCalls(op: Op, a: Agent, earlier: seq<Call>): seq<Call> {
    match op
    case Ask(x, call) => if x == a then earlier + [call] else earlier
    case Reset(x) => if x == a then [] else earlier
    case ResetAll => []
  }

  function CallsOf(s: State, a: Agent): seq<Call> {
    if a in s.calls then s.calls[a] else []
  }

  /** Which agents one check forgets: the one tracked first, when all places are taken and the caller is new, and
      no other. */
  lemma CheckForgets(c: Config, sha256: Text -> Text, s: State, a: Agent, call: Call, x: Agent)
    requires ValidConfig(c) && InOrder(s) && |s.order| <= c.maxAgents && x != a && x in s.calls
    ensures var s' := Check(c, sha256, s, a, call).0;
      && (x !in s'.calls <==> a !in s.calls && |s.order| == c.maxAgents && x == s.order[0])
      && (x in s'.calls ==> s'.calls[x] == s.calls[x] && x in s'.history && s'.history[x] == s.history[x])
  {
    var mid := Stored(c, sha256, s, a, call);
    StoredSpares(c, sha256, s, a, call, x);
    FirstKept(s.order, a, x);
    EvictForgets(c, mid, x);
  }

  lemma StoredSpares(c: Config, sha256: Text -> Text, s: State, a: Agent, call: Call, x: Agent)
    requires ValidConfig(c) && InOrder(s) && x != a && x in s.calls
    ensures var mid := Stored(c, sha256, s, a, call);
      && x in mid.calls && mid.calls[x] == s.calls[x] && x in mid.history && mid.history[x] == s.history[x]
      && mid.order == if a in s.calls then s.order else s.order + [a]
  { }

  lemma EvictForgets(c: Config, mid: State, x: Agent)
    requires |mid.order| <= c.maxAgents + 1 && mid.order != [] && x in mid.calls && x in mid.history
    ensures var s' := Evict(c, mid);
      && (x !in s'.calls <==> |mid.order| > c.maxAgents && x == mid.order[0])
      && (x in s'.calls ==> s'.calls[x] == mid.calls[x] && x in s'.history && s'.history[x] == mid.history[x])
  { }

  lemma FirstKept(order: seq<Agent>, a: Agent, x: Agent)
    requires x in order
    ensures order != [] && (order + [a])[0] == order[0]
  { }

  /** Only these agents are asked about, and there is room for all of them. */
  ghost predicate FewAgents(c: Config, s: State, ops: seq<Op>, agents: set<Agent>) {
    && |agents| <= c.maxAgents && s.history.Keys <= agents
    && forall i :: 0 <= i < |ops| && ops[i].Ask? ==> ops[i].agent in agents
  }

  lemma RoomyCheck(c: Config, sha256: Text -> Text, s: State, a: Agent, call: Call, agents: set<Agent>)
    requires ValidConfig(c) && InOrder(s) && FewAgents(c, s, [], agents) && a in agents
    ensures Check(c, sha256, s, a, call).0 == Stored(c, sha256, s, a, call)
    ensures InOrder(Check(c, sha256, s, a, call).0)
    ensures Check(c, sha256, s, a, call).0.history.Keys <= agents
  {
    var mid := Stored(c, sha256, s, a, call);
    TrackedCounted(s, agents);
    StoredOrder(c, sha256, s, a, call);
    TrackedCounted(mid, agents);
  }

  lemma TrackedCounted(s: State, agents: set<Agent>)
    requires InOrder(s) && s.history.Keys <= agents
    ensures |s.order| <= |agents|
  {
    KeysCounted(s.order, s.history.Keys);
    assert agents == s.history.Keys + (agents - s.history.Keys);
  }

  /** Where there is room for all agents, the guard's history of each is the calls it made since it was last
      reset. */
  lemma {:induction false} HistoryIsCalls(
      c: Config, sha256: Text -> Text, s: State, ops: seq<Op>, agents: set<Agent>, a: Agent)
    requires ValidConfig(c) && InOrder(s) && FewAgents(c, s, ops, agents)
    ensures CallsOf(Run(c, sha256, s, ops), a) == CallsSince(ops, a, CallsOf(s, a))
    decreases |ops|
  {
    if ops != [] {
      HistoryStep(c, sha256, s, ops[0], agents, a);
      HistoryIsCalls(c, sha256, Step(c, sha256, s, ops[0]), ops[1..], agents, a);
    }
  }

  lemma HistoryStep(c: Config, sha256: Text -> Text, s: State, op: Op, agents: set<Agent>, a: Agent)
    requires ValidConfig(c) && InOrder(s) && FewAgents(c, s, [op], agents)
    ensures var s' := Step(c, sha256, s, op);
      InOrder(s') && s'.history.Keys <= agents && CallsOf(s', a) == NextCalls(op, a, CallsOf(s, a))
  {
    assert op.Ask? ==> [op][0].agent in agents;
    if op.Ask? {
      RoomyCheck(c, sha256, s, op.agent, op.call, agents);
    } else if op.Reset? {
      WithoutMembers(s.order, op.agent);
    }
  }

  /** The verdict that an agent sees: its equal calls are counted among its last `maxHistory` calls since its
      last reset that are newer than the window, this one included; from the block threshold on it is blocked,
      from the warn threshold on it is warned, and below both it is allowed. */
  lemma VerdictExact(c: Config, sha256: Text -> Text, ops: seq<Op>, agents: set<Agent>, start: int, clock: int,
      a: Agent, call: Call)
    requires ValidConfig(c) && Injective(sha256) && Timely(ops, start, clock) && FewAgents(c, FRESH, ops, agents)
    requires clock <= call.time && WellFormed(call.params)
    ensures var n := CountCalls(CallsInWindow(c, CallsSince(ops, a, []) + [call], call.time), call.tool, call.params);
      var v := Check(c, sha256, Run(c, sha256, FRESH, ops), a, call).1;
      && v.duplicateCount == n
      && (v.action == Block <==> c.block <= n)
      && (v.action == Warn <==> c.warn <= n < c.block)
      && (v.action == Allow <==> n < c.warn)
  {
    HistoryIsCalls(c, sha256, FRESH, ops, agents, a);
    DuplicateCountExact(c, sha256, ops, start, clock, a, call);
  }

  // ---- When the guard can block at all.

  lemma {:induction false} CountBounded(entries: seq<Entry>, hash: Text)
    ensures Count(entries, hash) <= |entries|
  {
    if entries != [] {
      CountBounded(entries[1..], hash);
    }
  }

  function Repeated(a: Agent, call: Call, n: nat): seq<Op> {
    if n == 0 then [] else [Ask(a, call)] + Repeated(a, call, n - 1)
  }

  function Copies(e: Entry, n: nat): seq<Entry> {
    seq(n, _ => e)
  }

  /** A stored window of `n` copies of one entry. */
  lemma {:induction false} AllNewer(e: Entry, n: nat, cutoff: int)
    requires cutoff < e.timestamp
    ensures Newer(Copies(e, n), cutoff) == Copies(e, n)
    ensures Count(Copies(e, n), e.hash) == n
  {
    if n > 0 {
      AllNewer(e, n - 1, cutoff);
      assert Copies(e, n)[1..] == Copies(e, n - 1);
      assert Copies(e, n) == [e] + Copies(e, n - 1);
    }
  }

  ghost predicate HoldsCopies(s: State, a: Agent, e: Entry, n: nat) {
    if n == 0 then s == FRESH else s.order == [a] && a in s.history && s.history[a] == Copies(e, n)
  }

  lemma RepeatStep(c: Config, sha256: Text -> Text, s: State, a: Agent, call: Call, e: Entry, n: nat)
    requires ValidConfig(c) && n < c.maxHistory && HoldsCopies(s, a, e, n)
    requires e == Entry(Fingerprint(sha256, call.tool, call.params), call.time)
    ensures HoldsCopies(Check(c, sha256, s, a, call).0, a, e, n + 1)
    ensures Check(c, sha256, s, a, call).1.duplicateCount == n + 1
  {
    assert n == 0 ==> Copies(e, n) == [];
    RetainCopies(c, e, n);
  }

  lemma RetainCopies(c: Config, e: Entry, n: nat)
    requires ValidConfig(c) && n < c.maxHistory
    ensures Retain(c, Copies(e, n), e) == Copies(e, n + 1)
    ensures Count(Copies(e, n + 1), e.hash) == n + 1
  {
    AllNewer(e, n, e.timestamp - c.window);
    assert Copies(e, n) + [e] == Copies(e, n + 1);
    AllNewer(e, n + 1, e.timestamp - c.window);
  }

  /** Where `n` equal calls in a row lead. */
  function RunRepeated(c: Config, sha256: Text -> Text, s: State, a: Agent, call: Call, n: nat): State
    requires ValidConfig(c)
  {
    Run(c, sha256, s, Repeated(a, call, n))
  }

  lemma {:induction false} RepeatRun(
      c: Config, sha256: Text -> Text, s: State, a: Agent, call: Call, e: Entry, m: nat, n: nat, end: State)
    requires ValidConfig(c) && m + n <= c.maxHistory && HoldsCopies(s, a, e, m)
    requires e == Entry(Fingerprint(sha256, call.tool, call.params), call.time)
    requires end == RunRepeated(c, sha256, s, a, call, n)
    ensures HoldsCopies(end, a, e, m + n)
    decreases n
  {
    if n > 0 {
      var s' := RepeatOnce(c, sha256, s, a, call, e, m, n, end);
      RepeatRun(c, sha256, s', a, call, e, m + 1, n - 1, end);
    } else {
      RepeatNone(c, sha256, s, a, call);
    }
  }

  lemma RepeatNone(c: Config, sha256: Text -> Text, s: State, a: Agent, call: Call)
    requires ValidConfig(c)
    ensures RunRepeated(c, sha256, s, a, call, 0) == s
  { }

  lemma RepeatOnce(
      c: Config, sha256: Text -> Text, s: State, a: Agent, call: Call, e: Entry, m: nat, n: nat, end: State)
      returns (s': State)
    requires ValidConfig(c) && m < c.maxHistory && n > 0 && HoldsCopies(s, a, e, m)
    requires e == Entry(Fingerprint(sha256, call.tool, call.params), call.time)
    requires end == RunRepeated(c, sha256, s, a, call, n)
    ensures HoldsCopies(s', a, e, m + 1) && end == RunRepeated(c, sha256, s', a, call, n - 1)
  {
    var ops := Repeated(a, call, n);
    assert ops[0] == Ask(a, call) && ops[1..] == Repeated(a, call, n - 1);
    s' := Check(c, sha256, s, a, call).0;
    RepeatStep(c, sha256, s, a, call, e, m);
  }

  ghost predicate Blocks(c: Config, sha256: Text -> Text, ops: seq<Op>, a: Agent, call: Call)
    requires ValidConfig(c)
  {
    Check(c, sha256, Run(c, sha256, FRESH, ops), a, call).1.action == Block
  }

  /** Some run gets blocked exactly when the block threshold fits into the history size, which
      the constructor does not check. */
  lemma BlockingReachable(c: Config, sha256: Text -> Text, a: Agent, call: Call)
    requires ValidConfig(c)
    ensures (exists ops :: Blocks(c, sha256, ops, a, call)) <==> c.block <= c.maxHistory
  {
    if ops :| Blocks(c, sha256, ops, a, call) {
      var s := Run(c, sha256, FRESH, ops);
      var hash := Fingerprint(sha256, call.tool, call.params);
      CountBounded(Retain(c, if a in s.history then s.history[a] else [], Entry(hash, call.time)), hash);
    }
    if c.block <= c.maxHistory {
      var n := if c.block <= 1 then 0 else c.block - 1;
      var e := Entry(Fingerprint(sha256, call.tool, call.params), call.time);
      var s := Run(c, sha256, FRESH, Repeated(a, call, n));
      RepeatRun(c, sha256, FRESH, a, call, e, 0, n, s);
      RepeatStep(c, sha256, s, a, call, e, n);
      assert Blocks(c, sha256, Repeated(a, call, n), a, call);
    }
  }
}
