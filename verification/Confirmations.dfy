/** The confirmation protocol: requests that wait for a decision, resolutions from the web page,
    the API and Telegram, and the five-minute timers, in any interleaving. */
module Confirmations {
  import opened JsText
  import opened Announcement

  type Id = Text

  /** A request is identified by its handle, the number of requests before it; its manifest id
      comes from the client and may repeat. */
  type Handle = nat

  datatype Source = Web | Api | Telegram | Timeout

  datatype Decision = Approved | Denied | TimedOut

  datatype Event = Requested(id: Id) | Resolved(id: Id, decision: Decision, source: Source)

  /** `registry` is the `pendingConfirmations` map, `armed` the timers that have not fired or been
      cleared, `settled` the promises that have a value, `rejected` those whose announcement threw. */
  datatype State = State(
    ids: seq<Id>, registry: map<Id, Handle>, armed: set<Handle>, settled: map<Handle, bool>,
    rejected: set<Handle>, events: seq<Event>)

  const EMPTY := State([], map[], {}, map[], {}, [])

  /** `announced` says that announcing the request does not throw. */
  datatype Op =
    | Request(id: Id, announced: bool)
    | Resolve(id: Id, approved: bool, source: Source)
    | Fire(handle: Handle)

  /** A promise keeps the first value it is given, and none once it is rejected. */
  function Settle(s: State, h: Handle, value: bool): map<Handle, bool> {
    if h in s.settled || h in s.rejected then s.settled else s.settled[h := value]
  }

  /** The timer and the registry entry are set before the announcement, and stay when it throws. */
  function DoRequest(s: State, id: Id, announced: bool): State {
    var h := |s.ids|;
    State(s.ids + [id], s.registry[id := h], s.armed + {h}, s.settled,
          if announced then s.rejected else s.rejected + {h},
          if announced then s.events + [Requested(id)] else s.events)
  }

  function DoResolve(s: State, id: Id, approved: bool, source: Source): (State, bool) {
    if id !in s.registry then (s, false)
    else
      var h := s.registry[id];
      (State(s.ids, s.registry - {id}, s.armed - {h}, Settle(s, h, approved), s.rejected,
             s.events + [Resolved(id, if approved then Approved else Denied, source)]), true)
  }

  /** The timer of request `h`; a cleared timer does not fire. */
  function DoFire(s: State, h: Handle): State {
    if h !in s.armed || h >= |s.ids| then s
    else
      State(s.ids, s.registry - {s.ids[h]}, s.armed - {h}, Settle(s, h, false), s.rejected,
            s.events + [Resolved(s.ids[h], TimedOut, Timeout)])
  }

  function Step(s: State, op: Op): State {
    match op
    case Request(id, announced) => DoRequest(s, id, announced)
    case Resolve(id, approved, source) => DoResolve(s, id, approved, source).0
    case Fire(h) => DoFire(s, h)
  }

  function Run(s: State, ops: seq<Op>): State
    decreases |ops|
  {
    if ops == [] then s else Step(Run(s, ops[..|ops| - 1]), ops[|ops| - 1])
  }

  // ---- What every interleaving keeps, repeated ids included.

  /** The caller of request `h` waits: its promise is neither settled nor rejected. */
  predicate Waits(s: State, h: Handle) {
    h < |s.ids| && h !in s.settled && h !in s.rejected
  }

  ghost predicate Inv(s: State) {
    && (forall h :: h in s.armed ==> h < |s.ids| && h !in s.settled)
    && (forall h :: 0 <= h < |s.ids| && h !in s.rejected ==> (h in s.armed <==> h !in s.settled))
    && (forall h :: h in s.settled ==> h < |s.ids| && h !in s.rejected)
    && (forall h :: h in s.rejected ==> h < |s.ids|)
    && (forall id :: id in s.registry ==>
          s.registry[id] in s.armed && s.registry[id] < |s.ids| && s.ids[s.registry[id]] == id)
  }

  lemma StepInv(s: State, op: Op)
    requires Inv(s)
    ensures Inv(Step(s, op))
  { }

  lemma {:induction false} RunInv(ops: seq<Op>)
    ensures Inv(Run(EMPTY, ops))
  {
    if ops != [] {
      RunInv(ops[..|ops| - 1]);
      StepInv(Run(EMPTY, ops[..|ops| - 1]), ops[|ops| - 1]);
    }
  }

  /** Request `h` of the run was announced. */
  ghost predicate Announced(ops: seq<Op>, h: Handle) {
    exists k :: MakesAt(ops, k, h) && ops[k].announced
  }

  /** Operation `k` of the run makes request `h`. */
  ghost predicate MakesAt(ops: seq<Op>, k: int, h: Handle) {
    0 <= k < |ops| && ops[k].Request? && |Run(EMPTY, ops[..k]).ids| == h
  }

  lemma MadeBefore(ops: seq<Op>, k: int, h: Handle)
    requires ops != []
    ensures MakesAt(ops, k, h) <==>
      MakesAt(ops[..|ops| - 1], k, h)
      || (k == |ops| - 1 && ops[k].Request? && |Run(EMPTY, ops[..|ops| - 1]).ids| == h)
  {
    if 0 <= k < |ops| - 1 {
      assert ops[..|ops| - 1][..k] == ops[..k];
    }
  }

  /** Each request of a run was made by one operation, and is rejected exactly when it was not announced. */
  lemma {:induction false} RequestMade(ops: seq<Op>, h: Handle) returns (k: nat)
    requires h < |Run(EMPTY, ops).ids|
    ensures MakesAt(ops, k, h)
    ensures h in Run(EMPTY, ops).rejected <==> !ops[k].announced
  {
    var n := |ops| - 1;
    var before := Run(EMPTY, ops[..n]);
    if h < |before.ids| {
      k := RequestMade(ops[..n], h);
      MadeBefore(ops, k, h);
    } else {
      k := n;
      RunInv(ops[..n]);
    }
  }

  lemma {:induction false} MadeCounts(ops: seq<Op>, k: int, h: Handle)
    requires MakesAt(ops, k, h)
    ensures h < |Run(EMPTY, ops).ids|
  {
    var n := |ops| - 1;
    if k < n {
      MadeBefore(ops, k, h);
      MadeCounts(ops[..n], k, h);
    }
  }

  lemma {:induction false} MadeOnce(ops: seq<Op>, h: Handle, j: int, k: int)
    requires MakesAt(ops, j, h) && MakesAt(ops, k, h)
    ensures j == k
  {
    var n := |ops| - 1;
    MadeBefore(ops, j, h);
    MadeBefore(ops, k, h);
    if j < n { MadeCounts(ops[..n], j, h); }
    if k < n { MadeCounts(ops[..n], k, h); }
    if j < n && k < n { MadeOnce(ops[..n], h, j, k); }
  }

  lemma AnnouncedIff(ops: seq<Op>, h: Handle)
    requires h < |Run(EMPTY, ops).ids|
    ensures Announced(ops, h) <==> h !in Run(EMPTY, ops).rejected
  {
    var k := RequestMade(ops, h);
    if Announced(ops, h) {
      var j :| MakesAt(ops, j, h) && ops[j].announced;
      MadeOnce(ops, h, j, k);
    }
  }

  /** The caller of an announced request waits exactly as long as its timer is armed. The timer of any other
      request starts although its caller never waits. */
  lemma PendingIffArmed(ops: seq<Op>, h: Handle)
    requires h < |Run(EMPTY, ops).ids|
    ensures (forall n :: 0 <= n <= |ops| ==> (Waits(Run(EMPTY, ops[..n]), h) <==> h in Run(EMPTY, ops[..n]).armed))
      <==> Announced(ops, h)
  {
    AnnouncedIff(ops, h);
    if Announced(ops, h) {
      forall n | 0 <= n <= |ops| ensures Waits(Run(EMPTY, ops[..n]), h) <==> h in Run(EMPTY, ops[..n]).armed {
        AnnouncedPends(ops, n, h);
      }
    } else {
      var n := UnannouncedStartsTimer(ops, h);
    }
  }

  lemma AnnouncedPends(ops: seq<Op>, n: nat, h: Handle)
    requires n <= |ops| && h !in Run(EMPTY, ops).rejected
    ensures Waits(Run(EMPTY, ops[..n]), h) <==> h in Run(EMPTY, ops[..n]).armed
  {
    RunInv(ops[..n]);
    if h in Run(EMPTY, ops[..n]).rejected {
      RejectedStays(ops, n, h);
    }
  }

  lemma UnannouncedStartsTimer(ops: seq<Op>, h: Handle) returns (n: nat)
    requires h < |Run(EMPTY, ops).ids| && h in Run(EMPTY, ops).rejected
    ensures n <= |ops| && h in Run(EMPTY, ops[..n]).armed && !Waits(Run(EMPTY, ops[..n]), h)
  {
    var k := RequestMade(ops, h);
    n := k + 1;
    assert ops[..n][..k] == ops[..k] && ops[..n][k] == ops[k];
    assert Run(EMPTY, ops[..n]) == DoRequest(Run(EMPTY, ops[..k]), ops[k].id, false);
  }

  lemma {:induction false} RejectedStays(ops: seq<Op>, n: nat, h: Handle)
    requires n <= |ops| && h in Run(EMPTY, ops[..n]).rejected
    ensures h in Run(EMPTY, ops).rejected
    decreases |ops| - n
  {
    if n < |ops| {
      assert ops[..n + 1][..n] == ops[..n];
      RejectedStays(ops, n + 1, h);
    } else {
      assert ops[..n] == ops;
    }
  }

  /** A settled request keeps its value whatever happens later. */
  lemma {:induction false} SettledForGood(s: State, ops: seq<Op>, h: Handle)
    requires h in s.settled
    ensures h in Run(s, ops).settled && Run(s, ops).settled[h] == s.settled[h]
  {
    if ops != [] {
      SettledForGood(s, ops[..|ops| - 1], h);
    }
  }

  // ---- Resolved events.

  /** The resolved events for an id that tell of an approval, or that tell of anything else. */
  function CountResolved(events: seq<Event>, id: Id, approved: bool): nat {
    if events == [] then 0
    else
      var e := events[|events| - 1];
      CountResolved(events[..|events| - 1], id, approved)
      + if e.Resolved? && e.id == id && (e.decision == Approved) == approved then 1 else 0
  }

  lemma CountSnoc(events: seq<Event>, e: Event, id: Id, approved: bool)
    ensures CountResolved(events + [e], id, approved)
      == CountResolved(events, id, approved)
         + if e.Resolved? && e.id == id && (e.decision == Approved) == approved then 1 else 0
  {
    assert (events + [e])[..|events|] == events;
  }

  ghost function SettledAs(s: State, id: Id, approved: bool): set<Handle> {
    set h | h in s.settled && h < |s.ids| && s.ids[h] == id && s.settled[h] == approved
  }

  /** The rejected requests whose entry was nevertheless resolved, or whose timer fired. */
  ghost function ClosedRejected(s: State, id: Id): set<Handle> {
    set h | h in s.rejected && h < |s.ids| && s.ids[h] == id && h !in s.armed
  }

  /** How the events for `id` stand to what happened: every settlement has its event, and the only events
      beyond these are one for each rejected request that was closed. */
  ghost predicate EventsFit(s: State, id: Id) {
    && CountResolved(s.events, id, true) >= |SettledAs(s, id, true)|
    && CountResolved(s.events, id, false) >= |SettledAs(s, id, false)|
    && CountResolved(s.events, id, true) + CountResolved(s.events, id, false)
       == |SettledAs(s, id, true)| + |SettledAs(s, id, false)| + |ClosedRejected(s, id)|
  }

  ghost predicate Balanced(s: State, id: Id) {
    forall approved :: CountResolved(s.events, id, approved) == |SettledAs(s, id, approved)|
  }

  lemma {:induction false} RunEventsFit(ops: seq<Op>, id: Id)
    ensures EventsFit(Run(EMPTY, ops), id)
  {
    if ops != [] {
      RunEventsFit(ops[..|ops| - 1], id);
      RunInv(ops[..|ops| - 1]);
      EventStep(Run(EMPTY, ops[..|ops| - 1]), ops[|ops| - 1], id);
    } else {
      assert SettledAs(EMPTY, id, true) == SettledAs(EMPTY, id, false) == ClosedRejected(EMPTY, id) == {};
    }
  }

  /** Each settlement of a request has exactly one resolved event with its id and decision, and there is no
      other resolved event, exactly when no rejected request was closed. */
  lemma OneEventPerSettlement(ops: seq<Op>, id: Id)
    ensures var s := Run(EMPTY, ops);
      Balanced(s, id) <==> forall h :: 0 <= h < |s.ids| && s.ids[h] == id && !Announced(ops, h) ==> h in s.armed
  {
    var s := Run(EMPTY, ops);
    RunInv(ops);
    RunEventsFit(ops, id);
    forall h | 0 <= h < |s.ids| ensures Announced(ops, h) <==> h !in s.rejected {
      AnnouncedIff(ops, h);
    }
    if forall h :: 0 <= h < |s.ids| && s.ids[h] == id && !Announced(ops, h) ==> h in s.armed {
      assert ClosedRejected(s, id) == {};
    } else {
      var h :| 0 <= h < |s.ids| && s.ids[h] == id && !Announced(ops, h) && h !in s.armed;
      assert h in ClosedRejected(s, id);
    }
  }

  /** Every continuation of a run that makes no further request keeps events and settlements for `id` in
      balance, exactly when every request with that id was announced. */
  lemma EventsBalancedIffAnnounced(ops: seq<Op>, id: Id)
    ensures var s := Run(EMPTY, ops);
      (forall more: seq<Op> ::
        (forall k :: 0 <= k < |more| ==> !more[k].Request?) ==> Balanced(Run(EMPTY, ops + more), id))
      <==> forall h :: 0 <= h < |s.ids| && s.ids[h] == id ==> Announced(ops, h)
  {
    var s := Run(EMPTY, ops);
    if forall h :: 0 <= h < |s.ids| && s.ids[h] == id ==> Announced(ops, h) {
      forall more: seq<Op> | forall k :: 0 <= k < |more| ==> !more[k].Request?
        ensures Balanced(Run(EMPTY, ops + more), id)
      {
        BalancedLater(ops, more, id);
      }
    } else {
      var h :| 0 <= h < |s.ids| && s.ids[h] == id && !Announced(ops, h);
      AnnouncedIff(ops, h);
      RunSnoc(EMPTY, ops, Fire(h));
      RunInv(ops);
      RunEventsFit(ops + [Fire(h)], id);
      assert h in ClosedRejected(Run(EMPTY, ops + [Fire(h)]), id);
    }
  }

  lemma BalancedLater(ops: seq<Op>, more: seq<Op>, id: Id)
    requires forall k :: 0 <= k < |more| ==> !more[k].Request?
    requires forall h :: 0 <= h < |Run(EMPTY, ops).ids| && Run(EMPTY, ops).ids[h] == id ==> Announced(ops, h)
    ensures Balanced(Run(EMPTY, ops + more), id)
  {
    var s, t := Run(EMPTY, ops), Run(EMPTY, ops + more);
    NoMoreRequests(ops, more);
    RunEventsFit(ops + more, id);
    forall h | h in t.rejected && h < |t.ids| && t.ids[h] == id ensures false {
      AnnouncedIff(ops, h);
    }
    assert ClosedRejected(t, id) == {};
  }

  lemma {:induction false} NoMoreRequests(ops: seq<Op>, more: seq<Op>)
    requires forall k :: 0 <= k < |more| ==> !more[k].Request?
    ensures Run(EMPTY, ops + more).ids == Run(EMPTY, ops).ids
    ensures Run(EMPTY, ops + more).rejected == Run(EMPTY, ops).rejected
  {
    if more == [] {
      assert ops + more == ops;
    } else {
      var n := |more| - 1;
      assert (ops + more)[..|ops + more| - 1] == ops + more[..n];
      NoMoreRequests(ops, more[..n]);
    }
  }

  lemma EventStep(s: State, op: Op, id: Id)
    requires Inv(s) && EventsFit(s, id)
    ensures EventsFit(Step(s, op), id)
  {
    var s' := Step(s, op);
    if op.Request? {
      RequestFits(s, op.id, op.announced, id);
    } else if op.Resolve? && op.id in s.registry {
      var e := Resolved(op.id, if op.approved then Approved else Denied, op.source);
      CloseFits(s, s', s.registry[op.id], e, op.approved, id);
    } else if op.Fire? && op.handle in s.armed {
      CloseFits(s, s', op.handle, Resolved(s.ids[op.handle], TimedOut, Timeout), false, id);
    }
  }

  lemma RequestFits(s: State, made: Id, announced: bool, id: Id)
    requires Inv(s) && EventsFit(s, id)
    ensures EventsFit(DoRequest(s, made, announced), id)
  {
    var s' := DoRequest(s, made, announced);
    if announced {
      CountSnoc(s.events, Requested(made), id, true);
      CountSnoc(s.events, Requested(made), id, false);
    }
    assert SettledAs(s', id, true) == SettledAs(s, id, true) && SettledAs(s', id, false) == SettledAs(s, id, false);
    assert ClosedRejected(s', id) == ClosedRejected(s, id);
  }

  /** Closing one armed request emits one event and either settles it or adds it to the closed rejected ones. */
  lemma CloseFits(s: State, s': State, h: Handle, e: Event, value: bool, id: Id)
    requires Inv(s) && EventsFit(s, id) && h in s.armed && h < |s.ids|
    requires s'.ids == s.ids && s'.armed == s.armed - {h} && s'.rejected == s.rejected
    requires s'.settled == Settle(s, h, value) && s'.events == s.events + [e]
    requires e.Resolved? && e.id == s.ids[h] && (e.decision == Approved) == value
    ensures EventsFit(s', id)
  {
    CountSnoc(s.events, e, id, true);
    CountSnoc(s.events, e, id, false);
    if h in s.rejected {
      assert SettledAs(s', id, true) == SettledAs(s, id, true) && SettledAs(s', id, false) == SettledAs(s, id, false);
      RejectedCloses(s, s', h, id);
    } else {
      SettlesOne(s, s', h, value, id, true);
      SettlesOne(s, s', h, value, id, false);
      assert ClosedRejected(s', id) == ClosedRejected(s, id);
    }
  }

  lemma RejectedCloses(s: State, s': State, h: Handle, id: Id)
    requires h in s.armed && h in s.rejected && h < |s.ids|
    requires s'.ids == s.ids && s'.armed == s.armed - {h} && s'.rejected == s.rejected
    ensures |ClosedRejected(s', id)| == |ClosedRejected(s, id)| + if s.ids[h] == id then 1 else 0
  {
    forall k: Handle
      ensures k in ClosedRejected(s', id) <==> k in ClosedRejected(s, id) || (k == h && s.ids[h] == id) { }
    OneMore(ClosedRejected(s, id), ClosedRejected(s', id), h, s.ids[h] == id);
  }

  lemma SettlesOne(s: State, s': State, h: Handle, value: bool, id: Id, approved: bool)
    requires h !in s.settled && h < |s.ids| && s'.settled == s.settled[h := value] && s'.ids == s.ids
    ensures |SettledAs(s', id, approved)|
      == |SettledAs(s, id, approved)| + if s.ids[h] == id && value == approved then 1 else 0
  {
    var more := s.ids[h] == id && value == approved;
    forall k: Handle
      ensures k in SettledAs(s', id, approved) <==> k in SettledAs(s, id, approved) || (k == h && more) { }
    OneMore(SettledAs(s, id, approved), SettledAs(s', id, approved), h, more);
  }

  lemma OneMore(before: set<Handle>, after: set<Handle>, h: Handle, more: bool)
    requires h !in before && forall k: Handle :: k in after <==> k in before || (k == h && more)
    ensures |after| == |before| + if more then 1 else 0
  {
    assert after == before + if more then {h} else {};
  }

  /** When no id is ever reused, a request has exactly one resolved event once it is closed and none before,
      and if it was announced the event carries its decision. */
  lemma OneEventPerRequest(ops: seq<Op>, h: Handle)
    requires h < |Run(EMPTY, ops).ids|
    requires forall i, j :: 0 <= i < j < |Run(EMPTY, ops).ids| ==> Run(EMPTY, ops).ids[i] != Run(EMPTY, ops).ids[j]
    ensures var s := Run(EMPTY, ops); var id := s.ids[h];
      && CountResolved(s.events, id, true) + CountResolved(s.events, id, false) == (if h in s.armed then 0 else 1)
      && (h in s.settled ==> CountResolved(s.events, id, s.settled[h]) == 1)
      && (h !in s.armed && Announced(ops, h) ==> h in s.settled)
  {
    var s := Run(EMPTY, ops);
    var id := s.ids[h];
    RunInv(ops);
    RunEventsFit(ops, id);
    AnnouncedIff(ops, h);
    OnlySettled(s, h, true);
    OnlySettled(s, h, false);
    OnlyClosed(s, h);
  }

  ghost predicate SoleOwner(s: State, h: Handle) {
    h < |s.ids| && forall k :: 0 <= k < |s.ids| && s.ids[k] == s.ids[h] ==> k == h
  }

  lemma OnlySettled(s: State, h: Handle, value: bool)
    requires SoleOwner(s, h)
    ensures |SettledAs(s, s.ids[h], value)| == if h in s.settled && s.settled[h] == value then 1 else 0
  {
    assert SettledAs(s, s.ids[h], value) == if h in s.settled && s.settled[h] == value then {h} else {};
  }

  lemma OnlyClosed(s: State, h: Handle)
    requires SoleOwner(s, h)
    ensures |ClosedRejected(s, s.ids[h])| == if h in s.rejected && h !in s.armed then 1 else 0
  {
    assert ClosedRejected(s, s.ids[h]) == if h in s.rejected && h !in s.armed then {h} else {};
  }

  // ---- Where a positive decision comes from.

  /** `op` approves request `h`, which is open under its id. */
  predicate Approves(s: State, op: Op, h: Handle) {
    && op.Resolve? && op.approved
    && op.id in s.registry && s.registry[op.id] == h && h in s.armed && h < |s.ids| && s.ids[h] == op.id
  }

  /** Operation `k` of the run is an approval of request `h`. */
  ghost predicate ApprovesAt(ops: seq<Op>, k: int, h: Handle) {
    0 <= k < |ops| && Approves(Run(EMPTY, ops[..k]), ops[k], h)
  }

  lemma ApprovesEarlier(ops: seq<Op>, h: Handle)
    requires ops != []
    ensures var before := ops[..|ops| - 1];
      (exists k :: ApprovesAt(ops, k, h)) <==> ApprovesAt(ops, |before|, h) || exists k :: ApprovesAt(before, k, h)
  {
    var before := ops[..|ops| - 1];
    forall k | 0 <= k < |before| ensures ApprovesAt(before, k, h) <==> ApprovesAt(ops, k, h) {
      assert before[..k] == ops[..k];
    }
    if k :| ApprovesAt(before, k, h) { assert ApprovesAt(ops, k, h); }
    if k :| ApprovesAt(ops, k, h) { assert k == |before| || ApprovesAt(before, k, h); }
  }

  lemma StepApproves(s: State, op: Op, h: Handle)
    requires Inv(s)
    ensures (h in Step(s, op).settled && Step(s, op).settled[h]) <==>
      (h in s.settled && s.settled[h]) || (h !in s.rejected && Approves(s, op, h))
    ensures Approves(s, op, h) ==> (h in Step(s, op).rejected <==> h in s.rejected)
    ensures h < |s.ids| ==> (h in Step(s, op).rejected <==> h in s.rejected)
  { }

  lemma {:induction false} ApprovedExists(ops: seq<Op>, k: int, h: Handle)
    requires ApprovesAt(ops, k, h)
    ensures h < |Run(EMPTY, ops).ids|
  {
    var n := |ops| - 1;
    if k < n {
      assert ops[..n][..k] == ops[..k];
      ApprovedExists(ops[..n], k, h);
    }
  }

  /** A request settles true exactly when it was announced and approved while it was open. */
  lemma {:induction false} TrueIffApproved(ops: seq<Op>, h: Handle)
    ensures var s := Run(EMPTY, ops);
      (h in s.settled && s.settled[h]) <==> Announced(ops, h) && exists k :: ApprovesAt(ops, k, h)
  {
    SettledTrueIff(ops, h);
    RunInv(ops);
    if h < |Run(EMPTY, ops).ids| {
      AnnouncedIff(ops, h);
    } else if k :| ApprovesAt(ops, k, h) {
      ApprovedExists(ops, k, h);
    }
  }

  lemma {:induction false} SettledTrueIff(ops: seq<Op>, h: Handle)
    ensures var s := Run(EMPTY, ops);
      (h in s.settled && s.settled[h]) <==> h !in s.rejected && exists k :: ApprovesAt(ops, k, h)
  {
    if ops != [] {
      var n := |ops| - 1;
      SettledTrueIff(ops[..n], h);
      RunInv(ops[..n]);
      ApprovesEarlier(ops, h);
      StepApproves(Run(EMPTY, ops[..n]), ops[n], h);
      if k :| ApprovesAt(ops[..n], k, h) {
        ApprovedExists(ops[..n], k, h);
      }
    }
  }

  // ---- What opens and closes a request.

  /** Over every run, a new request is registered under its id with its timer armed; it waits and is told to the
      clients exactly when announcing it does not throw, and it changes nothing for any other request. */
  lemma RequestOpens(ops: seq<Op>, id: Id, announced: bool)
    ensures var s, s' := Run(EMPTY, ops), Run(EMPTY, ops + [Request(id, announced)]);
      var h := |s.ids|;
      && s'.ids == s.ids + [id] && s'.registry == s.registry[id := h] && s'.armed == s.armed + {h}
      && (Waits(s', h) <==> announced) && h !in s.armed
      && s'.events == s.events + (if announced then [Requested(id)] else [])
      && s'.settled == s.settled && (forall k :: 0 <= k < h ==> (Waits(s', k) <==> Waits(s, k)))
  {
    RunSnoc(EMPTY, ops, Request(id, announced));
    RunInv(ops);
  }

  /** The decision on an open request is its promise's value, is told to the clients once, and takes timer and
      registry entry with it. */
  ghost predicate Closed(s: State, s': State, h: Handle, value: bool, decision: Decision, source: Source) {
    && Waits(s, h) && h in s.armed
    && s'.settled == s.settled[h := value] && s'.rejected == s.rejected
    && s'.events == s.events + [Resolved(s.ids[h], decision, source)]
    && s'.armed == s.armed - {h} && s.ids[h] !in s'.registry && s'.ids == s.ids
  }

  /** Over every run, the timer of an announced request whose caller still waits denies it as timed out; any other
      timer that is not armed does nothing. */
  lemma TimerDenies(ops: seq<Op>, h: Handle)
    requires h < |Run(EMPTY, ops).ids|
    ensures var s, s' := Run(EMPTY, ops), Run(EMPTY, ops + [Fire(h)]);
      && (Announced(ops, h) && Waits(s, h) ==> Closed(s, s', h, false, TimedOut, Timeout))
      && (h !in s.armed ==> s' == s)
  {
    RunSnoc(EMPTY, ops, Fire(h));
    AnnouncedIff(ops, h);
    RunInv(ops);
  }

  /** Over every run, a resolution decides the announced request that is registered under its id as it says, and
      is told with its source; with nothing registered it does nothing. */
  lemma ResolutionDecides(ops: seq<Op>, id: Id, approved: bool, source: Source)
    ensures var s, s' := Run(EMPTY, ops), Run(EMPTY, ops + [Resolve(id, approved, source)]);
      && (id in s.registry && Announced(ops, s.registry[id]) ==>
            Closed(s, s', s.registry[id], approved, if approved then Approved else Denied, source))
      && (id !in s.registry ==> s' == s)
  {
    RunSnoc(EMPTY, ops, Resolve(id, approved, source));
    RunInv(ops);
    var s := Run(EMPTY, ops);
    if id in s.registry {
      AnnouncedIff(ops, s.registry[id]);
    }
  }

  // ---- Distinct ids.

  /** No request reuses the id of a request that is still open, that is, whose timer is armed. */
  ghost predicate NoOverlap(ops: seq<Op>) {
    forall k :: 0 <= k < |ops| && ops[k].Request? ==> IdFree(Run(EMPTY, ops[..k]), ops[k].id)
  }

  ghost predicate IdFree(s: State, id: Id) {
    forall h :: 0 <= h < |s.ids| && h in s.armed ==> s.ids[h] != id
  }

  /** Every open request can be reached through the registry. */
  ghost predicate Reachable(s: State) {
    forall h :: 0 <= h < |s.ids| && h in s.armed ==> s.ids[h] in s.registry && s.registry[s.ids[h]] == h
  }

  lemma ReachableStep(s: State, op: Op)
    requires Inv(s) && Reachable(s) && (op.Request? ==> IdFree(s, op.id))
    ensures Reachable(Step(s, op))
  { }

  lemma {:induction false} NoOverlapReachable(ops: seq<Op>)
    requires NoOverlap(ops)
    ensures Reachable(Run(EMPTY, ops))
  {
    if ops != [] {
      var n := |ops| - 1;
      var before := ops[..n];
      assert NoOverlap(before) by {
        forall k | 0 <= k < |before| && before[k].Request? ensures IdFree(Run(EMPTY, before[..k]), before[k].id) {
          assert before[..k] == ops[..k] && before[k] == ops[k];
        }
      }
      NoOverlapReachable(before);
      RunInv(before);
      ReachableStep(Run(EMPTY, before), ops[n]);
    }
  }

  /** Requests stay reachable through the whole run exactly when no id is reused while a request
      with it is open. A reused id hides the older request, which only its timer can close. */
  lemma ReachableIffNoOverlap(ops: seq<Op>)
    ensures (forall n :: 0 <= n <= |ops| ==> Reachable(Run(EMPTY, ops[..n]))) <==> NoOverlap(ops)
  {
    if NoOverlap(ops) {
      forall n | 0 <= n <= |ops| ensures Reachable(Run(EMPTY, ops[..n])) {
        forall k | 0 <= k < n && ops[..n][k].Request? ensures IdFree(Run(EMPTY, ops[..n][..k]), ops[..n][k].id) {
          assert ops[..n][..k] == ops[..k] && ops[..n][k] == ops[k];
        }
        NoOverlapReachable(ops[..n]);
      }
    } else {
      var k :| 0 <= k < |ops| && ops[k].Request? && !IdFree(Run(EMPTY, ops[..k]), ops[k].id);
      var s := Run(EMPTY, ops[..k]);
      var h :| 0 <= h < |s.ids| && h in s.armed && s.ids[h] == ops[k].id;
      assert ops[..k + 1][..k] == ops[..k] && ops[..k + 1][k] == ops[k];
      var s' := Run(EMPTY, ops[..k + 1]);
      assert s' == Step(s, ops[k]);
      assert s'.ids[h] == ops[k].id && s'.registry[ops[k].id] == |s.ids| != h;
      assert !Reachable(s');
    }
  }

  ghost predicate SomeoneWaits(s: State, id: Id) {
    exists h: nat :: Waits(s, h) && s.ids[h] == id
  }

  /** With ids not reused while open, `resolveConfirmation` succeeds exactly for the open requests; and it
      succeeds exactly when somebody waits if, and only if, the open request with that id was announced. */
  lemma ResolveSucceedsIffWaiting(ops: seq<Op>, id: Id, approved: bool, source: Source)
    requires NoOverlap(ops)
    ensures var s := Run(EMPTY, ops);
      DoResolve(s, id, approved, source).1 <==> !IdFree(s, id)
    ensures var s := Run(EMPTY, ops);
      (DoResolve(s, id, approved, source).1 <==> SomeoneWaits(s, id))
      <==> forall h :: 0 <= h < |s.ids| && h in s.armed && s.ids[h] == id ==> Announced(ops, h)
  {
    RunInv(ops);
    NoOverlapReachable(ops);
    var s := Run(EMPTY, ops);
    forall h | 0 <= h < |s.ids| ensures Announced(ops, h) <==> h !in s.rejected {
      AnnouncedIff(ops, h);
    }
    RegisteredIffOpen(s, id);
    WaitedForIff(s, id);
  }

  lemma RegisteredIffOpen(s: State, id: Id)
    requires Inv(s) && Reachable(s)
    ensures id in s.registry <==> !IdFree(s, id)
  {
    if id in s.registry {
      assert s.ids[s.registry[id]] == id && s.registry[id] in s.armed;
    }
  }

  lemma WaitedForIff(s: State, id: Id)
    requires Inv(s) && Reachable(s)
    ensures (id in s.registry <==> SomeoneWaits(s, id))
      <==> forall h :: 0 <= h < |s.ids| && h in s.armed && s.ids[h] == id ==> h !in s.rejected
  {
    if id in s.registry {
      var h := s.registry[id];
      assert h in s.armed && s.ids[h] == id;
      if h !in s.rejected { assert Waits(s, h); }
    }
  }

  /** Whether a callback for an id that is not pending ever finds something to decide: never, exactly when
      no later request takes the id. */
  lemma RedeliveryHarmless(s: State, ops: seq<Op>, id: Id, approved: bool, source: Source)
    requires id !in s.registry
    ensures (forall n :: 0 <= n <= |ops| ==>
        DoResolve(Run(s, ops[..n]), id, approved, source) == (Run(s, ops[..n]), false))
      <==> forall k :: 0 <= k < |ops| && ops[k].Request? ==> ops[k].id != id
  {
    if forall k :: 0 <= k < |ops| && ops[k].Request? ==> ops[k].id != id {
      forall n | 0 <= n <= |ops| ensures id !in Run(s, ops[..n]).registry {
        StaysUnregistered(s, ops[..n], id);
      }
    } else {
      var k :| 0 <= k < |ops| && ops[k].Request? && ops[k].id == id;
      assert ops[..k + 1][..k] == ops[..k] && ops[..k + 1][k] == ops[k];
      assert Run(s, ops[..k + 1]) == Step(Run(s, ops[..k]), ops[k]);
      assert id in Run(s, ops[..k + 1]).registry;
    }
  }

  lemma {:induction false} StaysUnregistered(s: State, ops: seq<Op>, id: Id)
    requires id !in s.registry && forall k :: 0 <= k < |ops| && ops[k].Request? ==> ops[k].id != id
    ensures id !in Run(s, ops).registry
  {
    if ops != [] {
      StaysUnregistered(s, ops[..|ops| - 1], id);
    }
  }

  /** A callback that is delivered again, at any time after its first delivery, changes nothing exactly
      when no request took the id in between. */
  lemma CallbackTakesEffectOnce(s: State, ops: seq<Op>, id: Id, approved: bool, source: Source)
    ensures var s' := DoResolve(s, id, approved, source).0;
      (forall n :: 0 <= n <= |ops| ==>
        DoResolve(Run(s', ops[..n]), id, approved, source) == (Run(s', ops[..n]), false))
      <==> forall k :: 0 <= k < |ops| && ops[k].Request? ==> ops[k].id != id
  {
    RedeliveryHarmless(DoResolve(s, id, approved, source).0, ops, id, approved, source);
  }

  /** Under a reused id an old callback decides the new request. */
  lemma StaleCallbackDecidesReusedId(s: State, id: Id, approved: bool, source: Source)
    requires Inv(s)
    ensures var s' := DoRequest(s, id, true);
      && Waits(s', |s.ids|)
      && DoResolve(s', id, approved, source).1
      && DoResolve(s', id, approved, source).0.settled == s.settled[|s.ids| := approved]
  { }

  // ---- Announcements that throw.

  /** A request whose announcement throws is rejected at once, yet a later resolution of it is answered as a
      success and told to the clients as a decision, and settles nothing. */
  lemma FailedAnnouncementStillResolves(s: State, id: Id, approved: bool, source: Source)
    requires Inv(s)
    ensures var s' := DoRequest(s, id, false);
      && !Waits(s', |s.ids|) && |s.ids| in s'.armed && s'.events == s.events
      && DoResolve(s', id, approved, source).1
      && DoResolve(s', id, approved, source).0.settled == s.settled
      && DoResolve(s', id, approved, source).0.events
         == s.events + [Resolved(id, if approved then Approved else Denied, source)]
  { }

  /** The timer of such a request takes the registry entry of a retry under the same id with it: the retry
      waits on, out of reach of every resolver. */
  lemma FailedAnnouncementHidesRetry(s: State, id: Id, approved: bool, source: Source)
    requires Inv(s)
    ensures var retried := DoRequest(DoRequest(s, id, false), id, true);
      var fired := DoFire(retried, |s.ids|);
      && DoResolve(retried, id, approved, source).1
      && Waits(fired, |s.ids| + 1) && !DoResolve(fired, id, approved, source).1
  { }

  lemma RunOne(s: State, op: Op)
    ensures Run(s, [op]) == Step(s, op)
  {
    assert [op][..0] == [];
  }

  lemma RunSnoc(s: State, ops: seq<Op>, op: Op)
    ensures Run(s, ops + [op]) == Step(Run(s, ops), op)
  {
    assert (ops + [op])[..|ops|] == ops;
  }

  // ---- Telegram callbacks.

  const CONFIRM: Text := [99, 111, 110, 102, 105, 114, 109]
  const APPROVE: Text := [97, 112, 112, 114, 111, 118, 101]
  const REJECT: Text := [114, 101, 106, 101, 99, 116]
  const COLON: CodeUnit := 58

  datatype Callback = Callback(queryId: Text, data: Option<Text>, chat: Option<int>)

  /** `stub` says that only the update id is left. */
  datatype Update = Update(updateId: int, callback: Option<Callback>, stub: bool)

  datatype Reply = Unauthorized | InvalidData | UnknownAction | ApprovedReply | RejectedReply | NotFound

  datatype Ack = Ack(queryId: Text, reply: Reply, alert: bool)

  /** What one update asks for. */
  datatype Demand = PassThrough | Refuse(queryId: Text, reply: Reply) | Decide(queryId: Text, id: Id, approved: bool)

  predicate StartsWithConfirm(data: Text) {
    |data| >= 8 && data[..7] == CONFIRM && data[7] == COLON
  }

  function Read(isAuthorized: int -> bool, u: Update): Demand {
    if u.callback.None? || u.callback.value.data.None? || !StartsWithConfirm(u.callback.value.data.value) then
      PassThrough
    else
      var cb := u.callback.value;
      if cb.chat.None? || !isAuthorized(cb.chat.value) then Refuse(cb.queryId, Unauthorized)
      else
        var parts := Split(cb.data.value, COLON);
        if |parts| != 3 then Refuse(cb.queryId, InvalidData)
        else if parts[2] != APPROVE && parts[2] != REJECT then Refuse(cb.queryId, UnknownAction)
        else Decide(cb.queryId, parts[1], parts[2] == APPROVE)
  }

  function Driven1(isAuthorized: int -> bool, u: Update): seq<Op> {
    var d := Read(isAuthorized, u);
    if d.Decide? then [Resolve(d.id, d.approved, Telegram)] else []
  }

  /** The resolutions that a batch of updates drives, in order. */
  function Driven(isAuthorized: int -> bool, updates: seq<Update>): seq<Op> {
    if updates == [] then []
    else
      var n := |updates| - 1;
      Driven(isAuthorized, updates[..n]) + Driven1(isAuthorized, updates[n])
  }

  /** What is handed on in place of an update. */
  function Stub(isAuthorized: int -> bool, u: Update): Update {
    if Read(isAuthorized, u) == PassThrough then u else Update(u.updateId, None, true)
  }

  /** The answer to one callback. The alert flag marks the answers that report a failure. */
  function Reply1(isAuthorized: int -> bool, s: State, u: Update): seq<Ack> {
    match Read(isAuthorized, u)
    case PassThrough => []
    case Refuse(q, reply) => [Ack(q, reply, true)]
    case Decide(q, id, approved) =>
      if id in s.registry then [Ack(q, if approved then ApprovedReply else RejectedReply, false)]
      else [Ack(q, NotFound, true)]
  }

  function Replies(isAuthorized: int -> bool, s: State, updates: seq<Update>): seq<Ack> {
    if updates == [] then []
    else
      var n := |updates| - 1;
      Replies(isAuthorized, s, updates[..n])
      + Reply1(isAuthorized, Run(s, Driven(isAuthorized, updates[..n])), updates[n])
  }

  /** Callback data as the bot sends it out. */
  function CallbackData(id: Id, action: Text): Text {
    CONFIRM + [COLON] + id + [COLON] + action
  }

  lemma SplitCallback(id: Id, action: Text)
    requires COLON !in id && COLON !in action
    ensures Split(CallbackData(id, action), COLON) == [CONFIRM, id, action]
    ensures StartsWithConfirm(CallbackData(id, action))
  {
    var parts, data := [CONFIRM, id, action], CallbackData(id, action);
    assert parts[1..] == [id, action] && [id, action][1..] == [action];
    assert Join([id, action], COLON) == id + [COLON] + action;
    assert Join(parts, COLON) == CONFIRM + [COLON] + (id + [COLON] + action);
    assert data == Join(parts, COLON);
    SplitJoin(parts, COLON);
    assert data[..7] == CONFIRM && data[7] == COLON;
  }

  lemma CallbackShape(data: Text)
    requires StartsWithConfirm(data)
    ensures var parts := Split(data, COLON);
      |parts| == 3 ==> COLON !in parts[1] && COLON !in parts[2] && data == CallbackData(parts[1], parts[2])
  {
    var rest := data[8..];
    assert data == CONFIRM + [COLON] + rest;
    SplitAcross(CONFIRM, COLON, rest);
    SplitWithout(CONFIRM, COLON);
    JoinSplit(rest, COLON);
    var parts := Split(data, COLON);
    if |parts| == 3 {
      var two := Split(rest, COLON);
      assert parts[1] == two[0] && parts[2] == two[1] && two[1..] == [two[1]];
      assert data == CONFIRM + [COLON] + (parts[1] + [COLON] + parts[2]);
    }
  }

  /** The callback data that the bot sends out is read back as the decision it stands for, for
      every id without a colon; manifest ids are UUIDs. */
  lemma CallbackRoundTrip(isAuthorized: int -> bool, updateId: int, q: Text, chat: int, id: Id, approved: bool)
    requires isAuthorized(chat) && COLON !in id
    ensures var data := CallbackData(id, if approved then APPROVE else REJECT);
      Read(isAuthorized, Update(updateId, Some(Callback(q, Some(data), Some(chat))), false)) == Decide(q, id, approved)
  {
    SplitCallback(id, if approved then APPROVE else REJECT);
  }

  // ---- What an update may do, told from its text and its chat.

  predicate Carries(u: Update, data: Text) {
    u.callback.Some? && u.callback.value.data == Some(data)
  }

  ghost predicate Confirming(u: Update) {
    exists rest: Text :: Carries(u, CONFIRM + [COLON] + rest)
  }

  predicate FromAuthorized(isAuthorized: int -> bool, u: Update) {
    u.callback.Some? && u.callback.value.chat.Some? && isAuthorized(u.callback.value.chat.value)
  }

  /** An authorized chat orders that the request be approved, or rejected. */
  predicate Orders(isAuthorized: int -> bool, u: Update, id: Id, approved: bool) {
    && FromAuthorized(isAuthorized, u) && COLON !in id
    && Carries(u, CallbackData(id, if approved then APPROVE else REJECT))
  }

  /** The data has three fields, and this action is the third. */
  ghost predicate NamesAction(u: Update, action: Text) {
    COLON !in action && exists id: Id :: COLON !in id && Carries(u, CallbackData(id, action))
  }

  lemma ConfirmingIff(u: Update)
    ensures Confirming(u) <==>
      u.callback.Some? && u.callback.value.data.Some? && StartsWithConfirm(u.callback.value.data.value)
  {
    if u.callback.Some? && u.callback.value.data.Some? && StartsWithConfirm(u.callback.value.data.value) {
      var data := u.callback.value.data.value;
      assert data == CONFIRM + [COLON] + data[8..];
    }
    if rest: Text :| Carries(u, CONFIRM + [COLON] + rest) {
      assert (CONFIRM + [COLON] + rest)[..7] == CONFIRM && (CONFIRM + [COLON] + rest)[7] == COLON;
    }
  }

  lemma NamesActionIff(u: Update, action: Text)
    requires Confirming(u)
    ensures NamesAction(u, action) <==>
      var parts := Split(u.callback.value.data.value, COLON); |parts| == 3 && parts[2] == action
  {
    ConfirmingIff(u);
    var data := u.callback.value.data.value;
    CallbackShape(data);
    if NamesAction(u, action) {
      var id: Id :| COLON !in id && Carries(u, CallbackData(id, action));
      SplitCallback(id, action);
    }
  }

  lemma OrdersIff(isAuthorized: int -> bool, u: Update, id: Id, approved: bool)
    ensures Orders(isAuthorized, u, id, approved) <==>
      var d := Read(isAuthorized, u); d.Decide? && d.id == id && d.approved == approved
  {
    var d, action := Read(isAuthorized, u), if approved then APPROVE else REJECT;
    if Orders(isAuthorized, u, id, approved) {
      SplitCallback(id, action);
    }
    if d.Decide? && d.id == id && d.approved == approved {
      CallbackShape(u.callback.value.data.value);
    }
  }

  /** An update drives exactly the one resolution that an authorized chat orders by it, and none when there is
      no such order. */
  lemma DrivesIffOrdered(isAuthorized: int -> bool, u: Update)
    ensures forall id, approved ::
      Driven1(isAuthorized, u) == [Resolve(id, approved, Telegram)] <==> Orders(isAuthorized, u, id, approved)
    ensures (forall id, approved :: !Orders(isAuthorized, u, id, approved)) ==> Driven1(isAuthorized, u) == []
  {
    forall id, approved
      ensures Driven1(isAuthorized, u) == [Resolve(id, approved, Telegram)] <==> Orders(isAuthorized, u, id, approved)
    {
      OrdersIff(isAuthorized, u, id, approved);
      var ops := Driven1(isAuthorized, u);
      assert ops != [] ==> ops[0] == Resolve(Read(isAuthorized, u).id, Read(isAuthorized, u).approved, Telegram);
    }
    var d := Read(isAuthorized, u);
    if d.Decide? {
      OrdersIff(isAuthorized, u, d.id, d.approved);
    }
  }

  /** The one answer to a callback, with an alert exactly when nothing was resolved. */
  predicate Told(u: Update, acks: seq<Ack>, reply: Reply) {
    u.callback.Some?
    && acks == [Ack(u.callback.value.queryId, reply, reply != ApprovedReply && reply != RejectedReply)]
  }

  /** What must come of an update that meets the server in state `s`: the state `s'`, the answers and the
      update handed on. */
  ghost predicate Obeyed(isAuthorized: int -> bool, u: Update, s: State, s': State, acks: seq<Ack>, v: Update) {
    && (!Confirming(u) ==> v == u && acks == [] && s' == s)
    && (Confirming(u) ==> v == Update(u.updateId, None, true))
    && (Confirming(u) && !FromAuthorized(isAuthorized, u) ==> Told(u, acks, Unauthorized) && s' == s)
    && (Confirming(u) && FromAuthorized(isAuthorized, u) && (forall action :: !NamesAction(u, action)) ==>
          Told(u, acks, InvalidData) && s' == s)
    && (forall action :: FromAuthorized(isAuthorized, u) && NamesAction(u, action) ==>
          action == APPROVE || action == REJECT || (Told(u, acks, UnknownAction) && s' == s))
    && (forall id, approved :: Orders(isAuthorized, u, id, approved) ==>
          && s' == DoResolve(s, id, approved, Telegram).0
          && Told(u, acks, if id !in s.registry then NotFound else if approved then ApprovedReply else RejectedReply))
  }

  lemma NamingConfirms(u: Update, action: Text)
    requires NamesAction(u, action)
    ensures Confirming(u)
  {
    var id: Id :| COLON !in id && Carries(u, CallbackData(id, action));
    SplitCallback(id, action);
    ConfirmingIff(u);
  }

  /** Every update, from whatever chat and with whatever data, is obeyed. */
  lemma UpdateObeyed(isAuthorized: int -> bool, u: Update, s: State)
    ensures Obeyed(isAuthorized, u, s, Run(s, Driven1(isAuthorized, u)), Reply1(isAuthorized, s, u),
                   Stub(isAuthorized, u))
  {
    var s', acks := Run(s, Driven1(isAuthorized, u)), Reply1(isAuthorized, s, u);
    ConfirmingIff(u);
    if Confirming(u) && FromAuthorized(isAuthorized, u) && forall action :: !NamesAction(u, action) {
      var parts := Split(u.callback.value.data.value, COLON);
      if |parts| == 3 { NamesActionIff(u, parts[2]); }
    }
    forall action | FromAuthorized(isAuthorized, u) && NamesAction(u, action)
      ensures action == APPROVE || action == REJECT || (Told(u, acks, UnknownAction) && s' == s)
    {
      NamingConfirms(u, action);
      NamesActionIff(u, action);
    }
    forall id, approved | Orders(isAuthorized, u, id, approved)
      ensures s' == DoResolve(s, id, approved, Telegram).0
      ensures Told(
        u, acks, if id !in s.registry then NotFound else if approved then ApprovedReply else RejectedReply)
    {
      OrdersIff(isAuthorized, u, id, approved);
      RunOne(s, Resolve(id, approved, Telegram));
    }
  }

  /** In a batch every update is obeyed in the state that the updates before it left. */
  lemma BatchObeyed(isAuthorized: int -> bool, s: State, updates: seq<Update>, i: nat)
    requires i < |updates|
    ensures var before := Run(s, Driven(isAuthorized, updates[..i]));
      var after := Run(s, Driven(isAuthorized, updates[..i + 1]));
      var acks := Reply1(isAuthorized, before, updates[i]);
      && Obeyed(isAuthorized, updates[i], before, after, acks, Stubs(isAuthorized, updates)[i])
      && Replies(isAuthorized, s, updates[..i + 1]) == Replies(isAuthorized, s, updates[..i]) + acks
  {
    DrivenSnoc(isAuthorized, s, updates, i);
    UpdateObeyed(isAuthorized, updates[i], Run(s, Driven(isAuthorized, updates[..i])));
    StubsAt(isAuthorized, updates, i);
  }

  /** The answers to the callbacks of a batch from chats that are not authorized. */
  ghost function Refusals(updates: seq<Update>): seq<Ack> {
    if updates == [] then []
    else
      var n := |updates| - 1;
      Refusals(updates[..n])
      + if Confirming(updates[n]) then [Ack(updates[n].callback.value.queryId, Unauthorized, true)] else []
  }

  /** Chats that are not authorized resolve nothing, and each of their confirmation callbacks is refused. */
  lemma {:induction false} UnauthorizedRefused(isAuthorized: int -> bool, s: State, updates: seq<Update>)
    requires forall i :: 0 <= i < |updates| ==> !FromAuthorized(isAuthorized, updates[i])
    ensures Run(s, Driven(isAuthorized, updates)) == s
    ensures Replies(isAuthorized, s, updates) == Refusals(updates)
  {
    if updates != [] {
      var n := |updates| - 1;
      UnauthorizedRefused(isAuthorized, s, updates[..n]);
      BatchObeyed(isAuthorized, s, updates, n);
      assert updates[..n + 1] == updates;
    }
  }

  // ---- The server object.

  class Server {
    var requests: seq<Id>
    var registry: map<Id, Handle>
    var armed: set<Handle>
    var settled: map<Handle, bool>
    var rejected: set<Handle>
    var events: seq<Event>

    ghost function Model(): State
      reads this
    {
      State(requests, registry, armed, settled, rejected, events)
    }

    constructor ()
      ensures Model() == EMPTY
    {
      requests, registry, armed, settled, rejected, events := [], map[], {}, map[], {}, [];
    }

    /** `confirmFn`: arms the timer, registers the request and announces it. When the announcement throws,
        the promise is rejected and nothing else is undone. */
    method Confirm(a: Announcer, id: Id, parameters: Text) returns (h: Handle)
      modifies this
      ensures Model() == DoRequest(old(Model()), id, Announces(a, parameters)) && h == |old(requests)|
    {
      h := |requests|;
      armed := armed + {h};
      registry := registry[id := h];
      requests := requests + [id];
      if a.parses(a.redact(parameters)) {
        events := events + [Requested(id)];
      } else {
        rejected := rejected + {h};
      }
    }

    method ResolveConfirmation(id: Id, approved: bool, source: Source) returns (resolved: bool)
      modifies this
      ensures (Model(), resolved) == DoResolve(old(Model()), id, approved, source)
    {
      if id !in registry {
        return false;
      }
      var h := registry[id];
      registry := registry - {id};
      armed := armed - {h};
      if h !in settled && h !in rejected {
        settled := settled[h := approved];
      }
      events := events + [Resolved(id, if approved then Approved else Denied, source)];
      resolved := true;
    }

    /** The callback of an armed timer. */
    method TimerFires(h: Handle)
      requires h in armed && h < |requests|
      modifies this
      ensures Model() == DoFire(old(Model()), h)
    {
      armed := armed - {h};
      registry := registry - {requests[h]};
      if h !in settled && h !in rejected {
        settled := settled[h := false];
      }
      events := events + [Resolved(requests[h], TimedOut, Timeout)];
    }

    /** The body of the map over updates. */
    method InterceptOne(isAuthorized: int -> bool, u: Update) returns (v: Update, acks: seq<Ack>)
      modifies this
      ensures Model() == Run(old(Model()), Driven1(isAuthorized, u))
      ensures v == Stub(isAuthorized, u) && acks == Reply1(isAuthorized, old(Model()), u)
      ensures Obeyed(isAuthorized, u, old(Model()), Model(), acks, v)
    {
      UpdateObeyed(isAuthorized, u, Model());
      v, acks := u, [];
      match Read(isAuthorized, u)
      case PassThrough =>
      case Refuse(q, reply) =>
        acks := [Ack(q, reply, true)];
        v := Update(u.updateId, None, true);
      case Decide(q, id, approved) =>
        RunOne(Model(), Resolve(id, approved, Telegram));
        var resolved := ResolveConfirmation(id, approved, Telegram);
        acks := [Ack(q, if !resolved then NotFound else if approved then ApprovedReply else RejectedReply, !resolved)];
        v := Update(u.updateId, None, true);
    }

    /** Resolves what the updates decide, in order; every update keeps its place and its id. */
    method InterceptTelegramUpdates(isAuthorized: int -> bool, updates: seq<Update>)
      returns (out: seq<Update>, acks: seq<Ack>)
      modifies this
      ensures Model() == Run(old(Model()), Driven(isAuthorized, updates))
      ensures acks == Replies(isAuthorized, old(Model()), updates)
      ensures out == Stubs(isAuthorized, updates)
      ensures (forall i :: 0 <= i < |updates| ==> !FromAuthorized(isAuthorized, updates[i])) ==>
        Model() == old(Model()) && acks == Refusals(updates)
    {
      out, acks := [], [];
      ghost var s := Model();
      assert updates[..0] == [];
      for i := 0 to |updates|
        invariant Handled(isAuthorized, s, updates[..i], Model(), acks, out)
      {
        ghost var before := Model();
        var v, more := InterceptOne(isAuthorized, updates[i]);
        BatchStep(isAuthorized, s, updates, i, before, Model(), acks, more, out);
        out, acks := out + [v], acks + more;
      }
      assert updates[..|updates|] == updates;
      if forall i :: 0 <= i < |updates| ==> !FromAuthorized(isAuthorized, updates[i]) {
        UnauthorizedRefused(isAuthorized, s, updates);
      }
    }
  }

  /** The batch that is handed on: every update keeps its place and its id, and only updates
      that are not confirmation callbacks keep their content. */
  function Stubs(isAuthorized: int -> bool, updates: seq<Update>): (r: seq<Update>)
    ensures |r| == |updates|
    ensures forall i :: 0 <= i < |updates| ==> r[i].updateId == updates[i].updateId
    ensures forall i :: 0 <= i < |updates| && Read(isAuthorized, updates[i]) == PassThrough ==> r[i] == updates[i]
    ensures forall i :: 0 <= i < |updates| && Read(isAuthorized, updates[i]) != PassThrough ==>
      r[i].stub && r[i].callback.None?
  {
    if updates == [] then []
    else
      var n := |updates| - 1;
      Stubs(isAuthorized, updates[..n]) + [Stub(isAuthorized, updates[n])]
  }

  lemma {:induction false} StubsAt(isAuthorized: int -> bool, updates: seq<Update>, i: nat)
    requires i < |updates|
    ensures Stubs(isAuthorized, updates)[i] == Stub(isAuthorized, updates[i])
  {
    var n := |updates| - 1;
    if i < n {
      StubsAt(isAuthorized, updates[..n], i);
    }
  }

  lemma StubsSnoc(isAuthorized: int -> bool, updates: seq<Update>, i: nat)
    requires i < |updates|
    ensures Stubs(isAuthorized, updates[..i + 1])
      == Stubs(isAuthorized, updates[..i]) + [Stub(isAuthorized, updates[i])]
  {
    assert updates[..i + 1][..i] == updates[..i];
  }

  /** The updates `done` were handled from state `s` on. */
  ghost predicate Handled(
      isAuthorized: int -> bool, s: State, done: seq<Update>, now: State, acks: seq<Ack>, out: seq<Update>)
  {
    && now == Run(s, Driven(isAuthorized, done))
    && acks == Replies(isAuthorized, s, done)
    && out == Stubs(isAuthorized, done)
  }

  /** One round of the loop over a batch. */
  lemma BatchStep(isAuthorized: int -> bool, s: State, updates: seq<Update>, i: nat,
      before: State, after: State, acks: seq<Ack>, more: seq<Ack>, out: seq<Update>)
    requires i < |updates| && Handled(isAuthorized, s, updates[..i], before, acks, out)
    requires after == Run(before, Driven1(isAuthorized, updates[i]))
    requires more == Reply1(isAuthorized, before, updates[i])
    ensures Handled(
      isAuthorized, s, updates[..i + 1], after, acks + more, out + [Stub(isAuthorized, updates[i])])
  {
    DrivenSnoc(isAuthorized, s, updates, i);
    StubsSnoc(isAuthorized, updates, i);
  }

  lemma DrivenSnoc(isAuthorized: int -> bool, s: State, updates: seq<Update>, i: nat)
    requires i < |updates|
    ensures Run(s, Driven(isAuthorized, updates[..i + 1]))
      == Run(Run(s, Driven(isAuthorized, updates[..i])), Driven1(isAuthorized, updates[i]))
    ensures Replies(isAuthorized, s, updates[..i + 1]) == Replies(isAuthorized, s, updates[..i])
      + Reply1(isAuthorized, Run(s, Driven(isAuthorized, updates[..i])), updates[i])
  {
    var before, op := Driven(isAuthorized, updates[..i]), Driven1(isAuthorized, updates[i]);
    assert updates[..i + 1][..i] == updates[..i] && updates[..i + 1][i] == updates[i];
    if op == [] {
      assert before + op == before;
    } else {
      RunSnoc(s, before, op[0]);
      RunOne(Run(s, before), op[0]);
    }
  }
}
