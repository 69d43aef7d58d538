/** `handleExecute` as a step machine. A call runs without interruption between its awaits, and
    calls interleave at the awaits; every audit row goes to one shared trail. */
module Pipeline {
  datatype Policy = AutoApprove | Allow | Confirm | Block

  datatype LoopAnswer = LoopAllow | LoopWarn | LoopBlock

  /** What the guards and the policy answer for an arriving manifest. An absent guard allows. */
  datatype Arrival = Arrival(rateAllowed: bool, loop: LoopAnswer, action: Policy)

  /** What the request moderation and the tool registry answer. */
  datatype Screening = Screening(moderationBlocks: bool, handlerExists: bool)

  /** How the wait for a confirmation ends; `Rejected` is a rejected promise. */
  datatype Answer = Approved | Denied | Rejected

  /** How a handler ends. */
  datatype Outcome = Threw | Returned(success: bool, outputBlocked: bool)

  datatype Result =
    | Success | Failure | Pending | DeniedByUser | BlockedByPolicy
    | BlockedByRateLimit | BlockedByLoopGuard | LoopGuardWarning

  datatype Row = Row(id: nat, call: nat, result: Result, decision: Policy)

  /** The audit rows in order, with a mark where a handler is invoked. */
  datatype Event = Logged(row: Row) | Started(call: nat)

  datatype Ending = Refused | ConfirmFailed | Ran

  datatype Stage = AwaitingConfirm | Running | Finished(ending: Ending)

  /** `baseId` is the id made with the audit base; `approved` records a positive confirmation. */
  datatype Call = Call(stage: Stage, action: Policy, baseId: nat, approved: bool)

  datatype State = State(trail: seq<Event>, calls: seq<Call>, nextId: nat)

  const EMPTY := State([], [], 0)

  function Log(s: State, id: nat, call: nat, result: Result, decision: Policy): State {
    s.(trail := s.trail + [Logged(Row(id, call, result, decision))])
  }

  /** Logs a row under a new id. */
  function LogFresh(s: State, call: nat, result: Result, decision: Policy): State {
    Log(s, s.nextId, call, result, decision).(nextId := s.nextId + 1)
  }

  function SetCall(s: State, c: nat, call: Call): State
    requires c <= |s.calls|
  {
    s.(calls := if c == |s.calls| then s.calls + [call] else s.calls[c := call])
  }

  /** From the request moderation to the invocation of the handler. */
  function Proceed(s: State, c: nat, call: Call, sc: Screening): State
    requires c <= |s.calls|
  {
    if sc.moderationBlocks then
      SetCall(Log(s, call.baseId, c, BlockedByPolicy, call.action), c, call.(stage := Finished(Refused)))
    else if !sc.handlerExists then
      SetCall(Log(s, call.baseId, c, Failure, call.action), c, call.(stage := Finished(Refused)))
    else
      var s' := LogFresh(s, c, Pending, call.action);
      SetCall(s'.(trail := s'.trail + [Started(c)]), c, call.(stage := Running))
  }

  /** From the arrival of a valid manifest to its first await, or to its end. */
  function Begin(s: State, a: Arrival, sc: Screening): State {
    var c := |s.calls|;
    if !a.rateAllowed then
      SetCall(LogFresh(s, c, BlockedByRateLimit, Block), c, Call(Finished(Refused), Block, s.nextId, false))
    else
      var s1 := if a.loop == LoopWarn then LogFresh(s, c, LoopGuardWarning, Allow) else s;
      if a.loop == LoopBlock then
        SetCall(LogFresh(s1, c, BlockedByLoopGuard, Block), c, Call(Finished(Refused), Block, s1.nextId, false))
      else Decide(s1, c, a.action, sc)
  }

  /** Makes the call's own audit id and acts on the classifier's decision. */
  function Decide(s: State, c: nat, action: Policy, sc: Screening): State
    requires c <= |s.calls|
  {
    var call := Call(AwaitingConfirm, action, s.nextId, false);
    var s2 := s.(nextId := s.nextId + 1);
    if action == Block then
      SetCall(Log(s2, call.baseId, c, BlockedByPolicy, Block), c, call.(stage := Finished(Refused)))
    else if action == Confirm then SetCall(s2, c, call)
    else Proceed(s2, c, call, sc)
  }

  function Reply(s: State, c: nat, answer: Answer, sc: Screening): State
    requires c < |s.calls|
  {
    var call := s.calls[c];
    match answer
    case Rejected => SetCall(s, c, call.(stage := Finished(ConfirmFailed)))
    case Denied => SetCall(Log(s, call.baseId, c, DeniedByUser, call.action), c, call.(stage := Finished(Refused)))
    case Approved => Proceed(s, c, call.(approved := true), sc)
  }

  function Complete(s: State, c: nat, o: Outcome): State
    requires c < |s.calls|
  {
    var call := s.calls[c];
    var s' := if o.Threw? then LogFresh(s, c, Failure, call.action)
              else if o.outputBlocked then Log(s, call.baseId, c, BlockedByPolicy, call.action)
              else Log(s, call.baseId, c, if o.success then Success else Failure, call.action);
    SetCall(s', c, call.(stage := Finished(Ran)))
  }

  datatype Op =
    | Arrive(arrival: Arrival, screening: Screening)
    | Answered(call: nat, answer: Answer, screening: Screening)
    | HandlerEnds(call: nat, outcome: Outcome)

  predicate Enabled(s: State, op: Op) {
    match op
    case Arrive(_, _) => true
    case Answered(c, _, _) => c < |s.calls| && s.calls[c].stage == AwaitingConfirm
    case HandlerEnds(c, _) => c < |s.calls| && s.calls[c].stage == Running
  }

  /** An operation on a call that is not waiting for it does nothing. */
  function Step(s: State, op: Op): State {
    if !Enabled(s, op) then s
    else
      match op
      case Arrive(a, sc) => Begin(s, a, sc)
      case Answered(c, answer, sc) => Reply(s, c, answer, sc)
      case HandlerEnds(c, o) => Complete(s, c, o)
  }

  function Run(ops: seq<Op>): State {
    if ops == [] then EMPTY else Step(Run(ops[..|ops| - 1]), ops[|ops| - 1])
  }

  // ---- Tallies.

  /** A row that ends a call; `pending` and the loop warning do not. */
  predicate Closes(r: Result) {
    r != Pending && r != LoopGuardWarning
  }

  datatype Tally = Tally(pending: nat, closing: nat, started: nat)

  function Bump(t: Tally, e: Event): Tally {
    match e
    case Started(_) => t.(started := t.started + 1)
    case Logged(row) =>
      if row.result == Pending then t.(pending := t.pending + 1)
      else if Closes(row.result) then t.(closing := t.closing + 1)
      else t
  }

  function CallOf(e: Event): nat {
    if e.Started? then e.call else e.row.call
  }

  /** What the trail says about call `c`. */
  function TallyOf(trail: seq<Event>, c: nat): Tally {
    if trail == [] then Tally(0, 0, 0)
    else
      var t := TallyOf(trail[..|trail| - 1], c);
      var e := trail[|trail| - 1];
      if CallOf(e) == c then Bump(t, e) else t
  }

  lemma TallySnoc(trail: seq<Event>, e: Event, c: nat)
    ensures TallyOf(trail + [e], c)
      == if CallOf(e) == c then Bump(TallyOf(trail, c), e) else TallyOf(trail, c)
  {
    assert (trail + [e])[..|trail|] == trail;
  }

  function Expected(stage: Stage): Tally {
    match stage
    case AwaitingConfirm => Tally(0, 0, 0)
    case Running => Tally(1, 0, 1)
    case Finished(e) =>
      match e
      case Refused => Tally(0, 1, 0)
      case ConfirmFailed => Tally(0, 0, 0)
      case Ran => Tally(1, 1, 1)
  }

  // ---- Row ids.

  ghost predicate UsesId(e: Event, id: nat) {
    e.Logged? && e.row.id == id
  }

  ghost predicate Unused(trail: seq<Event>, id: nat) {
    forall i :: 0 <= i < |trail| ==> !UsesId(trail[i], id)
  }

  ghost predicate DistinctIds(trail: seq<Event>) {
    forall i, j :: 0 <= i < j < |trail| && trail[i].Logged? && trail[j].Logged? ==> trail[i].row.id != trail[j].row.id
  }

  /** An unfinished call still has its base id to spend. */
  ghost predicate Holds(calls: seq<Call>, c: int, id: nat) {
    0 <= c < |calls| && !calls[c].stage.Finished? && calls[c].baseId == id
  }

  /** The ids in order, leaving call `c` aside, which holds the id `held`. */
  ghost predicate IdsBut(s: State, c: int, held: int) {
    && DistinctIds(s.trail)
    && (forall id: nat :: id >= s.nextId ==> Unused(s.trail, id))
    && (forall d: nat, id: nat :: d != c && Holds(s.calls, d, id) ==>
          id < s.nextId && Unused(s.trail, id) && id != held)
    && (forall d: nat, e: nat, id: nat :: d != c && e != c && Holds(s.calls, d, id) && Holds(s.calls, e, id) ==> d == e)
    && (held >= 0 ==> held < s.nextId && Unused(s.trail, held))
  }

  /** No id is spent twice, and the ids to be spent are new and held by one call each. */
  ghost predicate IdInv(s: State) {
    && IdsBut(s, -1, -1)
  }

  lemma LogIds(s: State, c: nat, id: nat, held: int, call: nat, r: Result, d: Policy)
    requires IdsBut(s, c, held) && Unused(s.trail, id)
    requires id == held || id >= s.nextId
    ensures IdsBut(Log(s, id, call, r, d).(nextId := if id < s.nextId then s.nextId else id + 1),
                   c, if id == held then -1 else held)
  {
    var s' := Log(s, id, call, r, d);
    var e := Logged(Row(id, call, r, d));
    assert s'.trail == s.trail + [e];
    forall x: nat | x != id && Unused(s.trail, x) ensures Unused(s'.trail, x) { }
    forall i, j | 0 <= i < j < |s'.trail| && s'.trail[i].Logged? && s'.trail[j].Logged?
      ensures s'.trail[i].row.id != s'.trail[j].row.id
    {
      if j == |s.trail| { assert !UsesId(s.trail[i], id); }
    }
  }

  lemma StartMarkIds(s: State, c: nat, held: int)
    requires IdsBut(s, c, held)
    ensures IdsBut(s.(trail := s.trail + [Started(c)]), c, held)
  {
    var trail := s.trail + [Started(c)];
    forall x: nat | Unused(s.trail, x) ensures Unused(trail, x) { }
  }

  lemma SetCallIds(s: State, c: nat, held: int, call: Call)
    requires c <= |s.calls| && IdsBut(s, c, held)
    requires call.stage.Finished? || call.baseId == held
    ensures IdInv(SetCall(s, c, call))
  {
    var s' := SetCall(s, c, call);
    forall d: nat, id: nat | Holds(s'.calls, d, id) ensures if d == c then id == held else Holds(s.calls, d, id) { }
  }

  /** Setting a call aside. */
  lemma AsideIds(s: State, c: nat)
    requires IdInv(s) && c <= |s.calls|
    ensures IdsBut(s, c, if c < |s.calls| && !s.calls[c].stage.Finished? then s.calls[c].baseId else -1)
  {
    if c < |s.calls| && !s.calls[c].stage.Finished? {
      assert Holds(s.calls, c, s.calls[c].baseId);
    }
  }

  lemma ReserveIds(s: State, c: nat)
    requires IdsBut(s, c, -1)
    ensures IdsBut(s.(nextId := s.nextId + 1), c, s.nextId)
  { }

  lemma ProceedIds(s: State, c: nat, call: Call, sc: Screening)
    requires c <= |s.calls| && IdsBut(s, c, call.baseId)
    ensures IdInv(Proceed(s, c, call, sc))
  {
    if sc.moderationBlocks || !sc.handlerExists {
      var r := if sc.moderationBlocks then BlockedByPolicy else Failure;
      LogIds(s, c, call.baseId, call.baseId, c, r, call.action);
      SetCallIds(Log(s, call.baseId, c, r, call.action), c, -1, call.(stage := Finished(Refused)));
    } else {
      LogIds(s, c, s.nextId, call.baseId, c, Pending, call.action);
      var s' := LogFresh(s, c, Pending, call.action);
      StartMarkIds(s', c, call.baseId);
      SetCallIds(s'.(trail := s'.trail + [Started(c)]), c, call.baseId, call.(stage := Running));
    }
  }

  lemma BeginIds(s: State, a: Arrival, sc: Screening)
    requires IdInv(s)
    ensures IdInv(Begin(s, a, sc))
  {
    var c := |s.calls|;
    AsideIds(s, c);
    if !a.rateAllowed {
      LogIds(s, c, s.nextId, -1, c, BlockedByRateLimit, Block);
      SetCallIds(LogFresh(s, c, BlockedByRateLimit, Block), c, -1, Call(Finished(Refused), Block, s.nextId, false));
    } else {
      if a.loop == LoopWarn { LogIds(s, c, s.nextId, -1, c, LoopGuardWarning, Allow); }
      var s1 := if a.loop == LoopWarn then LogFresh(s, c, LoopGuardWarning, Allow) else s;
      if a.loop == LoopBlock {
        LogIds(s1, c, s1.nextId, -1, c, BlockedByLoopGuard, Block);
        SetCallIds(LogFresh(s1, c, BlockedByLoopGuard, Block), c, -1,
                   Call(Finished(Refused), Block, s1.nextId, false));
      } else {
        DecideIds(s1, c, a.action, sc);
      }
    }
  }

  lemma DecideIds(s: State, c: nat, action: Policy, sc: Screening)
    requires c <= |s.calls| && IdsBut(s, c, -1)
    ensures IdInv(Decide(s, c, action, sc))
  {
    var call := Call(AwaitingConfirm, action, s.nextId, false);
    var s2 := s.(nextId := s.nextId + 1);
    ReserveIds(s, c);
    if action == Block {
      LogIds(s2, c, call.baseId, call.baseId, c, BlockedByPolicy, Block);
      SetCallIds(Log(s2, call.baseId, c, BlockedByPolicy, Block), c, -1, call.(stage := Finished(Refused)));
    } else if action == Confirm {
      SetCallIds(s2, c, call.baseId, call);
    } else {
      ProceedIds(s2, c, call, sc);
    }
  }

  lemma ReplyIds(s: State, c: nat, answer: Answer, sc: Screening)
    requires IdInv(s) && c < |s.calls| && s.calls[c].stage == AwaitingConfirm
    ensures IdInv(Reply(s, c, answer, sc))
  {
    var call := s.calls[c];
    AsideIds(s, c);
    match answer
    case Rejected => SetCallIds(s, c, call.baseId, call.(stage := Finished(ConfirmFailed)));
    case Denied =>
      LogIds(s, c, call.baseId, call.baseId, c, DeniedByUser, call.action);
      SetCallIds(Log(s, call.baseId, c, DeniedByUser, call.action), c, -1, call.(stage := Finished(Refused)));
    case Approved => ProceedIds(s, c, call.(approved := true), sc);
  }

  lemma CompleteIds(s: State, c: nat, o: Outcome)
    requires IdInv(s) && c < |s.calls| && s.calls[c].stage == Running
    ensures IdInv(Complete(s, c, o))
  {
    var call := s.calls[c];
    AsideIds(s, c);
    var done := call.(stage := Finished(Ran));
    if o.Threw? {
      LogIds(s, c, s.nextId, call.baseId, c, Failure, call.action);
      SetCallIds(LogFresh(s, c, Failure, call.action), c, call.baseId, done);
    } else {
      var r := if o.outputBlocked then BlockedByPolicy else if o.success then Success else Failure;
      LogIds(s, c, call.baseId, call.baseId, c, r, call.action);
      SetCallIds(Log(s, call.baseId, c, r, call.action), c, -1, done);
    }
  }

  // ---- Permission to run.

  /** A handler mark directly follows the pending row of the same call. */
  ghost predicate AnnouncedStarts(trail: seq<Event>) {
    forall i :: 0 <= i < |trail| && trail[i].Started? ==>
      i > 0 && trail[i - 1].Logged? && trail[i - 1].row.call == trail[i].call && trail[i - 1].row.result == Pending
  }

  predicate Permitted(call: Call) {
    call.action == AutoApprove || call.action == Allow || (call.action == Confirm && call.approved)
  }

  ghost predicate CallInv(s: State, c: int)
    requires 0 <= c < |s.calls|
  {
    && TallyOf(s.trail, c) == Expected(s.calls[c].stage)
    && (s.calls[c].stage == AwaitingConfirm ==> s.calls[c].action == Confirm && !s.calls[c].approved)
    && (TallyOf(s.trail, c).started > 0 ==> Permitted(s.calls[c]))
  }

  ghost predicate Inv(s: State) {
    && (forall c :: 0 <= c < |s.calls| ==> CallInv(s, c))
    && (forall c: nat :: c >= |s.calls| ==> TallyOf(s.trail, c) == Tally(0, 0, 0))
    && AnnouncedStarts(s.trail)
  }

  // ---- One step changes one call and appends events of that call.

  /** Call `c` becomes `call`, the others stay. */
  predicate OnlyCall(before: seq<Call>, after: seq<Call>, c: nat, call: Call) {
    c <= |before| && after == if c == |before| then before + [call] else before[c := call]
  }

  /** Call `c` goes to `call` while `events`, all of call `c`, are appended. */
  ghost predicate Moves(s: State, s': State, c: nat, call: Call, events: seq<Event>) {
    && OnlyCall(s.calls, s'.calls, c, call)
    && s'.trail == s.trail + events
    && |events| <= 3 && forall i :: 0 <= i < |events| ==> CallOf(events[i]) == c
  }

  function BumpAll(t: Tally, events: seq<Event>): Tally
    decreases |events|
  {
    if events == [] then t else BumpAll(Bump(t, events[0]), events[1..])
  }

  lemma {:induction false} TallyAppend(trail: seq<Event>, c: nat, events: seq<Event>)
    requires forall i :: 0 <= i < |events| ==> CallOf(events[i]) == c
    ensures TallyOf(trail + events, c) == BumpAll(TallyOf(trail, c), events)
    ensures forall d: nat :: d != c ==> TallyOf(trail + events, d) == TallyOf(trail, d)
    decreases |events|
  {
    if events == [] {
      assert trail + events == trail;
    } else {
      TallySnoc(trail, events[0], c);
      assert trail + events == (trail + [events[0]]) + events[1..];
      TallyAppend(trail + [events[0]], c, events[1..]);
      forall d: nat | d != c ensures TallyOf(trail + [events[0]], d) == TallyOf(trail, d) {
        TallySnoc(trail, events[0], d);
      }
    }
  }

  lemma MoveKeeps(s: State, s': State, c: nat, call: Call, events: seq<Event>)
    requires Inv(s) && Moves(s, s', c, call, events)
    requires BumpAll(TallyOf(s.trail, c), events) == Expected(call.stage)
    requires call.stage == AwaitingConfirm ==> call.action == Confirm && !call.approved
    requires Expected(call.stage).started > 0 ==> Permitted(call)
    requires AnnouncedStarts(events)
    ensures Inv(s')
  {
    TallyAppend(s.trail, c, events);
    forall d | 0 <= d < |s'.calls| ensures CallInv(s', d) {
      if d != c { assert s'.calls[d] == s.calls[d] && CallInv(s, d); }
    }
    forall i | 0 <= i < |s'.trail| && s'.trail[i].Started?
      ensures i > 0 && s'.trail[i - 1].Logged? && s'.trail[i - 1].row.call == s'.trail[i].call
        && s'.trail[i - 1].row.result == Pending
    {
      if i >= |s.trail| { assert s'.trail[i] == events[i - |s.trail|]; }
    }
  }

  // ---- The steps as moves.

  lemma ProceedMoves(s: State, c: nat, call: Call, sc: Screening) returns (call': Call, events: seq<Event>)
    requires c <= |s.calls|
    ensures Moves(s, Proceed(s, c, call, sc), c, call', events)
    ensures BumpAll(Tally(0, 0, 0), events) == Expected(call'.stage)
    ensures AnnouncedStarts(events) && call'.stage != AwaitingConfirm
    ensures call'.action == call.action && call'.approved == call.approved && call'.baseId == call.baseId
    ensures Expected(call'.stage).closing <= 1 && (call'.stage == Running || call'.stage == Finished(Refused))
    ensures |events| <= 2 && (Permitted(call) ==> AllTell(call', events))
  {
    if sc.moderationBlocks || !sc.handlerExists {
      call' := call.(stage := Finished(Refused));
      events := [Logged(Row(call.baseId, c, if sc.moderationBlocks then BlockedByPolicy else Failure, call.action))];
    } else {
      call' := call.(stage := Running);
      events := [Logged(Row(s.nextId, c, Pending, call.action)), Started(c)];
      assert s.trail + [events[0]] + [events[1]] == s.trail + events;
      BumpTwo(Tally(0, 0, 0), events);
    }
  }

  lemma BumpTwo(t: Tally, events: seq<Event>)
    requires |events| == 2
    ensures BumpAll(t, events) == Bump(Bump(t, events[0]), events[1])
  {
    var rest := events[1..];
    assert rest[0] == events[1] && rest[1..] == [];
    assert BumpAll(Bump(t, events[0]), rest) == BumpAll(Bump(Bump(t, events[0]), rest[0]), rest[1..]);
  }

  /** A single row, or none. */
  lemma RowKeeps(s: State, s': State, c: nat, call: Call, events: seq<Event>)
    requires Inv(s) && Moves(s, s', c, call, events) && |events| <= 1 && (|events| == 1 ==> events[0].Logged?)
    requires Expected(call.stage)
      == if events == [] then TallyOf(s.trail, c) else Bump(TallyOf(s.trail, c), events[0])
    requires call.stage == AwaitingConfirm ==> call.action == Confirm && !call.approved
    requires Expected(call.stage).started > 0 ==> Permitted(call)
    ensures Inv(s')
  {
    if |events| == 1 { assert events[1..] == []; }
    MoveKeeps(s, s', c, call, events);
  }

  /** The loop warning changes nothing that the tallies of any call see. */
  lemma WarnKeeps(s: State, c: nat)
    requires Inv(s) && c == |s.calls|
    ensures Inv(LogFresh(s, c, LoopGuardWarning, Allow))
  {
    var s' := LogFresh(s, c, LoopGuardWarning, Allow);
    var e := Logged(Row(s.nextId, c, LoopGuardWarning, Allow));
    forall d: nat ensures TallyOf(s'.trail, d) == TallyOf(s.trail, d) {
      TallySnoc(s.trail, e, d);
    }
    forall d | 0 <= d < |s'.calls| ensures CallInv(s', d) { assert CallInv(s, d); }
  }

  lemma BeginKeeps(s: State, a: Arrival, sc: Screening)
    requires Inv(s)
    ensures Inv(Begin(s, a, sc))
  {
    var c := |s.calls|;
    var s' := Begin(s, a, sc);
    if !a.rateAllowed {
      RowKeeps(s, s', c, Call(Finished(Refused), Block, s.nextId, false),
               [Logged(Row(s.nextId, c, BlockedByRateLimit, Block))]);
    } else {
      if a.loop == LoopWarn { WarnKeeps(s, c); }
      var s1 := if a.loop == LoopWarn then LogFresh(s, c, LoopGuardWarning, Allow) else s;
      if a.loop == LoopBlock {
        RowKeeps(s1, s', c, Call(Finished(Refused), Block, s1.nextId, false),
                 [Logged(Row(s1.nextId, c, BlockedByLoopGuard, Block))]);
      } else {
        DecideKeeps(s1, s', a, sc);
      }
    }
  }

  /** The part of an arrival after both guards. */
  lemma DecideKeeps(s: State, s': State, a: Arrival, sc: Screening)
    requires Inv(s) && s' == Decide(s, |s.calls|, a.action, sc)
    ensures Inv(s')
  {
    var c := |s.calls|;
    var call := Call(AwaitingConfirm, a.action, s.nextId, false);
    var s2 := s.(nextId := s.nextId + 1);
    assert Inv(s2) by { forall d | 0 <= d < |s2.calls| ensures CallInv(s2, d) { assert CallInv(s, d); } }
    if a.action == Block {
      RowKeeps(s2, s', c, call.(stage := Finished(Refused)), [Logged(Row(call.baseId, c, BlockedByPolicy, Block))]);
    } else if a.action == Confirm {
      assert s2.trail + [] == s2.trail;
      RowKeeps(s2, s', c, call, []);
    } else {
      var call', events := ProceedMoves(s2, c, call, sc);
      MoveKeeps(s2, s', c, call', events);
    }
  }

  lemma ReplyKeeps(s: State, c: nat, answer: Answer, sc: Screening)
    requires Inv(s) && c < |s.calls| && s.calls[c].stage == AwaitingConfirm
    ensures Inv(Reply(s, c, answer, sc))
  {
    var call, s' := s.calls[c], Reply(s, c, answer, sc);
    assert CallInv(s, c);
    match answer
    case Rejected =>
      assert s.trail + [] == s.trail;
      RowKeeps(s, s', c, call.(stage := Finished(ConfirmFailed)), []);
    case Denied =>
      RowKeeps(s, s', c, call.(stage := Finished(Refused)), [Logged(Row(call.baseId, c, DeniedByUser, call.action))]);
    case Approved =>
      var call', events := ProceedMoves(s, c, call.(approved := true), sc);
      MoveKeeps(s, s', c, call', events);
  }

  lemma CompleteKeeps(s: State, c: nat, o: Outcome)
    requires Inv(s) && c < |s.calls| && s.calls[c].stage == Running
    ensures Inv(Complete(s, c, o))
  {
    var call, s' := s.calls[c], Complete(s, c, o);
    assert CallInv(s, c);
    var id := if o.Threw? then s.nextId else call.baseId;
    var r := if o.Threw? then Failure
             else if o.outputBlocked then BlockedByPolicy
             else if o.success then Success else Failure;
    RowKeeps(s, s', c, call.(stage := Finished(Ran)), [Logged(Row(id, c, r, call.action))]);
  }

  lemma StepKeeps(s: State, op: Op)
    requires Inv(s) && IdInv(s)
    ensures Inv(Step(s, op)) && IdInv(Step(s, op))
  {
    if Enabled(s, op) {
      match op
      case Arrive(a, sc) => BeginKeeps(s, a, sc); BeginIds(s, a, sc);
      case Answered(c, answer, sc) => ReplyKeeps(s, c, answer, sc); ReplyIds(s, c, answer, sc);
      case HandlerEnds(c, o) => CompleteKeeps(s, c, o); CompleteIds(s, c, o);
    }
  }

  lemma {:induction false} RunKeeps(ops: seq<Op>)
    ensures Inv(Run(ops)) && IdInv(Run(ops))
  {
    if ops != [] {
      RunKeeps(ops[..|ops| - 1]);
      StepKeeps(Run(ops[..|ops| - 1]), ops[|ops| - 1]);
    }
  }

  // ---- Main results.

  /** Over any interleaving no audit id is used twice. */
  lemma AuditIdsDistinct(ops: seq<Op>)
    ensures DistinctIds(Run(ops).trail)
  {
    RunKeeps(ops);
  }

  /** A finished call has exactly one closing row, unless its confirmation promise was rejected,
      in which case it has none; an unfinished call has none. */
  lemma OneClosingRow(ops: seq<Op>, c: nat)
    ensures var s := Run(ops);
      c < |s.calls| ==>
        TallyOf(s.trail, c).closing
        == if s.calls[c].stage.Finished? && s.calls[c].stage.ending != ConfirmFailed then 1 else 0
  {
    RunKeeps(ops);
    var s := Run(ops);
    if c < |s.calls| { assert CallInv(s, c); }
  }

  /** A handler runs at most once per call, directly after the call's own pending row, and only
      when the policy let it through or the user approved it. */
  lemma StartsArePermitted(ops: seq<Op>, i: nat)
    requires i < |Run(ops).trail| && Run(ops).trail[i].Started?
    ensures var s := Run(ops);
      var c := s.trail[i].call;
      && c < |s.calls| && Permitted(s.calls[c]) && TallyOf(s.trail, c).started == 1
      && i > 0 && s.trail[i - 1].Logged? && s.trail[i - 1].row.call == c && s.trail[i - 1].row.result == Pending
  {
    RunKeeps(ops);
    StartPermitted(Run(ops), i);
  }

  lemma StartPermitted(s: State, i: nat)
    requires Inv(s) && i < |s.trail| && s.trail[i].Started?
    ensures var c := s.trail[i].call;
      && c < |s.calls| && Permitted(s.calls[c]) && TallyOf(s.trail, c).started == 1
      && i > 0 && s.trail[i - 1].Logged? && s.trail[i - 1].row.call == c && s.trail[i - 1].row.result == Pending
  {
    StartedCounted(s.trail, i);
    assert s.trail[i].call < |s.calls| && CallInv(s, s.trail[i].call);
  }

  lemma {:induction false} StartedCounted(trail: seq<Event>, i: nat)
    requires i < |trail| && trail[i].Started?
    ensures TallyOf(trail, trail[i].call).started > 0
  {
    if i < |trail| - 1 {
      StartedCounted(trail[..|trail| - 1], i);
    }
  }

  // ---- What the rows say.

  predicate PassesGuards(op: Op) {
    op.Arrive? && op.arrival.rateAllowed && op.arrival.loop != LoopBlock
  }

  /** The operation takes its call on to the screening. */
  predicate LetsThrough(op: Op) {
    || (PassesGuards(op) && (op.arrival.action == AutoApprove || op.arrival.action == Allow))
    || (op.Answered? && op.answer == Approved)
  }

  /** The call that the operation concerns. */
  function CallOfOp(s: State, op: Op): nat {
    if op.Arrive? then |s.calls| else op.call
  }

  /** `op`, performed in state `s`, is a cause of a row with this result for call `c`. */
  ghost predicate Causes(s: State, op: Op, c: nat, result: Result) {
    && Enabled(s, op) && c == CallOfOp(s, op)
    && match result
       case BlockedByRateLimit => op.Arrive? && !op.arrival.rateAllowed
       case BlockedByLoopGuard => op.Arrive? && op.arrival.rateAllowed && op.arrival.loop == LoopBlock
       case LoopGuardWarning => op.Arrive? && op.arrival.rateAllowed && op.arrival.loop == LoopWarn
       case DeniedByUser => op.Answered? && op.answer == Denied
       case Pending => LetsThrough(op) && !op.screening.moderationBlocks && op.screening.handlerExists
       case Success => op == HandlerEnds(c, Returned(true, false))
       case BlockedByPolicy =>
         || (PassesGuards(op) && op.arrival.action == Block)
         || (LetsThrough(op) && op.screening.moderationBlocks)
         || (op.HandlerEnds? && op.outcome.Returned? && op.outcome.outputBlocked)
       case Failure =>
         || (LetsThrough(op) && !op.screening.moderationBlocks && !op.screening.handlerExists)
         || op == HandlerEnds(c, Threw)
         || op == HandlerEnds(c, Returned(false, false))
  }

  ghost predicate CausesRow(s: State, op: Op, row: Row) {
    Causes(s, op, row.call, row.result)
  }

  ghost predicate AddsCaused(s: State, s': State, op: Op) {
    && s.trail <= s'.trail
    && forall i :: |s.trail| <= i < |s'.trail| && s'.trail[i].Logged? ==> CausesRow(s, op, s'.trail[i].row)
  }

  lemma BeginCauses(s: State, a: Arrival, sc: Screening)
    ensures AddsCaused(s, Begin(s, a, sc), Arrive(a, sc))
  {
    if a.rateAllowed && a.loop != LoopBlock {
      var s1 := if a.loop == LoopWarn then LogFresh(s, |s.calls|, LoopGuardWarning, Allow) else s;
      DecideCauses(s1, a, sc);
      assert s.trail <= s1.trail;
    }
  }

  lemma DecideCauses(s: State, a: Arrival, sc: Screening)
    requires a.rateAllowed && a.loop != LoopBlock
    ensures AddsCaused(s, Decide(s, |s.calls|, a.action, sc), Arrive(a, sc))
  { }

  lemma StepCauses(s: State, op: Op)
    ensures AddsCaused(s, Step(s, op), op)
  {
    if op.Arrive? {
      BeginCauses(s, op.arrival, op.screening);
    }
  }

  /** Operation `k` of the run added the event at position `i`. */
  ghost predicate AddsAt(ops: seq<Op>, k: int, i: int) {
    0 <= k < |ops| && |Run(ops[..k]).trail| <= i < |Run(ops[..k + 1]).trail|
  }

  /** Every row was added by the operation that is the cause its result names, and that concerns its call. */
  lemma {:induction false} EveryRowHasItsCause(ops: seq<Op>, i: nat) returns (k: nat)
    requires i < |Run(ops).trail| && Run(ops).trail[i].Logged?
    ensures AddsAt(ops, k, i) && CausesRow(Run(ops[..k]), ops[k], Run(ops).trail[i].row)
  {
    var n := |ops| - 1;
    var before := Run(ops[..n]);
    StepCauses(before, ops[n]);
    if i < |before.trail| {
      k := EveryRowHasItsCause(ops[..n], i);
      assert ops[..n][..k] == ops[..k] && ops[..n][..k + 1] == ops[..k + 1] && ops[k] == ops[..n][k];
    } else {
      k := n;
      assert ops[..n + 1] == ops;
    }
  }

  // ---- What every operation leaves behind.

  predicate IsRow(e: Event, c: nat, result: Result) {
    e.Logged? && e.row.call == c && e.row.result == result
  }

  /** The number of rows of call `c` with this result. */
  function RowsOf(trail: seq<Event>, c: nat, result: Result): nat {
    if trail == [] then 0
    else RowsOf(trail[..|trail| - 1], c, result) + if IsRow(trail[|trail| - 1], c, result) then 1 else 0
  }

  lemma RowsSnoc(trail: seq<Event>, e: Event, c: nat, result: Result)
    ensures RowsOf(trail + [e], c, result) == RowsOf(trail, c, result) + if IsRow(e, c, result) then 1 else 0
  {
    assert (trail + [e])[..|trail|] == trail;
  }

  lemma {:induction false} RowsAppend(trail: seq<Event>, more: seq<Event>, c: nat, result: Result)
    ensures RowsOf(trail + more, c, result) == RowsOf(trail, c, result) + RowsOf(more, c, result)
  {
    if more == [] {
      assert trail + more == trail;
    } else {
      var n := |more| - 1;
      RowsAppend(trail, more[..n], c, result);
      assert (trail + more)[..|trail + more| - 1] == trail + more[..n];
    }
  }

  predicate ScreenedAs(sc: Screening, result: Result) {
    || (result == BlockedByPolicy && sc.moderationBlocks)
    || (result == Failure && !sc.moderationBlocks && !sc.handlerExists)
    || (result == Pending && !sc.moderationBlocks && sc.handlerExists)
  }

  lemma LogRows(s: State, id: nat, call: nat, r: Result, decision: Policy, c: nat, result: Result)
    ensures RowsOf(Log(s, id, call, r, decision).trail, c, result)
      == RowsOf(s.trail, c, result) + if c == call && result == r then 1 else 0
  {
    RowsSnoc(s.trail, Logged(Row(id, call, r, decision)), c, result);
  }

  lemma ProceedRows(s: State, d: nat, call: Call, sc: Screening, c: nat, result: Result)
    requires d <= |s.calls|
    ensures RowsOf(Proceed(s, d, call, sc).trail, c, result)
      == RowsOf(s.trail, c, result) + if c == d && ScreenedAs(sc, result) then 1 else 0
  {
    if sc.moderationBlocks {
      LogRows(s, call.baseId, d, BlockedByPolicy, call.action, c, result);
    } else if !sc.handlerExists {
      LogRows(s, call.baseId, d, Failure, call.action, c, result);
    } else {
      LogRows(s, s.nextId, d, Pending, call.action, c, result);
      RowsSnoc(LogFresh(s, d, Pending, call.action).trail, Started(d), c, result);
    }
  }

  predicate DecidedAs(action: Policy, sc: Screening, result: Result) {
    if action == Block then result == BlockedByPolicy else action != Confirm && ScreenedAs(sc, result)
  }

  lemma DecideRows(s: State, action: Policy, sc: Screening, c: nat, result: Result)
    ensures RowsOf(Decide(s, |s.calls|, action, sc).trail, c, result)
      == RowsOf(s.trail, c, result) + if c == |s.calls| && DecidedAs(action, sc, result) then 1 else 0
  {
    var d, s2 := |s.calls|, s.(nextId := s.nextId + 1);
    DecideTrail(s, action, sc);
    if action == Block {
      LogRows(s2, s.nextId, d, BlockedByPolicy, Block, c, result);
    } else if action != Confirm {
      ProceedRows(s2, d, Call(AwaitingConfirm, action, s.nextId, false), sc, c, result);
    }
  }

  lemma DecideTrail(s: State, action: Policy, sc: Screening)
    ensures var d, s2 := |s.calls|, s.(nextId := s.nextId + 1);
      Decide(s, d, action, sc).trail
      == if action == Block then Log(s2, s.nextId, d, BlockedByPolicy, Block).trail
         else if action == Confirm then s.trail
         else Proceed(s2, d, Call(AwaitingConfirm, action, s.nextId, false), sc).trail
  { }

  predicate BegunAs(a: Arrival, sc: Screening, result: Result) {
    if !a.rateAllowed then result == BlockedByRateLimit
    else if result == LoopGuardWarning then a.loop == LoopWarn
    else if a.loop == LoopBlock then result == BlockedByLoopGuard
    else DecidedAs(a.action, sc, result)
  }

  lemma BeginRows(s: State, a: Arrival, sc: Screening, c: nat, result: Result)
    ensures RowsOf(Begin(s, a, sc).trail, c, result)
      == RowsOf(s.trail, c, result) + if c == |s.calls| && BegunAs(a, sc, result) then 1 else 0
  {
    var d := |s.calls|;
    if !a.rateAllowed {
      LogRows(s, s.nextId, d, BlockedByRateLimit, Block, c, result);
    } else if a.loop == LoopWarn {
      LogRows(s, s.nextId, d, LoopGuardWarning, Allow, c, result);
      DecideRows(LogFresh(s, d, LoopGuardWarning, Allow), a.action, sc, c, result);
    } else if a.loop == LoopBlock {
      LogRows(s, s.nextId, d, BlockedByLoopGuard, Block, c, result);
    } else {
      DecideRows(s, a.action, sc, c, result);
    }
  }

  predicate AnsweredAs(answer: Answer, sc: Screening, result: Result) {
    if answer == Approved then ScreenedAs(sc, result) else answer == Denied && result == DeniedByUser
  }

  lemma ReplyRows(s: State, d: nat, answer: Answer, sc: Screening, c: nat, result: Result)
    requires d < |s.calls|
    ensures RowsOf(Reply(s, d, answer, sc).trail, c, result)
      == RowsOf(s.trail, c, result) + if c == d && AnsweredAs(answer, sc, result) then 1 else 0
  {
    if answer == Approved {
      ProceedRows(s, d, s.calls[d].(approved := true), sc, c, result);
    } else if answer == Denied {
      LogRows(s, s.calls[d].baseId, d, DeniedByUser, s.calls[d].action, c, result);
    }
  }

  predicate EndedAs(o: Outcome, result: Result) {
    || (result == Failure && (o == Threw || o == Returned(false, false)))
    || (result == Success && o == Returned(true, false))
    || (result == BlockedByPolicy && o.Returned? && o.outputBlocked)
  }

  lemma CompleteRows(s: State, d: nat, o: Outcome, c: nat, result: Result)
    requires d < |s.calls|
    ensures RowsOf(Complete(s, d, o).trail, c, result)
      == RowsOf(s.trail, c, result) + if c == d && EndedAs(o, result) then 1 else 0
  {
    var id := if o.Threw? then s.nextId else s.calls[d].baseId;
    var r := if o.Threw? then Failure
             else if o.outputBlocked then BlockedByPolicy
             else if o.success then Success else Failure;
    LogRows(s, id, d, r, s.calls[d].action, c, result);
  }

  lemma ArrivalCauses(s: State, a: Arrival, sc: Screening, c: nat, result: Result)
    ensures Causes(s, Arrive(a, sc), c, result) <==> c == |s.calls| && BegunAs(a, sc, result)
  { }

  lemma AnswerCauses(s: State, d: nat, answer: Answer, sc: Screening, c: nat, result: Result)
    requires Enabled(s, Answered(d, answer, sc))
    ensures Causes(s, Answered(d, answer, sc), c, result) <==> c == d && AnsweredAs(answer, sc, result)
  { }

  lemma EndCauses(s: State, d: nat, o: Outcome, c: nat, result: Result)
    requires Enabled(s, HandlerEnds(d, o))
    ensures Causes(s, HandlerEnds(d, o), c, result) <==> c == d && EndedAs(o, result)
  { }

  /** An operation adds, to each call and for each result, one row if it is a cause of such a row, and otherwise
      none. */
  lemma StepRows(s: State, op: Op, c: nat, result: Result)
    ensures RowsOf(Step(s, op).trail, c, result)
      == RowsOf(s.trail, c, result) + if Causes(s, op, c, result) then 1 else 0
  {
    if Enabled(s, op) {
      match op
      case Arrive(a, sc) =>
        BeginRows(s, a, sc, c, result);
        ArrivalCauses(s, a, sc, c, result);
      case Answered(d, answer, sc) =>
        ReplyRows(s, d, answer, sc, c, result);
        AnswerCauses(s, d, answer, sc, c, result);
      case HandlerEnds(d, o) =>
        CompleteRows(s, d, o, c, result);
        EndCauses(s, d, o, c, result);
    }
  }

  /** The operations of a run that are a cause of such a row. */
  ghost function CauseCount(ops: seq<Op>, c: nat, result: Result): nat {
    if ops == [] then 0
    else
      var n := |ops| - 1;
      CauseCount(ops[..n], c, result) + if Causes(Run(ops[..n]), ops[n], c, result) then 1 else 0
  }

  /** Over every interleaving the trail holds, for each call and each result, as many rows as there were
      causes. */
  lemma {:induction false} RowsAreCauses(ops: seq<Op>, c: nat, result: Result)
    ensures RowsOf(Run(ops).trail, c, result) == CauseCount(ops, c, result)
  {
    if ops != [] {
      var n := |ops| - 1;
      RowsAreCauses(ops[..n], c, result);
      StepRows(Run(ops[..n]), ops[n], c, result);
    }
  }

  lemma {:induction false} TheRow(trail: seq<Event>, c: nat, result: Result) returns (i: nat)
    requires RowsOf(trail, c, result) == 1
    ensures i < |trail| && IsRow(trail[i], c, result)
    ensures forall j :: 0 <= j < |trail| && IsRow(trail[j], c, result) ==> j == i
  {
    var n := |trail| - 1;
    if IsRow(trail[n], c, result) {
      i := n;
      forall j | 0 <= j < n && IsRow(trail[j], c, result) ensures false {
        RowCounted(trail[..n], j, c, result);
      }
    } else {
      i := TheRow(trail[..n], c, result);
    }
  }

  lemma {:induction false} RowCounted(trail: seq<Event>, j: nat, c: nat, result: Result)
    requires j < |trail| && IsRow(trail[j], c, result)
    ensures RowsOf(trail, c, result) > 0
  {
    if j < |trail| - 1 {
      RowCounted(trail[..|trail| - 1], j, c, result);
    }
  }

  lemma TrailStep(ops: seq<Op>, k: nat)
    requires k < |ops|
    ensures Run(ops[..k + 1]) == Step(Run(ops[..k]), ops[k]) && Run(ops[..k]).trail <= Run(ops[..k + 1]).trail
  {
    assert ops[..k + 1][..k] == ops[..k];
    StepCauses(Run(ops[..k]), ops[k]);
  }

  lemma {:induction false} TrailGrows(ops: seq<Op>, k: nat)
    requires k <= |ops|
    ensures Run(ops[..k]).trail <= Run(ops).trail
    decreases |ops| - k
  {
    if k < |ops| {
      TrailStep(ops, k);
      TrailGrows(ops, k + 1);
    } else {
      assert ops[..k] == ops;
    }
  }

  /** The one row by which `after` has more than `before`. */
  lemma TheNewRow(before: seq<Event>, after: seq<Event>, all: seq<Event>, c: nat, result: Result) returns (i: nat)
    requires before <= after <= all && RowsOf(after, c, result) == RowsOf(before, c, result) + 1
    ensures |before| <= i < |after| && IsRow(all[i], c, result)
    ensures forall j :: |before| <= j < |after| && IsRow(all[j], c, result) ==> j == i
  {
    var more := after[|before|..];
    assert after == before + more;
    RowsAppend(before, more, c, result);
    var n := TheRow(more, c, result);
    i := |before| + n;
    forall j | |before| <= j < |after| && IsRow(all[j], c, result) ensures j == i {
      assert more[j - |before|] == all[j];
    }
  }

  /** Every cause has its row: the operation added exactly one row with that result for its call, and a
      loop-guard warning before anything else. */
  lemma EveryCauseHasItsRow(ops: seq<Op>, k: nat, c: nat, result: Result) returns (i: nat)
    requires k < |ops| && Causes(Run(ops[..k]), ops[k], c, result)
    ensures AddsAt(ops, k, i) && i < |Run(ops).trail| && IsRow(Run(ops).trail[i], c, result)
    ensures forall j :: AddsAt(ops, k, j) && j < |Run(ops).trail| && IsRow(Run(ops).trail[j], c, result) ==> j == i
    ensures result == LoopGuardWarning ==> i == |Run(ops[..k]).trail|
  {
    var s := Run(ops[..k]);
    TrailStep(ops, k);
    StepRows(s, ops[k], c, result);
    TrailGrows(ops, k + 1);
    i := TheNewRow(s.trail, Run(ops[..k + 1]).trail, Run(ops).trail, c, result);
    if result == LoopGuardWarning {
      WarningFirst(s, ops[k].arrival, ops[k].screening);
    }
  }

  lemma WarningFirst(s: State, a: Arrival, sc: Screening)
    requires a.rateAllowed && a.loop == LoopWarn
    ensures var trail := Begin(s, a, sc).trail;
      |trail| > |s.trail| && IsRow(trail[|s.trail|], |s.calls|, LoopGuardWarning)
  {
    var s1 := LogFresh(s, |s.calls|, LoopGuardWarning, Allow);
    DecideCauses(s1, a, sc);
    assert s1.trail <= Begin(s, a, sc).trail;
  }

  /** The operation leaves its call in this stage. */
  predicate LeavesIn(op: Op, stage: Stage) {
    match stage
    case AwaitingConfirm => PassesGuards(op) && op.arrival.action == Confirm
    case Running => LetsThrough(op) && !op.screening.moderationBlocks && op.screening.handlerExists
    case Finished(e) =>
      match e
      case Ran => op.HandlerEnds?
      case ConfirmFailed => op.Answered? && op.answer == Rejected
      case Refused =>
        || (op.Arrive? && (!PassesGuards(op) || op.arrival.action == Block))
        || (op.Answered? && op.answer == Denied)
        || (LetsThrough(op) && (op.screening.moderationBlocks || !op.screening.handlerExists))
  }

  lemma OneStage(op: Op, stage: Stage, other: Stage)
    requires LeavesIn(op, stage) && LeavesIn(op, other)
    ensures stage == other
  { }

  lemma ProceedStage(s: State, c: nat, call: Call, sc: Screening) returns (stage: Stage)
    requires c <= |s.calls|
    ensures OnlyCall(s.calls, Proceed(s, c, call, sc).calls, c, call.(stage := stage))
    ensures stage == if sc.moderationBlocks || !sc.handlerExists then Finished(Refused) else Running
  {
    stage := if sc.moderationBlocks || !sc.handlerExists then Finished(Refused) else Running;
  }

  lemma BeginStage(s: State, a: Arrival, sc: Screening) returns (call: Call)
    ensures OnlyCall(s.calls, Begin(s, a, sc).calls, |s.calls|, call)
    ensures LeavesIn(Arrive(a, sc), call.stage) && !call.approved
    ensures call.action == if PassesGuards(Arrive(a, sc)) then a.action else Block
  {
    var c := |s.calls|;
    var s1 := if a.loop == LoopWarn then LogFresh(s, c, LoopGuardWarning, Allow) else s;
    if !a.rateAllowed {
      call := Call(Finished(Refused), Block, s.nextId, false);
    } else if a.loop == LoopBlock {
      call := Call(Finished(Refused), Block, s1.nextId, false);
    } else {
      call := Call(AwaitingConfirm, a.action, s1.nextId, false);
      if a.action == Block {
        call := call.(stage := Finished(Refused));
      } else if a.action != Confirm {
        var stage := ProceedStage(s1.(nextId := s1.nextId + 1), c, call, sc);
        call := call.(stage := stage);
      }
    }
  }

  lemma ReplyStage(s: State, c: nat, answer: Answer, sc: Screening) returns (call: Call)
    requires c < |s.calls|
    ensures OnlyCall(s.calls, Reply(s, c, answer, sc).calls, c, call)
    ensures LeavesIn(Answered(c, answer, sc), call.stage)
    ensures call.approved == (answer == Approved || s.calls[c].approved) && call.action == s.calls[c].action
  {
    call := s.calls[c];
    match answer
    case Rejected => call := call.(stage := Finished(ConfirmFailed));
    case Denied => call := call.(stage := Finished(Refused));
    case Approved =>
      var stage := ProceedStage(s, c, call.(approved := true), sc);
      call := call.(approved := true, stage := stage);
  }

  /** Every enabled operation takes its own call on and no other: into the one stage that its guards, answer and
      outcome name; a call is approved only by an answer, and acts under the decision it arrived with. */
  lemma OneCallMoves(s: State, op: Op) returns (call: Call)
    requires Enabled(s, op)
    ensures OnlyCall(s.calls, Step(s, op).calls, CallOfOp(s, op), call)
    ensures forall stage :: call.stage == stage <==> LeavesIn(op, stage)
    ensures call.action
      == if !op.Arrive? then s.calls[op.call].action else if PassesGuards(op) then op.arrival.action else Block
    ensures call.approved
      == ((op.Answered? && op.answer == Approved) || (!op.Arrive? && s.calls[op.call].approved))
  {
    match op {
      case Arrive(a, sc) => call := BeginStage(s, a, sc);
      case Answered(c, answer, sc) => call := ReplyStage(s, c, answer, sc);
      case HandlerEnds(c, o) => call := s.calls[c].(stage := Finished(Ran));
    }
    forall stage | LeavesIn(op, stage) ensures call.stage == stage {
      OneStage(op, call.stage, stage);
    }
  }

  /** The end of a handler, whatever happened before: the call has run, and one row with the result that the
      outcome names is added, under a new id when the handler threw and else under the call's own. */
  lemma HandlerEndIsLogged(ops: seq<Op>, c: nat, o: Outcome)
    requires Enabled(Run(ops), HandlerEnds(c, o))
    ensures var s, s' := Run(ops), Run(ops + [HandlerEnds(c, o)]);
      && |s'.trail| == |s.trail| + 1 && s.trail <= s'.trail && s'.calls[c].stage == Finished(Ran)
      && var e := s'.trail[|s.trail|];
      && e.Logged? && e.row.call == c && e.row.decision == s.calls[c].action
      && (o.Threw? ==> e.row.result == Failure && e.row.id != s.calls[c].baseId)
      && (o.Returned? ==> e.row.id == s.calls[c].baseId)
      && (o.Returned? && o.outputBlocked ==> e.row.result == BlockedByPolicy)
      && (o.Returned? && !o.outputBlocked ==> e.row.result == if o.success then Success else Failure)
  {
    RunSnoc(ops, HandlerEnds(c, o));
    RunKeeps(ops);
    assert Holds(Run(ops).calls, c, Run(ops).calls[c].baseId);
  }

  lemma RunSnoc(ops: seq<Op>, op: Op)
    ensures Run(ops + [op]) == Step(Run(ops), op)
  {
    assert (ops + [op])[..|ops|] == ops;
  }

  /** What a row promises about its call, for good. */
  ghost predicate Tells(call: Call, row: Row) {
    && row.decision == (if row.result == LoopGuardWarning then Allow else call.action)
    && (row.result == DeniedByUser ==> call.action == Confirm && !call.approved && call.stage == Finished(Refused))
    && (row.result == Success ==> call.stage == Finished(Ran))
    && (row.result == Pending ==> Permitted(call) && (call.stage == Running || call.stage == Finished(Ran)))
    && (row.result == BlockedByRateLimit || row.result == BlockedByLoopGuard ==>
        call.action == Block && call.stage == Finished(Refused))
    && (row.result == BlockedByPolicy || row.result == Failure ==> call.action == Block || Permitted(call))
    && (Closes(row.result) ==> call.stage == Finished(Refused) || call.stage == Finished(Ran))
    && (row.result == DeniedByUser || row.result == BlockedByPolicy || row.result == Success ==>
        row.id == call.baseId)
    && (row.result == Failure && call.stage == Finished(Refused) ==> row.id == call.baseId)
  }

  ghost predicate AllTell(call: Call, events: seq<Event>) {
    forall i :: 0 <= i < |events| && events[i].Logged? ==> Tells(call, events[i].row)
  }

  ghost predicate Truthful(s: State) {
    forall i :: 0 <= i < |s.trail| && s.trail[i].Logged? ==>
      s.trail[i].row.call < |s.calls| && Tells(s.calls[s.trail[i].row.call], s.trail[i].row)
  }

  /** An unfinished call moves on; its rows and the new ones stay true. */
  lemma MoveTells(s: State, s': State, c: nat, call: Call, events: seq<Event>)
    requires Truthful(s) && Moves(s, s', c, call, events)
    requires c < |s.calls| ==> call.action == s.calls[c].action && !s.calls[c].stage.Finished?
    requires c < |s.calls| ==> call.baseId == s.calls[c].baseId
    requires c < |s.calls| && s.calls[c].stage == Running ==> call == s.calls[c].(stage := Finished(Ran))
    requires AllTell(call, events)
    ensures Truthful(s')
  {
    forall i | 0 <= i < |s'.trail| && s'.trail[i].Logged?
      ensures s'.trail[i].row.call < |s'.calls| && Tells(s'.calls[s'.trail[i].row.call], s'.trail[i].row)
    {
      var row := s'.trail[i].row;
      if i >= |s.trail| {
        assert s'.trail[i] == events[i - |s.trail|];
        assert CallOf(s'.trail[i]) == c;
      } else {
        assert s'.trail[i] == s.trail[i] && row.call < |s.calls| && Tells(s.calls[row.call], row);
      }
    }
  }

  lemma DecideMoves(s: State, action: Policy, sc: Screening) returns (call: Call, events: seq<Event>)
    ensures Moves(s, Decide(s, |s.calls|, action, sc), |s.calls|, call, events)
    ensures |events| <= 2 && AllTell(call, events)
  {
    var c := |s.calls|;
    call := Call(AwaitingConfirm, action, s.nextId, false);
    var s2 := s.(nextId := s.nextId + 1);
    if action == Block {
      call := call.(stage := Finished(Refused));
      events := [Logged(Row(s.nextId, c, BlockedByPolicy, Block))];
    } else if action == Confirm {
      events := [];
      assert s2.trail + [] == s2.trail;
    } else {
      call, events := ProceedMoves(s2, c, call, sc);
    }
  }

  lemma BeginMoves(s: State, a: Arrival, sc: Screening) returns (call: Call, events: seq<Event>)
    ensures Moves(s, Begin(s, a, sc), |s.calls|, call, events) && AllTell(call, events)
  {
    var c := |s.calls|;
    if !a.rateAllowed {
      call, events :=
        Call(Finished(Refused), Block, s.nextId, false), [Logged(Row(s.nextId, c, BlockedByRateLimit, Block))];
    } else {
      var s1 := if a.loop == LoopWarn then LogFresh(s, c, LoopGuardWarning, Allow) else s;
      var warning := if a.loop == LoopWarn then [Logged(Row(s.nextId, c, LoopGuardWarning, Allow))] else [];
      assert s1.trail == s.trail + warning;
      if a.loop == LoopBlock {
        call, events :=
          Call(Finished(Refused), Block, s1.nextId, false), [Logged(Row(s1.nextId, c, BlockedByLoopGuard, Block))];
      } else {
        call, events := DecideMoves(s1, a.action, sc);
      }
      assert s.trail + warning + events == s.trail + (warning + events);
      events := warning + events;
    }
  }

  lemma StepTells(s: State, op: Op)
    requires Inv(s) && Truthful(s)
    ensures Truthful(Step(s, op))
  {
    if Enabled(s, op) {
      match op
      case Arrive(a, sc) =>
        var call, events := BeginMoves(s, a, sc);
        MoveTells(s, Step(s, op), |s.calls|, call, events);
      case Answered(c, answer, sc) => ReplyTells(s, c, answer, sc);
      case HandlerEnds(c, o) => CompleteTells(s, c, o);
    }
  }

  lemma ReplyTells(s: State, c: nat, answer: Answer, sc: Screening)
    requires Inv(s) && Truthful(s) && c < |s.calls| && s.calls[c].stage == AwaitingConfirm
    ensures Truthful(Reply(s, c, answer, sc))
  {
    assert CallInv(s, c);
    var call, events := s.calls[c], [];
    match answer
    case Rejected =>
      assert s.trail + events == s.trail;
      MoveTells(s, Reply(s, c, answer, sc), c, call.(stage := Finished(ConfirmFailed)), events);
    case Denied =>
      events := [Logged(Row(call.baseId, c, DeniedByUser, call.action))];
      MoveTells(s, Reply(s, c, answer, sc), c, call.(stage := Finished(Refused)), events);
    case Approved =>
      call, events := ProceedMoves(s, c, call.(approved := true), sc);
      MoveTells(s, Reply(s, c, answer, sc), c, call, events);
  }

  lemma CompleteTells(s: State, c: nat, o: Outcome)
    requires Inv(s) && Truthful(s) && c < |s.calls| && s.calls[c].stage == Running
    ensures Truthful(Complete(s, c, o))
  {
    assert CallInv(s, c);
    var call := s.calls[c].(stage := Finished(Ran));
    var id := if o.Threw? then s.nextId else call.baseId;
    var r := if o.Threw? then Failure
             else if o.outputBlocked then BlockedByPolicy
             else if o.success then Success else Failure;
    MoveTells(s, Complete(s, c, o), c, call, [Logged(Row(id, c, r, call.action))]);
  }

  /** Over every interleaving the trail tells the truth: a denial stands only for a call that was to be
      confirmed, was not approved and never ran; a success only for one that ran to its end; a pending row
      only for one that was permitted; every row names the call's own decision; and the row of a denial, of a
      refusal by policy or of a success carries the call's own id. */
  lemma {:induction false} TrailTellsTruth(ops: seq<Op>)
    ensures Truthful(Run(ops))
  {
    if ops != [] {
      TrailTellsTruth(ops[..|ops| - 1]);
      RunKeeps(ops[..|ops| - 1]);
      StepTells(Run(ops[..|ops| - 1]), ops[|ops| - 1]);
    }
  }

  /** The handlers in flight, by the calls' own state. */
  function InFlight(calls: seq<Call>): nat {
    if calls == [] then 0
    else InFlight(calls[..|calls| - 1]) + if calls[|calls| - 1].stage == Running then 1 else 0
  }

  /** The pending rows, and the closing rows of calls that started, summed over the first `n`
      calls, as an auditor reads them off the trail. */
  function Opened(trail: seq<Event>, n: nat): nat {
    if n == 0 then 0 else Opened(trail, n - 1) + TallyOf(trail, n - 1).pending
  }

  function ClosedStarted(trail: seq<Event>, n: nat): nat {
    if n == 0 then 0
    else ClosedStarted(trail, n - 1) + if TallyOf(trail, n - 1).pending > 0 then TallyOf(trail, n - 1).closing else 0
  }

  lemma {:induction false} FlightBalance(s: State, n: nat)
    requires Inv(s) && n <= |s.calls|
    ensures Opened(s.trail, n) - ClosedStarted(s.trail, n) == InFlight(s.calls[..n])
  {
    if n > 0 {
      FlightBalance(s, n - 1);
      assert s.calls[..n][..n - 1] == s.calls[..n - 1];
      assert CallInv(s, n - 1);
    }
  }

  function PendingRows(trail: seq<Event>): nat {
    if trail == [] then 0
    else
      var e := trail[|trail| - 1];
      PendingRows(trail[..|trail| - 1]) + if e.Logged? && e.row.result == Pending then 1 else 0
  }

  ghost predicate CallsBelow(trail: seq<Event>, n: nat) {
    forall i :: 0 <= i < |trail| ==> CallOf(trail[i]) < n
  }

  lemma {:induction false} OpenedSnoc(trail: seq<Event>, e: Event, n: nat)
    ensures Opened(trail + [e], n)
      == Opened(trail, n) + if e.Logged? && e.row.result == Pending && e.row.call < n then 1 else 0
  {
    if n > 0 {
      OpenedSnoc(trail, e, n - 1);
      TallySnoc(trail, e, n - 1);
    }
  }

  lemma {:induction false} OpenedEmpty(n: nat)
    ensures Opened([], n) == 0
  {
    if n > 0 { OpenedEmpty(n - 1); }
  }

  /** Summing over calls counts every pending row. */
  lemma {:induction false} OpenedCountsRows(trail: seq<Event>, n: nat)
    requires CallsBelow(trail, n)
    ensures Opened(trail, n) == PendingRows(trail)
  {
    if trail == [] {
      OpenedEmpty(n);
    } else {
      var m := |trail| - 1;
      assert forall i :: 0 <= i < m ==> trail[..m][i] == trail[i];
      OpenedCountsRows(trail[..m], n);
      OpenedSnoc(trail[..m], trail[m], n);
      assert trail == trail[..m] + [trail[m]];
      assert CallOf(trail[m]) < n;
    }
  }

  lemma ProceedCallsBelow(s: State, c: nat, call: Call, sc: Screening)
    requires c <= |s.calls| && CallsBelow(s.trail, |s.calls|)
    ensures CallsBelow(Proceed(s, c, call, sc).trail, |Proceed(s, c, call, sc).calls|)
  { }

  lemma BeginCallsBelow(s: State, a: Arrival, sc: Screening)
    requires CallsBelow(s.trail, |s.calls|)
    ensures CallsBelow(Begin(s, a, sc).trail, |Begin(s, a, sc).calls|)
  {
    var c := |s.calls|;
    if a.rateAllowed && a.loop != LoopBlock && a.action != Block && a.action != Confirm {
      var s1 := if a.loop == LoopWarn then LogFresh(s, c, LoopGuardWarning, Allow) else s;
      ProceedBelowNew(s1.(nextId := s1.nextId + 1), Call(AwaitingConfirm, a.action, s1.nextId, false), sc);
    }
  }

  lemma ProceedBelowNew(s: State, call: Call, sc: Screening)
    requires CallsBelow(s.trail, |s.calls| + 1)
    ensures CallsBelow(Proceed(s, |s.calls|, call, sc).trail, |s.calls| + 1)
  { }

  lemma StepCallsBelow(s: State, op: Op)
    requires CallsBelow(s.trail, |s.calls|)
    ensures CallsBelow(Step(s, op).trail, |Step(s, op).calls|)
  {
    if Enabled(s, op) {
      match op
      case Arrive(a, sc) => BeginCallsBelow(s, a, sc);
      case Answered(c, answer, sc) => ProceedCallsBelow(s, c, s.calls[c].(approved := true), sc);
      case HandlerEnds(c, o) =>
    }
  }

  lemma {:induction false} RunCallsBelow(ops: seq<Op>)
    ensures CallsBelow(Run(ops).trail, |Run(ops).calls|)
  {
    if ops != [] {
      RunCallsBelow(ops[..|ops| - 1]);
      StepCallsBelow(Run(ops[..|ops| - 1]), ops[|ops| - 1]);
    }
  }

  /** All pending rows in the trail, less the closing rows of the calls they belong to, are the
      handlers in flight. */
  lemma AuditAccounting(ops: seq<Op>)
    ensures var s := Run(ops);
      PendingRows(s.trail) - ClosedStarted(s.trail, |s.calls|) == InFlight(s.calls)
  {
    var s := Run(ops);
    RunKeeps(ops);
    RunCallsBelow(ops);
    FlightBalance(s, |s.calls|);
    OpenedCountsRows(s.trail, |s.calls|);
    assert s.calls[..|s.calls|] == s.calls;
  }

  // ---- The code between awaits.

  class Executor {
    var trail: seq<Event>
    var calls: seq<Call>
    var nextId: nat

    ghost function Model(): State
      reads this
    {
      State(trail, calls, nextId)
    }

    constructor ()
      ensures Model() == EMPTY
    {
      trail, calls, nextId := [], [], 0;
    }

    method RandomUuid() returns (id: nat)
      modifies this`nextId
      ensures id == old(nextId) && nextId == id + 1
    {
      id := nextId;
      nextId := nextId + 1;
    }

    method AuditLog(row: Row)
      modifies this`trail
      ensures trail == old(trail) + [Logged(row)]
    {
      trail := trail + [Logged(row)];
    }

    method Execute(a: Arrival, sc: Screening)
      modifies this
      ensures Model() == Step(old(Model()), Arrive(a, sc))
    {
      var c := |calls|;
      if !a.rateAllowed {
        var id := RandomUuid();
        AuditLog(Row(id, c, BlockedByRateLimit, Block));
        calls := calls + [Call(Finished(Refused), Block, id, false)];
        return;
      }
      if a.loop == LoopWarn {
        var id := RandomUuid();
        AuditLog(Row(id, c, LoopGuardWarning, Allow));
      }
      if a.loop == LoopBlock {
        var id := RandomUuid();
        AuditLog(Row(id, c, BlockedByLoopGuard, Block));
        calls := calls + [Call(Finished(Refused), Block, id, false)];
        return;
      }
      var baseId := RandomUuid();
      var call := Call(AwaitingConfirm, a.action, baseId, false);
      if a.action == Block {
        AuditLog(Row(baseId, c, BlockedByPolicy, Block));
        calls := calls + [call.(stage := Finished(Refused))];
        return;
      }
      if a.action == Confirm {
        calls := calls + [call];
        return;
      }
      calls := calls + [call];
      ScreenAndStart(c, sc);
    }

    method ScreenAndStart(c: nat, sc: Screening)
      requires c < |calls|
      modifies this
      ensures Model() == Proceed(old(Model()), c, old(calls)[c], sc)
    {
      var call := calls[c];
      if sc.moderationBlocks {
        AuditLog(Row(call.baseId, c, BlockedByPolicy, call.action));
        calls := calls[c := call.(stage := Finished(Refused))];
        return;
      }
      if !sc.handlerExists {
        AuditLog(Row(call.baseId, c, Failure, call.action));
        calls := calls[c := call.(stage := Finished(Refused))];
        return;
      }
      var id := RandomUuid();
      AuditLog(Row(id, c, Pending, call.action));
      trail := trail + [Started(c)];
      calls := calls[c := call.(stage := Running)];
    }

    method ConfirmationSettled(c: nat, answer: Answer, sc: Screening)
      requires c < |calls| && calls[c].stage == AwaitingConfirm
      modifies this
      ensures Model() == Step(old(Model()), Answered(c, answer, sc))
    {
      var call := calls[c];
      match answer
      case Rejected =>
        calls := calls[c := call.(stage := Finished(ConfirmFailed))];
      case Denied =>
        AuditLog(Row(call.baseId, c, DeniedByUser, call.action));
        calls := calls[c := call.(stage := Finished(Refused))];
      case Approved =>
        calls := calls[c := call.(approved := true)];
        ScreenAndStart(c, sc);
    }

    method HandlerEnded(c: nat, o: Outcome)
      requires c < |calls| && calls[c].stage == Running
      modifies this
      ensures Model() == Step(old(Model()), HandlerEnds(c, o))
    {
      var call := calls[c];
      if o.Threw? {
        var id := RandomUuid();
        AuditLog(Row(id, c, Failure, call.action));
      } else if o.outputBlocked {
        AuditLog(Row(call.baseId, c, BlockedByPolicy, call.action));
      } else {
        AuditLog(Row(call.baseId, c, if o.success then Success else Failure, call.action));
      }
      calls := calls[c := call.(stage := Finished(Ran))];
    }
  }
}
