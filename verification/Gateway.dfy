/** The pipeline and the confirmation protocol together: a call that needs a confirmation waits on
    a promise of the confirmation server and resumes with the value that the promise gets. */
module Gateway {
  import opened JsText
  import C = Confirmations
  import P = Pipeline

  /** `handleOf` names the promise on which each call that needed a confirmation waits. */
  datatype State = State(hub: C.State, pipe: P.State, handleOf: map<nat, C.Handle>)

  const EMPTY := State(C.EMPTY, P.EMPTY, map[])

  datatype Op =
    | Execute(id: C.Id, announced: bool, arrival: P.Arrival, screening: P.Screening)
    | ConfirmOnly(id: C.Id, announced: bool)
    | Resolve(id: C.Id, approved: bool, source: C.Source)
    | TimerFires(handle: C.Handle)
    | Resume(call: nat, screening: P.Screening)
    | HandlerEnds(call: nat, outcome: P.Outcome)

  /** The operation on the confirmation server that an operation performs, if any. */
  function HubOp(s: State, op: Op): Option<C.Op> {
    match op
    case Execute(id, announced, a, sc) =>
      if Waits(P.Begin(s.pipe, a, sc), |s.pipe.calls|) then Some(C.Request(id, announced)) else None
    case ConfirmOnly(id, announced) => Some(C.Request(id, announced))
    case Resolve(id, approved, source) => Some(C.Resolve(id, approved, source))
    case TimerFires(h) => Some(C.Fire(h))
    case _ => None
  }

  predicate Waits(p: P.State, c: nat) {
    c < |p.calls| && p.calls[c].stage == P.AwaitingConfirm
  }

  /** The promise of a waiting call is settled or rejected. */
  predicate Deliverable(s: State, c: nat) {
    && Waits(s.pipe, c) && c in s.handleOf
    && (s.handleOf[c] in s.hub.settled || s.handleOf[c] in s.hub.rejected)
  }

  function Delivered(s: State, c: nat): P.Answer
    requires Deliverable(s, c)
  {
    if s.handleOf[c] in s.hub.rejected then P.Rejected
    else if s.hub.settled[s.handleOf[c]] then P.Approved
    else P.Denied
  }

  function PipeOp(s: State, op: Op): Option<P.Op> {
    match op
    case Execute(_, _, a, sc) => Some(P.Arrive(a, sc))
    case Resume(c, sc) => if Deliverable(s, c) then Some(P.Answered(c, Delivered(s, c), sc)) else None
    case HandlerEnds(c, o) => Some(P.HandlerEnds(c, o))
    case _ => None
  }

  function Step(s: State, op: Op): State {
    var h, p := HubOp(s, op), PipeOp(s, op);
    State(if h.Some? then C.Step(s.hub, h.value) else s.hub,
          if p.Some? then P.Step(s.pipe, p.value) else s.pipe,
          if op.Execute? && h.Some? then s.handleOf[|s.pipe.calls| := |s.hub.ids|] else s.handleOf)
  }

  function Run(ops: seq<Op>): State {
    if ops == [] then EMPTY else Step(Run(ops[..|ops| - 1]), ops[|ops| - 1])
  }

  // ---- Each side sees a run of its own.

  function HubOps(ops: seq<Op>): seq<C.Op> {
    if ops == [] then []
    else
      var h := HubOp(Run(ops[..|ops| - 1]), ops[|ops| - 1]);
      HubOps(ops[..|ops| - 1]) + if h.Some? then [h.value] else []
  }

  function PipeOps(ops: seq<Op>): seq<P.Op> {
    if ops == [] then []
    else
      var p := PipeOp(Run(ops[..|ops| - 1]), ops[|ops| - 1]);
      PipeOps(ops[..|ops| - 1]) + if p.Some? then [p.value] else []
  }

  lemma {:induction false} SidesRun(ops: seq<Op>)
    ensures Run(ops).hub == C.Run(C.EMPTY, HubOps(ops))
    ensures Run(ops).pipe == P.Run(PipeOps(ops))
  {
    if ops != [] {
      var n := |ops| - 1;
      SidesRun(ops[..n]);
      var h, p := HubOp(Run(ops[..n]), ops[n]), PipeOp(Run(ops[..n]), ops[n]);
      var hs, ps := HubOps(ops[..n]), PipeOps(ops[..n]);
      if h.Some? { C.RunSnoc(C.EMPTY, hs, h.value); } else { assert hs + [] == hs; }
      if p.Some? { P.RunSnoc(ps, p.value); } else { assert ps + [] == ps; }
    }
  }

  // ---- A started call that needed a confirmation was approved.

  /** Calls that wait have a promise, no two calls share one, a call is marked approved only when its
      promise settled true, and it fails at its confirmation exactly when its promise was rejected. */
  ghost predicate Inv(s: State) {
    && C.Inv(s.hub)
    && (forall c :: c in s.handleOf ==> c < |s.pipe.calls| && s.handleOf[c] < |s.hub.ids|)
    && (forall c, d :: c in s.handleOf && d in s.handleOf && s.handleOf[c] == s.handleOf[d] ==> c == d)
    && (forall c: nat :: Waits(s.pipe, c) ==> c in s.handleOf)
    && (forall c: nat :: c < |s.pipe.calls| && s.pipe.calls[c].approved ==> ApprovedBy(s, c))
    && (forall c: nat :: c < |s.pipe.calls| ==> FailureFits(s, c))
  }

  ghost predicate FailureFits(s: State, c: nat)
    requires c < |s.pipe.calls|
  {
    && (s.pipe.calls[c].stage == P.Finished(P.ConfirmFailed) ==> RejectedFor(s, c))
    && (RejectedFor(s, c) ==> s.pipe.calls[c].stage in {P.AwaitingConfirm, P.Finished(P.ConfirmFailed)})
  }

  /** The announcement of call `c` threw. */
  predicate RejectedFor(s: State, c: nat) {
    c in s.handleOf && s.handleOf[c] in s.hub.rejected
  }

  ghost predicate ApprovedBy(s: State, c: nat) {
    c in s.handleOf && s.handleOf[c] in s.hub.settled && s.hub.settled[s.handleOf[c]]
  }

  lemma HubGrows(hub: C.State, op: C.Op)
    ensures |C.Step(hub, op).ids| >= |hub.ids|
    ensures forall h :: h in hub.settled ==>
      h in C.Step(hub, op).settled && C.Step(hub, op).settled[h] == hub.settled[h]
    ensures forall h :: 0 <= h < |hub.ids| ==> (h in C.Step(hub, op).rejected <==> h in hub.rejected)
  { }

  /** A pipeline step leaves every call but one alone, and marks a call approved only when it was
      waiting and is answered so. */
  lemma PipeStepCalls(p: P.State, op: P.Op)
    ensures var p' := P.Step(p, op);
      && |p'.calls| >= |p.calls|
      && (|p'.calls| > |p.calls| ==> op.Arrive? && |p'.calls| == |p.calls| + 1 && !p'.calls[|p.calls|].approved)
      && (forall c: nat :: c < |p.calls| && p'.calls[c] != p.calls[c] ==>
            P.Enabled(p, op) && !op.Arrive? && c == op.call
            && p'.calls[c].stage != P.AwaitingConfirm
            && (p'.calls[c].approved ==> p.calls[c].approved || (op.Answered? && op.answer == P.Approved))
            && (p'.calls[c].stage == P.Finished(P.ConfirmFailed) <==> op.Answered? && op.answer == P.Rejected))
      && (|p'.calls| > |p.calls| ==> p'.calls[|p.calls|].stage != P.Finished(P.ConfirmFailed))
  {
    if op.Arrive? {
      ArrivalAddsCall(p, op.arrival, op.screening);
    }
  }

  lemma ArrivalAddsCall(p: P.State, a: P.Arrival, sc: P.Screening)
    ensures var p' := P.Begin(p, a, sc);
      && |p'.calls| == |p.calls| + 1 && p'.calls[..|p.calls|] == p.calls
      && !p'.calls[|p.calls|].approved && p'.calls[|p.calls|].stage != P.Finished(P.ConfirmFailed)
  {
    var call, events := P.BeginMoves(p, a, sc);
  }

  lemma ApprovalStep(s: State, op: Op, c: nat)
    requires Inv(s) && c < |Step(s, op).pipe.calls| && Step(s, op).pipe.calls[c].approved
    ensures ApprovedBy(Step(s, op), c)
  {
    var h, p := HubOp(s, op), PipeOp(s, op);
    if h.Some? { HubGrows(s.hub, h.value); }
    if p.Some? { PipeStepCalls(s.pipe, p.value); }
    if c < |s.pipe.calls| && s.pipe.calls[c].approved { assert ApprovedBy(s, c); }
  }

  lemma FailureStep(s: State, op: Op, c: nat)
    requires Inv(s) && c < |Step(s, op).pipe.calls|
    ensures FailureFits(Step(s, op), c)
  {
    var h, p := HubOp(s, op), PipeOp(s, op);
    if h.Some? { HubGrows(s.hub, h.value); }
    if p.Some? { PipeStepCalls(s.pipe, p.value); }
    if c < |s.pipe.calls| {
      assert FailureFits(s, c);
    }
  }

  lemma StepInv(s: State, op: Op)
    requires Inv(s)
    ensures Inv(Step(s, op))
  {
    var s' := Step(s, op);
    var h, p := HubOp(s, op), PipeOp(s, op);
    if h.Some? {
      HubGrows(s.hub, h.value);
      C.StepInv(s.hub, h.value);
    }
    if p.Some? { PipeStepCalls(s.pipe, p.value); }
    forall c: nat | c < |s'.pipe.calls| ensures FailureFits(s', c) {
      FailureStep(s, op, c);
    }
    forall c: nat | Waits(s'.pipe, c) ensures c in s'.handleOf {
      if c < |s.pipe.calls| { assert Waits(s.pipe, c); }
    }
    forall c: nat | c < |s'.pipe.calls| && s'.pipe.calls[c].approved ensures ApprovedBy(s', c) {
      ApprovalStep(s, op, c);
    }
  }

  lemma {:induction false} RunInv(ops: seq<Op>)
    ensures Inv(Run(ops))
  {
    if ops != [] {
      RunInv(ops[..|ops| - 1]);
      StepInv(Run(ops[..|ops| - 1]), ops[|ops| - 1]);
    }
  }

  /** A waiting call resumes with what its promise says: a settled promise approves or denies it, a rejected one
      ends it without a row, and until then it waits on. */
  lemma ResumeDelivers(ops: seq<Op>, c: nat, sc: P.Screening)
    requires Waits(Run(ops).pipe, c)
    ensures var s, s' := Run(ops), Step(Run(ops), Resume(c, sc));
      && c in s.handleOf
      && var h, call := s.handleOf[c], s'.pipe.calls[c];
      && (h in s.hub.settled && s.hub.settled[h] ==>
            call.approved && (call.stage == P.Running <==> sc.handlerExists && !sc.moderationBlocks))
      && (h in s.hub.settled && !s.hub.settled[h] ==>
            && call.stage == P.Finished(P.Refused) && !call.approved
            && P.RowsOf(s'.pipe.trail, c, P.DeniedByUser) == P.RowsOf(s.pipe.trail, c, P.DeniedByUser) + 1)
      && (h in s.hub.rejected ==>
            call.stage == P.Finished(P.ConfirmFailed) && s'.pipe.trail == s.pipe.trail && !call.approved)
      && (h !in s.hub.settled && h !in s.hub.rejected ==> s' == s)
  {
    var s := Run(ops);
    RunInv(ops);
    assert c in s.handleOf && C.Inv(s.hub);
    WaitingUnapproved(ops, c);
    if Deliverable(s, c) {
      var op := P.Answered(c, Delivered(s, c), sc);
      var call := P.OneCallMoves(s.pipe, op);
      P.StepRows(s.pipe, op, c, P.DeniedByUser);
      assert call.stage == P.Running <==> P.LeavesIn(op, P.Running);
    }
  }

  /** A call asks for a confirmation exactly when it passes both guards and the policy says so; it then waits on a
      promise of its own, made under its id. */
  lemma ConfirmAsks(s: State, id: C.Id, announced: bool, a: P.Arrival, sc: P.Screening)
    ensures var s', c := Step(s, Execute(id, announced, a, sc)), |s.pipe.calls|;
      if a.rateAllowed && a.loop != P.LoopBlock && a.action == P.Confirm then
        && Waits(s'.pipe, c) && s'.handleOf == s.handleOf[c := |s.hub.ids|]
        && s'.hub == C.DoRequest(s.hub, id, announced)
      else !Waits(s'.pipe, c) && s'.handleOf == s.handleOf && s'.hub == s.hub
  {
    var op := P.Arrive(a, sc);
    var call := P.OneCallMoves(s.pipe, op);
    assert call.stage == P.AwaitingConfirm <==> P.LeavesIn(op, P.AwaitingConfirm);
  }

  /** A decision on a waiting call's request, or its timer, lets the call go on: once resumed, an approved call
      starts its handler unless the screening refuses it, and any other is refused. */
  lemma DecisionReachesCall(ops: seq<Op>, c: nat, op: Op, value: bool, sc: P.Screening)
    requires var s := Run(ops);
      && Waits(s.pipe, c) && c in s.handleOf && s.handleOf[c] !in s.hub.rejected && s.handleOf[c] !in s.hub.settled
      && ((op.Resolve? && op.id in s.hub.registry && s.hub.registry[op.id] == s.handleOf[c] && op.approved == value)
          || (op == TimerFires(s.handleOf[c]) && !value))
    ensures var s' := Run(ops + [op] + [Resume(c, sc)]);
      && c < |s'.pipe.calls| && s'.pipe.calls[c].approved == value
      && s'.pipe.calls[c].stage
         == if value && sc.handlerExists && !sc.moderationBlocks then P.Running else P.Finished(P.Refused)
  {
    var s, t := Run(ops), Run(ops + [op]);
    RunInv(ops);
    assert C.Inv(s.hub);
    RunLast(ops, op);
    RunLast(ops + [op], Resume(c, sc));
    assert t.pipe == s.pipe && t.handleOf == s.handleOf && Delivered(t, c) == if value then P.Approved else P.Denied;
    WaitingUnapproved(ops, c);
    var answered := P.Answered(c, Delivered(t, c), sc);
    var call := P.OneCallMoves(s.pipe, answered);
    var stage := if value && sc.handlerExists && !sc.moderationBlocks then P.Running else P.Finished(P.Refused);
    assert call.stage == stage <==> P.LeavesIn(answered, stage);
  }

  /** Every other operation reaches its own side and leaves the other one as it is. */
  lemma OneSideActs(s: State, op: Op)
    requires !op.Execute? && !op.Resume?
    ensures var s' := Step(s, op);
      && s'.handleOf == s.handleOf
      && (op.HandlerEnds? ==> s'.pipe == P.Step(s.pipe, P.HandlerEnds(op.call, op.outcome)) && s'.hub == s.hub)
      && (!op.HandlerEnds? ==> s'.pipe == s.pipe)
      && (op.ConfirmOnly? ==> s'.hub == C.DoRequest(s.hub, op.id, op.announced))
      && (op.Resolve? ==> s'.hub == C.DoResolve(s.hub, op.id, op.approved, op.source).0)
      && (op.TimerFires? ==> s'.hub == C.DoFire(s.hub, op.handle))
  { }

  lemma RunLast(ops: seq<Op>, op: Op)
    ensures Run(ops + [op]) == Step(Run(ops), op)
  {
    assert (ops + [op])[..|ops|] == ops;
  }

  lemma WaitingUnapproved(ops: seq<Op>, c: nat)
    requires Waits(Run(ops).pipe, c)
    ensures !Run(ops).pipe.calls[c].approved
  {
    SidesRun(ops);
    P.RunKeeps(PipeOps(ops));
    assert P.CallInv(Run(ops).pipe, c);
  }

  /** Over every interleaving of executions, confirm-only requests, resolutions from any source,
      timers and handler completions: when the policy asks for a confirmation, the handler runs
      only if that call's own request was approved while it was waiting, and no two calls ever
      run on the same approval. */
  lemma ConfirmedBeforeRun(ops: seq<Op>)
    ensures forall i :: 0 <= i < |Run(ops).pipe.trail| && Run(ops).pipe.trail[i].Started? ==>
      OwnApproval(ops, Run(ops), Run(ops).pipe.trail[i].call)
  {
    var s := Run(ops);
    SidesRun(ops);
    RunInv(ops);
    forall i | 0 <= i < |s.pipe.trail| && s.pipe.trail[i].Started?
      ensures OwnApproval(ops, s, s.pipe.trail[i].call)
    {
      P.StartsArePermitted(PipeOps(ops), i);
      var c := s.pipe.trail[i].call;
      if s.pipe.calls[c].action == P.Confirm {
        assert s.pipe.calls[c].approved && ApprovedBy(s, c);
        C.TrueIffApproved(HubOps(ops), s.handleOf[c]);
      }
    }
  }

  /** If call `c` was to be confirmed, its own request, shared with no other call, was approved while it
      was waiting. */
  ghost predicate OwnApproval(ops: seq<Op>, s: State, c: nat) {
    && c < |s.pipe.calls|
    && (s.pipe.calls[c].action == P.Confirm ==>
          c in s.handleOf
          && (forall d :: d in s.handleOf && s.handleOf[d] == s.handleOf[c] ==> d == c)
          && exists k :: C.ApprovesAt(HubOps(ops), k, s.handleOf[c]))
  }

  /** A call whose confirmation was denied or timed out, or was never announced, never runs, whatever is
      resolved under its id. */
  lemma DeniedNeverRuns(ops: seq<Op>)
    ensures forall c :: 0 <= c < |Run(ops).pipe.calls| && DeniedConfirmation(Run(ops), c) ==>
      P.TallyOf(Run(ops).pipe.trail, c).started == 0
  {
    var s := Run(ops);
    SidesRun(ops);
    RunInv(ops);
    P.RunKeeps(PipeOps(ops));
    forall c | 0 <= c < |s.pipe.calls| && DeniedConfirmation(s, c)
      ensures P.TallyOf(s.pipe.trail, c).started == 0
    {
      assert P.CallInv(s.pipe, c);
      assert s.pipe.calls[c].approved ==> ApprovedBy(s, c);
      assert C.Inv(s.hub);
    }
  }

  /** Call `c` was to be confirmed and its promise settled false or was rejected. */
  predicate DeniedConfirmation(s: State, c: nat) {
    && c < |s.pipe.calls| && s.pipe.calls[c].action == P.Confirm && c in s.handleOf
    && (RejectedFor(s, c) || (s.handleOf[c] in s.hub.settled && !s.hub.settled[s.handleOf[c]]))
  }

  /** A finished call is left without a closing row exactly when it asked for a confirmation that could not
      be announced. */
  lemma NoClosingRowIffUnannounced(ops: seq<Op>, c: nat)
    ensures var s := Run(ops);
      c < |s.pipe.calls| && s.pipe.calls[c].stage.Finished? ==>
        (P.TallyOf(s.pipe.trail, c).closing == 0
         <==> c in s.handleOf && !C.Announced(HubOps(ops), s.handleOf[c]))
  {
    var s := Run(ops);
    SidesRun(ops);
    RunInv(ops);
    P.OneClosingRow(PipeOps(ops), c);
    if c < |s.pipe.calls| {
      assert FailureFits(s, c);
      if c in s.handleOf {
        C.AnnouncedIff(HubOps(ops), s.handleOf[c]);
      }
    }
  }
}
