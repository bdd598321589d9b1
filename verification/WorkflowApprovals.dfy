/** Requests for outside commits over any run: at most one commit each, and rejections are final. */
module WorkflowApprovals {
  import opened GenerationOutputs
  import opened Results
  import opened WorkflowEngine

  /** Every request belongs to its own execution; while it is not approved, that execution is the last. */
  ghost predicate RequestsFit(st: RunState) {
    && (forall a, b | 0 <= a < b < |st.approvals| :: st.approvals[a].execution < st.approvals[b].execution)
    && (forall a | 0 <= a < |st.approvals| :: st.approvals[a].execution < |st.executions|)
    && forall a | 0 <= a < |st.approvals| && st.approvals[a].status != Approved ::
         && st.approvals[a].execution == |st.executions| - 1
         && st.status == (if st.approvals[a].status == Pending then AwaitingApproval else Failed)
  }

  /** A request is committed exactly when it is approved, and never twice. */
  ghost predicate CommittedOnce(st: RunState) {
    && (forall a, b | 0 <= a < b < |st.commits| :: st.commits[a] != st.commits[b])
    && forall a :: a in st.commits <==> 0 <= a < |st.approvals| && st.approvals[a].status == Approved
  }

  ghost predicate Accounted(st: RunState) {
    RequestsFit(st) && CommittedOnce(st)
  }

  ghost predicate Settled(st: RunState) {
    forall a | 0 <= a < |st.approvals| :: st.approvals[a].status == Approved
  }

  lemma RecordIsAccounted(st: RunState, e: Execution, status: RunStatus, nextOrder: nat)
    requires Accounted(st) && Settled(st)
    ensures var r := Record(st, e).(status := status, nextOrder := nextOrder); Accounted(r) && Settled(r)
  {
  }

  lemma RequestIsAccounted(st: RunState, e: Execution)
    requires Accounted(st) && Settled(st)
    ensures Accounted(Record(st, e).(status := AwaitingApproval,
                                     approvals := st.approvals + [Approval(|st.executions|, Pending)]))
  {
  }

  lemma TurnIsAccounted(w: Workflow, st: RunState, step: Step, requested: set<OutputKey>, data: Data)
    requires Accounted(st) && Settled(st)
    ensures var t := TakeTurn(w, st, step, requested, data);
            Accounted(t.st) && t.st.commits == st.commits && (t.Go? ==> Settled(t.st))
  {
    if !ShouldSkip(step.stepType, requested) {
      match RunStep(w, step, data, |st.executions|)
      case Success(output) =>
        var e := Execution(step.order, Done, data, output);
        RecordIsAccounted(st, e, AwaitingConfirmation, step.order + 1);
        RecordIsAccounted(st, e, st.status, st.nextOrder);
      case PauseExternal => RequestIsAccounted(st, Execution(step.order, Awaiting, data, None));
      case Skipped =>
        RecordIsAccounted(st, Execution(step.order, SkippedAfterRetries, data, None), st.status, step.order + 1);
      case Failure => RecordIsAccounted(st, Execution(step.order, FailedStep, data, None), Failed, st.nextOrder);
      case Raised => RecordIsAccounted(st, Execution(step.order, Running, data, None), st.status, st.nextOrder);
    }
  }

  lemma {:induction false} PassIsAccounted(w: Workflow, st: RunState, i: nat, requested: set<OutputKey>, data: Data)
    requires i <= |w.steps| && Accounted(st) && Settled(st)
    ensures Accounted(ExecuteFrom(w, st, i, requested, data))
    ensures ExecuteFrom(w, st, i, requested, data).commits == st.commits
    decreases |w.steps| - i
  {
    if i < |w.steps| {
      TurnIsAccounted(w, st, w.steps[i], requested, data);
      match TakeTurn(w, st, w.steps[i], requested, data)
      case Halt(r) =>
      case Go(next, data') => PassIsAccounted(w, next, i + 1, requested, data');
    }
  }

  lemma ExecuteIsAccounted(w: Workflow, st: RunState, data: Data)
    requires Accounted(st) && Settled(st)
    ensures Accounted(Execute(w, st, data))
  {
    match Requested(w, data)
    case Err(_) =>
    case Ok(requested) => PassIsAccounted(w, st, FirstFrom(w.steps, st.nextOrder), requested, data);
  }

  /** What an approval does before the run goes on. */
  function ApprovedState(st: RunState, id: nat, output: Option<Data>): RunState
    requires id < |st.approvals| && st.approvals[id].execution < |st.executions|
  {
    var x := st.approvals[id].execution;
    var ex := st.executions[x].(status := Done, output := output);
    st.(approvals := st.approvals[id := st.approvals[id].(status := Approved)], commits := st.commits + [id],
        executions := st.executions[x := ex], status := Analyzing, nextOrder := ex.order + 1)
  }

  lemma ApprovedIsAccounted(st: RunState, id: nat, output: Option<Data>)
    requires Accounted(st) && id < |st.approvals| && st.approvals[id].status == Pending
    ensures Accounted(ApprovedState(st, id, output)) && Settled(ApprovedState(st, id, output))
  {
  }

  lemma ActIsAccounted(w: Workflow, st: RunState, a: Action)
    requires Accounted(st)
    ensures Accounted(Act(w, st, a))
  {
    match a
    case ResumeWorkflow =>
      if st.status == AwaitingConfirmation && StoredOutput(st).Some? {
        ExecuteIsAccounted(w, st, StoredOutput(st).value);
      }
    case ApproveRequest(id, committed) =>
      if id < |st.approvals| && st.approvals[id].status == Pending && committed.Some? {
        ApprovedIsAccounted(st, id, committed.value);
        ExecuteIsAccounted(w, ApprovedState(st, id, committed.value), OrElse(committed.value, map[]));
      }
    case RejectRequest(id) =>
  }

  /** In every run of every workflow, whatever its executors do, each request commits at most once. */
  lemma {:induction false} EveryRunIsAccounted(w: Workflow, data: Data, actions: seq<Action>)
    ensures Accounted(ActAll(w, Start(w, data), actions))
  {
    if actions == [] {
      ExecuteIsAccounted(w, FRESH, data);
    } else {
      EveryRunIsAccounted(w, data, actions[..|actions| - 1]);
      ActIsAccounted(w, ActAll(w, Start(w, data), actions[..|actions| - 1]), actions[|actions| - 1]);
    }
  }

  /** A run with a rejected request has nothing to resume and nothing to approve. */
  lemma RejectedIsStuck(w: Workflow, st: RunState, id: nat, a: Action)
    requires RequestsFit(st) && id < |st.approvals| && st.approvals[id].status == Rejected
    ensures Act(w, st, a) == st
  {
  }

  lemma {:induction false} RejectedStays(w: Workflow, st: RunState, id: nat, actions: seq<Action>)
    requires RequestsFit(st) && id < |st.approvals| && st.approvals[id].status == Rejected
    ensures ActAll(w, st, actions) == st
  {
    if actions != [] {
      RejectedStays(w, st, id, actions[..|actions| - 1]);
      RejectedIsStuck(w, st, id, actions[|actions| - 1]);
    }
  }

  /** Once a request of a run is rejected, nothing the user does changes the run: no later step executes. */
  lemma RejectedIsFinal(w: Workflow, data: Data, actions: seq<Action>, id: nat, more: seq<Action>)
    requires var st := ActAll(w, Start(w, data), actions); id < |st.approvals| && st.approvals[id].status == Rejected
    ensures ActAll(w, ActAll(w, Start(w, data), actions), more) == ActAll(w, Start(w, data), actions)
  {
    EveryRunIsAccounted(w, data, actions);
    RejectedStays(w, ActAll(w, Start(w, data), actions), id, more);
  }
}
