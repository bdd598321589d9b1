/** When a run repeats a step: exactly when some resume does. */
module WorkflowRepeats {
  import opened GenerationOutputs
  import opened Results
  import opened WorkflowApprovals
  import opened WorkflowEngine
  import opened WorkflowOrder

  /** `more` goes on from `es`: the orders and inputs of its executions stay as they were. */
  ghost predicate Extends(es: seq<Execution>, more: seq<Execution>) {
    && |es| <= |more|
    && forall k | 0 <= k < |es| :: more[k].order == es[k].order && more[k].input == es[k].input
  }

  lemma PassExtends(w: Workflow, st: RunState, i: nat, requested: set<OutputKey>, data: Data)
    requires Ordered(w) && i <= |w.steps|
    ensures Extends(st.executions, ExecuteFrom(w, st, i, requested, data).executions)
  {
    LaterOrdersOnly(w, st, i, requested, data, 0);
  }

  lemma ExecuteExtends(w: Workflow, st: RunState, data: Data)
    requires Ordered(w)
    ensures Extends(st.executions, Execute(w, st, data).executions)
  {
    match Requested(w, data)
    case Err(_) =>
    case Ok(requested) => PassExtends(w, st, FirstFrom(w.steps, st.nextOrder), requested, data);
  }

  /** No action changes the order or the input of an execution. */
  lemma ActExtends(w: Workflow, st: RunState, a: Action)
    requires Ordered(w)
    ensures Extends(st.executions, Act(w, st, a).executions)
  {
    match a
    case ResumeWorkflow =>
      if StoredOutput(st).Some? { ExecuteExtends(w, st, StoredOutput(st).value); }
    case ApproveRequest(id, committed) =>
      if id < |st.approvals| && st.approvals[id].execution < |st.executions| && committed.Some? {
        ExecuteExtends(w, ApprovedState(st, id, committed.value), OrElse(committed.value, map[]));
      }
    case RejectRequest(id) =>
  }

  // ----- exactly when orders rise

  /** Resuming the run now repeats a step. */
  ghost predicate ResumeRepeats(w: Workflow, st: RunState) {
    st.status == AwaitingConfirmation && Repeats(w, st)
  }

  ghost predicate NoResumeRepeats(w: Workflow, data: Data, actions: seq<Action>) {
    actions == [] || (
      var front := actions[..|actions| - 1];
      && NoResumeRepeats(w, data, front)
      && (actions[|actions| - 1].ResumeWorkflow? ==> !ResumeRepeats(w, ActAll(w, Start(w, data), front))))
  }

  lemma ResumeRises(w: Workflow, st: RunState)
    requires Ordered(w) && RisingOrders(st.executions)
    ensures RisingOrders(Resume(w, st).executions) <==> !ResumeRepeats(w, st)
  {
    if st.status == AwaitingConfirmation {
      if st.executions == [] {
        ExecuteLeaves(w, st, map[]);
      } else {
        ResumeRisesExactly(w, st);
      }
    }
  }

  lemma ApproveRises(w: Workflow, st: RunState, id: nat, committed: Option<Option<Data>>)
    requires Ordered(w) && RisingOrders(st.executions) && RequestsFit(st)
    ensures RisingOrders(Approve(w, st, id, committed).executions)
  {
    if id < |st.approvals| && st.approvals[id].status == Pending && committed.Some? {
      ExecuteLeaves(w, ApprovedState(st, id, committed.value), OrElse(committed.value, map[]));
    }
  }

  lemma ActRises(w: Workflow, st: RunState, a: Action)
    requires Ordered(w) && RisingOrders(st.executions) && RequestsFit(st)
    ensures RisingOrders(Act(w, st, a).executions) <==> !(a.ResumeWorkflow? && ResumeRepeats(w, st))
  {
    match a
    case ResumeWorkflow => ResumeRises(w, st);
    case ApproveRequest(id, committed) => ApproveRises(w, st, id, committed);
    case RejectRequest(id) =>
  }

  /** Whatever the user does, orders rise, so that no step runs twice, exactly when no resume on the way repeats one. */
  lemma {:induction false} RisesWhenNoResumeRepeats(w: Workflow, data: Data, actions: seq<Action>)
    requires Ordered(w)
    ensures RisingOrders(ActAll(w, Start(w, data), actions).executions) <==> NoResumeRepeats(w, data, actions)
  {
    if actions == [] {
      ExecuteLeaves(w, FRESH, data);
    } else {
      var front, a := actions[..|actions| - 1], actions[|actions| - 1];
      var st := ActAll(w, Start(w, data), front);
      RisesWhenNoResumeRepeats(w, data, front);
      if RisingOrders(st.executions) {
        EveryRunIsAccounted(w, data, front);
        ActRises(w, st, a);
      } else {
        ActExtends(w, st, a);
      }
    }
  }
}
