/** Step orders over any run: they rise, unless an executor raises during a resume. */
module WorkflowOrder {
  import opened GenerationOutputs
  import opened Results
  import opened WorkflowApprovals
  import opened WorkflowEngine

  /** Orders rise, so no step runs twice; requests and confirmations are in step with the run. */
  ghost predicate ValidRun(st: RunState) {
    && RisingOrders(st.executions) && Accounted(st)
    && (st.status == AwaitingConfirmation ==> AwaitsConfirmation(st))
  }

  // ----- one call of `_execute_steps`

  /** `r` is where `_execute_steps` left a run that it found in state `st`. */
  ghost predicate LeftBy(st: RunState, r: RunState) {
    && RisingOrders(r.executions) && st.executions <= r.executions && st.approvals <= r.approvals
    && (r.status == AwaitingConfirmation ==> AwaitsConfirmation(r) || EndsRaised(r))
    && (EndsRaised(r) ==> EndsRaised(st) || r.status == st.status)
  }

  /** `next` is a later turn of the same call. */
  ghost predicate Onward(st: RunState, next: RunState) {
    && st.executions <= next.executions && next.approvals == st.approvals
    && next.status == st.status && (EndsRaised(next) ==> EndsRaised(st))
  }

  lemma OnwardThenLeft(st: RunState, mid: RunState, r: RunState)
    requires Onward(st, mid) && LeftBy(mid, r)
    ensures LeftBy(st, r)
  {
  }

  ghost predicate TurnSound(st: RunState, t: Turn, order: nat) {
    if t.Halt? then LeftBy(st, t.st)
    else RisingOrders(t.st.executions) && Onward(st, t.st) && Below(t.st.executions, order + 1)
  }

  lemma RecordIsSound(st: RunState, e: Execution, r: RunState)
    requires RisingOrders(st.executions) && Below(st.executions, e.order)
    requires r.executions == st.executions + [e] && st.approvals <= r.approvals
    requires r.status == AwaitingConfirmation ==> e.status == Running || AwaitsConfirmation(r)
    requires e.status == Running ==> r.status == st.status
    ensures LeftBy(st, r) && Below(r.executions, e.order + 1)
  {
  }

  lemma RecordGoesOn(st: RunState, e: Execution, next: RunState)
    requires RisingOrders(st.executions) && Below(st.executions, e.order) && e.status != Running
    requires next.executions == st.executions + [e] && next.approvals == st.approvals && next.status == st.status
    ensures RisingOrders(next.executions) && Onward(st, next) && Below(next.executions, e.order + 1)
  {
  }

  lemma TurnIsSound(w: Workflow, st: RunState, step: Step, requested: set<OutputKey>, data: Data)
    requires RisingOrders(st.executions) && Below(st.executions, step.order)
    ensures TurnSound(st, TakeTurn(w, st, step, requested, data), step.order)
  {
    if !ShouldSkip(step.stepType, requested) {
      var t := TakeTurn(w, st, step, requested, data);
      var e := t.st.executions[|st.executions|];
      if t.Halt? { RecordIsSound(st, e, t.st); } else { RecordGoesOn(st, e, t.st); }
    }
  }

  lemma {:induction false} ExecuteFromLeaves(w: Workflow, st: RunState, i: nat, requested: set<OutputKey>, data: Data)
    requires Ordered(w) && i <= |w.steps| && RisingOrders(st.executions)
    requires i < |w.steps| ==> Below(st.executions, w.steps[i].order)
    ensures LeftBy(st, ExecuteFrom(w, st, i, requested, data))
    decreases |w.steps| - i
  {
    if i < |w.steps| {
      TurnIsSound(w, st, w.steps[i], requested, data);
      match TakeTurn(w, st, w.steps[i], requested, data)
      case Halt(r) =>
      case Go(next, data') =>
        ExecuteFromLeaves(w, next, i + 1, requested, data');
        OnwardThenLeft(st, next, ExecuteFrom(w, next, i + 1, requested, data'));
    }
  }

  lemma FirstFromSplits(w: Workflow, order: nat)
    requires Ordered(w)
    ensures var i := FirstFrom(w.steps, order); forall k | 0 <= k < |w.steps| :: w.steps[k].order >= order <==> k >= i
  {
  }

  lemma ExecuteLeaves(w: Workflow, st: RunState, data: Data)
    requires Ordered(w) && RisingOrders(st.executions) && Below(st.executions, st.nextOrder)
    ensures Execute(w, st, data) == st || LeftBy(st, Execute(w, st, data))
  {
    match Requested(w, data)
    case Err(_) =>
    case Ok(requested) => ExecuteFromLeaves(w, st, FirstFrom(w.steps, st.nextOrder), requested, data);
  }

  /** A run that waits goes on from the confirmation step's own stored output. */
  lemma ResumesFromConfirmation(st: RunState)
    requires RisingOrders(st.executions) && AwaitsConfirmation(st)
    ensures StoredOutput(st) == Some(st.executions[|st.executions| - 1].input)
    ensures Below(st.executions, st.nextOrder)
  {
    LastCompletedIsMember(st.executions[..|st.executions| - 1]);
  }

  lemma {:induction false} LastCompletedIsMember(es: seq<Execution>)
    ensures LastCompleted(es).Some? ==> LastCompleted(es).value in es
  {
    if es != [] {
      LastCompletedIsMember(es[..|es| - 1]);
    }
  }

  // ----- when an executor raises

  /** A step that the pass reaches and does not skip raises. */
  ghost predicate RaisesAlong(w: Workflow, st: RunState, i: nat, requested: set<OutputKey>, data: Data)
    requires i <= |w.steps|
    decreases |w.steps| - i
  {
    i < |w.steps| && (
      || (!ShouldSkip(w.steps[i].stepType, requested) && RunStep(w, w.steps[i], data, |st.executions|).Raised?)
      || match TakeTurn(w, st, w.steps[i], requested, data)
         case Halt(_) => false
         case Go(next, data') => RaisesAlong(w, next, i + 1, requested, data'))
  }

  lemma {:induction false} RaisedExactly(w: Workflow, st: RunState, i: nat, requested: set<OutputKey>, data: Data)
    requires i <= |w.steps| && !EndsRaised(st)
    ensures EndsRaised(ExecuteFrom(w, st, i, requested, data)) <==> RaisesAlong(w, st, i, requested, data)
    decreases |w.steps| - i
  {
    if i < |w.steps| {
      match TakeTurn(w, st, w.steps[i], requested, data)
      case Halt(r) =>
      case Go(next, data') => RaisedExactly(w, next, i + 1, requested, data');
    }
  }

  /** Resuming the run meets a raising executor. */
  ghost predicate ResumeRaises(w: Workflow, st: RunState) {
    && st.status == AwaitingConfirmation && StoredOutput(st).Some? && Requested(w, StoredOutput(st).value).Ok?
    && RaisesAlong(w, st, FirstFrom(w.steps, st.nextOrder),
                   Requested(w, StoredOutput(st).value).value, StoredOutput(st).value)
  }

  lemma ResumeRaisesExactly(w: Workflow, st: RunState)
    requires Ordered(w) && ValidRun(st) && st.status == AwaitingConfirmation
    ensures EndsRaised(Resume(w, st)) <==> ResumeRaises(w, st)
  {
    ResumesFromConfirmation(st);
    var data := StoredOutput(st).value;
    if Requested(w, data).Ok? {
      RaisedExactly(w, st, FirstFrom(w.steps, st.nextOrder), Requested(w, data).value, data);
    }
  }

  // ----- every run

  lemma StartIsValid(w: Workflow, data: Data)
    requires Ordered(w)
    ensures ValidRun(Start(w, data))
  {
    ExecuteIsAccounted(w, FRESH, data);
    ExecuteLeaves(w, FRESH, data);
  }

  /** Resuming keeps a valid run valid exactly when no executor that it reaches raises. */
  lemma ResumeIsValid(w: Workflow, st: RunState)
    requires Ordered(w) && ValidRun(st)
    ensures ValidRun(Resume(w, st)) <==> !ResumeRaises(w, st)
  {
    ActIsAccounted(w, st, ResumeWorkflow);
    if st.status == AwaitingConfirmation {
      ResumesFromConfirmation(st);
      ExecuteLeaves(w, st, StoredOutput(st).value);
      ResumeRaisesExactly(w, st);
    }
  }

  lemma ApprovedIsBelow(st: RunState, id: nat, output: Option<Data>)
    requires ValidRun(st) && id < |st.approvals| && st.approvals[id].status == Pending
    ensures var next := ApprovedState(st, id, output);
            RisingOrders(next.executions) && Below(next.executions, next.nextOrder) && !EndsRaised(next)
  {
  }

  lemma ApproveIsValid(w: Workflow, st: RunState, id: nat, committed: Option<Option<Data>>)
    requires Ordered(w) && ValidRun(st)
    ensures ValidRun(Approve(w, st, id, committed))
  {
    ActIsAccounted(w, st, ApproveRequest(id, committed));
    if id < |st.approvals| && st.approvals[id].status == Pending && committed.Some? {
      ApprovedIsBelow(st, id, committed.value);
      ExecuteLeaves(w, ApprovedState(st, id, committed.value), OrElse(committed.value, map[]));
    }
  }

  lemma RejectIsValid(st: RunState, id: nat)
    requires ValidRun(st)
    ensures ValidRun(Reject(st, id))
  {
  }

  ghost predicate AllValid(w: Workflow, data: Data, actions: seq<Action>) {
    && ValidRun(ActAll(w, Start(w, data), actions))
    && (actions == [] || AllValid(w, data, actions[..|actions| - 1]))
  }

  ghost predicate NoResumeRaises(w: Workflow, data: Data, actions: seq<Action>) {
    actions == [] || (
      var front := actions[..|actions| - 1];
      && NoResumeRaises(w, data, front)
      && (actions[|actions| - 1].ResumeWorkflow? ==> !ResumeRaises(w, ActAll(w, Start(w, data), front))))
  }

  lemma ActIsValid(w: Workflow, st: RunState, a: Action)
    requires Ordered(w) && ValidRun(st)
    ensures ValidRun(Act(w, st, a)) <==> !(a.ResumeWorkflow? && ResumeRaises(w, st))
  {
    match a
    case ResumeWorkflow => ResumeIsValid(w, st);
    case ApproveRequest(id, committed) => ApproveIsValid(w, st, id, committed);
    case RejectRequest(id) => RejectIsValid(st, id);
  }

  /**
   Whatever the user does, a run stays valid at every point (orders rise, requests commit once, a
   waiting run can go on from its confirmation step) exactly when no resume of it meets a raising executor.
   */
  lemma {:induction false} EveryRunIsValid(w: Workflow, data: Data, actions: seq<Action>)
    requires Ordered(w)
    ensures AllValid(w, data, actions) <==> NoResumeRaises(w, data, actions)
  {
    if actions == [] {
      StartIsValid(w, data);
    } else {
      var front := actions[..|actions| - 1];
      EveryRunIsValid(w, data, front);
      if AllValid(w, data, front) {
        ActIsValid(w, ActAll(w, Start(w, data), front), actions[|actions| - 1]);
      }
    }
  }

  // ----- repeated steps

  lemma {:induction false} LaterOrdersOnly(w: Workflow, st: RunState, i: nat, requested: set<OutputKey>, data: Data,
                                           order: nat)
    requires Ordered(w) && i <= |w.steps| && (i < |w.steps| ==> w.steps[i].order >= order)
    ensures var r := ExecuteFrom(w, st, i, requested, data);
            st.executions <= r.executions
            && forall k | |st.executions| <= k < |r.executions| :: r.executions[k].order >= order
    decreases |w.steps| - i
  {
    if i < |w.steps| {
      match TakeTurn(w, st, w.steps[i], requested, data)
      case Halt(r) =>
      case Go(next, data') =>
        LaterOrdersOnly(w, next, i + 1, requested, data', order);
        assert st.executions <= next.executions;
    }
  }

  lemma ExecutesStepFirst(w: Workflow, st: RunState, i: nat, requested: set<OutputKey>, data: Data)
    requires Ordered(w) && i < |w.steps| && !ShouldSkip(w.steps[i].stepType, requested)
    ensures var r := ExecuteFrom(w, st, i, requested, data);
            st.executions < r.executions && r.executions[|st.executions|].order == w.steps[i].order
  {
    LaterOrdersOnly(w, st, i, requested, data, 0);
    match TakeTurn(w, st, w.steps[i], requested, data)
    case Halt(r) =>
    case Go(next, data') =>
      assert next.executions[|st.executions|].order == w.steps[i].order;
      LaterOrdersOnly(w, next, i + 1, requested, data', 0);
  }

  /** Every step from `i` on that does not lie after `order` is skipped. */
  ghost predicate SkipsUpTo(w: Workflow, i: nat, order: nat, requested: set<OutputKey>) {
    forall k | i <= k < |w.steps| && w.steps[k].order <= order :: ShouldSkip(w.steps[k].stepType, requested)
  }

  /**
   A pass that starts after an execution of `order` keeps orders rising exactly when it skips all steps up
   to there.
   */
  lemma {:induction false} RisesExactly(w: Workflow, st: RunState, i: nat, requested: set<OutputKey>, data: Data)
    requires Ordered(w) && i <= |w.steps| && RisingOrders(st.executions) && st.executions != []
    ensures RisingOrders(ExecuteFrom(w, st, i, requested, data).executions)
       <==> SkipsUpTo(w, i, st.executions[|st.executions| - 1].order, requested)
    decreases |w.steps| - i
  {
    if i < |w.steps| {
      var last, order := st.executions[|st.executions| - 1].order, w.steps[i].order;
      if ShouldSkip(w.steps[i].stepType, requested) {
        RisesExactly(w, st.(nextOrder := order + 1), i + 1, requested, data);
      } else if order <= last {
        ExecutesStepFirst(w, st, i, requested, data);
        var r := ExecuteFrom(w, st, i, requested, data);
        assert r.executions[|st.executions| - 1] == st.executions[|st.executions| - 1];
      } else {
        ExecuteFromLeaves(w, st, i, requested, data);
      }
    }
  }

  /** A resume would repeat a step: some step not after the last execution is not skipped. */
  ghost predicate Repeats(w: Workflow, st: RunState) {
    && st.executions != [] && StoredOutput(st).Some? && Requested(w, StoredOutput(st).value).Ok?
    && !SkipsUpTo(w, FirstFrom(w.steps, st.nextOrder), st.executions[|st.executions| - 1].order,
                  Requested(w, StoredOutput(st).value).value)
  }

  lemma ResumeRisesExactly(w: Workflow, st: RunState)
    requires Ordered(w) && RisingOrders(st.executions) && st.executions != [] && st.status == AwaitingConfirmation
    ensures RisingOrders(Resume(w, st).executions) <==> !Repeats(w, st)
  {
    if StoredOutput(st).Some? && Requested(w, StoredOutput(st).value).Ok? {
      RisesExactly(w, st, FirstFrom(w.steps, st.nextOrder), Requested(w, StoredOutput(st).value).value,
                   StoredOutput(st).value);
    }
  }

  lemma ValidResumeRises(w: Workflow, st: RunState)
    requires Ordered(w) && ValidRun(st)
    ensures RisingOrders(Resume(w, st).executions)
    ensures EndsRaised(Resume(w, st)) && !EndsRaised(st) ==> Resume(w, st).status == st.status
  {
    if st.status == AwaitingConfirmation {
      ResumesFromConfirmation(st);
      ExecuteLeaves(w, st, StoredOutput(st).value);
    }
  }

  /** Resuming twice repeats a step exactly when the first resume raised and the second reaches up to that step. */
  lemma ResumedTwiceRises(w: Workflow, st: RunState)
    requires Ordered(w) && ValidRun(st) && st.status == AwaitingConfirmation
    ensures RisingOrders(Resume(w, Resume(w, st)).executions) <==> !(ResumeRaises(w, st) && Repeats(w, Resume(w, st)))
  {
    ResumeIsValid(w, st);
    if ResumeRaises(w, st) {
      ResumeRaisesExactly(w, st);
      ValidResumeRises(w, st);
      ResumeRisesExactly(w, Resume(w, st));
    } else {
      ValidResumeRises(w, Resume(w, st));
    }
  }

  /** The step that raised was not skipped, and does not lie before the order at which the run goes on. */
  lemma {:induction false} RaisedStep(w: Workflow, st: RunState, i: nat, requested: set<OutputKey>, data: Data)
    returns (k: nat)
    requires Ordered(w) && i <= |w.steps| && RaisesAlong(w, st, i, requested, data)
    requires forall j | i <= j < |w.steps| :: st.nextOrder <= w.steps[j].order
    ensures var r := ExecuteFrom(w, st, i, requested, data);
            && k < |w.steps| && r.nextOrder <= w.steps[k].order && !ShouldSkip(w.steps[k].stepType, requested)
            && r.executions != [] && r.executions[|r.executions| - 1].order == w.steps[k].order
    decreases |w.steps| - i
  {
    if !ShouldSkip(w.steps[i].stepType, requested) && RunStep(w, w.steps[i], data, |st.executions|).Raised? {
      k := i;
    } else {
      match TakeTurn(w, st, w.steps[i], requested, data)
      case Go(next, data') => k := RaisedStep(w, next, i + 1, requested, data');
    }
  }

  /** While the stored request stays the same, resuming again repeats a step exactly when an executor raised. */
  lemma RaisingRepeats(w: Workflow, st: RunState, requested: set<OutputKey>)
    requires Ordered(w) && ValidRun(st) && st.status == AwaitingConfirmation
    requires StoredOutput(st).Some? && Requested(w, StoredOutput(st).value) == Ok(requested)
    requires StoredOutput(Resume(w, st)).Some? && Requested(w, StoredOutput(Resume(w, st)).value) == Ok(requested)
    ensures RisingOrders(Resume(w, Resume(w, st)).executions) <==> !ResumeRaises(w, st)
  {
    ResumedTwiceRises(w, st);
    if ResumeRaises(w, st) {
      FirstFromSplits(w, st.nextOrder);
      var k := RaisedStep(w, st, FirstFrom(w.steps, st.nextOrder), requested, StoredOutput(st).value);
      FirstFromSplits(w, Resume(w, st).nextOrder);
    }
  }
}
