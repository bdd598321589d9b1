/**
 Pausing and going on against one uninterrupted pass: confirmations hand their data on, and an approved
 request is a step that returns what its commit returns.
 */
module WorkflowPauses {
  import opened GenerationOutputs
  import opened Results
  import opened WorkflowApprovals
  import opened WorkflowEngine
  import opened WorkflowOrder

  /** What the commit of each request returns; None for one that is never approved, or whose commit raises. */
  type Commits = nat -> Option<Option<Data>>

  /** The user resumes a run that awaits confirmation, and approves the request that it awaits. */
  function Continue(w: Workflow, c: Commits, st: RunState): RunState {
    if st.status == AwaitingConfirmation then Act(w, st, ResumeWorkflow)
    else if st.status == AwaitingApproval && st.approvals != [] then
      var id := |st.approvals| - 1;
      Act(w, st, ApproveRequest(id, c(id)))
    else st
  }

  function ContinueAll(w: Workflow, c: Commits, st: RunState, times: nat): RunState
    decreases times
  {
    if times == 0 then st else ContinueAll(w, c, Continue(w, c, st), times - 1)
  }

  // ----- one uninterrupted pass

  /** A turn that does not pause: a confirmation hands its data on, an approved step what its commit returned. */
  function TurnThrough(w: Workflow, c: Commits, st: RunState, step: Step, requested: set<OutputKey>, data: Data): Turn {
    match TakeTurn(w, st, step, requested, data)
    case Go(next, data') => Go(next, data')
    case Halt(r) =>
      if step.stepType == AwaitConfirmation then Go(r, data)
      else if |r.approvals| > |st.approvals| then
        match c(|st.approvals|)
        case None => Halt(r)
        case Some(output) => Go(ApprovedState(r, |st.approvals|, output), OrElse(output, data))
      else Halt(r)
  }

  function Uninterrupted(w: Workflow, c: Commits, st: RunState, i: nat, requested: set<OutputKey>, data: Data): RunState
    requires i <= |w.steps|
    decreases |w.steps| - i
  {
    if i == |w.steps| then st.(status := Completed)
    else
      match TurnThrough(w, c, st, w.steps[i], requested, data)
      case Halt(r) => r
      case Go(next, data') => Uninterrupted(w, c, next, i + 1, requested, data')
  }

  /** What a run that paused at the step goes on from: an approval does not fall back on the step's own input. */
  function GoesOnFrom(c: Commits, st: RunState, step: Step, data: Data): Data {
    if step.stepType == AwaitConfirmation then data
    else
      match c(|st.approvals|)
      case None => map[]
      case Some(output) => OrElse(output, map[])
  }

  // ----- two requests, and two data

  /** Every step that the pass reaches is skipped under both requests or under neither. */
  ghost predicate SameChoices(w: Workflow, st: RunState, i: nat, r1: set<OutputKey>, r2: set<OutputKey>, data: Data)
    requires i <= |w.steps|
    decreases |w.steps| - i
  {
    i == |w.steps| || (
      && (ShouldSkip(w.steps[i].stepType, r1) <==> ShouldSkip(w.steps[i].stepType, r2))
      && match TakeTurn(w, st, w.steps[i], r1, data)
         case Halt(_) => true
         case Go(next, data') => SameChoices(w, next, i + 1, r1, r2, data'))
  }

  lemma SkippingShows(w: Workflow, st: RunState, i: nat, runs: set<OutputKey>, skips: set<OutputKey>, data: Data)
    requires Ordered(w) && i < |w.steps|
    requires !ShouldSkip(w.steps[i].stepType, runs) && ShouldSkip(w.steps[i].stepType, skips)
    ensures ExecuteFrom(w, st, i, runs, data) != ExecuteFrom(w, st, i, skips, data)
  {
    ExecutesStepFirst(w, st, i, runs, data);
    LaterOrdersOnly(w, st.(nextOrder := w.steps[i].order + 1), i + 1, skips, data, w.steps[i].order + 1);
  }

  /** Two requests lead to the same run exactly when they skip the same steps along the pass. */
  lemma {:induction false} SameRunWhenSameChoices(w: Workflow, st: RunState, i: nat, r1: set<OutputKey>,
                                                  r2: set<OutputKey>, data: Data)
    requires Ordered(w) && i <= |w.steps|
    ensures ExecuteFrom(w, st, i, r1, data) == ExecuteFrom(w, st, i, r2, data) <==> SameChoices(w, st, i, r1, r2, data)
    decreases |w.steps| - i
  {
    if i < |w.steps| {
      var t := w.steps[i].stepType;
      if ShouldSkip(t, r1) && !ShouldSkip(t, r2) {
        SkippingShows(w, st, i, r2, r1, data);
      } else if !ShouldSkip(t, r1) && ShouldSkip(t, r2) {
        SkippingShows(w, st, i, r1, r2, data);
      } else {
        match TakeTurn(w, st, w.steps[i], r1, data)
        case Halt(_) =>
        case Go(next, data') => SameRunWhenSameChoices(w, next, i + 1, r1, r2, data');
      }
    }
  }

  /** Passes from two data are the same only if no step is left to see the difference. */
  ghost predicate SamePass(w: Workflow, st: RunState, i: nat, r1: set<OutputKey>, d1: Data, r2: set<OutputKey>,
                           d2: Data)
    requires i <= |w.steps|
  {
    if d1 == d2 then SameChoices(w, st, i, r1, r2, d1)
    else forall k | i <= k < |w.steps| :: ShouldSkip(w.steps[k].stepType, r1) && ShouldSkip(w.steps[k].stepType, r2)
  }

  lemma {:induction false} SkippedPass(w: Workflow, st: RunState, i: nat, r1: set<OutputKey>, d1: Data,
                                       r2: set<OutputKey>, d2: Data)
    requires i <= |w.steps|
    requires forall k | i <= k < |w.steps| :: ShouldSkip(w.steps[k].stepType, r1) && ShouldSkip(w.steps[k].stepType, r2)
    ensures ExecuteFrom(w, st, i, r1, d1) == ExecuteFrom(w, st, i, r2, d2)
    decreases |w.steps| - i
  {
    if i < |w.steps| {
      SkippedPass(w, st.(nextOrder := w.steps[i].order + 1), i + 1, r1, d1, r2, d2);
    }
  }

  lemma SamePassSameRun(w: Workflow, st: RunState, i: nat, r1: set<OutputKey>, d1: Data, r2: set<OutputKey>, d2: Data)
    requires Ordered(w) && i <= |w.steps| && SamePass(w, st, i, r1, d1, r2, d2)
    ensures ExecuteFrom(w, st, i, r1, d1) == ExecuteFrom(w, st, i, r2, d2)
  {
    if d1 == d2 {
      SameRunWhenSameChoices(w, st, i, r1, r2, d1);
    } else {
      SkippedPass(w, st, i, r1, d1, r2, d2);
    }
  }

  /**
   Along the uninterrupted pass, wherever the run pauses, the data it goes on from asks for outputs, and
   these and the data make it do the same up to its next pause.
   */
  ghost predicate ChoicesKept(w: Workflow, c: Commits, st: RunState, i: nat, requested: set<OutputKey>, data: Data)
    requires i <= |w.steps|
    decreases |w.steps| - i
  {
    i == |w.steps| ||
      match TurnThrough(w, c, st, w.steps[i], requested, data)
      case Halt(_) => true
      case Go(next, data') =>
        && (TakeTurn(w, st, w.steps[i], requested, data).Halt? ==>
              KeptAt(w, next, i + 1, requested, data', GoesOnFrom(c, st, w.steps[i], data)))
        && ChoicesKept(w, c, next, i + 1, requested, data')
  }

  ghost predicate KeptAt(w: Workflow, st: RunState, i: nat, requested: set<OutputKey>, data: Data, stored: Data)
    requires i <= |w.steps|
  {
    Requested(w, stored).Ok? && SamePass(w, st, i, requested, data, Requested(w, stored).value, stored)
  }

  // ----- going on after a pause

  lemma NextStep(w: Workflow, i: nat)
    requires Ordered(w) && i < |w.steps|
    ensures FirstFrom(w.steps, w.steps[i].order + 1) == i + 1
  {
    var j := FirstFrom(w.steps, w.steps[i].order + 1);
    FirstFromSplits(w, w.steps[i].order + 1);
    assert j > i;
    assert i + 1 < |w.steps| ==> w.steps[i + 1].order > w.steps[i].order;
  }

  /** A waiting run is resumed with the input of its confirmation step. */
  lemma ResumeGoesOn(w: Workflow, r: RunState, requested: set<OutputKey>, data: Data)
    requires RisingOrders(r.executions) && AwaitsConfirmation(r) && r.status == AwaitingConfirmation
    requires r.executions[|r.executions| - 1].input == data && Requested(w, data) == Ok(requested)
    ensures Resume(w, r) == ExecuteFrom(w, r, FirstFrom(w.steps, r.nextOrder), requested, data)
  {
    ResumesFromConfirmation(r);
  }

  lemma TurnPauses(w: Workflow, st: RunState, step: Step, requested: set<OutputKey>, data: Data)
    requires RisingOrders(st.executions) && Below(st.executions, step.order) && step.stepType == AwaitConfirmation
    ensures var e := Execution(step.order, Done, data, Some(data));
            var r := Record(st, e).(status := AwaitingConfirmation, nextOrder := step.order + 1);
            && TakeTurn(w, st, step, requested, data) == Halt(r)
            && RisingOrders(r.executions) && Below(r.executions, step.order + 1)
            && r.executions[|r.executions| - 1] == e
  {
  }

  /** Resuming after a confirmation step continues with the next step and the same data. */
  lemma ConfirmationPauses(w: Workflow, st: RunState, i: nat, before: set<OutputKey>, requested: set<OutputKey>,
                           data: Data)
    requires Ordered(w) && i < |w.steps| && RisingOrders(st.executions) && Below(st.executions, w.steps[i].order)
    requires w.steps[i].stepType == AwaitConfirmation && Requested(w, data) == Ok(requested)
    ensures TakeTurn(w, st, w.steps[i], before, data).Halt?
    ensures var r := TakeTurn(w, st, w.steps[i], before, data).st;
            && RisingOrders(r.executions) && Below(r.executions, w.steps[i].order + 1)
            && Resume(w, r) == ExecuteFrom(w, r, i + 1, requested, data)
  {
    TurnPauses(w, st, w.steps[i], before, data);
    var r := TakeTurn(w, st, w.steps[i], before, data).st;
    ResumeGoesOn(w, r, requested, data);
    NextStep(w, i);
  }

  /**
   When the data stored at a confirmation asks for `now` instead of `before`, resuming differs from
   going straight on exactly when some step reached afterwards is skipped under one request only.
   */
  lemma ResumeFollowsStoredRequest(w: Workflow, st: RunState, i: nat, before: set<OutputKey>, now: set<OutputKey>,
                                   data: Data)
    requires Ordered(w) && i < |w.steps| && RisingOrders(st.executions) && Below(st.executions, w.steps[i].order)
    requires w.steps[i].stepType == AwaitConfirmation && Requested(w, data) == Ok(now)
    ensures TakeTurn(w, st, w.steps[i], before, data).Halt?
    ensures var r := TakeTurn(w, st, w.steps[i], before, data).st;
            Resume(w, r) == ExecuteFrom(w, r, i + 1, before, data) <==> SameChoices(w, r, i + 1, before, now, data)
  {
    ConfirmationPauses(w, st, i, before, now, data);
    var r := TakeTurn(w, st, w.steps[i], before, data).st;
    SameRunWhenSameChoices(w, r, i + 1, before, now, data);
  }

  /** Going on from `r` is a pass from step `i` of `next` with the stored data, when these ask for outputs. */
  ghost predicate ContinuesAt(w: Workflow, c: Commits, r: RunState, next: RunState, i: nat, stored: Data)
    requires i <= |w.steps|
  {
    Continue(w, c, r) == match Requested(w, stored)
                         case Err(_) => next
                         case Ok(now) => ExecuteFrom(w, next, i, now, stored)
  }

  lemma RequestGoesOn(w: Workflow, c: Commits, r: RunState, id: nat, i: nat, output: Option<Data>)
    requires Ordered(w) && i < |w.steps| && r.status == AwaitingApproval && id + 1 == |r.approvals|
    requires c(id) == Some(output) && r.approvals[id].status == Pending && r.approvals[id].execution < |r.executions|
    requires r.executions[r.approvals[id].execution].order == w.steps[i].order
    ensures ContinuesAt(w, c, r, ApprovedState(r, id, output), i + 1, OrElse(output, map[]))
  {
    NextStep(w, i);
    assert Continue(w, c, r) == Execute(w, ApprovedState(r, id, output), OrElse(output, map[]));
  }

  /** A pass stands at step `i`: its executions rise below that step, and no request is open. */
  ghost predicate Passing(w: Workflow, st: RunState, i: nat)
    requires i <= |w.steps|
  {
    RisingOrders(st.executions) && Settled(st) && (i < |w.steps| ==> Below(st.executions, w.steps[i].order))
  }

  lemma BelowNext(w: Workflow, st: RunState, i: nat)
    requires Ordered(w) && i < |w.steps| && RisingOrders(st.executions) && Below(st.executions, w.steps[i].order + 1)
    requires Settled(st)
    ensures Passing(w, st, i + 1)
  {
  }

  lemma ThroughIsPassing(w: Workflow, c: Commits, st: RunState, i: nat, requested: set<OutputKey>, data: Data)
    requires Ordered(w) && i < |w.steps| && Passing(w, st, i)
    requires TurnThrough(w, c, st, w.steps[i], requested, data).Go?
    ensures Passing(w, TurnThrough(w, c, st, w.steps[i], requested, data).st, i + 1)
  {
    TurnIsSound(w, st, w.steps[i], requested, data);
    BelowNext(w, TurnThrough(w, c, st, w.steps[i], requested, data).st, i);
  }

  lemma RequestPauses(w: Workflow, c: Commits, st: RunState, step: Step, requested: set<OutputKey>, data: Data,
                      r: RunState)
    requires step.stepType != AwaitConfirmation && TakeTurn(w, st, step, requested, data) == Halt(r)
    requires TurnThrough(w, c, st, step, requested, data).Go?
    ensures r.status == AwaitingApproval && r.approvals == st.approvals + [Approval(|st.executions|, Pending)]
    ensures |r.executions| == |st.executions| + 1 && r.executions[|st.executions|].order == step.order
    ensures c(|st.approvals|).Some?
    ensures TurnThrough(w, c, st, step, requested, data).st == ApprovedState(r, |st.approvals|, c(|st.approvals|).value)
  {
  }

  lemma ResumedGoesOn(w: Workflow, c: Commits, r: RunState, i: nat, data: Data)
    requires Ordered(w) && i < |w.steps| && RisingOrders(r.executions) && AwaitsConfirmation(r)
    requires r.status == AwaitingConfirmation && r.nextOrder == w.steps[i].order + 1
    requires r.executions[|r.executions| - 1].input == data
    ensures ContinuesAt(w, c, r, r, i + 1, data)
  {
    ResumesFromConfirmation(r);
    NextStep(w, i);
  }

  lemma AtConfirmation(w: Workflow, c: Commits, st: RunState, i: nat, requested: set<OutputKey>, data: Data,
                       r: RunState)
    requires Ordered(w) && i < |w.steps| && Passing(w, st, i) && w.steps[i].stepType == AwaitConfirmation
    requires TakeTurn(w, st, w.steps[i], requested, data) == Halt(r)
    ensures TurnThrough(w, c, st, w.steps[i], requested, data).st == r && ContinuesAt(w, c, r, r, i + 1, data)
  {
    TurnPauses(w, st, w.steps[i], requested, data);
    ResumedGoesOn(w, c, r, i, data);
  }

  lemma AtRequest(w: Workflow, c: Commits, st: RunState, i: nat, requested: set<OutputKey>, data: Data, r: RunState)
    requires Ordered(w) && i < |w.steps| && w.steps[i].stepType != AwaitConfirmation
    requires TakeTurn(w, st, w.steps[i], requested, data) == Halt(r)
    requires TurnThrough(w, c, st, w.steps[i], requested, data).Go?
    ensures ContinuesAt(w, c, r, TurnThrough(w, c, st, w.steps[i], requested, data).st, i + 1,
                        GoesOnFrom(c, st, w.steps[i], data))
  {
    RequestPauses(w, c, st, w.steps[i], requested, data, r);
    RequestGoesOn(w, c, r, |st.approvals|, i, c(|st.approvals|).value);
  }

  /** Where a pause is handed on, the run goes on after the step. */
  lemma ContinueGoesOn(w: Workflow, c: Commits, st: RunState, i: nat, requested: set<OutputKey>, data: Data,
                       r: RunState, next: RunState)
    requires Ordered(w) && i < |w.steps| && Passing(w, st, i)
    requires TakeTurn(w, st, w.steps[i], requested, data) == Halt(r)
    requires TurnThrough(w, c, st, w.steps[i], requested, data).Go?
    requires next == TurnThrough(w, c, st, w.steps[i], requested, data).st
    ensures ContinuesAt(w, c, r, next, i + 1, GoesOnFrom(c, st, w.steps[i], data))
  {
    if w.steps[i].stepType == AwaitConfirmation {
      AtConfirmation(w, c, st, i, requested, data, r);
    } else {
      AtRequest(w, c, st, i, requested, data, r);
    }
  }

  /**
   From any point of a pass along which the choices are kept, going on at every pause ends as the
   uninterrupted pass.
   */
  lemma {:induction false} ContinuedIsUninterrupted(w: Workflow, c: Commits, st: RunState, i: nat,
                                                    requested: set<OutputKey>, data: Data)
    returns (times: nat)
    requires Ordered(w) && i <= |w.steps| && Passing(w, st, i) && ChoicesKept(w, c, st, i, requested, data)
    ensures ContinueAll(w, c, ExecuteFrom(w, st, i, requested, data), times)
         == Uninterrupted(w, c, st, i, requested, data)
    decreases |w.steps| - i
  {
    times := 0;
    if i < |w.steps| && TurnThrough(w, c, st, w.steps[i], requested, data).Go? {
      var Go(next, data') := TurnThrough(w, c, st, w.steps[i], requested, data);
      ThroughIsPassing(w, c, st, i, requested, data);
      times := ContinuedIsUninterrupted(w, c, next, i + 1, requested, data');
      if TakeTurn(w, st, w.steps[i], requested, data).Halt? {
        var stored := GoesOnFrom(c, st, w.steps[i], data);
        ContinueGoesOn(w, c, st, i, requested, data, TakeTurn(w, st, w.steps[i], requested, data).st, next);
        SamePassSameRun(w, next, i + 1, requested, data', Requested(w, stored).value, stored);
        times := times + 1;
      }
    }
  }

  // ----- executors and commits that keep the request

  /** Executors and commits keep `generation_outputs`, as far as it decides which steps are skipped. */
  ghost predicate KeepsRequest(w: Workflow, c: Commits, requested: set<OutputKey>) {
    && (forall step, data, n | Requested(w, data) == Ok(requested) && w.exec(step, data, n).Success? ::
          Requested(w, OrElse(w.exec(step, data, n).output, data)) == Ok(requested))
    && forall id | c(id).Some? :: KeepsOutput(w, c(id).value, requested)
  }

  ghost predicate KeepsOutput(w: Workflow, output: Option<Data>, requested: set<OutputKey>) {
    output.Some? && output.value != map[] && Requested(w, output.value) == Ok(requested)
  }

  lemma {:induction false} SameRequestSameChoices(w: Workflow, st: RunState, i: nat, requested: set<OutputKey>,
                                                  data: Data)
    requires i <= |w.steps|
    ensures SameChoices(w, st, i, requested, requested, data)
    decreases |w.steps| - i
  {
    if i < |w.steps| {
      match TakeTurn(w, st, w.steps[i], requested, data)
      case Halt(_) =>
      case Go(next, data') => SameRequestSameChoices(w, next, i + 1, requested, data');
    }
  }

  lemma TurnKeepsRequest(w: Workflow, c: Commits, st: RunState, step: Step, requested: set<OutputKey>, data: Data)
    requires KeepsRequest(w, c, requested) && Requested(w, data) == Ok(requested)
    requires TurnThrough(w, c, st, step, requested, data).Go?
    ensures Requested(w, TurnThrough(w, c, st, step, requested, data).data) == Ok(requested)
    ensures TakeTurn(w, st, step, requested, data).Halt? ==>
              GoesOnFrom(c, st, step, data) == TurnThrough(w, c, st, step, requested, data).data
  {
  }

  /** Then the choices are kept, whatever pauses the run meets. */
  lemma {:induction false} KeptRequestKeepsChoices(w: Workflow, c: Commits, st: RunState, i: nat,
                                                   requested: set<OutputKey>, data: Data)
    requires i <= |w.steps| && KeepsRequest(w, c, requested) && Requested(w, data) == Ok(requested)
    ensures ChoicesKept(w, c, st, i, requested, data)
    decreases |w.steps| - i
  {
    if i < |w.steps| && TurnThrough(w, c, st, w.steps[i], requested, data).Go? {
      var Go(next, data') := TurnThrough(w, c, st, w.steps[i], requested, data);
      TurnKeepsRequest(w, c, st, w.steps[i], requested, data);
      KeptRequestKeepsChoices(w, c, next, i + 1, requested, data');
      SameRequestSameChoices(w, next, i + 1, requested, data');
    }
  }
}
