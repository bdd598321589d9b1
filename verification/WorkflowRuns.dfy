/** The stored run that the engine updates row by row. */
module WorkflowRuns {
  import opened GenerationOutputs
  import opened Results
  import opened WorkflowEngine

  class WorkflowRun {
    const w: Workflow
    var status: RunStatus
    var currentStepOrder: nat
    var executions: seq<Execution>
    var approvals: seq<Approval>
    /** The requests whose commit went through, in order. */
    ghost var commits: seq<nat>

    ghost function State(): RunState
      reads this
    {
      RunState(status, currentStepOrder, executions, approvals, commits)
    }

    constructor (w: Workflow)
      ensures this.w == w && State() == FRESH
    {
      this.w := w;
      status, currentStepOrder, executions, approvals, commits := Analyzing, 1, [], [], [];
    }

    /** One iteration of the loop of `_execute_steps`. */
    method TakeStep(step: Step, requested: set<OutputKey>, data: Data) returns (halted: bool, next: Data)
      modifies this
      ensures TakeTurn(w, old(State()), step, requested, data) == if halted then Halt(State()) else Go(State(), next)
    {
      halted, next := false, data;
      if ShouldSkip(step.stepType, requested) {
        currentStepOrder := step.order + 1;
        return;
      }
      var result := RunStep(w, step, data, |executions|);
      match result {
        case Success(output) =>
          executions := executions + [Execution(step.order, Done, data, output)];
          if step.stepType == AwaitConfirmation {
            status, currentStepOrder := AwaitingConfirmation, step.order + 1;
            halted := true;
          } else {
            next := OrElse(output, data);
          }
        case PauseExternal =>
          approvals := approvals + [Approval(|executions|, Pending)];
          executions := executions + [Execution(step.order, Awaiting, data, None)];
          status := AwaitingApproval;
          halted := true;
        case Skipped =>
          executions := executions + [Execution(step.order, SkippedAfterRetries, data, None)];
          currentStepOrder := step.order + 1;
        case Failure =>
          executions := executions + [Execution(step.order, FailedStep, data, None)];
          status := Failed;
          halted := true;
        case Raised =>
          executions := executions + [Execution(step.order, Running, data, None)];
          halted := true;
      }
    }

    /** `_execute_steps` */
    method ExecuteSteps(input: Data)
      modifies this
      ensures State() == Execute(w, old(State()), input)
    {
      var requested;
      match Requested(w, input) {
        case Err(_) => return;
        case Ok(keys) => requested := keys;
      }
      var data := input;
      var i := FirstFrom(w.steps, currentStepOrder);
      while i < |w.steps|
        invariant i <= |w.steps|
        invariant ExecuteFrom(w, State(), i, requested, data) == Execute(w, old(State()), input)
      {
        var halted;
        halted, data := TakeStep(w.steps[i], requested, data);
        if halted { return; }
        i := i + 1;
      }
      status := Completed;
    }

    /** The `resume_workflow` action of `handle_message`. */
    method ResumeWorkflow()
      modifies this
      ensures State() == Resume(w, old(State()))
    {
      if status != AwaitingConfirmation { return; }
      var last := LastCompleted(executions);
      if last.None? {
        ExecuteSteps(map[]);
      } else if last.value.output.Some? {
        ExecuteSteps(last.value.output.value);
      }
      // A missing output is no dictionary: reading the request from it raises before anything is written.
    }

    /** Every request row points at an execution row. */
    ghost predicate RequestsResolve()
      reads this
    {
      forall a | 0 <= a < |approvals| :: approvals[a].execution < |executions|
    }

    /**
     `resolve_external_approval_stream`; `commit` is what the registered commit does: output, or None if it
     raises.
     */
    method ResolveApproval(id: nat, approve: bool, commit: Option<Option<Data>>) returns (resolved: bool)
      requires RequestsResolve()
      modifies this
      ensures State() == if approve then Approve(w, old(State()), id, commit) else Reject(old(State()), id)
      ensures resolved <==> id < |old(approvals)| && old(approvals)[id].status == Pending && (approve ==> commit.Some?)
    {
      if id >= |approvals| || approvals[id].status != Pending { return false; }
      if !approve {
        RejectPending(id);
        return true;
      }
      if commit.None? { return false; }
      ApprovePending(id, commit.value);
      return true;
    }

    method RejectPending(id: nat)
      requires RequestsResolve() && id < |approvals| && approvals[id].status == Pending
      modifies this
      ensures State() == Reject(old(State()), id)
    {
      var x := approvals[id].execution;
      approvals := approvals[id := approvals[id].(status := Rejected)];
      status := Failed;
      executions := executions[x := executions[x].(status := FailedStep)];
    }

    method ApprovePending(id: nat, output: Option<Data>)
      requires RequestsResolve() && id < |approvals| && approvals[id].status == Pending
      modifies this
      ensures State() == Approve(w, old(State()), id, Some(output))
    {
      var x := approvals[id].execution;
      var done := executions[x].(status := Done, output := output);
      commits := commits + [id];
      approvals := approvals[id := approvals[id].(status := Approved)];
      executions := executions[x := done];
      status, currentStepOrder := Analyzing, done.order + 1;
      ExecuteSteps(OrElse(output, map[]));
    }
  }
}
