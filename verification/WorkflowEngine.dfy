/**
 Runs of ordered steps that pause for confirmations and external approvals
 (backend/agent/services.py, executors.py, approval_gate.py).
 */
module WorkflowEngine {
  import opened GenerationOutputs
  import opened Json
  import opened Results

  /** The dictionary handed from step to step. */
  type Data = map<string, Json>

  datatype Step = Step(order: nat, stepType: StepType)

  /** What an executor returns, or that it raised. */
  datatype StepResult = Success(output: Option<Data>) | PauseExternal | Skipped | Failure | Raised

  /** `exec` stands for the executors with effects; the last argument is the number of executions so far. */
  datatype Workflow = Workflow(steps: seq<Step>, exec: (Step, Data, nat) -> StepResult, loads: Decoder)

  /** Confirmation and flow-control executors pass their input through; `call_dify` always fails. */
  function RunStep(w: Workflow, step: Step, data: Data, n: nat): StepResult {
    if step.stepType == AwaitConfirmation || step.stepType == FlowControl then Success(Some(data))
    else if step.stepType == CallDify then Failure
    else w.exec(step, data, n)
  }

  datatype ExecutionStatus = Running | Done | Awaiting | SkippedAfterRetries | FailedStep

  datatype Execution = Execution(order: nat, status: ExecutionStatus, input: Data, output: Option<Data>)

  datatype ApprovalStatus = Pending | Approved | Rejected

  /** A request to commit something outside, made by execution number `execution`. */
  datatype Approval = Approval(execution: nat, status: ApprovalStatus)

  datatype RunStatus = Analyzing | AwaitingConfirmation | AwaitingApproval | Completed | Failed

  datatype RunState = RunState(status: RunStatus, nextOrder: nat, executions: seq<Execution>,
                               approvals: seq<Approval>, commits: seq<nat>)

  /** `result.output_data or current_data`: None and {} both keep the current data. */
  function OrElse(output: Option<Data>, data: Data): Data {
    if output.None? || output.value == map[] then data else output.value
  }

  // ----- what the engine does to a run

  function Requested(w: Workflow, data: Data): Result<set<OutputKey>, OutputsError> {
    match Normalize(Obj(data).Get("generation_outputs"), w.loads)
    case Err(e) => Err(e)
    case Ok(keys) => Ok(set k | k in keys)
  }

  /** One turn of the loop either ends or pauses the run, or hands data to the next step. */
  datatype Turn = Halt(st: RunState) | Go(st: RunState, data: Data)

  function TakeTurn(w: Workflow, st: RunState, step: Step, requested: set<OutputKey>, data: Data): Turn {
    if ShouldSkip(step.stepType, requested) then Go(st.(nextOrder := step.order + 1), data)
    else
      match RunStep(w, step, data, |st.executions|)
      case Success(output) =>
        var done := Record(st, Execution(step.order, Done, data, output));
        if step.stepType == AwaitConfirmation then
          Halt(done.(status := AwaitingConfirmation, nextOrder := step.order + 1))
        else Go(done, OrElse(output, data))
      case PauseExternal =>
        Halt(Record(st, Execution(step.order, Awaiting, data, None))
               .(status := AwaitingApproval, approvals := st.approvals + [Approval(|st.executions|, Pending)]))
      case Skipped =>
        Go(Record(st, Execution(step.order, SkippedAfterRetries, data, None)).(nextOrder := step.order + 1), data)
      case Failure => Halt(Record(st, Execution(step.order, FailedStep, data, None)).(status := Failed))
      case Raised => Halt(Record(st, Execution(step.order, Running, data, None)))
  }

  /** The steps from index `i` on, until the run ends or pauses. */
  function ExecuteFrom(w: Workflow, st: RunState, i: nat, requested: set<OutputKey>, data: Data): RunState
    requires i <= |w.steps|
    decreases |w.steps| - i
  {
    if i == |w.steps| then st.(status := Completed)
    else
      match TakeTurn(w, st, w.steps[i], requested, data)
      case Halt(r) => r
      case Go(next, data') => ExecuteFrom(w, next, i + 1, requested, data')
  }

  function Record(st: RunState, e: Execution): RunState {
    st.(executions := st.executions + [e])
  }

  /** The first step whose order is at least `order`. */
  function FirstFrom(steps: seq<Step>, order: nat): (i: nat)
    ensures i <= |steps| && (forall k | 0 <= k < i :: steps[k].order < order)
    ensures i < |steps| ==> steps[i].order >= order
  {
    if steps == [] || steps[0].order >= order then 0 else 1 + FirstFrom(steps[1..], order)
  }

  /** `_execute_steps`; unusable generation outputs raise before anything changes. */
  function Execute(w: Workflow, st: RunState, data: Data): RunState {
    match Requested(w, data)
    case Err(_) => st
    case Ok(requested) => ExecuteFrom(w, st, FirstFrom(w.steps, st.nextOrder), requested, data)
  }

  const FRESH := RunState(Analyzing, 1, [], [], [])

  function Start(w: Workflow, data: Data): RunState {
    Execute(w, FRESH, data)
  }

  /** The completed execution with the highest step order. */
  function LastCompleted(es: seq<Execution>): Option<Execution> {
    if es == [] then None
    else
      var last, best := es[|es| - 1], LastCompleted(es[..|es| - 1]);
      if last.status == Done && (best.None? || best.value.order <= last.order) then Some(last) else best
  }

  /** The data a resume starts from; an execution that stored no output yields None. */
  function StoredOutput(st: RunState): Option<Data> {
    var last := LastCompleted(st.executions);
    if last.None? then Some(map[]) else last.value.output
  }

  /** The `resume_workflow` action: only a run that awaits confirmation goes on.  Resuming from None raises at once. */
  function Resume(w: Workflow, st: RunState): RunState {
    if st.status == AwaitingConfirmation && StoredOutput(st).Some? then Execute(w, st, StoredOutput(st).value) else st
  }

  /** Approving runs the commit; `committed` is its output, or None when it raised. */
  function Approve(w: Workflow, st: RunState, id: nat, committed: Option<Option<Data>>): RunState {
    if id >= |st.approvals| || st.approvals[id].status != Pending || committed.None? then st
    else
      var x := st.approvals[id].execution;
      if x >= |st.executions| then st
      else
        var ex := st.executions[x].(status := Done, output := committed.value);
        var next := st.(approvals := st.approvals[id := st.approvals[id].(status := Approved)],
                        commits := st.commits + [id],
                        executions := st.executions[x := ex],
                        status := Analyzing,
                        nextOrder := ex.order + 1);
        Execute(w, next, OrElse(committed.value, map[]))
  }

  function Reject(st: RunState, id: nat): RunState {
    if id >= |st.approvals| || st.approvals[id].status != Pending then st
    else
      var x := st.approvals[id].execution;
      if x >= |st.executions| then st
      else
        st.(approvals := st.approvals[id := st.approvals[id].(status := Rejected)],
            executions := st.executions[x := st.executions[x].(status := FailedStep)],
            status := Failed)
  }

  datatype Action = ResumeWorkflow | ApproveRequest(id: nat, committed: Option<Option<Data>>) | RejectRequest(id: nat)

  function Act(w: Workflow, st: RunState, a: Action): RunState {
    match a
    case ResumeWorkflow => Resume(w, st)
    case ApproveRequest(id, committed) => Approve(w, st, id, committed)
    case RejectRequest(id) => Reject(st, id)
  }

  function ActAll(w: Workflow, st: RunState, actions: seq<Action>): RunState {
    if actions == [] then st else Act(w, ActAll(w, st, actions[..|actions| - 1]), actions[|actions| - 1])
  }

  /** Active steps have different orders and are read in rising order. */
  ghost predicate Ordered(w: Workflow) {
    forall i, j | 0 <= i < j < |w.steps| :: w.steps[i].order < w.steps[j].order
  }

  ghost predicate RisingOrders(es: seq<Execution>) {
    forall i, j | 0 <= i < j < |es| :: es[i].order < es[j].order
  }

  ghost predicate Below(es: seq<Execution>, order: nat) {
    forall i | 0 <= i < |es| :: es[i].order < order
  }

  /** The last execution is the confirmation step, it stored its own input, and the run goes on after it. */
  ghost predicate AwaitsConfirmation(st: RunState) {
    && st.executions != []
    && var last := st.executions[|st.executions| - 1];
       last.status == Done && last.output == Some(last.input) && st.nextOrder == last.order + 1
  }

  /** The last executor called raised, so its execution never got past "running". */
  ghost predicate EndsRaised(st: RunState) {
    st.executions != [] && st.executions[|st.executions| - 1].status == Running
  }
}
