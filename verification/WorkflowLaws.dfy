/** What a pass over the steps leaves behind, told from the rows alone, and how runs end. */
module WorkflowLaws {
  import opened GenerationOutputs
  import opened Results
  import opened WorkflowApprovals
  import opened WorkflowEngine
  import opened WorkflowOrder

  // ----- one executed step

  /** The output that a step type produces, if any. */
  function Produces(t: StepType): Option<OutputKey> {
    match t
    case CreateTasks => Some(RecommendedTasks)
    case CreateDecision => Some(RecommendedDecisionTree)
    case GenerateMiroSnapshot => Some(MiroBoard)
    case CreateMiroBoard => Some(MiroBoard)
    case _ => None
  }

  /** A step is skipped exactly when it produces an output that was not asked for. */
  lemma SkippedExactly(t: StepType, requested: set<OutputKey>)
    ensures ShouldSkip(t, requested) <==> Produces(t).Some? && Produces(t).value !in requested
  {
  }

  /** The row that a step leaves: its status and output are what its executor made of its input. */
  ghost predicate RanAs(w: Workflow, step: Step, n: nat, e: Execution) {
    && e.order == step.order
    && match step.stepType
       case AwaitConfirmation => e.status == Done && e.output == Some(e.input)
       case FlowControl => e.status == Done && e.output == Some(e.input)
       case CallDify => e.status == FailedStep && e.output.None?
       case _ =>
         match w.exec(step, e.input, n)
         case Success(output) => e.status == Done && e.output == output
         case PauseExternal => e.status == Awaiting && e.output.None?
         case Skipped => e.status == SkippedAfterRetries && e.output.None?
         case Failure => e.status == FailedStep && e.output.None?
         case Raised => e.status == Running && e.output.None?
  }

  /** What the next step gets: a completed step hands on its output, unless that is empty, any other one its input. */
  function HandedOn(e: Execution): Data {
    if e.status == Done && e.output.Some? && |e.output.value| > 0 then e.output.value else e.input
  }

  /** The loop goes on after the step. */
  predicate GoesOn(step: Step, e: Execution) {
    e.status == SkippedAfterRetries || (e.status == Done && step.stepType != AwaitConfirmation)
  }

  // ----- one pass

  /** Execution number `k` is that of step `j`, which was not to be skipped. */
  ghost predicate IsStep(w: Workflow, requested: set<OutputKey>, j: nat, k: nat, e: Execution)
    requires j < |w.steps|
  {
    !ShouldSkip(w.steps[j].stepType, requested) && RanAs(w, w.steps[j], k, e)
  }

  /** Execution number `k` is that of a step from `i` on. */
  ghost predicate IsSomeStep(w: Workflow, requested: set<OutputKey>, i: nat, k: nat, e: Execution) {
    exists j :: i <= j < |w.steps| && IsStep(w, requested, j, k, e)
  }

  ghost predicate EachRan(w: Workflow, n: nat, i: nat, requested: set<OutputKey>, es: seq<Execution>) {
    forall k | n <= k < |es| :: IsSomeStep(w, requested, i, k, es[k])
  }

  /** The first step gets the data of the pass, every other one what the step before it handed on. */
  ghost predicate EachHandedOn(n: nat, data: Data, es: seq<Execution>) {
    forall k | n <= k < |es| :: es[k].input == if k == n then data else HandedOn(es[k - 1])
  }

  ghost predicate AllButLastGoOn(n: nat, es: seq<Execution>) {
    forall k | n <= k < |es| - 1 :: es[k].status in {SkippedAfterRetries, Done}
  }

  /** The last of the new executions stopped the pass. */
  ghost predicate Stopped(w: Workflow, n: nat, i: nat, es: seq<Execution>) {
    && n < |es|
    && exists j :: i <= j < |w.steps| && w.steps[j].order == es[|es| - 1].order && !GoesOn(w.steps[j], es[|es| - 1])
  }

  /** Every step that was not to be skipped was executed, up to the one that stopped the pass. */
  ghost predicate NoneMissing(w: Workflow, n: nat, i: nat, requested: set<OutputKey>, es: seq<Execution>) {
    forall j | i <= j < |w.steps| && !ShouldSkip(w.steps[j].stepType, requested) ::
      || (exists k :: n <= k < |es| && es[k].order == w.steps[j].order)
      || (Stopped(w, n, i, es) && w.steps[j].order > es[|es| - 1].order)
  }

  /** How the pass leaves the run, by the execution that stopped it. */
  ghost predicate EndsAs(w: Workflow, st: RunState, i: nat, r: RunState) {
    if !Stopped(w, |st.executions|, i, r.executions) then r.status == Completed && r.approvals == st.approvals
    else
      var last := |r.executions| - 1;
      match r.executions[last].status
      case Done =>
        r.status == AwaitingConfirmation && r.approvals == st.approvals && r.nextOrder == r.executions[last].order + 1
      case Awaiting => r.status == AwaitingApproval && r.approvals == st.approvals + [Approval(last, Pending)]
      case FailedStep => r.status == Failed && r.approvals == st.approvals
      case Running => r.status == st.status && r.approvals == st.approvals
      case SkippedAfterRetries => false
  }

  ghost predicate IsPass(w: Workflow, st: RunState, i: nat, requested: set<OutputKey>, data: Data, r: RunState) {
    var n := |st.executions|;
    && st.executions <= r.executions && r.commits == st.commits
    && EachRan(w, n, i, requested, r.executions)
    && EachHandedOn(n, data, r.executions)
    && AllButLastGoOn(n, r.executions)
    && NoneMissing(w, n, i, requested, r.executions)
    && EndsAs(w, st, i, r)
  }

  lemma TurnRan(w: Workflow, st: RunState, i: nat, requested: set<OutputKey>, data: Data)
    requires i < |w.steps| && !ShouldSkip(w.steps[i].stepType, requested)
    ensures var t, n := TakeTurn(w, st, w.steps[i], requested, data), |st.executions|;
            && |t.st.executions| == n + 1 && st.executions <= t.st.executions && t.st.commits == st.commits
            && IsStep(w, requested, i, n, t.st.executions[n]) && t.st.executions[n].input == data
            && (t.Go? <==> GoesOn(w.steps[i], t.st.executions[n]))
            && (t.Go? ==> t.data == HandedOn(t.st.executions[n]) && t.st.approvals == st.approvals)
  {
  }

  /** What a turn that goes on means for the executions `es` at the end of the pass; `m` of them are there after it. */
  ghost predicate TurnIn(w: Workflow, i: nat, requested: set<OutputKey>, data: Data, n: nat, m: nat, data': Data,
                         es: seq<Execution>)
    requires i < |w.steps|
  {
    && n <= m <= |es| && (m < |es| ==> es[|es| - 1].order > w.steps[i].order)
    && if ShouldSkip(w.steps[i].stepType, requested) then m == n && data' == data
       else (&& m == n + 1 && IsStep(w, requested, i, n, es[n]) && es[n].input == data
             && GoesOn(w.steps[i], es[n]) && data' == HandedOn(es[n]))
  }

  lemma NextOfPass(w: Workflow, st: RunState, i: nat, requested: set<OutputKey>, data: Data)
    requires Ordered(w) && i < |w.steps| && TakeTurn(w, st, w.steps[i], requested, data).Go?
    ensures var t := TakeTurn(w, st, w.steps[i], requested, data);
            var r := ExecuteFrom(w, t.st, i + 1, requested, t.data);
            && t.st.executions <= r.executions && st.executions <= t.st.executions
            && TurnIn(w, i, requested, data, |st.executions|, |t.st.executions|, t.data, r.executions)
            && t.st.status == st.status && t.st.approvals == st.approvals && t.st.commits == st.commits
  {
    var t := TakeTurn(w, st, w.steps[i], requested, data);
    LaterOrdersOnly(w, t.st, i + 1, requested, t.data, w.steps[i].order + 1);
    if !ShouldSkip(w.steps[i].stepType, requested) {
      TurnRan(w, st, i, requested, data);
      assert ExecuteFrom(w, t.st, i + 1, requested,
          t.data).executions[|st.executions|] == t.st.executions[|st.executions|];
    }
  }

  lemma EachRanStep(w: Workflow, n: nat, m: nat, i: nat, requested: set<OutputKey>, data: Data, data': Data,
                    es: seq<Execution>)
    requires i < |w.steps| && TurnIn(w, i, requested, data, n, m, data', es) && EachRan(w, m, i + 1, requested, es)
    ensures EachRan(w, n, i, requested, es)
  {
    forall k | n <= k < |es| ensures IsSomeStep(w, requested, i, k, es[k]) {
      if k == n && m == n + 1 {
        assert IsStep(w, requested, i, k, es[k]);
      } else {
        assert IsSomeStep(w, requested, i + 1, k, es[k]);
        var j :| i + 1 <= j < |w.steps| && IsStep(w, requested, j, k, es[k]);
      }
    }
  }

  lemma {:induction false} PassRan(w: Workflow, st: RunState, i: nat, requested: set<OutputKey>, data: Data)
    requires Ordered(w) && i <= |w.steps|
    ensures var r := ExecuteFrom(w, st, i, requested, data);
            && st.executions <= r.executions && r.commits == st.commits
            && EachRan(w, |st.executions|, i, requested, r.executions)
    decreases |w.steps| - i
  {
    if i < |w.steps| {
      var n, skips := |st.executions|, ShouldSkip(w.steps[i].stepType, requested);
      match TakeTurn(w, st, w.steps[i], requested, data)
      case Halt(_) => TurnRan(w, st, i, requested, data);
      case Go(next, data') =>
        NextOfPass(w, st, i, requested, data);
        PassRan(w, next, i + 1, requested, data');
        EachRanStep(w, n, |next.executions|, i, requested, data, data',
                    ExecuteFrom(w, next, i + 1, requested, data').executions);
    }
  }

  lemma HandsOnStep(w: Workflow, n: nat, m: nat, i: nat, requested: set<OutputKey>, data: Data, data': Data,
                    es: seq<Execution>)
    requires i < |w.steps| && TurnIn(w, i, requested, data, n, m, data', es)
    requires EachHandedOn(m, data', es) && AllButLastGoOn(m, es)
    ensures EachHandedOn(n, data, es) && AllButLastGoOn(n, es)
  {
  }

  lemma {:induction false} PassHandsOn(w: Workflow, st: RunState, i: nat, requested: set<OutputKey>, data: Data)
    requires Ordered(w) && i <= |w.steps|
    ensures var r := ExecuteFrom(w, st, i, requested, data);
            EachHandedOn(|st.executions|, data, r.executions) && AllButLastGoOn(|st.executions|, r.executions)
    decreases |w.steps| - i
  {
    if i < |w.steps| {
      match TakeTurn(w, st, w.steps[i], requested, data)
      case Halt(_) => TurnRan(w, st, i, requested, data);
      case Go(next, data') =>
        NextOfPass(w, st, i, requested, data);
        PassHandsOn(w, next, i + 1, requested, data');
        HandsOnStep(w, |st.executions|, |next.executions|, i, requested, data, data',
                    ExecuteFrom(w, next, i + 1, requested, data').executions);
    }
  }

  /** Whether a pass was stopped is decided after a turn that goes on. */
  lemma StoppedLater(w: Workflow, n: nat, m: nat, i: nat, requested: set<OutputKey>, data: Data, data': Data,
                     es: seq<Execution>)
    requires Ordered(w) && i < |w.steps| && TurnIn(w, i, requested, data, n, m, data', es)
    ensures Stopped(w, n, i, es) <==> Stopped(w, m, i + 1, es)
  {
    if Stopped(w, n, i, es) {
      var j :| i <= j < |w.steps| && w.steps[j].order == es[|es| - 1].order && !GoesOn(w.steps[j], es[|es| - 1]);
    }
  }

  lemma MissesNoneStep(w: Workflow, n: nat, m: nat, i: nat, requested: set<OutputKey>, data: Data, data': Data,
                       es: seq<Execution>)
    requires Ordered(w) && i < |w.steps| && TurnIn(w, i, requested, data, n, m, data', es)
    requires NoneMissing(w, m, i + 1, requested, es)
    ensures NoneMissing(w, n, i, requested, es)
  {
    StoppedLater(w, n, m, i, requested, data, data', es);
    forall j | i <= j < |w.steps| && !ShouldSkip(w.steps[j].stepType, requested)
      ensures || (exists k :: n <= k < |es| && es[k].order == w.steps[j].order)
              || (Stopped(w, n, i, es) && w.steps[j].order > es[|es| - 1].order)
    {
      if j == i {
        assert es[n].order == w.steps[j].order;
      } else if k :| m <= k < |es| && es[k].order == w.steps[j].order {
        assert n <= k;
      }
    }
  }

  lemma {:induction false} PassMissesNone(w: Workflow, st: RunState, i: nat, requested: set<OutputKey>, data: Data)
    requires Ordered(w) && i <= |w.steps|
    ensures NoneMissing(w, |st.executions|, i, requested, ExecuteFrom(w, st, i, requested, data).executions)
    decreases |w.steps| - i
  {
    if i < |w.steps| {
      match TakeTurn(w, st, w.steps[i], requested, data)
      case Halt(r) => HaltMissesNone(w, st, i, requested, data);
      case Go(next, data') =>
        NextOfPass(w, st, i, requested, data);
        PassMissesNone(w, next, i + 1, requested, data');
        MissesNoneStep(w, |st.executions|, |next.executions|, i, requested, data, data',
                       ExecuteFrom(w, next, i + 1, requested, data').executions);
    }
  }

  lemma HaltMissesNone(w: Workflow, st: RunState, i: nat, requested: set<OutputKey>, data: Data)
    requires Ordered(w) && i < |w.steps| && TakeTurn(w, st, w.steps[i], requested, data).Halt?
    ensures var es := TakeTurn(w, st, w.steps[i], requested, data).st.executions;
            Stopped(w, |st.executions|, i, es) && NoneMissing(w, |st.executions|, i, requested, es)
  {
    TurnRan(w, st, i, requested, data);
    var n, es := |st.executions|, TakeTurn(w, st, w.steps[i], requested, data).st.executions;
    assert es[n].order == w.steps[i].order && !GoesOn(w.steps[i], es[n]);
  }

  lemma TurnEnds(w: Workflow, st: RunState, i: nat, requested: set<OutputKey>, data: Data)
    requires Ordered(w) && i < |w.steps| && TakeTurn(w, st, w.steps[i], requested, data).Halt?
    ensures EndsAs(w, st, i, TakeTurn(w, st, w.steps[i], requested, data).st)
  {
    HaltMissesNone(w, st, i, requested, data);
  }

  lemma EndsStep(w: Workflow, st: RunState, next: RunState, i: nat, r: RunState)
    requires next.status == st.status && next.approvals == st.approvals
    requires Stopped(w, |st.executions|, i, r.executions) <==> Stopped(w, |next.executions|, i + 1, r.executions)
    requires EndsAs(w, next, i + 1, r)
    ensures EndsAs(w, st, i, r)
  {
  }

  lemma {:induction false} PassEnds(w: Workflow, st: RunState, i: nat, requested: set<OutputKey>, data: Data)
    requires Ordered(w) && i <= |w.steps|
    ensures EndsAs(w, st, i, ExecuteFrom(w, st, i, requested, data))
    decreases |w.steps| - i
  {
    if i < |w.steps| {
      match TakeTurn(w, st, w.steps[i], requested, data)
      case Halt(_) => TurnEnds(w, st, i, requested, data);
      case Go(next, data') =>
        var r := ExecuteFrom(w, next, i + 1, requested, data');
        NextOfPass(w, st, i, requested, data);
        PassEnds(w, next, i + 1, requested, data');
        StoppedLater(w, |st.executions|, |next.executions|, i, requested, data, data', r.executions);
        EndsStep(w, st, next, i, r);
    }
  }

  /**
   A pass executes exactly the steps not to be skipped, up to the first that stops it; each executor gets
   what the one before handed on, and the last decides how the run ends.
   */
  lemma PassExactly(w: Workflow, st: RunState, i: nat, requested: set<OutputKey>, data: Data)
    requires Ordered(w) && i <= |w.steps|
    ensures IsPass(w, st, i, requested, data, ExecuteFrom(w, st, i, requested, data))
  {
    PassRan(w, st, i, requested, data);
    PassHandsOn(w, st, i, requested, data);
    PassMissesNone(w, st, i, requested, data);
    PassEnds(w, st, i, requested, data);
  }

  // ----- the order at which a run goes on

  /** The pass went past step `j`: it skipped it, gave it up after retries, or paused at its confirmation. */
  ghost predicate WentPast(w: Workflow, n: nat, requested: set<OutputKey>, j: nat, es: seq<Execution>)
    requires j < |w.steps|
  {
    || ShouldSkip(w.steps[j].stepType, requested)
    || exists k :: n <= k < |es| && es[k].order == w.steps[j].order && IsPastStep(w.steps[j], es[k])
  }

  ghost predicate IsPastStep(step: Step, e: Execution) {
    e.status == SkippedAfterRetries || (e.status == Done && step.stepType == AwaitConfirmation)
  }

  /** The pass has reached step `j`. */
  ghost predicate Reached(w: Workflow, n: nat, i: nat, j: nat, es: seq<Execution>)
    requires j < |w.steps|
  {
    Stopped(w, n, i, es) ==> w.steps[j].order <= es[|es| - 1].order
  }

  /** The order moves from `before` to one after the last step that the pass went past. */
  ghost predicate Moves(w: Workflow, n: nat, i: nat, requested: set<OutputKey>, es: seq<Execution>,
                        before: nat, after: nat) {
    && (forall j | i <= j < |w.steps| && WentPast(w, n, requested, j, es) && Reached(w, n, i, j, es) ::
          after > w.steps[j].order)
    && (after == before || exists j :: i <= j < |w.steps| && WentPast(w, n, requested, j, es)
                                       && Reached(w, n, i, j, es) && after == w.steps[j].order + 1)
  }

  lemma WentPastLater(w: Workflow, n: nat, m: nat, i: nat, requested: set<OutputKey>, data: Data, data': Data,
                      es: seq<Execution>, j: nat)
    requires Ordered(w) && i < j < |w.steps| && TurnIn(w, i, requested, data, n, m, data', es)
    ensures WentPast(w, n, requested, j, es) <==> WentPast(w, m, requested, j, es)
    ensures Reached(w, n, i, j, es) <==> Reached(w, m, i + 1, j, es)
  {
    StoppedLater(w, n, m, i, requested, data, data', es);
  }

  lemma MovesStep(w: Workflow, n: nat, m: nat, i: nat, requested: set<OutputKey>, data: Data, data': Data,
                  es: seq<Execution>, before: nat, middle: nat, after: nat)
    requires Ordered(w) && i < |w.steps| && TurnIn(w, i, requested, data, n, m, data', es)
    requires before <= w.steps[i].order && (i + 1 < |w.steps| ==> w.steps[i].order < w.steps[i + 1].order)
    requires middle == if ShouldSkip(w.steps[i].stepType, requested) || es[n].status == SkippedAfterRetries
                       then w.steps[i].order + 1 else before
    requires Moves(w, m, i + 1, requested, es, middle, after)
    requires RisingFrom(n, es)
    ensures Moves(w, n, i, requested, es, before, after)
  {
    StoppedLater(w, n, m, i, requested, data, data', es);
    forall j | i < j < |w.steps|
      ensures WentPast(w, n, requested, j, es) <==> WentPast(w, m, requested, j, es)
      ensures Reached(w, n, i, j, es) <==> Reached(w, m, i + 1, j, es)
    {
      WentPastLater(w, n, m, i, requested, data, data', es, j);
    }
    assert WentPast(w, n, requested, i, es) <==> middle == w.steps[i].order + 1;
    assert Reached(w, n, i, i, es);
  }

  ghost predicate RisingFrom(n: nat, es: seq<Execution>) {
    forall j, k | n <= j < k < |es| :: es[j].order < es[k].order
  }

  lemma RisesStep(w: Workflow, n: nat, m: nat, i: nat, requested: set<OutputKey>, data: Data, data': Data,
                  es: seq<Execution>)
    requires i < |w.steps| && TurnIn(w, i, requested, data, n, m, data', es)
    requires RisingFrom(m, es) && forall k | m <= k < |es| :: es[k].order >= w.steps[i].order + 1
    ensures RisingFrom(n, es)
  {
  }

  lemma {:induction false} PassRises(w: Workflow, st: RunState, i: nat, requested: set<OutputKey>, data: Data)
    requires Ordered(w) && i <= |w.steps|
    ensures RisingFrom(|st.executions|, ExecuteFrom(w, st, i, requested, data).executions)
    decreases |w.steps| - i
  {
    if i < |w.steps| {
      match TakeTurn(w, st, w.steps[i], requested, data)
      case Halt(_) => TurnRan(w, st, i, requested, data);
      case Go(next, data') =>
        NextOfPass(w, st, i, requested, data);
        PassRises(w, next, i + 1, requested, data');
        LaterOrdersOnly(w, next, i + 1, requested, data', w.steps[i].order + 1);
        RisesStep(w, |st.executions|, |next.executions|, i, requested, data, data',
                  ExecuteFrom(w, next, i + 1, requested, data').executions);
    }
  }

  lemma HaltMoves(w: Workflow, st: RunState, i: nat, requested: set<OutputKey>, data: Data)
    requires Ordered(w) && i < |w.steps| && TakeTurn(w, st, w.steps[i], requested, data).Halt?
    ensures var r := TakeTurn(w, st, w.steps[i], requested, data).st;
            Moves(w, |st.executions|, i, requested, r.executions, st.nextOrder, r.nextOrder)
  {
    var n, r := |st.executions|, TakeTurn(w, st, w.steps[i], requested, data).st;
    HaltMissesNone(w, st, i, requested, data);
    TurnRan(w, st, i, requested, data);
    assert Reached(w, n, i, i, r.executions);
    assert WentPast(w, n, requested, i, r.executions) <==> IsPastStep(w.steps[i], r.executions[n]);
  }

  /** After a pass the run stands one after the last step that the pass went past. */
  lemma {:induction false} PassMoves(w: Workflow, st: RunState, i: nat, requested: set<OutputKey>, data: Data)
    requires Ordered(w) && i <= |w.steps| && (i < |w.steps| ==> st.nextOrder <= w.steps[i].order)
    ensures var r := ExecuteFrom(w, st, i, requested, data);
            Moves(w, |st.executions|, i, requested, r.executions, st.nextOrder, r.nextOrder)
    decreases |w.steps| - i
  {
    if i < |w.steps| {
      match TakeTurn(w, st, w.steps[i], requested, data)
      case Halt(_) => HaltMoves(w, st, i, requested, data);
      case Go(next, data') =>
        var r := ExecuteFrom(w, next, i + 1, requested, data');
        NextOfPass(w, st, i, requested, data);
        PassMoves(w, next, i + 1, requested, data');
        PassRises(w, st, i, requested, data);
        MiddleOrder(w, st, i, requested, data, r.executions);
        MovesStep(w, |st.executions|, |next.executions|, i, requested, data, data', r.executions,
                  st.nextOrder, next.nextOrder, r.nextOrder);
    }
  }

  lemma MiddleOrder(w: Workflow, st: RunState, i: nat, requested: set<OutputKey>, data: Data, es: seq<Execution>)
    requires i < |w.steps| && TakeTurn(w, st, w.steps[i], requested, data).Go?
    requires TakeTurn(w, st, w.steps[i], requested, data).st.executions <= es
    ensures TakeTurn(w, st, w.steps[i], requested, data).st.nextOrder
         == if ShouldSkip(w.steps[i].stepType, requested) || es[|st.executions|].status == SkippedAfterRetries
            then w.steps[i].order + 1 else st.nextOrder
  {
  }

  // ----- where a run goes on

  /** The completed execution of the highest order, the latest of several. */
  lemma {:induction false} LastCompletedExactly(es: seq<Execution>)
    ensures match LastCompleted(es)
            case None => forall k | 0 <= k < |es| :: es[k].status != Done
            case Some(e) =>
              exists k :: 0 <= k < |es| && es[k] == e && e.status == Done && IsHighest(es, k)
  {
    if es != [] {
      LastCompletedExactly(es[..|es| - 1]);
      var best := LastCompleted(es[..|es| - 1]);
      if best.Some? {
        var k :| 0 <= k < |es| - 1 && es[k] == best.value && IsHighest(es[..|es| - 1], k);
        assert es[k].order > es[|es| - 1].order || es[|es| - 1].status != Done ==> IsHighest(es, k);
      }
      if es[|es| - 1].status == Done && (best.None? || best.value.order <= es[|es| - 1].order) {
        assert IsHighest(es, |es| - 1);
      }
    }
  }

  ghost predicate IsHighest(es: seq<Execution>, k: nat)
    requires k < |es|
  {
    forall j | 0 <= j < |es| && es[j].status == Done ::
        es[j].order < es[k].order || (es[j].order == es[k].order && j <= k)
  }

  /** `r` is what `_execute_steps` makes of the run: nothing when the data ask for no valid outputs. */
  ghost predicate IsExecute(w: Workflow, st: RunState, data: Data, r: RunState) {
    match Requested(w, data)
    case Err(_) => r == st
    case Ok(requested) =>
      exists i :: 0 <= i <= |w.steps| && FromOrder(w, st.nextOrder, i) && IsPass(w, st, i, requested, data, r)
  }

  ghost predicate FromOrder(w: Workflow, order: nat, i: nat) {
    forall k | 0 <= k < |w.steps| :: k < i <==> w.steps[k].order < order
  }

  lemma ExecuteExactly(w: Workflow, st: RunState, data: Data)
    requires Ordered(w)
    ensures IsExecute(w, st, data, Execute(w, st, data))
  {
    match Requested(w, data)
    case Err(_) =>
    case Ok(requested) =>
      FirstFromSplits(w, st.nextOrder);
      assert FromOrder(w, st.nextOrder, FirstFrom(w.steps, st.nextOrder));
      PassExactly(w, st, FirstFrom(w.steps, st.nextOrder), requested, data);
  }

  /** A resume goes on with what the completed step of the highest order stored, or with nothing before any. */
  lemma ResumeExactly(w: Workflow, st: RunState)
    requires Ordered(w)
    ensures if st.status != AwaitingConfirmation then Resume(w, st) == st
            else
              match LastCompleted(st.executions)
              case None => IsExecute(w, st, map[], Resume(w, st))
              case Some(e) =>
                if e.output.None? then Resume(w, st) == st else IsExecute(w, st, e.output.value, Resume(w, st))
  {
    if st.status == AwaitingConfirmation && StoredOutput(st).Some? {
      ExecuteExactly(w, st, StoredOutput(st).value);
    }
  }

  /** `next` is the run with request `id` approved: its execution is completed with the output of the commit. */
  ghost predicate IsApproved(st: RunState, id: nat, output: Option<Data>, next: RunState)
    requires id < |st.approvals| && st.approvals[id].execution < |st.executions|
  {
    var x := st.approvals[id].execution;
    && |next.approvals| == |st.approvals| && |next.executions| == |st.executions|
    && next.approvals[id] == Approval(x, Approved) && next.commits == st.commits + [id]
    && (forall a | 0 <= a < |st.approvals| && a != id :: next.approvals[a] == st.approvals[a])
    && next.executions[x] == Execution(st.executions[x].order, Done, st.executions[x].input, output)
    && (forall k | 0 <= k < |st.executions| && k != x :: next.executions[k] == st.executions[k])
    && next.nextOrder == st.executions[x].order + 1 && next.status == Analyzing
  }

  /** An approval goes on from the commit's output, or from nothing when there is none, after the step. */
  lemma ApproveExactly(w: Workflow, st: RunState, id: nat, committed: Option<Option<Data>>)
    requires Ordered(w) && id < |st.approvals| && st.approvals[id].execution < |st.executions|
    ensures if st.approvals[id].status != Pending || committed.None? then Approve(w, st, id, committed) == st
            else exists next :: IsApproved(st, id, committed.value, next)
                   && IsExecute(w, next, if committed.value.Some? then committed.value.value else map[],
                                Approve(w, st, id, committed))
  {
    if st.approvals[id].status == Pending && committed.Some? {
      var next := ApprovedState(st, id, committed.value);
      ApprovedExactly(st, id, committed.value, next);
      ExecuteExactly(w, next, OrElse(committed.value, map[]));
      ApproveIsExecute(w, st, id, committed.value);
    }
  }

  lemma ApproveIsExecute(w: Workflow, st: RunState, id: nat, output: Option<Data>)
    requires id < |st.approvals| && st.approvals[id].execution < |st.executions| && st.approvals[id].status == Pending
    ensures Approve(w, st, id, Some(output)) == Execute(w, ApprovedState(st, id, output), OrElse(output, map[]))
  {
  }

  lemma ApprovedExactly(st: RunState, id: nat, output: Option<Data>, next: RunState)
    requires id < |st.approvals| && st.approvals[id].execution < |st.executions| &&
        next == ApprovedState(st, id, output)
    ensures IsApproved(st, id, output, next)
  {
  }

  // ----- how runs end

  /** Nothing of the run has failed and no request is open. */
  ghost predicate Unfailed(st: RunState) {
    && st.status in {Analyzing, AwaitingConfirmation}
    && (forall k | 0 <= k < |st.executions| :: st.executions[k].status !in {FailedStep, Awaiting})
    && forall a | 0 <= a < |st.approvals| :: st.approvals[a].status == Approved && ApprovalShows(st, a)
  }

  /** The execution that made a request shows what became of it. */
  ghost predicate ApprovalShows(st: RunState, a: nat)
    requires a < |st.approvals|
  {
    && st.approvals[a].execution < |st.executions|
    && st.executions[st.approvals[a].execution].status == match st.approvals[a].status
                                                          case Pending => Awaiting
                                                          case Approved => Done
                                                          case Rejected => FailedStep
  }

  /** A failed step is the last one and the run failed; a step awaits approval while its request is open. */
  ghost predicate EndsInOrder(st: RunState) {
    && (forall k | 0 <= k < |st.executions| && st.executions[k].status == FailedStep ::
          k == |st.executions| - 1 && st.status == Failed)
    && (st.status == Failed ==> st.executions != [] && st.executions[|st.executions| - 1].status == FailedStep)
    && (forall a | 0 <= a < |st.approvals| :: ApprovalShows(st, a))
    && forall k | 0 <= k < |st.executions| && st.executions[k].status == Awaiting ::
         k == |st.executions| - 1 && st.status == AwaitingApproval
  }

  lemma TurnEndsInOrder(w: Workflow, st: RunState, step: Step, requested: set<OutputKey>, data: Data)
    requires Unfailed(st)
    ensures match TakeTurn(w, st, step, requested, data)
            case Halt(r) => EndsInOrder(r)
            case Go(next, _) => Unfailed(next)
  {
  }

  lemma {:induction false} PassEndsInOrder(w: Workflow, st: RunState, i: nat, requested: set<OutputKey>, data: Data)
    requires i <= |w.steps| && Unfailed(st)
    ensures EndsInOrder(ExecuteFrom(w, st, i, requested, data))
    decreases |w.steps| - i
  {
    if i < |w.steps| {
      TurnEndsInOrder(w, st, w.steps[i], requested, data);
      match TakeTurn(w, st, w.steps[i], requested, data)
      case Halt(_) =>
      case Go(next, data') => PassEndsInOrder(w, next, i + 1, requested, data');
    }
  }

  lemma ExecuteEndsInOrder(w: Workflow, st: RunState, data: Data)
    requires Unfailed(st)
    ensures EndsInOrder(Execute(w, st, data))
  {
    match Requested(w, data)
    case Err(_) =>
    case Ok(requested) => PassEndsInOrder(w, st, FirstFrom(w.steps, st.nextOrder), requested, data);
  }

  lemma ActEndsInOrder(w: Workflow, st: RunState, a: Action)
    requires RequestsFit(st) && EndsInOrder(st)
    ensures EndsInOrder(Act(w, st, a))
  {
    match a
    case ResumeWorkflow =>
      if st.status == AwaitingConfirmation && StoredOutput(st).Some? {
        ExecuteEndsInOrder(w, st, StoredOutput(st).value);
      }
    case ApproveRequest(id, committed) =>
      if id < |st.approvals| && st.approvals[id].status == Pending && committed.Some? {
        ApprovedIsUnfailed(st, id, committed.value);
        ExecuteEndsInOrder(w, ApprovedState(st, id, committed.value), OrElse(committed.value, map[]));
      }
    case RejectRequest(id) =>
      if id < |st.approvals| && st.approvals[id].status == Pending { RejectedEndsInOrder(st, id); }
  }

  /** The other requests belong to other executions. */
  lemma OthersElsewhere(st: RunState, id: nat)
    requires RequestsFit(st) && id < |st.approvals|
    ensures forall a | 0 <= a < |st.approvals| && a != id :: st.approvals[a].execution != st.approvals[id].execution
  {
    forall a | 0 <= a < |st.approvals| && a != id ensures st.approvals[a].execution != st.approvals[id].execution {
      if a < id {
        assert st.approvals[a].execution < st.approvals[id].execution;
      } else {
        assert st.approvals[id].execution < st.approvals[a].execution;
      }
    }
  }

  lemma RejectedEndsInOrder(st: RunState, id: nat)
    requires RequestsFit(st) && EndsInOrder(st) && id < |st.approvals| && st.approvals[id].status == Pending
    ensures EndsInOrder(Reject(st, id))
  {
    OthersElsewhere(st, id);
    var r := Reject(st, id);
    forall a | 0 <= a < |r.approvals| ensures ApprovalShows(r, a) {
      assert ApprovalShows(st, a);
    }
  }

  lemma ApprovedIsUnfailed(st: RunState, id: nat, output: Option<Data>)
    requires RequestsFit(st) && EndsInOrder(st) && id < |st.approvals| && st.approvals[id].status == Pending
    ensures Unfailed(ApprovedState(st, id, output))
  {
    OthersElsewhere(st, id);
    var r := ApprovedState(st, id, output);
    forall a | 0 <= a < |r.approvals| ensures r.approvals[a].status == Approved && ApprovalShows(r, a) {
      assert ApprovalShows(st, a);
    }
  }

  /**
   In every run of every workflow: a failed step ends the run as failed, and a failed run ends with one; the
   execution that made a request awaits, is completed or failed as the request is open, approved or rejected.
   */
  lemma {:induction false} EveryRunEndsInOrder(w: Workflow, data: Data, actions: seq<Action>)
    ensures EndsInOrder(ActAll(w, Start(w, data), actions))
  {
    if actions == [] {
      ExecuteEndsInOrder(w, FRESH, data);
    } else {
      EveryRunEndsInOrder(w, data, actions[..|actions| - 1]);
      EveryRunIsAccounted(w, data, actions[..|actions| - 1]);
      ActEndsInOrder(w, ActAll(w, Start(w, data), actions[..|actions| - 1]), actions[|actions| - 1]);
    }
  }

  /** A run that has completed or failed is over. */
  lemma EndedIsOver(w: Workflow, data: Data, actions: seq<Action>, a: Action)
    requires ActAll(w, Start(w, data), actions).status in {Completed, Failed}
    ensures Act(w, ActAll(w, Start(w, data), actions), a) == ActAll(w, Start(w, data), actions)
  {
    EveryRunIsAccounted(w, data, actions);
  }
}
