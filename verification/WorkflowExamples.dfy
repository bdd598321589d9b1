/** Workflows whose pauses change what they do. */
module WorkflowExamples {
  import opened GenerationOutputs
  import opened Results
  import opened WorkflowDivergence
  import opened WorkflowEngine
  import opened WorkflowOrder
  import opened WorkflowPauses

  /** `call_llm` drops the request: a run that asked for a board only creates tasks after the pause. */
  lemma CallLlmLosesTheRequest(w: Workflow, data: Data, out: Data)
    requires w.steps == [Step(1, OtherStep("call_llm")), Step(2, AwaitConfirmation), Step(3, CreateTasks)]
    requires forall s, d, n :: w.exec(s, d, n) == Success(Some(out))
    requires out != map[] && "generation_outputs" !in out && Requested(w, data) == Ok({MiroBoard})
    ensures var goal := Uninterrupted(w, NO_COMMITS, FRESH, 0, {MiroBoard}, data);
            && (forall times: nat :: var r := ResumeAll(w, Start(w, data), times);
                  r.executions != goal.executions || r.status == AwaitingConfirmation)
            && !ResumesTo(w, Start(w, data), goal)
  {
    var e1, e2 := Execution(1, Done, data, Some(out)), Execution(2, Done, out, Some(out));
    var paused := RunState(AwaitingConfirmation, 3, [e1, e2], [], []);
    var asked := {MiroBoard};
    var first := Record(FRESH, e1);
    assert TakeTurn(w, FRESH, w.steps[0], asked, data) == Go(first, out);
    assert TakeTurn(w, first, w.steps[1], asked, out) == Halt(paused);
    assert FirstFrom(w.steps, 1) == 0;
    assert ExecuteFrom(w, FRESH, 0, asked, data) == ExecuteFrom(w, first, 1, asked, out) == paused;
    assert Start(w, data) == paused;
    assert TakeTurn(w, paused, w.steps[2], asked, out) == Go(paused.(nextOrder := 4), out);
    assert Uninterrupted(w, NO_COMMITS, paused, 2, asked, out) == paused.(nextOrder := 4, status := Completed);
    assert Uninterrupted(w, NO_COMMITS, first, 1, asked, out) == Uninterrupted(w, NO_COMMITS, paused, 2, asked, out);
    var end := Record(paused, Execution(3, Done, out, Some(out))).(status := Completed);
    ResumesFromConfirmation(paused);
    TasksAfterThePause(w, paused, out);
    forall times: nat ensures times > 0 ==> ResumeAll(w, paused, times) == end {
      if times > 0 { NothingToResume(w, end, times - 1); }
    }
  }

  lemma TasksAfterThePause(w: Workflow, paused: RunState, out: Data)
    requires w.steps == [Step(1, OtherStep("call_llm")), Step(2, AwaitConfirmation), Step(3, CreateTasks)]
    requires forall s, d, n :: w.exec(s, d, n) == Success(Some(out))
    requires out != map[] && "generation_outputs" !in out
    requires RisingOrders(paused.executions) && AwaitsConfirmation(paused) && paused.nextOrder == 3
    requires paused.status == AwaitingConfirmation && StoredOutput(paused) == Some(out)
    ensures Resume(w, paused) == Record(paused, Execution(3, Done, out, Some(out))).(status := Completed)
  {
    var all := {RecommendedTasks, RecommendedDecisionTree, MiroBoard};
    NothingAskedIsAll(w, out);
    FirstFromSplits(w, 3);
    assert w.steps[1].order == 2 && w.steps[2].order == 3;
    assert FirstFrom(w.steps, 3) == 2;
    assert !ShouldSkip(CreateTasks, all);
    var e3 := Execution(3, Done, out, Some(out));
    assert TakeTurn(w, paused, w.steps[2], all, out) == Go(Record(paused, e3), out);
    assert ExecuteFrom(w, paused, 2, all, out) == ExecuteFrom(w, Record(paused, e3), 3, all, out);
  }

  lemma NothingAskedIsAll(w: Workflow, out: Data)
    requires "generation_outputs" !in out
    ensures Requested(w, out) == Ok({RecommendedTasks, RecommendedDecisionTree, MiroBoard})
  {
    assert (set k | k in ALL_OUTPUTS) == {RecommendedTasks, RecommendedDecisionTree, MiroBoard} by {
      assert ALL_OUTPUTS[0] == RecommendedTasks && ALL_OUTPUTS[1] == RecommendedDecisionTree;
      assert ALL_OUTPUTS[2] == MiroBoard;
    }
  }

  /**
   With two confirmations in a row, each resume does what the request in force before it would have done,
   and yet the run never gets to the end of the uninterrupted pass.
   */
  lemma LostBetweenPauses(w: Workflow, data: Data, out: Data)
    requires w.steps == [Step(1, OtherStep("call_llm")), Step(2, AwaitConfirmation), Step(3, AwaitConfirmation),
                         Step(4, CreateTasks)]
    requires forall s, d, n :: w.exec(s, d, n) == Success(Some(out))
    requires out != map[] && "generation_outputs" !in out && Requested(w, data) == Ok({MiroBoard})
    ensures var asked, all := {MiroBoard}, {RecommendedTasks, RecommendedDecisionTree, MiroBoard};
            var r1 := Start(w, data);
            var r2 := Resume(w, r1);
            && r1.status == r2.status == AwaitingConfirmation && StoredOutput(r1) == Some(out)
            && Requested(w, out) == Ok(all)
            && SameChoices(w, r1, 2, asked, all, out) && SameChoices(w, r2, 3, all, all, out)
            && !ResumesTo(w, r1, Uninterrupted(w, NO_COMMITS, FRESH, FirstFrom(w.steps, 1), asked, data))
  {
    var e1, e2, e3 := Execution(1, Done, data, Some(out)), Execution(2, Done, out, Some(out)),
                      Execution(3, Done, out, Some(out));
    var asked, all := {MiroBoard}, {RecommendedTasks, RecommendedDecisionTree, MiroBoard};
    var first := Record(FRESH, e1);
    var r1 := Record(first, e2).(status := AwaitingConfirmation, nextOrder := 3);
    var r2 := Record(r1, e3).(nextOrder := 4);
    NothingAskedIsAll(w, out);
    StartsAndPauses(w, data, out, first, r1);
    PausesAgain(w, out, r1, r2);
    assert FirstFrom(w.steps, 1) == 0;
    SameRequestSameChoices(w, r2, 3, all, out);
    NotKeptAtTheSecond(w, out, r1, r2);
    assert !ChoicesKept(w, NO_COMMITS, r1, 2, asked, out);
    assert TurnThrough(w, NO_COMMITS, first, w.steps[1], asked, out) == Go(r1, out);
    assert !ChoicesKept(w, NO_COMMITS, first, 1, asked, out);
    assert !ChoicesKept(w, NO_COMMITS, FRESH, 0, asked, data);
    ResumingDoesNotMatter(w, data, asked);
  }

  lemma StartsAndPauses(w: Workflow, data: Data, out: Data, first: RunState, r1: RunState)
    requires |w.steps| == 4 && w.steps[0] == Step(1, OtherStep("call_llm")) && w.steps[1] == Step(2, AwaitConfirmation)
    requires (forall s, d, n :: w.exec(s, d, n) == Success(Some(out))) && out != map[]
    requires Requested(w, data) == Ok({MiroBoard})
    requires first == Record(FRESH, Execution(1, Done, data, Some(out)))
    requires r1 == Record(first, Execution(2, Done, out, Some(out))).(status := AwaitingConfirmation, nextOrder := 3)
    ensures Start(w, data) == r1 && TakeTurn(w, FRESH, w.steps[0], {MiroBoard}, data) == Go(first, out)
    ensures TakeTurn(w, first, w.steps[1], {MiroBoard}, out) == Halt(r1)
  {
    assert FirstFrom(w.steps, 1) == 0;
    assert ExecuteFrom(w, FRESH, 0, {MiroBoard}, data) == ExecuteFrom(w, first, 1, {MiroBoard}, out) == r1;
  }

  lemma PausesAgain(w: Workflow, out: Data, r1: RunState, r2: RunState)
    requires Ordered(w) && |w.steps| == 4 && w.steps[1].order == 2 && w.steps[2] == Step(3, AwaitConfirmation)
    requires RisingOrders(r1.executions) && AwaitsConfirmation(r1) && r1.status == AwaitingConfirmation
    requires r1.nextOrder == 3 && r1.executions[|r1.executions| - 1].input == out && "generation_outputs" !in out
    requires r2 == Record(r1, Execution(3, Done, out, Some(out))).(nextOrder := 4)
    ensures StoredOutput(r1) == Some(out) && Resume(w, r1) == r2
    ensures SameChoices(w, r1, 2, {MiroBoard}, {RecommendedTasks, RecommendedDecisionTree, MiroBoard}, out)
  {
    NothingAskedIsAll(w, out);
    ResumesFromConfirmation(r1);
    NextStep(w, 1);
  }

  lemma NotKeptAtTheSecond(w: Workflow, out: Data, r1: RunState, r2: RunState)
    requires |w.steps| == 4 && w.steps[2] == Step(3, AwaitConfirmation) && w.steps[3] == Step(4, CreateTasks)
    requires "generation_outputs" !in out && r1.status == AwaitingConfirmation
    requires r2 == Record(r1, Execution(3, Done, out, Some(out))).(nextOrder := 4)
    ensures !ChoicesKept(w, NO_COMMITS, r1, 2, {MiroBoard}, out)
  {
    NothingAskedIsAll(w, out);
    assert TurnThrough(w, NO_COMMITS, r1, w.steps[2], {MiroBoard}, out) == Go(r2, out);
    assert !SameChoices(w, r2, 3, {MiroBoard}, {RecommendedTasks, RecommendedDecisionTree, MiroBoard}, out);
  }

  lemma {:induction false} NothingToResume(w: Workflow, st: RunState, times: nat)
    requires st.status != AwaitingConfirmation
    ensures ResumeAll(w, st, times) == st
  {
    if times > 0 {
      NothingToResume(w, st, times - 1);
    }
  }

  /** When an executor raises during a resume, the run still awaits confirmation, and resuming repeats steps. */
  lemma RaisingRepeatsSteps(w: Workflow, data: Data, requested: set<OutputKey>)
    requires w.steps ==
      [Step(1, AwaitConfirmation), Step(2, OtherStep("custom_api")), Step(3, OtherStep("analyze_data"))]
    requires forall s, d, n :: w.exec(s, d, n) == if s.order == 2 then Success(Some(data)) else Raised
    requires data != map[] && Requested(w, data) == Ok(requested)
    ensures !RisingOrders(ResumeAll(w, Start(w, data), 2).executions)
  {
    var e1, e2 := Execution(1, Done, data, Some(data)), Execution(2, Done, data, Some(data));
    var e3 := Execution(3, Running, data, None);
    var paused := RunState(AwaitingConfirmation, 2, [e1], [], []);
    var stuck := Record(Record(paused, e2), e3);
    PausesAtOnce(w, data, requested);
    GetsStuck(w, paused, data, requested, e2, e3);
    StoredAfterRaise(e1, e2, e3);
    assert stuck.executions == [e1] + [e2] + [e3];
    RepeatsSecondStep(w, stuck, data, requested);
    var again := Resume(w, stuck);
    assert ResumeAll(w, paused, 2) == ResumeAll(w, stuck, 1) == ResumeAll(w, again, 0) == again;
  }

  lemma PausesAtOnce(w: Workflow, data: Data, requested: set<OutputKey>)
    requires w.steps != [] && w.steps[0] == Step(1, AwaitConfirmation) && Requested(w, data) == Ok(requested)
    ensures Start(w, data) == RunState(AwaitingConfirmation, 2, [Execution(1, Done, data, Some(data))], [], [])
  {
  }

  lemma GetsStuck(w: Workflow, paused: RunState, data: Data, requested: set<OutputKey>, e2: Execution, e3: Execution)
    requires w.steps ==
      [Step(1, AwaitConfirmation), Step(2, OtherStep("custom_api")), Step(3, OtherStep("analyze_data"))]
    requires forall s, d, n :: w.exec(s, d, n) == if s.order == 2 then Success(Some(data)) else Raised
    requires e2 == Execution(2, Done, data, Some(data)) && e3 == Execution(3, Running, data, None)
    requires paused == RunState(AwaitingConfirmation, 2, [Execution(1, Done, data, Some(data))], [], [])
    requires data != map[] && Requested(w, data) == Ok(requested)
    ensures Resume(w, paused) == Record(Record(paused, e2), e3)
  {
    ResumeGoesOn(w, paused, requested, data);
    NextStep(w, 0);
    RaisingPass(w, paused, data, requested, e2, e3);
  }

  lemma RepeatsSecondStep(w: Workflow, stuck: RunState, data: Data, requested: set<OutputKey>)
    requires Ordered(w) && |w.steps| == 3 && w.steps[0].order == 1 && w.steps[1] == Step(2, OtherStep("custom_api"))
    requires stuck.status == AwaitingConfirmation && stuck.nextOrder == 2 && Requested(w, data) == Ok(requested)
    requires |stuck.executions| == 3 && stuck.executions[2].order == 3 && StoredOutput(stuck) == Some(data)
    ensures !RisingOrders(Resume(w, stuck).executions)
  {
    NextStep(w, 0);
    ExecutesStepFirst(w, stuck, 1, requested, data);
    LaterOrdersOnly(w, stuck, 1, requested, data, 0);
    var again := Resume(w, stuck);
    assert again.executions[2] == stuck.executions[2] && again.executions[3].order == 2;
  }

  lemma RaisingPass(w: Workflow, st: RunState, data: Data, requested: set<OutputKey>, e2: Execution, e3: Execution)
    requires w.steps ==
      [Step(1, AwaitConfirmation), Step(2, OtherStep("custom_api")), Step(3, OtherStep("analyze_data"))]
    requires forall s, d, n :: w.exec(s, d, n) == if s.order == 2 then Success(Some(data)) else Raised
    requires e2 == Execution(2, Done, data, Some(data)) && e3 == Execution(3, Running, data, None)
    ensures ExecuteFrom(w, st, 1, requested, data) == Record(Record(st, e2), e3)
  {
  }

  lemma StoredAfterRaise(e1: Execution, e2: Execution, e3: Execution)
    requires e1.status == e2.status == Done && e3.status == Running && e1.order < e2.order
    ensures LastCompleted([e1] + [e2] + [e3]) == Some(e2)
  {
    assert ([e1] + [e2] + [e3])[..2] == [e1] + [e2] && ([e1] + [e2])[..1] == [e1];
    assert LastCompleted([e1]) == Some(e1);
    assert LastCompleted([e1] + [e2]) == Some(e2);
  }
}
