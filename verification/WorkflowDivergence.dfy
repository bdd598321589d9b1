/** When a paused run equals the uninterrupted pass: exactly when the choices are kept at every pause. */
module WorkflowDivergence {
  import opened GenerationOutputs
  import opened Results
  import opened WorkflowApprovals
  import opened WorkflowEngine
  import opened WorkflowPauses
  import opened WorkflowRepeats

  // ----- what going on leaves as it is

  lemma {:induction false} ContinueAllExtends(w: Workflow, c: Commits, st: RunState, times: nat)
    requires Ordered(w)
    ensures Extends(st.executions, ContinueAll(w, c, st, times).executions)
    decreases times
  {
    if times > 0 {
      ActExtends(w, st, ResumeWorkflow);
      if st.approvals != [] {
        ActExtends(w, st, ApproveRequest(|st.approvals| - 1, c(|st.approvals| - 1)));
      }
      ContinueAllExtends(w, c, Continue(w, c, st), times - 1);
    }
  }

  /** From execution number `n` on, and in all that is to come, orders are at least `order`. */
  ghost predicate Late(st: RunState, n: nat, order: nat) {
    && st.nextOrder >= order && LateFrom(st.executions, n, order)
    && forall a | 0 <= a < |st.approvals| && st.approvals[a].status == Pending ::
         n <= st.approvals[a].execution < |st.executions|
  }

  ghost predicate LateFrom(es: seq<Execution>, n: nat, order: nat) {
    n <= |es| && forall k | n <= k < |es| :: es[k].order >= order
  }

  lemma TurnStaysLate(w: Workflow, st: RunState, step: Step, requested: set<OutputKey>, data: Data, n: nat, order: nat)
    requires Late(st, n, order) && step.order >= order
    ensures Late(TakeTurn(w, st, step, requested, data).st, n, order)
  {
  }

  lemma {:induction false} PassStaysLate(w: Workflow, st: RunState, i: nat, requested: set<OutputKey>, data: Data,
                                         n: nat, order: nat)
    requires Ordered(w) && i <= |w.steps| && Late(st, n, order) && (i < |w.steps| ==> w.steps[i].order >= order)
    ensures Late(ExecuteFrom(w, st, i, requested, data), n, order)
    decreases |w.steps| - i
  {
    if i < |w.steps| {
      TurnStaysLate(w, st, w.steps[i], requested, data, n, order);
      match TakeTurn(w, st, w.steps[i], requested, data)
      case Halt(_) =>
      case Go(next, data') => PassStaysLate(w, next, i + 1, requested, data', n, order);
    }
  }

  lemma ExecuteStaysLate(w: Workflow, st: RunState, data: Data, n: nat, order: nat)
    requires Ordered(w) && Late(st, n, order)
    ensures Late(Execute(w, st, data), n, order)
  {
    match Requested(w, data)
    case Err(_) =>
    case Ok(requested) => PassStaysLate(w, st, FirstFrom(w.steps, st.nextOrder), requested, data, n, order);
  }

  lemma ContinueStaysLate(w: Workflow, c: Commits, st: RunState, n: nat, order: nat)
    requires Ordered(w) && Late(st, n, order)
    ensures Late(Continue(w, c, st), n, order)
  {
    var id := |st.approvals| - 1;
    if st.status == AwaitingConfirmation {
      if StoredOutput(st).Some? { ExecuteStaysLate(w, st, StoredOutput(st).value, n, order); }
    } else if st.status == AwaitingApproval && id >= 0 && st.approvals[id].status == Pending && c(id).Some? {
      ExecuteStaysLate(w, ApprovedState(st, id, c(id).value), OrElse(c(id).value, map[]), n, order);
    }
  }

  lemma {:induction false} ContinueAllStaysLate(w: Workflow, c: Commits, st: RunState, times: nat, n: nat, order: nat)
    requires Ordered(w) && Late(st, n, order)
    ensures Late(ContinueAll(w, c, st, times), n, order)
    decreases times
  {
    if times > 0 {
      ContinueStaysLate(w, c, st, n, order);
      ContinueAllStaysLate(w, c, Continue(w, c, st), times - 1, n, order);
    }
  }

  // ----- what the uninterrupted pass does

  lemma ThroughExtends(w: Workflow, c: Commits, st: RunState, step: Step, requested: set<OutputKey>, data: Data)
    ensures var next := TurnThrough(w, c, st, step, requested, data).st;
            && Extends(st.executions, next.executions)
            && forall k | |st.executions| <= k < |next.executions| :: next.executions[k].order == step.order
  {
  }

  /** It only appends executions, of steps from `i` on; when it appends none, it has completed. */
  lemma {:induction false} UninterruptedAppends(w: Workflow, c: Commits, st: RunState, i: nat,
                                                requested: set<OutputKey>, data: Data, order: nat)
    requires Ordered(w) && i <= |w.steps| && (i < |w.steps| ==> w.steps[i].order >= order)
    ensures var r := Uninterrupted(w, c, st, i, requested, data);
            && Extends(st.executions, r.executions) && LateFrom(r.executions, |st.executions|, order)
            && (|r.executions| == |st.executions| ==> r.status == Completed)
    decreases |w.steps| - i
  {
    if i < |w.steps| {
      ThroughExtends(w, c, st, w.steps[i], requested, data);
      match TurnThrough(w, c, st, w.steps[i], requested, data)
      case Halt(_) =>
      case Go(next, data') => UninterruptedAppends(w, c, next, i + 1, requested, data', order);
    }
  }

  /** Execution number `n` is of a step with this order, on this input. */
  ghost predicate Shows(es: seq<Execution>, n: nat, order: nat, input: Data) {
    n < |es| && es[n].order == order && es[n].input == input
  }

  lemma PassShows(w: Workflow, st: RunState, i: nat, requested: set<OutputKey>, data: Data)
    requires Ordered(w) && i < |w.steps| && !ShouldSkip(w.steps[i].stepType, requested)
    ensures Shows(ExecuteFrom(w, st, i, requested, data).executions, |st.executions|, w.steps[i].order, data)
  {
    match TakeTurn(w, st, w.steps[i], requested, data)
    case Halt(_) =>
    case Go(next, data') =>
      assert Shows(next.executions, |st.executions|, w.steps[i].order, data);
      PassExtends(w, next, i + 1, requested, data');
  }

  lemma UninterruptedShows(w: Workflow, c: Commits, st: RunState, i: nat, requested: set<OutputKey>, data: Data)
    requires Ordered(w) && i < |w.steps| && !ShouldSkip(w.steps[i].stepType, requested)
    ensures Shows(Uninterrupted(w, c, st, i, requested, data).executions, |st.executions|, w.steps[i].order, data)
  {
    match TurnThrough(w, c, st, w.steps[i], requested, data)
    case Halt(_) =>
    case Go(next, data') =>
      assert Shows(next.executions, |st.executions|, w.steps[i].order, data);
      UninterruptedAppends(w, c, next, i + 1, requested, data', 0);
  }

  // ----- a pass that differs shows for ever

  lemma StillShows(w: Workflow, c: Commits, st: RunState, times: nat, n: nat, order: nat, input: Data)
    requires Ordered(w) && Shows(st.executions, n, order, input)
    ensures Shows(ContinueAll(w, c, st, times).executions, n, order, input)
  {
    ContinueAllExtends(w, c, st, times);
  }

  lemma SkippedNeverShows(w: Workflow, c: Commits, st: RunState, i: nat, requested: set<OutputKey>, data: Data,
                          input: Data)
    requires Ordered(w) && i < |w.steps| && ShouldSkip(w.steps[i].stepType, requested)
    ensures !Shows(Uninterrupted(w, c, st, i, requested, data).executions, |st.executions|, w.steps[i].order, input)
  {
    var order := w.steps[i].order;
    var skipped := st.(nextOrder := order + 1);
    assert TurnThrough(w, c, st, w.steps[i], requested, data) == Go(skipped, data);
    var r := Uninterrupted(w, c, skipped, i + 1, requested, data);
    assert Uninterrupted(w, c, st, i, requested, data) == r;
    UninterruptedAppends(w, c, skipped, i + 1, requested, data, order + 1);
    assert LateFrom(r.executions, |st.executions|, order + 1);
  }

  /** The pass from the stored data runs a step that the uninterrupted one skips. */
  lemma RunsForEver(w: Workflow, c: Commits, st: RunState, i: nat, requested: set<OutputKey>, data: Data,
                    now: set<OutputKey>, stored: Data, times: nat)
    requires Ordered(w) && i < |w.steps|
    requires !ShouldSkip(w.steps[i].stepType, now) && ShouldSkip(w.steps[i].stepType, requested)
    ensures ContinueAll(w, c, ExecuteFrom(w, st, i, now, stored), times) != Uninterrupted(w, c, st, i, requested, data)
  {
    PassShows(w, st, i, now, stored);
    StillShows(w, c, ExecuteFrom(w, st, i, now, stored), times, |st.executions|, w.steps[i].order, stored);
    SkippedNeverShows(w, c, st, i, requested, data, stored);
  }

  /** Both run a step, on different data. */
  lemma OtherInputForEver(w: Workflow, c: Commits, st: RunState, i: nat, requested: set<OutputKey>, data: Data,
                          now: set<OutputKey>, stored: Data, times: nat)
    requires Ordered(w) && i < |w.steps| && data != stored
    requires !ShouldSkip(w.steps[i].stepType, now) && !ShouldSkip(w.steps[i].stepType, requested)
    ensures ContinueAll(w, c, ExecuteFrom(w, st, i, now, stored), times) != Uninterrupted(w, c, st, i, requested, data)
  {
    PassShows(w, st, i, now, stored);
    StillShows(w, c, ExecuteFrom(w, st, i, now, stored), times, |st.executions|, w.steps[i].order, stored);
    UninterruptedShows(w, c, st, i, requested, data);
  }

  lemma SkippedIsLate(w: Workflow, c: Commits, st: RunState, i: nat, now: set<OutputKey>, stored: Data, times: nat)
    requires Ordered(w) && i < |w.steps| && Settled(st) && ShouldSkip(w.steps[i].stepType, now)
    ensures LateFrom(ContinueAll(w, c, ExecuteFrom(w, st, i, now, stored), times).executions, |st.executions|,
                     w.steps[i].order + 1)
  {
    var n, order := |st.executions|, w.steps[i].order;
    PassStaysLate(w, st.(nextOrder := order + 1), i + 1, now, stored, n, order + 1);
    ContinueAllStaysLate(w, c, ExecuteFrom(w, st, i, now, stored), times, n, order + 1);
  }

  /** The pass from the stored data skips a step that the uninterrupted one runs. */
  lemma SkipsForEver(w: Workflow, c: Commits, st: RunState, i: nat, requested: set<OutputKey>, data: Data,
                     now: set<OutputKey>, stored: Data, times: nat)
    requires Ordered(w) && i < |w.steps| && Settled(st)
    requires ShouldSkip(w.steps[i].stepType, now) && !ShouldSkip(w.steps[i].stepType, requested)
    ensures ContinueAll(w, c, ExecuteFrom(w, st, i, now, stored), times) != Uninterrupted(w, c, st, i, requested, data)
  {
    UninterruptedShows(w, c, st, i, requested, data);
    SkippedIsLate(w, c, st, i, now, stored, times);
  }

  lemma {:induction false} DiffersForEver(w: Workflow, c: Commits, st: RunState, i: nat, requested: set<OutputKey>,
                                          data: Data, now: set<OutputKey>, stored: Data, times: nat)
    requires Ordered(w) && i <= |w.steps| && Settled(st) && !SamePass(w, st, i, requested, data, now, stored)
    ensures ContinueAll(w, c, ExecuteFrom(w, st, i, now, stored), times) != Uninterrupted(w, c, st, i, requested, data)
    decreases |w.steps| - i
  {
    var skips := ShouldSkip(w.steps[i].stepType, requested);
    if ShouldSkip(w.steps[i].stepType, now) && !skips {
      SkipsForEver(w, c, st, i, requested, data, now, stored, times);
    } else if !ShouldSkip(w.steps[i].stepType, now) && skips {
      RunsForEver(w, c, st, i, requested, data, now, stored, times);
    } else if !skips && data != stored {
      OtherInputForEver(w, c, st, i, requested, data, now, stored, times);
    } else if skips {
      DiffersForEver(w, c, st.(nextOrder := w.steps[i].order + 1), i + 1, requested, data, now, stored, times);
    } else {
      match TakeTurn(w, st, w.steps[i], requested, data)
      case Go(next, data') => DiffersForEver(w, c, next, i + 1, requested, data', now, data', times);
    }
  }

  // ----- a run that is stuck

  lemma {:induction false} StaysPut(w: Workflow, c: Commits, st: RunState, times: nat)
    requires Continue(w, c, st) == st
    ensures ContinueAll(w, c, st, times) == st
    decreases times
  {
    if times > 0 {
      StaysPut(w, c, st, times - 1);
    }
  }

  /** Where the uninterrupted pass goes on from `next`, a run that has gone no further is not where it ends. */
  lemma NotYetThere(w: Workflow, c: Commits, st: RunState, next: RunState, i: nat, requested: set<OutputKey>,
                    data: Data)
    requires Ordered(w) && i <= |w.steps| && |st.executions| == |next.executions| && st.status != Completed
    ensures st != Uninterrupted(w, c, next, i, requested, data)
  {
    UninterruptedAppends(w, c, next, i, requested, data, 0);
  }

  /** Pausing leaves as many executions as handing on does, and a run that is not completed. */
  lemma PauseIsUnfinished(w: Workflow, c: Commits, st: RunState, step: Step, requested: set<OutputKey>, data: Data)
    requires TakeTurn(w, st, step, requested, data).Halt? && TurnThrough(w, c, st, step, requested, data).Go?
    ensures var r, next := TakeTurn(w, st, step, requested, data).st, TurnThrough(w, c, st, step, requested, data).st;
            && |r.executions| == |next.executions| && r.status != Completed
            && next.status != Completed && (next == r || next.status == Analyzing)
  {
  }

  /** Data that ask for no valid outputs leave the run where it is. */
  lemma StuckForEver(w: Workflow, c: Commits, r: RunState, next: RunState, i: nat, requested: set<OutputKey>,
                     data: Data, times: nat)
    requires Ordered(w) && i <= |w.steps| && Continue(w, c, r) == next && (next == r || next.status == Analyzing)
    requires |r.executions| == |next.executions| && r.status != Completed && next.status != Completed
    ensures ContinueAll(w, c, r, times) != Uninterrupted(w, c, next, i, requested, data)
  {
    if times == 0 {
      NotYetThere(w, c, r, next, i, requested, data);
    } else {
      assert Continue(w, c, next) == next;
      StaysPut(w, c, next, times - 1);
      NotYetThere(w, c, next, next, i, requested, data);
    }
  }

  // ----- the whole run

  type Move = RunState -> RunState

  function Repeatedly(go: Move, st: RunState, times: nat): RunState
    decreases times
  {
    if times == 0 then st else Repeatedly(go, go(st), times - 1)
  }

  ghost predicate IsContinue(go: Move, w: Workflow, c: Commits) {
    forall st {:trigger Continue(w, c, st)} :: go(st) == Continue(w, c, st)
  }

  lemma {:induction false} RepeatedlyIsContinueAll(go: Move, w: Workflow, c: Commits, st: RunState, times: nat)
    requires IsContinue(go, w, c)
    ensures Repeatedly(go, st, times) == ContinueAll(w, c, st, times)
    decreases times
  {
    if times > 0 {
      RepeatedlyIsContinueAll(go, w, c, Continue(w, c, st), times - 1);
    }
  }
  /** `r` is paused where the uninterrupted pass goes on from `next`, at step `i`. */
  ghost predicate PausedAt(w: Workflow, go: Move, r: RunState, next: RunState, i: nat, stored: Data)
    requires i <= |w.steps|
  {
    && go(r) == (match Requested(w, stored)
                 case Err(_) => next
                 case Ok(now) => ExecuteFrom(w, next, i, now, stored))
    && |r.executions| == |next.executions| && r.status != Completed
    && next.status != Completed && (next == r || next.status == Analyzing)
  }

  /** A run that reaches the goal from a pause keeps the choices there, and reaches it from the pass that follows. */
  lemma PauseIsKept(w: Workflow, c: Commits, go: Move, r: RunState, next: RunState, i: nat, requested: set<OutputKey>,
                    data: Data, stored: Data, there: RunState, goal: RunState, times: nat)
    requires Ordered(w) && IsContinue(go, w, c) && i <= |w.steps| && Settled(next)
    requires PausedAt(w, go, r, next, i, stored)
    requires there == ExecuteFrom(w, next, i, requested, data) && goal == Uninterrupted(w, c, next, i, requested, data)
    requires Repeatedly(go, r, times) == goal
    ensures KeptAt(w, next, i, requested, data, stored) && times > 0 && Repeatedly(go, there, times - 1) == goal
  {
    NotYetThere(w, c, r, next, i, requested, data);
    if Requested(w, stored).Err? {
      StuckHere(w, c, go, r, next, i, requested, data, times);
    } else {
      var now := Requested(w, stored).value;
      if SamePass(w, next, i, requested, data, now, stored) {
        SamePassSameRun(w, next, i, requested, data, now, stored);
      } else {
        DiffersHere(w, c, go, next, i, requested, data, now, stored, times - 1);
      }
    }
  }

  lemma StuckHere(w: Workflow, c: Commits, go: Move, r: RunState, next: RunState, i: nat, requested: set<OutputKey>,
                  data: Data, times: nat)
    requires Ordered(w) && IsContinue(go, w, c) && i <= |w.steps| && go(r) == next
    requires |r.executions| == |next.executions| && r.status != Completed && next.status != Completed
    requires next == r || next.status == Analyzing
    ensures Repeatedly(go, r, times) != Uninterrupted(w, c, next, i, requested, data)
  {
    RepeatedlyIsContinueAll(go, w, c, r, times);
    assert go(r) == Continue(w, c, r);
    StuckForEver(w, c, r, next, i, requested, data, times);
  }

  lemma DiffersHere(w: Workflow, c: Commits, go: Move, st: RunState, i: nat, requested: set<OutputKey>, data: Data,
                    now: set<OutputKey>, stored: Data, times: nat)
    requires Ordered(w) && IsContinue(go, w, c) && i <= |w.steps| && Settled(st)
    requires !SamePass(w, st, i, requested, data, now, stored)
    ensures Repeatedly(go, ExecuteFrom(w, st, i, now, stored), times) != Uninterrupted(w, c, st, i, requested, data)
  {
    RepeatedlyIsContinueAll(go, w, c, ExecuteFrom(w, st, i, now, stored), times);
    DiffersForEver(w, c, st, i, requested, data, now, stored, times);
  }

  /**
   The run has reached `r`, the passes stand before step `i`, and going on `times` times from `r` leads to
   the goal.
   */
  ghost predicate Underway(w: Workflow, c: Commits, go: Move, st: RunState, i: nat, requested: set<OutputKey>,
                           data: Data, r: RunState, goal: RunState, times: nat)
    requires i <= |w.steps|
  {
    && Passing(w, st, i) && r == ExecuteFrom(w, st, i, requested, data)
    && goal == Uninterrupted(w, c, st, i, requested, data) && Repeatedly(go, r, times) == goal
  }

  /** The next turn of both passes, when the run does not pause. */
  lemma GoesOnAlike(w: Workflow, c: Commits, go: Move, st: RunState, i: nat, requested: set<OutputKey>, data: Data,
                    r: RunState, goal: RunState, times: nat, next: RunState, data': Data)
    requires Ordered(w) && IsContinue(go, w, c) && i < |w.steps|
    requires Underway(w, c, go, st, i, requested, data, r, goal, times)
    requires TakeTurn(w, st, w.steps[i], requested, data) == Go(next, data')
    ensures Underway(w, c, go, next, i + 1, requested, data', r, goal, times)
    ensures ChoicesKept(w, c, next, i + 1, requested, data') ==> ChoicesKept(w, c, st, i, requested, data)
  {
    ThroughIsPassing(w, c, st, i, requested, data);
  }

  /** The next turn, when the run pauses and the uninterrupted pass goes on. */
  lemma PausesHere(w: Workflow, c: Commits, go: Move, st: RunState, i: nat, requested: set<OutputKey>, data: Data,
                   next: RunState, data': Data)
    requires Ordered(w) && IsContinue(go, w, c) && i < |w.steps| && Passing(w, st, i)
    requires TakeTurn(w, st, w.steps[i], requested, data).Halt?
    requires TurnThrough(w, c, st, w.steps[i], requested, data) == Go(next, data')
    ensures var stored := GoesOnFrom(c, st, w.steps[i], data);
            && PausedAt(w, go, ExecuteFrom(w, st, i, requested, data), next, i + 1, stored)
            && Uninterrupted(w, c, st, i, requested, data) == Uninterrupted(w, c, next, i + 1, requested, data')
            && (ChoicesKept(w, c, st, i, requested, data) <==>
                  KeptAt(w, next, i + 1, requested, data', stored) && ChoicesKept(w, c, next, i + 1, requested, data'))
  {
    ContinueGoesOn(w, c, st, i, requested, data, ExecuteFrom(w, st, i, requested, data), next);
    PauseIsUnfinished(w, c, st, w.steps[i], requested, data);
  }

  lemma GoesOnAfterPause(w: Workflow, c: Commits, go: Move, st: RunState, i: nat, requested: set<OutputKey>, data: Data,
                         r: RunState, goal: RunState, times: nat, next: RunState, data': Data)
    requires Ordered(w) && IsContinue(go, w, c) && i < |w.steps|
    requires Underway(w, c, go, st, i, requested, data, r, goal, times)
    requires TakeTurn(w, st, w.steps[i], requested, data).Halt?
    requires TurnThrough(w, c, st, w.steps[i], requested, data) == Go(next, data')
    ensures times > 0
    ensures Underway(w, c, go, next, i + 1, requested, data',
                     ExecuteFrom(w, next, i + 1, requested, data'), goal, times - 1)
    ensures ChoicesKept(w, c, next, i + 1, requested, data') ==> ChoicesKept(w, c, st, i, requested, data)
  {
    var stored, there := GoesOnFrom(c, st, w.steps[i], data), ExecuteFrom(w, next, i + 1, requested, data');
    ThroughIsPassing(w, c, st, i, requested, data);
    PausesHere(w, c, go, st, i, requested, data, next, data');
    PauseIsKept(w, c, go, r, next, i + 1, requested, data', stored, there, goal, times);
  }

  /** The next turn of both passes; when the uninterrupted one ends here, so does the run, and nothing is lost. */
  lemma NextTurn(w: Workflow, c: Commits, go: Move, st: RunState, i: nat, requested: set<OutputKey>, data: Data,
                 r: RunState, goal: RunState, times: nat)
    returns (ended: bool, next: RunState, data': Data, there: RunState, left: nat)
    requires Ordered(w) && IsContinue(go, w, c) && i <= |w.steps|
    requires Underway(w, c, go, st, i, requested, data, r, goal, times)
    ensures ended ==> ChoicesKept(w, c, st, i, requested, data)
    ensures !ended ==> i < |w.steps| && Underway(w, c, go, next, i + 1, requested, data', there, goal, left)
    ensures !ended && ChoicesKept(w, c, next, i + 1, requested, data') ==> ChoicesKept(w, c, st, i, requested, data)
  {
    ended, next, data', there, left := true, st, data, r, times;
    if i < |w.steps| && TurnThrough(w, c, st, w.steps[i], requested, data).Go? {
      var t := TurnThrough(w, c, st, w.steps[i], requested, data);
      ended, next, data' := false, t.st, t.data;
      if TakeTurn(w, st, w.steps[i], requested, data).Go? {
        GoesOnAlike(w, c, go, st, i, requested, data, r, goal, times, next, data');
      } else {
        GoesOnAfterPause(w, c, go, st, i, requested, data, r, goal, times, next, data');
        there, left := ExecuteFrom(w, next, i + 1, requested, data'), times - 1;
      }
    }
  }

  /** A run that reaches the end of the uninterrupted pass keeps the choices along it. */
  lemma {:induction false} OnlyWhenKept(w: Workflow, c: Commits, go: Move, st: RunState, i: nat,
                                        requested: set<OutputKey>,
                                        data: Data, r: RunState, goal: RunState, times: nat)
    requires Ordered(w) && IsContinue(go, w, c) && i <= |w.steps|
    requires Underway(w, c, go, st, i, requested, data, r, goal, times)
    ensures ChoicesKept(w, c, st, i, requested, data)
    decreases |w.steps| - i
  {
    var ended, next, data', there, left := NextTurn(w, c, go, st, i, requested, data, r, goal, times);
    if !ended {
      OnlyWhenKept(w, c, go, next, i + 1, requested, data', there, goal, left);
    }
  }

  /** Going on often enough brings the run from `st` to `goal`. */
  ghost predicate GetsTo(w: Workflow, c: Commits, st: RunState, goal: RunState) {
    exists times: nat :: ContinueAll(w, c, st, times) == goal
  }

  lemma {:induction false} GetsThereExactly(w: Workflow, c: Commits, st: RunState, i: nat, requested: set<OutputKey>,
                                            data: Data)
    requires Ordered(w) && i <= |w.steps| && Passing(w, st, i)
    ensures GetsTo(w, c, ExecuteFrom(w, st, i, requested, data), Uninterrupted(w, c, st, i, requested, data))
       <==> ChoicesKept(w, c, st, i, requested, data)
  {
    var there, goal := ExecuteFrom(w, st, i, requested, data), Uninterrupted(w, c, st, i, requested, data);
    if ChoicesKept(w, c, st, i, requested, data) {
      var times := ContinuedIsUninterrupted(w, c, st, i, requested, data);
    }
    if GetsTo(w, c, there, goal) {
      var times: nat :| ContinueAll(w, c, there, times) == goal;
      var go := (r: RunState) => Continue(w, c, r);
      RepeatedlyIsContinueAll(go, w, c, there, times);
      OnlyWhenKept(w, c, go, st, i, requested, data, there, goal, times);
    }
  }

  /**
   A run that is started and then continued at every pause ends as the uninterrupted pass exactly when,
   along that pass, every pause keeps the choices up to the next one.
   */
  lemma PausesDoNotMatter(w: Workflow, c: Commits, data: Data, requested: set<OutputKey>)
    requires Ordered(w) && Requested(w, data) == Ok(requested)
    ensures GetsTo(w, c, Start(w, data), Uninterrupted(w, c, FRESH, FirstFrom(w.steps, 1), requested, data))
       <==> ChoicesKept(w, c, FRESH, FirstFrom(w.steps, 1), requested, data)
  {
    GetsThereExactly(w, c, FRESH, FirstFrom(w.steps, 1), requested, data);
  }

  // ----- resuming only

  /** No request is approved. */
  const NO_COMMITS: Commits := id => None

  function ResumeAll(w: Workflow, st: RunState, times: nat): RunState
    decreases times
  {
    if times == 0 then st else ResumeAll(w, Resume(w, st), times - 1)
  }

  lemma {:induction false} ResumingIsContinuing(w: Workflow, st: RunState, times: nat)
    ensures ResumeAll(w, st, times) == ContinueAll(w, NO_COMMITS, st, times)
    decreases times
  {
    if times > 0 {
      ResumingIsContinuing(w, Resume(w, st), times - 1);
    }
  }

  ghost predicate ResumesTo(w: Workflow, st: RunState, goal: RunState) {
    exists times: nat :: ResumeAll(w, st, times) == goal
  }

  lemma ResumesToWhatItGetsTo(w: Workflow, st: RunState, goal: RunState)
    ensures ResumesTo(w, st, goal) <==> GetsTo(w, NO_COMMITS, st, goal)
  {
    forall times: nat ensures ResumeAll(w, st, times) == ContinueAll(w, NO_COMMITS, st, times) {
      ResumingIsContinuing(w, st, times);
    }
    if ResumesTo(w, st, goal) {
      var times: nat :| ResumeAll(w, st, times) == goal;
      assert ContinueAll(w, NO_COMMITS, st, times) == goal;
    }
  }

  /** The same for a run that is only resumed, and the pass that stops at the first request. */
  lemma ResumingDoesNotMatter(w: Workflow, data: Data, requested: set<OutputKey>)
    requires Ordered(w) && Requested(w, data) == Ok(requested)
    ensures ResumesTo(w, Start(w, data), Uninterrupted(w, NO_COMMITS, FRESH, FirstFrom(w.steps, 1), requested, data))
       <==> ChoicesKept(w, NO_COMMITS, FRESH, FirstFrom(w.steps, 1), requested, data)
  {
    PausesDoNotMatter(w, NO_COMMITS, data, requested);
    ResumesToWhatItGetsTo(w, Start(w, data),
                          Uninterrupted(w, NO_COMMITS, FRESH, FirstFrom(w.steps, 1), requested, data));
  }

  /**
   When executors and commits keep the request, a run whose pauses are all continued ends as the
   uninterrupted pass.
   */
  lemma KeptRequestIsEnough(w: Workflow, c: Commits, data: Data, requested: set<OutputKey>) returns (times: nat)
    requires Ordered(w) && KeepsRequest(w, c, requested) && Requested(w, data) == Ok(requested)
    ensures ContinueAll(w, c, Start(w, data), times)
         == Uninterrupted(w, c, FRESH, FirstFrom(w.steps, 1), requested, data)
  {
    KeptRequestKeepsChoices(w, c, FRESH, FirstFrom(w.steps, 1), requested, data);
    times := ContinuedIsUninterrupted(w, c, FRESH, FirstFrom(w.steps, 1), requested, data);
  }
}
