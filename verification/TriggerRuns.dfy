/** Which attempts create a run, told from the attempts alone (backend/agent/trigger_service.py). */
module TriggerRuns {
  import opened Results
  import opened Triggers

  /** The workflow is there, and it is active or the trigger is manual. */
  predicate Reaches(a: Attempt) {
    a.workflow.Live? && (a.workflow.active || a.manual)
  }

  predicate Reopens(window: seq<real>, now: real) {
    window == [] || now >= window[0] + 3600.0
  }

  /** When the attempts counted in the open window came; an hour after the first of them the next one opens another. */
  function Window(attempts: seq<Attempt>, n: nat): seq<real>
    requires n <= |attempts|
  {
    if n == 0 then []
    else
      var before, a := Window(attempts, n - 1), attempts[n - 1];
      if !Reaches(a) then before
      else if Reopens(before, a.rateAt) then [a.rateAt]
      else if |before| < 100 then before + [a.rateAt]
      else before
  }

  /** Attempt `k` is one of the hundred of its window. */
  predicate Counted(attempts: seq<Attempt>, k: nat)
    requires k < |attempts|
  {
    Reaches(attempts[k]) && (Reopens(Window(attempts, k), attempts[k].rateAt) || |Window(attempts, k)| < 100)
  }

  /** The last of the first `n` attempts that was compared with what came before and found new. */
  function LastNew(attempts: seq<Attempt>, n: nat): (p: Option<nat>)
    requires n <= |attempts|
    ensures p.Some? ==> p.value < n
    decreases n, 0
  {
    if n == 0 then None
    else if Compared(attempts, n - 1) && !Repeats(attempts, n - 1) then Some(n - 1)
    else LastNew(attempts, n - 1)
  }

  /** Only triggers that are not manual are compared. */
  predicate Compared(attempts: seq<Attempt>, k: nat)
    requires k < |attempts|
  {
    Counted(attempts, k) && !attempts[k].manual && attempts[k].fault != Hashing
  }

  /** Attempt `k` repeats the last new context within five minutes. */
  predicate Repeats(attempts: seq<Attempt>, k: nat)
    requires k < |attempts|
    decreases k, 1
  {
    var last := LastNew(attempts, k);
    && last.Some? && attempts[last.value].hash == attempts[k].hash
    && attempts[k].dedupAt < attempts[last.value].storedAt + 300.0
  }

  /** Attempt `k` gets as far as the conditions. */
  predicate IsTried(attempts: seq<Attempt>, k: nat)
    requires k < |attempts|
  {
    Counted(attempts, k) && (attempts[k].manual || (attempts[k].fault != Hashing && !Repeats(attempts, k)))
  }

  /** Attempt `k` creates a run. */
  predicate Creates(attempts: seq<Attempt>, k: nat)
    requires k < |attempts|
  {
    IsTried(attempts, k) && attempts[k].conditionsMet && attempts[k].fault != CreatingRun
  }

  /** Attempt `k` ends in an exception that the log tells. */
  predicate Raises(attempts: seq<Attempt>, k: nat)
    requires k < |attempts|
  {
    var a := attempts[k];
    || a.workflow.SoftDeleted?
    || (Counted(attempts, k) && !a.manual && a.fault == Hashing)
    || (IsTried(attempts, k) && a.conditionsMet && a.fault == CreatingRun)
  }

  function RunsCreated(attempts: seq<Attempt>, n: nat): nat
    requires n <= |attempts|
  {
    if n == 0 then 0 else RunsCreated(attempts, n - 1) + if Creates(attempts, n - 1) then 1 else 0
  }

  /** The log row of attempt `k`; runs are numbered in the order of their creation. */
  function RowOf(attempts: seq<Attempt>, k: nat): LogRow
    requires k < |attempts|
  {
    if Creates(attempts, k) then LogRow(Triggered, Some(RunsCreated(attempts, k)))
    else if Raises(attempts, k) then LogRow(Failed, None)
    else LogRow(Skipped, None)
  }

  function Log(attempts: seq<Attempt>, n: nat): seq<LogRow>
    requires n <= |attempts|
  {
    if n == 0 then []
    else Log(attempts, n - 1) + if attempts[n - 1].workflow.Missing? then [] else [RowOf(attempts, n - 1)]
  }

  // ----- what the stored state says

  ghost predicate HoldsWindow(s: TriggerState, window: seq<real>) {
    && s.count == |window| <= 100
    && s.resetAt == if window == [] then None else Some(window[0] + 3600.0)
  }

  ghost predicate HoldsNew(s: TriggerState, attempts: seq<Attempt>, last: Option<nat>) {
    match last
    case None => s.hash.None? && s.checkedAt.None?
    case Some(p) => p < |attempts| && s.hash == Some(attempts[p].hash) && s.checkedAt == Some(attempts[p].storedAt)
  }

  ghost predicate Holds(s: TriggerState, attempts: seq<Attempt>, n: nat)
    requires n <= |attempts|
  {
    HoldsWindow(s, Window(attempts, n)) && HoldsNew(s, attempts, LastNew(attempts, n))
  }

  lemma RateExactly(s: TriggerState, window: seq<real>, now: real)
    requires HoldsWindow(s, window)
    ensures var (next, admitted) := CheckRate(s, now);
            && (admitted <==> Reopens(window, now) || |window| < 100)
            && (admitted ==> HoldsWindow(next, if Reopens(window, now) then [now] else window + [now]))
            && next.hash == s.hash && next.checkedAt == s.checkedAt
  {
  }

  lemma RepeatExactly(s: TriggerState, attempts: seq<Attempt>, k: nat)
    requires k < |attempts| && HoldsNew(s, attempts, LastNew(attempts, k))
    ensures IsDuplicate(s, attempts[k]) <==> Repeats(attempts, k)
  {
  }

  /** How far an attempt gets. */
  lemma DecidedExactly(s: TriggerState, attempts: seq<Attempt>, k: nat)
    requires k < |attempts| && Holds(s, attempts, k)
    ensures var outcome := Decide(s, attempts[k]);
            && (Admitted(s, attempts[k]) <==> Counted(attempts, k))
            && (PassesDedup(s, attempts[k]) <==> Compared(attempts, k) && !Repeats(attempts, k))
            && (outcome == Ran <==> Creates(attempts, k))
            && (outcome in {FailedEarly, HashFailed, CreateFailed} <==> Raises(attempts, k))
            && (outcome == NotFound <==> attempts[k].workflow.Missing?)
  {
    RateExactly(s, Window(attempts, k), attempts[k].rateAt);
    RepeatExactly(CheckRate(s, attempts[k].rateAt).0, attempts, k);
  }

  lemma StateHolds(store: Store, attempts: seq<Attempt>, k: nat)
    requires k < |attempts| && Holds(store.state, attempts, k)
    ensures Holds(Execute(store, attempts[k]).state, attempts, k + 1)
  {
    DecidedExactly(store.state, attempts, k);
    RateExactly(store.state, Window(attempts, k), attempts[k].rateAt);
  }

  lemma RowIsLogged(store: Store, attempts: seq<Attempt>, k: nat)
    requires k < |attempts| && Holds(store.state, attempts, k) && store.runs == RunsCreated(attempts, k)
    ensures var next := Execute(store, attempts[k]);
            && next.runs == RunsCreated(attempts, k + 1)
            && next.logs == store.logs + if attempts[k].workflow.Missing? then [] else [RowOf(attempts, k)]
  {
    DecidedExactly(store.state, attempts, k);
  }

  /**
   After any attempts, the runs created are those of the attempts on a live workflow that is active or triggered
   by hand, within the hundred of their window, no repetition, with conditions met and no exception; and the log
   tells of every attempt how it ended.
   */
  lemma {:induction false} RunsExactly(attempts: seq<Attempt>, n: nat)
    requires n <= |attempts|
    ensures var store := After(attempts, n);
            && Holds(store.state, attempts, n)
            && store.runs == RunsCreated(attempts, n) && store.logs == Log(attempts, n)
  {
    if n > 0 {
      RunsExactly(attempts, n - 1);
      StateHolds(After(attempts, n - 1), attempts, n - 1);
      RowIsLogged(After(attempts, n - 1), attempts, n - 1);
    }
  }
}
