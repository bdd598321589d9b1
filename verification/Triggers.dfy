/** Admission of workflow triggers (backend/agent/trigger_service.py).  Times are seconds. */
module Triggers {
  import opened RateWindows
  import opened Results

  const DEDUP_WINDOW := 300.0

  /** The rate-limit and deduplication columns of a workflow's trigger state. */
  datatype TriggerState = TriggerState(count: int, resetAt: Option<real>, hash: Option<nat>, checkedAt: Option<real>)

  datatype LogStatus = Triggered | Skipped | Failed

  datatype LogRow = LogRow(status: LogStatus, run: Option<nat>)

  /** The trigger state, the log rows and the number of workflow runs created. */
  datatype Store = Store(state: TriggerState, logs: seq<LogRow>, runs: nat)

  const EMPTY_STORE := Store(TriggerState(0, None, None, None), [], 0)

  datatype WorkflowRow = Missing | SoftDeleted | Live(active: bool)

  /** Where an exception interrupts an attempt. */
  datatype Fault = NoFault | Hashing | CreatingRun | UpdatingState

  /**
   One call: what kind of trigger, the hash of its context, the clock at the rate check, at the
   duplicate check and when that check is stored, and what the workflow and its conditions say.
   */
  datatype Attempt = Attempt(manual: bool, hash: nat, rateAt: real, dedupAt: real, storedAt: real,
                             workflow: WorkflowRow, conditionsMet: bool, fault: Fault)

  /** `_check_rate_limit`: a refusal saves nothing. */
  function CheckRate(s: TriggerState, now: real): (TriggerState, bool) {
    var reset := s.resetAt.None? || now >= s.resetAt.value;
    var count := if reset then 0 else s.count;
    if count >= MAX_PER_WINDOW then (s, false)
    else (s.(count := count + 1, resetAt := if reset then Some(now + HOUR) else s.resetAt), true)
  }

  function IsDuplicate(s: TriggerState, a: Attempt): bool {
    s.hash == Some(a.hash) && s.checkedAt.Some? && a.dedupAt - s.checkedAt.value < DEDUP_WINDOW
  }

  /** How far an attempt gets. */
  datatype Outcome =
    | NotFound | FailedEarly | Inactive | RateLimited | HashFailed | Duplicate | ConditionsFailed | CreateFailed | Ran

  function Decide(s: TriggerState, a: Attempt): Outcome {
    if a.workflow.Missing? then NotFound
    else if a.workflow.SoftDeleted? then FailedEarly
    else if !a.workflow.active && !a.manual then Inactive
    else if !CheckRate(s, a.rateAt).1 then RateLimited
    else if !a.manual && a.fault == Hashing then HashFailed
    else if !a.manual && IsDuplicate(CheckRate(s, a.rateAt).0, a) then Duplicate
    else if !a.conditionsMet then ConditionsFailed
    else if a.fault == CreatingRun then CreateFailed
    else Ran
  }

  /** The attempt got past the rate limiter. */
  predicate Admitted(s: TriggerState, a: Attempt) {
    Decide(s, a) in {HashFailed, Duplicate, ConditionsFailed, CreateFailed, Ran}
  }

  /** A non-manual attempt got past the duplicate check. */
  predicate PassesDedup(s: TriggerState, a: Attempt) {
    !a.manual && Decide(s, a) in {ConditionsFailed, CreateFailed, Ran}
  }

  function Execute(store: Store, a: Attempt): Store {
    var outcome := Decide(store.state, a);
    var rated := if Admitted(store.state, a) then CheckRate(store.state, a.rateAt).0 else store.state;
    var state := if PassesDedup(store.state, a) then rated.(hash := Some(a.hash), checkedAt := Some(a.storedAt))
                 else rated;
    match outcome
    case NotFound => store
    case Ran => Store(state, store.logs + [LogRow(Triggered, Some(store.runs))], store.runs + 1)
    case FailedEarly => store.(logs := store.logs + [LogRow(Failed, None)])
    case HashFailed => store.(state := state, logs := store.logs + [LogRow(Failed, None)])
    case CreateFailed => store.(state := state, logs := store.logs + [LogRow(Failed, None)])
    case _ => store.(state := state, logs := store.logs + [LogRow(Skipped, None)])
  }

  /** The store after the first `n` attempts. */
  function After(attempts: seq<Attempt>, n: nat): Store
    requires n <= |attempts|
  {
    if n == 0 then EMPTY_STORE else Execute(After(attempts, n - 1), attempts[n - 1])
  }

  // ----- the service

  class TriggerService {
    var count: int
    var resetAt: Option<real>
    var hash: Option<nat>
    var checkedAt: Option<real>
    var logs: seq<LogRow>
    var runs: nat

    ghost function Contents(): Store
      reads this
    {
      Store(TriggerState(count, resetAt, hash, checkedAt), logs, runs)
    }

    constructor ()
      ensures Contents() == EMPTY_STORE
    {
      count, resetAt, hash, checkedAt, logs, runs := 0, None, None, None, [], 0;
    }

    method CheckRateLimit(now: real) returns (ok: bool)
      modifies this`count, this`resetAt
      ensures (Contents().state, ok) == CheckRate(old(Contents()).state, now)
    {
      var current, reset := count, resetAt;
      if resetAt.None? || now >= resetAt.value {
        current, reset := 0, Some(now + HOUR);
      }
      if current >= MAX_PER_WINDOW { return false; }
      count, resetAt := current + 1, reset;
      return true;
    }

    method CheckDuplicate(a: Attempt) returns (duplicate: bool)
      modifies this`hash, this`checkedAt
      ensures duplicate == IsDuplicate(old(Contents()).state, a)
      ensures Contents().state == if duplicate then old(Contents()).state
                                  else old(Contents()).state.(hash := Some(a.hash), checkedAt := Some(a.storedAt))
    {
      if hash == Some(a.hash) && checkedAt.Some? && a.dedupAt - checkedAt.value < DEDUP_WINDOW { return true; }
      hash, checkedAt := Some(a.hash), Some(a.storedAt);
      return false;
    }

    /** `execute_workflow_trigger`; the log row of the `finally` block is written on every way out. */
    method ExecuteWorkflowTrigger(a: Attempt) returns (run: Option<nat>)
      modifies this
      ensures Contents() == Execute(old(Contents()), a)
      ensures run == if Decide(old(Contents()).state, a) == Ran then Some(old(runs)) else None
    {
      var status := Failed;
      status, run := Try(a);
      if a.workflow != Missing {
        logs := logs + [LogRow(status, run)];
      }
    }

    method Try(a: Attempt) returns (status: LogStatus, run: Option<nat>)
      modifies this
      ensures var before := old(Contents());
              a.workflow != Missing ==>
                Execute(before, a) == Contents().(logs := old(logs) + [LogRow(status, run)])
      ensures a.workflow == Missing ==> Contents() == old(Contents())
      ensures logs == old(logs)
      ensures run == if Decide(old(Contents()).state, a) == Ran then Some(old(runs)) else None
    {
      if !a.workflow.Live? { return Failed, None; }
      if !a.workflow.active && !a.manual { return Skipped, None; }
      var admitted := CheckRateLimit(a.rateAt);
      if !admitted { return Skipped, None; }
      if !a.manual {
        if a.fault == Hashing { return Failed, None; }
        var duplicate := CheckDuplicate(a);
        if duplicate { return Skipped, None; }
      }
      if !a.conditionsMet { return Skipped, None; }
      if a.fault == CreatingRun { return Failed, None; }
      run := Some(runs);
      runs := runs + 1;
      status := Triggered;
      // An exception while the trigger state is updated is caught and leaves status and run as they are.
    }
  }

  ghost predicate Rising(attempts: seq<Attempt>) {
    && (forall k | 0 <= k < |attempts| :: attempts[k].rateAt <= attempts[k].dedupAt <= attempts[k].storedAt)
    && forall j, k | 0 <= j < k < |attempts| :: attempts[j].storedAt <= attempts[k].rateAt
  }

  ghost predicate AdmittedAt(attempts: seq<Attempt>, k: nat)
    requires k < |attempts|
  {
    Admitted(After(attempts, k).state, attempts[k])
  }

  // ----- the deduplicator

  ghost predicate PassesAt(attempts: seq<Attempt>, k: nat)
    requires k < |attempts|
  {
    PassesDedup(After(attempts, k).state, attempts[k])
  }

  /** The last of the first `n` attempts that passed the duplicate check. */
  ghost function LastPass(attempts: seq<Attempt>, n: nat): (p: Option<nat>)
    requires n <= |attempts|
    ensures p.Some? ==> p.value < n
  {
    if n == 0 then None else if PassesAt(attempts, n - 1) then Some(n - 1) else LastPass(attempts, n - 1)
  }

  lemma {:induction false} SlotHoldsLastPass(attempts: seq<Attempt>, n: nat)
    requires n <= |attempts|
    ensures var s, last := After(attempts, n).state, LastPass(attempts, n);
            if last.None? then s.hash.None? && s.checkedAt.None?
            else (&& last.value < n && s.hash == Some(attempts[last.value].hash)
                  && s.checkedAt == Some(attempts[last.value].storedAt))
  {
    if n > 0 {
      SlotHoldsLastPass(attempts, n - 1);
    }
  }

  /**
   An attempt that reaches the duplicate check is refused there exactly when the last attempt that
   passed it had the same context hash and is less than five minutes old.
   */
  lemma DuplicateExactly(attempts: seq<Attempt>, k: nat)
    requires k < |attempts| && !attempts[k].manual
    requires Admitted(After(attempts, k).state, attempts[k]) && attempts[k].fault != Hashing
    ensures var last := LastPass(attempts, k);
            Decide(After(attempts, k).state, attempts[k]) == Duplicate <==>
              last.Some? && attempts[last.value].hash == attempts[k].hash
              && attempts[k].dedupAt - attempts[last.value].storedAt < DEDUP_WINDOW
  {
    SlotHoldsLastPass(attempts, k);
  }

  /** Two consecutive passes with the same context are at least five minutes apart. */
  lemma ConsecutivePassesAreApart(attempts: seq<Attempt>, j: nat, k: nat)
    requires j < k < |attempts| && PassesAt(attempts, j) && PassesAt(attempts, k)
    requires forall i | j < i < k :: !PassesAt(attempts, i)
    requires attempts[j].hash == attempts[k].hash
    ensures attempts[k].dedupAt - attempts[j].storedAt >= DEDUP_WINDOW
  {
    LastPassIs(attempts, j, k);
    SlotHoldsLastPass(attempts, k);
  }

  lemma {:induction false} LastPassIs(attempts: seq<Attempt>, j: nat, n: nat)
    requires j < n <= |attempts| && PassesAt(attempts, j) && forall i | j < i < n :: !PassesAt(attempts, i)
    ensures LastPass(attempts, n) == Some(j)
  {
    if n > j + 1 {
      LastPassIs(attempts, j, n - 1);
    }
  }

  /** The slot remembers one context only: alternating contexts pass again within the window. */
  lemma AlternatingContextsPass(first: Attempt)
    requires !first.manual && first.workflow == Live(true) && first.conditionsMet && first.fault == NoFault
    requires first.rateAt == first.dedupAt == first.storedAt
    ensures var other := first.(hash := first.hash + 1);
            var attempts := [first, other, first];
            Rising(attempts) && PassesAt(attempts, 0) && PassesAt(attempts, 1) && PassesAt(attempts, 2)
  {
  }

  // ----- the log

  ghost function RowsWith(logs: seq<LogRow>, status: LogStatus): nat {
    if logs == [] then 0 else RowsWith(logs[..|logs| - 1], status) + if logs[|logs| - 1].status == status then 1 else 0
  }

  ghost function Existing(attempts: seq<Attempt>, n: nat): nat
    requires n <= |attempts|
  {
    if n == 0 then 0 else Existing(attempts, n - 1) + if attempts[n - 1].workflow.Missing? then 0 else 1
  }

  ghost predicate TriggeredRowsHaveRuns(logs: seq<LogRow>) {
    forall i | 0 <= i < |logs| :: logs[i].status == Triggered <==> logs[i].run.Some?
  }

  /** Each attempt on an existing workflow leaves one log row, and "triggered" rows are the runs created. */
  lemma {:induction false} LogIsComplete(attempts: seq<Attempt>, n: nat)
    requires n <= |attempts|
    ensures |After(attempts, n).logs| == Existing(attempts, n)
    ensures RowsWith(After(attempts, n).logs, Triggered) == After(attempts, n).runs
    ensures TriggeredRowsHaveRuns(After(attempts, n).logs)
  {
    if n > 0 {
      LogIsComplete(attempts, n - 1);
      LogStep(After(attempts, n - 1), attempts[n - 1]);
    }
  }

  lemma LogStep(store: Store, a: Attempt)
    requires TriggeredRowsHaveRuns(store.logs) && RowsWith(store.logs, Triggered) == store.runs
    ensures var next := Execute(store, a);
            && |next.logs| == |store.logs| + (if a.workflow.Missing? then 0 else 1)
            && RowsWith(next.logs, Triggered) == next.runs && TriggeredRowsHaveRuns(next.logs)
  {
    var next := Execute(store, a);
    if !a.workflow.Missing? {
      assert next.logs[..|next.logs| - 1] == store.logs;
    }
  }
}
