/** What is left of an identifier's counters when its lockout ends, and when tenth events go unnoticed. */
module LoginEnds {
  import opened LoginInvariants
  import opened LoginSecurity
  import opened LoginTraces
  import opened Results

  // ----- when a lockout ends

  /** A failed login sets no backoff for an identifier that stays locked out. */
  lemma NoBackoffWhileLocked(st: Security, ids: seq<Identifier>, before: real, now: real, r: Lockout)
    requires Consistent(st, before) && Governed(st, before) && before <= now && BackoffEnds(st, r)
    requires r in Fail(st, ids, now).0.lockouts && r.until > now
    ensures BackoffEnds(Fail(st, ids, now).0, r)
  {
    var counted := st.(failures := CountFailures(st.failures, ids, now));
    CacheOnly(st, counted, before);
    RecordAbuseKeeps(counted, ids, before, now);
    RecordAbuseIsExact(counted, ids, before, now);
    FailParts(st, ids, now);
    var (recorded, response) := RecordAbuse(counted, ids, now);
    if !response.Locked? && r.id in ids {
      assert Grew(counted, recorded, r.id);
      assert Governs(recorded, r);
    }
  }

  lemma BackoffsStillEnd(st: Security, op: Operation, before: real)
    requires Consistent(st, before) && Governed(st, before) && before <= op.at
    requires CacheFits(st, before) && BackoffsEnd(st, before)
    ensures BackoffsEnd(Perform(st, op), op.at)
  {
    var next := Perform(st, op);
    PerformCacheFits(st, op, before);
    if !op.Succeeded? { PerformProlongs(st, op, before); }
    forall r | r in next.lockouts && r.until > op.at ensures BackoffEnds(next, r) {
      if r in st.lockouts {
        match op
        case Checked(ids, at) =>
          if next != st { RecordAbuseIsExact(st, ids, before, at); }
        case Failed(ids, at) => NoBackoffWhileLocked(st, ids, before, at, r);
        case Succeeded(ids, at) =>
      }
    }
  }

  /**
   A failure counter outlives an active lockout exactly when a login by its identifier failed since the
   lockout was set.
   */
  ghost predicate OutlivedExactly(ops: seq<Operation>, st: Security, now: real) {
    forall r | r in st.lockouts && r.until > now :: FailureOutlives(st, r) <==> FailedSince(ops, r.id, r.lastAttempt)
  }

  lemma FailuresStep(ops: seq<Operation>, op: Operation, st: Security, before: real)
    requires Consistent(st, before) && Governed(st, before) && before <= op.at && CacheFits(st, before)
    requires OutlivedExactly(ops, st, before) && Timed(ops + [op]) && (op.Succeeded? ==> AllUnlocked(st, op.ids, op.at))
    ensures OutlivedExactly(ops + [op], Perform(st, op), op.at)
  {
    var next := Perform(st, op);
    TimedAppend(ops, op);
    PerformKeeps(st, op, before);
    PerformCacheFits(st, op, before);
    if !op.Succeeded? { PerformProlongs(st, op, before); }
    forall r | r in next.lockouts && r.until > op.at
      ensures FailureOutlives(next, r) <==> FailedSince(ops + [op], r.id, r.lastAttempt)
    {
      FailedSinceStep(ops, op, r.id, r.lastAttempt);
      if r.lastAttempt == op.at {
        NothingLater(ops, r.id, op.at);
      } else {
        assert r in st.lockouts;
        FailureKept(st, op, before, r);
      }
    }
  }

  lemma FailureKept(st: Security, op: Operation, before: real, r: Lockout)
    requires Consistent(st, before) && before <= op.at && CacheFits(st, before)
    requires r in st.lockouts && r.until > op.at && op.at > r.lastAttempt
    requires op.Succeeded? ==> AllUnlocked(st, op.ids, op.at)
    ensures FailureOutlives(Perform(st, op), r) <==> FailureOutlives(st, r) || (op.Failed? && r.id in op.ids)
  {
    match op
    case Checked(ids, at) =>
      if Perform(st, op) != st { RecordAbuseIsExact(st, ids, before, at); }
    case Failed(ids, at) => FailCacheFits(st, ids, before, at);
    case Succeeded(ids, at) =>
  }

  lemma {:induction false} EveryTraceEnds(ops: seq<Operation>, now: real)
    requires Timed(ops) && LastTime(ops, now) <= now && NoSuccessWhileLocked(ops)
    ensures var st := PerformAll(ops); CacheFits(st, now) && BackoffsEnd(st, now) && OutlivedExactly(ops, st, now)
  {
    if ops != [] {
      var front, op := ops[..|ops| - 1], ops[|ops| - 1];
      assert ops == front + [op];
      Append(front, op);
      TimedAppend(front, op);
      EveryTraceIsConsistent(front, op.at);
      EveryTraceIsGoverned(front, op.at);
      EveryTraceEnds(front, op.at);
      PerformCacheFits(PerformAll(front), op, op.at);
      BackoffsStillEnd(PerformAll(front), op, op.at);
      FailuresStep(front, op, PerformAll(front), op.at);
    }
  }

  /**
   When a lockout ends, after a trace in which no identifier succeeded while locked out, the abuse
   counter and the backoff of its identifier have expired; its failure counter has expired too exactly
   when no login by it failed after the lockout was last set.
   */
  lemma LockoutEndsClean(ops: seq<Operation>, r: Lockout, now: real)
    requires Timed(ops) && LastTime(ops, now) <= now && NoSuccessWhileLocked(ops)
    requires r in PerformAll(ops).lockouts && r.until > now
    ensures var st := PerformAll(ops);
            && Live(st.abuses, r.id, r.until) == 0 && Remaining(st, r.id, r.until) == 0
            && (Live(st.failures, r.id, r.until) == 0 <==> !FailedSince(ops, r.id, r.lastAttempt))
  {
    var st := PerformAll(ops);
    EveryTraceIsConsistent(ops, now);
    EveryTraceIsGoverned(ops, now);
    EveryTraceEnds(ops, now);
    assert Governs(st, r) && BackoffEnds(st, r) && CounterIsStreak(st, r.id);
  }

  // ----- what is left on any trace

  /** When a login by `id` last failed, if none by it succeeded afterwards. */
  function LastFailure(ops: seq<Operation>, id: Identifier): Option<real> {
    if ops == [] then None
    else
      match ops[|ops| - 1]
      case Checked(_, _) => LastFailure(ops[..|ops| - 1], id)
      case Failed(ids, at) => if id in ids then Some(at) else LastFailure(ops[..|ops| - 1], id)
      case Succeeded(ids, _) => if id in ids then None else LastFailure(ops[..|ops| - 1], id)
  }

  /** The failure counter of `id` runs from its last failure. */
  ghost predicate RunsFromLast(st: Security, id: Identifier, last: Option<real>) {
    match last
    case None => id !in st.failures
    case Some(t) => id in st.failures && st.failures[id].value >= 1 && st.failures[id].expires == t + FAILURE_WINDOW
  }

  lemma {:induction false} FailuresRunFromLast(ops: seq<Operation>, id: Identifier, now: real)
    requires Timed(ops) && LastTime(ops, now) <= now
    ensures CacheFits(PerformAll(ops), now) && RunsFromLast(PerformAll(ops), id, LastFailure(ops, id))
  {
    if ops != [] {
      var front, op := ops[..|ops| - 1], ops[|ops| - 1];
      var st := PerformAll(front);
      assert ops == front + [op];
      TimedAppend(front, op);
      FailuresRunFromLast(front, id, op.at);
      EveryTraceIsConsistent(front, op.at);
      PerformCacheFits(st, op, op.at);
      match op
      case Checked(ids, at) => if Check(st, ids, at).0 != st { RecordAbuseIsExact(st, ids, at, at); }
      case Failed(ids, at) => FailCacheFits(st, ids, at, at);
      case Succeeded(_, _) =>
    }
  }

  /**
   When a lockout ends, after any trace whatever, the abuse counter of its identifier has expired exactly
   when no event was counted against it after the lockout was last set, and its failure counter exactly
   when its last failure that no success followed is no later either.
   */
  lemma LockoutEndsExactly(ops: seq<Operation>, r: Lockout, now: real)
    requires Timed(ops) && LastTime(ops, now) <= now && r in PerformAll(ops).lockouts
    ensures var st, h := PerformAll(ops), History(PerformAll(ops), r.id);
            Live(st.abuses, r.id, r.until) == 0 <==> h == [] || h[|h| - 1] <= r.lastAttempt
    ensures var last := LastFailure(ops, r.id);
            Live(PerformAll(ops).failures, r.id, r.until) == 0 <==> last.None? || last.value <= r.lastAttempt
  {
    var st := PerformAll(ops);
    EveryTraceIsConsistent(ops, now);
    FailuresRunFromLast(ops, r.id, now);
    assert CounterIsStreak(st, r.id) && r.until == r.lastAttempt + LOCKOUT_SECONDS;
  }

  // ----- an identifier that is always listed first

  ghost predicate ListedFirst(ops: seq<Operation>, id: Identifier) {
    forall op | op in ops && op.Failed? && id in op.ids :: op.ids[0] == id
  }

  lemma FirstIsCounted(st: Security, ids: seq<Identifier>, before: real, now: real)
    requires Consistent(st, before) && before <= now && ids != []
    ensures Grew(st, Fail(st, ids, now).0, ids[0])
  {
    var counted := st.(failures := CountFailures(st.failures, ids, now));
    CacheOnly(st, counted, before);
    FailParts(st, ids, now);
    var (mid, response) := CountOne(counted, ids[0], now);
    OneIsRecorded(counted, ids[0], before, now);
    CountOneKeeps(counted, ids[0], before, now);
    CountOneIsExact(counted, ids[0], before, now);
    if !response.Locked? {
      RecordAbuseIsExact(mid, ids[1..], now, now);
      assert Prolongs(History(mid, ids[0]), History(RecordAbuse(mid, ids[1..], now).0, ids[0]), now);
    }
  }

  lemma GrownIsSetNow(st: Security, op: Operation, before: real, r: Lockout)
    requires Consistent(st, before) && Governed(st, before) && before <= op.at && !op.Succeeded?
    requires Grew(st, Perform(st, op), r.id) && r in Perform(st, op).lockouts && r.until > op.at
    ensures r.lastAttempt == op.at
  {
    var next := Perform(st, op);
    PerformKeeps(st, op, before);
    PerformProlongs(st, op, before);
    assert Governs(next, r) && Prolongs(History(st, r.id), History(next, r.id), op.at);
  }

  lemma {:induction false} FirstNeverFailsSince(ops: seq<Operation>, r: Lockout, now: real)
    requires Timed(ops) && LastTime(ops, now) <= now && NoSuccessWhileLocked(ops) && ListedFirst(ops, r.id)
    requires r in PerformAll(ops).lockouts && r.until > now
    ensures !FailedSince(ops, r.id, r.lastAttempt)
  {
    if ops != [] {
      var front, op := ops[..|ops| - 1], ops[|ops| - 1];
      assert ops == front + [op];
      Append(front, op);
      TimedAppend(front, op);
      var st := PerformAll(front);
      EveryTraceIsConsistent(front, op.at);
      EveryTraceIsGoverned(front, op.at);
      EveryTraceIsConsistent(ops, now);
      FailedSinceStep(front, op, r.id, r.lastAttempt);
      if r.lastAttempt == op.at {
        NothingLater(front, r.id, op.at);
      } else {
        if !op.Succeeded? { PerformProlongs(st, op, op.at); }
        assert r in st.lockouts;
        assert ListedFirst(front, r.id);
        FirstNeverFailsSince(front, r, op.at);
        if op.Failed? && r.id in op.ids {
          assert op in ops;
          FirstIsCounted(st, op.ids, op.at, op.at);
          GrownIsSetNow(st, op, op.at, r);
        }
      }
    }
  }

  /** When the lockout of an identifier that is always listed first ends, nothing of its counters is left. */
  lemma FirstEndsClean(ops: seq<Operation>, r: Lockout, now: real)
    requires Timed(ops) && LastTime(ops, now) <= now && NoSuccessWhileLocked(ops) && ListedFirst(ops, r.id)
    requires r in PerformAll(ops).lockouts && r.until > now
    ensures var st := PerformAll(ops);
            && Live(st.failures, r.id, r.until) == 0 && Live(st.abuses, r.id, r.until) == 0
            && Remaining(st, r.id, r.until) == 0
  {
    LockoutEndsClean(ops, r, now);
    FirstNeverFailsSince(ops, r, now);
  }
}
