/** Lockouts over any timed sequence of checks, failures and successes. */
module LoginTraces {
  import opened LoginInvariants
  import opened LoginSecurity

  ghost predicate AllUnlocked(st: Security, ids: seq<Identifier>, now: real) {
    forall id | id in ids :: Unlocked(st, id, now)
  }

  // ----- one operation

  lemma CacheOnly(st: Security, next: Security, now: real)
    requires next == st.(failures := next.failures, backoffs := next.backoffs)
    ensures Consistent(st, now) <==> Consistent(next, now)
    ensures Governed(st, now) <==> Governed(next, now)
    ensures forall id :: History(next, id) == History(st, id)
  {
    forall id
      ensures History(next, id) == History(st, id)
      ensures CounterIsStreak(st, id) <==> CounterIsStreak(next, id)
      ensures TenIsLocked(st, id) <==> TenIsLocked(next, id)
      ensures CountedBy(st, id, now) <==> CountedBy(next, id, now)
    {
    }
    forall r ensures Governs(st, r) <==> Governs(next, r) {
    }
  }

  lemma {:induction false} BackoffsAreShort(st: Security, ids: seq<Identifier>, now: real)
    ensures var next := SetBackoffs(st, ids, now);
            && next == st.(backoffs := next.backoffs)
            && forall id | id in next.backoffs && !(id in st.backoffs && st.backoffs[id] == next.backoffs[id]) ::
                 id in ids && next.backoffs[id].expires == now + BACKOFF_SECONDS as real
  {
    if ids != [] {
      BackoffsAreShort(st, ids[..|ids| - 1], now);
      assert ids == ids[..|ids| - 1] + [ids[|ids| - 1]];
    }
  }

  /** A failed login is its failure counts, the loop over the identifiers, and perhaps backoffs. */
  lemma FailParts(st: Security, ids: seq<Identifier>, now: real)
    ensures var counted := st.(failures := CountFailures(st.failures, ids, now));
            var (recorded, response) := RecordAbuse(counted, ids, now);
            var next := Fail(st, ids, now).0;
            && next == recorded.(backoffs := next.backoffs)
            && (response.Locked? ==> next.backoffs == recorded.backoffs)
            && forall id | id in next.backoffs &&
                !(id in recorded.backoffs && recorded.backoffs[id] == next.backoffs[id]) ::
                 id in ids && next.backoffs[id].expires == now + BACKOFF_SECONDS as real
  {
    var counted := st.(failures := CountFailures(st.failures, ids, now));
    BackoffsAreShort(RecordAbuse(counted, ids, now).0, ids, now);
  }

  lemma ClearKeeps(st: Security, ids: seq<Identifier>, before: real, now: real)
    requires Consistent(st, before) && before <= now
    ensures Consistent(Clear(st, ids), now) && LocksOutAtTen(st, Clear(st, ids), now)
  {
    var next := Clear(st, ids);
    forall id ensures CounterIsStreak(next, id) && TenIsLocked(next, id) && CountedBy(next, id, now)
              ensures History(next, id) == if id in ids then [] else History(st, id) {
      assert CounterIsStreak(st, id) && TenIsLocked(st, id) && CountedBy(st, id, before);
    }
  }

  lemma ClearGoverns(st: Security, ids: seq<Identifier>, before: real, now: real)
    requires Governed(st, before) && before <= now && AllUnlocked(st, ids, now)
    ensures Governed(Clear(st, ids), now)
  {
    forall r | r in st.lockouts && r.until > now ensures Governs(Clear(st, ids), r) {
      assert Governs(st, r) && r.id !in ids;
    }
  }

  lemma FailKeeps(st: Security, ids: seq<Identifier>, before: real, now: real)
    requires Consistent(st, before) && before <= now
    ensures Consistent(Fail(st, ids, now).0, now) && LocksOutAtTen(st, Fail(st, ids, now).0, now)
    ensures Governed(st, before) ==> Governed(Fail(st, ids, now).0, now)
  {
    var counted := st.(failures := CountFailures(st.failures, ids, now));
    CacheOnly(st, counted, before);
    RecordAbuseKeeps(counted, ids, before, now);
    RecordAbuseIsExact(counted, ids, before, now);
    FailParts(st, ids, now);
    var recorded, next := RecordAbuse(counted, ids, now).0, Fail(st, ids, now).0;
    CacheOnly(recorded, next, now);
    SameRows(counted, recorded, st, next, now);
  }

  lemma SameRows(a: Security, b: Security, c: Security, d: Security, now: real)
    requires LocksOutAtTen(a, b, now) && a.counted == c.counted && a.lockouts == c.lockouts
    requires b.counted == d.counted && b.lockouts == d.lockouts
    ensures LocksOutAtTen(c, d, now)
  {
    forall id ensures NewRow(a, b, id) <==> NewRow(c, d, id)
              ensures Grew(a, b, id) <==> Grew(c, d, id)
              ensures Unlocked(a, id, now) <==> Unlocked(c, id, now) && History(b, id) == History(d, id) {
    }
  }

  lemma CheckKeeps(st: Security, ids: seq<Identifier>, before: real, now: real)
    requires Consistent(st, before) && before <= now
    ensures Consistent(Check(st, ids, now).0, now) && LocksOutAtTen(st, Check(st, ids, now).0, now)
    ensures Governed(st, before) ==> Governed(Check(st, ids, now).0, now)
  {
    if Check(st, ids, now).0 == st {
      Later(st, before, now);
    } else {
      RecordAbuseKeeps(st, ids, before, now);
      RecordAbuseIsExact(st, ids, before, now);
    }
  }

  lemma PerformKeeps(st: Security, op: Operation, before: real)
    requires Consistent(st, before) && before <= op.at
    ensures Consistent(Perform(st, op), op.at) && LocksOutAtTen(st, Perform(st, op), op.at)
    ensures Governed(st, before) && (op.Succeeded? ==> AllUnlocked(st, op.ids, op.at)) ==>
        Governed(Perform(st, op), op.at)
  {
    match op
    case Checked(ids, at) => CheckKeeps(st, ids, before, at);
    case Failed(ids, at) => FailKeeps(st, ids, before, at);
    case Succeeded(ids, at) =>
      ClearKeeps(st, ids, before, at);
      if Governed(st, before) && AllUnlocked(st, ids, at) { ClearGoverns(st, ids, before, at); }
  }

  // ----- any timed sequence of operations

  ghost predicate Timed(ops: seq<Operation>) {
    forall i | 0 < i < |ops| :: ops[i - 1].at <= ops[i].at
  }

  function LastTime(ops: seq<Operation>, default: real): real {
    if ops == [] then default else ops[|ops| - 1].at
  }

  lemma Append(ops: seq<Operation>, op: Operation)
    ensures PerformAll(ops + [op]) == Perform(PerformAll(ops), op)
  {
    assert (ops + [op])[..|ops|] == ops;
  }

  lemma TimedAppend(ops: seq<Operation>, op: Operation)
    ensures Timed(ops + [op]) <==> Timed(ops) && LastTime(ops, op.at) <= op.at
  {
    var more := ops + [op];
    assert forall i | 0 <= i < |ops| :: more[i] == ops[i];
    if Timed(more) {
      forall i | 0 < i < |ops| ensures ops[i - 1].at <= ops[i].at {
        assert more[i - 1].at <= more[i].at;
      }
      assert ops != [] ==> more[|ops| - 1].at <= more[|ops|].at;
    } else {
      var i :| 0 < i < |more| && more[i - 1].at > more[i].at;
      assert i < |ops| ==> ops[i - 1].at > ops[i].at;
    }
  }

  lemma UntouchedIsConsistent(now: real)
    ensures Consistent(UNTOUCHED, now) && Governed(UNTOUCHED, now)
  {
    forall id ensures CounterIsStreak(UNTOUCHED, id) && TenIsLocked(UNTOUCHED, id) && CountedBy(UNTOUCHED, id, now) {
    }
  }

  /** Whatever is called in whatever order, counters are streaks and every streak of ten is locked out. */
  lemma {:induction false} EveryTraceIsConsistent(ops: seq<Operation>, now: real)
    requires Timed(ops) && LastTime(ops, now) <= now
    ensures Consistent(PerformAll(ops), now)
  {
    if ops == [] {
      UntouchedIsConsistent(now);
    } else {
      var front, op := ops[..|ops| - 1], ops[|ops| - 1];
      assert ops == front + [op];
      Append(front, op);
      TimedAppend(front, op);
      EveryTraceIsConsistent(front, op.at);
      PerformKeeps(PerformAll(front), op, op.at);
      Later(PerformAll(ops), op.at, now);
    }
  }

  /**
   After any trace, an operation creates a lockout row for exactly the identifiers that it counts up
   to a streak of ten while they have no active lockout.
   */
  lemma LockoutsExactly(ops: seq<Operation>, op: Operation)
    requires Timed(ops + [op])
    ensures LocksOutAtTen(PerformAll(ops), PerformAll(ops + [op]), op.at)
  {
    TimedAppend(ops, op);
    Append(ops, op);
    EveryTraceIsConsistent(ops, op.at);
    PerformKeeps(PerformAll(ops), op, op.at);
  }

  // ----- no success of an identifier while it is locked out

  ghost predicate NoSuccessWhileLocked(ops: seq<Operation>) {
    ops == [] || (
      var front, op := ops[..|ops| - 1], ops[|ops| - 1];
      NoSuccessWhileLocked(front) && (op.Succeeded? ==> AllUnlocked(PerformAll(front), op.ids, op.at)))
  }

  lemma {:induction false} EveryTraceIsGoverned(ops: seq<Operation>, now: real)
    requires Timed(ops) && LastTime(ops, now) <= now && NoSuccessWhileLocked(ops)
    ensures Governed(PerformAll(ops), now)
  {
    if ops == [] {
      UntouchedIsConsistent(now);
    } else {
      var front, op := ops[..|ops| - 1], ops[|ops| - 1];
      assert ops == front + [op];
      Append(front, op);
      TimedAppend(front, op);
      EveryTraceIsConsistent(front, op.at);
      EveryTraceIsGoverned(front, op.at);
      PerformKeeps(PerformAll(front), op, op.at);
      Later(PerformAll(ops), op.at, now);
    }
  }

  /** `id` is locked out by this step exactly when the step counts its tenth event. */
  ghost predicate ExactlyTheTenth(st: Security, next: Security) {
    forall id :: NewRow(st, next, id) <==> Grew(st, next, id) && Streak(History(next, id)) == LOCKOUT_THRESHOLD
  }

  lemma {:induction false} StreakGrows(h: seq<real>, more: seq<real>, now: real)
    requires h != [] && Prolongs(h, more, now) && |h| < |more| && h[|h| - 1] <= now < h[|h| - 1] + LOCKOUT_WINDOW
    ensures Streak(more) > Streak(h)
  {
    var front := more[..|more| - 1];
    if |front| > |h| {
      StreakGrows(h, front, now);
    } else {
      assert front == h;
    }
  }

  lemma GovernedIsTenth(st: Security, next: Security, id: Identifier, before: real, now: real)
    requires Consistent(st, before) && Governed(st, before) && before <= now && Grew(st, next, id)
    requires Prolongs(History(st, id), History(next, id), now) && !Unlocked(st, id, now)
    ensures Streak(History(next, id)) > LOCKOUT_THRESHOLD
  {
    var r :| r in st.lockouts && r.id == id && r.until > now;
    assert Governs(st, r) && CountedBy(st, id, before);
    StreakGrows(History(st, id), History(next, id), now);
  }

  lemma PerformProlongs(st: Security, op: Operation, before: real)
    requires Consistent(st, before) && before <= op.at && !op.Succeeded?
    ensures HistoriesGrow(st, Perform(st, op), op.at) && RowsOldOrNew(st, Perform(st, op), op.at)
  {
    match op
    case Checked(ids, at) =>
      if Check(st, ids, at).0 != st { RecordAbuseIsExact(st, ids, before, at); }
    case Failed(ids, at) =>
      var counted := st.(failures := CountFailures(st.failures, ids, at));
      CacheOnly(st, counted, before);
      RecordAbuseIsExact(counted, ids, before, at);
      FailParts(st, ids, at);
      CacheOnly(RecordAbuse(counted, ids, at).0, Perform(st, op), at);
      SameGrowth(counted, RecordAbuse(counted, ids, at).0, st, Perform(st, op), at);
  }

  lemma SameGrowth(a: Security, b: Security, c: Security, d: Security, now: real)
    requires HistoriesGrow(a, b, now) && RowsOldOrNew(a, b, now)
    requires forall id :: History(a, id) == History(c, id) && History(b, id) == History(d, id)
    requires a.lockouts == c.lockouts && b.lockouts == d.lockouts
    ensures HistoriesGrow(c, d, now) && RowsOldOrNew(c, d, now)
  {
    forall id ensures Prolongs(History(c, id), History(d, id), now) {
      assert Prolongs(History(a, id), History(b, id), now);
    }
  }

  lemma PerformIsTenth(st: Security, op: Operation, before: real)
    requires Consistent(st, before) && Governed(st, before) && before <= op.at
    ensures ExactlyTheTenth(st, Perform(st, op))
  {
    PerformKeeps(st, op, before);
    var next := Perform(st, op);
    forall id | Grew(st, next, id) && Streak(History(next, id)) == LOCKOUT_THRESHOLD ensures Unlocked(st, id, op.at) {
      if !op.Succeeded? && !Unlocked(st, id, op.at) {
        PerformProlongs(st, op, before);
        GovernedIsTenth(st, next, id, before, op.at);
      }
    }
  }

  /** After a trace in which no identifier succeeds while it is locked out, rows are created at tenth events exactly. */
  lemma TenthExactly(ops: seq<Operation>, op: Operation)
    requires Timed(ops + [op]) && NoSuccessWhileLocked(ops)
    ensures ExactlyTheTenth(PerformAll(ops), PerformAll(ops + [op]))
  {
    TimedAppend(ops, op);
    Append(ops, op);
    EveryTraceIsConsistent(ops, op.at);
    EveryTraceIsGoverned(ops, op.at);
    PerformIsTenth(PerformAll(ops), op, op.at);
  }

  // ----- what is left when a lockout ends

  lemma {:induction false} CountFailuresExactly(m: Counters, ids: seq<Identifier>, now: real, id: Identifier)
    requires id in m ==> m[id].value >= 1
    ensures var next := CountFailures(m, ids, now);
            && (id in ids ==> id in next && next[id].expires == now + FAILURE_WINDOW)
            && (id !in ids ==> (id in next <==> id in m) && (id in m ==> next[id] == m[id]))
            && (id in next ==> next[id].value >= 1)
    decreases |ids|
  {
    if ids != [] {
      CountFailuresExactly(Increment(m, ids[0], FAILURE_WINDOW, now), ids[1..], now, id);
    }
  }

  /** Some failed login by `id` later than `t`. */
  ghost predicate FailedSince(ops: seq<Operation>, id: Identifier, t: real) {
    exists op :: op in ops && op.Failed? && id in op.ids && op.at > t
  }

  lemma FailedSinceStep(ops: seq<Operation>, op: Operation, id: Identifier, t: real)
    ensures FailedSince(ops + [op], id, t) <==> FailedSince(ops, id, t) || (op.Failed? && id in op.ids && op.at > t)
  {
    assert op in ops + [op];
    assert forall o :: o in ops + [op] <==> o in ops || o == op;
  }

  lemma {:induction false} TimesRise(ops: seq<Operation>, i: nat, j: nat)
    requires Timed(ops) && i <= j < |ops|
    ensures ops[i].at <= ops[j].at
  {
    if i < j {
      TimesRise(ops, i, j - 1);
    }
  }

  lemma NothingLater(ops: seq<Operation>, id: Identifier, t: real)
    requires Timed(ops) && LastTime(ops, t) <= t
    ensures !FailedSince(ops, id, t)
  {
    forall op | op in ops ensures op.at <= t {
      var i :| 0 <= i < |ops| && ops[i] == op;
      TimesRise(ops, i, |ops| - 1);
    }
  }

  /** A failure counter outlives the lockout `r`. */
  ghost predicate FailureOutlives(st: Security, r: Lockout) {
    r.id in st.failures && st.failures[r.id].expires > r.until
  }

  ghost predicate CacheFits(st: Security, now: real) {
    && (forall id | id in st.failures :: st.failures[id].value >= 1 && st.failures[id].expires <= now + FAILURE_WINDOW)
    && (forall id | id in st.backoffs :: st.backoffs[id].expires <= now + BACKOFF_SECONDS as real)
  }

  ghost predicate BackoffEnds(st: Security, r: Lockout) {
    r.id in st.backoffs ==> st.backoffs[r.id].expires <= r.until
  }

  ghost predicate BackoffsEnd(st: Security, now: real) {
    forall r | r in st.lockouts && r.until > now :: BackoffEnds(st, r)
  }

  lemma FailCacheFits(st: Security, ids: seq<Identifier>, before: real, now: real)
    requires Consistent(st, before) && before <= now && CacheFits(st, before)
    ensures CacheFits(Fail(st, ids, now).0, now)
    ensures forall id :: var next := Fail(st, ids, now).0;
      if id in ids then id in next.failures && next.failures[id].expires == now + FAILURE_WINDOW
      else (id in next.failures <==> id in st.failures) && (id in st.failures ==> next.failures[id] == st.failures[id])
  {
    var counted := st.(failures := CountFailures(st.failures, ids, now));
    CacheOnly(st, counted, before);
    RecordAbuseIsExact(counted, ids, before, now);
    FailParts(st, ids, now);
    var next := Fail(st, ids, now).0;
    assert next.failures == counted.failures;
    forall id
      ensures if id in ids then id in next.failures && next.failures[id].expires == now + FAILURE_WINDOW
              else (&& (id in next.failures <==> id in st.failures)
                    && (id in st.failures ==> next.failures[id] == st.failures[id]))
      ensures id in next.failures ==> next.failures[id].value >= 1
    {
      CountFailuresExactly(st.failures, ids, now, id);
    }
  }

  lemma PerformCacheFits(st: Security, op: Operation, before: real)
    requires Consistent(st, before) && before <= op.at && CacheFits(st, before)
    ensures CacheFits(Perform(st, op), op.at)
  {
    match op
    case Checked(ids, at) =>
      if Check(st, ids, at).0 != st { RecordAbuseIsExact(st, ids, before, at); }
    case Failed(ids, at) => FailCacheFits(st, ids, before, at);
    case Succeeded(ids, at) =>
  }
}
