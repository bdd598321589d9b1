/** What a success during a lockout breaks, and why requests that do not overlap never have one. */
module LoginSuccesses {
  import opened LoginInvariants
  import opened LoginSecurity
  import opened LoginTraces

  /** A single identifier's failed login is one counted event. */
  lemma FailOne(st: Security, id: Identifier, before: real, now: real)
    requires Consistent(st, before) && before <= now
    ensures var next := Fail(st, [id], now).0;
            && History(next, id) == History(st, id) + [now]
            && RowsAfter(st.lockouts, next.lockouts, id, NextStreak(st, id, now), now, Unlocked(st, id, now))
            && id in next.abuses && next.abuses[id] == Entry(NextStreak(st, id, now), now + LOCKOUT_WINDOW)
  {
    var counted := st.(failures := CountFailures(st.failures, [id], now));
    CacheOnly(st, counted, before);
    FailParts(st, [id], now);
    CountOneRows(counted, id, before, now);
    var next := CountOne(counted, id, now).0;
    assert [id][1..] == [];
    assert RecordAbuse(next, [], now).0 == next;
    assert RecordAbuse(counted, [id], now).0 == next;
  }

  function Repeat(ops: seq<Operation>, op: Operation, k: nat): seq<Operation> {
    if k == 0 then ops else Repeat(ops, op, k - 1) + [op]
  }

  function PerformTimes(st: Security, op: Operation, k: nat): Security {
    if k == 0 then st else Perform(PerformTimes(st, op, k - 1), op)
  }

  lemma {:induction false} RepeatIsPerformTimes(ops: seq<Operation>, op: Operation, k: nat)
    ensures PerformAll(Repeat(ops, op, k)) == PerformTimes(PerformAll(ops), op, k)
  {
    if k > 0 {
      RepeatIsPerformTimes(ops, op, k - 1);
      OneMoreTime(Repeat(ops, op, k - 1), PerformTimes(PerformAll(ops), op, k - 1), op);
    }
  }

  lemma {:induction false} OneMoreTime(ops: seq<Operation>, st: Security, op: Operation)
    requires PerformAll(ops) == st
    ensures PerformAll(ops + [op]) == Perform(st, op)
  {
    Append(ops, op);
  }

  lemma {:induction false} RepeatIsTimed(ops: seq<Operation>, op: Operation, k: nat)
    requires Timed(ops) && LastTime(ops, op.at) <= op.at
    ensures Timed(Repeat(ops, op, k)) && LastTime(Repeat(ops, op, k), op.at) <= op.at
  {
    if k > 0 {
      RepeatIsTimed(ops, op, k - 1);
      TimedAppend(Repeat(ops, op, k - 1), op);
    }
  }

  /** `k` failed logins of `id` at the same instant. */
  function Burst(ops: seq<Operation>, id: Identifier, t: real, k: nat): seq<Operation> {
    Repeat(ops, Failed([id], t), k)
  }

  /** `id` has `k` events, all at `t`; only the tenth makes a row, and only when no lockout was active. */
  ghost predicate Bursting(st: Security, id: Identifier, t: real, k: nat, rows: seq<Lockout>, unlocked: bool) {
    var h := History(st, id);
    && Streak(h) == |h| == k && (k > 0 ==> h[k - 1] == t)
    && if k < LOCKOUT_THRESHOLD then st.lockouts == rows
       else if unlocked then st.lockouts == rows + [Lockout(id, k, t + LOCKOUT_SECONDS, t)]
       else |st.lockouts| == |rows|
  }

  lemma BurstStep(st: Security, id: Identifier, t: real, k: nat, rows: seq<Lockout>, unlocked: bool)
    requires Consistent(st, t) && k < LOCKOUT_THRESHOLD && Bursting(st, id, t, k, rows, unlocked)
    requires unlocked == Unlocked(st, id, t)
    ensures Bursting(Fail(st, [id], t).0, id, t, k + 1, rows, unlocked)
    ensures Consistent(Fail(st, [id], t).0, t)
    ensures k + 1 < LOCKOUT_THRESHOLD ==> unlocked == Unlocked(Fail(st, [id], t).0, id, t)
  {
    FailOne(st, id, t, t);
    FailKeeps(st, [id], t, t);
    var h := History(st, id);
    assert (h + [t])[..|h|] == h;
  }

  lemma {:induction false} FailuresCount(st: Security, id: Identifier, t: real, k: nat)
    requires Consistent(st, t) && History(st, id) == [] && k <= LOCKOUT_THRESHOLD
    ensures Consistent(PerformTimes(st, Failed([id], t), k), t)
    ensures Bursting(PerformTimes(st, Failed([id], t), k), id, t, k, st.lockouts, Unlocked(st, id, t))
    ensures k < LOCKOUT_THRESHOLD ==> Unlocked(PerformTimes(st, Failed([id], t), k), id, t) == Unlocked(st, id, t)
  {
    if k > 0 {
      FailuresCount(st, id, t, k - 1);
      BurstStep(PerformTimes(st, Failed([id], t), k - 1), id, t, k - 1, st.lockouts, Unlocked(st, id, t));
    }
  }

  lemma BurstCounts(ops: seq<Operation>, id: Identifier, t: real, k: nat, st: Security, next: Security)
    requires Timed(ops) && LastTime(ops, t) <= t && k <= LOCKOUT_THRESHOLD
    requires st == PerformAll(ops) && next == PerformAll(Burst(ops, id, t, k)) && History(st, id) == []
    ensures Timed(Burst(ops, id, t, k)) && LastTime(Burst(ops, id, t, k), t) <= t
    ensures Bursting(next, id, t, k, st.lockouts, Unlocked(st, id, t))
  {
    EveryTraceIsConsistent(ops, t);
    RepeatIsPerformTimes(ops, Failed([id], t), k);
    RepeatIsTimed(ops, Failed([id], t), k);
    FailuresCount(st, id, t, k);
  }

  ghost predicate EndsWithSuccess(ops: seq<Operation>, r: Lockout) {
    && ops != [] && ops[|ops| - 1].Succeeded? && r.id in ops[|ops| - 1].ids
    && r in PerformAll(ops).lockouts && r.until > ops[|ops| - 1].at
  }

  lemma SuccessForgets(ops: seq<Operation>, r: Lockout)
    requires EndsWithSuccess(ops, r)
    ensures History(PerformAll(ops), r.id) == []
  {
  }

  /** After a success during a lockout, a failure leaves an event counted when the lockout ends. */
  lemma FailureOutlastsLockout(ops: seq<Operation>, r: Lockout, t: real)
    requires Timed(ops) && EndsWithSuccess(ops, r) && ops[|ops| - 1].at <= t && r.lastAttempt < t < r.until
    ensures var st := PerformAll(ops + [Failed([r.id], t)]);
            Timed(ops + [Failed([r.id], t)]) && r in st.lockouts && Live(st.abuses, r.id, r.until) == 1
  {
    Append(ops, Failed([r.id], t));
    TimedAppend(ops, Failed([r.id], t));
    SuccessForgets(ops, r);
    EveryTraceIsConsistent(ops, t);
    FailOne(PerformAll(ops), r.id, t, t);
  }

  lemma NoTenthRow(st: Security, next: Security, id: Identifier, t: real, rows: seq<Lockout>)
    requires Bursting(st, id, t, 9, rows, false) && Bursting(next, id, t, 10, rows, false)
    ensures !ExactlyTheTenth(st, next)
  {
    assert Grew(st, next, id) && !NewRow(st, next, id);
  }

  /** After a success during a lockout, ten more failures at that instant lock nobody out. */
  lemma TenthUnnoticed(ops: seq<Operation>, r: Lockout, t: real)
    requires Timed(ops) && EndsWithSuccess(ops, r) && t == ops[|ops| - 1].at
    ensures !ExactlyTheTenth(PerformAll(Burst(ops, r.id, t, 9)), PerformAll(Burst(ops, r.id, t, 10)))
  {
    var st, nine, ten := PerformAll(ops), PerformAll(Burst(ops, r.id, t, 9)), PerformAll(Burst(ops, r.id, t, 10));
    SuccessForgets(ops, r);
    BurstCounts(ops, r.id, t, 9, st, nine);
    BurstCounts(ops, r.id, t, 10, st, ten);
    assert !Unlocked(st, r.id, t);
    NoTenthRow(nine, ten, r.id, t, st.lockouts);
  }

  /** Ten failures, a success while locked out, a failure: the lockout ends at 300, the failure is counted until 302. */
  lemma SlipThrough(id: Identifier)
    ensures var ops := Burst([], id, 0.0, 10) + [Succeeded([id], 1.0)] + [Failed([id], 2.0)];
            && Timed(ops) && !NoSuccessWhileLocked(ops)
            && Lockout(id, 10, 300.0, 0.0) in PerformAll(ops).lockouts && Live(PerformAll(ops).abuses, id, 300.0) == 1
  {
    var ten, r := Burst([], id, 0.0, 10), Lockout(id, 10, 300.0, 0.0);
    BurstCounts([], id, 0.0, 10, UNTOUCHED, PerformAll(ten));
    assert PerformAll(ten).lockouts[0] == r;
    SlipsThrough(ten, r);
  }

  lemma SlipsThrough(ten: seq<Operation>, r: Lockout)
    requires Timed(ten) && LastTime(ten, 0.0) <= 0.0 && r in PerformAll(ten).lockouts
    requires r.until == 300.0 && r.lastAttempt == 0.0
    ensures var ops := ten + [Succeeded([r.id], 1.0)] + [Failed([r.id], 2.0)];
            && Timed(ops) && !NoSuccessWhileLocked(ops)
            && r in PerformAll(ops).lockouts && Live(PerformAll(ops).abuses, r.id, 300.0) == 1
  {
    var cleared := ten + [Succeeded([r.id], 1.0)];
    Append(ten, Succeeded([r.id], 1.0));
    TimedAppend(ten, Succeeded([r.id], 1.0));
    assert EndsWithSuccess(cleared, r);
    FailureOutlastsLockout(cleared, r, 2.0);
    assert cleared[..|ten|] == ten;
    assert r.id in cleared[|ten|].ids && !Unlocked(PerformAll(ten), r.id, 1.0);
    assert !NoSuccessWhileLocked(cleared);
    assert (cleared + [Failed([r.id], 2.0)])[..|cleared|] == cleared;
  }

  // ----- the exact condition

  ghost predicate OnlyFailures(more: seq<Operation>) {
    forall op | op in more :: op.Failed?
  }

  /** However the service goes on failing logins, rows are created at tenth events exactly. */
  ghost predicate StaysExact(ops: seq<Operation>) {
    forall more: seq<Operation>, op: Operation | OnlyFailures(more) && op.Failed? && Timed(ops + more + [op]) ::
      ExactlyTheTenth(PerformAll(ops + more), PerformAll(ops + more + [op]))
  }

  lemma {:induction false} FailuresAreNoSuccess(ops: seq<Operation>, more: seq<Operation>)
    requires NoSuccessWhileLocked(ops) && OnlyFailures(more)
    ensures NoSuccessWhileLocked(ops + more)
  {
    if more == [] {
      assert ops + more == ops;
    } else {
      var front := more[..|more| - 1];
      FailuresAreNoSuccess(ops, front);
      assert more[|more| - 1] in more;
      assert (ops + more)[..|ops + more| - 1] == ops + front;
    }
  }

  lemma {:induction false} BurstIsFailures(ops: seq<Operation>, id: Identifier, t: real, k: nat)
    returns (more: seq<Operation>)
    ensures Burst(ops, id, t, k) == ops + more && OnlyFailures(more)
  {
    if k == 0 {
      more := [];
    } else {
      var front := BurstIsFailures(ops, id, t, k - 1);
      more := front + [Failed([id], t)];
    }
  }

  lemma UnsafeIsInexact(ops: seq<Operation>, r: Lockout)
    requires Timed(ops) && EndsWithSuccess(ops, r)
    ensures !StaysExact(ops)
  {
    var t := ops[|ops| - 1].at;
    TenthUnnoticed(ops, r, t);
    RepeatIsTimed(ops, Failed([r.id], t), 10);
    var more := BurstIsFailures(ops, r.id, t, 9);
    assert ops + more + [Failed([r.id], t)] == Burst(ops, r.id, t, 10);
  }

  /** The last operation decides: the trace so far was safe, and it is no success of a locked-out identifier. */
  lemma SafeLast(ops: seq<Operation>)
    requires Timed(ops) && ops != [] && NoSuccessWhileLocked(ops[..|ops| - 1]) && !NoSuccessWhileLocked(ops)
    ensures exists r :: EndsWithSuccess(ops, r)
  {
    var front, op := ops[..|ops| - 1], ops[|ops| - 1];
    var id :| id in op.ids && !Unlocked(PerformAll(front), id, op.at);
    var r :| r in PerformAll(front).lockouts && r.id == id && r.until > op.at;
    assert EndsWithSuccess(ops, r);
  }

  lemma {:induction false} UnsafePrefix(ops: seq<Operation>) returns (k: nat)
    requires Timed(ops) && !NoSuccessWhileLocked(ops)
    ensures k <= |ops| && !StaysExact(ops[..k])
  {
    var front := ops[..|ops| - 1];
    if NoSuccessWhileLocked(front) {
      SafeLast(ops);
      var r :| EndsWithSuccess(ops, r);
      UnsafeIsInexact(ops, r);
      k := |ops|;
      assert ops[..k] == ops;
    } else {
      k := UnsafePrefix(front);
      assert ops[..k] == front[..k];
    }
  }

  lemma {:induction false} PrefixIsSafe(ops: seq<Operation>, k: nat)
    requires k <= |ops| && NoSuccessWhileLocked(ops)
    ensures NoSuccessWhileLocked(ops[..k])
  {
    if k == |ops| {
      assert ops[..k] == ops;
    } else {
      PrefixIsSafe(ops[..|ops| - 1], k);
      assert ops[..|ops| - 1][..k] == ops[..k];
    }
  }

  lemma SafeStaysExact(ops: seq<Operation>)
    requires NoSuccessWhileLocked(ops)
    ensures StaysExact(ops)
  {
    forall more: seq<Operation>, op: Operation | OnlyFailures(more) && op.Failed? && Timed(ops + more + [op])
      ensures ExactlyTheTenth(PerformAll(ops + more), PerformAll(ops + more + [op])) {
      FailuresAreNoSuccess(ops, more);
      TenthExactly(ops + more, op);
    }
  }

  /**
   No identifier succeeds while it is locked out if and only if, from every point of the trace on,
   whatever failures follow create rows at tenth events exactly.
   */
  lemma ExactWhenNoSuccessWhileLocked(ops: seq<Operation>)
    requires Timed(ops)
    ensures NoSuccessWhileLocked(ops) <==> forall k | 0 <= k <= |ops| :: StaysExact(ops[..k])
  {
    if NoSuccessWhileLocked(ops) {
      forall k | 0 <= k <= |ops| ensures StaysExact(ops[..k]) {
        PrefixIsSafe(ops, k);
        SafeStaysExact(ops[..k]);
      }
    } else {
      var k := UnsafePrefix(ops);
    }
  }

  // ----- requests that do not overlap

  /** The calls that one request makes in a given state. */
  function Calls(st: Security, a: Attempt): seq<Operation> {
    [Checked(a.ids, a.checkedAt)]
    + if !Check(st, a.ids, a.checkedAt).1.Allowed? then []
      else match a.password
        case Wrong => [Failed(a.ids, a.testedAt)]
        case Correct => [Succeeded(a.ids, a.testedAt)]
        case NoPasswordSet => []
  }

  function Trace(requests: seq<Attempt>): seq<Operation> {
    if requests == [] then []
    else
      var front := Trace(requests[..|requests| - 1]);
      front + Calls(PerformAll(front), requests[|requests| - 1])
  }

  ghost predicate OneAfterTheOther(requests: seq<Attempt>) {
    && (forall i | 0 <= i < |requests| :: requests[i].checkedAt <= requests[i].testedAt)
    && forall i | 0 < i < |requests| :: requests[i - 1].testedAt <= requests[i].checkedAt
  }

  lemma CheckedIsUnlocked(st: Security, ids: seq<Identifier>, now: real, later: real)
    requires Check(st, ids, now).1.Allowed? && now <= later
    ensures Check(st, ids, now).0 == st && AllUnlocked(st, ids, later)
  {
    ActiveLockoutMeansLocked(st.lockouts, ids, now);
  }

  /** A trace without a success of a locked-out identifier, whose last operation is no later than `now`. */
  ghost predicate Safe(ops: seq<Operation>, now: real) {
    Timed(ops) && NoSuccessWhileLocked(ops) && LastTime(ops, now) <= now
  }

  lemma SafeNext(ops: seq<Operation>, op: Operation, st: Security)
    requires Safe(ops, op.at) && st == PerformAll(ops) && (op.Succeeded? ==> AllUnlocked(st, op.ids, op.at))
    ensures Safe(ops + [op], op.at)
  {
    TimedAppend(ops, op);
    assert (ops + [op])[..|ops|] == ops;
  }

  lemma SafeAfterCheck(ops: seq<Operation>, st: Security, check: Operation, op: Operation)
    requires check.Checked? && Safe(ops, check.at) && st == PerformAll(ops) && op.ids == check.ids && check.at <= op.at
    requires Check(st, check.ids, check.at).1.Allowed?
    ensures Safe(ops + [check] + [op], op.at)
  {
    SafeNext(ops, check, st);
    Append(ops, check);
    CheckedIsUnlocked(st, check.ids, check.at, op.at);
    SafeNext(ops + [check], op, st);
  }

  lemma CallsAreSafe(ops: seq<Operation>, a: Attempt, st: Security)
    requires Safe(ops, a.checkedAt) && a.checkedAt <= a.testedAt && st == PerformAll(ops)
    ensures Safe(ops + Calls(st, a), a.testedAt)
  {
    var check := Checked(a.ids, a.checkedAt);
    SafeNext(ops, check, st);
    if Check(st, a.ids, a.checkedAt).1.Allowed? && !a.password.NoPasswordSet? {
      var op := if a.password.Wrong? then Failed(a.ids, a.testedAt) else Succeeded(a.ids, a.testedAt);
      SafeAfterCheck(ops, st, check, op);
      assert ops + Calls(st, a) == ops + [check] + [op];
    }
  }

  /** The calls of a request do what the request does. */
  lemma CallsAreTheLogin(ops: seq<Operation>, a: Attempt)
    ensures PerformAll(ops + Calls(PerformAll(ops), a)) == Login(PerformAll(ops), a).0
  {
    var st, check := PerformAll(ops), Checked(a.ids, a.checkedAt);
    Append(ops, check);
    if Check(st, a.ids, a.checkedAt).1.Allowed? && !a.password.NoPasswordSet? {
      var op := if a.password.Wrong? then Failed(a.ids, a.testedAt) else Succeeded(a.ids, a.testedAt);
      Append(ops + [check], op);
      assert ops + Calls(st, a) == ops + [check] + [op];
    } else {
      assert ops + Calls(st, a) == ops + [check];
    }
  }

  function LastTest(requests: seq<Attempt>, default: real): real {
    if requests == [] then default else requests[|requests| - 1].testedAt
  }

  /** Requests that do not overlap are such a trace, so their lockouts come at tenth events exactly. */
  lemma {:induction false} RequestsAreSafe(requests: seq<Attempt>, now: real)
    requires OneAfterTheOther(requests) && LastTest(requests, now) <= now
    ensures Safe(Trace(requests), now)
  {
    if requests != [] {
      var front, a := requests[..|requests| - 1], requests[|requests| - 1];
      assert OneAfterTheOther(front) && (front != [] ==> front[|front| - 1] == requests[|requests| - 2]);
      RequestsAreSafe(front, a.checkedAt);
      CallsAreSafe(Trace(front), a, PerformAll(Trace(front)));
    }
  }
}
