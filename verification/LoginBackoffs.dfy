/** When a check is refused by backoff, told from the calls alone. */
module LoginBackoffs {
  import opened LoginSecurity
  import opened LoginTraces
  import opened Results

  // ----- the failure counter

  /** The times at which one call counts `id`: once for each time it is listed. */
  function Times(ids: seq<Identifier>, id: Identifier, at: real): seq<real> {
    if ids == [] then [] else (if ids[0] == id then [at] else []) + Times(ids[1..], id, at)
  }

  /** When logins by `id` failed since the last one that succeeded. */
  function FailureTimes(ops: seq<Operation>, id: Identifier): seq<real> {
    if ops == [] then []
    else
      var before := FailureTimes(ops[..|ops| - 1], id);
      match ops[|ops| - 1]
      case Checked(_, _) => before
      case Failed(ids, at) => before + Times(ids, id, at)
      case Succeeded(ids, _) => if id in ids then [] else before
  }

  /** A counter that has counted events at these times. */
  ghost predicate HasCounted(m: Counters, id: Identifier, times: seq<real>) {
    if times == [] then id !in m
    else id in m && m[id] == Entry(Streak(times), times[|times| - 1] + 300.0)
  }

  lemma OneMoreCounted(m: Counters, id: Identifier, times: seq<real>, now: real)
    requires HasCounted(m, id, times)
    ensures HasCounted(Increment(m, id, FAILURE_WINDOW, now), id, times + [now])
  {
    assert (times + [now])[..|times|] == times;
  }

  lemma {:induction false} FailuresCounted(m: Counters, ids: seq<Identifier>, id: Identifier, times: seq<real>,
                                           now: real)
    requires HasCounted(m, id, times)
    ensures HasCounted(CountFailures(m, ids, now), id, times + Times(ids, id, now))
    decreases |ids|
  {
    if ids == [] {
      assert times + [] == times;
    } else if ids[0] == id {
      OneMoreCounted(m, id, times, now);
      FailuresCounted(Increment(m, id, FAILURE_WINDOW, now), ids[1..], id, times + [now], now);
      assert times + [now] + Times(ids[1..], id, now) == times + Times(ids, id, now);
    } else {
      FailuresCounted(Increment(m, ids[0], FAILURE_WINDOW, now), ids[1..], id, times, now);
      assert Times(ids, id, now) == Times(ids[1..], id, now);
    }
  }

  lemma {:induction false} TimesAreNow(ids: seq<Identifier>, id: Identifier, at: real)
    ensures Times(ids, id, at) == [] <==> id !in ids
    ensures forall t | t in Times(ids, id, at) :: t == at
  {
    if ids != [] {
      TimesAreNow(ids[1..], id, at);
      assert ids == [ids[0]] + ids[1..];
    }
  }

  lemma CountedNow(m: Counters, ids: seq<Identifier>, id: Identifier, times: seq<real>, now: real)
    requires HasCounted(m, id, times + Times(ids, id, now)) && id in ids
    ensures Live(m, id, now) == Streak(times + Times(ids, id, now))
  {
    TimesAreNow(ids, id, now);
    var more := times + Times(ids, id, now);
    assert more[|more| - 1] in Times(ids, id, now);
  }

  // ----- the backoffs that one failed login sets

  ghost predicate IsBackoff(m: map<Identifier, Entry<real>>, id: Identifier, set_at: Option<real>) {
    match set_at
    case None => id !in m
    case Some(t) => id in m && m[id] == Entry(t + 60.0, t + 60.0)
  }

  lemma {:induction false} BackoffsSet(st: Security, ids: seq<Identifier>, now: real, id: Identifier, t: Option<real>)
    requires IsBackoff(st.backoffs, id, t)
    ensures IsBackoff(SetBackoffs(st, ids, now).backoffs, id,
                      if id in ids && Live(st.failures, id, now) >= 5 then Some(now) else t)
  {
    if ids != [] {
      var front, last := ids[..|ids| - 1], ids[|ids| - 1];
      assert ids == front + [last];
      BackoffsSet(st, front, now, id, t);
    }
  }

  /** The streak of failed logins of `id` once this one is counted. */
  function FailedStreak(times: seq<real>, ids: seq<Identifier>, id: Identifier, now: real): nat {
    Streak(times + Times(ids, id, now))
  }

  lemma FailSets(st: Security, ids: seq<Identifier>, now: real, id: Identifier, times: seq<real>, t: Option<real>)
    requires HasCounted(st.failures, id, times) && IsBackoff(st.backoffs, id, t)
    ensures var (next, response) := Fail(st, ids, now);
            && HasCounted(next.failures, id, times + Times(ids, id, now))
            && IsBackoff(next.backoffs, id,
                         if !response.Locked? && id in ids && FailedStreak(times, ids, id, now) >= 5 then Some(now)
                         else t)
            && (response.Allowed? && id in ids ==> FailedStreak(times, ids, id, now) < 5)
  {
    var counted := st.(failures := CountFailures(st.failures, ids, now));
    var (recorded, response) := RecordAbuse(counted, ids, now);
    FailuresCounted(st.failures, ids, id, times, now);
    AbuseKeepsCache(counted, ids, now);
    BackoffsSet(recorded, ids, now, id, t);
    SettingKeepsFailures(recorded, ids, now);
    if id in ids { CountedNow(counted.failures, ids, id, times, now); }
  }

  lemma {:induction false} SettingKeepsFailures(st: Security, ids: seq<Identifier>, now: real)
    ensures SetBackoffs(st, ids, now).failures == st.failures
  {
    if ids != [] {
      SettingKeepsFailures(st, ids[..|ids| - 1], now);
    }
  }

  // ----- over any calls

  /**
   When the backoff of `id` was set: by its last failed login that was the fifth or later of a streak and not
   answered by a lockout, unless a login by it succeeded afterwards.
   */
  function LastBackoff(ops: seq<Operation>, id: Identifier): Option<real> {
    if ops == [] then None
    else
      var front := ops[..|ops| - 1];
      var before := LastBackoff(front, id);
      match ops[|ops| - 1]
      case Checked(_, _) => before
      case Failed(ids, at) =>
        if id in ids && Streak(FailureTimes(ops, id)) >= 5 && !Fail(PerformAll(front), ids, at).1.Locked? then Some(at)
        else before
      case Succeeded(ids, _) => if id in ids then None else before
  }

  lemma {:induction false} BackoffsOfTrace(ops: seq<Operation>, id: Identifier)
    ensures HasCounted(PerformAll(ops).failures, id, FailureTimes(ops, id))
    ensures IsBackoff(PerformAll(ops).backoffs, id, LastBackoff(ops, id))
  {
    if ops != [] {
      var front := ops[..|ops| - 1];
      var st := PerformAll(front);
      BackoffsOfTrace(front, id);
      match ops[|ops| - 1]
      case Checked(ids, at) => AbuseKeepsCache(st, ids, at);
      case Failed(ids, at) => FailSets(st, ids, at, id, FailureTimes(front, id), LastBackoff(front, id));
      case Succeeded(_, _) =>
    }
  }

  /** A backoff that was set at `t` refuses for as long as a whole second of its minute is left. */
  predicate InForce(set_at: Option<real>, now: real) {
    set_at.Some? && now <= set_at.value + 59.0
  }

  function SecondsLeft(t: real, now: real): int {
    (t + 60.0 - now).Floor
  }

  lemma RemainingExactly(st: Security, id: Identifier, set_at: Option<real>, now: real)
    requires IsBackoff(st.backoffs, id, set_at) && (set_at.Some? ==> set_at.value >= 0.0)
    ensures Remaining(st, id, now) > 0 <==> InForce(set_at, now)
    ensures InForce(set_at, now) ==> Remaining(st, id, now) == SecondsLeft(set_at.value, now)
  {
  }

  lemma {:induction false} MaxIsAttained(st: Security, ids: seq<Identifier>, now: real)
    ensures MaxRemaining(st, ids, now) > 0 ==>
        exists id :: id in ids && Remaining(st, id, now) == MaxRemaining(st, ids, now)
  {
    if ids != [] {
      MaxIsAttained(st, ids[1..], now);
      if MaxRemaining(st, ids, now) > 0 {
        if MaxRemaining(st, ids, now) == Remaining(st, ids[0], now) {
          assert ids[0] in ids;
        } else {
          var id :| id in ids[1..] && Remaining(st, id, now) == MaxRemaining(st, ids[1..], now);
          assert id in ids;
        }
      }
    }
  }

  /** The clock starts at 0. */
  ghost predicate SinceEpoch(ops: seq<Operation>) {
    forall op | op in ops :: op.at >= 0.0
  }

  lemma {:induction false} BackoffSinceEpoch(ops: seq<Operation>, id: Identifier)
    requires SinceEpoch(ops)
    ensures LastBackoff(ops, id).Some? ==> LastBackoff(ops, id).value >= 0.0
  {
    if ops != [] {
      assert ops == ops[..|ops| - 1] + [ops[|ops| - 1]];
      BackoffSinceEpoch(ops[..|ops| - 1], id);
    }
  }

  /** Of these identifiers, one has its backoff in force. */
  ghost predicate Held(ops: seq<Operation>, ids: seq<Identifier>, now: real) {
    exists id :: id in ids && InForce(LastBackoff(ops, id), now)
  }

  /** The whole seconds to wait for the longest backoff in force. */
  ghost predicate IsLongest(ops: seq<Operation>, ids: seq<Identifier>, now: real, seconds: int) {
    && (exists id :: && id in ids && InForce(LastBackoff(ops, id), now)
                     && SecondsLeft(LastBackoff(ops, id).value, now) == seconds)
    && forall id | id in ids && InForce(LastBackoff(ops, id), now) ::
         SecondsLeft(LastBackoff(ops, id).value, now) <= seconds
  }

  lemma LongestOfTrace(ops: seq<Operation>, ids: seq<Identifier>, now: real, st: Security)
    requires SinceEpoch(ops) && st == PerformAll(ops)
    ensures MaxRemaining(st, ids, now) > 0 <==> Held(ops, ids, now)
    ensures Held(ops, ids, now) ==> IsLongest(ops, ids, now, MaxRemaining(st, ids, now))
  {
    forall id
      ensures Remaining(st, id, now) > 0 <==> InForce(LastBackoff(ops, id), now)
      ensures InForce(LastBackoff(ops, id), now) ==>
                Remaining(st, id, now) == SecondsLeft(LastBackoff(ops, id).value, now)
    {
      BackoffsOfTrace(ops, id);
      BackoffSinceEpoch(ops, id);
      RemainingExactly(st, id, LastBackoff(ops, id), now);
    }
    MaxIsAttained(st, ids, now);
  }

  /**
   A check that meets no lockout is refused exactly when a backoff is in force, and the seconds it answers are
   those of the longest one.
   */
  lemma RefusedExactly(ops: seq<Operation>, ids: seq<Identifier>, now: real)
    requires SinceEpoch(ops) && AllUnlocked(PerformAll(ops), ids, now)
    ensures var (next, response) := Check(PerformAll(ops), ids, now);
            && (response.Allowed? <==> !Held(ops, ids, now))
            && (response.Allowed? ==> next == PerformAll(ops))
            && (response.TooMany? ==> IsLongest(ops, ids, now, response.retryAfter))
  {
    var st := PerformAll(ops);
    ActiveLockoutMeansLocked(st.lockouts, ids, now);
    LongestOfTrace(ops, ids, now, st);
  }

  /** A failed login that is not answered by a lockout is answered by a minute of backoff exactly at a fifth failure. */
  lemma FailedExactly(ops: seq<Operation>, ids: seq<Identifier>, now: real)
    ensures var response := Fail(PerformAll(ops), ids, now).1;
            response.Locked?
            || response == if exists id :: id in ids && FailedStreak(FailureTimes(ops, id), ids, id, now) >= 5
                           then TooMany(60) else Allowed
  {
    var st := PerformAll(ops);
    var counted := st.(failures := CountFailures(st.failures, ids, now));
    forall id | id in ids
      ensures Live(counted.failures, id, now) == FailedStreak(FailureTimes(ops, id), ids, id, now)
    {
      BackoffsOfTrace(ops, id);
      FailuresCounted(st.failures, ids, id, FailureTimes(ops, id), now);
      CountedNow(counted.failures, ids, id, FailureTimes(ops, id), now);
    }
  }

  lemma SomeBackoffSet(st: Security, ids: seq<Identifier>, now: real) returns (id: Identifier)
    requires Fail(st, ids, now).1.TooMany?
    ensures id in ids && IsBackoff(Fail(st, ids, now).0.backoffs, id, Some(now))
  {
    var counted := st.(failures := CountFailures(st.failures, ids, now));
    id :| id in ids && Live(counted.failures, id, now) >= BACKOFF_THRESHOLD;
    var recorded := RecordAbuse(counted, ids, now).0;
    AbuseKeepsCache(counted, ids, now);
    StillSet(recorded, ids, now, id);
  }

  lemma {:induction false} StillSet(st: Security, ids: seq<Identifier>, now: real, id: Identifier)
    requires id in ids && Live(st.failures, id, now) >= BACKOFF_THRESHOLD
    ensures IsBackoff(SetBackoffs(st, ids, now).backoffs, id, Some(now))
  {
    var front, last := ids[..|ids| - 1], ids[|ids| - 1];
    assert ids == front + [last];
    if last != id {
      StillSet(st, front, now, id);
    }
  }

  /** In any state: whoever is told to wait is refused until the last second of the minute. */
  lemma BacksOff(st: Security, ids: seq<Identifier>, now: real, later: real)
    requires Fail(st, ids, now).1.TooMany? && 0.0 <= now <= later <= now + 59.0
    ensures !Check(Fail(st, ids, now).0, ids, later).1.Allowed?
  {
    var next := Fail(st, ids, now).0;
    var id := SomeBackoffSet(st, ids, now);
    RemainingExactly(next, id, Some(now), later);
  }

  // ----- a success

  /** A success forgets everything about its identifiers but their lockouts, and nothing about others. */
  lemma SuccessClears(ops: seq<Operation>, ids: seq<Identifier>, at: real, id: Identifier, now: real)
    ensures var st, next := PerformAll(ops), PerformAll(ops + [Succeeded(ids, at)]);
            && next.lockouts == st.lockouts
            && (id in ids ==> && Live(next.failures, id, now) == Live(next.abuses, id, now) == 0
                              && Remaining(next, id, now) == 0 && History(next, id) == [])
            && (id !in ids ==> && Live(next.failures, id, now) == Live(st.failures, id, now)
                               && Live(next.abuses, id, now) == Live(st.abuses, id, now)
                               && Remaining(next, id, now) == Remaining(st, id, now)
                               && History(next, id) == History(st, id))
  {
    assert (ops + [Succeeded(ids, at)])[..|ops|] == ops;
  }
}
