/** Which identifiers one call counts, and how often. */
module LoginCounting {
  import opened LoginBackoffs
  import opened LoginInvariants
  import opened LoginSecurity
  import opened LoginTraces

  /** Of `ids` exactly the first `n` were counted, and they have the counted events of `next`. */
  ghost predicate Counted(st: Security, next: Security, ids: seq<Identifier>, now: real, n: nat) {
    n <= |ids| && forall id :: History(next, id) == History(st, id) + Times(ids[..n], id, now)
  }

  /** The streak of number `j` of `ids` when its turn comes. */
  ghost function StreakAt(st: Security, ids: seq<Identifier>, now: real, j: nat): nat
    requires j < |ids|
  {
    Streak(History(st, ids[j]) + Times(ids[..j + 1], ids[j], now))
  }

  /** The first identifier that reaches ten is the last one counted, and locks out. */
  ghost predicate StopsAtTen(st: Security, locked: bool, ids: seq<Identifier>, now: real, n: nat)
    requires n <= |ids|
  {
    && (if locked then n > 0 else n == |ids|)
    && forall j: nat | j < n :: StreakAt(st, ids, now, j) >= 10 <==> locked && j == n - 1
  }

  lemma {:induction false} TimesOfFirst(ids: seq<Identifier>, n: nat, id: Identifier, now: real)
    requires 0 < n <= |ids|
    ensures Times(ids[..n], id, now) == (if ids[0] == id then [now] else []) + Times(ids[1..][..n - 1], id, now)
  {
    assert ids[..n][0] == ids[0] && ids[..n][1..] == ids[1..][..n - 1];
  }

  lemma OneCounted(st: Security, id: Identifier, before: real, now: real, other: Identifier)
    requires Consistent(st, before) && before <= now
    ensures History(CountOne(st, id, now).0, other) == History(st, other) + if id == other then [now] else []
  {
    CountOneKeeps(st, id, before, now);
    CountOneIsExact(st, id, before, now);
  }

  lemma Associates(a: seq<real>, b: seq<real>, c: seq<real>)
    ensures a + b + c == a + (b + c)
  {
  }

  /** With the first identifier counted, the others' turns are those of the rest. */
  lemma SameCounting(st: Security, mid: Security, ids: seq<Identifier>, now: real, n: nat, id: Identifier)
    requires 0 < n <= |ids| && Counted(st, mid, [ids[0]], now, 1)
    ensures History(st, id) + Times(ids[..n], id, now) == History(mid, id) + Times(ids[1..][..n - 1], id, now)
  {
    TimesOfFirst(ids, n, id, now);
    OnlyTimes(ids[0], id, now);
    assert [ids[0]][..1] == [ids[0]];
    Associates(History(st, id), Times([ids[0]], id, now), Times(ids[1..][..n - 1], id, now));
  }

  lemma SameTurn(st: Security, mid: Security, ids: seq<Identifier>, now: real, j: nat)
    requires 0 < j < |ids| && Counted(st, mid, [ids[0]], now, 1)
    ensures StreakAt(st, ids, now, j) == StreakAt(mid, ids[1..], now, j - 1)
  {
    SameCounting(st, mid, ids, now, j + 1, ids[j]);
  }

  lemma OnlyTimes(first: Identifier, id: Identifier, now: real)
    ensures Times([first], id, now) == if first == id then [now] else []
  {
    assert Times([first][1..], id, now) == [];
  }

  lemma ThenCounted(st: Security, mid: Security, next: Security, ids: seq<Identifier>, now: real, n: nat)
    requires 0 < n <= |ids| && Counted(st, mid, [ids[0]], now, 1) && Counted(mid, next, ids[1..], now, n - 1)
    ensures Counted(st, next, ids, now, n)
  {
    forall id ensures History(next, id) == History(st, id) + Times(ids[..n], id, now) {
      SameCounting(st, mid, ids, now, n, id);
    }
  }

  lemma FirstCounted(st: Security, ids: seq<Identifier>, before: real, now: real)
    requires Consistent(st, before) && before <= now && ids != []
    ensures var (mid, response) := CountOne(st, ids[0], now);
            && Counted(st, mid, [ids[0]], now, 1) && Counted(st, mid, ids, now, 1)
            && (response.Locked? <==> StreakAt(st, ids, now, 0) >= 10)
  {
    var (mid, response) := CountOne(st, ids[0], now);
    assert ids[..1] == [ids[0]] && [ids[0]][..1] == [ids[0]];
    forall id ensures History(mid, id) == History(st, id) + Times([ids[0]], id, now) {
      OneCounted(st, ids[0], before, now, id);
      OnlyTimes(ids[0], id, now);
    }
    CountOneIsExact(st, ids[0], before, now);
  }

  lemma ThenStops(st: Security, mid: Security, locked: bool, ids: seq<Identifier>, now: real, n: nat)
    requires 0 < n <= |ids| && Counted(st, mid, [ids[0]], now, 1)
    requires StreakAt(st, ids, now, 0) < 10 && StopsAtTen(mid, locked, ids[1..], now, n - 1)
    ensures StopsAtTen(st, locked, ids, now, n)
  {
    forall j: nat | j < n ensures StreakAt(st, ids, now, j) >= 10 <==> locked && j == n - 1 {
      if j > 0 {
        SameTurn(st, mid, ids, now, j);
      }
    }
  }

  lemma {:induction false} CountedExactly(st: Security, ids: seq<Identifier>, before: real, now: real) returns (n: nat)
    requires Consistent(st, before) && before <= now
    ensures var (next, response) := RecordAbuse(st, ids, now);
            Counted(st, next, ids, now, n) && StopsAtTen(st, response.Locked?, ids, now, n)
    decreases |ids|
  {
    if ids == [] {
      n := 0;
    } else {
      var (mid, response) := CountOne(st, ids[0], now);
      FirstCounted(st, ids, before, now);
      if response.Locked? {
        n := 1;
      } else {
        CountOneKeeps(st, ids[0], before, now);
        var rest := CountedExactly(mid, ids[1..], now, now);
        n := rest + 1;
        ThenCounted(st, mid, RecordAbuse(mid, ids[1..], now).0, ids, now, n);
        ThenStops(st, mid, RecordAbuse(mid, ids[1..], now).1.Locked?, ids, now, n);
      }
    }
  }

  /** The identifiers are counted in order, each time they are listed, up to the first one that reaches ten. */
  ghost predicate CountsToTen(st: Security, next: Security, response: Response, ids: seq<Identifier>, now: real) {
    exists n :: Counted(st, next, ids, now, n) && StopsAtTen(st, response.Locked?, ids, now, n)
  }

  ghost predicate SameHistories(st: Security, next: Security) {
    forall id :: History(st, id) == History(next, id)
  }

  lemma SameCounts(a: Security, b: Security, c: Security, d: Security, response: Response, ids: seq<Identifier>,
                   now: real, n: nat)
    requires SameHistories(a, c) && SameHistories(b, d)
    requires Counted(a, b, ids, now, n) && StopsAtTen(a, response.Locked?, ids, now, n)
    ensures CountsToTen(c, d, response, ids, now)
  {
    assert forall j: nat | j < n :: StreakAt(a, ids, now, j) == StreakAt(c, ids, now, j);
    assert Counted(c, d, ids, now, n) && StopsAtTen(c, response.Locked?, ids, now, n);
  }

  ghost predicate LongestLockout(st: Security, ids: seq<Identifier>, response: Response) {
    && response.Locked?
    && (exists r :: r in st.lockouts && r.id in ids && r.until == response.until)
    && forall r | r in st.lockouts && r.id in ids :: r.until <= response.until
  }

  lemma FailCounts(st: Security, ids: seq<Identifier>, now: real)
    requires Consistent(st, now)
    ensures CountsToTen(st, Fail(st, ids, now).0, Fail(st, ids, now).1, ids, now)
  {
    var counted := st.(failures := CountFailures(st.failures, ids, now));
    CacheOnly(st, counted, now);
    FailParts(st, ids, now);
    var (recorded, response) := RecordAbuse(counted, ids, now);
    var n := CountedExactly(counted, ids, now, now);
    CacheOnly(recorded, Fail(st, ids, now).0, now);
    assert Fail(st, ids, now).1.Locked? == response.Locked?;
    SameCounts(counted, recorded, st, Fail(st, ids, now).0, Fail(st, ids, now).1, ids, now, n);
  }

  lemma CheckCounts(st: Security, ids: seq<Identifier>, now: real)
    requires Consistent(st, now)
    ensures var (next, response) := Check(st, ids, now);
            if AllUnlocked(st, ids, now) &&
                MaxRemaining(st, ids, now) > 0 then CountsToTen(st, next, response, ids, now)
            else next == st && (response.Allowed? || response.Locked?)
  {
    ActiveLockoutMeansLocked(st.lockouts, ids, now);
    var n := CountedExactly(st, ids, now, now);
  }

  lemma LockoutAnswers(st: Security, ids: seq<Identifier>, now: real)
    requires !AllUnlocked(st, ids, now)
    ensures Check(st, ids, now).0 == st && LongestLockout(st, ids, Check(st, ids, now).1)
  {
    ActiveLockoutMeansLocked(st.lockouts, ids, now);
    var k := ActiveLockout(st.lockouts, ids, now);
    assert st.lockouts[k.value] in st.lockouts;
  }

  /** After any calls, a failed login counts its identifiers. */
  lemma FailedCounts(ops: seq<Operation>, ids: seq<Identifier>, now: real)
    requires Timed(ops) && LastTime(ops, now) <= now
    ensures var st := PerformAll(ops);
            CountsToTen(st, Fail(st, ids, now).0, Fail(st, ids, now).1, ids, now)
  {
    EveryTraceIsConsistent(ops, now);
    FailCounts(PerformAll(ops), ids, now);
  }

  /**
   A check counts its identifiers exactly when it meets no lockout but a backoff in force; otherwise it changes
   nothing, and tells the longest lockout it meets.
   */
  lemma CheckedCounts(ops: seq<Operation>, ids: seq<Identifier>, now: real, st: Security)
    requires Timed(ops) && LastTime(ops, now) <= now && SinceEpoch(ops) && st == PerformAll(ops)
    ensures var (next, response) := Check(st, ids, now);
            if !AllUnlocked(st, ids, now) then next == st && LongestLockout(st, ids, response)
            else if Held(ops, ids, now) then CountsToTen(st, next, response, ids, now)
            else next == st
  {
    EveryTraceIsConsistent(ops, now);
    CheckCounts(st, ids, now);
    LongestOfTrace(ops, ids, now, st);
    if !AllUnlocked(st, ids, now) {
      LockoutAnswers(st, ids, now);
    }
  }
}
