/** What every call of the login security service keeps true. */
module LoginInvariants {
  import opened LoginSecurity

  /** The abuse counter of `id` is the streak of its counted events. */
  ghost predicate CounterIsStreak(st: Security, id: Identifier) {
    var h := History(st, id);
    if h == [] then id !in st.abuses
    else id in st.abuses && st.abuses[id] == Entry(Streak(h), h[|h| - 1] + LOCKOUT_WINDOW)
  }

  /** A streak of ten has left a lockout that lasts as long as the streak. */
  ghost predicate TenIsLocked(st: Security, id: Identifier) {
    var h := History(st, id);
    Streak(h) >= LOCKOUT_THRESHOLD ==>
      exists r :: r in st.lockouts && r.id == id && r.until == h[|h| - 1] + LOCKOUT_SECONDS
  }

  ghost predicate CountedBy(st: Security, id: Identifier, now: real) {
    var h := History(st, id);
    h != [] ==> h[|h| - 1] <= now
  }

  /** A lockout ends five minutes after it was last set, and the next one of its identifier begins later. */
  ghost predicate RowsFit(rows: seq<Lockout>, now: real) {
    && (forall i | 0 <= i < |rows| ::
          rows[i].until == rows[i].lastAttempt + LOCKOUT_SECONDS && rows[i].lastAttempt <= now)
    && forall i, j | 0 <= i < j < |rows| && rows[i].id == rows[j].id :: rows[i].until <= rows[j].lastAttempt
  }

  /** Holds after any calls whatsoever, the last of them at `now`. */
  ghost predicate Consistent(st: Security, now: real) {
    && (forall id :: CounterIsStreak(st, id) && TenIsLocked(st, id) && CountedBy(st, id, now))
    && RowsFit(st.lockouts, now)
  }

  /** The last event counted against a locked-out identifier set its lockout, which shows its streak. */
  ghost predicate Governs(st: Security, r: Lockout) {
    var h := History(st, r.id);
    Streak(h) >= LOCKOUT_THRESHOLD && r.until == h[|h| - 1] + LOCKOUT_SECONDS && r.count == Streak(h)
  }

  ghost predicate Governed(st: Security, now: real) {
    forall r | r in st.lockouts && r.until > now :: Governs(st, r)
  }

  lemma Later(st: Security, before: real, now: real)
    requires Consistent(st, before) && before <= now
    ensures Consistent(st, now) && (Governed(st, before) ==> Governed(st, now))
  {
    forall id ensures CountedBy(st, id, now) { assert CountedBy(st, id, before); }
  }

  lemma StreakOfOneMore(st: Security, id: Identifier, now: real)
    requires CounterIsStreak(st, id)
    ensures NextStreak(st, id, now) == Live(st.abuses, id, now) + 1
  {
    var h := History(st, id);
    assert (h + [now])[..|h|] == h;
  }

  /** Without an active lockout the streak can at most reach ten. */
  lemma UnlockedMeansTen(st: Security, id: Identifier, now: real)
    requires CounterIsStreak(st, id) && TenIsLocked(st, id) && Unlocked(st, id, now)
    ensures NextStreak(st, id, now) <= LOCKOUT_THRESHOLD
  {
    StreakOfOneMore(st, id, now);
  }

  /** While its lockout is active, an identifier's streak is past ten. */
  lemma GovernedMeansMore(st: Security, id: Identifier, before: real, now: real)
    requires Governed(st, before) && before <= now && !Unlocked(st, id, now)
    ensures NextStreak(st, id, now) > LOCKOUT_THRESHOLD
    ensures forall r | r in st.lockouts && r.id == id && r.until > now :: r.count < NextStreak(st, id, now)
  {
    var h := History(st, id);
    assert (h + [now])[..|h|] == h;
    forall r | r in st.lockouts && r.id == id && r.until > now
      ensures LOCKOUT_THRESHOLD <= r.count < NextStreak(st, id, now)
    {
      assert Governs(st, r);
    }
  }

  // ----- one event

  /** The lockout rows after one event: unchanged, one more, or one extended. */
  ghost predicate RowsAfter(rows: seq<Lockout>, next: seq<Lockout>, id: Identifier, n: nat, now: real, unlocked: bool) {
    if n < LOCKOUT_THRESHOLD then next == rows
    else if unlocked then next == rows + [Lockout(id, n, now + LOCKOUT_SECONDS, now)]
    else exists k: nat :: Extended(rows, next, id, n, now, k)
  }

  ghost predicate Extended(rows: seq<Lockout>, next: seq<Lockout>, id: Identifier, n: nat, now: real, k: nat) {
    && k < |rows| == |next| && rows[k].id == next[k].id == id
    && rows[k].until > now && next[k].until == now + LOCKOUT_SECONDS && next[k].lastAttempt == now
    && next == rows[k := next[k]] && (rows[k].count <= n ==> next[k].count == n)
  }

  lemma CountOneRows(st: Security, id: Identifier, before: real, now: real)
    requires CounterIsStreak(st, id) && RowsFit(st.lockouts, before) && before <= now
    ensures var (next, response) := CountOne(st, id, now);
            var n := NextStreak(st, id, now);
            && RowsAfter(st.lockouts, next.lockouts, id, n, now, Unlocked(st, id, now))
            && (response.Locked? <==> n >= LOCKOUT_THRESHOLD)
            && (response.Locked? ==> response.until == now + LOCKOUT_SECONDS)
            && next == st.(abuses := st.abuses[id := Entry(n, now + LOCKOUT_WINDOW)],
                           counted := st.counted[id := History(st, id) + [now]], lockouts := next.lockouts)
  {
    StreakOfOneMore(st, id, now);
    ActiveLockoutMeansLocked(st.lockouts, [id], now);
    var active := ActiveLockout(st.lockouts, [id], now);
    if active.Some? && NextStreak(st, id, now) >= LOCKOUT_THRESHOLD {
      assert Extended(st.lockouts, CountOne(st, id, now).0.lockouts, id, NextStreak(st, id, now), now, active.value);
    }
  }

  lemma RowsStayFit(rows: seq<Lockout>, next: seq<Lockout>, id: Identifier, n: nat, before: real, now: real,
                    unlocked: bool)
    requires RowsFit(rows, before) && before <= now && RowsAfter(rows, next, id, n, now, unlocked)
    requires unlocked ==> forall r | r in rows && r.id == id :: r.until <= now
    ensures RowsFit(next, now)
  {
  }

  /** What an event against `id` does to the other identifiers: nothing. */
  lemma OthersKeep(st: Security, next: Security, id: Identifier, other: Identifier, before: real, now: real)
    requires CounterIsStreak(st, other) && TenIsLocked(st, other) && CountedBy(st, other, before) && before <= now
    requires other != id && id in next.abuses && next.abuses == st.abuses[id := next.abuses[id]]
    requires id in next.counted && next.counted == st.counted[id := next.counted[id]]
    requires forall r | r in st.lockouts && r.id != id :: r in next.lockouts
    ensures CounterIsStreak(next, other) && TenIsLocked(next, other) && CountedBy(next, other, now)
    ensures History(next, other) == History(st, other)
  {
  }

  lemma OtherRowsKept(rows: seq<Lockout>, next: seq<Lockout>, id: Identifier, n: nat, now: real, unlocked: bool)
    requires RowsAfter(rows, next, id, n, now, unlocked)
    ensures forall r | r in rows && r.id != id :: r in next
    ensures forall r | r in next && r.id != id :: r in rows
    ensures n >= LOCKOUT_THRESHOLD ==> exists r :: r in next && r.id == id && r.until == now + LOCKOUT_SECONDS
  {
    if n >= LOCKOUT_THRESHOLD && !unlocked {
      var k: nat :| Extended(rows, next, id, n, now, k);
      forall r | r in rows && r.id != id ensures r in next {
        var i :| 0 <= i < |rows| && rows[i] == r;
        assert next[i] == r;
      }
      assert next[k] in next;
    } else if n >= LOCKOUT_THRESHOLD {
      assert next[|rows|] in next;
    }
  }

  lemma CountOneKeeps(st: Security, id: Identifier, before: real, now: real)
    requires Consistent(st, before) && before <= now
    ensures Consistent(CountOne(st, id, now).0, now)
    ensures forall other | other != id :: History(CountOne(st, id, now).0, other) == History(st, other)
  {
    var next, n := CountOne(st, id, now).0, NextStreak(st, id, now);
    CountOneRows(st, id, before, now);
    RowsStayFit(st.lockouts, next.lockouts, id, n, before, now, Unlocked(st, id, now));
    OtherRowsKept(st.lockouts, next.lockouts, id, n, now, Unlocked(st, id, now));
    forall other ensures CounterIsStreak(next, other) && TenIsLocked(next, other) && CountedBy(next, other, now)
                 ensures other != id ==> History(next, other) == History(st, other) {
      if other != id { OthersKeep(st, next, id, other, before, now); }
    }
  }

  lemma CountOneGoverns(st: Security, id: Identifier, before: real, now: real)
    requires Consistent(st, before) && before <= now && Governed(st, before)
    ensures Governed(CountOne(st, id, now).0, now)
  {
    var next, n := CountOne(st, id, now).0, NextStreak(st, id, now);
    CountOneRows(st, id, before, now);
    CountOneKeeps(st, id, before, now);
    OtherRowsKept(st.lockouts, next.lockouts, id, n, now, Unlocked(st, id, now));
    if !Unlocked(st, id, now) { GovernedMeansMore(st, id, before, now); }
    forall r | r in next.lockouts && r.until > now ensures Governs(next, r) {
      if r.id != id {
        assert Governs(st, r);
      } else {
        CurrentRow(st, next, id, n, before, now, r);
      }
    }
  }

  /** After an event, an active lockout of its identifier was set by that event. */
  lemma CurrentRow(st: Security, next: Security, id: Identifier, n: nat, before: real, now: real, r: Lockout)
    requires RowsFit(st.lockouts, before) && before <= now && r in next.lockouts && r.id == id && r.until > now
    requires RowsAfter(st.lockouts, next.lockouts, id, n, now, Unlocked(st, id, now))
    requires !Unlocked(st, id, now) ==> n >= LOCKOUT_THRESHOLD
    requires forall row | row in st.lockouts && row.id == id && row.until > now :: row.count < n
    ensures r.until == now + LOCKOUT_SECONDS && n >= LOCKOUT_THRESHOLD && r.count == n
  {
  }

  /**
   Counting one event, in any state the service can be in: it locks out from the tenth of a streak
   on, and creates a row exactly when the streak reaches ten while no lockout is active.
   */
  lemma CountOneIsExact(st: Security, id: Identifier, before: real, now: real)
    requires Consistent(st, before) && before <= now
    ensures var (next, response) := CountOne(st, id, now);
            && History(next, id) == History(st, id) + [now]
            && (response.Locked? <==> Streak(History(next, id)) >= LOCKOUT_THRESHOLD)
            && (response.Locked? ==> response.until == now + LOCKOUT_SECONDS)
            && (forall other :: NewRow(st, next, other) <==>
                  other == id && Streak(History(next, id)) == LOCKOUT_THRESHOLD && Unlocked(st, id, now))
            && (response.Locked? || next.lockouts == st.lockouts)
  {
    CountOneRows(st, id, before, now);
    if Unlocked(st, id, now) { UnlockedMeansTen(st, id, now); }
    var next, n := CountOne(st, id, now).0, NextStreak(st, id, now);
    if n >= LOCKOUT_THRESHOLD && Unlocked(st, id, now) {
      assert next.lockouts[|st.lockouts|].id == id;
    }
  }

  // ----- the loop over identifiers

  /** `h` with some more events at `now`. */
  ghost predicate Prolongs(h: seq<real>, more: seq<real>, now: real) {
    h <= more && forall i | |h| <= i < |more| :: more[i] == now
  }

  ghost predicate HistoriesGrow(st: Security, next: Security, now: real) {
    forall id :: Prolongs(History(st, id), History(next, id), now)
  }

  /** Every row of `next` is a row of `st`, or was set at `now`. */
  ghost predicate RowsOldOrNew(st: Security, next: Security, now: real) {
    forall r | r in next.lockouts :: r in st.lockouts || r.until == now + LOCKOUT_SECONDS
  }

  /** From `st` to `next`, a row was created exactly for the identifiers that reached ten while not locked out. */
  ghost predicate LocksOutAtTen(st: Security, next: Security, now: real) {
    forall id :: NewRow(st, next, id) <==>
      Grew(st, next, id) && Streak(History(next, id)) == LOCKOUT_THRESHOLD && Unlocked(st, id, now)
  }

  /** Every identifier of `ids` was counted and is below ten. */
  ghost predicate AllBelowTen(st: Security, next: Security, ids: seq<Identifier>) {
    && (forall id | id in ids :: Grew(st, next, id))
    && forall id | Grew(st, next, id) :: Streak(History(next, id)) < LOCKOUT_THRESHOLD
  }

  ghost predicate ExactlyRecorded(st: Security, next: Security, response: Response, ids: seq<Identifier>, now: real) {
    && HistoriesGrow(st, next, now) && LocksOutAtTen(st, next, now) && RowsOldOrNew(st, next, now)
    && next.failures == st.failures && next.backoffs == st.backoffs
    && (!response.Locked? ==> next.lockouts == st.lockouts && AllBelowTen(st, next, ids))
    && (response.Locked? ==> response.until == now + LOCKOUT_SECONDS)
  }

  lemma RowsOldOrNewAfter(st: Security, next: Security, id: Identifier, n: nat, now: real, unlocked: bool)
    requires RowsAfter(st.lockouts, next.lockouts, id, n, now, unlocked)
    ensures RowsOldOrNew(st, next, now)
  {
  }

  lemma OneIsRecorded(st: Security, id: Identifier, before: real, now: real)
    requires Consistent(st, before) && before <= now
    ensures ExactlyRecorded(st, CountOne(st, id, now).0, CountOne(st, id, now).1, [id], now)
  {
    CountOneKeeps(st, id, before, now);
    CountOneRows(st, id, before, now);
    CountOneIsExact(st, id, before, now);
    var next := CountOne(st, id, now).0;
    RowsOldOrNewAfter(st, next, id, NextStreak(st, id, now), now, Unlocked(st, id, now));
    forall other ensures Prolongs(History(st, other), History(next, other), now)
                 ensures Grew(st, next, other) <==> other == id {
    }
  }

  lemma ThenRecorded(st: Security, mid: Security, next: Security, id: Identifier, response: Response,
                     rest: seq<Identifier>, now: real)
    requires ExactlyRecorded(st, mid, Allowed, [id], now) && ExactlyRecorded(mid, next, response, rest, now)
    ensures ExactlyRecorded(st, next, response, [id] + rest, now)
  {
    forall other ensures Prolongs(History(st, other), History(next, other), now)
                 ensures Grew(st, next, other) <==> Grew(st, mid, other) || Grew(mid, next, other) {
      assert Prolongs(History(st, other), History(mid, other), now);
      assert Prolongs(History(mid, other), History(next, other), now);
    }
    forall other ensures NewRow(st, next, other) <==> NewRow(mid, next, other) {
    }
    forall other | Grew(st, next, other) && !Grew(mid, next, other)
      ensures Streak(History(next, other)) < LOCKOUT_THRESHOLD && !NewRow(mid, next, other) {
      assert Prolongs(History(mid, other), History(next, other), now);
      assert History(next, other) == History(mid, other);
    }
  }

  lemma {:induction false} RecordAbuseKeeps(st: Security, ids: seq<Identifier>, before: real, now: real)
    requires Consistent(st, before) && before <= now
    ensures Consistent(RecordAbuse(st, ids, now).0, now)
    ensures Governed(st, before) ==> Governed(RecordAbuse(st, ids, now).0, now)
    decreases |ids|
  {
    if ids == [] {
      Later(st, before, now);
    } else {
      var (mid, response) := CountOne(st, ids[0], now);
      CountOneKeeps(st, ids[0], before, now);
      if Governed(st, before) { CountOneGoverns(st, ids[0], before, now); }
      if !response.Locked? { RecordAbuseKeeps(mid, ids[1..], now, now); }
    }
  }

  lemma NothingRecorded(st: Security, now: real)
    ensures ExactlyRecorded(st, st, Allowed, [], now)
  {
  }

  lemma LockedIsRecorded(st: Security, next: Security, response: Response, ids: seq<Identifier>,
                         more: seq<Identifier>, now: real)
    requires ExactlyRecorded(st, next, response, ids, now) && response.Locked?
    ensures ExactlyRecorded(st, next, response, more, now)
  {
  }

  lemma ThenAllRecorded(st: Security, mid: Security, next: Security, response: Response, ids: seq<Identifier>,
                        now: real)
    requires ids != [] && ExactlyRecorded(st, mid, Allowed, [ids[0]], now)
    requires ExactlyRecorded(mid, next, response, ids[1..], now)
    ensures ExactlyRecorded(st, next, response, ids, now)
  {
    ThenRecorded(st, mid, next, ids[0], response, ids[1..], now);
    assert [ids[0]] + ids[1..] == ids;
  }

  /** The loop, whoever is locked out when it starts. */
  lemma {:induction false} RecordAbuseIsExact(st: Security, ids: seq<Identifier>, before: real, now: real)
    requires Consistent(st, before) && before <= now
    ensures ExactlyRecorded(st, RecordAbuse(st, ids, now).0, RecordAbuse(st, ids, now).1, ids, now)
    decreases |ids|
  {
    if ids == [] {
      NothingRecorded(st, now);
    } else {
      var (mid, response) := CountOne(st, ids[0], now);
      OneIsRecorded(st, ids[0], before, now);
      if response.Locked? {
        LockedIsRecorded(st, mid, response, [ids[0]], ids, now);
      } else {
        CountOneKeeps(st, ids[0], before, now);
        RecordAbuseIsExact(mid, ids[1..], now, now);
        ThenAllRecorded(st, mid, RecordAbuse(mid, ids[1..], now).0, RecordAbuse(mid, ids[1..], now).1, ids, now);
      }
    }
  }
}
