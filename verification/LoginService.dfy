/** The login security service over its cache and lockout table. */
module LoginService {
  import opened LoginSecurity

  class LoginSecurityService {
    var failures: Counters
    var abuses: Counters
    var backoffs: map<Identifier, Entry<real>>
    var lockouts: seq<Lockout>
    ghost var counted: map<Identifier, seq<real>>

    ghost function State(): Security
      reads this
    {
      Security(failures, abuses, backoffs, lockouts, counted)
    }

    constructor ()
      ensures State() == UNTOUCHED
    {
      failures, abuses, backoffs, lockouts, counted := map[], map[], map[], [], map[];
    }

    method CheckRequestAllowed(ids: seq<Identifier>, now: real) returns (r: Response)
      modifies this
      ensures (State(), r) == Check(old(State()), ids, now)
    {
      var active := ActiveLockout(lockouts, ids, now);
      if active.Some? {
        return Locked(BestUntil(lockouts, active));
      }
      var retry := 0;
      for i := 0 to |ids|
        invariant State() == old(State()) && retry >= 0
        invariant MaxRemaining(State(), ids, now) == Larger(retry, MaxRemaining(State(), ids[i..], now))
      {
        assert ids[i..][0] == ids[i] && ids[i..][1..] == ids[i + 1..];
        var remaining := Remaining(Security(failures, abuses, backoffs, lockouts, map[]), ids[i], now);
        if remaining > retry { retry := remaining; }
      }
      if retry == 0 { return Allowed; }
      r := RecordAbuseAndLockout(ids, now);
      if !r.Locked? { r := TooMany(retry); }
    }

    method RecordFailedLogin(ids: seq<Identifier>, now: real) returns (r: Response)
      modifies this
      ensures (State(), r) == Fail(old(State()), ids, now)
    {
      for i := 0 to |ids|
        invariant State() == old(State()).(failures := failures)
        invariant CountFailures(failures, ids[i..], now) == CountFailures(old(failures), ids, now)
      {
        assert ids[i..][0] == ids[i] && ids[i..][1..] == ids[i + 1..];
        failures := Increment(failures, ids[i], FAILURE_WINDOW, now);
      }
      var counts := failures;
      r := RecordAbuseAndLockout(ids, now);
      if r.Locked? { return; }
      AbuseKeepsCache(old(State()).(failures := counts), ids, now);
      var tooMany := exists id | id in ids :: Live(counts, id, now) >= BACKOFF_THRESHOLD;
      if !tooMany { return Allowed; }
      ghost var counted := State();
      for i := 0 to |ids|
        invariant State() == SetBackoffs(counted, ids[..i], now)
        invariant failures == counts
      {
        assert ids[..i + 1][..i] == ids[..i];
        if Live(counts, ids[i], now) >= BACKOFF_THRESHOLD {
          var until := now + BACKOFF_SECONDS as real;
          backoffs := backoffs[ids[i] := Entry(until, until)];
        }
      }
      assert ids[..|ids|] == ids;
      r := TooMany(BACKOFF_SECONDS);
    }

    method ClearSuccessfulLogin(ids: seq<Identifier>)
      modifies this
      ensures State() == Clear(old(State()), ids)
    {
      for i := 0 to |ids|
        invariant State() == Clear(old(State()), ids[..i])
      {
        ClearOneMore(old(State()), ids, i);
        failures, abuses, backoffs, counted :=
          failures - {ids[i]}, abuses - {ids[i]}, backoffs - {ids[i]}, counted - {ids[i]};
      }
      assert ids[..|ids|] == ids;
    }

    method RecordAbuseAndLockout(ids: seq<Identifier>, now: real) returns (r: Response)
      modifies this
      ensures (State(), r) == RecordAbuse(old(State()), ids, now)
    {
      for i := 0 to |ids|
        invariant RecordAbuse(State(), ids[i..], now) == RecordAbuse(old(State()), ids, now)
      {
        assert ids[i..][0] == ids[i] && ids[i..][1..] == ids[i + 1..];
        r := CountEvent(ids[i], now);
        if r.Locked? { return; }
      }
      return Allowed;
    }

    method CountEvent(id: Identifier, now: real) returns (r: Response)
      modifies this
      ensures (State(), r) == CountOne(old(State()), id, now)
    {
      var n := Live(abuses, id, now) + 1;
      abuses := Increment(abuses, id, LOCKOUT_WINDOW, now);
      counted := counted[id := History(State(), id) + [now]];
      if n < LOCKOUT_THRESHOLD { return Allowed; }
      var active := ActiveLockout(lockouts, [id], now);
      ActiveLockoutMeansLocked(lockouts, [id], now);
      if active.None? {
        lockouts := lockouts + [Lockout(id, n, now + LOCKOUT_SECONDS, now)];
        return Locked(now + LOCKOUT_SECONDS);
      }
      var k := active.value;
      if lockouts[k].until < now + LOCKOUT_SECONDS || lockouts[k].count < n {
        lockouts := lockouts[k := lockouts[k].(until := now + LOCKOUT_SECONDS, count := n, lastAttempt := now)];
      }
      return Locked(lockouts[k].until);
    }

    /** One login request as the view runs it. */
    method Request(a: Attempt) returns (r: Response)
      modifies this
      ensures (State(), r) == Login(old(State()), a)
    {
      r := CheckRequestAllowed(a.ids, a.checkedAt);
      if !r.Allowed? { return; }
      match a.password {
        case Wrong => r := RecordFailedLogin(a.ids, a.testedAt);
        case NoPasswordSet =>
        case Correct => ClearSuccessfulLogin(a.ids);
      }
    }
  }

  lemma ClearOneMore(st: Security, ids: seq<Identifier>, i: nat)
    requires i < |ids|
    ensures var s, t := Clear(st, ids[..i]), Clear(st, ids[..i + 1]);
            && t.failures == s.failures - {ids[i]} && t.abuses == s.abuses - {ids[i]}
            && t.backoffs == s.backoffs - {ids[i]} && t.counted == s.counted - {ids[i]}
  {
    var front, more := ids[..i], ids[..i + 1];
    var gone := set id | id in front;
    assert more == front + [ids[i]];
    assert (set id | id in more) == gone + {ids[i]};
    WithoutBoth(st.failures, gone, ids[i]);
    WithoutBoth(st.abuses, gone, ids[i]);
    WithoutBoth(st.backoffs, gone, ids[i]);
    WithoutBoth(st.counted, gone, ids[i]);
  }

  lemma WithoutBoth<T>(m: map<Identifier, T>, gone: set<Identifier>, id: Identifier)
    ensures m - (gone + {id}) == m - gone - {id}
  {
  }

  function Larger(x: int, y: int): int {
    if x > y then x else y
  }
}
