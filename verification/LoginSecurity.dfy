/** Login backoff and lockout (backend/authentication/login_security.py).  Times are seconds. */
module LoginSecurity {
  import opened Results

  const FAILURE_WINDOW := 300.0
  const BACKOFF_THRESHOLD := 5
  const BACKOFF_SECONDS := 60
  const LOCKOUT_THRESHOLD := 10
  const LOCKOUT_WINDOW := 300.0
  const LOCKOUT_SECONDS := 300.0

  /** A scope (ip or username) and a value. */
  datatype Identifier = Identifier(scope: string, value: string)

  /** A cache entry: it is gone from the instant `expires` on. */
  datatype Entry<T> = Entry(value: T, expires: real)

  type Counters = map<Identifier, Entry<nat>>

  /** A row of the lockout table that no administrator has resolved. */
  datatype Lockout = Lockout(id: Identifier, count: nat, until: real, lastAttempt: real)

  /**
   The cache entries and lockout rows.  `counted` is history: for each identifier the times of the events
   that were counted against it since its last successful login.
   */
  datatype Security = Security(failures: Counters, abuses: Counters, backoffs: map<Identifier, Entry<real>>,
                               lockouts: seq<Lockout>, counted: map<Identifier, seq<real>>)

  datatype Response = Allowed | TooMany(retryAfter: int) | Locked(until: real)

  function Live(m: Counters, id: Identifier, now: real): nat {
    if id in m && now < m[id].expires then m[id].value else 0
  }

  function Increment(m: Counters, id: Identifier, window: real, now: real): Counters {
    m[id := Entry(Live(m, id, now) + 1, now + window)]
  }

  /** Python's int() of a float: truncation toward zero. */
  function Truncate(x: real): int {
    if x >= 0.0 then x.Floor else -((-x).Floor)
  }

  /** The active lockout of one of `ids` that lasts longest. */
  function ActiveLockout(rows: seq<Lockout>, ids: seq<Identifier>, now: real): Option<nat> {
    if rows == [] then None
    else
      var last := rows[|rows| - 1];
      var best := ActiveLockout(rows[..|rows| - 1], ids, now);
      if last.id in ids && last.until > now && (best.None? || BestUntil(rows, best) < last.until) then Some(|rows| - 1)
      else best
  }

  function BestUntil(rows: seq<Lockout>, best: Option<nat>): real {
    if best.Some? && best.value < |rows| then rows[best.value].until else 0.0
  }

  /** The seconds of backoff left for one identifier, 0 when there is none. */
  function Remaining(st: Security, id: Identifier, now: real): int {
    if id in st.backoffs && now < st.backoffs[id].expires && st.backoffs[id].value != 0.0
    then Truncate(st.backoffs[id].value - now) else 0
  }

  function MaxRemaining(st: Security, ids: seq<Identifier>, now: real): (r: int)
    ensures r >= 0 && forall id | id in ids :: Remaining(st, id, now) <= r
  {
    if ids == [] then 0
    else
      var rest, mine := MaxRemaining(st, ids[1..], now), Remaining(st, ids[0], now);
      if mine > rest then mine else rest
  }

  function History(st: Security, id: Identifier): seq<real> {
    if id in st.counted then st.counted[id] else []
  }

  /** One identifier's turn in `_record_abuse_and_lockout_if_needed`. */
  function CountOne(st: Security, id: Identifier, now: real): (Security, Response)
  {
    var n := Live(st.abuses, id, now) + 1;
    var next := st.(abuses := Increment(st.abuses, id, LOCKOUT_WINDOW, now),
                    counted := st.counted[id := History(st, id) + [now]]);
    if n < LOCKOUT_THRESHOLD then (next, Allowed)
    else
      match ActiveLockout(st.lockouts, [id], now)
      case None =>
        var row := Lockout(id, n, now + LOCKOUT_SECONDS, now);
        (next.(lockouts := st.lockouts + [row]), Locked(row.until))
      case Some(k) =>
        if k < |st.lockouts| && (st.lockouts[k].until < now + LOCKOUT_SECONDS || st.lockouts[k].count < n) then
          var row := st.lockouts[k].(until := now + LOCKOUT_SECONDS, count := n, lastAttempt := now);
          (next.(lockouts := st.lockouts[k := row]), Locked(row.until))
        else (next, Locked(BestUntil(st.lockouts, Some(k))))
  }

  /** The loop over the identifiers stops at the first one that is locked out. */
  function RecordAbuse(st: Security, ids: seq<Identifier>, now: real): (Security, Response)
    decreases |ids|
  {
    if ids == [] then (st, Allowed)
    else
      var (next, response) := CountOne(st, ids[0], now);
      if response.Locked? then (next, response) else RecordAbuse(next, ids[1..], now)
  }

  function Check(st: Security, ids: seq<Identifier>, now: real): (Security, Response) {
    match ActiveLockout(st.lockouts, ids, now)
    case Some(k) => (st, Locked(BestUntil(st.lockouts, Some(k))))
    case None =>
      var retry := MaxRemaining(st, ids, now);
      if retry == 0 then (st, Allowed)
      else
        var (next, response) := RecordAbuse(st, ids, now);
        if response.Locked? then (next, response) else (next, TooMany(retry))
  }

  function CountFailures(m: Counters, ids: seq<Identifier>, now: real): Counters
    decreases |ids|
  {
    if ids == [] then m else CountFailures(Increment(m, ids[0], FAILURE_WINDOW, now), ids[1..], now)
  }

  /** A backoff for every identifier of `ids` with enough failures. */
  function SetBackoffs(st: Security, ids: seq<Identifier>, now: real): Security {
    if ids == [] then st
    else
      var rest := SetBackoffs(st, ids[..|ids| - 1], now);
      var id := ids[|ids| - 1];
      if Live(st.failures, id, now) >= BACKOFF_THRESHOLD then
        rest.(backoffs := rest.backoffs[id := Entry(now + BACKOFF_SECONDS as real, now + BACKOFF_SECONDS as real)])
      else rest
  }

  function Fail(st: Security, ids: seq<Identifier>, now: real): (Security, Response) {
    var counted := st.(failures := CountFailures(st.failures, ids, now));
    var (next, response) := RecordAbuse(counted, ids, now);
    if response.Locked? then (next, response)
    else if exists id | id in ids :: Live(counted.failures, id, now) >= BACKOFF_THRESHOLD then
      (SetBackoffs(next, ids, now), TooMany(BACKOFF_SECONDS))
    else (next, Allowed)
  }

  function Clear(st: Security, ids: seq<Identifier>): Security {
    var gone := set id | id in ids;
    st.(failures := st.failures - gone, abuses := st.abuses - gone, backoffs := st.backoffs - gone,
        counted := st.counted - gone)
  }

  // ----- the operations over time

  /** One call of the service, with its clock reading. */
  datatype Operation =
    | Checked(ids: seq<Identifier>, at: real)
    | Failed(ids: seq<Identifier>, at: real)
    | Succeeded(ids: seq<Identifier>, at: real)

  function Perform(st: Security, op: Operation): Security {
    match op
    case Checked(ids, at) => Check(st, ids, at).0
    case Failed(ids, at) => Fail(st, ids, at).0
    case Succeeded(ids, at) => Clear(st, ids)
  }

  const UNTOUCHED := Security(map[], map[], map[], [], map[])

  function PerformAll(ops: seq<Operation>): Security {
    if ops == [] then UNTOUCHED else Perform(PerformAll(ops[..|ops| - 1]), ops[|ops| - 1])
  }

  datatype PasswordTest = Wrong | Correct | NoPasswordSet

  /** One login request: the check, and after it the password test, at a time of its own. */
  datatype Attempt = Attempt(ids: seq<Identifier>, checkedAt: real, testedAt: real, password: PasswordTest)

  /** A correct password of an account that never set one is refused without counting or clearing. */
  function Login(st: Security, a: Attempt): (Security, Response) {
    var (checked, response) := Check(st, a.ids, a.checkedAt);
    if !response.Allowed? then (checked, response)
    else
      match a.password
      case Correct => (Clear(checked, a.ids), Allowed)
      case NoPasswordSet => (checked, Allowed)
      case Wrong => Fail(checked, a.ids, a.testedAt)
  }

  // ----- what the entries and rows mean

  /** How many of the last events followed each other with gaps below the window. */
  function Streak(times: seq<real>): nat {
    if |times| <= 1 then |times|
    else if times[|times| - 1] - times[|times| - 2] < LOCKOUT_WINDOW then Streak(times[..|times| - 1]) + 1
    else 1
  }

  /** The streak of `id` once an event at `now` is counted. */
  function NextStreak(st: Security, id: Identifier, now: real): nat {
    Streak(History(st, id) + [now])
  }

  ghost predicate Unlocked(st: Security, id: Identifier, now: real) {
    forall r | r in st.lockouts && r.id == id :: r.until <= now
  }

  /** `next` has a lockout row of `id` that `st` has not. */
  ghost predicate NewRow(st: Security, next: Security, id: Identifier) {
    exists k :: |st.lockouts| <= k < |next.lockouts| && next.lockouts[k].id == id
  }

  /** At least one event was counted against `id`. */
  ghost predicate Grew(st: Security, next: Security, id: Identifier) {
    |History(st, id)| < |History(next, id)|
  }

  lemma {:induction false} ActiveLockoutMeansLocked(rows: seq<Lockout>, ids: seq<Identifier>, now: real)
    ensures var best := ActiveLockout(rows, ids, now);
            match best
            case Some(k) =>
              && k < |rows| && rows[k].id in ids && rows[k].until > now
              && forall r | r in rows && r.id in ids :: r.until <= rows[k].until
            case None => forall r | r in rows && r.id in ids :: r.until <= now
  {
    if rows != [] {
      ActiveLockoutMeansLocked(rows[..|rows| - 1], ids, now);
      assert rows == rows[..|rows| - 1] + [rows[|rows| - 1]];
    }
  }

  // ----- waiting out a backoff

  lemma {:induction false} WaitedOut(st: Security, ids: seq<Identifier>, now: real, later: real)
    requires later >= now + MaxRemaining(st, ids, now) as real
    ensures MaxRemaining(st, ids, later) == 0
  {
    if ids != [] {
      WaitedOut(st, ids[1..], now, later);
    }
  }

  /** A client that was refused by backoff and waits the returned whole seconds is not refused by those backoffs. */
  lemma RetryAfterSuffices(st: Security, ids: seq<Identifier>, now: real, later: real)
    requires Check(st, ids, now).1.TooMany? && later >= now + Check(st, ids, now).1.retryAfter as real
    ensures MaxRemaining(st, ids, later) == 0
    ensures MaxRemaining(Check(st, ids, now).0, ids, later) == 0
  {
    WaitedOut(st, ids, now, later);
    AbuseKeepsCache(st, ids, now);
    SameBackoffs(st, Check(st, ids, now).0, ids, later);
  }

  lemma {:induction false} AbuseKeepsCache(st: Security, ids: seq<Identifier>, now: real)
    ensures RecordAbuse(st, ids, now).0.failures == st.failures
    ensures RecordAbuse(st, ids, now).0.backoffs == st.backoffs
    decreases |ids|
  {
    if ids != [] {
      AbuseKeepsCache(CountOne(st, ids[0], now).0, ids[1..], now);
    }
  }

  lemma {:induction false} SameBackoffs(st: Security, next: Security, ids: seq<Identifier>, now: real)
    requires st.backoffs == next.backoffs
    ensures MaxRemaining(st, ids, now) == MaxRemaining(next, ids, now)
  {
    if ids != [] {
      SameBackoffs(st, next, ids[1..], now);
    }
  }
}
