/** What a permission bundle says of roles that are not active, and how long it is kept. */
module PermissionBundles {
  import opened PermissionCache
  import opened Results
  import opened Sorting

  ghost predicate NoneActive(rows: seq<UserRole>, t: real) {
    forall i | 0 <= i < |rows| :: !IsActive(rows[i], t)
  }

  predicate Expired(rows: seq<UserRole>, t: real) {
    forall i | 0 <= i < |rows| :: rows[i].validTo.Some? && rows[i].validTo.value < t
  }

  lemma {:induction false} NoActiveRoles(rows: seq<UserRole>, t: real)
    requires NoneActive(rows, t)
    ensures ActiveRoles(rows, t) == []
  {
    if rows != [] {
      NoActiveRoles(rows[..|rows| - 1], t);
    }
  }

  lemma {:induction false} NothingGranted(grants: seq<Grant>)
    ensures Granted(grants, []) == []
  {
    if grants != [] {
      NothingGranted(grants[..|grants| - 1]);
    }
  }

  /** A user whose roles have all expired has no permission and still counts as one who has a role. */
  lemma ExpiredRolesCount(rows: seq<UserRole>, grants: seq<Grant>, t: real)
    requires Expired(rows, t)
    ensures BundleAt(rows, grants, t) == Bundle([], rows != [])
  {
    NoActiveRoles(rows, t);
    NothingGranted(grants);
    assert Sort(StringLeq, []) == [];
  }

  /** Whether there is any role is answered rightly even while rows change. */
  lemma AnyRoleIsRight(rows: seq<UserRole>, grants: seq<Grant>, b: Bundle, t: real, delay: real)
    requires RightOrJustChanged(rows, grants, b, t, delay)
    ensures b.hasAnyRole <==> exists r :: r in rows
  {
    if rows != [] {
      assert rows[0] in rows;
    }
  }

  /** The grants by which the active roles give `p`. */
  function TimesGranted(rows: seq<UserRole>, grants: seq<Grant>, t: real, p: string): nat {
    if grants == [] then 0
    else
      var last := grants[|grants| - 1];
      TimesGranted(rows, grants[..|grants| - 1], t, p)
      + if last.permission == p && exists i | 0 <= i < |rows| :: rows[i].role == last.role && IsActive(rows[i], t)
        then 1 else 0
  }

  lemma {:induction false} GrantedOften(rows: seq<UserRole>, grants: seq<Grant>, t: real, p: string, roles: seq<nat>)
    requires roles == ActiveRoles(rows, t)
    ensures multiset(Granted(grants, roles))[p] == TimesGranted(rows, grants, t, p)
  {
    if grants != [] {
      GrantedOften(rows, grants[..|grants| - 1], t, p, roles);
      ActiveRolesAreRoles(rows, t, grants[|grants| - 1].role);
    }
  }

  /** A permission is listed as often as active roles give it. */
  lemma ListedOften(rows: seq<UserRole>, grants: seq<Grant>, t: real, p: string)
    ensures multiset(BundleAt(rows, grants, t).permissions)[p] == TimesGranted(rows, grants, t, p)
  {
    var roles := ActiveRoles(rows, t);
    GrantedOften(rows, grants, t, p, roles);
    SortKeepsContents(StringLeq, Granted(grants, roles));
  }

  // ----- how long it is kept

  /** As long as its role is active the row turns when it ends; before that, when it starts. */
  predicate TurnsAt(r: UserRole, now: real, t: real) {
    if IsActive(r, now) then r.validTo == Some(t) else r.validFrom == t > now
  }

  lemma NoTurnBefore(r: UserRole, now: real, t: real, u: real)
    requires TurnsAt(r, now, t) && now <= u < t
    ensures IsActive(r, u) == IsActive(r, now)
  {
  }

  /** The least whole number of seconds, and at least one, that reaches from `now` to `t`. */
  predicate Reaches(n: int, now: real, t: real) {
    n >= 1 && now + n as real >= t && (n == 1 || now + n as real - 1.0 < t)
  }

  /** Some row turns within `n` seconds and not sooner. */
  ghost predicate Due(rows: seq<UserRole>, now: real, n: int) {
    exists r, t :: r in rows && TurnsAt(r, now, t) && Reaches(n, now, t)
  }

  lemma SecondsReach(r: UserRole, now: real, n: int)
    ensures Due([r], now, n) <==> NextChange(r, now).Some? && n == SecondsUntil(NextChange(r, now).value, now)
  {
    if NextChange(r, now).Some? && n == SecondsUntil(NextChange(r, now).value, now) {
      assert r in [r] && TurnsAt(r, now, NextChange(r, now).value);
    }
  }

  lemma DueInLast(rows: seq<UserRole>, now: real, n: int)
    requires rows != []
    ensures Due(rows, now, n) <==> Due(rows[..|rows| - 1], now, n) || Due([rows[|rows| - 1]], now, n)
  {
    assert rows == rows[..|rows| - 1] + [rows[|rows| - 1]];
  }

  ghost predicate IsLeast(n: Option<int>, p: int -> bool) {
    match n
    case None => forall m :: !p(m)
    case Some(k) => p(k) && forall m | p(m) :: k <= m
  }

  lemma SoonerIsLeast(a: Option<int>, p: int -> bool, b: Option<int>, q: int -> bool, r: int -> bool)
    requires IsLeast(a, p) && IsLeast(b, q) && forall m :: r(m) <==> p(m) || q(m)
    ensures IsLeast(Sooner(a, b), r)
  {
  }

  ghost function DueIn(rows: seq<UserRole>, now: real): int -> bool {
    n => Due(rows, now, n)
  }

  lemma {:induction false} TransitionIsLeast(rows: seq<UserRole>, now: real)
    ensures IsLeast(NextTransitionSeconds(rows, now), DueIn(rows, now))
  {
    if rows != [] {
      var front, last := rows[..|rows| - 1], rows[|rows| - 1];
      TransitionIsLeast(front, now);
      forall n
        ensures DueIn(rows, now)(n) <==> DueIn(front, now)(n) || DueIn([last], now)(n)
        ensures DueIn([last], now)(n) <==>
                  NextChange(last, now).Some? && n == SecondsUntil(NextChange(last, now).value, now)
      {
        DueInLast(rows, now, n);
        SecondsReach(last, now, n);
      }
      var change := NextChange(last, now);
      SoonerIsLeast(NextTransitionSeconds(front, now), DueIn(front, now),
                    if change.Some? then Some(SecondsUntil(change.value, now)) else None, DueIn([last], now),
                    DueIn(rows, now));
    }
  }

  /** A bundle is kept for the seconds until the first row turns, or for the default time when that is less. */
  lemma LifetimeExactly(rows: seq<UserRole>, now: real, default: Option<int>)
    ensures IsLeast(Timeout(rows, now, default), n => Due(rows, now, n) || default == Some(n))
  {
    TransitionIsLeast(rows, now);
    SoonerIsLeast(NextTransitionSeconds(rows, now), DueIn(rows, now), default, n => default == Some(n),
                  n => Due(rows, now, n) || default == Some(n));
  }
}
