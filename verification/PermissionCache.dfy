/** The permission bundle cache (backend/access_control/services.py).  Times are seconds. */
module PermissionCache {
  import opened Results
  import opened Sorting

  /** A row that gives a user a role from `validFrom` to `validTo`, both included. */
  datatype UserRole = UserRole(role: nat, validFrom: real, validTo: Option<real>)

  /** A row that gives a role a permission, named "module:action". */
  datatype Grant = Grant(role: nat, permission: string)

  datatype Bundle = Bundle(permissions: seq<string>, hasAnyRole: bool)

  predicate IsActive(r: UserRole, t: real) {
    r.validFrom <= t && (r.validTo.None? || r.validTo.value >= t)
  }

  function ActiveRoles(rows: seq<UserRole>, t: real): seq<nat> {
    if rows == [] then []
    else
      var last := rows[|rows| - 1];
      ActiveRoles(rows[..|rows| - 1], t) + if IsActive(last, t) then [last.role] else []
  }

  /** The permissions of the listed roles, in table order. */
  function Granted(grants: seq<Grant>, roles: seq<nat>): seq<string> {
    if grants == [] then []
    else
      var last := grants[|grants| - 1];
      Granted(grants[..|grants| - 1], roles) + if last.role in roles then [last.permission] else []
  }

  function BundleAt(rows: seq<UserRole>, grants: seq<Grant>, t: real): Bundle {
    Bundle(Sort(StringLeq, Granted(grants, ActiveRoles(rows, t))), rows != [])
  }

  function Ceil(x: real): int {
    if x.Floor as real == x then x.Floor else x.Floor + 1
  }

  /** When the row next starts or stops being active, seen from `now`. */
  function NextChange(r: UserRole, now: real): Option<real> {
    if IsActive(r, now) then r.validTo else if r.validFrom > now then Some(r.validFrom) else None
  }

  /** The whole seconds, at least one, until that change. */
  function SecondsUntil(change: real, now: real): (s: int)
    ensures s >= 1 && s as real >= change - now
    ensures change >= now ==> s == 1 || s as real < change - now + 1.0
  {
    if Ceil(change - now) > 1 then Ceil(change - now) else 1
  }

  function Sooner(a: Option<int>, b: Option<int>): Option<int> {
    if a.None? then b else if b.None? || a.value <= b.value then a else b
  }

  function NextTransitionSeconds(rows: seq<UserRole>, now: real): Option<int> {
    if rows == [] then None
    else
      var change := NextChange(rows[|rows| - 1], now);
      Sooner(NextTransitionSeconds(rows[..|rows| - 1], now),
             if change.Some? then Some(SecondsUntil(change.value, now)) else None)
  }

  /** The lifetime given to a bundle computed at `now`; None means that it never expires. */
  function Timeout(rows: seq<UserRole>, now: real, default: Option<int>): Option<int> {
    Sooner(NextTransitionSeconds(rows, now), default)
  }

  /** A cached bundle, with the instant it was computed. */
  datatype Entry = Entry(bundle: Bundle, storedAt: real, timeout: Option<int>, computedAt: real)

  predicate Cached(e: Entry, t: real) {
    e.timeout.None? || t < e.storedAt + e.timeout.value as real
  }

  /** A bundle computed inside a transaction, to be cached for its user when that commits. */
  datatype Deferred = Deferred(user: nat, entry: Entry)

  function NewEntry(rows: seq<UserRole>, grants: seq<Grant>, now: real, default: Option<int>): Entry {
    Entry(BundleAt(rows, grants, now), now, Timeout(rows, now, default), now)
  }

  ghost predicate Computed(rows: seq<UserRole>, grants: seq<Grant>, e: Entry, default: Option<int>) {
    && e.bundle == BundleAt(rows, grants, e.computedAt)
    && e.timeout == Timeout(rows, e.computedAt, default)
  }

  ghost predicate FromRows(rows: seq<UserRole>, grants: seq<Grant>, e: Entry, default: Option<int>, delay: real) {
    Computed(rows, grants, e, default) && e.computedAt <= e.storedAt <= e.computedAt + delay
  }

  /**
   The bundle was right at an instant since which no row has changed, save those that changed less
   than one second (plus the delay between computing and storing) before `t`.
   */
  ghost predicate RightOrJustChanged(rows: seq<UserRole>, grants: seq<Grant>, b: Bundle, t: real, delay: real) {
    exists u :: u <= t && b == BundleAt(rows, grants, u) && NothingElseChanged(rows, u, t, delay)
  }

  ghost predicate NothingElseChanged(rows: seq<UserRole>, u: real, t: real, delay: real) {
    forall i | 0 <= i < |rows| :: IsActive(rows[i], u) == IsActive(rows[i], t) || JustChanged(rows[i], t, delay)
  }

  /** `t` lies in the second after the row started or stopped being active. */
  ghost predicate JustChanged(r: UserRole, t: real, delay: real) {
    || (r.validFrom <= t < r.validFrom + 1.0 + delay)
    || (r.validTo.Some? && r.validTo.value < t < r.validTo.value + 1.0 + delay)
  }

  predicate HasRole(rows: seq<UserRole>, role: nat) {
    exists i :: 0 <= i < |rows| && rows[i].role == role
  }

  /** The grants of every role but `role`. */
  function Others(grants: seq<Grant>, role: nat): seq<Grant> {
    if grants == [] then []
    else
      var last := grants[|grants| - 1];
      Others(grants[..|grants| - 1], role) + if last.role != role then [last] else []
  }

  class PermissionService {
    const defaultTimeout: Option<int>
    /** No bundle is stored later than this after it was computed. */
    ghost const delay: real
    var rows: map<nat, seq<UserRole>>
    var grants: seq<Grant>
    var cache: map<nat, Entry>
    var deferred: map<nat, Deferred>
    var tickets: nat
    /** Users whose entry has outlived a change. */
    ghost var missed: set<nat>
    /** Deferred bundles that were computed before a change. */
    ghost var outdated: set<nat>

    ghost predicate Valid(t: real)
      reads this
    {
      && (forall u | u in cache && u !in missed ::
            FromRows(RowsOf(u), grants, cache[u], defaultTimeout, delay) && cache[u].computedAt <= t)
      && (forall k | k in deferred && k !in outdated ::
            Computed(RowsOf(deferred[k].user), grants, deferred[k].entry, defaultTimeout))
      && forall k | k in deferred :: k < tickets && deferred[k].entry.computedAt <= t
    }

    constructor (rows: map<nat, seq<UserRole>>, grants: seq<Grant>, defaultTimeout: Option<int>, ghost delay: real)
      ensures this.rows == rows && this.grants == grants && this.defaultTimeout == defaultTimeout && this.delay == delay
      ensures cache == map[] && deferred == map[] && missed == outdated == {} && forall t :: Valid(t)
    {
      this.rows, this.grants, this.defaultTimeout, this.delay := rows, grants, defaultTimeout, delay;
      cache, deferred, tickets, missed, outdated := map[], map[], 0, {}, {};
    }

    function RowsOf(user: nat): seq<UserRole>
      reads this`rows
    {
      if user in rows then rows[user] else []
    }

    /** Every answer, cached or not, is right at the moment it is given, but for rows that just changed. */
    method GetUserPermissionBundle(user: nat, now: real, storedAt: real, inTransaction: bool, getFails: bool,
                                   setFails: bool) returns (b: Bundle, ticket: Option<nat>)
      requires Valid(now) && now <= storedAt <= now + delay
      modifies this`cache, this`missed, this`deferred, this`tickets, this`outdated
      ensures Valid(now) && missed <= old(missed) && outdated <= old(outdated)
      ensures user !in old(missed) ==> RightOrJustChanged(RowsOf(user), grants, b, now, delay)
      ensures b == if user in old(cache) && !getFails && Cached(old(cache)[user], now) then old(cache)[user].bundle
                   else BundleAt(RowsOf(user), grants, now)
      ensures var e := NewEntry(RowsOf(user), grants, now, defaultTimeout);
              deferred == if ticket.None? then old(deferred) else old(deferred)[ticket.value := Deferred(user, e)]
      ensures ticket.Some? ==> inTransaction && ticket.value !in old(deferred) && ticket.value !in outdated
      ensures inTransaction ==> cache == old(cache) && missed == old(missed)
      ensures inTransaction && (user !in old(cache) || getFails) ==> ticket.Some?
    {
      if !getFails && user in cache && Cached(cache[user], now) {
        if user !in missed {
          CachedIsRightOrJustChanged(RowsOf(user), grants, cache[user], defaultTimeout, delay, now);
        }
        b, ticket := cache[user].bundle, None;
        return;
      }
      var e := Compute(user, now);
      b := e.bundle;
      FreshIsRight(RowsOf(user), grants, b, now, delay);
      ticket := Keep(user, e, storedAt, inTransaction, setFails);
    }

    method Compute(user: nat, now: real) returns (e: Entry)
      ensures e == NewEntry(RowsOf(user), grants, now, defaultTimeout)
    {
      var active, next := Scan(RowsOf(user), now);
      var b := Bundle(Sort(StringLeq, Granted(grants, active)), RowsOf(user) != []);
      e := Entry(b, now, Sooner(next, defaultTimeout), now);
    }

    /** Caches a new bundle, or defers that to the end of the transaction. */
    method Keep(user: nat, e: Entry, storedAt: real, inTransaction: bool, setFails: bool) returns (ticket: Option<nat>)
      requires Valid(e.computedAt) && e.computedAt <= storedAt <= e.computedAt + delay
      requires Computed(RowsOf(user), grants, e, defaultTimeout)
      modifies this`cache, this`missed, this`deferred, this`tickets, this`outdated
      ensures Valid(e.computedAt) && missed <= old(missed) && outdated <= old(outdated)
      ensures ticket.Some? <==> inTransaction
      ensures ticket.Some? ==> ticket.value !in old(deferred) && ticket.value !in outdated
      ensures deferred == if ticket.None? then old(deferred) else old(deferred)[ticket.value := Deferred(user, e)]
      ensures inTransaction ==> cache == old(cache) && missed == old(missed)
    {
      ticket := None;
      if inTransaction {
        ticket := Some(tickets);
        deferred, tickets := deferred[tickets := Deferred(user, e)], tickets + 1;
        outdated := outdated - {ticket.value};
      } else if !setFails {
        cache := cache[user := e.(storedAt := storedAt)];
        missed := missed - {user};
      }
    }

    /** The transaction commits: a bundle computed before a change leaves its user with an entry that outlives it. */
    method StoreDeferred(ticket: nat, storedAt: real, setFails: bool)
      requires Valid(storedAt) && ticket in deferred && storedAt <= deferred[ticket].entry.computedAt + delay
      modifies this`cache, this`missed, this`deferred
      ensures Valid(storedAt) && deferred == old(deferred) - {ticket}
      ensures var user := old(deferred)[ticket].user;
              && cache == (if setFails then old(cache)
                           else old(cache)[user := old(deferred)[ticket].entry.(storedAt := storedAt)])
              && missed == if setFails then old(missed)
                           else if ticket in outdated then old(missed) + {user} else old(missed) - {user}
    {
      var d := deferred[ticket];
      deferred := deferred - {ticket};
      if !setFails {
        cache := cache[d.user := d.entry.(storedAt := storedAt)];
        missed := if ticket in outdated then missed + {d.user} else missed - {d.user};
      }
    }

    /** The loop over the rows. */
    method Scan(roles: seq<UserRole>, now: real) returns (active: seq<nat>, next: Option<int>)
      ensures active == ActiveRoles(roles, now) && next == NextTransitionSeconds(roles, now)
    {
      active, next := [], None;
      for i := 0 to |roles|
        invariant active == ActiveRoles(roles[..i], now) && next == NextTransitionSeconds(roles[..i], now)
      {
        assert roles[..i + 1][..i] == roles[..i];
        var r := roles[i];
        if r.validFrom <= now && (r.validTo.None? || r.validTo.value >= now) {
          active := active + [r.role];
          if r.validTo.Some? {
            var seconds := SecondsUntil(r.validTo.value, now);
            if next.None? || seconds < next.value { next := Some(seconds); }
          }
        } else if r.validFrom > now {
          var seconds := SecondsUntil(r.validFrom, now);
          if next.None? || seconds < next.value { next := Some(seconds); }
        }
      }
      assert roles[..|roles|] == roles;
    }

    /** The deferred bundles of some users. */
    ghost function DeferredFor(users: set<nat>): set<nat>
      reads this`deferred
    {
      set k | k in deferred && deferred[k].user in users
    }

    /**
     A role row of `user` is saved or deleted: the entry is dropped, unless the cache fails, and bundles
     still to be stored are outdated.
     */
    method ChangeUserRoles(user: nat, roles: seq<UserRole>, cacheFails: bool, ghost t: real)
      requires Valid(t)
      modifies this`rows, this`cache, this`missed, this`outdated
      ensures Valid(t) && rows == old(rows)[user := roles] && outdated == old(outdated) + DeferredFor({user})
      ensures cache == if cacheFails then old(cache) else old(cache) - {user}
      ensures missed == if cacheFails then old(missed) + {user} * cache.Keys else old(missed)
    {
      rows := rows[user := roles];
      outdated := outdated + DeferredFor({user});
      if cacheFails {
        missed := missed + {user} * cache.Keys;
      } else {
        cache := cache - {user};
      }
    }

    /** A grant of `role` is saved or deleted: the entries of all users with a row of that role are dropped. */
    method ChangeGrants(role: nat, changed: seq<Grant>, cacheFails: bool, ghost t: real)
      requires Valid(t) && Others(changed, role) == Others(grants, role)
      modifies this`grants, this`cache, this`missed, this`outdated
      ensures Valid(t) && grants == changed
      ensures var users := set u | u in rows && HasRole(rows[u], role);
              && cache == (if cacheFails then old(cache) else old(cache) - users)
              && missed == (if cacheFails then old(missed) + users * cache.Keys else old(missed))
              && outdated == old(outdated) + DeferredFor(users)
    {
      var users := set u | u in rows && HasRole(rows[u], role);
      forall u | u !in users ensures SameBundles(RowsOf(u), grants, changed) {
        UnrelatedGrants(RowsOf(u), grants, changed, role);
      }
      grants := changed;
      outdated := outdated + DeferredFor(users);
      if cacheFails {
        missed := missed + users * cache.Keys;
      } else {
        cache := cache - users;
      }
    }
  }

  /** A bundle computed in a transaction, stored after the user has lost the role, is answered for ever. */
  method StoredTooLate(role: nat, permission: string, t: real, later: real) returns (b: Bundle)
    requires t <= later
    ensures b.permissions == [permission] && b.hasAnyRole
  {
    var row, grants := UserRole(role, t, None), [Grant(role, permission)];
    var service := new PermissionService(map[1 := [row]], grants, None, 0.0);
    var first, ticket := service.GetUserPermissionBundle(1, t, t, true, false, false);
    OneGrant(row, permission, t);
    service.ChangeUserRoles(1, [], false, t);
    service.StoreDeferred(ticket.value, t, false);
    b, ticket := service.GetUserPermissionBundle(1, later, later, false, false, false);
  }

  lemma OneGrant(row: UserRole, permission: string, t: real)
    requires row.validFrom == t && row.validTo.None?
    ensures BundleAt([row], [Grant(row.role, permission)], t) == Bundle([permission], true)
    ensures Timeout([row], t, None).None?
  {
    var grants := [Grant(row.role, permission)];
    assert [row][..0] == [] && grants[..0] == [];
    assert ActiveRoles([], t) == [] && NextTransitionSeconds([], t).None?;
    assert ActiveRoles([row], t) == [row.role];
    assert Granted([], [row.role]) == [] && Granted(grants, [row.role]) == [permission];
    assert [permission][..0] == [] && Sort(StringLeq, []) == [];
  }

  // ----- a changed grant concerns only the users of its role

  ghost predicate SameBundles(rows: seq<UserRole>, grants: seq<Grant>, changed: seq<Grant>) {
    forall t :: BundleAt(rows, changed, t) == BundleAt(rows, grants, t)
  }

  lemma {:induction false} GrantedByOthers(grants: seq<Grant>, roles: seq<nat>, role: nat)
    requires role !in roles
    ensures Granted(grants, roles) == Granted(Others(grants, role), roles)
  {
    if grants != [] {
      var front, last := grants[..|grants| - 1], grants[|grants| - 1];
      GrantedByOthers(front, roles, role);
      if last.role == role {
        assert Others(grants, role) == Others(front, role);
      } else {
        assert Others(grants, role)[..|Others(front, role)|] == Others(front, role);
      }
    }
  }

  lemma {:induction false} ActiveRolesAreRoles(rows: seq<UserRole>, t: real, role: nat)
    ensures role in ActiveRoles(rows, t) <==>
        exists i :: 0 <= i < |rows| && IsActive(rows[i], t) && rows[i].role == role
  {
    if rows != [] {
      ActiveRolesAreRoles(rows[..|rows| - 1], t, role);
    }
  }

  lemma {:induction false} UnrelatedGrants(rows: seq<UserRole>, grants: seq<Grant>, changed: seq<Grant>, role: nat)
    requires !HasRole(rows, role) && Others(changed, role) == Others(grants, role)
    ensures SameBundles(rows, grants, changed)
  {
    forall t ensures BundleAt(rows, changed, t) == BundleAt(rows, grants, t) {
      ActiveRolesAreRoles(rows, t, role);
      GrantedByOthers(grants, ActiveRoles(rows, t), role);
      GrantedByOthers(changed, ActiveRoles(rows, t), role);
    }
  }

  // ----- what a bundle lists

  /** A row that has started and not yet ended, its first and last instant included, gives a role that has `p`. */
  ghost predicate Permitted(rows: seq<UserRole>, grants: seq<Grant>, t: real, p: string) {
    exists r :: && r in rows && Grant(r.role, p) in grants
                && r.validFrom <= t && (r.validTo.None? || t <= r.validTo.value)
  }

  lemma {:induction false} GrantedExactly(grants: seq<Grant>, roles: seq<nat>, p: string)
    ensures p in Granted(grants, roles) <==> exists role :: role in roles && Grant(role, p) in grants
  {
    if grants != [] {
      var front, last := grants[..|grants| - 1], grants[|grants| - 1];
      GrantedExactly(front, roles, p);
      if role :| role in roles && Grant(role, p) in grants {
        assert Grant(role, p) in front || Grant(role, p) == last;
      }
      if p == last.permission && last.role in roles {
        assert last == Grant(last.role, p);
      }
    }
  }

  /** The list is sorted and holds exactly the permissions of the roles active at that instant. */
  lemma {:induction false} BundleLists(rows: seq<UserRole>, grants: seq<Grant>, t: real, p: string)
    ensures p in BundleAt(rows, grants, t).permissions <==> Permitted(rows, grants, t, p)
    ensures SortedBy(StringLeq, BundleAt(rows, grants, t).permissions)
  {
    var active := ActiveRoles(rows, t);
    StringOrderIsTotal();
    SortIsSorted(StringLeq, Granted(grants, active));
    SortKeepsMembers(StringLeq, Granted(grants, active));
    GrantedExactly(grants, active, p);
    forall role
      ensures role in active <==> exists i :: 0 <= i < |rows| && IsActive(rows[i], t) && rows[i].role == role
    {
      ActiveRolesAreRoles(rows, t, role);
    }
  }

  /** A permission is answered rightly unless a row whose role has it just changed. */
  lemma {:induction false} PermissionIsRight(rows: seq<UserRole>, grants: seq<Grant>, b: Bundle, t: real, delay: real,
                                             p: string)
    requires RightOrJustChanged(rows, grants, b, t, delay)
    requires forall i | 0 <= i < |rows| && JustChanged(rows[i], t, delay) :: Grant(rows[i].role, p) !in grants
    ensures p in b.permissions <==> Permitted(rows, grants, t, p)
  {
    var u :| u <= t && b == BundleAt(rows, grants, u) && NothingElseChanged(rows, u, t, delay);
    BundleLists(rows, grants, u, p);
  }

  // ----- why a cached bundle is nearly fresh

  lemma {:induction false} TimeoutCoversChanges(rows: seq<UserRole>, now: real, i: nat)
    requires i < |rows| && NextChange(rows[i], now).Some?
    ensures NextTransitionSeconds(rows, now).Some?
    ensures NextTransitionSeconds(rows, now).value <= SecondsUntil(NextChange(rows[i], now).value, now)
  {
    if i < |rows| - 1 {
      TimeoutCoversChanges(rows[..|rows| - 1], now, i);
    }
  }

  lemma FreshIsRight(rows: seq<UserRole>, grants: seq<Grant>, b: Bundle, t: real, delay: real)
    requires b == BundleAt(rows, grants, t)
    ensures RightOrJustChanged(rows, grants, b, t, delay)
  {
    assert NothingElseChanged(rows, t, t, delay);
  }

  lemma {:induction false} CachedIsRightOrJustChanged(rows: seq<UserRole>, grants: seq<Grant>, e: Entry,
                                                      default: Option<int>, delay: real, t: real)
    requires FromRows(rows, grants, e, default, delay) && e.computedAt <= t && Cached(e, t)
    ensures RightOrJustChanged(rows, grants, e.bundle, t, delay)
  {
    var now := e.computedAt;
    forall i | 0 <= i < |rows| && IsActive(rows[i], now) != IsActive(rows[i], t)
      ensures JustChanged(rows[i], t, delay)
    {
      TimeoutCoversChanges(rows, now, i);
    }
    assert NothingElseChanged(rows, now, t, delay);
  }
}
