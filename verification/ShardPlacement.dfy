/** Where every module goes, without the loop: to the shard that the modules before it load least. */
module ShardPlacement {
  import opened ListScheduling
  import opened Sequences
  import opened Sharding
  import opened ShardTimes
  import opened Sorting

  /** Longer modules come first, equally long ones in the order of their paths. */
  ghost predicate Before(e: map<Path, real>, q: Path, p: Path) {
    q in e && p in e && (e[q] > e[p] || (e[q] == e[p] && q != p && StringLeq(q.text, p.text)))
  }

  /** The expected time on shard `j` of the modules before `p`. */
  ghost function LoadBefore(keys: seq<Path>, e: map<Path, real>, f: map<Path, nat>, p: Path, j: nat): real {
    SumOver(keys, map q | q in e && q in f && Before(e, q, p) && f[q] == j :: e[q])
  }

  lemma {:induction false} PrefixOfGreedy(ps: seq<real>, m: nat, n: nat, front: seq<real>)
    requires m >= 1 && n < |ps| - 1 && front == ps[..|ps| - 1] && Greedy(ps, m)[..|ps| - 1] == Greedy(front, m)
    ensures ps[..n] == front[..n] && Greedy(ps, m)[..n] == Greedy(front, m)[..n]
    ensures Greedy(ps, m)[n] == Greedy(front, m)[n]
  {
    assert Greedy(ps, m)[..|ps| - 1][..n] == Greedy(ps, m)[..n];
    assert Greedy(ps, m)[..|ps| - 1][n] == Greedy(ps, m)[n];
  }

  lemma {:induction false} GreedyAt(ps: seq<real>, m: nat, n: nat)
    requires m >= 1 && n < |ps|
    ensures Greedy(ps, m)[..n] == Greedy(ps[..n], m)
    ensures Greedy(ps, m)[n] == LeastLoaded(Loads(ps[..n], Greedy(ps[..n], m), m))
  {
    LastOfGreedy(ps, m);
    if n < |ps| - 1 {
      GreedyAt(ps[..|ps| - 1], m, n);
      PrefixOfGreedy(ps, m, n, ps[..|ps| - 1]);
    }
  }

  lemma {:induction false} SumStops(s: seq<Path>, n: nat, m: map<Path, real>)
    requires n <= |s| && forall i | n <= i < |s| :: s[i] !in m
    ensures SumOver(s, m) == SumOver(s[..n], m)
  {
    if n < |s| {
      SumStops(s[..|s| - 1], n, m);
      assert s[..|s| - 1][..n] == s[..n];
    } else {
      assert s[..n] == s;
    }
  }

  lemma SortedIsBefore(order: seq<Path>, e: map<Path, real>, i: nat, n: nat)
    requires SortedBy(PlacementOrder(e), order) && Distinct(order) && (forall p | p in order :: p in e)
    requires i < |order| && n < |order|
    ensures Before(e, order[i], order[n]) <==> i < n
  {
    if i < n {
      assert PlacementOrder(e)(order[i], order[n]);
    } else if n < i {
      assert PlacementOrder(e)(order[n], order[i]);
      StringLeqTotal(order[i].text, order[n].text);
    }
  }

  lemma {:induction false} LoadOfEarlier(order: seq<Path>, e: map<Path, real>, f: map<Path, nat>, n: nat, j: nat)
    requires SortedBy(PlacementOrder(e), order) && Distinct(order) && n < |order|
    requires forall p | p in order :: p in e && p in f
    ensures Load(Times(order[..n], e), Along(order[..n], f), j) == LoadBefore(order, e, f, order[n], j)
  {
    var m := map q | q in e && q in f && Before(e, q, order[n]) && f[q] == j :: e[q];
    forall i | 0 <= i < |order| ensures Before(e, order[i], order[n]) <==> i < n {
      SortedIsBefore(order, e, i, n);
    }
    SumStops(order, n, m);
    LoadAlong(order[..n], e, f, j);
    SumAgrees(order[..n], m, map p | p in e && p in f && f[p] == j :: e[p]);
  }

  lemma {:induction false} PlacedAtLeast(order: seq<Path>, e: map<Path, real>, f: map<Path, nat>, count: nat, n: nat)
    requires count >= 1 && SortedBy(PlacementOrder(e), order) && Distinct(order) && n < |order|
    requires forall p | p in order :: p in e && p in f
    requires Along(order, f) == Greedy(Times(order, e), count)
    ensures f[order[n]] < count
    ensures forall j: nat | j < count ::
              LoadBefore(order, e, f, order[n], f[order[n]]) <= LoadBefore(order, e, f, order[n], j)
              && (j < f[order[n]] ==>
                    LoadBefore(order, e, f, order[n], f[order[n]]) < LoadBefore(order, e, f, order[n], j))
  {
    var ps, g := Times(order[..n], e), Along(order[..n], f);
    GreedyAt(Times(order, e), count, n);
    assert Times(order, e)[..n] == ps && Along(order, f)[..n] == g;
    assert f[order[n]] == LeastLoaded(Loads(ps, g, count));
    forall j: nat | j < count ensures Loads(ps, g, count)[j] == LoadBefore(order, e, f, order[n], j) {
      LoadOfEarlier(order, e, f, n, j);
    }
  }

  /** `p` is on the first of the shards that the modules before it load least. */
  ghost predicate OnLeastLoaded(keys: seq<Path>, e: map<Path, real>, f: map<Path, nat>, count: nat, p: Path) {
    && p in f && f[p] < count
    && forall j: nat | j < count ::
         && LoadBefore(keys, e, f, p, f[p]) <= LoadBefore(keys, e, f, p, j)
         && (j < f[p] ==> LoadBefore(keys, e, f, p, f[p]) < LoadBefore(keys, e, f, p, j))
  }

  lemma {:induction false} SameLoads(keys: seq<Path>, order: seq<Path>, e: map<Path, real>, f: map<Path, nat>, p: Path)
    requires multiset(keys) == multiset(order)
    ensures forall j: nat :: LoadBefore(keys, e, f, p, j) == LoadBefore(order, e, f, p, j)
  {
    forall j: nat ensures LoadBefore(keys, e, f, p, j) == LoadBefore(order, e, f, p, j) {
      SumForgetsOrder(keys, order, map q | q in e && q in f && Before(e, q, p) && f[q] == j :: e[q]);
    }
  }

  lemma {:induction false} InOrderOnLeastLoaded(order: seq<Path>, e: map<Path, real>, f: map<Path, nat>, count: nat,
                                                p: Path)
    requires count >= 1 && SortedBy(PlacementOrder(e), order) && Distinct(order) && p in order
    requires (forall q | q in order :: q in e) && f == Placed(order, Greedy(Times(order, e), count))
    ensures OnLeastLoaded(order, e, f, count, p)
  {
    GreedyAlong(order, e, f, count);
    var n :| 0 <= n < |order| && order[n] == p;
    PlacedAtLeast(order, e, f, count, n);
  }

  lemma {:induction false} AssignedOnLeastLoaded(keys: seq<Path>, e: map<Path, real>, count: nat, p: Path)
    requires count >= 1 && Distinct(keys) && p in keys && forall q | q in keys :: q in e
    ensures OnLeastLoaded(keys, e, Assign(keys, e, count), count, p)
  {
    var order := Sort(PlacementOrder(e), keys);
    PlacementOrderIsTotal(e);
    SortIsSorted(PlacementOrder(e), keys);
    SortKeepsContents(PlacementOrder(e), keys);
    SortKeepsMembers(PlacementOrder(e), keys);
    InOrderOnLeastLoaded(order, e, Assign(keys, e, count), count, p);
    SameLoads(keys, order, e, Assign(keys, e, count), p);
  }

  /** Every module that occurs is on the first of the shards that the modules before it load least. */
  lemma {:induction false} EachOnLeastLoaded(items: seq<NodeId>, durations: map<Path, real>, count: nat, p: Path)
    requires count >= 1 && Seen(items, p)
    ensures OnLeastLoaded(Keys(items), Expected(items, durations), ShardOf(items, durations, count), count, p)
  {
    KeysAreSeen(items, p);
    KeysAreDistinct(items);
    AssignedOnLeastLoaded(Keys(items), Expected(items, durations), count, p);
  }
}
