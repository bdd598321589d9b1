/** Which column an item belongs to, told from the columns alone (backend/agent/miro_generation.py). */
module MiroColumns {
  import opened MiroClusters
  import opened Sequences
  import opened Sorting

  function TotalX(points: Points, es: seq<nat>): real {
    if es == [] then 0.0 else TotalX(points, es[..|es| - 1]) + At(points, es[|es| - 1]).x
  }

  /** Item `i` is within 120 of the mean place of `es`. */
  ghost predicate Close(points: Points, es: seq<nat>, i: nat) {
    es != [] && -120.0 <= At(points, i).x - TotalX(points, es) / |es| as real <= 120.0
  }

  lemma {:induction false} SumIsTotal(points: Points, es: seq<nat>, n: nat)
    requires n <= |es|
    ensures SumX(points, es, n) == TotalX(points, es[..n])
  {
    if n > 0 {
      SumIsTotal(points, es, n - 1);
      assert es[..n][..n - 1] == es[..n - 1];
    }
  }

  lemma NearIsClose(points: Points, es: seq<nat>, i: nat)
    requires es != []
    ensures Near(points, es, i) <==> Close(points, es, i)
  {
    SumIsTotal(points, es, |es|);
    assert es[..|es|] == es;
  }

  /** Those of the first `n` items that are in the column. */
  function Members(sorted: seq<nat>, n: nat, column: Column): seq<nat>
    requires n <= |sorted|
  {
    if n == 0 then []
    else Members(sorted, n - 1, column) + if sorted[n - 1] in column then [sorted[n - 1]] else []
  }

  lemma {:induction false} SameMembers(sorted: seq<nat>, n: nat, column: Column, other: Column)
    requires n <= |sorted| && forall x :: x in column <==> x in other
    ensures Members(sorted, n, column) == Members(sorted, n, other)
  {
    if n > 0 {
      SameMembers(sorted, n - 1, column, other);
    }
  }

  lemma {:induction false} ClustersGrow(points: Points, sorted: seq<nat>, n: nat, m: nat)
    requires n <= m <= |sorted|
    ensures |Clusters(points, sorted, n)| <= |Clusters(points, sorted, m)|
    ensures forall c, x | 0 <= c < |Clusters(points, sorted, n)| && x in Clusters(points, sorted, n)[c] ::
              x in Clusters(points, sorted, m)[c]
  {
    if n < m {
      ClustersGrow(points, sorted, n, m - 1);
    }
  }

  /** The cluster that item number `n` joins. */
  function Joined(points: Points, sorted: seq<nat>, n: nat): nat
    requires n < |sorted|
  {
    FirstNear(points, Clusters(points, sorted, n), sorted[n], 0)
  }

  lemma JoinedExactly(points: Points, sorted: seq<nat>, n: nat, all: seq<Column>, c: nat)
    requires Distinct(sorted) && n < |sorted| && all == Clusters(points, sorted, |sorted|) && c < |all|
    ensures sorted[n] in all[c] <==> c == Joined(points, sorted, n)
    ensures Joined(points, sorted, n) < |all|
  {
    var j, next := Joined(points, sorted, n), Clusters(points, sorted, n + 1);
    assert j < |next| && sorted[n] in next[j];
    ClustersGrow(points, sorted, n + 1, |sorted|);
    ClustersPartition(points, sorted, |sorted|);
  }

  /** Column `c`, empty if there are not that many. */
  function ColumnAt(columns: seq<Column>, c: nat): Column {
    if c < |columns| then columns[c] else []
  }

  lemma JoinedAt(before: seq<Column>, i: nat, j: nat, c: nat)
    requires j <= |before|
    ensures ColumnAt(Join(before, i, j), c) == ColumnAt(before, c) + if c == j then [i] else []
  {
  }

  lemma NextCluster(points: Points, sorted: seq<nat>, n: nat, c: nat)
    requires n < |sorted|
    ensures ColumnAt(Clusters(points, sorted, n + 1), c)
         == ColumnAt(Clusters(points, sorted, n), c) + if c == Joined(points, sorted, n) then [sorted[n]] else []
  {
    JoinedAt(Clusters(points, sorted, n), sorted[n], Joined(points, sorted, n), c);
  }

  lemma NextMember(sorted: seq<nat>, n: nat, column: Column)
    requires n < |sorted|
    ensures Members(sorted, n + 1, column)
         == Members(sorted, n, column) + if sorted[n] in column then [sorted[n]] else []
  {
  }

  lemma NextAgree(points: Points, sorted: seq<nat>, n: nat, column: Column, c: nat)
    requires n < |sorted| && (sorted[n] in column <==> c == Joined(points, sorted, n))
    requires Members(sorted, n, column) == ColumnAt(Clusters(points, sorted, n), c)
    ensures Members(sorted, n + 1, column) == ColumnAt(Clusters(points, sorted, n + 1), c)
  {
    NextCluster(points, sorted, n, c);
    NextMember(sorted, n, column);
  }

  /** The clusters of the first items are what these items make of the final clusters. */
  lemma {:induction false} MembersAreClusters(points: Points, sorted: seq<nat>, n: nat, all: seq<Column>, c: nat)
    requires Distinct(sorted) && n <= |sorted| && all == Clusters(points, sorted, |sorted|) && c < |all|
    ensures Members(sorted, n, all[c]) == ColumnAt(Clusters(points, sorted, n), c)
  {
    if n > 0 {
      MembersAreClusters(points, sorted, n - 1, all, c);
      JoinedExactly(points, sorted, n - 1, all, c);
      NextAgree(points, sorted, n - 1, all[c], c);
    }
  }

  /** The columns with a mean place within 120 of item `i`. */
  ghost function CloseColumns(points: Points, members: seq<Column>, i: nat): set<nat> {
    set c: nat | c < |members| && Close(points, members[c], i)
  }

  /** Of columns with these members so far, an item belongs to the first close one, else to the first empty one. */
  ghost predicate Belongs(close: set<nat>, members: seq<Column>, c: nat)
    requires c < |members|
  {
    if close != {} then c in close && forall d: nat | d < c :: d !in close
    else members[c] == [] && forall d: nat | d < c :: members[d] != []
  }

  lemma FirstBelongs(close: set<nat>, members: seq<Column>, f: nat, c: nat)
    requires f < |members| && c < |members|
    requires forall d: nat | d < f :: d !in close && members[d] != []
    requires f in close || (close == {} && members[f] == [])
    ensures c == f <==> Belongs(close, members, c)
  {
  }

  lemma NearAreClose(points: Points, now: seq<Column>, members: seq<Column>, i: nat, d: nat)
    requires NonEmpty(now) && |now| <= |members| && d < |members| && members[d] == ColumnAt(now, d)
    ensures d in CloseColumns(points, members, i) <==> d < |now| && Near(points, now[d], i)
  {
    if d < |now| {
      NearIsClose(points, now[d], i);
    }
  }

  lemma FirstNearExactly(points: Points, now: seq<Column>, members: seq<Column>, close: set<nat>, c: nat, i: nat)
    requires NonEmpty(now) && |now| <= |members| && c < |members| && close == CloseColumns(points, members, i)
    requires forall d | 0 <= d < |members| :: members[d] == ColumnAt(now, d)
    requires FirstNear(points, now, i, 0) < |members|
    ensures c == FirstNear(points, now, i, 0) <==> Belongs(close, members, c)
  {
    var f := FirstNear(points, now, i, 0);
    forall d: nat | d < |members| ensures d in close <==> d < |now| && Near(points, now[d], i) {
      NearAreClose(points, now, members, i, d);
    }
    FirstBelongs(close, members, f, c);
  }

  /** What every column has of the first `n` items. */
  ghost function MembersOf(sorted: seq<nat>, n: nat, columns: seq<Column>): (r: seq<Column>)
    requires n <= |sorted|
    ensures |r| == |columns| && forall d | 0 <= d < |r| :: r[d] == Members(sorted, n, columns[d])
  {
    seq(|columns|, d requires 0 <= d < |columns| => Members(sorted, n, columns[d]))
  }

  lemma ClusterExactly(points: Points, sorted: seq<nat>, n: nat, all: seq<Column>, c: nat)
    requires Distinct(sorted) && n < |sorted| && all == Clusters(points, sorted, |sorted|) && c < |all|
    ensures var members := MembersOf(sorted, n, all);
            sorted[n] in all[c] <==> Belongs(CloseColumns(points, members, sorted[n]), members, c)
  {
    ClustersGrow(points, sorted, n, |sorted|);
    JoinedExactly(points, sorted, n, all, c);
    var now, members := Clusters(points, sorted, n), MembersOf(sorted, n, all);
    forall d | 0 <= d < |members| ensures members[d] == ColumnAt(now, d) {
      MembersAreClusters(points, sorted, n, all, d);
    }
    FirstNearExactly(points, now, members, CloseColumns(points, members, sorted[n]), c, sorted[n]);
  }

  /**
   In the order of their places from left to right, an item is in the first column whose members so far have
   a mean place within 120 of it, and starts a new column when there is none.
   */
  lemma ColumnExactly(points: Points, items: seq<nat>, n: nat, c: nat)
    requires Distinct(items) && n < |Sort(ByX(points), items)| && c < |Columns(points, items)|
    ensures var sorted, columns := Sort(ByX(points), items), Columns(points, items);
            var members := MembersOf(sorted, n, columns);
            sorted[n] in columns[c] <==> Belongs(CloseColumns(points, members, sorted[n]), members, c)
  {
    var sorted, columns := Sort(ByX(points), items), Columns(points, items);
    var all := Clusters(points, sorted, |sorted|);
    SortKeepsMembers(ByX(points), items);
    ClusterExactly(points, sorted, n, all, c);
    forall d | 0 <= d < |columns|
      ensures Members(sorted, n, columns[d]) == Members(sorted, n, all[d]) &&
          (sorted[n] in columns[d] <==> sorted[n] in all[d])
    {
      SortKeepsMembers(ByY(points), all[d]);
      SameMembers(sorted, n, columns[d], all[d]);
    }
    assert MembersOf(sorted, n, columns) == MembersOf(sorted, n, all);
  }

  /** That order: by horizontal place, and at the same one by vertical place. */
  lemma LeftToRight(points: Points, items: seq<nat>, n: nat, m: nat)
    requires n < m < |Sort(ByX(points), items)|
    ensures var p, q := At(points, Sort(ByX(points), items)[n]), At(points, Sort(ByX(points), items)[m]);
            p.x < q.x || (p.x == q.x && p.y <= q.y)
  {
    assert TotalPreorder(ByX(points));
    SortIsSorted(ByX(points), items);
    assert ByX(points)(Sort(ByX(points), items)[n], Sort(ByX(points), items)[m]);
  }
}
