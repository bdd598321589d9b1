/** Grouping the items of a frame into columns (`_cluster_frame_columns` in backend/agent/miro_generation.py). */
module MiroClusters {
  import opened Sequences
  import opened Sorting

  datatype Point = Point(x: real, y: real)

  /** Where the items are, by their position on the board's item list. */
  type Points = map<nat, Point>

  type Column = seq<nat>

  const THRESHOLD := 120.0

  function At(points: Points, i: nat): Point {
    if i in points then points[i] else Point(0.0, 0.0)
  }

  predicate XFirst(p: Point, q: Point) {
    p.x < q.x || (p.x == q.x && p.y <= q.y)
  }

  predicate YFirst(p: Point, q: Point) {
    p.y < q.y || (p.y == q.y && p.x <= q.x)
  }

  function ByX(points: Points): (nat, nat) -> bool {
    (i: nat, j: nat) => XFirst(At(points, i), At(points, j))
  }

  function ByY(points: Points): (nat, nat) -> bool {
    (i: nat, j: nat) => YFirst(At(points, i), At(points, j))
  }

  function SumX(points: Points, column: Column, n: nat): real
    requires n <= |column|
  {
    if n == 0 then 0.0 else SumX(points, column, n - 1) + At(points, column[n - 1]).x
  }

  predicate Near(points: Points, column: Column, i: nat)
    requires column != []
  {
    var distance := At(points, i).x - SumX(points, column, |column|) / |column| as real;
    -THRESHOLD <= distance <= THRESHOLD
  }

  predicate NonEmpty(columns: seq<Column>) {
    forall c | 0 <= c < |columns| :: columns[c] != []
  }

  /** The first column near item `i`, from column `c` on. */
  function FirstNear(points: Points, columns: seq<Column>, i: nat, c: nat): (r: nat)
    requires c <= |columns| && NonEmpty(columns)
    ensures c <= r <= |columns|
    ensures forall d | c <= d < r :: !Near(points, columns[d], i)
    ensures r < |columns| ==> Near(points, columns[r], i)
    decreases |columns| - c
  {
    if c == |columns| || Near(points, columns[c], i) then c else FirstNear(points, columns, i, c + 1)
  }

  /** Item `i` joins column `c`, or starts a new one. */
  function Join(columns: seq<Column>, i: nat, c: nat): seq<Column>
    requires c <= |columns|
  {
    if c < |columns| then columns[c := columns[c] + [i]] else columns + [[i]]
  }

  /** The columns of the first `n` items. */
  function Clusters(points: Points, items: seq<nat>, n: nat): (r: seq<Column>)
    requires n <= |items|
    ensures NonEmpty(r)
  {
    if n == 0 then []
    else
      var before := Clusters(points, items, n - 1);
      Join(before, items[n - 1], FirstNear(points, before, items[n - 1], 0))
  }

  function SortColumns(points: Points, columns: seq<Column>): (r: seq<Column>)
    ensures |r| == |columns| && forall c | 0 <= c < |r| :: r[c] == Sort(ByY(points), columns[c])
  {
    seq(|columns|, c requires 0 <= c < |columns| => Sort(ByY(points), columns[c]))
  }

  function Columns(points: Points, items: seq<nat>): seq<Column> {
    var sorted := Sort(ByX(points), items);
    SortColumns(points, Clusters(points, sorted, |sorted|))
  }

  method ClusterFrameColumns(points: Points, items: seq<nat>) returns (r: seq<Column>)
    ensures r == Columns(points, items)
  {
    var sorted := Sort(ByX(points), items);
    if items == [] { return []; }
    var columns: seq<Column> := [];
    for n := 0 to |sorted|
      invariant columns == Clusters(points, sorted, n)
    {
      var c := 0;
      while c < |columns| && !Near(points, columns[c], sorted[n])
        invariant 0 <= c <= |columns| &&
            FirstNear(points, columns, sorted[n], 0) == FirstNear(points, columns, sorted[n], c)
      {
        c := c + 1;
      }
      if c < |columns| {
        columns := columns[c := columns[c] + [sorted[n]]];
      } else {
        columns := columns + [[sorted[n]]];
      }
    }
    r := SortColumns(points, columns);
  }

  // ----- every item is in exactly one column, from top to bottom

  ghost predicate Apart(columns: seq<Column>) {
    forall c, d, x | 0 <= c < |columns| && 0 <= d < |columns| && x in columns[c] && x in columns[d] :: c == d
  }

  ghost predicate Covers(columns: seq<Column>, items: seq<nat>) {
    forall x :: x in items <==> exists c :: 0 <= c < |columns| && x in columns[c]
  }

  /** Each item is in exactly one column, once. */
  ghost predicate IsPartition(columns: seq<Column>, items: seq<nat>) {
    && (forall c | 0 <= c < |columns| :: Distinct(columns[c]))
    && Apart(columns) && Covers(columns, items)
  }

  lemma JoinKeepsPartition(columns: seq<Column>, items: seq<nat>, i: nat, c: nat)
    requires IsPartition(columns, items) && i !in items && c <= |columns|
    ensures IsPartition(Join(columns, i, c), items + [i])
  {
    var r := Join(columns, i, c);
    forall d, x | 0 <= d < |r| ensures x in r[d] <==> (d < |columns| && x in columns[d]) || (d == c && x == i) {
    }
    forall d | 0 <= d < |columns| ensures i !in columns[d] {
    }
    forall x ensures x in items + [i] <==> exists d :: 0 <= d < |r| && x in r[d] {
      if x in items {
        var d :| 0 <= d < |columns| && x in columns[d];
        assert x in r[d];
      } else if x == i {
        assert x in r[c];
      }
    }
  }

  lemma {:induction false} ClustersPartition(points: Points, items: seq<nat>, n: nat)
    requires n <= |items| && Distinct(items)
    ensures IsPartition(Clusters(points, items, n), items[..n])
  {
    if n > 0 {
      ClustersPartition(points, items, n - 1);
      var before := Clusters(points, items, n - 1);
      assert items[..n] == items[..n - 1] + [items[n - 1]];
      JoinKeepsPartition(before, items[..n - 1], items[n - 1], FirstNear(points, before, items[n - 1], 0));
    }
  }

  /** Every item is in exactly one column. */
  lemma ColumnsPartition(points: Points, items: seq<nat>)
    requires Distinct(items)
    ensures IsPartition(Columns(points, items), items)
  {
    var sorted := Sort(ByX(points), items);
    SortKeepsMembers(ByX(points), items);
    ClustersPartition(points, sorted, |sorted|);
    assert sorted[..|sorted|] == sorted;
    var clusters, columns := Clusters(points, sorted, |sorted|), Columns(points, items);
    forall c | 0 <= c < |columns|
      ensures Distinct(columns[c]) && forall x :: x in columns[c] <==> x in clusters[c]
    {
      SortKeepsMembers(ByY(points), clusters[c]);
    }
    assert Apart(columns);
    forall x ensures x in items <==> exists c :: 0 <= c < |columns| && x in columns[c] {
      if x in items {
        var c :| 0 <= c < |clusters| && x in clusters[c];
        assert x in columns[c];
      }
    }
  }

  lemma ByYIsOrder(points: Points)
    ensures TotalPreorder(ByY(points))
  {
  }

  /** A column lists its items from top to bottom, and from left to right at the same height. */
  lemma ColumnsRunDown(points: Points, items: seq<nat>, c: nat, k: nat, l: nat)
    requires c < |Columns(points, items)| && k < l < |Columns(points, items)[c]|
    ensures var p, q := At(points, Columns(points, items)[c][k]), At(points, Columns(points, items)[c][l]);
            p.y < q.y || (p.y == q.y && p.x <= q.x)
  {
    var sorted := Sort(ByX(points), items);
    ByYIsOrder(points);
    SortIsSorted(ByY(points), Clusters(points, sorted, |sorted|)[c]);
  }
}
