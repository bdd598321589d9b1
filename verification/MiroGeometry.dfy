/** What a laid-out board looks like (backend/agent/miro_generation.py). */
module MiroGeometry {
  import opened MiroClusters
  import opened MiroItems
  import opened MiroLayout
  import opened Sequences

  function Edge(item: Item): real { item.Y() + item.Height() }

  /** The item is inside its frame, and inside the right padding when its width leaves room for both paddings. */
  predicate InFrame(frame: Item, item: Item, bottom: real) {
    && item.X() >= frame.X() + LEFT
    && (item.Width() <= frame.Width() - LEFT - RIGHT ==> item.X() + item.Width() <= frame.X() + frame.Width() - RIGHT)
    && item.Y() >= frame.Y() + TOP && Edge(item) <= bottom
  }

  predicate ChildLaid(frame: Item, before: Item, after: Item, bottom: real) {
    && SameButPlace(before, after) && after.x.Some? && after.y.Some? && after.height.Some?
    && after.Height() == EstimatedHeight(before)
    && InFrame(frame, after, bottom)
  }

  /** The first item is at the top, and every other one a gap below the item before it. */
  ghost predicate Stacked(frame: Item, r: Board, column: Column)
    requires InBoard(r, column)
  {
    && (column != [] ==> r[column[0]].Y() == ContentTop(frame))
    && forall k | 0 < k < |column| :: r[column[k]].Y() == PlacedY(frame, Edge(r[column[k - 1]]) + GAP)
  }

  /** The space between the left and right paddings. */
  function Inner(frame: Item): real { frame.Width() - LEFT - RIGHT }

  function RightEdge(frame: Item): real { frame.X() + frame.Width() - RIGHT }

  /**
   Of an item that should start at `wish`: it does when it then lies between the paddings, it ends flush with
   the right one when it would stick out there, and starts at the left one otherwise.
   */
  predicate MovedBetween(frame: Item, item: Item, wish: real, x: real) {
    if item.Width() > Inner(frame) || wish < frame.X() + LEFT then x == frame.X() + LEFT
    else if wish + item.Width() > RightEdge(frame) then x + item.Width() == RightEdge(frame)
    else x == wish
  }

  /** Where the topmost item of a column was; at the left padding when it had no place. */
  function Wish(frame: Item, first: Item): real {
    if first.x.Some? then first.x.value else frame.X() + LEFT
  }

  /** The topmost item stays where it was, and the others stand below it, as far as the paddings allow. */
  ghost predicate Aligned(frame: Item, items: Board, r: Board, column: Column)
    requires |r| == |items| && InBoard(items, column)
  {
    forall k | 0 <= k < |column| ::
      MovedBetween(frame, items[column[k]],
                   if k == 0 then Wish(frame, items[column[0]]) else r[column[0]].X(), r[column[k]].X())
  }

  ghost predicate ColumnLaid(frame: Item, items: Board, r: Board, column: Column, bottom: real)
    requires |r| == |items| && InBoard(items, column)
  {
    && (forall k | 0 <= k < |column| :: ChildLaid(frame, items[column[k]], r[column[k]], bottom))
    && Stacked(frame, r, column) && Aligned(frame, items, r, column)
  }

  ghost predicate Untouched(items: Board, r: Board, column: Column)
    requires |r| == |items|
  {
    forall i | 0 <= i < |items| && i !in column :: r[i] == items[i]
  }

  // ----- one column

  ghost predicate NotAmong(column: Column, n: nat, i: nat)
    requires n <= |column|
  {
    forall k | 0 <= k < n :: column[k] != i
  }

  /** The first `n` items of the column are inside the frame and nothing else changed. */
  ghost predicate PushedInside(frame: Item, s: Stack, r: Stack, column: Column, n: nat)
    requires n <= |column| && InBoard(s.items, column) && |r.items| == |s.items|
  {
    && (forall i | 0 <= i < |s.items| && NotAmong(column, n, i) :: r.items[i] == s.items[i])
    && (forall k | 0 <= k < n :: ChildLaid(frame, s.items[column[k]], r.items[column[k]], r.bottom))
    && r.bottom >= s.bottom
  }

  /** The first `n` items of the column are stacked down from the cursor. */
  ghost predicate PushedDown(frame: Item, cursor: real, r: Stack, column: Column, n: nat)
    requires n <= |column| && InBoard(r.items, column)
  {
    && (n == 0 ==> r.cursor == cursor)
    && (n > 0 ==> r.items[column[0]].Y() == PlacedY(frame, cursor) && r.cursor == Edge(r.items[column[n - 1]]) + GAP)
    && forall k | 0 < k < n :: r.items[column[k]].Y() == PlacedY(frame, Edge(r.items[column[k - 1]]) + GAP)
  }

  lemma PlacedBetween(frame: Item, first: Item, item: Item)
    ensures MovedBetween(frame, first, Wish(frame, first), PlacedX(frame, ColumnLeft(frame, first), first))
    ensures PlacedX(frame, ColumnLeft(frame, first), first) == ColumnLeft(frame, first)
    ensures MovedBetween(frame, item, ColumnLeft(frame, first), PlacedX(frame, ColumnLeft(frame, first), item))
  {
  }

  lemma PushKeepsInside(frame: Item, left: real, s: Stack, r: Stack, column: Column, n: nat)
    requires n < |column| && InBoard(s.items, column) && |r.items| == |s.items| && Distinct(column)
    requires PushedInside(frame, s, r, column, n)
    ensures PushedInside(frame, s, Push(frame, left, r, column[n]), column, n + 1)
  {
  }

  lemma PushKeepsDown(frame: Item, left: real, cursor: real, r: Stack, column: Column, n: nat)
    requires n < |column| && InBoard(r.items, column) && Distinct(column)
    requires PushedDown(frame, cursor, r, column, n)
    ensures PushedDown(frame, cursor, Push(frame, left, r, column[n]), column, n + 1)
  {
  }

  lemma {:induction false} PushAllPushed(frame: Item, left: real, s: Stack, column: Column, n: nat)
    requires n <= |column| && InBoard(s.items, column) && Distinct(column)
    ensures PushedInside(frame, s, PushAll(frame, left, s, column, n), column, n)
    ensures PushedDown(frame, s.cursor, PushAll(frame, left, s, column, n), column, n)
  {
    if n > 0 {
      var r := PushAll(frame, left, s, column, n - 1);
      PushAllPushed(frame, left, s, column, n - 1);
      PushKeepsInside(frame, left, s, r, column, n - 1);
      PushKeepsDown(frame, left, s.cursor, r, column, n - 1);
    }
  }

  /** An item is placed from the column's left edge, and later items do not move it. */
  lemma {:induction false} PlacedAcross(frame: Item, left: real, s: Stack, column: Column, n: nat, k: nat)
    requires k < n <= |column| && InBoard(s.items, column) && Distinct(column)
    ensures PushAll(frame, left, s, column, n).items[column[k]].X() == PlacedX(frame, left, s.items[column[k]])
  {
    var r := PushAll(frame, left, s, column, n - 1);
    if k < n - 1 {
      PlacedAcross(frame, left, s, column, n - 1, k);
    } else {
      PushAllPushed(frame, left, s, column, n - 1);
      assert NotAmong(column, n - 1, column[k]);
    }
  }

  lemma ColumnIsAligned(frame: Item, items: Board, start: real, column: Column)
    requires InBoard(items, column) && Distinct(column)
    ensures Aligned(frame, items, StackColumn(frame, items, start, column).items, column)
  {
    if column != [] {
      var first, s := items[column[0]], Stack(items, ContentTop(frame), start);
      forall k | 0 <= k < |column|
        ensures StackColumn(frame, items, start, column).items[column[k]].X()
             == PlacedX(frame, ColumnLeft(frame, first), items[column[k]])
      {
        PlacedAcross(frame, ColumnLeft(frame, first), s, column, |column|, k);
      }
      forall k | 0 <= k < |column| {
        PlacedBetween(frame, first, items[column[k]]);
      }
    }
  }

  lemma ColumnIsLaid(frame: Item, items: Board, start: real, column: Column)
    requires InBoard(items, column) && Distinct(column)
    ensures
      var r := StackColumn(frame, items, start, column);
      ColumnLaid(frame, items, r.items, column, r.bottom) && Untouched(items, r.items, column) && r.bottom >= start
  {
    ColumnIsAligned(frame, items, start, column);
    if column != [] {
      var s := Stack(items, ContentTop(frame), start);
      PushAllPushed(frame, ColumnLeft(frame, items[column[0]]), s, column, |column|);
      forall i: nat | i < |items| && i !in column ensures NotAmong(column, |column|, i) {
      }
    }
  }

  // ----- one frame

  /** A column laid out stays so when the lowest edge moves down and nothing in it changes. */
  lemma StaysLaid(frame: Item, items: Board, r: Board, q: Board, column: Column, bottom: real, lower: real)
    requires |r| == |items| == |q| && InBoard(items, column) && ColumnLaid(frame, items, r, column, bottom)
    requires lower >= bottom && forall k | 0 <= k < |column| :: q[column[k]] == r[column[k]]
    ensures ColumnLaid(frame, items, q, column, lower)
  {
  }

  /** The same for the board before the layout. */
  lemma LaidFrom(frame: Item, items: Board, before: Board, r: Board, column: Column, bottom: real)
    requires |r| == |items| == |before| && InBoard(items, column) && ColumnLaid(frame, before, r, column, bottom)
    requires forall k | 0 <= k < |column| :: before[column[k]] == items[column[k]]
    ensures ColumnLaid(frame, items, r, column, bottom)
  {
  }

  lemma {:induction false} OthersKept(frame: Item, items: Board, columns: seq<Column>, n: nat, i: nat)
    requires n <= |columns| && AllInBoard(items, columns) && i < |items|
    requires forall c | 0 <= c < |columns| :: Distinct(columns[c])
    requires forall c | 0 <= c < n :: i !in columns[c]
    ensures StackColumns(frame, items, columns, n).items[i] == items[i]
  {
    if n > 0 {
      OthersKept(frame, items, columns, n - 1, i);
      var before := StackColumns(frame, items, columns, n - 1);
      ColumnIsLaid(frame, before.items, before.bottom, columns[n - 1]);
    }
  }

  lemma NotInEarlier(columns: seq<Column>, c: nat, k: nat, d: nat)
    requires Apart(columns) && c < |columns| && k < |columns[c]| && d < |columns| && c != d
    ensures columns[c][k] !in columns[d]
  {
  }

  /** After `n` columns, column `c` is laid out, and no later column disturbs it. */
  lemma {:induction false} EachColumnLaid(frame: Item, items: Board, columns: seq<Column>, n: nat, c: nat)
    requires c < n <= |columns| && AllInBoard(items, columns) && Apart(columns)
    requires forall c | 0 <= c < |columns| :: Distinct(columns[c])
    ensures ColumnLaid(frame, items, StackColumns(frame, items, columns, n).items, columns[c],
                       StackColumns(frame, items, columns, n).bottom)
  {
    var before := StackColumns(frame, items, columns, n - 1);
    var after := StackColumn(frame, before.items, before.bottom, columns[n - 1]);
    ColumnIsLaid(frame, before.items, before.bottom, columns[n - 1]);
    if c == n - 1 {
      forall k | 0 <= k < |columns[c]| ensures before.items[columns[c][k]] == items[columns[c][k]] {
        forall d | 0 <= d < c ensures columns[c][k] !in columns[d] {
          NotInEarlier(columns, c, k, d);
        }
        OthersKept(frame, items, columns, n - 1, columns[c][k]);
      }
      LaidFrom(frame, items, before.items, after.items, columns[c], after.bottom);
    } else {
      EachColumnLaid(frame, items, columns, n - 1, c);
      forall k | 0 <= k < |columns[c]| ensures after.items[columns[c][k]] == before.items[columns[c][k]] {
        NotInEarlier(columns, c, k, n - 1);
      }
      StaysLaid(frame, items, before.items, after.items, columns[c], before.bottom, after.bottom);
    }
  }

  lemma {:induction false} BottomFalls(frame: Item, items: Board, columns: seq<Column>, n: nat)
    requires n <= |columns| && AllInBoard(items, columns)
    requires forall c | 0 <= c < |columns| :: Distinct(columns[c])
    ensures StackColumns(frame, items, columns, n).bottom >= ContentTop(frame)
  {
    if n > 0 {
      BottomFalls(frame, items, columns, n - 1);
      var before := StackColumns(frame, items, columns, n - 1);
      ColumnIsLaid(frame, before.items, before.bottom, columns[n - 1]);
    }
  }

  /** The lowest edge that the frame leaves to its content. */
  function ContentBottom(frame: Item): real { Edge(frame) - BOTTOM }

  predicate FrameGrown(before: Item, after: Item) {
    && after == before.(height := after.height) && after.Height() >= before.Height()
    && (before.height.Some? ==> after.height.Some?)
  }

  lemma GrownFits(frame: Item, bottom: real)
    requires bottom >= ContentTop(frame)
    ensures FrameGrown(frame, Grown(frame, bottom)) && ContentBottom(Grown(frame, bottom)) >= bottom
  {
  }

  lemma ColumnsAreChildren(items: Board, f: nat, c: nat, i: nat)
    requires f < |items| && c < |FrameColumns(items, f)| && i in FrameColumns(items, f)[c]
    ensures IsChild(items, f, i)
  {
    ColumnsInBoard(items, f);
    assert i in Children(items, f, |items|);
  }

  lemma HasChildren(items: Board, f: nat, c: nat)
    requires f < |items| && c < |FrameColumns(items, f)|
    ensures Children(items, f, |items|) != []
  {
  }

  /** Laying out one frame changes only its children and its own height. */
  lemma LayFrameKeepsOthers(items: Board, f: nat, i: nat)
    requires f < |items| && i < |items| && i != f && !IsChild(items, f, i)
    ensures LayFrame(items, f)[i] == items[i]
  {
    var columns := FrameColumns(items, f);
    ColumnsInBoard(items, f);
    assert i !in Children(items, f, |items|);
    OthersKept(items[f], items, columns, |columns|, i);
  }

  lemma FrameIsLaid(items: Board, f: nat, c: nat)
    requires f < |items| && items[f].kind == Frame && c < |FrameColumns(items, f)|
    ensures InBoard(items, FrameColumns(items, f)[c])
    ensures var r := LayFrame(items, f); ColumnLaid(items[f], items, r, FrameColumns(items, f)[c], ContentBottom(r[f]))
  {
    var columns := FrameColumns(items, f);
    HasChildren(items, f, c);
    ColumnsInBoard(items, f);
    var s := StackColumns(items[f], items, columns, |columns|);
    EachColumnLaid(items[f], items, columns, |columns|, c);
    BottomFalls(items[f], items, columns, |columns|);
    GrownFits(items[f], s.bottom);
    forall k | 0 <= k < |columns[c]| ensures columns[c][k] != f {
      ColumnsAreChildren(items, f, c, columns[c][k]);
    }
    StaysLaid(items[f], items, s.items, LayFrame(items, f), columns[c], s.bottom, ContentBottom(LayFrame(items, f)[f]));
  }

  lemma FrameOnlyGrows(items: Board, f: nat)
    requires f < |items| && items[f].kind == Frame
    ensures FrameGrown(items[f], LayFrame(items, f)[f])
  {
    if Children(items, f, |items|) != [] {
      ColumnsInBoard(items, f);
      var columns := FrameColumns(items, f);
      BottomFalls(items[f], items, columns, |columns|);
      GrownFits(items[f], StackColumns(items[f], items, columns, |columns|).bottom);
    }
  }

  // ----- the whole board

  lemma SameChild(items: Board, r: Board, f: nat, i: nat)
    requires SameButPlaces(items, r) && f < |items|
    ensures IsChild(r, f, i) <==> IsChild(items, f, i)
  {
  }

  lemma NextFrameKeeps(items: Board, n: nat, i: nat)
    requires n < |items| && i < |items| && (IsFrame(items, n) ==> i != n && !IsChild(items, n, i))
    ensures LayUpTo(items, n + 1)[i] == LayUpTo(items, n)[i]
  {
    if IsFrame(items, n) {
      LayUpToKeeps(items, n);
      SameChild(items, LayUpTo(items, n), n, i);
      LayFrameKeepsOthers(LayUpTo(items, n), n, i);
    }
  }

  /** An item over time: after the first `n` turns. */
  ghost function History(items: Board, i: nat): (r: seq<Item>)
    requires i < |items|
    ensures |r| == |items| + 1 && forall n | 0 <= n <= |items| :: r[n] == LayUpTo(items, n)[i]
  {
    seq(|items| + 1, n requires 0 <= n <= |items| => LayUpTo(items, n)[i])
  }

  lemma {:induction false} Constant(history: seq<Item>, m: nat, n: nat)
    requires m <= n < |history|
    requires forall k | m <= k < n :: history[k + 1] == history[k]
    ensures history[n] == history[m]
  {
    if m < n {
      Constant(history, m, n - 1);
    }
  }

  /** The item is no child of the frames from `m` to `n`, and not one of them. */
  ghost predicate OutOfReach(items: Board, m: nat, n: nat, i: nat)
    requires n <= |items|
  {
    forall f | m <= f < n && IsFrame(items, f) :: i != f && !IsChild(items, f, i)
  }

  lemma OutOfReachKept(items: Board, m: nat, n: nat, i: nat)
    requires m <= n <= |items| && i < |items| && OutOfReach(items, m, n, i)
    ensures LayUpTo(items, n)[i] == LayUpTo(items, m)[i]
  {
    var history := History(items, i);
    forall k | m <= k < n ensures history[k + 1] == history[k] {
      NextFrameKeeps(items, k, i);
    }
    Constant(history, m, n);
  }

  /** A child belongs to one frame only. */
  lemma OneFrame(items: Board, f: nat, g: nat, i: nat)
    requires IsFrame(items, f) && IsFrame(items, g) && IsChild(items, f, i)
    ensures i != g && (IsChild(items, g, i) ==> g == f)
  {
  }

  /** When its turn comes, a frame and its children are as they were. */
  lemma FrameWaits(items: Board, f: nat)
    requires IsFrame(items, f)
    ensures LayUpTo(items, f)[f] == items[f]
    ensures Children(LayUpTo(items, f), f, |items|) == Children(items, f, |items|)
    ensures forall i: nat | IsChild(items, f, i) :: LayUpTo(items, f)[i] == items[i]
    ensures FrameColumns(LayUpTo(items, f), f) == FrameColumns(items, f)
  {
    var before := LayUpTo(items, f);
    LayUpToKeeps(items, f);
    SameChildrenAt(items, before, f);
    OutOfReachKept(items, 0, f, f);
    forall i: nat | IsChild(items, f, i) ensures before[i] == items[i] {
      forall g: nat | g < f && IsFrame(items, g) ensures i != g && !IsChild(items, g, i) {
        OneFrame(items, f, g, i);
      }
      OutOfReachKept(items, 0, f, i);
    }
    var children := Children(items, f, |items|);
    assert PointsOf(before, children) == PointsOf(items, children);
  }

  /** After its turn, a frame and its children stay as they are. */
  lemma FrameRests(items: Board, f: nat, i: nat)
    requires IsFrame(items, f) && (i == f || IsChild(items, f, i))
    ensures Layout(items)[i] == LayUpTo(items, f + 1)[i]
  {
    forall g: nat | f < g < |items| && IsFrame(items, g) ensures i != g && !IsChild(items, g, i) {
      if i != f { OneFrame(items, f, g, i); }
    }
    OutOfReachKept(items, f + 1, |items|, i);
  }

  /** Items that are neither frames nor children of one are left alone. */
  lemma OthersStay(items: Board, i: nat)
    requires i < |items| && OutOfReach(items, 0, |items|, i)
    ensures Layout(items)[i] == items[i]
  {
    OutOfReachKept(items, 0, |items|, i);
  }

  /** Frames never move and never shrink. */
  lemma FramesOnlyGrow(items: Board, f: nat)
    requires IsFrame(items, f)
    ensures FrameGrown(items[f], Layout(items)[f])
  {
    FrameWaits(items, f);
    FrameOnlyGrows(LayUpTo(items, f), f);
    FrameRests(items, f, f);
  }

  /** Every column of every frame ends up stacked with its gaps, inside the frame's paddings. */
  lemma ColumnsEndInside(items: Board, f: nat, c: nat)
    requires IsFrame(items, f) && c < |FrameColumns(items, f)|
    ensures InBoard(items, FrameColumns(items, f)[c])
    ensures ColumnLaid(items[f], items, Layout(items), FrameColumns(items, f)[c], ContentBottom(Layout(items)[f]))
  {
    var before, column, r := LayUpTo(items, f), FrameColumns(items, f)[c], Layout(items);
    FrameWaits(items, f);
    FrameIsLaid(before, f, c);
    var after := LayFrame(before, f);
    FrameRests(items, f, f);
    forall k | 0 <= k < |column| ensures before[column[k]] == items[column[k]] && r[column[k]] == after[column[k]] {
      ColumnsAreChildren(items, f, c, column[k]);
      FrameRests(items, f, column[k]);
    }
    LaidFrom(items[f], items, before, after, column, ContentBottom(after[f]));
    StaysLaid(items[f], items, after, r, column, ContentBottom(after[f]), ContentBottom(r[f]));
  }

  /**
   For every child of every frame of any board: it is in a column, inside the frame's top, bottom and
   left paddings, inside the right one when its width fits, and high enough for its text.
   */
  lemma ChildrenEndInside(items: Board, f: nat, i: nat)
    requires IsFrame(items, f) && IsChild(items, f, i)
    ensures InFrame(Layout(items)[f], Layout(items)[i], ContentBottom(Layout(items)[f]))
    ensures ChildLaid(items[f], items[i], Layout(items)[i], ContentBottom(Layout(items)[f]))
  {
    ColumnsInBoard(items, f);
    assert i in Children(items, f, |items|);
    var c :| 0 <= c < |FrameColumns(items, f)| && i in FrameColumns(items, f)[c];
    ColumnsEndInside(items, f, c);
    var k :| 0 <= k < |FrameColumns(items, f)[c]| && FrameColumns(items, f)[c][k] == i;
    assert ChildLaid(items[f], items[i], Layout(items)[i], ContentBottom(Layout(items)[f]));
    FramesOnlyGrow(items, f);
  }

  function Estimated(items: Board, i: nat): real {
    if i < |items| then EstimatedHeight(items[i]) else 0.0
  }

  /**
   An item lies a gap or more below every item listed before it in its column, unless one between is given a
   negative height.
   */
  lemma {:induction false} NoOverlap(items: Board, f: nat, c: nat, k: nat, l: nat)
    requires IsFrame(items, f) && c < |FrameColumns(items, f)| && k < l < |FrameColumns(items, f)[c]|
    requires forall j | k < j < l :: Estimated(items, FrameColumns(items, f)[c][j]) >= 0.0
    ensures FrameColumns(items, f)[c][k] < |items| && FrameColumns(items, f)[c][l] < |items|
    ensures Layout(items)[FrameColumns(items, f)[c][l]].Y() >= Edge(Layout(items)[FrameColumns(items, f)[c][k]]) + GAP
  {
    var column, r := FrameColumns(items, f)[c], Layout(items);
    ColumnsEndInside(items, f, c);
    assert r[column[l]].Y() == PlacedY(items[f], Edge(r[column[l - 1]]) + GAP);
    if k < l - 1 {
      NoOverlap(items, f, c, k, l - 1);
      assert ChildLaid(items[f], items[column[l - 1]], r[column[l - 1]], ContentBottom(r[f]));
    }
  }

  /** A column keeps its items in the vertical order they had. */
  lemma OrderKept(items: Board, f: nat, c: nat, k: nat, l: nat)
    requires f < |items| && c < |FrameColumns(items, f)| && k < l < |FrameColumns(items, f)[c]|
    ensures FrameColumns(items, f)[c][k] < |items| && FrameColumns(items, f)[c][l] < |items|
    ensures items[FrameColumns(items, f)[c][k]].Y() <= items[FrameColumns(items, f)[c][l]].Y()
  {
    var children, column := Children(items, f, |items|), FrameColumns(items, f)[c];
    ColumnsRunDown(PointsOf(items, children), children, c, k, l);
    ColumnsAreChildren(items, f, c, column[k]);
    ColumnsAreChildren(items, f, c, column[l]);
    assert column[k] in children && column[l] in children;
  }
}
