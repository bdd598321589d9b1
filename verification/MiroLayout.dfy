/** Stacking the items of a frame below each other (`normalize_miro_snapshot_layout` in
    backend/agent/miro_generation.py). */
module MiroLayout {
  import opened MiroClusters
  import opened MiroItems
  import opened MiroText
  import opened Results
  import opened Sequences

  const LEFT := 24.0
  const RIGHT := 24.0
  const TOP := 72.0
  const BOTTOM := 24.0
  const GAP := 24.0

  type Board = seq<Item>

  /** Frame `f`, unless a later frame has the same id. */
  predicate IsFrame(items: Board, f: nat) {
    && f < |items| && items[f].kind == Frame
    && forall g | f < g < |items| :: !(items[g].kind == Frame && items[g].id == items[f].id)
  }

  predicate IsChild(items: Board, f: nat, i: nat)
    requires f < |items|
  {
    i < |items| && HoldsText(items[i].kind) && items[i].parent == Some(items[f].id)
  }

  /** The children of frame `f` among the first `n` items. */
  function Children(items: Board, f: nat, n: nat): (r: seq<nat>)
    requires f < |items| && n <= |items|
    ensures forall i: nat :: i in r <==> i < n && IsChild(items, f, i)
    ensures Distinct(r)
  {
    if n == 0 then [] else Children(items, f, n - 1) + if IsChild(items, f, n - 1) then [n - 1] else []
  }

  function PointsOf(items: Board, children: seq<nat>): (r: Points)
    requires forall i | i in children :: i < |items|
    ensures r.Keys == set i | i in children
    ensures forall i | i in children :: r[i] == Point(items[i].X(), items[i].Y())
  {
    map i | i in children :: Point(items[i].X(), items[i].Y())
  }

  function FrameColumns(items: Board, f: nat): seq<Column>
    requires f < |items|
  {
    var children := Children(items, f, |items|);
    Columns(PointsOf(items, children), children)
  }

  function ContentTop(frame: Item): real { frame.Y() + TOP }

  /** The left edge of a column whose topmost item is `first`. */
  function ColumnLeft(frame: Item, first: Item): real {
    Max(frame.X() + LEFT,
        Min(if first.x.Some? then first.x.value else frame.X() + LEFT,
            frame.X() + frame.Width() - RIGHT - first.Width()))
  }

  function PlacedX(frame: Item, left: real, item: Item): real {
    Max(frame.X() + LEFT, Min(left, frame.X() + frame.Width() - RIGHT - item.Width()))
  }

  function PlacedY(frame: Item, cursor: real): real {
    Max(cursor, ContentTop(frame))
  }

  function PlacedItem(frame: Item, left: real, cursor: real, item: Item): Item {
    item.(x := Some(PlacedX(frame, left, item)), y := Some(PlacedY(frame, cursor)),
          height := Some(EstimatedHeight(item)))
  }

  /** The items, the next free height in the column, and the lowest edge so far. */
  datatype Stack = Stack(items: Board, cursor: real, bottom: real)

  function Push(frame: Item, left: real, s: Stack, i: nat): Stack
    requires i < |s.items|
  {
    var placed := PlacedItem(frame, left, s.cursor, s.items[i]);
    var edge := placed.Y() + placed.Height();
    Stack(s.items[i := placed], edge + GAP, Max(s.bottom, edge))
  }

  ghost predicate InBoard(items: Board, column: Column) {
    forall k | 0 <= k < |column| :: column[k] < |items|
  }

  function PushAll(frame: Item, left: real, s: Stack, column: Column, n: nat): (r: Stack)
    requires n <= |column| && InBoard(s.items, column)
    ensures |r.items| == |s.items|
  {
    if n == 0 then s else Push(frame, left, PushAll(frame, left, s, column, n - 1), column[n - 1])
  }

  function StackColumn(frame: Item, items: Board, bottom: real, column: Column): (r: Stack)
    requires InBoard(items, column)
    ensures |r.items| == |items|
  {
    if column == [] then Stack(items, 0.0, bottom)
    else PushAll(frame, ColumnLeft(frame, items[column[0]]), Stack(items, ContentTop(frame), bottom), column, |column|)
  }

  ghost predicate AllInBoard(items: Board, columns: seq<Column>) {
    forall c | 0 <= c < |columns| :: InBoard(items, columns[c])
  }

  /** The first `n` columns, each started again from the top. */
  function StackColumns(frame: Item, items: Board, columns: seq<Column>, n: nat): (r: Stack)
    requires n <= |columns| && AllInBoard(items, columns)
    ensures |r.items| == |items|
  {
    if n == 0 then Stack(items, 0.0, ContentTop(frame))
    else
      var before := StackColumns(frame, items, columns, n - 1);
      StackColumn(frame, before.items, before.bottom, columns[n - 1])
  }

  function Grown(frame: Item, bottom: real): Item {
    var required := bottom - frame.Y() + BOTTOM;
    if required > Max(frame.Height(), 1.0) then frame.(height := Some(Ceil(required) as real)) else frame
  }

  lemma ColumnsInBoard(items: Board, f: nat)
    requires f < |items|
    ensures IsPartition(FrameColumns(items, f), Children(items, f, |items|))
    ensures AllInBoard(items, FrameColumns(items, f))
  {
    var children := Children(items, f, |items|);
    ColumnsPartition(PointsOf(items, children), children);
    var columns := FrameColumns(items, f);
    forall c, k | 0 <= c < |columns| && 0 <= k < |columns[c]| ensures columns[c][k] < |items| {
      assert columns[c][k] in columns[c];
      assert columns[c][k] in children;
    }
  }

  function LayFrame(items: Board, f: nat): (r: Board)
    requires f < |items|
    ensures |r| == |items|
  {
    if Children(items, f, |items|) == [] then items
    else
      ColumnsInBoard(items, f);
      var s := StackColumns(items[f], items, FrameColumns(items, f), |FrameColumns(items, f)|);
      s.items[f := Grown(items[f], s.bottom)]
  }

  /** The board after the first `n` items were laid out, if they are frames. */
  function LayUpTo(items: Board, n: nat): (r: Board)
    requires n <= |items|
    ensures |r| == |items|
  {
    if n == 0 then items
    else
      var before := LayUpTo(items, n - 1);
      if IsFrame(items, n - 1) then LayFrame(before, n - 1) else before
  }

  function Layout(items: Board): Board {
    LayUpTo(items, |items|)
  }

  // ----- what a layout leaves alone

  /** Only places and heights differ. */
  ghost predicate SameButPlaces(items: Board, r: Board) {
    |r| == |items| && forall i | 0 <= i < |items| :: SameButPlace(items[i], r[i])
  }

  predicate SameButPlace(item: Item, r: Item) {
    r == item.(x := r.x, y := r.y, height := r.height)
  }

  lemma {:induction false} PushAllKeeps(frame: Item, left: real, s: Stack, column: Column, n: nat, i: nat)
    requires n <= |column| && InBoard(s.items, column) && i < |s.items|
    ensures SameButPlace(s.items[i], PushAll(frame, left, s, column, n).items[i])
  {
    if n > 0 {
      PushAllKeeps(frame, left, s, column, n - 1, i);
    }
  }

  lemma {:induction false} StackColumnsKeeps(frame: Item, items: Board, columns: seq<Column>, n: nat, i: nat)
    requires n <= |columns| && AllInBoard(items, columns) && i < |items|
    ensures SameButPlace(items[i], StackColumns(frame, items, columns, n).items[i])
  {
    if n > 0 {
      StackColumnsKeeps(frame, items, columns, n - 1, i);
      var before := StackColumns(frame, items, columns, n - 1);
      if columns[n - 1] != [] {
        PushAllKeeps(frame, ColumnLeft(frame, before.items[columns[n - 1][0]]),
                     Stack(before.items, ContentTop(frame), before.bottom), columns[n - 1], |columns[n - 1]|, i);
      }
    }
  }

  lemma LayFrameKeeps(items: Board, f: nat, i: nat)
    requires f < |items| && i < |items|
    ensures SameButPlace(items[i], LayFrame(items, f)[i])
  {
    ColumnsInBoard(items, f);
    StackColumnsKeeps(items[f], items, FrameColumns(items, f), |FrameColumns(items, f)|, i);
  }

  lemma {:induction false} LayUpToKeepsItem(items: Board, n: nat, i: nat)
    requires n <= |items| && i < |items|
    ensures SameButPlace(items[i], LayUpTo(items, n)[i])
  {
    if n > 0 {
      LayUpToKeepsItem(items, n - 1, i);
      LayFrameKeeps(LayUpTo(items, n - 1), n - 1, i);
    }
  }

  /** A layout changes only places and heights. */
  lemma LayUpToKeeps(items: Board, n: nat)
    requires n <= |items|
    ensures SameButPlaces(items, LayUpTo(items, n))
  {
    forall i | 0 <= i < |items| ensures SameButPlace(items[i], LayUpTo(items, n)[i]) {
      LayUpToKeepsItem(items, n, i);
    }
  }

  lemma {:induction false} SameChildren(items: Board, r: Board, f: nat, n: nat)
    requires SameButPlaces(items, r) && f < |items| && n <= |items|
    ensures Children(r, f, n) == Children(items, f, n)
  {
    if n > 0 {
      SameChildren(items, r, f, n - 1);
      assert SameButPlace(items[f], r[f]) && SameButPlace(items[n - 1], r[n - 1]);
    }
  }

  lemma SameChildrenAt(items: Board, r: Board, f: nat)
    requires SameButPlaces(items, r) && f < |items|
    ensures Children(r, f, |items|) == Children(items, f, |items|)
    ensures r[f].kind == items[f].kind && r[f].id == items[f].id
  {
    SameChildren(items, r, f, |items|);
    assert SameButPlace(items[f], r[f]);
  }

  // ----- the code

  /** A later frame replaces an earlier one with the same id. */
  ghost predicate FrameTable(board: Board, frames: map<Id, nat>) {
    && (forall id | id in frames :: IsFrame(board, frames[id]) && board[frames[id]].id == id)
    && (forall f: nat | f < |board| && board[f].kind == Frame :: board[f].id in frames && frames[board[f].id] >= f)
  }

  method CollectFrames(items: array<Item>) returns (frames: map<Id, nat>)
    ensures FrameTable(items[..], frames)
  {
    frames := map[];
    for i := 0 to items.Length
      invariant forall id | id in frames ::
          frames[id] < i && items[frames[id]].kind == Frame && items[frames[id]].id == id
      invariant forall f | 0 <= f < i && items[f].kind == Frame :: items[f].id in frames && f <= frames[items[f].id]
    {
      if items[i].kind == Frame { frames := frames[items[i].id := i]; }
    }
  }

  ghost predicate FramesById(board: Board, frames: map<Id, nat>) {
    forall id | id in frames :: frames[id] < |board| && board[frames[id]].id == id
  }

  ghost predicate ChildrenById(board: Board, frames: map<Id, nat>, children: map<Id, seq<nat>>, n: nat)
    requires FramesById(board, frames) && n <= |board|
  {
    children.Keys == frames.Keys && forall id | id in frames :: children[id] == Children(board, frames[id], n)
  }

  /** Item `i` belongs to a frame of the table and holds text. */
  predicate Counts(frames: map<Id, nat>, item: Item) {
    item.parent.Some? && item.parent.value in frames && HoldsText(item.kind)
  }

  lemma SkipItem(board: Board, frames: map<Id, nat>, children: map<Id, seq<nat>>, i: nat)
    requires FramesById(board, frames) && i < |board| && ChildrenById(board, frames, children, i)
    requires !Counts(frames, board[i])
    ensures ChildrenById(board, frames, children, i + 1)
  {
    forall id | id in frames ensures Children(board, frames[id], i + 1) == Children(board, frames[id], i) {
    }
  }

  lemma OneMoreChild(board: Board, frames: map<Id, nat>, children: map<Id, seq<nat>>, i: nat, id: Id)
    requires FramesById(board, frames) && i < |board| && ChildrenById(board, frames, children, i)
    requires Counts(frames, board[i]) && id == board[i].parent.value
    ensures ChildrenById(board, frames, children[id := children[id] + [i]], i + 1)
  {
    forall f | f in frames
      ensures Children(board, frames[f], i + 1) == Children(board, frames[f], i) + if f == id then [i] else []
    {
    }
  }

  /** The children of every frame, in board order. */
  method CollectChildren(items: array<Item>, frames: map<Id, nat>) returns (children: map<Id, seq<nat>>)
    requires FramesById(items[..], frames)
    ensures ChildrenById(items[..], frames, children, items.Length)
  {
    ghost var board := items[..];
    children := map id | id in frames :: [];
    for i := 0 to items.Length
      invariant ChildrenById(board, frames, children, i)
    {
      var item := items[i];
      assert item == board[i];
      if item.parent.None? || item.parent.value !in frames || !HoldsText(item.kind) {
        SkipItem(board, frames, children, i);
        continue;
      }
      OneMoreChild(board, frames, children, i, item.parent.value);
      children := children[item.parent.value := children[item.parent.value] + [i]];
    }
  }

  method LayOutColumn(items: array<Item>, frame: Item, column: Column, start: real)
    returns (bottom: real, ghost cursor: real)
    requires InBoard(items[..], column)
    modifies items
    ensures Stack(items[..], cursor, bottom) == StackColumn(frame, old(items[..]), start, column)
  {
    if column == [] { return start, 0.0; }
    ghost var board := items[..];
    var y, left := ContentTop(frame), ColumnLeft(frame, items[column[0]]);
    bottom := start;
    for n := 0 to |column|
      invariant Stack(items[..], y, bottom) == PushAll(frame, left, Stack(board, ContentTop(frame), start), column, n)
    {
      var i := column[n];
      var item := items[i];
      var height := EstimateItemHeight(item);
      var top := PlacedY(frame, y);
      items[i] := item.(x := Some(PlacedX(frame, left, item)), y := Some(top), height := Some(height));
      y := top + height + GAP;
      bottom := Max(bottom, top + height);
    }
    cursor := y;
  }

  method LayOutFrame(items: array<Item>, f: nat, children: seq<nat>)
    requires f < items.Length && children == Children(items[..], f, items.Length)
    modifies items
    ensures items[..] == LayFrame(old(items[..]), f)
  {
    if children == [] { return; }
    var frame, board := items[f], items[..];
    ColumnsInBoard(board, f);
    var columns := ClusterFrameColumns(PointsOf(board, children), children);
    var bottom := ContentTop(frame);
    ghost var cursor := 0.0;
    for c := 0 to |columns|
      invariant Stack(items[..], cursor, bottom) == StackColumns(frame, board, columns, c)
    {
      bottom, cursor := LayOutColumn(items, frame, columns[c], bottom);
    }
    items[f] := Grown(frame, bottom);
  }

  ghost predicate Collected(board: Board, frames: map<Id, nat>, children: map<Id, seq<nat>>) {
    FrameTable(board, frames) && FramesById(board, frames) && ChildrenById(board, frames, children, |board|)
  }

  lemma AtFrame(board: Board, now: Board, frames: map<Id, nat>, children: map<Id, seq<nat>>, f: nat)
    requires Collected(board, frames, children) && f < |board| && now == LayUpTo(board, f)
    ensures now[f].kind == Frame ==> now[f].id in frames && now[f].id in children
    ensures IsFrame(board, f) <==> now[f].kind == Frame && frames[now[f].id] == f
    ensures IsFrame(board, f) ==> children[now[f].id] == Children(now, f, |now|)
  {
    LayUpToKeeps(board, f);
    SameChildrenAt(board, now, f);
    if board[f].kind == Frame && frames[board[f].id] != f {
      assert frames[board[f].id] > f;
    }
  }

  /** Lays out every frame of the board in place. */
  method NormalizeLayout(items: array<Item>)
    modifies items
    ensures items[..] == Layout(old(items[..]))
  {
    ghost var board := items[..];
    var frames := CollectFrames(items);
    var children := CollectChildren(items, frames);
    for f := 0 to items.Length
      invariant items[..] == LayUpTo(board, f)
    {
      AtFrame(board, items[..], frames, children, f);
      if items[f].kind == Frame && frames[items[f].id] == f {
        LayOutFrame(items, f, children[items[f].id]);
      }
    }
  }
}
