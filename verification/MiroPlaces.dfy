/** Where exactly a layout puts columns and how high it makes frames (backend/agent/miro_generation.py). */
module MiroPlaces {
  import opened MiroClusters
  import opened MiroGeometry
  import opened MiroItems
  import opened MiroLayout
  import opened MiroText
  import opened Results
  import opened Sequences

  // ----- columns stay where they are

  predicate BetweenPaddings(frame: Item, item: Item) {
    item.x.Some? && frame.X() + LEFT <= item.X() && item.X() + item.Width() <= RightEdge(frame)
  }

  /**
   The topmost item of a column keeps its horizontal place when it lies between the paddings; each other item
   ends up at that same place, or flush with the right padding when it would stick out, or at the left one
   when it is too wide.
   */
  lemma ColumnsStayPut(items: Board, f: nat, c: nat, k: nat)
    requires IsFrame(items, f) && c < |FrameColumns(items, f)| && k < |FrameColumns(items, f)[c]|
    ensures InBoard(items, FrameColumns(items, f)[c])
    ensures var frame, first, item := items[f], FrameColumns(items, f)[c][0], FrameColumns(items, f)[c][k];
            var column, x := Layout(items)[first].X(), Layout(items)[item].X();
            && (BetweenPaddings(frame, items[first]) ==> column == items[first].X())
            && (if items[item].Width() > Inner(frame) then x == frame.X() + LEFT
                else if column + items[item].Width() > RightEdge(frame) then x + items[item].Width() == RightEdge(frame)
                else x == column)
  {
    ColumnsEndInside(items, f, c);
    var column := FrameColumns(items, f)[c];
    assert MovedBetween(items[f], items[column[0]], Wish(items[f], items[column[0]]), Layout(items)[column[0]].X());
    assert k > 0 ==>
        MovedBetween(items[f], items[column[k]], Layout(items)[column[0]].X(), Layout(items)[column[k]].X());
  }

  /** In pixels: the margins of a frame are 24, at its top 72, and items of a column are 24 apart. */
  lemma Margins(items: Board, f: nat, c: nat, k: nat)
    requires IsFrame(items, f) && c < |FrameColumns(items, f)| && k < |FrameColumns(items, f)[c]|
    ensures InBoard(items, FrameColumns(items, f)[c])
    ensures var frame, column, r := items[f], FrameColumns(items, f)[c], Layout(items);
            var item := r[column[k]];
            && item.X() >= frame.X() + 24.0
            && (item.Width() <= frame.Width() - 48.0 ==> item.X() + item.Width() <= frame.X() + frame.Width() - 24.0)
            && (k == 0 ==> item.Y() == frame.Y() + 72.0)
            && (k > 0 ==> item.Y() == Max(frame.Y() + 72.0, r[column[k - 1]].Y() + r[column[k - 1]].Height() + 24.0))
            && item.Height() == EstimatedHeight(items[column[k]])
  {
    ColumnsEndInside(items, f, c);
    var column, r := FrameColumns(items, f)[c], Layout(items);
    assert ChildLaid(items[f], items[column[k]], r[column[k]], ContentBottom(r[f]));
    assert k > 0 ==> r[column[k]].Y() == PlacedY(items[f], Edge(r[column[k - 1]]) + GAP);
  }

  // ----- the height of a frame

  /** The lowest edge is the top of the content or the lower edge of an item of the first `n` columns. */
  ghost predicate Attained(frame: Item, r: Stack, columns: seq<Column>, n: nat)
    requires n <= |columns|
  {
    r.bottom == ContentTop(frame)
    || exists c, k :: 0 <= c < n && 0 <= k < |columns[c]| && columns[c][k] < |r.items|
                      && r.bottom == Edge(r.items[columns[c][k]])
  }

  ghost predicate AttainedIn(start: real, r: Stack, column: Column, n: nat)
    requires n <= |column|
  {
    r.bottom == start
    || exists k :: 0 <= k < n && column[k] < |r.items| && r.bottom == Edge(r.items[column[k]])
  }

  lemma PushAttains(frame: Item, left: real, s: Stack, r: Stack, start: real, column: Column, n: nat)
    requires n < |column| && InBoard(s.items, column) && Distinct(column) && AttainedIn(start, s, column, n)
    requires r == Push(frame, left, s, column[n])
    ensures AttainedIn(start, r, column, n + 1)
  {
    assert r.items[column[n]] == PlacedItem(frame, left, s.cursor, s.items[column[n]]);
    if r.bottom != Edge(r.items[column[n]]) {
      assert r.bottom == s.bottom;
      if k :| 0 <= k < n && column[k] < |s.items| && s.bottom == Edge(s.items[column[k]]) {
        assert r.items[column[k]] == s.items[column[k]];
      }
    }
  }

  lemma {:induction false} PushAllAttains(frame: Item, left: real, s: Stack, r: Stack, column: Column, n: nat)
    requires n <= |column| && InBoard(s.items, column) && Distinct(column) && r == PushAll(frame, left, s, column, n)
    ensures AttainedIn(s.bottom, r, column, n)
    decreases n
  {
    if n > 0 {
      var before := PushAll(frame, left, s, column, n - 1);
      PushAllAttains(frame, left, s, before, column, n - 1);
      PushAttains(frame, left, before, r, s.bottom, column, n - 1);
    }
  }

  lemma ColumnAttains(frame: Item, items: Board, start: real, column: Column)
    requires InBoard(items, column) && Distinct(column)
    ensures AttainedIn(start, StackColumn(frame, items, start, column), column, |column|)
  {
    if column != [] {
      PushAllAttains(frame, ColumnLeft(frame, items[column[0]]), Stack(items, ContentTop(frame), start),
                     StackColumn(frame, items, start, column), column, |column|);
    }
  }

  lemma NextAttains(frame: Item, before: Stack, after: Stack, columns: seq<Column>, n: nat)
    requires n < |columns| && Apart(columns) && Attained(frame, before, columns, n)
    requires |after.items| == |before.items| && AttainedIn(before.bottom, after, columns[n], |columns[n]|)
    requires Untouched(before.items, after.items, columns[n])
    ensures Attained(frame, after, columns, n + 1)
  {
    if after.bottom == before.bottom {
      if c, k :| 0 <= c < n && 0 <= k < |columns[c]| && columns[c][k] < |before.items|
                 && before.bottom == Edge(before.items[columns[c][k]]) {
        NotInEarlier(columns, c, k, n);
        assert after.items[columns[c][k]] == before.items[columns[c][k]];
      }
    } else {
      var k :| 0 <= k < |columns[n]| && columns[n][k] < |after.items| &&
          after.bottom == Edge(after.items[columns[n][k]]);
    }
  }

  lemma ColumnLeavesOthers(frame: Item, items: Board, start: real, column: Column)
    requires InBoard(items, column) && Distinct(column)
    ensures Untouched(items, StackColumn(frame, items, start, column).items, column)
  {
    ColumnIsLaid(frame, items, start, column);
  }

  lemma NextColumnAttains(frame: Item, before: Stack, after: Stack, columns: seq<Column>, n: nat)
    requires n < |columns| && AllInBoard(before.items, columns) && Apart(columns) && Distinct(columns[n])
    requires Attained(frame, before, columns, n)
    requires after == StackColumn(frame, before.items, before.bottom, columns[n])
    ensures Attained(frame, after, columns, n + 1) && |after.items| == |before.items|
  {
    ColumnAttains(frame, before.items, before.bottom, columns[n]);
    ColumnLeavesOthers(frame, before.items, before.bottom, columns[n]);
    NextAttains(frame, before, after, columns, n);
  }

  lemma ColumnsAttainNext(frame: Item, items: Board, columns: seq<Column>, n: nat)
    requires n < |columns| && AllInBoard(items, columns) && Apart(columns) && Distinct(columns[n])
    requires Attained(frame, StackColumns(frame, items, columns, n), columns, n)
    ensures Attained(frame, StackColumns(frame, items, columns, n + 1), columns, n + 1)
  {
    var before := StackColumns(frame, items, columns, n);
    NextColumnAttains(frame, before, StackColumn(frame, before.items, before.bottom, columns[n]), columns, n);
  }

  lemma {:induction false} ColumnsAttain(frame: Item, items: Board, columns: seq<Column>, n: nat)
    requires n <= |columns| && AllInBoard(items, columns) && Apart(columns)
    requires forall c | 0 <= c < |columns| :: Distinct(columns[c])
    ensures Attained(frame, StackColumns(frame, items, columns, n), columns, n)
  {
    if n > 0 {
      ColumnsAttain(frame, items, columns, n - 1);
      ColumnsAttainNext(frame, items, columns, n - 1);
    }
  }

  /** A frame of height `h` has room for its laid-out children and the paddings. */
  ghost predicate HasRoom(items: Board, r: Board, f: nat, h: real)
    requires f < |items| == |r|
  {
    && 96.0 <= h
    && forall i: nat | i < |items| && IsChild(items, f, i) :: Edge(r[i]) + 24.0 <= items[f].Y() + h
  }

  /** A frame keeps its height when that is enough, and otherwise gets the least whole height that is. */
  ghost predicate HeightFits(items: Board, r: Board, f: nat)
    requires f < |items| == |r|
  {
    var h := r[f].Height();
    if Children(items, f, |items|) == [] || HasRoom(items, r, f, Max(items[f].Height(), 1.0)) then r[f] == items[f]
    else r[f] == items[f].(height := Some(h)) && h == h.Floor as real && HasRoom(items, r, f, h)
         && !HasRoom(items, r, f, h - 1.0)
  }

  lemma ChildrenAreIn(items: Board, f: nat, columns: seq<Column>)
    requires f < |items| && columns == FrameColumns(items, f)
    ensures forall i: nat :: (i < |items| && IsChild(items, f, i))
                        <==> exists c, k :: 0 <= c < |columns| && 0 <= k < |columns[c]| && columns[c][k] == i
  {
    ColumnsInBoard(items, f);
    forall i: nat
      ensures (i < |items| && IsChild(items, f, i))
         <==> exists c, k :: 0 <= c < |columns| && 0 <= k < |columns[c]| && columns[c][k] == i
    {
      assert i in Children(items, f, |items|) <==> exists c :: 0 <= c < |columns| && i in columns[c];
      if c, k :| 0 <= c < |columns| && 0 <= k < |columns[c]| && columns[c][k] == i {
        assert columns[c][k] in columns[c];
      }
    }
  }

  lemma ChildEdge(items: Board, f: nat, s: Stack, r: Board, i: nat)
    requires f < |items| && items[f].kind == Frame && Children(items, f, |items|) != []
    requires AllInBoard(items, FrameColumns(items, f)) && i < |items| && IsChild(items, f, i)
    requires s == StackColumns(items[f], items, FrameColumns(items, f), |FrameColumns(items, f)|)
    requires r == LayFrame(items, f)
    ensures r[i] == s.items[i] && Edge(r[i]) <= s.bottom
  {
    var columns := FrameColumns(items, f);
    ColumnsInBoard(items, f);
    ChildrenAreIn(items, f, columns);
    var c, k :| 0 <= c < |columns| && 0 <= k < |columns[c]| && columns[c][k] == i;
    EachColumnLaid(items[f], items, columns, |columns|, c);
    assert ChildLaid(items[f], items[columns[c][k]], s.items[columns[c][k]], s.bottom);
  }

  /** The lowest edge is the top of the content or that of a child. */
  lemma LowestEdge(items: Board, f: nat, s: Stack)
    requires f < |items| && AllInBoard(items, FrameColumns(items, f))
    requires s == StackColumns(items[f], items, FrameColumns(items, f), |FrameColumns(items, f)|)
    ensures s.bottom >= ContentTop(items[f])
    ensures s.bottom == ContentTop(items[f])
            || exists i: nat :: i < |items| && IsChild(items, f, i) && s.bottom == Edge(s.items[i])
  {
    var columns := FrameColumns(items, f);
    ColumnsInBoard(items, f);
    ChildrenAreIn(items, f, columns);
    ColumnsAttain(items[f], items, columns, |columns|);
    BottomFalls(items[f], items, columns, |columns|);
    if s.bottom != ContentTop(items[f]) {
      var c, k :| 0 <= c < |columns| && 0 <= k < |columns[c]| && columns[c][k] < |s.items|
                  && s.bottom == Edge(s.items[columns[c][k]]);
      assert IsChild(items, f, columns[c][k]);
    }
  }

  /** The lowest edge decides whether there is room. */
  lemma RoomExactly(items: Board, f: nat, s: Stack, r: Board, h: real)
    requires f < |items| && items[f].kind == Frame && Children(items, f, |items|) != []
    requires AllInBoard(items, FrameColumns(items, f))
    requires s == StackColumns(items[f], items, FrameColumns(items, f), |FrameColumns(items, f)|)
    requires r == LayFrame(items, f)
    ensures HasRoom(items, r, f, h) <==> s.bottom - items[f].Y() + BOTTOM <= h
  {
    LowestEdge(items, f, s);
    forall i: nat | i < |items| && IsChild(items, f, i) ensures r[i] == s.items[i] && Edge(r[i]) <= s.bottom {
      ChildEdge(items, f, s, r, i);
    }
  }

  lemma CeilIsLeast(x: real)
    ensures Ceil(x) as real >= x && Ceil(x) as real - 1.0 < x && (Ceil(x) as real).Floor == Ceil(x)
  {
  }

  lemma GrownHeightFits(items: Board, r: Board, f: nat, bottom: real, required: real)
    requires f < |items| == |r| && Children(items, f, |items|) != [] && r[f] == Grown(items[f], bottom)
    requires required == bottom - items[f].Y() + BOTTOM
    requires HasRoom(items, r, f, Max(items[f].Height(), 1.0)) <==> required <= Max(items[f].Height(), 1.0)
    requires HasRoom(items, r, f, Ceil(required) as real) <==> required <= Ceil(required) as real
    requires HasRoom(items, r, f, Ceil(required) as real - 1.0) <==> required <= Ceil(required) as real - 1.0
    ensures HeightFits(items, r, f)
  {
    CeilIsLeast(required);
    if required > Max(items[f].Height(), 1.0) {
      assert r[f].Height() == Ceil(required) as real;
    }
  }

  lemma LaidFrameFits(items: Board, f: nat)
    requires f < |items| && items[f].kind == Frame
    ensures HeightFits(items, LayFrame(items, f), f)
  {
    if Children(items, f, |items|) != [] {
      ColumnsInBoard(items, f);
      var s, r := StackColumns(items[f], items, FrameColumns(items, f), |FrameColumns(items, f)|), LayFrame(items, f);
      var required := s.bottom - items[f].Y() + BOTTOM;
      RoomExactly(items, f, s, r, Max(items[f].Height(), 1.0));
      RoomExactly(items, f, s, r, Ceil(required) as real);
      RoomExactly(items, f, s, r, Ceil(required) as real - 1.0);
      GrownHeightFits(items, r, f, s.bottom, required);
    }
  }

  lemma SameRoom(items: Board, before: Board, laid: Board, r: Board, f: nat, h: real)
    requires f < |items| == |before| == |laid| == |r| && before[f] == items[f]
    requires forall i: nat | i < |items| :: IsChild(before, f, i) <==> IsChild(items, f, i)
    requires forall i: nat | i < |items| && IsChild(items, f, i) :: r[i] == laid[i]
    ensures HasRoom(before, laid, f, h) <==> HasRoom(items, r, f, h)
  {
  }

  /** On the whole board too: a frame keeps its height when that is enough, and otherwise gets the least whole one. */
  lemma FrameHeightExactly(items: Board, f: nat)
    requires IsFrame(items, f)
    ensures HeightFits(items, Layout(items), f)
  {
    var before, r := LayUpTo(items, f), Layout(items);
    FrameWaits(items, f);
    LayUpToKeeps(items, f);
    LaidFrameFits(before, f);
    FrameRests(items, f, f);
    var laid := LayFrame(before, f);
    forall i: nat | i < |items| ensures IsChild(before, f, i) <==> IsChild(items, f, i) {
      SameChild(items, before, f, i);
    }
    forall i: nat | i < |items| && IsChild(items, f, i) ensures r[i] == laid[i] {
      FrameRests(items, f, i);
    }
    SameRoom(items, before, laid, r, f, Max(items[f].Height(), 1.0));
    SameRoom(items, before, laid, r, f, r[f].Height());
    SameRoom(items, before, laid, r, f, r[f].Height() - 1.0);
  }
}
