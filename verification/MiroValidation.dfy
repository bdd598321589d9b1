/** Which boards are accepted (`validate_miro_snapshot` in backend/agent/miro_generation.py). */
module MiroValidation {
  import opened Json
  import opened MiroGeometry
  import opened MiroItems
  import opened MiroLayout
  import opened Results

  const MAX_ITEMS := 50

  datatype Error =
    | TooManyItems | EmptyId | DuplicateId | UnsupportedType | MissingNumber | NotPositive | MissingParent

  function Stripped(item: Item): Id { Id(Strip(item.id.text)) }

  function StrippedIds(items: Board, n: nat): set<Id>
    requires n <= |items|
  {
    set i | 0 <= i < n :: Stripped(items[i])
  }

  function RawIds(items: Board): set<Id> {
    set i | 0 <= i < |items| :: items[i].id
  }

  predicate HasNumbers(item: Item) {
    item.x.Some? && item.y.Some? && item.width.Some? && item.height.Some? && item.zIndex.Some?
  }

  /** What is wrong with an item, given the ids before it and all the ids. */
  function ItemError(item: Item, seen: set<Id>, ids: set<Id>): Option<Error> {
    if Stripped(item) == Id("") then Some(EmptyId)
    else if Stripped(item) in seen then Some(DuplicateId)
    else if item.kind.Other? then Some(UnsupportedType)
    else if !HasNumbers(item) then Some(MissingNumber)
    else if item.width.value <= 0.0 || item.height.value <= 0.0 then Some(NotPositive)
    else if item.parent.Some? && item.parent.value !in seen + {Stripped(item)} + ids then Some(MissingParent)
    else None
  }

  function ErrorAt(items: Board, i: nat): Option<Error>
    requires i < |items|
  {
    ItemError(items[i], StrippedIds(items, i), RawIds(items))
  }

  /** The first error among the first `n` items. */
  function FirstError(items: Board, n: nat): Option<Error>
    requires n <= |items|
  {
    if n == 0 then None
    else if FirstError(items, n - 1).Some? then FirstError(items, n - 1)
    else ErrorAt(items, n - 1)
  }

  function Verdict(items: Board): Option<Error> {
    if |items| > MAX_ITEMS then Some(TooManyItems) else FirstError(items, |items|)
  }

  /**
   The parent of item `i` is on the board: it is the id of some item, or the id without outer spaces of
   item `i` or an earlier one.
   */
  ghost predicate HasParent(items: Board, i: nat)
    requires i < |items|
  {
    items[i].parent.Some? ==>
      exists j :: 0 <= j < |items|
        && (items[j].id == items[i].parent.value || (j <= i && Stripped(items[j]) == items[i].parent.value))
  }

  ghost predicate AcceptableItem(items: Board, i: nat)
    requires i < |items|
  {
    && Stripped(items[i]) != Id("") && !items[i].kind.Other?
    && HasNumbers(items[i]) && items[i].width.value > 0.0 && items[i].height.value > 0.0
    && HasParent(items, i)
    && forall j | 0 <= j < i :: Stripped(items[j]) != Stripped(items[i])
  }

  /** A board fit to be stored. */
  ghost predicate Acceptable(items: Board) {
    |items| <= MAX_ITEMS && forall i | 0 <= i < |items| :: AcceptableItem(items, i)
  }

  method ValidateSnapshot(items: Board) returns (error: Option<Error>)
    ensures error == Verdict(items)
  {
    if |items| > MAX_ITEMS { return Some(TooManyItems); }
    var seen: set<Id> := {};
    for i := 0 to |items|
      invariant seen == StrippedIds(items, i) && FirstError(items, i).None?
    {
      error := ItemError(items[i], seen, RawIds(items));
      if error.Some? {
        ErrorStays(items, i + 1, |items|);
        return;
      }
      seen := seen + {Stripped(items[i])};
    }
    error := None;
  }

  lemma {:induction false} ErrorStays(items: Board, m: nat, n: nat)
    requires m <= n <= |items| && FirstError(items, m).Some?
    ensures FirstError(items, n) == FirstError(items, m)
  {
    if m < n {
      ErrorStays(items, m, n - 1);
    }
  }

  lemma NoErrorAt(items: Board, i: nat)
    requires i < |items|
    ensures ErrorAt(items, i).None? <==> AcceptableItem(items, i)
  {
  }

  lemma {:induction false} FirstErrorExactly(items: Board, n: nat)
    requires n <= |items|
    ensures FirstError(items, n).None? <==> forall i | 0 <= i < n :: AcceptableItem(items, i)
  {
    if n > 0 {
      FirstErrorExactly(items, n - 1);
      NoErrorAt(items, n - 1);
    }
  }

  /** A board is accepted exactly when it is fit to be stored. */
  lemma AcceptedExactly(items: Board)
    ensures Verdict(items).None? <==> Acceptable(items)
  {
    FirstErrorExactly(items, |items|);
  }

  lemma SameIds(items: Board, r: Board)
    requires SameButPlaces(items, r)
    ensures forall j | 0 <= j < |items| :: r[j].id == items[j].id && Stripped(r[j]) == Stripped(items[j])
  {
  }

  lemma StaysPlaced(items: Board, i: nat)
    requires i < |items| && HasNumbers(items[i]) && items[i].height.value > 0.0
    ensures HasNumbers(Layout(items)[i]) && Layout(items)[i].height.value > 0.0
  {
    if OutOfReach(items, 0, |items|, i) {
      OthersStay(items, i);
    } else {
      var f :| 0 <= f < |items| && IsFrame(items, f) && (i == f || IsChild(items, f, i));
      if i == f {
        FramesOnlyGrow(items, f);
      } else {
        ChildrenEndInside(items, f, i);
      }
    }
  }

  /** Whatever is accepted before the layout is accepted after it. */
  lemma AcceptedStaysAccepted(items: Board)
    requires Verdict(items).None?
    ensures Verdict(Layout(items)).None?
  {
    var r := Layout(items);
    AcceptedExactly(items);
    AcceptedExactly(r);
    LayUpToKeeps(items, |items|);
    SameIds(items, r);
    forall i | 0 <= i < |r| ensures AcceptableItem(r, i) {
      assert AcceptableItem(items, i) && SameButPlace(items[i], r[i]);
      StaysPlaced(items, i);
      assert HasParent(items, i);
    }
  }
}
