/** What the refusal of a board says of it (`validate_miro_snapshot` in backend/agent/miro_generation.py). */
module MiroRefusals {
  import opened Json
  import opened MiroItems
  import opened MiroLayout
  import opened MiroValidation
  import opened Results

  /** The fault of item `i` that an error names. */
  ghost predicate Faulty(items: Board, i: nat, error: Error)
    requires i < |items|
  {
    match error
    case TooManyItems => false
    case EmptyId => IsBlank(items[i].id.text)
    case DuplicateId => exists j :: 0 <= j < i && Strip(items[j].id.text) == Strip(items[i].id.text)
    case UnsupportedType => items[i].kind.Other?
    case MissingNumber => !HasNumbers(items[i])
    case NotPositive => HasNumbers(items[i]) && (items[i].width.value <= 0.0 || items[i].height.value <= 0.0)
    case MissingParent => !HasParent(items, i)
  }

  /** The order in which an item is checked. */
  function Turn(error: Error): nat {
    match error
    case EmptyId => 0
    case DuplicateId => 1
    case UnsupportedType => 2
    case MissingNumber => 3
    case NotPositive => 4
    case MissingParent => 5
    case TooManyItems => 6
  }

  ghost predicate FirstFault(items: Board, i: nat, error: Error)
    requires i < |items|
  {
    Faulty(items, i, error) && forall e | Turn(e) < Turn(error) :: !Faulty(items, i, e)
  }

  lemma StripIsEmpty(s: string)
    ensures Strip(s) == "" <==> IsBlank(s)
  {
    StripExactly(s);
    var a, b :| s == a + Strip(s) + b && AllSpace(a) && AllSpace(b);
    if Strip(s) != "" {
      assert s[|a|] == Strip(s)[0] && s[|a|] in s;
    }
  }

  lemma FaultOfItem(items: Board, i: nat)
    requires i < |items| && ErrorAt(items, i).Some?
    ensures FirstFault(items, i, ErrorAt(items, i).value)
  {
    StripIsEmpty(items[i].id.text);
    assert Stripped(items[i]) == Id("") <==> Strip(items[i].id.text) == "";
    assert Stripped(items[i]) in StrippedIds(items, i) <==> Faulty(items, i, DuplicateId);
  }

  ghost predicate FirstFaultyItem(items: Board, i: nat, error: Error) {
    && i < |items| && (forall j | 0 <= j < i :: AcceptableItem(items, j))
    && FirstFault(items, i, error)
  }

  lemma {:induction false} FaultAmong(items: Board, n: nat) returns (i: nat)
    requires n <= |items| && FirstError(items, n).Some?
    ensures FirstFaultyItem(items, i, FirstError(items, n).value)
  {
    if FirstError(items, n - 1).Some? {
      i := FaultAmong(items, n - 1);
    } else {
      i := n - 1;
      FirstErrorExactly(items, n - 1);
      FaultOfItem(items, i);
    }
  }

  /** A board is refused for having more than fifty items, or for the first fault of its first faulty item. */
  lemma RefusedExactly(items: Board)
    ensures match Verdict(items)
            case None => Acceptable(items)
            case Some(TooManyItems) => |items| > 50
            case Some(error) => |items| <= 50 && exists i :: FirstFaultyItem(items, i, error)
  {
    AcceptedExactly(items);
    if |items| <= MAX_ITEMS && FirstError(items, |items|).Some? {
      var i := FaultAmong(items, |items|);
      assert FirstError(items, |items|) != Some(TooManyItems);
    }
  }
}
