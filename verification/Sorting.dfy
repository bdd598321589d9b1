/** Python's stable `sorted`, and the order of Python strings. */
module Sorting {
  import opened Sequences

  /** `leq` compares any two values and is transitive: what a sort key gives. */
  ghost predicate TotalPreorder<T(!new)>(leq: (T, T) -> bool) {
    && (forall x, y :: leq(x, y) || leq(y, x))
    && (forall x, y, z :: leq(x, y) && leq(y, z) ==> leq(x, z))
  }

  ghost predicate Antisymmetric<T(!new)>(leq: (T, T) -> bool) {
    forall x, y :: leq(x, y) && leq(y, x) ==> x == y
  }

  ghost predicate SortedBy<T>(leq: (T, T) -> bool, s: seq<T>) {
    forall i, j | 0 <= i < j < |s| :: leq(s[i], s[j])
  }

  /** Puts `x` after every element of the sorted `s` that is not above it. */
  function Insert<T>(leq: (T, T) -> bool, s: seq<T>, x: T): seq<T> {
    if s == [] || leq(s[|s| - 1], x) then s + [x]
    else Insert(leq, s[..|s| - 1], x) + [s[|s| - 1]]
  }

  /** The stable sort of `s`. */
  function Sort<T>(leq: (T, T) -> bool, s: seq<T>): seq<T> {
    if s == [] then [] else Insert(leq, Sort(leq, s[..|s| - 1]), s[|s| - 1])
  }

  lemma {:induction false} InsertKeepsContents<T>(leq: (T, T) -> bool, s: seq<T>, x: T)
    ensures multiset(Insert(leq, s, x)) == multiset(s) + multiset{x}
  {
    if s == [] || leq(s[|s| - 1], x) {
    } else {
      InsertKeepsContents(leq, s[..|s| - 1], x);
      assert s == s[..|s| - 1] + [s[|s| - 1]];
    }
  }

  lemma {:induction false} InsertIsSorted<T(!new)>(leq: (T, T) -> bool, s: seq<T>, x: T)
    requires TotalPreorder(leq) && SortedBy(leq, s)
    ensures SortedBy(leq, Insert(leq, s, x))
  {
    if s == [] || leq(s[|s| - 1], x) {
    } else {
      var front := s[..|s| - 1];
      InsertIsSorted(leq, front, x);
      InsertKeepsContents(leq, front, x);
      var r := Insert(leq, front, x);
      forall i | 0 <= i < |r| ensures leq(r[i], s[|s| - 1]) {
        assert r[i] in multiset(r);
        assert r[i] in front || r[i] == x;
      }
    }
  }

  lemma {:induction false} SortKeepsContents<T>(leq: (T, T) -> bool, s: seq<T>)
    ensures multiset(Sort(leq, s)) == multiset(s)
  {
    if s != [] {
      SortKeepsContents(leq, s[..|s| - 1]);
      InsertKeepsContents(leq, Sort(leq, s[..|s| - 1]), s[|s| - 1]);
      assert s == s[..|s| - 1] + [s[|s| - 1]];
    }
  }

  lemma {:induction false} SortKeepsMembers<T(!new)>(leq: (T, T) -> bool, s: seq<T>)
    ensures |Sort(leq, s)| == |s| && forall x :: x in Sort(leq, s) <==> x in s
    ensures Distinct(s) ==> Distinct(Sort(leq, s))
  {
    SortKeepsContents(leq, s);
    SameContents(s, Sort(leq, s));
  }

  lemma {:induction false} SortIsSorted<T(!new)>(leq: (T, T) -> bool, s: seq<T>)
    requires TotalPreorder(leq)
    ensures SortedBy(leq, Sort(leq, s))
  {
    if s != [] {
      SortIsSorted(leq, s[..|s| - 1]);
      InsertIsSorted(leq, Sort(leq, s[..|s| - 1]), s[|s| - 1]);
    }
  }

  lemma SameLast<T(!new)>(leq: (T, T) -> bool, s: seq<T>, t: seq<T>)
    requires Antisymmetric(leq) && SortedBy(leq, s) && SortedBy(leq, t)
    requires s != [] && multiset(s) == multiset(t) && |s| == |t|
    ensures s[|s| - 1] == t[|t| - 1]
  {
    var x, y := s[|s| - 1], t[|t| - 1];
    assert x in multiset(s) && y in multiset(t);
    var i :| 0 <= i < |t| && t[i] == x;
    var j :| 0 <= j < |s| && s[j] == y;
    assert i == |t| - 1 || leq(x, y);
    assert j == |s| - 1 || leq(y, x);
  }

  /** Two sorted sequences with the same contents are the same, when no two values tie. */
  lemma {:induction false} SortedIsUnique<T(!new)>(leq: (T, T) -> bool, s: seq<T>, t: seq<T>)
    requires Antisymmetric(leq) && SortedBy(leq, s) && SortedBy(leq, t)
    requires multiset(s) == multiset(t)
    ensures s == t
  {
    SameContents(s, t);
    if s != [] {
      SameLast(leq, s, t);
      SameFront(s, t);
      SortedIsUnique(leq, s[..|s| - 1], t[..|t| - 1]);
      SameWhole(s, t);
    }
  }

  lemma SameWhole<T>(s: seq<T>, t: seq<T>)
    requires s != [] && t != [] && s[..|s| - 1] == t[..|t| - 1] && s[|s| - 1] == t[|t| - 1]
    ensures s == t
  {
    assert s == s[..|s| - 1] + [s[|s| - 1]] && t == t[..|t| - 1] + [t[|t| - 1]];
  }

  lemma SameFront<T>(s: seq<T>, t: seq<T>)
    requires s != [] && |s| == |t| && s[|s| - 1] == t[|t| - 1]
    requires multiset(s) == multiset(t)
    ensures multiset(s[..|s| - 1]) == multiset(t[..|t| - 1])
  {
    var n := |s| - 1;
    assert s == s[..n] + [s[n]] && t == t[..n] + [t[n]];
    assert multiset(s[..n]) == multiset(s) - multiset{s[n]};
    assert multiset(t[..n]) == multiset(t) - multiset{t[n]};
  }

  /** The result of a sort with no ties does not depend on the order of its input. */
  lemma SortForgetsOrder<T(!new)>(leq: (T, T) -> bool, s: seq<T>, t: seq<T>)
    requires TotalPreorder(leq) && Antisymmetric(leq)
    requires multiset(s) == multiset(t)
    ensures Sort(leq, s) == Sort(leq, t)
  {
    SortIsSorted(leq, s);
    SortIsSorted(leq, t);
    SortKeepsContents(leq, s);
    SortKeepsContents(leq, t);
    SortedIsUnique(leq, Sort(leq, s), Sort(leq, t));
  }

  /** Python compares strings by code point, a proper prefix first. */
  predicate StringLeq(s: string, t: string) {
    s == [] || (t != [] && (s[0] < t[0] || (s[0] == t[0] && StringLeq(s[1..], t[1..]))))
  }

  lemma {:induction false} StringLeqTotal(s: string, t: string)
    ensures StringLeq(s, t) || StringLeq(t, s)
    ensures StringLeq(s, t) && StringLeq(t, s) ==> s == t
  {
    if s != [] && t != [] {
      StringLeqTotal(s[1..], t[1..]);
      assert s == [s[0]] + s[1..] && t == [t[0]] + t[1..];
    }
  }

  /** The strings agree before index `k`, where `s` has the smaller character. */
  ghost predicate SmallerAt(s: string, t: string, k: nat) {
    k < |s| && k < |t| && s[..k] == t[..k] && s[k] < t[k]
  }

  lemma SmallerAtNext(s: string, t: string, k: nat)
    requires s != [] && t != [] && s[0] == t[0]
    ensures SmallerAt(s, t, k + 1) <==> SmallerAt(s[1..], t[1..], k)
  {
    if k + 1 < |s| && k + 1 < |t| {
      assert s[..k + 1] == [s[0]] + s[1..][..k] && t[..k + 1] == [t[0]] + t[1..][..k];
    }
  }

  /** A prefix comes first, and otherwise the first difference decides. */
  lemma {:induction false} StringLeqExactly(s: string, t: string)
    ensures StringLeq(s, t) <==> s <= t || exists k :: SmallerAt(s, t, k)
  {
    if s != [] && t != [] {
      if s[0] < t[0] {
        assert SmallerAt(s, t, 0);
      } else if s[0] == t[0] {
        StringLeqExactly(s[1..], t[1..]);
        PrefixNext(s, t);
        if k: nat :| SmallerAt(s[1..], t[1..], k) { SmallerAtNext(s, t, k); }
        if k: nat :| SmallerAt(s, t, k) { SmallerAtNext(s, t, k - 1); }
      } else {
        forall k: nat ensures !SmallerAt(s, t, k) {
          if k > 0 && k < |s| && k < |t| { assert s[..k][0] != t[..k][0]; }
        }
      }
    }
  }

  lemma PrefixNext(s: string, t: string)
    requires s != [] && t != [] && s[0] == t[0]
    ensures s <= t <==> s[1..] <= t[1..]
  {
    assert s == [s[0]] + s[1..] && t == [t[0]] + t[1..];
  }

  lemma {:induction false} StringLeqTransitive(s: string, t: string, u: string)
    requires StringLeq(s, t) && StringLeq(t, u)
    ensures StringLeq(s, u)
  {
    if s != [] && s[0] == t[0] == u[0] {
      StringLeqTransitive(s[1..], t[1..], u[1..]);
    }
  }

  lemma StringOrderIsTotal()
    ensures TotalPreorder(StringLeq)
  {
    forall s, t ensures StringLeq(s, t) || StringLeq(t, s) { StringLeqTotal(s, t); }
    forall s, t, u | StringLeq(s, t) && StringLeq(t, u) ensures StringLeq(s, u) { StringLeqTransitive(s, t, u); }
  }
}
