/** The sort keeps the order of values that tie. */
module StableSorting {
  import opened Sorting

  /** Those of `s` that tie with `x`, in order. */
  ghost function Tied<T>(leq: (T, T) -> bool, s: seq<T>, x: T): seq<T> {
    if s == [] then []
    else
      var last := s[|s| - 1];
      Tied(leq, s[..|s| - 1], x) + if leq(x, last) && leq(last, x) then [last] else []
  }

  lemma {:induction false} InsertIsLast<T(!new)>(leq: (T, T) -> bool, s: seq<T>, y: T, x: T)
    requires TotalPreorder(leq) && SortedBy(leq, s)
    ensures Tied(leq, Insert(leq, s, y), x) == Tied(leq, s, x) + if leq(x, y) && leq(y, x) then [y] else []
  {
    if s == [] || leq(s[|s| - 1], y) {
      assert (s + [y])[..|s|] == s;
    } else {
      var front, last := s[..|s| - 1], s[|s| - 1];
      InsertIsLast(leq, front, y, x);
      assert Insert(leq, s, y)[..|Insert(leq, front, y)|] == Insert(leq, front, y);
      if leq(x, y) && leq(y, x) {
        assert !leq(last, x);
      }
    }
  }

  /** The sort is stable: values that tie keep their order. */
  lemma {:induction false} SortIsStable<T(!new)>(leq: (T, T) -> bool, s: seq<T>, x: T)
    requires TotalPreorder(leq)
    ensures Tied(leq, Sort(leq, s), x) == Tied(leq, s, x)
  {
    if s != [] {
      SortIsStable(leq, s[..|s| - 1], x);
      SortIsSorted(leq, s[..|s| - 1]);
      InsertIsLast(leq, Sort(leq, s[..|s| - 1]), s[|s| - 1], x);
    }
  }
}
