/** What normalising a name keeps: its words (`_normalise` in backend/agent/column_registry.py). */
module ColumnWords {
  import opened ColumnNames
  import opened Json

  /** The runs of characters between separators. */
  function Words(s: string): seq<string> {
    if s == [] then []
    else
      var front, last := s[..|s| - 1], s[|s| - 1];
      if IsSeparator(last) then Words(front) else AddTo(Words(front), front != [] &&
          !IsSeparator(front[|front| - 1]), last)
  }

  /** `c` goes on with the last word, or starts a new one. */
  function AddTo(words: seq<string>, goesOn: bool, c: char): seq<string> {
    if goesOn && words != [] then words[..|words| - 1] + [words[|words| - 1] + [c]] else words + [[c]]
  }

  ghost predicate AllSeparators(s: string) {
    forall c | c in s :: IsSeparator(c)
  }

  lemma {:induction false} WordsBefore(s: string, b: string)
    requires AllSeparators(b)
    ensures Words(s + b) == Words(s)
  {
    if b == [] {
      assert s + b == s;
    } else {
      var all := s + b;
      assert all[..|all| - 1] == s + b[..|b| - 1] && all[|all| - 1] == b[|b| - 1];
      assert b[|b| - 1] in b;
      WordsBefore(s, b[..|b| - 1]);
    }
  }

  lemma {:induction false} NoWords(a: string)
    requires AllSeparators(a)
    ensures Words(a) == []
  {
    assert [] + a == a;
    WordsBefore([], a);
  }

  lemma {:induction false} WordsAfter(a: string, s: string)
    requires AllSeparators(a)
    ensures Words(a + s) == Words(s)
  {
    if s == [] {
      assert a + s == a;
      NoWords(a);
    } else {
      var all, front := a + s, s[..|s| - 1];
      assert all[..|all| - 1] == a + front && all[|all| - 1] == s[|s| - 1];
      WordsAfter(a, front);
      if front == [] && a != [] {
        assert (a + front)[|a + front| - 1] in a;
      }
    }
  }

  lemma {:induction false} CollapsedEnds(s: string)
    requires s != []
    ensures Collapse(s) != [] && IsSeparator(Collapse(s)[|Collapse(s)| - 1]) == IsSeparator(s[|s| - 1])
  {
    if |s| > 1 {
      CollapsedEnds(s[..|s| - 1]);
    }
  }

  lemma {:induction false} CollapseKeepsWords(s: string)
    ensures Words(Collapse(s)) == Words(s)
  {
    if s != [] {
      var front, last := s[..|s| - 1], s[|s| - 1];
      CollapseKeepsWords(front);
      if front != [] {
        CollapsedEnds(front);
      }
      if !IsSeparator(last) {
        assert Collapse(s)[..|Collapse(s)| - 1] == Collapse(front);
      } else if Collapse(s) != Collapse(front) {
        assert Collapse(s)[..|Collapse(s)| - 1] == Collapse(front) && IsSeparator(' ');
      }
    }
  }

  lemma LowerOfParts(a: string, m: string, b: string)
    ensures Lower(a + m + b) == Lower(a) + Lower(m) + Lower(b)
  {
  }

  lemma SpacesStaySeparators(a: string)
    requires AllSpace(a)
    ensures AllSeparators(Lower(a))
  {
    forall c | c in Lower(a) ensures IsSeparator(c) {
      var i :| 0 <= i < |a| && Lower(a)[i] == c;
      assert a[i] in a;
    }
  }

  /** Normalising keeps the words, in lower case, and what lies between two of them becomes one space. */
  lemma NormaliseKeepsWords(text: string)
    ensures Words(Normalise(text)) == Words(Lower(text)) && Plain(Normalise(text))
  {
    StripExactly(text);
    var a, b :| text == a + Strip(text) + b && AllSpace(a) && AllSpace(b);
    LowerOfParts(a, Strip(text), b);
    SpacesStaySeparators(a);
    SpacesStaySeparators(b);
    WordsBefore(Lower(a) + Lower(Strip(text)), Lower(b));
    WordsAfter(Lower(a), Lower(Strip(text)));
    CollapseKeepsWords(Lower(Strip(text)));
    NormaliseTwice(text);
  }
}
