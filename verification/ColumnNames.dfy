/** How column names are compared (`_normalise` in backend/agent/column_registry.py). */
module ColumnNames {
  import opened Json

  /** What the pattern `[\s_]` matches. */
  predicate IsSeparator(c: char) {
    IsSpace(c) || c == '_'
  }

  function LowerChar(c: char): char {
    if 'A' <= c <= 'Z' then c - 'A' + 'a' else c
  }

  function Lower(s: string): (r: string)
    ensures |r| == |s| && forall i | 0 <= i < |s| :: r[i] == LowerChar(s[i])
  {
    if s == [] then [] else Lower(s[..|s| - 1]) + [LowerChar(s[|s| - 1])]
  }

  /** Each run of separators becomes one space. */
  function Collapse(s: string): string {
    if s == [] then []
    else
      var front, last := s[..|s| - 1], s[|s| - 1];
      if !IsSeparator(last) then Collapse(front) + [last]
      else if front != [] && IsSeparator(front[|front| - 1]) then Collapse(front)
      else Collapse(front) + [' ']
  }

  function Normalise(text: string): string {
    Collapse(Lower(Strip(text)))
  }

  predicate PlainChar(before: char, c: char) {
    LowerChar(c) == c && (IsSeparator(c) ==> c == ' ' && !IsSeparator(before))
  }

  /** No capitals, and separators are single spaces. */
  predicate Plain(s: string) {
    s == [] || (Plain(s[..|s| - 1]) && PlainChar(if |s| == 1 then '-' else s[|s| - 2], s[|s| - 1]))
  }

  predicate HasOuterSpace(s: string) {
    s != [] && (IsSpace(s[0]) || IsSpace(s[|s| - 1]))
  }

  predicate IsLower(s: string) {
    forall i | 0 <= i < |s| :: LowerChar(s[i]) == s[i]
  }

  lemma {:induction false} CollapsedIsPlain(s: string)
    requires IsLower(s)
    ensures Plain(Collapse(s))
    ensures s != [] ==> Collapse(s) != []
    ensures s != [] ==> IsSeparator(Collapse(s)[|Collapse(s)| - 1]) == IsSeparator(s[|s| - 1])
  {
    if s != [] {
      var front, c := s[..|s| - 1], s[|s| - 1];
      CollapsedIsPlain(front);
      assert LowerChar(c) == c;
      if Collapse(s) != Collapse(front) {
        assert Collapse(s)[..|Collapse(s)| - 1] == Collapse(front);
      }
    }
  }

  lemma {:induction false} PlainIsFixed(s: string)
    requires Plain(s)
    ensures Collapse(s) == s && Lower(s) == s
  {
    if s != [] {
      PlainIsFixed(s[..|s| - 1]);
      assert s == s[..|s| - 1] + [s[|s| - 1]];
    }
  }

  lemma {:induction false} CollapsedIsNoLonger(s: string)
    ensures |Collapse(s)| <= |s|
  {
    if s != [] {
      CollapsedIsNoLonger(s[..|s| - 1]);
    }
  }

  lemma {:induction false} StrippedIsNoLonger(s: string)
    ensures |StripLeft(s)| <= |s| && |StripRight(s)| <= |s|
  {
    if s != [] {
      StrippedIsNoLonger(s[1..]);
      StrippedIsNoLonger(s[..|s| - 1]);
    }
  }

  /** Normalising a second time changes nothing exactly when the first left no space at either end. */
  lemma NormaliseTwice(text: string)
    ensures Plain(Normalise(text))
    ensures Normalise(Normalise(text)) == Normalise(text) <==> !HasOuterSpace(Normalise(text))
  {
    var once := Normalise(text);
    CollapsedIsPlain(Lower(Strip(text)));
    if HasOuterSpace(once) {
      var stripped := Strip(once);
      StrippedIsNoLonger(once);
      StrippedIsNoLonger(once[1..]);
      StrippedIsNoLonger(once[..|once| - 1]);
      StrippedIsNoLonger(StripLeft(once));
      assert |stripped| < |once|;
      CollapsedIsNoLonger(Lower(stripped));
    } else {
      PlainIsFixed(once);
    }
  }
}
