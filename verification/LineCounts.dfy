/** How many rows a text takes, from both sides, and the height an item gets (backend/agent/miro_generation.py). */
module LineCounts {
  import opened Json
  import opened LineWrapping
  import opened MiroItems
  import opened MiroText
  import opened Results

  // ----- the lines of a text

  /** Position `i` starts a line break; a line feed after a carriage return belongs to that one. */
  predicate StartsBreak(s: string, i: nat)
    requires i < |s|
  {
    IsLineBreak(s[i]) && !(s[i] == '\n' && i > 0 && s[i - 1] == '\r')
  }

  /** The line breaks of `s` from `i` on. */
  function Breaks(s: string, i: nat): nat
    requires i <= |s|
    decreases |s| - i
  {
    if i == |s| then 0 else (if StartsBreak(s, i) then 1 else 0) + Breaks(s, i + 1)
  }

  /** What is no part of a line break. */
  function Visible(s: string): string {
    if s == [] then [] else (if IsLineBreak(s[0]) then [] else [s[0]]) + Visible(s[1..])
  }

  function Joined(lines: seq<string>): string {
    if lines == [] then [] else lines[0] + Joined(lines[1..])
  }

  predicate Unbroken(line: string) {
    forall c | c in line :: !IsLineBreak(c)
  }

  lemma {:induction false} VisibleOfLine(s: string, e: nat)
    requires e <= |s| && forall j | 0 <= j < e :: !IsLineBreak(s[j])
    ensures Visible(s) == s[..e] + Visible(s[e..])
    decreases e
  {
    if e > 0 {
      VisibleOfLine(s[1..], e - 1);
      assert s[1..][e - 1..] == s[e..] && s[..e] == [s[0]] + s[1..][..e - 1];
    } else {
      assert s[0..] == s;
    }
  }

  lemma VisibleAfterBreak(s: string, e: nat)
    requires e < |s| && IsLineBreak(s[e])
    ensures e + BreakLength(s, e) <= |s| && Visible(s[e..]) == Visible(s[e + BreakLength(s, e)..])
  {
    assert s[e..][1..] == s[e + 1..];
    if BreakLength(s, e) == 2 {
      assert s[e + 1..][1..] == s[e + 2..] && s[e + 1..][0] == s[e + 1];
    }
  }

  /** The lines hold all that is no line break, in order, and nothing else. */
  lemma {:induction false} LinesAreVisible(s: string)
    ensures Joined(SplitLines(s)) == Visible(s)
    ensures forall line | line in SplitLines(s) :: Unbroken(line)
    decreases |s|
  {
    if s != [] {
      var e := LineEnd(s, 0);
      VisibleOfLine(s, e);
      if e < |s| {
        VisibleAfterBreak(s, e);
        var rest := s[e + BreakLength(s, e)..];
        LinesAreVisible(rest);
        assert SplitLines(s) == [s[..e]] + SplitLines(rest);
        assert SplitLines(s)[1..] == SplitLines(rest);
      } else {
        assert SplitLines(s) == [s[..e]] && SplitLines(s)[1..] == [];
        assert Visible(s[e..]) == [];
      }
    }
  }

  lemma {:induction false} NoBreaks(s: string, i: nat, e: nat)
    requires i <= e <= |s| && forall j | i <= j < e :: !StartsBreak(s, j)
    ensures Breaks(s, i) == Breaks(s, e)
    decreases e - i
  {
    if i < e {
      NoBreaks(s, i + 1, e);
    }
  }

  /** The breaks after the first one are those of the rest. */
  lemma {:induction false} BreaksOfRest(s: string, k: nat, i: nat)
    requires k <= i <= |s| && (k == 0 || k == |s| || !(s[k] == '\n' && s[k - 1] == '\r'))
    ensures Breaks(s, i) == Breaks(s[k..], i - k)
    decreases |s| - i
  {
    if i < |s| {
      BreaksOfRest(s, k, i + 1);
      assert StartsBreak(s, i) == StartsBreak(s[k..], i - k);
    }
  }

  lemma OneBreak(s: string, e: nat)
    requires e < |s| && IsLineBreak(s[e]) && forall j | 0 <= j < e :: !IsLineBreak(s[j])
    ensures e + BreakLength(s, e) <= |s| && Breaks(s, 0) == 1 + Breaks(s[e + BreakLength(s, e)..], 0)
  {
    var k := e + BreakLength(s, e);
    NoBreaks(s, 0, e);
    NoBreaks(s, e + 1, k);
    BreaksOfRest(s, k, k);
  }

  /** One line for every line break, and one for what comes after the last. */
  lemma {:induction false} LinesAreCounted(s: string)
    ensures |SplitLines(s)| == Breaks(s, 0) + if s == [] || IsLineBreak(s[|s| - 1]) then 0 else 1
    decreases |s|
  {
    if s != [] {
      var e := LineEnd(s, 0);
      if e < |s| {
        OneBreak(s, e);
        LinesAreCounted(s[e + BreakLength(s, e)..]);
      } else {
        NoBreaks(s, 0, e);
      }
    }
  }

  lemma {:induction false} LineFeedsAreCounted(s: string)
    ensures NewLines(s) == multiset(s)['\n']
  {
    if s != [] {
      LineFeedsAreCounted(s[..|s| - 1]);
      assert s == s[..|s| - 1] + [s[|s| - 1]];
    }
  }

  // ----- the rows of the lines

  /** As many rows as hold the line, and no row too many. */
  lemma RowsExactly(length: nat, perLine: int)
    requires perLine > 0
    ensures var rows := Rows(length, perLine);
            && rows * perLine >= length
            && (rows == 1 || (rows - 1) * perLine < length)
  {
  }

  /** Each line wastes less than a row, unless it is empty. */
  lemma {:induction false} FewRows(lengths: seq<nat>, perLine: int, n: nat)
    requires perLine > 0 && n <= |lengths|
    ensures RowsUpTo(lengths, perLine, n) * perLine <= Total(lengths, n) + n * perLine
  {
    if n > 0 {
      var before, last := RowsUpTo(lengths, perLine, n - 1), Rows(lengths[n - 1], perLine);
      FewRows(lengths, perLine, n - 1);
      RowsExactly(lengths[n - 1], perLine);
      Distribute(before, last, perLine);
      Distribute(last - 1, 1, perLine);
      Distribute(n - 1, 1, perLine);
    }
  }

  lemma Whole(q: real, n: int)
    requires n == q.Floor
    ensures n as real <= q < (n + 1) as real
  {
  }

  lemma Narrower(width: real, glyph: real, low: real, q: real, high: real)
    requires glyph > 0.0 && q * glyph == width && low <= q < high
    ensures low * glyph <= width < high * glyph
  {
    Scaled(low, q, glyph);
    Scaled(q, high, glyph);
  }

  lemma Quotient(width: real, glyph: real)
    requires glyph > 0.0
    ensures width / glyph * glyph == width
  {
  }

  lemma Scaled(a: real, b: real, glyph: real)
    requires glyph > 0.0
    ensures a <= b ==> a * glyph <= b * glyph
    ensures a < b ==> a * glyph < b * glyph
  {
    if a < b {
      assert (b - a) * glyph > 0.0;
    }
  }

  /** As many characters of this width as fit, but at least eight. */
  ghost predicate FitsWidth(n: int, width: real, glyph: real) {
    n >= 8 && width < (n + 1) as real * glyph && (n == 8 || n as real * glyph <= width)
  }

  lemma AtLeastEight(fits: int, width: real, glyph: real)
    requires glyph > 0.0 && fits as real * glyph <= width && width < (fits + 1) as real * glyph
    ensures FitsWidth(MaxInt(8, fits), width, glyph)
  {
    if fits < 8 {
      Scaled((fits + 1) as real, 9.0, glyph);
    }
  }

  /** A character is 0.58 of the font size wide, and at least a pixel. */
  lemma CharsPerLineExactly(width: real, fontSize: real)
    ensures FitsWidth(CharsPerLine(width, fontSize), width, if fontSize * 0.58 > 1.0 then fontSize * 0.58 else 1.0)
  {
    var glyph := Max(fontSize * 0.58, 1.0);
    var fits := (width / glyph).Floor;
    Quotient(width, glyph);
    Whole(width / glyph, fits);
    Narrower(width, glyph, fits as real, width / glyph, (fits + 1) as real);
    AtLeastEight(fits, width, glyph);
  }

  lemma MoreRows(rows: nat, n: nat, perLine: int, total: nat)
    requires perLine > 0 && rows <= n && rows * perLine >= total
    ensures n * perLine >= total
  {
    Distribute(rows, n - rows, perLine);
  }

  /** The rows have room for all lines, and unless there are so many line feeds, no row too many. */
  ghost predicate NoRowTooMany(n: nat, lineFeeds: nat, lengths: seq<nat>, perLine: int) {
    && n > lineFeeds && n * perLine >= Total(lengths, |lengths|)
    && (n == lineFeeds + 1 || n * perLine <= Total(lengths, |lengths|) + |lengths| * perLine)
  }

  lemma LargerOfBoth(rows: nat, lineFeeds: nat, lengths: seq<nat>, perLine: int)
    requires perLine > 0 && rows == RowsUpTo(lengths, perLine, |lengths|)
    ensures NoRowTooMany(MaxInt(lineFeeds + 1, rows), lineFeeds, lengths, perLine)
  {
    EnoughRows(lengths, perLine, |lengths|);
    FewRows(lengths, perLine, |lengths|);
    MoreRows(rows, MaxInt(lineFeeds + 1, rows), perLine, Total(lengths, |lengths|));
  }

  lemma WrappedExactly(content: string, width: real, fontSize: real)
    ensures NoRowTooMany(WrappedLines(content, width, fontSize), NewLines(content), Lengths(TextLines(content)),
                         CharsPerLine(width, fontSize))
  {
    var lengths, perLine := Lengths(TextLines(content)), CharsPerLine(width, fontSize);
    LargerOfBoth(RowsUpTo(lengths, perLine, |lengths|), NewLines(content), lengths, perLine);
  }

  /** An item's text is wrapped at 24 pixels less than its width. */
  lemma LinesExactly(item: Item) returns (perLine: int)
    ensures FitsWidth(perLine, item.Width() - 24.0,
                      if item.FontSize() * 0.58 > 1.0 then item.FontSize() * 0.58 else 1.0)
    ensures NoRowTooMany(Lines(item), NewLines(item.content), Lengths(TextLines(item.content)), perLine)
  {
    perLine := CharsPerLine(item.Width() - 24.0, item.FontSize());
    CharsPerLineExactly(item.Width() - 24.0, item.FontSize());
    WrappedExactly(item.content, item.Width() - 24.0, item.FontSize());
  }

  // ----- the height

  /**
   The height is kept when its whole pixels have room for the text; otherwise it is the least whole height
   that has.
   */
  ghost predicate LeastHeight(h: real, given: real, text: real) {
    if text <= given.Floor as real then h == given
    else h > given && h == h.Floor as real && text <= h < text + 1.0
  }

  lemma WholeBetween(text: real, c: int, given: real, f: int)
    requires (c - 1) as real < text <= c as real && f as real <= given < (f + 1) as real
    ensures c as real <= given <==> text <= f as real
  {
    if c <= f {
      assert c as real <= f as real;
    } else {
      assert (f + 1) as real <= c as real && f as real <= (c - 1) as real;
    }
  }

  lemma CeilIsNext(x: real)
    ensures (Ceil(x) - 1) as real < x <= Ceil(x) as real && (Ceil(x) as real).Floor == Ceil(x)
  {
  }

  lemma HeightForExactly(given: real, text: real)
    ensures LeastHeight(HeightFor(given, text), given, text)
  {
    CeilIsNext(text);
    WholeBetween(text, Ceil(text), given, given.Floor);
  }

  lemma HeightExactly(item: Item)
    ensures if HoldsText(item.kind)
            then LeastHeight(EstimatedHeight(item), item.Height(),
                             TextHeight(Lines(item), LineHeight(item), Padding(item)))
            else EstimatedHeight(item) == item.Height()
  {
    HeightForExactly(item.Height(), TextHeight(Lines(item), LineHeight(item), Padding(item)));
  }

  // ----- examples

  /** An item a hundred pixels wide, of the default font size, that says "a". */
  function Short(kind: Kind, bold: bool): Item {
    Item(Id("x"), kind, None, None, None, Some(100.0), None, None, "a", Style(None, bold))
  }

  lemma ShortTakesOneRow(kind: Kind, bold: bool)
    ensures Lines(Short(kind, bold)) == 1
  {
    assert LineEnd("a", 0) == LineEnd("a", 1) == 1 && "a"[..1] == "a";
    assert SplitLines("a") == ["a"];
    assert NewLines("a") == NewLines("a"[..0]) == 0;
    assert StripLeft("a") == "a" && StripRight("a") == "a";
    assert Lengths(["a"]) == [1];
    assert RowsUpTo([1], CharsPerLine(76.0, 14.0), 1) == RowsUpTo([1], CharsPerLine(76.0, 14.0), 0) + 1;
  }

  /** The heights of short items: of a text, a shape and a sticky note. */
  lemma ShortHeights(bold: bool)
    ensures EstimatedHeight(Short(Text, bold)) == if bold then 39.0 else 35.0
    ensures EstimatedHeight(Short(Shape, bold)) == if bold then 49.0 else 43.0
    ensures EstimatedHeight(Short(StickyNote, bold)) == if bold then 47.0 else 43.0
  {
    ShortTakesOneRow(Text, bold);
    ShortTakesOneRow(Shape, bold);
    ShortTakesOneRow(StickyNote, bold);
    assert '\n' !in "a";
  }

  /** A line feed makes the padding 6 larger, and more than 120 characters make it 8 larger. */
  lemma PaddingGrows(item: Item, content: string)
    requires '\n' !in item.content && |item.content| <= 120
    ensures Padding(item.(content := content))
         == Padding(item) + (if exists k :: 0 <= k < |content| && content[k] == '\n' then 6 else 0)
            + (if |content| > 120 then 8 else 0)
  {
  }
}
