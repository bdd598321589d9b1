/** Wrapping lines of known lengths (`_count_wrapped_lines` in backend/agent/miro_generation.py). */
module LineWrapping {

  /** The rows that a line of `length` visible characters takes. */
  function Rows(length: nat, perLine: int): (rows: nat)
    requires perLine > 0
    ensures rows >= 1
  {
    if length == 0 then 1
    else if (length + perLine - 1) / perLine >= 1 then (length + perLine - 1) / perLine else 1
  }

  function RowsUpTo(lengths: seq<nat>, perLine: int, n: nat): nat
    requires perLine > 0 && n <= |lengths|
  {
    if n == 0 then 0 else RowsUpTo(lengths, perLine, n - 1) + Rows(lengths[n - 1], perLine)
  }

  function Total(lengths: seq<nat>, n: nat): nat
    requires n <= |lengths|
  {
    if n == 0 then 0 else Total(lengths, n - 1) + lengths[n - 1]
  }

  lemma RowsSuffice(length: nat, perLine: int)
    requires perLine > 0
    ensures Rows(length, perLine) * perLine >= length
  {
  }

  lemma Distribute(a: int, b: int, c: int)
    ensures (a + b) * c == a * c + b * c
  {
  }

  /** All the lines fit in the rows counted, and every line has a row. */
  lemma {:induction false} EnoughRows(lengths: seq<nat>, perLine: int, n: nat)
    requires perLine > 0 && n <= |lengths|
    ensures RowsUpTo(lengths, perLine, n) >= n
    ensures RowsUpTo(lengths, perLine, n) * perLine >= Total(lengths, n)
  {
    if n > 0 {
      EnoughRows(lengths, perLine, n - 1);
      RowsSuffice(lengths[n - 1], perLine);
      Distribute(RowsUpTo(lengths, perLine, n - 1), Rows(lengths[n - 1], perLine), perLine);
    }
  }
}

/** The lines of a text, and the rows they take on the board (backend/agent/miro_generation.py). */
module MiroText {
  import opened Json
  import opened LineWrapping

  function Max(a: real, b: real): real { if a >= b then a else b }

  function Min(a: real, b: real): real { if a <= b then a else b }

  function MaxInt(a: int, b: int): int { if a >= b then a else b }

  function Ceil(x: real): int {
    if x.Floor as real == x then x.Floor else x.Floor + 1
  }

  predicate IsLineBreak(c: char) {
    var n := c as int;
    10 <= n <= 13 || 28 <= n <= 30 || n == 0x85 || n == 0x2028 || n == 0x2029
  }

  /** Where the first line of `s` ends, from `i` on. */
  function LineEnd(s: string, i: nat): (e: nat)
    requires i <= |s|
    ensures i <= e <= |s|
    ensures e < |s| ==> IsLineBreak(s[e])
    ensures forall j | i <= j < e :: !IsLineBreak(s[j])
    decreases |s| - i
  {
    if i < |s| && !IsLineBreak(s[i]) then LineEnd(s, i + 1) else i
  }

  /** A line break is one character, or a carriage return and a line feed. */
  function BreakLength(s: string, e: nat): nat
    requires e < |s|
  {
    if s[e] == '\r' && e + 1 < |s| && s[e + 1] == '\n' then 2 else 1
  }

  /** `s.splitlines()` */
  function SplitLines(s: string): seq<string>
    decreases |s|
  {
    if s == [] then []
    else
      var e := LineEnd(s, 0);
      [s[..e]] + if e < |s| then SplitLines(s[e + BreakLength(s, e)..]) else []
  }

  function TextLines(content: string): (r: seq<string>)
    ensures r != []
  {
    if content == [] then [content] else SplitLines(content)
  }

  function NewLines(s: string): nat {
    if s == [] then 0 else NewLines(s[..|s| - 1]) + if s[|s| - 1] == '\n' then 1 else 0
  }

  function CharsPerLine(width: real, fontSize: real): (n: int)
    ensures n >= 8
  {
    MaxInt(8, (width / Max(fontSize * 0.58, 1.0)).Floor)
  }

  function Lengths(lines: seq<string>): (r: seq<nat>)
    ensures |r| == |lines| && forall i | 0 <= i < |lines| :: r[i] == |Strip(lines[i])|
  {
    seq(|lines|, i requires 0 <= i < |lines| => |Strip(lines[i])|)
  }

  function WrappedLines(content: string, width: real, fontSize: real): nat {
    var lengths := Lengths(TextLines(content));
    MaxInt(NewLines(content) + 1, RowsUpTo(lengths, CharsPerLine(width, fontSize), |lengths|))
  }

  method CountRows(lines: seq<string>, perLine: int) returns (rows: nat)
    requires perLine > 0
    ensures rows == RowsUpTo(Lengths(lines), perLine, |lines|)
  {
    ghost var lengths := Lengths(lines);
    rows := 0;
    for i := 0 to |lines|
      invariant rows == RowsUpTo(lengths, perLine, i)
    {
      assert RowsUpTo(lengths, perLine, i + 1) == rows + Rows(lengths[i], perLine);
      var length := |Strip(lines[i])|;
      if length == 0 {
        rows := rows + 1;
      } else {
        rows := rows + MaxInt(1, (length + perLine - 1) / perLine);
      }
    }
  }

  /** All the text fits in the lines counted, and every line break gets its line. */
  method CountWrappedLines(content: string, width: real, fontSize: real) returns (n: nat)
    ensures n == WrappedLines(content, width, fontSize)
    ensures n > NewLines(content) && n >= |TextLines(content)|
    ensures n * CharsPerLine(width, fontSize) >= Total(Lengths(TextLines(content)), |TextLines(content)|)
  {
    var lines, perLine := TextLines(content), CharsPerLine(width, fontSize);
    var rows := CountRows(lines, perLine);
    n := MaxInt(NewLines(content) + 1, rows);
    EnoughRows(Lengths(lines), perLine, |lines|);
    Distribute(rows, n - rows, perLine);
  }
}
