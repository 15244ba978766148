/** Parser positions, given as lines and byte columns, turned into byte offsets. */
module SourceLines {
  import opened Core
  import opened Utf8
  import opened EmbeddingInput
  import Excerpts

  const NEWLINE: byte := 10
  const RETURN: byte := 13

  /** A parser range: both ends as a line and a byte column, counted from zero. */
  datatype LineRange = LineRange(startLine: nat, startColumn: nat, endLine: nat, endColumn: nat)

  // ------------------------------------------------------------------ reference

  /** Newlines before an offset. */
  function LineOf(s: seq<byte>, p: nat): nat
    requires p <= |s|
  {
    if p == 0 then 0 else LineOf(s, p - 1) + if s[p - 1] == 10 then 1 else 0
  }

  /** Where the line that holds an offset starts. */
  function LineStart(s: seq<byte>, p: nat): (start: nat)
    requires p <= |s|
    ensures start <= p
  {
    if p == 0 || s[p - 1] == 10 then p else LineStart(s, p - 1)
  }

  predicate LineBreak(b: byte) {
    b == NEWLINE || b == RETURN
  }

  /** Nothing but line breaks from an offset to the end of its line. */
  predicate OnlyBreaks(s: seq<byte>, p: nat)
    requires p <= |s|
    decreases |s| - p
  {
    p == |s| || s[p] == 10 || (s[p] == 13 && OnlyBreaks(s, p + 1))
  }

  /** The offset is the start of its line, or something other than line breaks is left of it or further. */
  predicate InContent(s: seq<byte>, p: nat)
    requires p <= |s|
  {
    LineStart(s, p) == p || !OnlyBreaks(s, p - 1)
  }

  /** An offset sits at a line and byte column, on a character, before the line's trailing breaks. */
  predicate At(s: seq<byte>, p: nat, line: nat, column: nat) {
    && p <= |s| && IsBoundary(s, p) && InContent(s, p)
    && LineOf(s, p) == line && p - LineStart(s, p) == column
  }

  // ------------------------------------------------------------------ line starts

  /** Starts of the lines that begin at or before `n`. */
  function Lines(s: seq<byte>, n: nat): (lines: seq<nat>)
    requires n <= |s|
  {
    if n == 0 then [0] else Lines(s, n - 1) + if s[n - 1] == NEWLINE then [n] else []
  }

  method LineStarts(s: seq<byte>) returns (lines: seq<nat>)
    ensures lines == Lines(s, |s|)
  {
    lines := [0];
    for i := 0 to |s|
      invariant lines == Lines(s, i)
    {
      if s[i] == NEWLINE {
        lines := lines + [i + 1];
      }
    }
  }

  /** Line `l` starts at the one offset that has `l` newlines before it and begins a line. */
  lemma {:induction false} LinesHold(s: seq<byte>, n: nat)
    requires n <= |s|
    ensures |Lines(s, n)| == LineOf(s, n) + 1
    ensures forall l | 0 <= l < |Lines(s, n)| ::
              Lines(s, n)[l] <= n && LineOf(s, Lines(s, n)[l]) == l && LineStart(s, Lines(s, n)[l]) == Lines(s, n)[l]
  {
    if n > 0 {
      LinesHold(s, n - 1);
    }
  }

  /** The table finds the line of every offset. */
  lemma {:induction false} LinesFind(s: seq<byte>, n: nat, p: nat)
    requires p <= n <= |s|
    ensures LineOf(s, p) < |Lines(s, n)| && Lines(s, n)[LineOf(s, p)] == LineStart(s, p)
  {
    if p < n {
      LinesFind(s, n - 1, p);
    } else if p > 0 {
      LinesFind(s, n - 1, p - 1);
      LinesHold(s, n - 1);
    }
  }

  lemma {:induction false} LinesCountUp(s: seq<byte>, p: nat, q: nat)
    requires p <= q <= |s|
    ensures LineOf(s, p) <= LineOf(s, q)
  {
    if p < q {
      LinesCountUp(s, p, q - 1);
    }
  }

  // ---------------------------------------------------------------------- offsets

  /** `trim_end_matches(['\n', '\r'])`: where a line's content ends. */
  function TrimEnd(s: seq<byte>, start: nat, end: nat): (e: nat)
    requires start <= end <= |s|
    ensures start <= e <= end
  {
    if start < end && LineBreak(s[end - 1]) then TrimEnd(s, start, end - 1) else end
  }

  /** Where line `line` ends, its break included. */
  function EndOfLine(s: seq<byte>, lines: seq<nat>, line: nat): nat {
    if line + 1 < |lines| then lines[line + 1] else |s|
  }

  function Offset(s: seq<byte>, lines: seq<nat>, line: nat, column: nat): (p: Option<nat>) {
    if |lines| <= line then None
    else
      var start, end := lines[line], EndOfLine(s, lines, line);
      if !(start <= end <= |s| && IsBoundary(s, start) && IsBoundary(s, end)) then None
      else
        var content := s[start..TrimEnd(s, start, end)];
        if column <= |content| && IsBoundary(content, column) then Some(start + column) else None
  }

  function SourceRange(s: seq<byte>, lines: seq<nat>, r: LineRange): (range: Option<Range>) {
    var start, end := Offset(s, lines, r.startLine, r.startColumn), Offset(s, lines, r.endLine, r.endColumn);
    if start.Some? && end.Some? && start.value < end.value then Some(Range(start.value, end.value)) else None
  }

  lemma {:induction false} TrimEndIsBoundary(s: seq<byte>, start: nat, end: nat)
    requires start <= end <= |s| && IsBoundary(s, start) && IsBoundary(s, end)
    ensures IsBoundary(s, TrimEnd(s, start, end))
  {
    if start < end && LineBreak(s[end - 1]) {
      TrimEndIsBoundary(s, start, end - 1);
    }
  }

  /** Whatever the table, an offset never splits a character. */
  lemma OffsetIsBoundary(s: seq<byte>, lines: seq<nat>, line: nat, column: nat)
    ensures var p := Offset(s, lines, line, column); p.Some? ==> p.value <= |s| && IsBoundary(s, p.value)
  {
    if Offset(s, lines, line, column).Some? {
      var start, end := lines[line], EndOfLine(s, lines, line);
      TrimEndIsBoundary(s, start, end);
      SliceBoundary(s, start, TrimEnd(s, start, end), column);
    }
  }

  /** A range found is a non-empty range of whole characters. */
  lemma SourceRangeSelects(s: seq<byte>, lines: seq<nat>, r: LineRange)
    ensures var range := SourceRange(s, lines, r);
            range.Some? ==> Excerpts.WholeCharacters(s, range.value) && range.value.start < range.value.end
  {
    OffsetIsBoundary(s, lines, r.startLine, r.startColumn);
    OffsetIsBoundary(s, lines, r.endLine, r.endColumn);
  }

  // ------------------------------------------------------------------- round trip

  /** One line of the table: it holds exactly the offsets between its start and its end. */
  ghost predicate IsLine(s: seq<byte>, line: nat, start: nat, end: nat) {
    && start <= end <= |s| && LineStart(s, start) == start && LineOf(s, start) == line
    && (forall p | start <= p < end - 1 :: s[p] != NEWLINE)
    && (end == |s| || (start < end && s[end - 1] == NEWLINE))
  }

  lemma {:induction false} NoNewlineBetween(s: seq<byte>, p: nat, q: nat)
    requires p <= q <= |s| && LineOf(s, q) <= LineOf(s, p)
    ensures forall k | p <= k < q :: s[k] != NEWLINE
  {
    if p < q {
      LinesCountUp(s, p, q - 1);
      NoNewlineBetween(s, p, q - 1);
    }
  }

  lemma TableHoldsLines(s: seq<byte>, line: nat)
    requires line < |Lines(s, |s|)|
    ensures IsLine(s, line, Lines(s, |s|)[line], EndOfLine(s, Lines(s, |s|), line))
  {
    var lines := Lines(s, |s|);
    LinesHold(s, |s|);
    var start, end := lines[line], EndOfLine(s, lines, line);
    if line + 1 < |lines| {
      if end <= start {
        LinesCountUp(s, end, start);
      }
      NoNewlineBetween(s, start, end - 1);
    } else {
      NoNewlineBetween(s, start, end);
    }
  }

  /** Every offset after the start and before the end of a line is on that line. */
  lemma {:induction false} OnLine(s: seq<byte>, line: nat, start: nat, end: nat, p: nat)
    requires IsLine(s, line, start, end) && start <= p <= end
    requires p < end || end == start || s[end - 1] != NEWLINE
    ensures LineStart(s, p) == start && LineOf(s, p) == line
  {
    if start < p {
      OnLine(s, line, start, end, p - 1);
    }
  }

  lemma {:induction false} TrimmedBreaks(s: seq<byte>, start: nat, end: nat)
    requires start <= end <= |s|
    ensures forall k | TrimEnd(s, start, end) <= k < end :: LineBreak(s[k])
    ensures start < TrimEnd(s, start, end) ==> !LineBreak(s[TrimEnd(s, start, end) - 1])
  {
    if start < end && LineBreak(s[end - 1]) {
      TrimmedBreaks(s, start, end - 1);
    }
  }

  /** Only breaks are left on a line exactly from where its content was trimmed. */
  lemma {:induction false} BreaksFrom(s: seq<byte>, line: nat, start: nat, end: nat, p: nat)
    requires IsLine(s, line, start, end) && start <= p < end
    ensures OnlyBreaks(s, p) <==> TrimEnd(s, start, end) <= p
    decreases end - p
  {
    TrimmedBreaks(s, start, end);
    if p + 1 < end {
      BreaksFrom(s, line, start, end, p + 1);
    }
  }

  /** An offset of the line is in its content exactly up to where the line was trimmed. */
  lemma ContentEnds(s: seq<byte>, line: nat, start: nat, end: nat, p: nat)
    requires IsLine(s, line, start, end) && start <= p <= end && LineStart(s, p) == start
    ensures InContent(s, p) <==> p <= TrimEnd(s, start, end)
  {
    if start < p {
      BreaksFrom(s, line, start, end, p - 1);
    }
  }

  /** A position names an offset exactly when the offset sits at that position. */
  lemma OffsetIsAt(s: Str, line: nat, column: nat, p: nat)
    ensures Offset(s, Lines(s, |s|), line, column) == Some(p) <==> At(s, p, line, column)
  {
    var lines := Lines(s, |s|);
    if At(s, p, line, column) {
      LinesFind(s, |s|, p);
    }
    LinesHold(s, |s|);
    if line < |lines| {
      OffsetOnLine(s, line, column, p);
    }
  }

  lemma OffsetOnLine(s: Str, line: nat, column: nat, p: nat)
    requires line < |Lines(s, |s|)|
    ensures Offset(s, Lines(s, |s|), line, column) == Some(p) <==> At(s, p, line, column)
  {
    var lines := Lines(s, |s|);
    var start, end := lines[line], EndOfLine(s, lines, line);
    TableHoldsLines(s, line);
    LineEndsAreBoundaries(s, line, start, end);
    TrimEndIsBoundary(s, start, end);
    TrimmedBreaks(s, start, end);
    var trimmed := TrimEnd(s, start, end);
    if At(s, p, line, column) {
      LinesFind(s, |s|, p);
      AtStaysOnLine(s, line, start, end, p);
      ContentEnds(s, line, start, end, p);
      SliceBoundary(s, start, trimmed, column);
    } else if Offset(s, lines, line, column) == Some(p) {
      SliceBoundary(s, start, trimmed, column);
      OnLine(s, line, start, end, p);
      ContentEnds(s, line, start, end, p);
    }
  }

  lemma LineEndsAreBoundaries(s: Str, line: nat, start: nat, end: nat)
    requires IsLine(s, line, start, end)
    ensures IsBoundary(s, start) && IsBoundary(s, end)
  {
    AfterNewline(s, start);
    AfterNewline(s, end);
  }

  /** A newline is a whole character. */
  lemma AfterNewline(s: Str, p: nat)
    requires p <= |s| && (p == 0 || p == |s| || s[p - 1] == NEWLINE)
    ensures IsBoundary(s, p)
  {
    if 0 < p < |s| {
      NextBoundary(s, p - 1);
    }
  }

  lemma AtStaysOnLine(s: seq<byte>, line: nat, start: nat, end: nat, p: nat)
    requires IsLine(s, line, start, end) && p <= |s| && LineOf(s, p) == line && LineStart(s, p) == start
    ensures p <= end
  {
    if end < p {
      LinesCountUp(s, end, p);
      LinesCountUp(s, start, end - 1);
    }
  }

  /** A parser range selects exactly the source between its two positions, or nothing. */
  lemma SourceRangeIsAt(s: Str, r: LineRange, a: nat, b: nat)
    ensures SourceRange(s, Lines(s, |s|), r) == Some(Range(a, b)) <==>
              a < b && At(s, a, r.startLine, r.startColumn) && At(s, b, r.endLine, r.endColumn)
  {
    OffsetIsAt(s, r.startLine, r.startColumn, a);
    OffsetIsAt(s, r.endLine, r.endColumn, b);
  }
}
