/**
 Bounded excerpts of a parser range: head and tail, or head, middle and tail, trimmed
 to whole characters.
 */
module Excerpts {
  import opened Core
  import opened Utf8
  import opened EmbeddingInput

  const MAX_SYMBOL_SOURCE_BYTES: nat := 16 * 1024

  datatype SourceFragment = SourceFragment(range: Range, text: Str)

  /** A non-degenerate or empty range of whole characters. */
  predicate WholeCharacters(source: seq<byte>, range: Range) {
    range.start <= range.end <= |source| && IsBoundary(source, range.start) && IsBoundary(source, range.end)
  }

  /** `&source[range]`, kept with the place it came from. */
  function Slice(source: Str, range: Range): SourceFragment
    requires WholeCharacters(source, range)
  {
    SliceWellFormed(source, range.start, range.end);
    SourceFragment(range, source[range.start..range.end])
  }

  /** `prefix`, by where it ends: the longest whole-character prefix of at most `max` bytes. */
  method PrefixEnd(value: Str, max: nat) returns (end: nat)
    ensures end == Floor(value, Min(|value|, max))
  {
    end := AlignDown(value, Min(|value|, max));
  }

  /** Bytes an excerpt of one symbol may retain. */
  function ExcerptLimit(allowance: nat): nat {
    Min(allowance, MAX_SYMBOL_SOURCE_BYTES)
  }

  /** Where the head of an oversized range ends. */
  function HeadEnd(source: seq<byte>, range: Range, limit: nat): nat
    requires WholeCharacters(source, range)
  {
    range.start + Floor(source[range.start..range.end], limit / 2)
  }

  /** Where the tail of an oversized range starts. */
  function TailStart(source: seq<byte>, range: Range, limit: nat): nat
    requires WholeCharacters(source, range) && limit < range.Length()
  {
    var body := source[range.start..range.end];
    var head := Floor(body, limit / 2);
    range.start + Ceil(body, |body| - (limit - head))
  }

  lemma HeadAndTail(source: seq<byte>, range: Range, limit: nat)
    requires WellFormed(source) && WholeCharacters(source, range) && limit < range.Length()
    ensures range.start <= HeadEnd(source, range, limit) < TailStart(source, range, limit) <= range.end
    ensures IsBoundary(source, HeadEnd(source, range, limit)) && IsBoundary(source, TailStart(source, range, limit))
    ensures HeadEnd(source, range, limit) - range.start + range.end - TailStart(source, range, limit) <= limit
  {
    var body := source[range.start..range.end];
    var head := Floor(body, limit / 2);
    SliceBoundary(source, range.start, range.end, head);
    SliceBoundary(source, range.start, range.end, Ceil(body, |body| - (limit - head)));
  }

  /** The whole range when it fits, otherwise its head and tail, empty ones left out. */
  function Fragments(source: Str, range: Range, allowance: nat): seq<SourceFragment>
    requires WholeCharacters(source, range)
  {
    var limit := ExcerptLimit(allowance);
    if limit == 0 then []
    else if range.Length() <= limit then [Slice(source, range)]
    else
      HeadAndTail(source, range, limit);
      HeadAndTailOf(source, range, HeadEnd(source, range, limit), TailStart(source, range, limit))
  }

  function HeadAndTailOf(source: Str, range: Range, head: nat, tail: nat): seq<SourceFragment>
    requires WholeCharacters(source, range) && range.start <= head && tail <= range.end
    requires head <= |source| && IsBoundary(source, head) && IsBoundary(source, tail)
  {
    (if range.start < head then [Slice(source, Range(range.start, head))] else []) +
    (if tail < range.end then [Slice(source, Range(tail, range.end))] else [])
  }

  method TakeFragments(source: Str, range: Range, allowance: nat) returns (result: seq<SourceFragment>)
    requires WholeCharacters(source, range)
    ensures result == Fragments(source, range, allowance)
  {
    var limit := ExcerptLimit(allowance);
    if limit == 0 {
      return [];
    }
    SliceWellFormed(source, range.start, range.end);
    var body: Str := source[range.start..range.end];
    if |body| <= limit {
      return [SourceFragment(range, body)];
    }
    result := TakeHeadAndTail(source, range, body, limit);
  }

  method TakeHeadAndTail(source: Str, range: Range, body: Str, limit: nat) returns (result: seq<SourceFragment>)
    requires WholeCharacters(source, range) && body == source[range.start..range.end] && limit < |body|
    ensures HeadEnd(source, range, limit) < TailStart(source, range, limit) <= range.end
    ensures IsBoundary(source, HeadEnd(source, range, limit)) && IsBoundary(source, TailStart(source, range, limit))
    ensures result ==
            HeadAndTailOf(source, range, HeadEnd(source, range, limit), TailStart(source, range, limit))
  {
    hide Floor, Ceil, WellFormed, HeadAndTailOf, Slice;
    HeadAndTail(source, range, limit);
    var head := PrefixEnd(body, limit / 2);
    var tail := AlignUp(body, |body| - (limit - head));
    result := HeadAndTailOf(source, range, range.start + head, range.start + tail);
  }

  /** The whole characters inside a byte window, if any. */
  function Trim(source: Str, start: nat, end: nat): Option<SourceFragment>
    requires start <= end <= |source|
  {
    var first := Min(Ceil(source, start), end);
    var last := Max(Floor(source, end), first);
    if first < last then Some(Slice(source, Range(first, last))) else None
  }

  method TrimWindow(source: Str, from: nat, to: nat) returns (r: Option<SourceFragment>)
    requires from <= to <= |source|
    ensures r == Trim(source, from, to)
  {
    var start, end := from, to;
    while start < end && !IsBoundary(source, start)
      invariant from <= start <= end && Ceil(source, start) == Ceil(source, from)
    {
      start := start + 1;
    }
    while end > start && !IsBoundary(source, end)
      invariant start <= end <= to && Floor(source, end) == Floor(source, to)
    {
      end := end - 1;
    }
    if start < end {
      return Some(Slice(source, Range(start, end)));
    }
    return None;
  }

  /** Start of the k-th of three windows of a given width: head, middle, tail. */
  function WindowStart(range: Range, width: nat, k: nat): int
    requires k < 3
  {
    if k == 0 then range.start
    else if k == 1 then range.start + (range.Length() - width) / 2
    else range.end - width
  }

  function Present(f: Option<SourceFragment>): seq<SourceFragment> {
    if f.Some? then [f.value] else []
  }

  /** The windows lie in order inside the range. */
  lemma WindowsAreOrdered(range: Range, width: nat)
    requires range.start <= range.end && 3 * width <= range.Length()
    ensures range.start == WindowStart(range, width, 0)
    ensures WindowStart(range, width, 0) + width <= WindowStart(range, width, 1)
    ensures WindowStart(range, width, 1) + width <= WindowStart(range, width, 2)
    ensures WindowStart(range, width, 2) + width == range.end
  {
  }

  /** The trimmed windows of one width at three places. */
  function TrimEach(source: Str, a: nat, b: nat, c: nat, width: nat): seq<SourceFragment>
    requires a + width <= |source| && b + width <= |source| && c + width <= |source|
  {
    Present(Trim(source, a, a + width)) + Present(Trim(source, b, b + width)) + Present(Trim(source, c, c + width))
  }

  function Windows(source: Str, range: Range, width: nat): seq<SourceFragment>
    requires WholeCharacters(source, range) && 3 * width <= range.Length()
  {
    WindowsAreOrdered(range, width);
    TrimEach(source, range.start, WindowStart(range, width, 1), range.end - width, width)
  }

  method TakeWindows(source: Str, range: Range, width: nat) returns (result: seq<SourceFragment>)
    requires WholeCharacters(source, range) && 3 * width <= range.Length()
    ensures result == Windows(source, range, width)
  {
    hide Trim, Present, WellFormed, IsBoundary;
    WindowsAreOrdered(range, width);
    var start: nat := WindowStart(range, width, 1);
    var head := TrimWindow(source, range.start, range.start + width);
    var middle := TrimWindow(source, start, start + width);
    var tail := TrimWindow(source, range.end - width, range.end);
    result := Present(head) + Present(middle) + Present(tail);
  }

  /** The whole range when it fits, otherwise three windows of a third of the limit each. */
  function MiddleFragments(source: Str, range: Range, allowance: nat): seq<SourceFragment>
    requires WholeCharacters(source, range)
  {
    var limit := ExcerptLimit(allowance);
    if range.Length() <= limit || limit < 3 then Fragments(source, range, allowance)
    else Windows(source, range, limit / 3)
  }

  method TakeMiddleFragments(source: Str, range: Range, allowance: nat) returns (result: seq<SourceFragment>)
    requires WholeCharacters(source, range)
    ensures result == MiddleFragments(source, range, allowance)
  {
    var limit := ExcerptLimit(allowance);
    if range.Length() <= limit || limit < 3 {
      result := TakeFragments(source, range, allowance);
    } else {
      result := TakeWindows(source, range, limit / 3);
    }
  }

  // ---------------------------------------------------------------- properties

  /** Bytes retained by a list of fragments. */
  function TextBytes(fragments: seq<SourceFragment>): nat {
    if fragments == [] then 0
    else TextBytes(fragments[..|fragments| - 1]) + |fragments[|fragments| - 1].text|
  }

  lemma {:induction false} TextBytesConcat(a: seq<SourceFragment>, b: seq<SourceFragment>)
    ensures TextBytes(a + b) == TextBytes(a) + TextBytes(b)
  {
    if b == [] {
      assert a + b == a;
    } else {
      TextBytesConcat(a, b[..|b| - 1]);
      assert (a + b)[..|a + b| - 1] == a + b[..|b| - 1];
    }
  }

  predicate ExactSlice(source: seq<byte>, range: Range, f: SourceFragment) {
    && range.start <= f.range.start < f.range.end <= range.end
    && f.range.end <= |source|
    && IsBoundary(source, f.range.start) && IsBoundary(source, f.range.end)
    && f.text == source[f.range.start..f.range.end]
  }

  /** Non-empty exact slices of the source, in order and disjoint, inside `range`. */
  ghost predicate ExcerptOf(source: seq<byte>, range: Range, fragments: seq<SourceFragment>) {
    && (forall i | 0 <= i < |fragments| :: ExactSlice(source, range, fragments[i]))
    && (forall i, j | 0 <= i < j < |fragments| :: fragments[i].range.end <= fragments[j].range.start)
  }

  lemma ExcerptsJoin(
    source: seq<byte>, range: Range, left: seq<SourceFragment>, right: seq<SourceFragment>, cut: nat)
    requires range.start <= cut <= range.end
    requires ExcerptOf(source, Range(range.start, cut), left) && ExcerptOf(source, Range(cut, range.end), right)
    ensures ExcerptOf(source, range, left + right)
    ensures TextBytes(left + right) == TextBytes(left) + TextBytes(right)
  {
    TextBytesConcat(left, right);
    var all := left + right;
    forall i | 0 <= i < |all|
      ensures ExactSlice(source, range, all[i])
    {
      if i < |left| {
        assert ExactSlice(source, Range(range.start, cut), left[i]);
      } else {
        assert ExactSlice(source, Range(cut, range.end), right[i - |left|]);
      }
    }
    forall i, j | 0 <= i < j < |all|
      ensures all[i].range.end <= all[j].range.start
    {
      if i < |left| <= j {
        assert ExactSlice(source, Range(range.start, cut), left[i]);
        assert ExactSlice(source, Range(cut, range.end), right[j - |left|]);
      } else if |left| <= i {
        assert all[i] == right[i - |left|] && all[j] == right[j - |left|];
      }
    }
  }

  lemma ExcerptWidens(source: seq<byte>, inner: Range, outer: Range, fragments: seq<SourceFragment>)
    requires ExcerptOf(source, inner, fragments) && outer.start <= inner.start && inner.end <= outer.end
    ensures ExcerptOf(source, outer, fragments)
  {
    assert forall i | 0 <= i < |fragments| :: ExactSlice(source, inner, fragments[i]);
  }

  lemma TrimIsExcerpt(source: Str, start: nat, end: nat)
    requires start <= end <= |source|
    ensures ExcerptOf(source, Range(start, end), Present(Trim(source, start, end)))
    ensures TextBytes(Present(Trim(source, start, end))) <= end - start
  {
  }

  lemma SliceIsExcerpt(source: Str, range: Range)
    requires WholeCharacters(source, range)
    ensures range.start < range.end ==> ExcerptOf(source, range, [Slice(source, range)])
    ensures TextBytes([Slice(source, range)]) == range.Length()
  {
  }

  lemma HeadAndTailAreExcerpts(source: Str, range: Range, head: nat, tail: nat)
    requires WholeCharacters(source, range) && range.start <= head < tail <= range.end
    requires IsBoundary(source, head) && IsBoundary(source, tail)
    ensures ExcerptOf(source, range, HeadAndTailOf(source, range, head, tail))
    ensures TextBytes(HeadAndTailOf(source, range, head, tail)) == head - range.start + range.end - tail
  {
    hide WellFormed, ExcerptOf, TextBytes, Slice;
    HeadIsExcerpt(source, Range(range.start, head));
    HeadIsExcerpt(source, Range(tail, range.end));
    var left := if range.start < head then [Slice(source, Range(range.start, head))] else [];
    var right := if tail < range.end then [Slice(source, Range(tail, range.end))] else [];
    ExcerptWidens(source, Range(tail, range.end), Range(head, range.end), right);
    ExcerptsJoin(source, range, left, right, head);
  }

  lemma HeadIsExcerpt(source: Str, range: Range)
    requires WholeCharacters(source, range)
    ensures var fs := if range.start < range.end then [Slice(source, range)] else [];
            ExcerptOf(source, range, fs) && TextBytes(fs) == range.Length()
  {
    if range.start < range.end {
      SliceIsExcerpt(source, range);
    }
  }

  /** Head and tail, or the whole range, stay within the limit, in order and disjoint. */
  lemma FragmentsAreExcerpts(source: Str, range: Range, allowance: nat)
    requires WholeCharacters(source, range) && range.start < range.end
    ensures ExcerptOf(source, range, Fragments(source, range, allowance))
    ensures TextBytes(Fragments(source, range, allowance)) <= Min(allowance, 16 * 1024)
  {
    var limit := ExcerptLimit(allowance);
    hide HeadEnd, TailStart, HeadAndTailOf, WellFormed;
    if 0 < limit < range.Length() {
      HeadAndTail(source, range, limit);
      HeadAndTailAreExcerpts(source, range, HeadEnd(source, range, limit), TailStart(source, range, limit));
    } else {
      SliceIsExcerpt(source, range);
    }
  }

  /** An oversized range of whole characters loses at most three bytes of the limit, and neither end. */
  lemma HeadAndTailFill(source: Str, range: Range, limit: nat)
    requires WholeCharacters(source, range) && 8 <= limit < range.Length()
    ensures range.start < HeadEnd(source, range, limit) && TailStart(source, range, limit) < range.end
    ensures limit - 3 <= HeadEnd(source, range, limit) - range.start + range.end - TailStart(source, range, limit)
  {
    SliceWellFormed(source, range.start, range.end);
    var body := source[range.start..range.end];
    hide WellFormed, IsBoundary;
    AlignmentGap(body, limit / 2);
    AlignmentGap(body, |body| - (limit - Floor(body, limit / 2)));
  }

  /** Head and tail keep both ends of the range and all of the limit but three bytes. */
  lemma FragmentsFill(source: Str, range: Range, allowance: nat)
    requires WholeCharacters(source, range) && 8 <= allowance
    ensures var fs := Fragments(source, range, allowance);
            && fs != [] && fs[0].range.start == range.start && fs[|fs| - 1].range.end == range.end
            && Min(Min(allowance, 16 * 1024) - 3, range.Length()) <= TextBytes(fs)
  {
    var limit := ExcerptLimit(allowance);
    hide HeadEnd, TailStart, WellFormed, IsBoundary;
    if range.Length() <= limit {
      SliceIsExcerpt(source, range);
    } else {
      HeadAndTail(source, range, limit);
      HeadAndTailFill(source, range, limit);
      HeadAndTailAreExcerpts(source, range, HeadEnd(source, range, limit), TailStart(source, range, limit));
    }
  }

  lemma WindowsAreExcerpts(source: Str, range: Range, width: nat)
    requires WholeCharacters(source, range) && 3 * width <= range.Length()
    ensures ExcerptOf(source, range, Windows(source, range, width))
    ensures TextBytes(Windows(source, range, width)) <= 3 * width
  {
    hide Trim, ExcerptOf, TextBytes, Present, WellFormed;
    WindowsAreOrdered(range, width);
    var a, b, c := range.start, WindowStart(range, width, 1), range.end - width;
    TrimIsExcerpt(source, a, a + width);
    TrimIsExcerpt(source, b, b + width);
    TrimIsExcerpt(source, c, c + width);
    var head, middle := Present(Trim(source, a, a + width)), Present(Trim(source, b, b + width));
    var tail := Present(Trim(source, c, c + width));
    ExcerptWidens(source, Range(b, b + width), Range(a + width, b + width), middle);
    ExcerptWidens(source, Range(c, c + width), Range(b + width, range.end), tail);
    ExcerptsJoin(source, Range(a, b + width), head, middle, a + width);
    ExcerptsJoin(source, range, head + middle, tail, b + width);
  }

  /** Head, middle and tail together stay within the limit, in order and disjoint. */
  lemma MiddleFragmentsAreExcerpts(source: Str, range: Range, allowance: nat)
    requires WholeCharacters(source, range) && range.start < range.end
    ensures ExcerptOf(source, range, MiddleFragments(source, range, allowance))
    ensures TextBytes(MiddleFragments(source, range, allowance)) <= Min(allowance, 16 * 1024)
  {
    var limit := ExcerptLimit(allowance);
    if range.Length() <= limit || limit < 3 {
      FragmentsAreExcerpts(source, range, allowance);
    } else {
      WindowsAreExcerpts(source, range, limit / 3);
    }
  }

  // ------------------------------------------------------------- the midpoint

  /** The middle byte of a range. */
  function Midpoint(range: Range): nat {
    (range.start + range.end) / 2
  }

  ghost predicate CoveredBy(fragments: seq<SourceFragment>, x: nat) {
    exists i | 0 <= i < |fragments| :: fragments[i].range.start <= x < fragments[i].range.end
  }

  /** A window of at least seven bytes holds a whole character. */
  lemma TrimLosesThree(source: Str, start: nat, end: nat)
    requires start + 7 <= end <= |source|
    ensures Trim(source, start, end).Some?
    ensures Trim(source, start, end).value.range.start <= start + 3
    ensures end - 3 <= Trim(source, start, end).value.range.end
    ensures IsBoundary(source, start) ==> Trim(source, start, end).value.range.start == start
    ensures IsBoundary(source, end) ==> Trim(source, start, end).value.range.end == end
  {
    AlignmentGap(source, start);
    AlignmentGap(source, end);
  }

  lemma CoveredByEither(a: seq<SourceFragment>, b: seq<SourceFragment>, x: nat)
    ensures CoveredBy(a + b, x) <==> CoveredBy(a, x) || CoveredBy(b, x)
  {
    if i :| 0 <= i < |a| && a[i].range.start <= x < a[i].range.end {
      assert (a + b)[i] == a[i];
    }
    if i :| 0 <= i < |b| && b[i].range.start <= x < b[i].range.end {
      assert (a + b)[|a| + i] == b[i];
    }
  }

  predicate Holds(f: Option<SourceFragment>, x: nat) {
    f.Some? && f.value.range.start <= x < f.value.range.end
  }

  lemma CoveredByOne(f: Option<SourceFragment>, x: nat)
    ensures CoveredBy(Present(f), x) <==> Holds(f, x)
  {
    if f.Some? {
      assert Present(f)[0] == f.value;
    }
  }

  /** A byte is kept exactly when one of the three trimmed windows holds it. */
  lemma WindowsCover(source: Str, range: Range, width: nat, x: nat)
    requires WholeCharacters(source, range) && 3 * width <= range.Length()
    ensures var b := WindowStart(range, width, 1);
            && range.start + width <= b && b + width <= range.end - width
            && (CoveredBy(Windows(source, range, width), x) <==>
                  || Holds(Trim(source, range.start, range.start + width), x)
                  || Holds(Trim(source, b, b + width), x)
                  || Holds(Trim(source, range.end - width, range.end), x))
  {
    hide Trim, WellFormed, Holds, CoveredBy, Present;
    WindowsAreOrdered(range, width);
    var b := WindowStart(range, width, 1);
    var head, middle := Trim(source, range.start, range.start + width), Trim(source, b, b + width);
    var tail := Trim(source, range.end - width, range.end);
    CoveredByEither(Present(head) + Present(middle), Present(tail), x);
    CoveredByEither(Present(head), Present(middle), x);
    CoveredByOne(head, x);
    CoveredByOne(middle, x);
    CoveredByOne(tail, x);
  }

  /** With windows of seven bytes none is lost, and the outer ones keep the range's ends. */
  lemma WindowsKeepEnds(source: Str, range: Range, width: nat)
    requires WholeCharacters(source, range) && 7 <= width && 3 * width <= range.Length()
    ensures |Windows(source, range, width)| == 3
    ensures Windows(source, range, width)[0].range.start == range.start
    ensures Windows(source, range, width)[2].range.end == range.end
  {
    hide Trim, WellFormed, IsBoundary;
    WindowsAreOrdered(range, width);
    var b := WindowStart(range, width, 1);
    TrimLosesThree(source, range.start, range.start + width);
    TrimLosesThree(source, b, b + width);
    TrimLosesThree(source, range.end - width, range.end);
  }

  /** With windows of at least eight bytes the middle one covers the middle byte. */
  lemma WindowsCoverMidpoint(source: Str, range: Range, width: nat)
    requires WholeCharacters(source, range) && 8 <= width && 3 * width <= range.Length()
    ensures CoveredBy(Windows(source, range, width), Midpoint(range))
  {
    hide Trim, WellFormed, IsBoundary, CoveredBy, Windows;
    WindowsAreOrdered(range, width);
    var b := WindowStart(range, width, 1);
    TrimLosesThree(source, b, b + width);
    WindowsCover(source, range, width, Midpoint(range));
  }

  /** A limit that keeps the whole range, or windows of eight bytes, keeps its middle byte. */
  predicate KeepsMiddle(range: Range, allowance: nat) {
    var limit := ExcerptLimit(allowance);
    24 <= limit || range.Length() <= limit
  }

  lemma MiddleIsKept(source: Str, range: Range, allowance: nat)
    requires WholeCharacters(source, range) && range.start < range.end && KeepsMiddle(range, allowance)
    ensures var fs := MiddleFragments(source, range, allowance);
            && fs != [] && fs[0].range.start == range.start && fs[|fs| - 1].range.end == range.end
            && CoveredBy(fs, Midpoint(range))
  {
    var limit := ExcerptLimit(allowance);
    if range.Length() <= limit {
      assert MiddleFragments(source, range, allowance)[0].range == range;
    } else {
      WindowsKeepEnds(source, range, limit / 3);
      WindowsCoverMidpoint(source, range, limit / 3);
    }
  }

  /** Twenty-four bytes of four-byte characters. */
  function FourByteText(): (s: Str)
    ensures |s| == 24 && forall i | 0 <= i <= 24 :: IsBoundary(s, i) <==> i % 4 == 0
  {
    var s: seq<byte> := seq(24, i => if i % 4 == 0 then 0xF0 else 0x9F);
    assert WellFormed(s) by {
      forall i | 0 <= i < 24
        ensures WellPlaced(s, i)
      {
      }
    }
    s
  }

  lemma FourByteFloor(i: nat)
    requires i <= 24
    ensures Floor(FourByteText(), i) == i - i % 4
    ensures Ceil(FourByteText(), i) == if i % 4 == 0 then i else i + 4 - i % 4
  {
    var s := FourByteText();
    FloorIsLast(s, i, i - i % 4);
    if i % 4 != 0 {
      CeilIsFirst(s, i, i + 4 - i % 4);
    }
  }

  lemma MiddleWindowStops(width: nat)
    requires 1 <= width <= 7
    ensures var b := WindowStart(Range(0, 24), width, 1);
            0 <= b && b + width <= 15 && Floor(FourByteText(), b + width) <= 12
  {
    FourByteFloor(WindowStart(Range(0, 24), width, 1) + width);
  }

  /** In windows shorter than eight bytes, four-byte characters can hide the middle byte. */
  lemma ShortWindowsMissMidpoint(width: nat)
    requires 1 <= width <= 7
    ensures !CoveredBy(Windows(FourByteText(), Range(0, 24), width), 12)
  {
    hide FourByteText, WellFormed, Trim, Floor, CoveredBy, IsBoundary, WindowStart;
    var s, range := FourByteText(), Range(0, 24);
    var b := WindowStart(range, width, 1);
    MiddleWindowStops(width);
    TrimIsInside(s, 0, width);
    TrimIsInside(s, b, b + width);
    TrimIsInside(s, 24 - width, 24);
    WindowsCover(s, range, width, 12);
  }

  lemma TrimIsInside(source: Str, start: nat, end: nat)
    requires start <= end <= |source|
    ensures var t := Trim(source, start, end);
            t.Some? ==> start <= t.value.range.start < t.value.range.end <= Floor(source, end)
  {
    FloorIsLast(source, end, Floor(source, end));
  }

  lemma TinyExcerptsMissMidpoint(allowance: nat)
    requires allowance < 3
    ensures Fragments(FourByteText(), Range(0, 24), allowance) == []
  {
    if 0 < allowance {
      assert FourByteText()[0..24] == FourByteText();
      FourByteFloor(allowance / 2);
      FourByteFloor(24 - allowance);
    }
  }

  /** The middle byte of every range too long to keep survives exactly when windows reach eight bytes. */
  lemma MidpointThreshold(allowance: nat)
    ensures (forall source: Str, range: Range |
               WholeCharacters(source, range) && ExcerptLimit(allowance) < range.Length() ::
               CoveredBy(MiddleFragments(source, range, allowance), Midpoint(range)))
            <==> 24 <= allowance
  {
    if 24 <= allowance {
      forall source: Str, range: Range | WholeCharacters(source, range) && ExcerptLimit(allowance) < range.Length()
        ensures CoveredBy(MiddleFragments(source, range, allowance), Midpoint(range))
      {
        MiddleIsKept(source, range, allowance);
      }
    } else {
      var source, range := FourByteText(), Range(0, 24);
      assert WholeCharacters(source, range) && ExcerptLimit(allowance) < range.Length();
      if allowance < 3 {
        TinyExcerptsMissMidpoint(allowance);
      } else {
        ShortWindowsMissMidpoint(allowance / 3);
      }
      assert !CoveredBy(MiddleFragments(source, range, allowance), Midpoint(range));
    }
  }
}
