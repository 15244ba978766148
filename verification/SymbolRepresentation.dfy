/** The inputs embedded for one symbol: its header with each selected segment of its source. */
module SymbolRepresentation {
  import opened Core
  import opened Utf8
  import opened EmbeddingInput
  import opened Excerpts
  import Selection

  const MAX_SYMBOL_SEGMENTS: nat := 8

  datatype CodeEmbeddingPolicy = DocComment | SymbolBodyV1 | SymbolBodyV2

  datatype SymbolSource = SymbolSource(header: Str, fragments: seq<SourceFragment>, policy: CodeEmbeddingPolicy)

  datatype SymbolInput = SymbolInput(text: seq<byte>, sourceRange: Option<Range>)

  /** A range of a fragment's text. */
  datatype Piece = Piece(fragment: nat, range: Range)

  // -------------------------------------------------------- pieces of all fragments

  function Tag(fragment: nat, ranges: seq<Range>): seq<Piece> {
    seq(|ranges|, k requires 0 <= k < |ranges| => Piece(fragment, ranges[k]))
  }

  /** The pieces of fragment 0, then those of fragment 1, and so on. */
  function Flat(parts: seq<seq<Range>>): seq<Piece> {
    if parts == [] then [] else Flat(parts[..|parts| - 1]) + Tag(|parts| - 1, parts[|parts| - 1])
  }

  lemma FlatMore(parts: seq<seq<Range>>, ranges: seq<Range>)
    ensures Flat(parts + [ranges]) == Flat(parts) + Tag(|parts|, ranges)
  {
    assert (parts + [ranges])[..|parts|] == parts;
  }

  /** Every piece is one of its fragment's ranges. */
  lemma {:induction false} FlatSource(parts: seq<seq<Range>>, a: nat)
    requires a < |Flat(parts)|
    ensures Flat(parts)[a].fragment < |parts|
    ensures var p := Flat(parts)[a];
            exists k | 0 <= k < |parts[p.fragment]| :: parts[p.fragment][k] == p.range
  {
    var last := |parts| - 1;
    var front := Flat(parts[..last]);
    if a < |front| {
      FlatSource(parts[..last], a);
    } else {
      assert Flat(parts)[a] == Tag(last, parts[last])[a - |front|];
      assert parts[last][a - |front|] == Flat(parts)[a].range;
    }
  }

  /** Every range of every fragment is a piece. */
  lemma {:induction false} FlatHolds(parts: seq<seq<Range>>, i: nat, k: nat) returns (a: nat)
    requires i < |parts| && k < |parts[i]|
    ensures a < |Flat(parts)| && Flat(parts)[a] == Piece(i, parts[i][k])
  {
    var last := |parts| - 1;
    if i < last {
      a := FlatHolds(parts[..last], i, k);
    } else {
      a := |Flat(parts[..last])| + k;
    }
  }

  /** Earlier pieces are from earlier fragments, or earlier in the same one. */
  ghost predicate Before(p: Piece, q: Piece) {
    p.fragment < q.fragment || (p.fragment == q.fragment && p.range.end <= q.range.start)
  }

  /** The splitter's own answer for one text: a partition into accepted inputs. */
  ghost predicate IsSplit(budget: InputBudget, header: seq<byte>, text: seq<byte>, ranges: seq<Range>) {
    && Partition(text, ranges)
    && AllAccepted(budget, header, text, ranges)
    && SplitterTakes(budget, header, text, ranges)
  }

  /** Each fragment's ranges are the splitter's answer for its text. */
  ghost predicate Splits(budget: InputBudget, source: SymbolSource, parts: seq<seq<Range>>) {
    && |parts| <= |source.fragments|
    && (forall i | 0 <= i < |parts| :: IsSplit(budget, source.header, source.fragments[i].text, parts[i]))
  }

  lemma {:induction false} FlatOrdered(
    budget: InputBudget, source: SymbolSource, parts: seq<seq<Range>>, a: nat, b: nat)
    requires Splits(budget, source, parts) && a < b < |Flat(parts)|
    ensures Before(Flat(parts)[a], Flat(parts)[b])
  {
    hide SplitterTakes, AllAccepted, Cuts;
    var last := |parts| - 1;
    var front := Flat(parts[..last]);
    if b < |front| {
      FlatOrdered(budget, source, parts[..last], a, b);
    } else if a < |front| {
      FlatSource(parts[..last], a);
    } else {
      assert IsSplit(budget, source.header, source.fragments[last].text, parts[last]);
      CutsAscend(source.fragments[last].text, parts[last], |source.fragments[last].text|, a - |front|, b - |front|);
    }
  }

  /** A piece of a split: non-empty, aligned, and accepted beside the header. */
  ghost predicate GoodPiece(budget: InputBudget, source: SymbolSource, p: Piece) {
    && p.fragment < |source.fragments|
    && var text := source.fragments[p.fragment].text;
    && p.range.start < p.range.end <= |text|
    && IsBoundary(text, p.range.start) && IsBoundary(text, p.range.end)
    && budget.Accepts(source.header + text[p.range.start..p.range.end])
  }

  lemma FlatIsGood(budget: InputBudget, source: SymbolSource, parts: seq<seq<Range>>, a: nat)
    requires Splits(budget, source, parts) && a < |Flat(parts)|
    ensures GoodPiece(budget, source, Flat(parts)[a])
  {
    hide SplitterTakes, Flat;
    FlatSource(parts, a);
    var p := Flat(parts)[a];
    assert IsSplit(budget, source.header, source.fragments[p.fragment].text, parts[p.fragment]);
    var k :| 0 <= k < |parts[p.fragment]| && parts[p.fragment][k] == p.range;
  }

  // ------------------------------------------------------------------ the inputs

  /** The input for one piece: the whole header, the piece, and where it came from. */
  function InputOf(source: SymbolSource, p: Piece): SymbolInput
    requires p.fragment < |source.fragments|
    requires p.range.start <= p.range.end <= |source.fragments[p.fragment].text|
  {
    var f := source.fragments[p.fragment];
    SymbolInput(
      source.header + f.text[p.range.start..p.range.end],
      Some(Range(f.range.start + p.range.start, f.range.start + p.range.end)))
  }

  /** The middle of everything the fragments span. */
  function SourceMidpoint(source: SymbolSource): nat
    requires source.fragments != []
  {
    (source.fragments[0].range.start + source.fragments[|source.fragments| - 1].range.end) / 2
  }

  predicate PieceCovers(source: SymbolSource, p: Piece, x: nat) {
    && p.fragment < |source.fragments|
    && var start := source.fragments[p.fragment].range.start;
       start + p.range.start <= x < start + p.range.end
  }

  predicate InputCovers(input: SymbolInput, x: nat) {
    input.sourceRange.Some? && input.sourceRange.value.start <= x < input.sourceRange.value.end
  }

  /** The selected pieces, in order, as inputs. */
  ghost predicate AreInputs(source: SymbolSource, pieces: seq<Piece>, chosen: seq<nat>, inputs: seq<SymbolInput>) {
    && |inputs| == |chosen|
    && (forall k | 0 <= k < |chosen| ::
          && chosen[k] < |pieces|
          && pieces[chosen[k]].fragment < |source.fragments|
          && pieces[chosen[k]].range.start <= pieces[chosen[k]].range.end
             <= |source.fragments[pieces[chosen[k]].fragment].text|
          && inputs[k] == InputOf(source, pieces[chosen[k]]))
  }

  /** A byte budget can split this text at all. */
  ghost predicate BytesFit(budget: InputBudget, header: seq<byte>, text: seq<byte>) {
    if text == [] then budget.Accepts(header) else exists rs: seq<Range> :: Feasible(budget.limit, header, text, rs)
  }

  /** The evidence behind one fragment's refused split. */
  ghost predicate SplitFails(budget: InputBudget, header: seq<byte>, text: seq<byte>, error: SplitError) {
    if text == [] then !budget.Accepts(header)
    else if budget.tokenizer.None? then !BytesFit(budget, header, text)
    else
      || (error.HeadingTooLong? && TokenCapacity(header) <= 0)
      || exists log, stuck ::
        Recorded(budget, header, text, Failure(error), log, stuck) &&
        HonestFailure(budget, header, text, error, log, stuck)
  }

  /** One fragment's split, with what either outcome says about the fragment. */
  method SplitOne(budget: InputBudget, header: Str, text: Str) returns (r: Result<seq<Range>, SplitError>)
    ensures r.Success? ==> IsSplit(budget, header, text, r.value)
    ensures r.Failure? ==> SplitFails(budget, header, text, r.error)
    ensures budget.tokenizer.None? ==> (r.Success? <==> BytesFit(budget, header, text))
  {
    hide Partition, AllAccepted, HonestFailure, Recorded, WellFormed, Feasible, SplitterTakes;
    ghost var log, stuck;
    r, log, stuck := DocumentRanges(budget, header, text);
  }

  /** Splits every fragment; fails only where a fragment's own split fails. */
  method SplitAll(source: SymbolSource, budget: InputBudget)
    returns (r: Result<seq<Piece>, SplitError>, ghost parts: seq<seq<Range>>)
    ensures Splits(budget, source, parts)
    ensures r.Success? ==> |parts| == |source.fragments| && r.value == Flat(parts)
    ensures r.Failure? ==>
              && |parts| < |source.fragments|
              && SplitFails(budget, source.header, source.fragments[|parts|].text, r.error)
    ensures budget.tokenizer.None? ==>
              (r.Success? <==> forall f | f in source.fragments :: BytesFit(budget, source.header, f.text))
  {
    parts := [];
    var pieces: seq<Piece> := [];
    hide SplitFails, BytesFit, IsSplit, WellFormed;
    for index := 0 to |source.fragments|
      invariant |parts| == index && Splits(budget, source, parts) && pieces == Flat(parts)
      invariant budget.tokenizer.None? ==>
                  forall i | 0 <= i < index :: BytesFit(budget, source.header, source.fragments[i].text)
    {
      var ranges := SplitOne(budget, source.header, source.fragments[index].text);
      if ranges.Failure? {
        assert source.fragments[index] in source.fragments;
        return Failure(ranges.error), parts;
      }
      FlatMore(parts, ranges.value);
      pieces := pieces + Tag(index, ranges.value);
      parts := parts + [ranges.value];
    }
    return Success(pieces), parts;
  }

  ghost predicate IsFirst(source: SymbolSource, pieces: seq<Piece>, x: nat, at: Option<nat>) {
    match at
    case None => forall k | 0 <= k < |pieces| :: !PieceCovers(source, pieces[k], x)
    case Some(i) =>
      && i < |pieces| && PieceCovers(source, pieces[i], x)
      && forall k | 0 <= k < i :: !PieceCovers(source, pieces[k], x)
  }

  /** Which pieces a policy selects: the first and last few, or the middle one first and then a spread. */
  ghost predicate Chosen(source: SymbolSource, pieces: seq<Piece>, chosen: seq<nat>) {
    && Selection.Selects(chosen, |pieces|, Min(|pieces|, MAX_SYMBOL_SEGMENTS))
    && if source.policy.SymbolBodyV2? then
         source.fragments != [] && exists centre ::
           IsFirst(source, pieces, SourceMidpoint(source), centre) &&
           Selection.IsCentred(chosen, |pieces|, centre, MAX_SYMBOL_SEGMENTS)
       else chosen == Selection.SelectedIndices(|pieces|, MAX_SYMBOL_SEGMENTS)
  }

  /** The first piece that covers a byte. */
  method Position(source: SymbolSource, pieces: seq<Piece>, x: nat) returns (centre: Option<nat>)
    ensures IsFirst(source, pieces, x, centre)
    ensures centre.Some? ==> centre.value < |pieces| && PieceCovers(source, pieces[centre.value], x)
    ensures centre.None? ==> forall k | 0 <= k < |pieces| :: !PieceCovers(source, pieces[k], x)
  {
    for i := 0 to |pieces|
      invariant forall k | 0 <= k < i :: !PieceCovers(source, pieces[k], x)
    {
      if PieceCovers(source, pieces[i], x) {
        return Some(i);
      }
    }
    return None;
  }

  /**
   At most eight of the pieces of all fragments, in source order. The final validation
   never rejects a piece: only the header check and the splits can fail.
   */
  method Inputs(source: SymbolSource, budget: InputBudget)
    returns (r: Result<seq<SymbolInput>, SplitError>, ghost parts: seq<seq<Range>>, ghost chosen: seq<nat>)
    ensures source.fragments == [] ==>
              && (r.Success? <==> budget.Accepts(source.header))
              && (r.Success? ==> r.value == [SymbolInput(source.header, None)])
    ensures source.fragments != [] ==>
              && Splits(budget, source, parts)
              && (r.Success? ==> |parts| == |source.fragments|)
              && (r.Failure? ==>
                    && |parts| < |source.fragments|
                    && SplitFails(budget, source.header, source.fragments[|parts|].text, r.error))
    ensures source.fragments != [] && budget.tokenizer.None? ==>
              (r.Success? <==> forall f | f in source.fragments :: BytesFit(budget, source.header, f.text))
    ensures source.fragments != [] && r.Success? ==>
              && IsAnswer(budget, source, parts, chosen, r.value)
              && |r.value| == Min(|Flat(parts)|, 8)
              && (forall k | 0 <= k < |r.value| :: budget.Accepts(r.value[k].text))
              && (Flat(parts) != [] ==> 0 in chosen && |Flat(parts)| - 1 in chosen)
    ensures source.fragments != [] && r.Success? && !source.policy.SymbolBodyV2? ==>
              forall i: nat | i < |Flat(parts)| ::
                i in chosen <==> |Flat(parts)| <= 8 || i < 4 || |Flat(parts)| - 4 <= i
    ensures source.fragments != [] && r.Success? && source.policy.SymbolBodyV2? ==>
              forall a | 0 <= a < |Flat(parts)| && PieceCovers(source, Flat(parts)[a], SourceMidpoint(source)) ::
                exists k | 0 <= k < |r.value| :: InputCovers(r.value[k], SourceMidpoint(source))
  {
    hide SplitFails, BytesFit, Splits, Flat, AreInputs, PieceCovers, InputCovers, Chosen;
    parts, chosen := [], [];
    if source.fragments == [] {
      var valid := budget.Validate([source.header]);
      assert [source.header][0] == source.header;
      if valid.Failure? {
        return Failure(valid.error), parts, chosen;
      }
      return Success([SymbolInput(source.header, None)]), parts, chosen;
    }
    var split;
    split, parts := SplitAll(source, budget);
    if split.Failure? {
      return Failure(split.error), parts, chosen;
    }
    var pieces := split.value;
    var selected, centre := ChooseSegments(source, pieces);
    var inputs := Render(source, budget, pieces, parts, selected);
    chosen := selected;
    if centre.Some? {
      CentreIsCovered(source, pieces, selected, inputs, centre.value, SourceMidpoint(source));
    }
    return Success(inputs), parts, chosen;
  }

  lemma FirstAndLastFour(len: nat)
    ensures forall i: nat | i < len ::
              i in Selection.SelectedIndices(len, MAX_SYMBOL_SEGMENTS) <==> len <= 8 || i < 4 || len - 4 <= i
  {
    forall i: nat | i < len
      ensures i in Selection.SelectedIndices(len, MAX_SYMBOL_SEGMENTS) <==> len <= 8 || i < 4 || len - 4 <= i
    {
      Selection.SelectedIndicesAre(len, MAX_SYMBOL_SEGMENTS, i);
    }
  }

  method ChooseSegments(source: SymbolSource, pieces: seq<Piece>) returns (chosen: seq<nat>, centre: Option<nat>)
    requires source.fragments != []
    ensures Chosen(source, pieces, chosen)
    ensures |chosen| == Min(|pieces|, MAX_SYMBOL_SEGMENTS) && forall k | 0 <= k < |chosen| :: chosen[k] < |pieces|
    ensures pieces != [] ==> 0 in chosen && |pieces| - 1 in chosen
    ensures !source.policy.SymbolBodyV2? ==>
              forall i: nat | i < |pieces| :: i in chosen <==> |pieces| <= 8 || i < 4 || |pieces| - 4 <= i
    ensures centre.Some? ==>
              centre.value in chosen && centre.value < |pieces| &&
              PieceCovers(source, pieces[centre.value], SourceMidpoint(source))
    ensures source.policy.SymbolBodyV2? && centre.None? ==>
              forall a | 0 <= a < |pieces| :: !PieceCovers(source, pieces[a], SourceMidpoint(source))
  {
    hide Selection.SelectedIndices, Selection.IsCentred, PieceCovers, Selection.MakesRoom, Selection.IsDistributed;
    if source.policy == SymbolBodyV2 {
      centre := Position(source, pieces, SourceMidpoint(source));
      chosen := Selection.CentreFirst(|pieces|, centre, MAX_SYMBOL_SEGMENTS);
    } else {
      Selection.SelectedIndicesSelect(|pieces|, MAX_SYMBOL_SEGMENTS);
      chosen, centre := Selection.SelectedIndices(|pieces|, MAX_SYMBOL_SEGMENTS), None;
      FirstAndLastFour(|pieces|);
    }
  }

  method Render(
    source: SymbolSource, budget: InputBudget, pieces: seq<Piece>, ghost parts: seq<seq<Range>>, chosen: seq<nat>)
    returns (inputs: seq<SymbolInput>)
    requires Splits(budget, source, parts) && pieces == Flat(parts)
    requires forall k | 0 <= k < |chosen| :: chosen[k] < |pieces|
    ensures AreInputs(source, pieces, chosen, inputs) && |inputs| == |chosen|
    ensures forall k | 0 <= k < |inputs| :: budget.Accepts(inputs[k].text)
  {
    hide Splits, Flat, WellFormed, IsBoundary;
    inputs := [];
    for k := 0 to |chosen|
      invariant AreInputs(source, pieces, chosen[..k], inputs)
      invariant forall j | 0 <= j < |inputs| :: budget.Accepts(inputs[j].text)
    {
      FlatIsGood(budget, source, parts, chosen[k]);
      var input := InputOf(source, pieces[chosen[k]]);
      var valid := budget.Validate([input.text]);
      assert valid.Success?;
      inputs := inputs + [input];
    }
    assert chosen[..|chosen|] == chosen;
  }

  lemma CentreIsCovered(
    source: SymbolSource, pieces: seq<Piece>, chosen: seq<nat>, inputs: seq<SymbolInput>, centre: nat, x: nat)
    requires AreInputs(source, pieces, chosen, inputs) && centre in chosen && centre < |pieces|
    requires PieceCovers(source, pieces[centre], x)
    ensures exists k | 0 <= k < |inputs| :: InputCovers(inputs[k], x)
  {
    var k :| 0 <= k < |chosen| && chosen[k] == centre;
    assert InputCovers(inputs[k], x);
  }

  // ---------------------------------------------------------------- one answer

  lemma SplitsAgree(budget: InputBudget, source: SymbolSource, parts: seq<seq<Range>>, parts': seq<seq<Range>>)
    requires Splits(budget, source, parts) && Splits(budget, source, parts') && |parts| == |parts'|
    ensures parts == parts'
  {
    hide Partition, AllAccepted, SplitterTakes;
    forall i | 0 <= i < |parts|
      ensures parts[i] == parts'[i]
    {
      var text := source.fragments[i].text;
      assert IsSplit(budget, source.header, text, parts[i]) && IsSplit(budget, source.header, text, parts'[i]);
      SplitterIsUnique(budget, source.header, text, parts[i], parts'[i]);
    }
  }

  /** A text the splitter answers for has no evidence of a failure. */
  lemma SplitExcludesFailure(budget: InputBudget, header: Str, text: Str, ranges: seq<Range>, error: SplitError)
    requires IsSplit(budget, header, text, ranges)
    ensures !SplitFails(budget, header, text, error)
  {
    hide Partition, AllAccepted, Greedy, Feasible, WellFormed, Recorded, HonestFailure;
    if text != [] && budget.tokenizer.Some? {
      var log' :| IsRecord(budget, header, text, ranges, log');
      hide IsRecord;
      SuccessHasRoom(budget, header, text, ranges, log');
      forall log, stuck | Recorded(budget, header, text, Failure(error), log, stuck)
        ensures !HonestFailure(budget, header, text, error, log, stuck)
      {
        FailureExcludesSuccess(budget, header, text, error, log, stuck, ranges, log');
      }
    }
  }

  lemma FirstsAgree(source: SymbolSource, pieces: seq<Piece>, x: nat, a: Option<nat>, b: Option<nat>)
    requires IsFirst(source, pieces, x, a) && IsFirst(source, pieces, x, b)
    ensures a == b
  {
    hide PieceCovers;
  }

  lemma ChosenAgree(source: SymbolSource, pieces: seq<Piece>, a: seq<nat>, b: seq<nat>)
    requires Chosen(source, pieces, a) && Chosen(source, pieces, b)
    ensures a == b
  {
    hide IsFirst, Selection.Selects, Selection.IsCentred;
    if source.policy.SymbolBodyV2? {
      var x := SourceMidpoint(source);
      var c :| IsFirst(source, pieces, x, c) && Selection.IsCentred(a, |pieces|, c, MAX_SYMBOL_SEGMENTS);
      var d :| IsFirst(source, pieces, x, d) && Selection.IsCentred(b, |pieces|, d, MAX_SYMBOL_SEGMENTS);
      FirstsAgree(source, pieces, x, c, d);
      Selection.CentredIsUnique(a, b, |pieces|, c, MAX_SYMBOL_SEGMENTS);
    }
  }

  /** What `Inputs` promises of a success over fragments. */
  ghost predicate IsAnswer(
    budget: InputBudget, source: SymbolSource, parts: seq<seq<Range>>, chosen: seq<nat>, inputs: seq<SymbolInput>)
  {
    && Splits(budget, source, parts) && |parts| == |source.fragments|
    && Chosen(source, Flat(parts), chosen)
    && AreInputs(source, Flat(parts), chosen, inputs)
  }

  /** A source has at most one list of inputs under a budget. */
  lemma InputsAreDetermined(
    budget: InputBudget, source: SymbolSource,
    parts: seq<seq<Range>>, chosen: seq<nat>, inputs: seq<SymbolInput>,
    parts': seq<seq<Range>>, chosen': seq<nat>, inputs': seq<SymbolInput>)
    requires IsAnswer(budget, source, parts, chosen, inputs)
    requires IsAnswer(budget, source, parts', chosen', inputs')
    ensures inputs == inputs'
  {
    hide Splits, Chosen, Flat;
    SplitsAgree(budget, source, parts, parts');
    ChosenAgree(source, Flat(parts), chosen, chosen');
  }

  // ------------------------------------------------------------------- source order

  /** An input built from an exact excerpt is the header and exact source. */
  lemma InputIsSource(file: seq<byte>, span: Range, budget: InputBudget, source: SymbolSource, p: Piece)
    requires GoodPiece(budget, source, p) && ExactSlice(file, span, source.fragments[p.fragment])
    ensures var r := InputOf(source, p).sourceRange.value;
            && span.start <= r.start < r.end <= span.end && r.end <= |file|
            && InputOf(source, p).text == source.header + file[r.start..r.end]
  {
    var f := source.fragments[p.fragment];
    SliceOfSlice(file, f.range.start, f.range.end, p.range.start, p.range.end);
  }

  /** Pieces of ordered excerpts give ordered, disjoint source ranges. */
  lemma InputsAscend(
    file: seq<byte>, span: Range, budget: InputBudget, source: SymbolSource, p: Piece, q: Piece)
    requires ExcerptOf(file, span, source.fragments) && Before(p, q)
    requires GoodPiece(budget, source, p) && GoodPiece(budget, source, q)
    ensures InputOf(source, p).sourceRange.value.end <= InputOf(source, q).sourceRange.value.start
  {
    assert ExactSlice(file, span, source.fragments[p.fragment]);
  }

  /** Inputs of excerpts taken from `file` are the header and exact source, in order and disjoint. */
  lemma InputsAreSource(
    file: seq<byte>, span: Range, budget: InputBudget, source: SymbolSource,
    parts: seq<seq<Range>>, chosen: seq<nat>, inputs: seq<SymbolInput>, k: nat)
    requires ExcerptOf(file, span, source.fragments) && Splits(budget, source, parts)
    requires Selection.Selects(chosen, |Flat(parts)|, |chosen|) && AreInputs(source, Flat(parts), chosen, inputs)
    requires k < |inputs|
    ensures inputs[k].sourceRange.Some?
    ensures var r := inputs[k].sourceRange.value;
            && span.start <= r.start < r.end <= span.end && r.end <= |file|
            && inputs[k].text == source.header + file[r.start..r.end]
    ensures k + 1 < |inputs| ==>
              && inputs[k + 1].sourceRange.Some?
              && inputs[k].sourceRange.value.end <= inputs[k + 1].sourceRange.value.start
  {
    var pieces := Flat(parts);
    hide Splits, Flat, Before;
    FlatIsGood(budget, source, parts, chosen[k]);
    InputIsSource(file, span, budget, source, pieces[chosen[k]]);
    if k + 1 < |inputs| {
      FlatIsGood(budget, source, parts, chosen[k + 1]);
      FlatOrdered(budget, source, parts, chosen[k], chosen[k + 1]);
      InputsAscend(file, span, budget, source, pieces[chosen[k]], pieces[chosen[k + 1]]);
    }
  }

  /** A byte of the excerpts lies in a piece. */
  lemma CoveredByPiece(
    file: seq<byte>, span: Range, budget: InputBudget, source: SymbolSource, parts: seq<seq<Range>>, x: nat)
    returns (a: nat)
    requires ExcerptOf(file, span, source.fragments) && Splits(budget, source, parts)
    requires |parts| == |source.fragments| && CoveredBy(source.fragments, x)
    ensures a < |Flat(parts)| && PieceCovers(source, Flat(parts)[a], x)
  {
    var i :| 0 <= i < |source.fragments| &&
             source.fragments[i].range.start <= x < source.fragments[i].range.end;
    var f := source.fragments[i];
    assert ExactSlice(file, span, f) && IsSplit(budget, source.header, f.text, parts[i]);
    hide SplitterTakes, AllAccepted, Cuts, Flat;
    var k := CutsCover(f.text, parts[i], |f.text|, x - f.range.start);
    a := FlatHolds(parts, i, k);
  }

  /** One input is the header with exact source of the range, and ends before the next one starts. */
  ghost predicate EmbedsAt(file: seq<byte>, range: Range, source: SymbolSource, inputs: seq<SymbolInput>, k: nat)
    requires k < |inputs|
  {
    && inputs[k].sourceRange.Some?
    && var r := inputs[k].sourceRange.value;
       && range.start <= r.start < r.end <= range.end && r.end <= |file|
       && inputs[k].text == source.header + file[r.start..r.end]
       && (k + 1 < |inputs| ==>
             inputs[k + 1].sourceRange.Some? && r.end <= inputs[k + 1].sourceRange.value.start)
  }

  /** What embedding a source promises about the file it was excerpted from. */
  ghost predicate EmbedsSource(file: seq<byte>, range: Range, source: SymbolSource, inputs: seq<SymbolInput>) {
    && |inputs| <= MAX_SYMBOL_SEGMENTS
    && forall k: nat | k < |inputs| :: EmbedsAt(file, range, source, inputs, k)
  }

  lemma AnswerEmbedsSource(
    file: seq<byte>, range: Range, budget: InputBudget, source: SymbolSource,
    parts: seq<seq<Range>>, chosen: seq<nat>, inputs: seq<SymbolInput>)
    requires ExcerptOf(file, range, source.fragments) && IsAnswer(budget, source, parts, chosen, inputs)
    ensures EmbedsSource(file, range, source, inputs)
  {
    hide Splits, Flat, ExcerptOf, Selection.IsCentred, IsFirst;
    forall k: nat | k < |inputs|
      ensures EmbedsAt(file, range, source, inputs, k)
    {
      InputsAreSource(file, range, budget, source, parts, chosen, inputs, k);
    }
  }

  /**
   Head, middle and tail excerpts of a range, split and selected: whenever the excerpts
   keep the range's middle byte, so do the embedded inputs.
   */
  method MiddleReachesInputs(file: Str, range: Range, allowance: nat, source: SymbolSource, budget: InputBudget)
    returns (r: Result<seq<SymbolInput>, SplitError>)
    requires WholeCharacters(file, range) && range.start < range.end && KeepsMiddle(range, allowance)
    requires source.policy.SymbolBodyV2? && source.fragments == MiddleFragments(file, range, allowance)
    ensures r.Success? ==>
              && EmbedsSource(file, range, source, r.value)
              && exists k | 0 <= k < |r.value| :: InputCovers(r.value[k], Midpoint(range))
  {
    hide MiddleFragments, WellFormed, Splits, Flat, AreInputs, KeepsMiddle, PieceCovers, InputCovers, SplitFails,
         BytesFit, Chosen, WholeCharacters, ExcerptOf, CoveredBy, TextBytes, EmbedsSource;
    MiddleFragmentsAreExcerpts(file, range, allowance);
    MiddleIsKept(file, range, allowance);
    ghost var parts, chosen;
    r, parts, chosen := Inputs(source, budget);
    if r.Success? {
      var a := CoveredByPiece(file, range, budget, source, parts, Midpoint(range));
      AnswerEmbedsSource(file, range, budget, source, parts, chosen, r.value);
    }
  }
}
