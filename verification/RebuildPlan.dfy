/**
 The offline rebuild plan: every counter it reports, as a function of the inputs the
 counted symbols prepare.
 */
module RebuildPlan {
  import opened Core
  import opened Utf8
  import opened EmbeddingInput
  import opened SymbolRepresentation
  import opened Capture
  import opened EmbeddingCache
  import FifoOrder

  const MAX_UNIQUE_INPUTS: nat := 100_000

  type Input = seq<byte>

  // ------------------------------------------------------------------ input counts

  function TotalBytes(inputs: seq<Input>): nat {
    if inputs == [] then 0 else TotalBytes(inputs[..|inputs| - 1]) + |inputs[|inputs| - 1]|
  }

  /** The inputs a saved cache holds no vector for. */
  function Absent(cache: Contents, inputs: seq<Input>): seq<Input> {
    if inputs == [] then []
    else
      var last := inputs[|inputs| - 1];
      Absent(cache, inputs[..|inputs| - 1]) + if Digest(last) in cache.entries then [] else [last]
  }

  /** How many inputs a saved cache holds a vector for. */
  function Cached(cache: Contents, inputs: seq<Input>): nat {
    if inputs == [] then 0
    else Cached(cache, inputs[..|inputs| - 1]) + if Digest(inputs[|inputs| - 1]) in cache.entries then 1 else 0
  }

  /** Each distinct input, where it first occurs. */
  function FirstOccurrences(inputs: seq<Input>): seq<Input> {
    if inputs == [] then []
    else
      var front, last := inputs[..|inputs| - 1], inputs[|inputs| - 1];
      FirstOccurrences(front) + if last in front then [] else [last]
  }

  lemma {:induction false} FirstOccurrencesAreAll(inputs: seq<Input>)
    ensures forall x :: x in FirstOccurrences(inputs) <==> x in inputs
    ensures FifoOrder.Distinct(FirstOccurrences(inputs))
    ensures |FirstOccurrences(inputs)| == |Elements(inputs)|
  {
    if inputs != [] {
      var front, last := inputs[..|inputs| - 1], inputs[|inputs| - 1];
      FirstOccurrencesAreAll(front);
      assert inputs == front + [last];
      assert Elements(inputs) == Elements(front) + {last};
    }
  }

  lemma {:induction false} AbsentAre(cache: Contents, inputs: seq<Input>)
    ensures forall x :: x in Absent(cache, inputs) <==> x in inputs && Digest(x) !in cache.entries
    ensures FifoOrder.Distinct(inputs) ==> FifoOrder.Distinct(Absent(cache, inputs))
  {
    if inputs != [] {
      var front, last := inputs[..|inputs| - 1], inputs[|inputs| - 1];
      AbsentAre(cache, front);
      assert inputs == front + [last];
    }
  }

  /** Everything counted about prepared inputs; a part that cannot be known is `None`. */
  datatype InputCounts = InputCounts(
    embeddingInputs: Option<nat>,
    embeddingInputBytes: Option<nat>,
    uniqueEmbeddingInputBytes: Option<nat>,
    snapshotHitInputs: Option<nat>,
    snapshotMissInputs: Option<nat>,
    snapshotMissInputBytes: Option<nat>,
    snapshotUniqueMissInputs: Option<nat>)

  /** The counts of a stream of inputs, each said directly of the whole stream. */
  function CountsOf(known: bool, cache: Option<Contents>, stream: seq<Input>): InputCounts {
    var first := FirstOccurrences(stream);
    InputCounts(
      if known then Some(|stream|) else None,
      if known then Some(TotalBytes(stream)) else None,
      if known then Some(TotalBytes(first)) else None,
      if cache.Some? then Some(Cached(cache.value, stream)) else None,
      if cache.Some? then Some(|Absent(cache.value, stream)|) else None,
      if cache.Some? then Some(TotalBytes(Absent(cache.value, stream))) else None,
      if cache.Some? then Some(|Absent(cache.value, first)|) else None)
  }

  lemma {:induction false} HitOrMiss(cache: Contents, inputs: seq<Input>)
    ensures Cached(cache, inputs) + |Absent(cache, inputs)| == |inputs|
  {
    if inputs != [] {
      HitOrMiss(cache, inputs[..|inputs| - 1]);
    }
  }

  lemma BytesMore(inputs: seq<Input>, x: Input)
    ensures TotalBytes(inputs + [x]) == TotalBytes(inputs) + |x|
  {
    assert (inputs + [x])[..|inputs|] == inputs;
  }

  lemma AbsentMore(cache: Contents, inputs: seq<Input>, x: Input)
    ensures Cached(cache, inputs + [x]) == Cached(cache, inputs) + if Digest(x) in cache.entries then 1 else 0
    ensures Absent(cache, inputs + [x]) == Absent(cache, inputs) + if Digest(x) in cache.entries then [] else [x]
  {
    assert (inputs + [x])[..|inputs|] == inputs;
  }

  lemma FirstMore(inputs: seq<Input>, x: Input)
    ensures FirstOccurrences(inputs + [x]) == FirstOccurrences(inputs) + if x in inputs then [] else [x]
  {
    assert (inputs + [x])[..|inputs|] == inputs;
  }

  /** Count one more: `add_count`. */
  function AddCount(count: Option<nat>, amount: nat): Option<nat> {
    if count.Some? then Some(count.value + amount) else None
  }

  /** What one more input changes. */
  lemma CountsMore(known: bool, cache: Option<Contents>, stream: seq<Input>, x: Input)
    ensures var c := CountsOf(known, cache, stream);
            var more := CountsOf(known, cache, stream + [x]);
            var first := x !in stream;
            var hit := cache.Some? && Digest(x) in cache.value.entries;
            && more.embeddingInputs == AddCount(c.embeddingInputs, 1)
            && more.embeddingInputBytes == AddCount(c.embeddingInputBytes, |x|)
            && more.uniqueEmbeddingInputBytes == AddCount(c.uniqueEmbeddingInputBytes, if first then |x| else 0)
            && more.snapshotHitInputs == AddCount(c.snapshotHitInputs, if hit then 1 else 0)
            && more.snapshotMissInputs == AddCount(c.snapshotMissInputs, if hit then 0 else 1)
            && more.snapshotMissInputBytes == AddCount(c.snapshotMissInputBytes, if hit then 0 else |x|)
            && more.snapshotUniqueMissInputs == AddCount(c.snapshotUniqueMissInputs, if first && !hit then 1 else 0)
  {
    hide TotalBytes, FirstOccurrences, Absent, Cached;
    FirstBytesMore(stream, x);
    BytesMore(stream, x);
    if cache.Some? {
      MissesMore(cache.value, stream, x);
    }
  }

  lemma FirstBytesMore(stream: seq<Input>, x: Input)
    ensures TotalBytes(FirstOccurrences(stream + [x])) ==
            TotalBytes(FirstOccurrences(stream)) + if x in stream then 0 else |x|
  {
    FirstMore(stream, x);
    hide TotalBytes, FirstOccurrences;
    BytesMore(FirstOccurrences(stream), x);
    assert FirstOccurrences(stream) + [] == FirstOccurrences(stream);
  }

  lemma MissesMore(cache: Contents, stream: seq<Input>, x: Input)
    ensures var hit := Digest(x) in cache.entries;
            && Cached(cache, stream + [x]) == Cached(cache, stream) + (if hit then 1 else 0)
            && |Absent(cache, stream + [x])| == |Absent(cache, stream)| + (if hit then 0 else 1)
            && TotalBytes(Absent(cache, stream + [x])) == TotalBytes(Absent(cache, stream)) + (if hit then 0 else |x|)
            && |Absent(cache, FirstOccurrences(stream + [x]))| ==
               |Absent(cache, FirstOccurrences(stream))| + if x !in stream && !hit then 1 else 0
  {
    hide TotalBytes, FirstOccurrences, Absent, Cached;
    AbsentMore(cache, stream, x);
    BytesMore(Absent(cache, stream), x);
    assert Absent(cache, stream) + [] == Absent(cache, stream);
    FirstMore(stream, x);
    AbsentMore(cache, FirstOccurrences(stream), x);
    assert FirstOccurrences(stream) + [] == FirstOccurrences(stream);
  }

  /** What a plan says about inputs adds up, whatever the stream. */
  lemma InputCountsAddUp(cache: Contents, stream: seq<Input>)
    ensures Cached(cache, stream) + |Absent(cache, stream)| == |stream|
    ensures |Elements(stream)| <= |stream|
    ensures |Absent(cache, FirstOccurrences(stream))| == |set x | x in stream && Digest(x) !in cache.entries|
  {
    HitOrMiss(cache, stream);
    ElementsAreFewer(stream);
    FirstOccurrencesAreAll(stream);
    var misses := Absent(cache, FirstOccurrences(stream));
    AbsentAre(cache, FirstOccurrences(stream));
    hide Absent, FirstOccurrences, Cached;
    FifoOrder.DistinctSize(misses);
    assert Elements(misses) == set x | x in stream && Digest(x) !in cache.entries;
  }

  lemma {:induction false} ElementsAreFewer(inputs: seq<Input>)
    ensures |Elements(inputs)| <= |inputs|
  {
    if inputs != [] {
      ElementsAreFewer(inputs[..|inputs| - 1]);
      assert inputs == inputs[..|inputs| - 1] + [inputs[|inputs| - 1]];
      assert Elements(inputs) == Elements(inputs[..|inputs| - 1]) + {inputs[|inputs| - 1]};
    }
  }

  // ----------------------------------------------------------------- symbol counts

  /** What became of one symbol. */
  datatype Outcome =
    | Ineligible
    | MissingSource
    | Prepared(inputs: seq<Input>, source: Option<SymbolSource>, rejected: bool)

  datatype SymbolCounts = SymbolCounts(
    symbols: nat,
    eligibleSymbols: nat,
    symbolsWithoutEmbeddingInput: nat,
    embeddingCandidates: nat,
    bodySources: nat,
    bodySourcesHeaderOnly: nat,
    missingBodySources: nat,
    retainedRepresentationBytes: nat,
    rejections: nat)

  const NO_SYMBOLS := SymbolCounts(0, 0, 0, 0, 0, 0, 0, 0, 0)

  function Plus(a: SymbolCounts, b: SymbolCounts): SymbolCounts {
    SymbolCounts(
      a.symbols + b.symbols,
      a.eligibleSymbols + b.eligibleSymbols,
      a.symbolsWithoutEmbeddingInput + b.symbolsWithoutEmbeddingInput,
      a.embeddingCandidates + b.embeddingCandidates,
      a.bodySources + b.bodySources,
      a.bodySourcesHeaderOnly + b.bodySourcesHeaderOnly,
      a.missingBodySources + b.missingBodySources,
      a.retainedRepresentationBytes + b.retainedRepresentationBytes,
      a.rejections + b.rejections)
  }

  function One(b: bool): nat {
    if b then 1 else 0
  }

  function CountOf(o: Outcome): SymbolCounts {
    match o
    case Ineligible => NO_SYMBOLS.(symbols := 1, symbolsWithoutEmbeddingInput := 1)
    case MissingSource =>
      NO_SYMBOLS.(symbols := 1, eligibleSymbols := 1, symbolsWithoutEmbeddingInput := 1, missingBodySources := 1)
    case Prepared(_, source, rejected) =>
      SymbolCounts(
        1, 1, 0, 1, One(source.Some?), One(source.Some? && source.value.fragments == []), 0,
        if source.Some? then RetainedBytes(source.value) else 0, One(rejected))
  }

  function Totals(trace: seq<Outcome>): SymbolCounts {
    if trace == [] then NO_SYMBOLS else Plus(Totals(trace[..|trace| - 1]), CountOf(trace[|trace| - 1]))
  }

  /** The inputs prepared along the trace. */
  function Stream(trace: seq<Outcome>): seq<Input> {
    if trace == [] then []
    else
      Stream(trace[..|trace| - 1]) + InputsOf(trace[|trace| - 1])
  }

  function InputsOf(o: Outcome): seq<Input> {
    if o.Prepared? then o.inputs else []
  }

  /** Every symbol is a candidate, lacks its source, or is not eligible. */
  lemma {:induction false} SymbolCountsAddUp(trace: seq<Outcome>)
    ensures var t := Totals(trace);
            && t.symbols == |trace|
            && t.eligibleSymbols == t.embeddingCandidates + t.missingBodySources
            && t.symbols == t.embeddingCandidates + t.symbolsWithoutEmbeddingInput
            && t.bodySourcesHeaderOnly <= t.bodySources <= t.embeddingCandidates
            && t.rejections <= t.embeddingCandidates
  {
    if trace != [] {
      SymbolCountsAddUp(trace[..|trace| - 1]);
    }
  }

  lemma {:induction false} MissingAreCounted(trace: seq<Outcome>)
    ensures Totals(trace).missingBodySources == 0 <==> MissingSource !in trace
    ensures Totals(trace).rejections == 0 <==> forall o | o in trace :: o.Prepared? ==> !o.rejected
  {
    if trace != [] {
      MissingAreCounted(trace[..|trace| - 1]);
      assert trace == trace[..|trace| - 1] + [trace[|trace| - 1]];
    }
  }

  // -------------------------------------------------------------------- outcomes

  /** The loaded part of the configured backend; a cache is only looked up under a budget. */
  datatype Lookup = Lookup(budget: Option<InputBudget>, cache: Option<Contents>)

  predicate LooksUpUnderBudget(lookup: Lookup) {
    lookup.cache.Some? ==> lookup.budget.Some?
  }

  predicate InputsKnown(policy: CodeEmbeddingPolicy, lookup: Lookup) {
    policy.DocComment? || lookup.budget.Some?
  }

  /** A comment is counted as an input even when the budget rejects it. */
  function DocOutcome(budget: Option<InputBudget>, doc: Input): Outcome {
    Prepared([doc], None, budget.Some? && !budget.value.Accepts(doc))
  }

  /** Why a source's inputs could not be prepared. */
  ghost predicate CannotPrepare(budget: InputBudget, source: SymbolSource) {
    if source.fragments == [] then !budget.Accepts(source.header)
    else exists i, error ::
      0 <= i < |source.fragments| && SplitFails(budget, source.header, source.fragments[i].text, error)
  }

  /** How an outcome follows from the symbol it is about. */
  ghost predicate Explains(policy: CodeEmbeddingPolicy, budget: Option<InputBudget>, symbol: RawSymbol, o: Outcome) {
    if !Eligible(policy, symbol.kind, symbol.docComment.Some?) then o.Ineligible?
    else if policy.DocComment? then
      o == DocOutcome(budget, symbol.docComment.value)
    else if symbol.embeddingSource.None? then o.MissingSource?
    else
      o.Prepared? && o.source == symbol.embeddingSource && BodyOutcome(budget, symbol.embeddingSource.value, o)
  }

  /** A captured source is prepared, rejected with cause, or left unmeasured for want of a budget. */
  ghost predicate BodyOutcome(budget: Option<InputBudget>, source: SymbolSource, o: Outcome)
    requires o.Prepared?
  {
    if budget.None? then !o.rejected && o.inputs == []
    else if o.rejected then o.inputs == [] && CannotPrepare(budget.value, source)
    else PreparesInputs(budget.value, source, o.inputs)
  }

  function Texts(inputs: seq<SymbolInput>): seq<Input> {
    seq(|inputs|, k requires 0 <= k < |inputs| => inputs[k].text)
  }

  /** Inputs a source prepares: its header alone, or the pieces selected from splits of all its fragments. */
  ghost predicate PreparesInputs(budget: InputBudget, source: SymbolSource, inputs: seq<Input>) {
    && (forall k | 0 <= k < |inputs| :: budget.Accepts(inputs[k]))
    && if source.fragments == [] then inputs == [source.header]
       else exists parts, chosen, prepared: seq<SymbolInput> ::
           && IsAnswer(budget, source, parts, chosen, prepared)
           && inputs == seq(|prepared|, k requires 0 <= k < |prepared| => prepared[k].text)
  }

  /** A source prepares one list of inputs. */
  lemma PreparedAgree(budget: InputBudget, source: SymbolSource, a: seq<Input>, b: seq<Input>)
    requires PreparesInputs(budget, source, a) && PreparesInputs(budget, source, b)
    ensures a == b
  {
    hide IsAnswer;
    if source.fragments != [] {
      var parts, chosen, prepared :| IsAnswer(budget, source, parts, chosen, prepared) && a == Texts(prepared);
      var parts', chosen', prepared' :| IsAnswer(budget, source, parts', chosen', prepared') && b == Texts(prepared');
      InputsAreDetermined(budget, source, parts, chosen, prepared, parts', chosen', prepared');
    }
  }

  /** The texts of one source's inputs. */
  method PrepareInputs(source: SymbolSource, budget: InputBudget) returns (r: Option<seq<Input>>)
    ensures r.None? ==> CannotPrepare(budget, source)
    ensures r.Some? ==> PreparesInputs(budget, source, r.value)
  {
    hide Splits, Flat, IsAnswer, SplitFails, BytesFit, PieceCovers, InputCovers;
    ghost var parts, chosen;
    var prepared;
    prepared, parts, chosen := Inputs(source, budget);
    if prepared.Failure? {
      return None;
    }
    r := Some(Texts(prepared.value));
    if source.fragments == [] {
      assert budget.Accepts(source.header);
      assert r.value == [source.header];
    }
  }

  /** What can be prepared is never rejected. */
  lemma PreparedIsNotRejected(budget: InputBudget, source: SymbolSource, inputs: seq<Input>)
    requires PreparesInputs(budget, source, inputs)
    ensures !CannotPrepare(budget, source)
  {
    if source.fragments == [] {
      assert budget.Accepts(inputs[0]);
    } else {
      var parts, chosen, prepared :| IsAnswer(budget, source, parts, chosen, prepared) && inputs == Texts(prepared);
      hide IsSplit, SplitFails, Chosen, AreInputs, Flat;
      forall i, error | 0 <= i < |source.fragments|
        ensures !SplitFails(budget, source.header, source.fragments[i].text, error)
      {
        SplitExcludesFailure(budget, source.header, source.fragments[i].text, parts[i], error);
      }
    }
  }

  /** A symbol has one outcome. */
  lemma OutcomesAgree(
    policy: CodeEmbeddingPolicy, budget: Option<InputBudget>, symbol: RawSymbol, o: Outcome, o': Outcome)
    requires Explains(policy, budget, symbol, o) && Explains(policy, budget, symbol, o')
    ensures o == o'
  {
    hide PreparesInputs, CannotPrepare, Eligible;
    if o.Prepared? && o'.Prepared? && !policy.DocComment? && budget.Some? {
      var source := symbol.embeddingSource.value;
      if !o.rejected {
        PreparedIsNotRejected(budget.value, source, o.inputs);
      }
      if !o'.rejected {
        PreparedIsNotRejected(budget.value, source, o'.inputs);
      }
      if !o.rejected && !o'.rejected {
        PreparedAgree(budget.value, source, o.inputs, o'.inputs);
      }
    }
  }

  // -------------------------------------------------------------------- the report

  datatype PlanError = ParserUnavailable | ParseFailed | TooManyInputs

  datatype Status = Complete | Partial | Blocked | PartialBlocked

  /** A file of the snapshot: whether a native parser handles it, and what that parser finds. */
  datatype SourceFile = SourceFile(native: Option<bool>, parsed: Option<seq<RawSymbol>>)

  class Report {
    var embeddingInputs: Option<nat>
    var uniqueEmbeddingInputs: Option<nat>
    var duplicateEmbeddingInputs: Option<nat>
    var embeddingInputBytes: Option<nat>
    var uniqueEmbeddingInputBytes: Option<nat>
    var snapshotHitInputs: Option<nat>
    var snapshotMissInputs: Option<nat>
    var snapshotUniqueMissInputs: Option<nat>
    var snapshotMissInputBytes: Option<nat>
    var inputPolicyRejections: Option<nat>
    var filesParsed: nat
    var filesRequiringGenericParser: nat
    var symbols: nat
    var eligibleSymbols: nat
    var symbolsWithoutEmbeddingInput: nat
    var embeddingCandidates: nat
    var bodySources: nat
    var bodySourcesHeaderOnly: nat
    var missingBodySources: nat
    var retainedRepresentationBytes: nat
    var inputInventoryComplete: bool
    var status: Status

    ghost function InputPart(): InputCounts
      reads this
    {
      InputCounts(embeddingInputs, embeddingInputBytes, uniqueEmbeddingInputBytes, snapshotHitInputs,
                  snapshotMissInputs, snapshotMissInputBytes, snapshotUniqueMissInputs)
    }

    ghost function SymbolPart(): SymbolCounts
      reads this
    {
      SymbolCounts(symbols, eligibleSymbols, symbolsWithoutEmbeddingInput, embeddingCandidates, bodySources,
                   bodySourcesHeaderOnly, missingBodySources, retainedRepresentationBytes,
                   if inputPolicyRejections.Some? then inputPolicyRejections.value else 0)
    }

    constructor (policy: CodeEmbeddingPolicy, lookup: Lookup)
      ensures InputPart() == CountsOf(InputsKnown(policy, lookup), lookup.cache, [])
      ensures SymbolPart() == NO_SYMBOLS && (inputPolicyRejections.Some? <==> lookup.budget.Some?)
      ensures filesParsed == 0 && filesRequiringGenericParser == 0
      ensures uniqueEmbeddingInputs.Some? <==> InputsKnown(policy, lookup)
      ensures duplicateEmbeddingInputs.Some? <==> InputsKnown(policy, lookup)
    {
      var known, looked := InputsKnown(policy, lookup), lookup.cache.Some?;
      embeddingInputs := if known then Some(0) else None;
      uniqueEmbeddingInputs := if known then Some(0) else None;
      duplicateEmbeddingInputs := if known then Some(0) else None;
      embeddingInputBytes := if known then Some(0) else None;
      uniqueEmbeddingInputBytes := if known then Some(0) else None;
      snapshotHitInputs := if looked then Some(0) else None;
      snapshotMissInputs := if looked then Some(0) else None;
      snapshotUniqueMissInputs := if looked then Some(0) else None;
      snapshotMissInputBytes := if looked then Some(0) else None;
      inputPolicyRejections := if lookup.budget.Some? then Some(0) else None;
      filesParsed, filesRequiringGenericParser := 0, 0;
      symbols, eligibleSymbols, symbolsWithoutEmbeddingInput, embeddingCandidates := 0, 0, 0, 0;
      bodySources, bodySourcesHeaderOnly, missingBodySources, retainedRepresentationBytes := 0, 0, 0, 0;
      inputInventoryComplete, status := known, Complete;
    }

    /** One prepared input; fails once too many distinct ones were seen. */
    method RecordInput(lookup: Lookup, unique: set<Input>, input: Input, ghost known: bool, ghost stream: seq<Input>)
      returns (ok: bool, more: set<Input>)
      requires unique == Elements(stream) && |unique| <= MAX_UNIQUE_INPUTS
      requires InputPart() == CountsOf(known, lookup.cache, stream)
      modifies this`embeddingInputs, this`embeddingInputBytes, this`uniqueEmbeddingInputBytes,
               this`snapshotHitInputs, this`snapshotMissInputs, this`snapshotMissInputBytes,
               this`snapshotUniqueMissInputs
      ensures more == Elements(stream + [input])
      ensures ok <==> |more| <= MAX_UNIQUE_INPUTS
      ensures ok ==> InputPart() == CountsOf(known, lookup.cache, stream + [input])
    {
      hide CountsOf;
      CountsMore(known, lookup.cache, stream, input);
      embeddingInputs := AddCount(embeddingInputs, 1);
      embeddingInputBytes := AddCount(embeddingInputBytes, |input|);
      var first := input !in unique;
      more := unique + {input};
      assert more == Elements(stream + [input]);
      if |more| > MAX_UNIQUE_INPUTS {
        return false, more;
      }
      if first {
        uniqueEmbeddingInputBytes := AddCount(uniqueEmbeddingInputBytes, |input|);
      }
      if lookup.cache.Some? {
        if Digest(input) in lookup.cache.value.entries {
          snapshotHitInputs := AddCount(snapshotHitInputs, 1);
        } else {
          snapshotMissInputs := AddCount(snapshotMissInputs, 1);
          snapshotMissInputBytes := AddCount(snapshotMissInputBytes, |input|);
          if first {
            snapshotUniqueMissInputs := AddCount(snapshotUniqueMissInputs, 1);
          }
        }
      }
      NoCacheNoCounts(known, lookup.cache, stream, input);
      return true, more;
    }

    /** A symbol's inputs in order, until one is too many. */
    method RecordInputs(
      lookup: Lookup, unique: set<Input>, inputs: seq<Input>, ghost known: bool, ghost stream: seq<Input>)
      returns (ok: bool, more: set<Input>)
      requires unique == Elements(stream) && |unique| <= MAX_UNIQUE_INPUTS
      requires InputPart() == CountsOf(known, lookup.cache, stream)
      modifies this`embeddingInputs, this`embeddingInputBytes, this`uniqueEmbeddingInputBytes,
               this`snapshotHitInputs, this`snapshotMissInputs, this`snapshotMissInputBytes,
               this`snapshotUniqueMissInputs
      ensures ok ==> more == Elements(stream + inputs) && |more| <= MAX_UNIQUE_INPUTS
      ensures ok ==> InputPart() == CountsOf(known, lookup.cache, stream + inputs)
      ensures !ok ==> MAX_UNIQUE_INPUTS < |Elements(stream + inputs)|
    {
      hide CountsOf;
      more := unique;
      assert stream + inputs[..0] == stream;
      for k := 0 to |inputs|
        invariant more == Elements(stream + inputs[..k]) && |more| <= MAX_UNIQUE_INPUTS
        invariant InputPart() == CountsOf(known, lookup.cache, stream + inputs[..k])
      {
        assert stream + inputs[..k] + [inputs[k]] == stream + inputs[..k + 1];
        ok, more := RecordInput(lookup, more, inputs[k], known, stream + inputs[..k]);
        if !ok {
          MoreElements(stream + inputs[..k + 1], inputs[k + 1..]);
          assert stream + inputs[..k + 1] + inputs[k + 1..] == stream + inputs;
          return false, more;
        }
      }
      assert inputs[..|inputs|] == inputs;
      return true, more;
    }

    method NoteDocComment(lookup: Lookup, doc: Input)
      requires inputPolicyRejections.Some? <==> lookup.budget.Some?
      modifies this`embeddingCandidates, this`inputPolicyRejections
      ensures SymbolPart() == Plus(old(SymbolPart()), Noted(DocOutcome(lookup.budget, doc)))
      ensures inputPolicyRejections.Some? <==> lookup.budget.Some?
    {
      embeddingCandidates := embeddingCandidates + 1;
      if lookup.budget.Some? {
        var valid := lookup.budget.value.Validate([doc]);
        assert [doc][0] == doc;
        if valid.Failure? {
          inputPolicyRejections := AddCount(inputPolicyRejections, 1);
        }
      }
    }

    method NoteBody(source: SymbolSource)
      modifies this`embeddingCandidates, this`bodySources, this`bodySourcesHeaderOnly,
               this`retainedRepresentationBytes
      ensures SymbolPart() == Plus(old(SymbolPart()), Noted(Prepared([], Some(source), false)))
    {
      embeddingCandidates := embeddingCandidates + 1;
      bodySources := bodySources + 1;
      bodySourcesHeaderOnly := bodySourcesHeaderOnly + One(source.fragments == []);
      var retained := SumBytes(source.fragments);
      retainedRepresentationBytes := retainedRepresentationBytes + (|source.header| + retained);
    }

    method NoteRejection(source: SymbolSource, ghost before: SymbolCounts)
      requires inputPolicyRejections.Some?
      requires SymbolPart() == Plus(before, Noted(Prepared([], Some(source), false)))
      modifies this`inputPolicyRejections
      ensures SymbolPart() == Plus(before, Noted(Prepared([], Some(source), true)))
      ensures inputPolicyRejections.Some?
    {
      inputPolicyRejections := AddCount(inputPolicyRejections, 1);
    }

    /** One symbol with a captured source. */
    method CountBody(
      policy: CodeEmbeddingPolicy, lookup: Lookup, unique: set<Input>, source: SymbolSource, ghost stream: seq<Input>)
      returns (ok: bool, more: set<Input>, ghost outcome: Outcome)
      requires unique == Elements(stream) && |unique| <= MAX_UNIQUE_INPUTS
      requires InputPart() == CountsOf(InputsKnown(policy, lookup), lookup.cache, stream)
      requires inputPolicyRejections.Some? <==> lookup.budget.Some?
      modifies this`embeddingCandidates, this`bodySources, this`bodySourcesHeaderOnly,
               this`retainedRepresentationBytes, this`inputPolicyRejections,
               this`embeddingInputs, this`embeddingInputBytes, this`uniqueEmbeddingInputBytes,
               this`snapshotHitInputs, this`snapshotMissInputs, this`snapshotMissInputBytes,
               this`snapshotUniqueMissInputs
      ensures outcome.Prepared? && outcome.source == Some(source) && BodyOutcome(lookup.budget, source, outcome)
      ensures SymbolPart() == Plus(old(SymbolPart()), Noted(outcome))
      ensures ok ==>
                && InputPart() == CountsOf(InputsKnown(policy, lookup), lookup.cache, stream + outcome.inputs)
                && more == Elements(stream + outcome.inputs) && |more| <= MAX_UNIQUE_INPUTS
      ensures !ok ==> MAX_UNIQUE_INPUTS < |Elements(stream + outcome.inputs)|
      ensures inputPolicyRejections.Some? <==> lookup.budget.Some?
    {
      hide CountsOf, PreparesInputs, CannotPrepare, Plus, CountOf;
      ghost var before := SymbolPart();
      NoteBody(source);
      ok, more := true, unique;
      assert stream + [] == stream;
      outcome := Prepared([], Some(source), false);
      if lookup.budget.None? {
        return;
      }
      var prepared := PrepareInputs(source, lookup.budget.value);
      if prepared.None? {
        NoteRejection(source, before);
        outcome := Prepared([], Some(source), true);
        return;
      }
      outcome := Prepared(prepared.value, Some(source), false);
      assert Noted(outcome) == Noted(Prepared([], Some(source), false)) by {
        SameNote(prepared.value, Some(source), false);
      }
      ok, more := RecordInputs(lookup, unique, prepared.value, InputsKnown(policy, lookup), stream);
    }

    method NoteMissing()
      modifies this`missingBodySources, this`symbolsWithoutEmbeddingInput
      ensures SymbolPart() == Plus(old(SymbolPart()), Noted(MissingSource))
    {
      missingBodySources := missingBodySources + 1;
      symbolsWithoutEmbeddingInput := symbolsWithoutEmbeddingInput + 1;
    }

    /** One comment: counted as an input whether the budget takes it or not. */
    method CountDocComment(
      policy: CodeEmbeddingPolicy, lookup: Lookup, unique: set<Input>, doc: Input, ghost stream: seq<Input>)
      returns (ok: bool, more: set<Input>)
      requires unique == Elements(stream) && |unique| <= MAX_UNIQUE_INPUTS
      requires InputPart() == CountsOf(InputsKnown(policy, lookup), lookup.cache, stream)
      requires inputPolicyRejections.Some? <==> lookup.budget.Some?
      modifies this`embeddingCandidates, this`inputPolicyRejections,
               this`embeddingInputs, this`embeddingInputBytes, this`uniqueEmbeddingInputBytes,
               this`snapshotHitInputs, this`snapshotMissInputs, this`snapshotMissInputBytes,
               this`snapshotUniqueMissInputs
      ensures SymbolPart() == Plus(old(SymbolPart()), Noted(DocOutcome(lookup.budget, doc)))
      ensures ok ==>
                && InputPart() == CountsOf(InputsKnown(policy, lookup), lookup.cache, stream + [doc])
                && more == Elements(stream + [doc])
      ensures ok <==> |more| <= MAX_UNIQUE_INPUTS
      ensures !ok ==> MAX_UNIQUE_INPUTS < |Elements(stream + [doc])|
      ensures inputPolicyRejections.Some? <==> lookup.budget.Some?
    {
      hide CountsOf, Plus, Noted, CountOf, Elements;
      NoteDocComment(lookup, doc);
      ok, more := RecordInput(lookup, unique, doc, InputsKnown(policy, lookup), stream);
    }

    /** One eligible symbol, by policy. */
    method CountEligible(
      policy: CodeEmbeddingPolicy, lookup: Lookup, unique: set<Input>, symbol: RawSymbol, ghost stream: seq<Input>)
      returns (ok: bool, more: set<Input>, ghost outcome: Outcome)
      requires Eligible(policy, symbol.kind, symbol.docComment.Some?)
      requires unique == Elements(stream) && |unique| <= MAX_UNIQUE_INPUTS
      requires InputPart() == CountsOf(InputsKnown(policy, lookup), lookup.cache, stream)
      requires inputPolicyRejections.Some? <==> lookup.budget.Some?
      modifies this`symbolsWithoutEmbeddingInput, this`missingBodySources,
               this`embeddingCandidates, this`bodySources, this`bodySourcesHeaderOnly,
               this`retainedRepresentationBytes, this`inputPolicyRejections,
               this`embeddingInputs, this`embeddingInputBytes, this`uniqueEmbeddingInputBytes,
               this`snapshotHitInputs, this`snapshotMissInputs, this`snapshotMissInputBytes,
               this`snapshotUniqueMissInputs
      ensures Explains(policy, lookup.budget, symbol, outcome) && !outcome.Ineligible?
      ensures SymbolPart() == Plus(old(SymbolPart()), Noted(outcome))
      ensures ok ==>
                && InputPart() == CountsOf(InputsKnown(policy, lookup), lookup.cache, stream + InputsOf(outcome))
                && more == Elements(stream + InputsOf(outcome)) && |more| <= MAX_UNIQUE_INPUTS
      ensures !ok ==> MAX_UNIQUE_INPUTS < |Elements(stream + InputsOf(outcome))|
      ensures inputPolicyRejections.Some? <==> lookup.budget.Some?
    {
      hide CountsOf, BodyOutcome, Plus, Noted, Elements, CountOf;
      ok, more := true, unique;
      assert stream + [] == stream;
      if policy == DocComment {
        outcome := DocOutcome(lookup.budget, symbol.docComment.value);
        ok, more := CountDocComment(policy, lookup, unique, symbol.docComment.value, stream);
      } else if symbol.embeddingSource.None? {
        NoteMissing();
        outcome := MissingSource;
      } else {
        ok, more, outcome := CountBody(policy, lookup, unique, symbol.embeddingSource.value, stream);
      }
    }

    /** One symbol of a native file. */
    method CountSymbol(
      policy: CodeEmbeddingPolicy, lookup: Lookup, unique: set<Input>, symbol: RawSymbol, ghost stream: seq<Input>)
      returns (ok: bool, more: set<Input>, ghost outcome: Outcome)
      requires unique == Elements(stream) && |unique| <= MAX_UNIQUE_INPUTS
      requires InputPart() == CountsOf(InputsKnown(policy, lookup), lookup.cache, stream)
      requires inputPolicyRejections.Some? <==> lookup.budget.Some?
      modifies this`symbols, this`eligibleSymbols, this`symbolsWithoutEmbeddingInput, this`missingBodySources,
               this`embeddingCandidates, this`bodySources, this`bodySourcesHeaderOnly,
               this`retainedRepresentationBytes, this`inputPolicyRejections,
               this`embeddingInputs, this`embeddingInputBytes, this`uniqueEmbeddingInputBytes,
               this`snapshotHitInputs, this`snapshotMissInputs, this`snapshotMissInputBytes,
               this`snapshotUniqueMissInputs
      ensures Explains(policy, lookup.budget, symbol, outcome)
      ensures SymbolPart() == Plus(old(SymbolPart()), CountOf(outcome))
      ensures ok ==>
                && InputPart() == CountsOf(InputsKnown(policy, lookup), lookup.cache, stream + InputsOf(outcome))
                && more == Elements(stream + InputsOf(outcome)) && |more| <= MAX_UNIQUE_INPUTS
      ensures !ok ==> MAX_UNIQUE_INPUTS < |Elements(stream + InputsOf(outcome))|
      ensures inputPolicyRejections.Some? <==> lookup.budget.Some?
    {
      hide CountsOf, BodyOutcome;
      ghost var before := SymbolPart();
      symbols := symbols + 1;
      if !Eligible(policy, symbol.kind, symbol.docComment.Some?) {
        symbolsWithoutEmbeddingInput := symbolsWithoutEmbeddingInput + 1;
        assert stream + [] == stream;
        return true, unique, Ineligible;
      }
      eligibleSymbols := eligibleSymbols + 1;
      assert SymbolPart() == Plus(before, NO_SYMBOLS.(symbols := 1, eligibleSymbols := 1));
      hide Plus, Noted, CountOf, Explains;
      ok, more, outcome := CountEligible(policy, lookup, unique, symbol, stream);
      NotedEligible(before, outcome);
    }

    /** The report is what the trace of its symbols says. */
    ghost predicate Reflects(policy: CodeEmbeddingPolicy, lookup: Lookup, trace: seq<Outcome>, unique: set<Input>)
      reads this
    {
      && SymbolPart() == Totals(trace)
      && InputPart() == CountsOf(InputsKnown(policy, lookup), lookup.cache, Stream(trace))
      && (inputPolicyRejections.Some? <==> lookup.budget.Some?)
      && unique == Elements(Stream(trace)) && |unique| <= MAX_UNIQUE_INPUTS
    }

    /** The symbols of one file. */
    method CountSymbols(
      policy: CodeEmbeddingPolicy, lookup: Lookup, unique: set<Input>, parsed: seq<RawSymbol>,
      ghost before: seq<Outcome>)
      returns (ok: bool, more: set<Input>, ghost trace: seq<Outcome>)
      requires Reflects(policy, lookup, before, unique)
      modifies this`symbols, this`eligibleSymbols, this`symbolsWithoutEmbeddingInput, this`missingBodySources,
               this`embeddingCandidates, this`bodySources, this`bodySourcesHeaderOnly,
               this`retainedRepresentationBytes, this`inputPolicyRejections,
               this`embeddingInputs, this`embeddingInputBytes, this`uniqueEmbeddingInputBytes,
               this`snapshotHitInputs, this`snapshotMissInputs, this`snapshotMissInputBytes,
               this`snapshotUniqueMissInputs
      ensures ok ==> Reflects(policy, lookup, before + trace, more)
      ensures ok ==> Explained(policy, lookup.budget, parsed, trace)
      ensures !ok ==>
                && |trace| <= |parsed| && Explained(policy, lookup.budget, parsed[..|trace|], trace)
                && MAX_UNIQUE_INPUTS < |Elements(Stream(before + trace))|
    {
      hide CountsOf, Explains, Plus, CountOf, Totals, Stream;
      more, trace := unique, [];
      assert before + [] == before;
      for i := 0 to |parsed|
        invariant Reflects(policy, lookup, before + trace, more)
        invariant |trace| == i && Explained(policy, lookup.budget, parsed[..i], trace)
      {
        ghost var outcome;
        ok, more, outcome := CountSymbol(policy, lookup, more, parsed[i], Stream(before + trace));
        TraceStep(before + trace, outcome);
        assert before + trace + [outcome] == before + (trace + [outcome]);
        trace := trace + [outcome];
        if !ok {
          return false, more, trace;
        }
      }
      assert parsed[..|parsed|] == parsed;
      return true, more, trace;
    }

    /** One file: counted as generic, or parsed and its symbols counted. */
    method CountFile(
      policy: CodeEmbeddingPolicy, lookup: Lookup, unique: set<Input>, file: SourceFile, ghost before: seq<Outcome>)
      returns (error: Option<PlanError>, more: set<Input>, ghost trace: seq<Outcome>)
      requires Reflects(policy, lookup, before, unique)
      modifies this
      ensures error.None? ==>
                && Reflects(policy, lookup, before + trace, more)
                && Explained(policy, lookup.budget, SymbolsOf(file), trace)
                && filesRequiringGenericParser == old(filesRequiringGenericParser) + One(file.native == Some(false))
                && filesParsed + filesRequiringGenericParser == old(filesParsed + filesRequiringGenericParser) + 1
      ensures uniqueEmbeddingInputs == old(uniqueEmbeddingInputs)
      ensures duplicateEmbeddingInputs == old(duplicateEmbeddingInputs)
      ensures error == Some(ParserUnavailable) <==> file.native.None?
      ensures error == Some(ParseFailed) <==> file.native == Some(true) && file.parsed.None?
      ensures error == Some(TooManyInputs) ==>
                && |trace| <= |SymbolsOf(file)| && Explained(policy, lookup.budget, SymbolsOf(file)[..|trace|], trace)
                && MAX_UNIQUE_INPUTS < |Elements(Stream(before + trace))|
    {
      hide CountsOf, Explains, Totals, Stream, Elements, Plus;
      more, trace := unique, [];
      assert before + [] == before;
      if file.native.None? {
        return Some(ParserUnavailable), more, trace;
      }
      if !file.native.value {
        filesRequiringGenericParser := filesRequiringGenericParser + 1;
        return None, more, trace;
      }
      if file.parsed.None? {
        return Some(ParseFailed), more, trace;
      }
      filesParsed := filesParsed + 1;
      var ok;
      ok, more, trace := CountSymbols(policy, lookup, unique, file.parsed.value, before);
      error := if ok then None else Some(TooManyInputs);
    }

    /** Closes the report: distinct and repeated inputs, and whether anything is missing or rejected. */
    method Close(policy: CodeEmbeddingPolicy, lookup: Lookup, unique: set<Input>, ghost trace: seq<Outcome>)
      requires Reflects(policy, lookup, trace, unique)
      requires !InputsKnown(policy, lookup) ==> uniqueEmbeddingInputs.None? && duplicateEmbeddingInputs.None?
      modifies this`uniqueEmbeddingInputs, this`duplicateEmbeddingInputs, this`inputInventoryComplete, this`status
      ensures Reflects(policy, lookup, trace, unique)
      ensures uniqueEmbeddingInputs == if InputsKnown(policy, lookup) then Some(|Elements(Stream(trace))|) else None
      ensures InputsKnown(policy, lookup) ==>
                && duplicateEmbeddingInputs.Some?
                && uniqueEmbeddingInputs.value + duplicateEmbeddingInputs.value == |Stream(trace)|
      ensures !InputsKnown(policy, lookup) ==> duplicateEmbeddingInputs.None?
      ensures var partial := !InputsKnown(policy, lookup) || 0 < filesRequiringGenericParser || MissingSource in trace;
              var blocked := exists o :: o in trace && o.Prepared? && o.rejected;
              && (status.Complete? <==> !partial && !blocked)
              && (status.Partial? <==> partial && !blocked)
              && (status.Blocked? <==> !partial && blocked)
              && (inputInventoryComplete <==> status.Complete?)
    {
      hide Totals, Stream, CountsOf, Elements;
      var known := InputsKnown(policy, lookup);
      CountedInputs(known, lookup.cache, Stream(trace));
      ElementsAreFewer(Stream(trace));
      MissingAreCounted(trace);
      if embeddingInputs.Some? {
        uniqueEmbeddingInputs := Some(|unique|);
        duplicateEmbeddingInputs := Some(embeddingInputs.value - |unique|);
      }
      var partial := !known || 0 < filesRequiringGenericParser || 0 < missingBodySources;
      var blocked := inputPolicyRejections.Some? && 0 < inputPolicyRejections.value;
      inputInventoryComplete := !partial && !blocked;
      status := if partial then (if blocked then PartialBlocked else Partial)
                else if blocked then Blocked else Complete;
    }
  }

  lemma CountedInputs(known: bool, cache: Option<Contents>, stream: seq<Input>)
    ensures CountsOf(known, cache, stream).embeddingInputs == if known then Some(|stream|) else None
  {
  }

  /** One outcome for each symbol, each following from it. */
  ghost predicate Explained(
    policy: CodeEmbeddingPolicy, budget: Option<InputBudget>, symbols: seq<RawSymbol>, trace: seq<Outcome>)
  {
    && |symbols| == |trace|
    && (forall i | 0 <= i < |trace| :: Explains(policy, budget, symbols[i], trace[i]))
  }

  lemma TraceStep(trace: seq<Outcome>, o: Outcome)
    ensures Totals(trace + [o]) == Plus(Totals(trace), CountOf(o))
    ensures Stream(trace + [o]) == Stream(trace) + InputsOf(o)
  {
    assert (trace + [o])[..|trace|] == trace;
  }

  // ---- counters as numbers of symbols

  /** How many symbols meet a condition. */
  ghost function HowMany(symbols: seq<RawSymbol>, p: RawSymbol -> bool): nat {
    |set i | 0 <= i < |symbols| && p(symbols[i])|
  }

  lemma HowManyMore(symbols: seq<RawSymbol>, p: RawSymbol -> bool)
    requires symbols != []
    ensures HowMany(symbols, p) ==
            HowMany(symbols[..|symbols| - 1], p) + if p(symbols[|symbols| - 1]) then 1 else 0
  {
    var n := |symbols| - 1;
    var front := set i | 0 <= i < |symbols[..n]| && p(symbols[..n][i]);
    var all := set i | 0 <= i < |symbols| && p(symbols[i]);
    if p(symbols[n]) {
      assert all == front + {n};
    } else {
      assert all == front;
    }
  }

  /** A counter that goes up by one for the symbols that meet a condition counts them. */
  lemma {:induction false} CounterIs(
    policy: CodeEmbeddingPolicy, budget: Option<InputBudget>, symbols: seq<RawSymbol>, trace: seq<Outcome>,
    counter: SymbolCounts -> nat, p: RawSymbol -> bool)
    requires Explained(policy, budget, symbols, trace)
    requires counter(NO_SYMBOLS) == 0
    requires forall a, b :: counter(Plus(a, b)) == counter(a) + counter(b)
    requires forall s, o | Explains(policy, budget, s, o) :: counter(CountOf(o)) == if p(s) then 1 else 0
    ensures counter(Totals(trace)) == HowMany(symbols, p)
  {
    hide Explains, CountOf, Plus, HowMany;
    if trace != [] {
      var n := |trace| - 1;
      HowManyMore(symbols, p);
      assert Explains(policy, budget, symbols[n], trace[n]);
      CounterIs(policy, budget, symbols[..n], trace[..n], counter, p);
    } else {
      NoneOfNothing(p);
    }
  }

  lemma NoneOfNothing(p: RawSymbol -> bool)
    ensures HowMany([], p) == 0
  {
    var none: seq<RawSymbol> := [];
    assert (set i | 0 <= i < |none| && p(none[i])) == {};
  }

  predicate HasSource(policy: CodeEmbeddingPolicy, s: RawSymbol) {
    Eligible(policy, s.kind, s.docComment.Some?) && s.embeddingSource.Some?
  }

  predicate LacksSource(policy: CodeEmbeddingPolicy, s: RawSymbol) {
    Eligible(policy, s.kind, s.docComment.Some?) && s.embeddingSource.None?
  }

  predicate HeaderOnly(policy: CodeEmbeddingPolicy, s: RawSymbol) {
    HasSource(policy, s) && s.embeddingSource.value.fragments == []
  }

  /** A captured source the budget has no inputs for. */
  ghost predicate BodyRefused(policy: CodeEmbeddingPolicy, budget: Option<InputBudget>, s: RawSymbol) {
    HasSource(policy, s) && budget.Some? && CannotPrepare(budget.value, s.embeddingSource.value)
  }

  /** A comment the budget does not accept. */
  predicate CommentRefused(budget: Option<InputBudget>, s: RawSymbol) {
    s.docComment.Some? && budget.Some? && !budget.value.Accepts(s.docComment.value)
  }

  /** The counters of a plan, as numbers of symbols. */
  ghost predicate CountsSymbols(
    policy: CodeEmbeddingPolicy, budget: Option<InputBudget>, symbols: seq<RawSymbol>, t: SymbolCounts)
  {
    if policy.DocComment? then
      && t.eligibleSymbols == t.embeddingCandidates == HowMany(symbols, (s: RawSymbol) => s.docComment.Some?)
      && t.missingBodySources == t.bodySources == t.bodySourcesHeaderOnly == 0
      && t.rejections == HowMany(symbols, s => CommentRefused(budget, s))
    else
      && t.eligibleSymbols ==
         HowMany(symbols, (s: RawSymbol) => s.kind !in {Module, Variable, Constant, Field, Parameter, Macro})
      && t.missingBodySources == HowMany(symbols, s => LacksSource(policy, s))
      && t.embeddingCandidates == t.bodySources == HowMany(symbols, s => HasSource(policy, s))
      && t.bodySourcesHeaderOnly == HowMany(symbols, s => HeaderOnly(policy, s))
      && t.rejections == HowMany(symbols, s => BodyRefused(policy, budget, s))
  }

  lemma EligibleAreCounted(
    policy: CodeEmbeddingPolicy, budget: Option<InputBudget>, symbols: seq<RawSymbol>, trace: seq<Outcome>)
    requires Explained(policy, budget, symbols, trace)
    ensures Totals(trace).eligibleSymbols ==
            if policy.DocComment? then HowMany(symbols, (s: RawSymbol) => s.docComment.Some?)
            else HowMany(symbols, (s: RawSymbol) => s.kind !in {Module, Variable, Constant, Field, Parameter, Macro})
  {
    hide Explained, Totals, HowMany, BodyOutcome;
    if policy.DocComment? {
      CounterIs(policy, budget, symbols, trace, (t: SymbolCounts) => t.eligibleSymbols,
                (s: RawSymbol) => s.docComment.Some?);
    } else {
      CounterIs(policy, budget, symbols, trace, (t: SymbolCounts) => t.eligibleSymbols,
                (s: RawSymbol) => s.kind !in {Module, Variable, Constant, Field, Parameter, Macro});
    }
  }

  /** A body is rejected exactly when its inputs cannot be prepared. */
  lemma RejectedCannotPrepare(policy: CodeEmbeddingPolicy, budget: Option<InputBudget>, s: RawSymbol, o: Outcome)
    requires !policy.DocComment? && Explains(policy, budget, s, o)
    ensures CountOf(o).rejections == if BodyRefused(policy, budget, s) then 1 else 0
  {
    hide PreparesInputs, CannotPrepare, Eligible;
    if o.Prepared? && budget.Some? && !o.rejected {
      PreparedIsNotRejected(budget.value, s.embeddingSource.value, o.inputs);
    }
  }

  lemma BodiesAreCounted(
    policy: CodeEmbeddingPolicy, budget: Option<InputBudget>, symbols: seq<RawSymbol>, trace: seq<Outcome>)
    requires !policy.DocComment? && Explained(policy, budget, symbols, trace)
    ensures CountsSymbols(policy, budget, symbols, Totals(trace))
  {
    hide Explained, Totals, HowMany, BodyOutcome, CannotPrepare, Eligible, BodyRefused;
    EligibleAreCounted(policy, budget, symbols, trace);
    CounterIs(policy, budget, symbols, trace, (t: SymbolCounts) => t.missingBodySources, s => LacksSource(policy, s));
    CounterIs(policy, budget, symbols, trace, (t: SymbolCounts) => t.embeddingCandidates, s => HasSource(policy, s));
    CounterIs(policy, budget, symbols, trace, (t: SymbolCounts) => t.bodySources, s => HasSource(policy, s));
    CounterIs(policy, budget, symbols, trace, (t: SymbolCounts) => t.bodySourcesHeaderOnly, s => HeaderOnly(policy, s));
    forall s, o | Explains(policy, budget, s, o)
      ensures CountOf(o).rejections == if BodyRefused(policy, budget, s) then 1 else 0
    {
      RejectedCannotPrepare(policy, budget, s, o);
    }
    CounterIs(policy, budget, symbols, trace, (t: SymbolCounts) => t.rejections, s => BodyRefused(policy, budget, s));
  }

  lemma CommentsAreCounted(budget: Option<InputBudget>, symbols: seq<RawSymbol>, trace: seq<Outcome>)
    requires Explained(DocComment, budget, symbols, trace)
    ensures CountsSymbols(DocComment, budget, symbols, Totals(trace))
  {
    hide Explained, Totals, HowMany, BodyOutcome;
    EligibleAreCounted(DocComment, budget, symbols, trace);
    NeverMet(symbols);
    CounterIs(DocComment, budget, symbols, trace, (t: SymbolCounts) => t.missingBodySources, s => false);
    CounterIs(DocComment, budget, symbols, trace, (t: SymbolCounts) => t.bodySources, s => false);
    CounterIs(DocComment, budget, symbols, trace, (t: SymbolCounts) => t.bodySourcesHeaderOnly, s => false);
    CounterIs(DocComment, budget, symbols, trace, (t: SymbolCounts) => t.embeddingCandidates,
              (s: RawSymbol) => s.docComment.Some?);
    CounterIs(DocComment, budget, symbols, trace, (t: SymbolCounts) => t.rejections, s => CommentRefused(budget, s));
  }

  /** Whatever the policy, the counters are numbers of symbols. */
  lemma SymbolsAreCounted(
    policy: CodeEmbeddingPolicy, budget: Option<InputBudget>, symbols: seq<RawSymbol>, trace: seq<Outcome>)
    requires Explained(policy, budget, symbols, trace)
    ensures CountsSymbols(policy, budget, symbols, Totals(trace))
    ensures policy.DocComment? ==> Stream(trace) == Comments(symbols)
  {
    hide Explained, Totals, CountsSymbols, Stream, Comments;
    if policy.DocComment? {
      CommentsAreCounted(budget, symbols, trace);
      CommentsAreInputs(budget, symbols, trace);
    } else {
      BodiesAreCounted(policy, budget, symbols, trace);
    }
  }

  lemma NeverMet(symbols: seq<RawSymbol>)
    ensures HowMany(symbols, s => false) == 0
  {
  }

  /** The comments of the symbols that have one, in order. */
  function Comments(symbols: seq<RawSymbol>): seq<Input> {
    if symbols == [] then []
    else
      var last := symbols[|symbols| - 1];
      Comments(symbols[..|symbols| - 1]) + if last.docComment.Some? then [last.docComment.value] else []
  }

  /** Under the comment policy every comment is an input, whether the budget takes it or not. */
  lemma {:induction false} CommentsAreInputs(
    budget: Option<InputBudget>, symbols: seq<RawSymbol>, trace: seq<Outcome>)
    requires Explained(DocComment, budget, symbols, trace)
    ensures Stream(trace) == Comments(symbols)
  {
    if trace != [] {
      var n := |trace| - 1;
      assert Explains(DocComment, budget, symbols[n], trace[n]);
      CommentsAreInputs(budget, symbols[..n], trace[..n]);
    }
  }

  // ----------------------------------------------------------------------- the plan

  /** The symbols of the files a native parser handles. */
  function NativeSymbols(files: seq<SourceFile>): seq<RawSymbol> {
    if files == [] then []
    else
      NativeSymbols(files[..|files| - 1]) + SymbolsOf(files[|files| - 1])
  }

  function SymbolsOf(file: SourceFile): seq<RawSymbol> {
    if file.native == Some(true) && file.parsed.Some? then file.parsed.value else []
  }

  /** Files no native parser handles. */
  function GenericFiles(files: seq<SourceFile>): nat {
    if files == [] then 0
    else GenericFiles(files[..|files| - 1]) + One(files[|files| - 1].native == Some(false))
  }

  lemma FilesMore(files: seq<SourceFile>, i: nat)
    requires i < |files|
    ensures GenericFiles(files[..i + 1]) == GenericFiles(files[..i]) + One(files[i].native == Some(false))
    ensures NativeSymbols(files[..i + 1]) == NativeSymbols(files[..i]) + SymbolsOf(files[i])
  {
    assert files[..i + 1][..i] == files[..i];
  }

  lemma ExplainedJoin(
    policy: CodeEmbeddingPolicy, budget: Option<InputBudget>,
    a: seq<RawSymbol>, s: seq<Outcome>, b: seq<RawSymbol>, t: seq<Outcome>)
    requires Explained(policy, budget, a, s) && Explained(policy, budget, b, t)
    ensures Explained(policy, budget, a + b, s + t)
  {
    hide Explains;
  }

  lemma {:induction false} NativePrefix(files: seq<SourceFile>, n: nat)
    requires n <= |files|
    ensures NativeSymbols(files[..n]) <= NativeSymbols(files)
  {
    if n < |files| {
      NativePrefix(files[..|files| - 1], n);
      assert files[..|files| - 1][..n] == files[..n];
    } else {
      assert files[..n] == files;
    }
  }

  /** A trace that stops inside a file explains the symbols up to there. */
  lemma ExplainedPart(
    policy: CodeEmbeddingPolicy, budget: Option<InputBudget>, files: seq<SourceFile>, i: nat,
    trace: seq<Outcome>, more: seq<Outcome>)
    requires i < |files| && Explained(policy, budget, NativeSymbols(files[..i]), trace)
    requires |more| <= |SymbolsOf(files[i])| && Explained(policy, budget, SymbolsOf(files[i])[..|more|], more)
    ensures |trace + more| <= |NativeSymbols(files)|
    ensures Explained(policy, budget, NativeSymbols(files)[..|trace + more|], trace + more)
  {
    hide Explains, NativeSymbols, SymbolsOf;
    var before, symbols := NativeSymbols(files[..i]), SymbolsOf(files[i]);
    FilesMore(files, i);
    NativePrefix(files, i + 1);
    ExplainedJoin(policy, budget, before, trace, symbols[..|more|], more);
    assert NativeSymbols(files)[..|trace + more|] == before + symbols[..|more|];
  }

  // ---- files that went through the capture pass

  /** A file whose symbols are what the capture pass leaves of a parser's symbols. */
  ghost predicate IsCaptured(policy: CodeEmbeddingPolicy, file: SourceFile) {
    file.parsed.Some? ==>
      exists facts, source, raw :: CapturedFrom(policy, file.parsed.value, facts, source, raw)
  }

  ghost predicate CapturedFrom(
    policy: CodeEmbeddingPolicy, symbols: seq<RawSymbol>, facts: FileFacts, source: Str, raw: seq<RawSymbol>)
  {
    NothingCaptured(raw) && symbols == CaptureAll(facts, source, policy, raw).symbols
  }

  lemma CapturedIsBounded(policy: CodeEmbeddingPolicy, file: SourceFile)
    requires IsCaptured(policy, file)
    ensures TotalRetained(SymbolsOf(file)) <= if SymbolsOf(file) == [] then 0 else MAX_FILE_SOURCE_BYTES
  {
    hide CaptureAll, TotalRetained, NothingCaptured;
    if SymbolsOf(file) != [] {
      var facts, source, raw :| CapturedFrom(policy, file.parsed.value, facts, source, raw);
      FileBudget(facts, source, policy, raw);
    } else {
      NothingRetained();
    }
  }

  lemma NothingRetained()
    ensures TotalRetained([]) == 0
  {
  }

  lemma {:induction false} RetainedJoin(a: seq<RawSymbol>, b: seq<RawSymbol>)
    ensures TotalRetained(a + b) == TotalRetained(a) + TotalRetained(b)
  {
    if b == [] {
      assert a + b == a;
    } else {
      RetainedJoin(a, b[..|b| - 1]);
      assert (a + b)[..|a + b| - 1] == a + b[..|b| - 1];
    }
  }

  /** All native files together retain at most a mebibyte each. */
  lemma {:induction false} FilesAreBounded(policy: CodeEmbeddingPolicy, files: seq<SourceFile>)
    requires forall i | 0 <= i < |files| :: IsCaptured(policy, files[i]) && files[i].native.Some?
    ensures GenericFiles(files) <= |files|
    ensures TotalRetained(NativeSymbols(files)) <= (|files| - GenericFiles(files)) * MAX_FILE_SOURCE_BYTES
  {
    hide IsCaptured, TotalRetained;
    if files == [] {
      NothingRetained();
    } else {
      var front, last := files[..|files| - 1], files[|files| - 1];
      FilesAreBounded(policy, front);
      CapturedIsBounded(policy, last);
      RetainedJoin(NativeSymbols(front), SymbolsOf(last));
    }
  }

  /** A trace counts no more retained bytes than its symbols hold. */
  lemma {:induction false} TraceRetains(
    policy: CodeEmbeddingPolicy, budget: Option<InputBudget>, symbols: seq<RawSymbol>, trace: seq<Outcome>)
    requires Explained(policy, budget, symbols, trace)
    ensures Totals(trace).retainedRepresentationBytes <= TotalRetained(symbols)
  {
    hide BodyOutcome, RetainedBytes, Eligible;
    if trace != [] {
      var front, last := symbols[..|symbols| - 1], symbols[|symbols| - 1];
      assert Explains(policy, budget, last, trace[|trace| - 1]);
      TraceRetains(policy, budget, front, trace[..|trace| - 1]);
    }
  }

  /** A plan over captured files retains at most a mebibyte for each file it parsed. */
  lemma PlanRetains(
    policy: CodeEmbeddingPolicy, budget: Option<InputBudget>, files: seq<SourceFile>, trace: seq<Outcome>)
    requires forall i | 0 <= i < |files| :: files[i].native.Some?
    requires Explained(policy, budget, NativeSymbols(files), trace)
    ensures AllCaptured(policy, files) ==>
              Totals(trace).retainedRepresentationBytes <= (|files| - GenericFiles(files)) * MAX_FILE_SOURCE_BYTES
  {
    hide IsCaptured, Explained, Totals, GenericFiles, NativeSymbols, TotalRetained;
    if AllCaptured(policy, files) {
      FilesAreBounded(policy, files);
      TraceRetains(policy, budget, NativeSymbols(files), trace);
    }
  }

  ghost predicate AllCaptured(policy: CodeEmbeddingPolicy, files: seq<SourceFile>) {
    forall i | 0 <= i < |files| :: IsCaptured(policy, files[i])
  }

  /**
   Under a body policy, a symbol of a captured file is reported as missing its source
   exactly when it is eligible and its header no longer fitted the file's bytes.
   */
  lemma MissingIsExhausted(
    policy: CodeEmbeddingPolicy, budget: Option<InputBudget>, files: seq<SourceFile>, trace: seq<Outcome>,
    f: nat, facts: FileFacts, source: Str, raw: seq<RawSymbol>, i: nat)
    requires !policy.DocComment? && Explained(policy, budget, NativeSymbols(files), trace)
    requires f < |files| && files[f].native == Some(true) && files[f].parsed.Some?
    requires CapturedFrom(policy, files[f].parsed.value, facts, source, raw) && i < |raw|
    ensures var at := |NativeSymbols(files[..f])| + i;
            && at < |trace|
            && (trace[at].MissingSource? <==>
                  && Eligible(policy, raw[i].kind, raw[i].docComment.Some?)
                  && CaptureAll(facts, source, policy, raw[..i]).remaining < Overhead(facts, raw[i], policy))
  {
    hide CaptureAll, NativeSymbols, Overhead, IsCapture, BodyOutcome, Eligible, HeaderBytes;
    var at := |NativeSymbols(files[..f])| + i;
    FilesMore(files, f);
    NativePrefix(files, f + 1);
    assert NativeSymbols(files)[at] == files[f].parsed.value[i];
    assert Explains(policy, budget, NativeSymbols(files)[at], trace[at]);
    CapturedSymbol(facts, source, policy, raw, i);
  }

  /**
   The plan over a snapshot of files. The trace has one outcome for each symbol of the
   native files, and every counter is what the trace says.
   */
  method Inspect(policy: CodeEmbeddingPolicy, lookup: Lookup, files: seq<SourceFile>)
    returns (r: Result<Report, PlanError>, ghost trace: seq<Outcome>)
    requires LooksUpUnderBudget(lookup)
    ensures r.Success? ==>
              && fresh(r.value)
              && Explained(policy, lookup.budget, NativeSymbols(files), trace)
              && r.value.Reflects(policy, lookup, trace, Elements(Stream(trace)))
              && r.value.filesRequiringGenericParser == GenericFiles(files)
              && r.value.filesParsed + r.value.filesRequiringGenericParser == |files|
              && r.value.uniqueEmbeddingInputs ==
                 (if InputsKnown(policy, lookup) then Some(|Elements(Stream(trace))|) else None)
              && (InputsKnown(policy, lookup) ==>
                    && r.value.duplicateEmbeddingInputs.Some?
                    && r.value.uniqueEmbeddingInputs.value + r.value.duplicateEmbeddingInputs.value == |Stream(trace)|)
              && (r.value.inputInventoryComplete <==>
                    && InputsKnown(policy, lookup) && GenericFiles(files) == 0 && MissingSource !in trace
                    && forall o | o in trace :: o.Prepared? ==> !o.rejected)
    ensures (exists f :: f in files && (f.native.None? || (f.native == Some(true) && f.parsed.None?))) ==> r.Failure?
    ensures r == Failure(ParserUnavailable) ==> exists f :: f in files && f.native.None?
    ensures r == Failure(ParseFailed) ==> exists f :: f in files && f.native == Some(true) && f.parsed.None?
    ensures r.Success? ==>
              && CountsSymbols(policy, lookup.budget, NativeSymbols(files), r.value.SymbolPart())
              && (policy.DocComment? ==> Stream(trace) == Comments(NativeSymbols(files)))
              && (r.value.inputPolicyRejections.Some? <==> lookup.budget.Some?)
              && (r.value.embeddingInputs.Some? <==> policy.DocComment? || lookup.budget.Some?)
    ensures r.Success? ==> |Elements(Stream(trace))| <= 100_000
    ensures r.Success? && AllCaptured(policy, files) ==>
              r.value.retainedRepresentationBytes <= r.value.filesParsed * (1024 * 1024)
    ensures r == Failure(TooManyInputs) ==>
              && |trace| <= |NativeSymbols(files)|
              && Explained(policy, lookup.budget, NativeSymbols(files)[..|trace|], trace)
              && 100_000 < |Elements(Stream(trace))|
  {
    hide CountsOf, Explained, Totals, Stream, NativeSymbols, GenericFiles, Elements, SymbolsOf, AllCaptured,
         CountsSymbols, Comments;
    var report := new Report(policy, lookup);
    var unique: set<Input> := {};
    trace := [];
    EmptyTrace();
    NoFiles(policy, lookup.budget, files);
    for i := 0 to |files|
      invariant fresh(report) && report.Reflects(policy, lookup, trace, unique)
      invariant Explained(policy, lookup.budget, NativeSymbols(files[..i]), trace)
      invariant report.filesRequiringGenericParser == GenericFiles(files[..i])
      invariant report.filesParsed + report.filesRequiringGenericParser == i
      invariant forall k | 0 <= k < i :: files[k].native.Some? && (files[k].native.value ==> files[k].parsed.Some?)
      invariant !InputsKnown(policy, lookup) ==>
                  report.uniqueEmbeddingInputs.None? && report.duplicateEmbeddingInputs.None?
    {
      FilesMore(files, i);
      assert files[i] in files;
      var error;
      ghost var more;
      error, unique, more := report.CountFile(policy, lookup, unique, files[i], trace);
      if error.Some? {
        if error == Some(TooManyInputs) {
          ExplainedPart(policy, lookup.budget, files, i, trace, more);
        }
        return Failure(error.value), trace + more;
      }
      ExplainedJoin(policy, lookup.budget, NativeSymbols(files[..i]), trace, SymbolsOf(files[i]), more);
      trace := trace + more;
    }
    assert files[..|files|] == files;
    report.Close(policy, lookup, unique, trace);
    PlanRetains(policy, lookup.budget, files, trace);
    SymbolsAreCounted(policy, lookup.budget, NativeSymbols(files), trace);
    CountedInputs(InputsKnown(policy, lookup), lookup.cache, Stream(trace));
    return Success(report), trace;
  }

  lemma {:induction false} StreamPrefix(trace: seq<Outcome>, n: nat)
    requires n <= |trace|
    ensures Stream(trace[..n]) <= Stream(trace)
  {
    if n < |trace| {
      StreamPrefix(trace[..|trace| - 1], n);
      assert trace[..|trace| - 1][..n] == trace[..n];
    } else {
      assert trace[..n] == trace;
    }
  }

  /**
   Policy, budget and files determine the trace, so a plan refused for too many inputs has
   too many however it is made.
   */
  lemma PlanIsDetermined(
    policy: CodeEmbeddingPolicy, budget: Option<InputBudget>, symbols: seq<RawSymbol>,
    part: seq<Outcome>, whole: seq<Outcome>)
    requires |part| <= |symbols| && Explained(policy, budget, symbols[..|part|], part)
    requires Explained(policy, budget, symbols, whole)
    ensures part == whole[..|part|]
    ensures |Elements(Stream(part))| <= |Elements(Stream(whole))|
  {
    hide Explains, Stream, Elements;
    forall i | 0 <= i < |part|
      ensures part[i] == whole[i]
    {
      OutcomesAgree(policy, budget, symbols[i], part[i], whole[i]);
    }
    assert whole[..|part|] == part;
    StreamPrefix(whole, |part|);
    var rest := Stream(whole)[|Stream(part)|..];
    assert Stream(part) + rest == Stream(whole);
    MoreElements(Stream(part), rest);
  }

  lemma EmptyTrace()
    ensures Totals([]) == NO_SYMBOLS && Stream([]) == [] && Elements<Input>([]) == {}
  {
  }

  lemma NoFiles(policy: CodeEmbeddingPolicy, budget: Option<InputBudget>, files: seq<SourceFile>)
    ensures Explained(policy, budget, NativeSymbols(files[..0]), [])
    ensures NativeSymbols(files[..0]) == [] && GenericFiles(files[..0]) == 0
  {
  }

  lemma NotedEligible(before: SymbolCounts, o: Outcome)
    requires !o.Ineligible?
    ensures Plus(Plus(before, NO_SYMBOLS.(symbols := 1, eligibleSymbols := 1)), Noted(o)) == Plus(before, CountOf(o))
  {
  }

  /** What a prepared symbol adds beside being a symbol and eligible. */
  function Noted(o: Outcome): SymbolCounts {
    CountOf(o).(symbols := 0, eligibleSymbols := 0)
  }

  lemma SameNote(inputs: seq<Input>, source: Option<SymbolSource>, rejected: bool)
    ensures Noted(Prepared(inputs, source, rejected)) == Noted(Prepared([], source, rejected))
  {
  }

  lemma MoreElements(inputs: seq<Input>, more: seq<Input>)
    ensures |Elements(inputs)| <= |Elements(inputs + more)|
  {
    FirstOccurrencesAreAll(inputs);
    FirstOccurrencesAreAll(inputs + more);
    assert Elements(inputs + more) == Elements(inputs) + (Elements(inputs + more) - Elements(inputs));
  }

  lemma NoCacheNoCounts(known: bool, cache: Option<Contents>, stream: seq<Input>, x: Input)
    ensures cache.None? ==>
              var c := CountsOf(known, cache, stream);
              c.snapshotHitInputs.None? && c.snapshotMissInputs.None? && c.snapshotMissInputBytes.None? &&
              c.snapshotUniqueMissInputs.None?
  {
  }
}
