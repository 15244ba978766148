/**
 The bounded document splitter: exact filling under a byte budget, and a bounded
 search under a tokenizer whose count need not grow with the prefix.
 */
module EmbeddingInput {
  import opened Core
  import opened Utf8

  const MAX_INPUT_BYTES: nat := 1024 * 1024
  const MAX_DOCUMENT_SPLIT_PROBES: nat := 128
  const MAX_DOCUMENT_SPLIT_PARTS: nat := 65536

  datatype Range = Range(start: nat, end: nat) {
    function Length(): int {
      end - start
    }
  }

  datatype SplitError =
    | HeadingTooLong
    | TooManyParts
    | CharacterTooWide(at: nat)
    | OutputTooLarge
    | WorkExhausted
    | NoSplitFound(at: nat)
    | TokenizerFailed
    | InputTooLong(index: nat)
    | OverBudget(index: nat)

  /** Both the tokenizer-work and the output-size allowance of one document. */
  function Allowance(prefixBytes: nat, bodyBytes: nat): (n: nat)
    ensures 16 * 1024 <= n <= USIZE_MAX
  {
    var scaled := SaturatingMul(SaturatingAdd(prefixBytes, bodyBytes), 64);
    if scaled < 16 * 1024 then 16 * 1024 else scaled
  }

  lemma AllowanceIs(prefixBytes: nat, bodyBytes: nat)
    requires prefixBytes + bodyBytes <= USIZE_MAX
    ensures Allowance(prefixBytes, bodyBytes) == Max(16384, Min(USIZE_MAX, 64 * (prefixBytes + bodyBytes)))
  {
  }

  /** Overflow on the way never hides an affordable size, and never admits another. */
  function DocumentOutputBytes(prefixBytes: nat, bodyBytes: nat, parts: nat): (r: Result<nat, SplitError>)
    ensures r.Success? <==>
            && parts <= 65536
            && parts * prefixBytes + bodyBytes <=
               Max(16384, Min(USIZE_MAX, 64 * Min(USIZE_MAX, prefixBytes + bodyBytes)))
    ensures r.Success? ==> r.value == parts * prefixBytes + bodyBytes
    ensures r == Failure(TooManyParts) <==> MAX_DOCUMENT_SPLIT_PARTS < parts
  {
    if parts > MAX_DOCUMENT_SPLIT_PARTS then
      Failure(TooManyParts)
    else
      var product := CheckedMul(parts, prefixBytes);
      var bytes := if product.Some? then CheckedAdd(product.value, bodyBytes) else None;
      if bytes.Some? && bytes.value <= Allowance(prefixBytes, bodyBytes) then
        Success(bytes.value)
      else
        Failure(OutputTooLarge)
  }

  // ---------------------------------------------------------------- partitions

  /** `rs` cuts `body[..upTo]` into consecutive, non-empty, aligned pieces. */
  ghost predicate Cuts(body: seq<byte>, rs: seq<Range>, upTo: nat) {
    && upTo == CutBefore(rs, |rs|)
    && (forall k {:trigger CutBefore(rs, k)} | 0 <= k < |rs| :: rs[k].start == CutBefore(rs, k))
    && (forall k | 0 <= k < |rs| ::
          && rs[k].start < rs[k].end <= |body|
          && IsBoundary(body, rs[k].start)
          && IsBoundary(body, rs[k].end))
  }

  function CutBefore(rs: seq<Range>, k: nat): nat
    requires k <= |rs|
  {
    if k == 0 then 0 else rs[k - 1].end
  }

  ghost predicate Partition(body: seq<byte>, rs: seq<Range>) {
    Cuts(body, rs, |body|)
  }

  ghost predicate PiecesWithin(rs: seq<Range>, capacity: int) {
    forall k | 0 <= k < |rs| :: rs[k].Length() <= capacity
  }

  lemma {:induction false} CutsAscend(body: seq<byte>, rs: seq<Range>, upTo: nat, i: nat, j: nat)
    requires Cuts(body, rs, upTo) && i <= j < |rs|
    ensures rs[i].end <= rs[j].end <= upTo
    ensures i < j ==> rs[i].end <= rs[j].start
    decreases |rs| - i
  {
    assert CutBefore(rs, i + 1) == rs[i].end;
    if i < j {
      CutsAscend(body, rs, upTo, i + 1, j);
    } else if j + 1 < |rs| {
      CutsAscend(body, rs, upTo, j + 1, |rs| - 1);
    }
  }

  lemma CutsFront(body: seq<byte>, rs: seq<Range>, upTo: nat, k: nat)
    requires Cuts(body, rs, upTo) && k < |rs|
    ensures Cuts(body, rs[..k], rs[k].start)
  {
    assert forall j | 0 <= j <= k :: CutBefore(rs[..k], j) == CutBefore(rs, j);
  }

  lemma CutsExtend(body: seq<byte>, rs: seq<Range>, upTo: nat, end: nat)
    requires Cuts(body, rs, upTo) && upTo < end <= |body|
    requires IsBoundary(body, upTo) && IsBoundary(body, end)
    ensures Cuts(body, rs + [Range(upTo, end)], end)
  {
    var more := rs + [Range(upTo, end)];
    assert forall j | 0 <= j <= |rs| :: CutBefore(more, j) == CutBefore(rs, j);
  }

  /** Every byte of the cut part lies in one piece. */
  lemma {:induction false} CutsCover(body: seq<byte>, rs: seq<Range>, upTo: nat, x: nat) returns (k: nat)
    requires Cuts(body, rs, upTo) && x < upTo
    ensures k < |rs| && rs[k].start <= x < rs[k].end
    decreases |rs|
  {
    k := |rs| - 1;
    if x < rs[k].start {
      CutsFront(body, rs, upTo, k);
      k := CutsCover(body, rs[..k], rs[k].start, x);
    }
  }

  // ---------------------------------------------------------- the byte budget

  /** Room for the body beside the heading under the byte-budget proxy. */
  function ByteCapacity(limit: nat, prefix: seq<byte>): int {
    Min(limit, MAX_INPUT_BYTES) - |prefix|
  }

  /** A split of the body whose pieces all fit the capacity. */
  ghost predicate Split(body: seq<byte>, rs: seq<Range>, capacity: int) {
    Partition(body, rs) && PiecesWithin(rs, capacity)
  }

  /** A split that also respects the part and output limits. */
  ghost predicate Feasible(limit: nat, prefix: seq<byte>, body: seq<byte>, rs: seq<Range>) {
    && Split(body, rs, ByteCapacity(limit, prefix))
    && |rs| <= MAX_DOCUMENT_SPLIT_PARTS
    && OutputBytes(|rs|, |prefix|, |body|) <= Allowance(|prefix|, |body|)
  }

  /** Feasibility in plain terms: the input limits on each piece, and the limits on their number and size. */
  lemma FeasibleIs(limit: nat, prefix: Str, body: Str, rs: seq<Range>)
    ensures Feasible(limit, prefix, body, rs) <==>
            && Partition(body, rs)
            && (forall k | 0 <= k < |rs| ::
                  && |prefix| + rs[k].end - rs[k].start <= limit
                  && |prefix| + rs[k].end - rs[k].start <= 1024 * 1024)
            && |rs| <= 65536
            && |rs| * |prefix| + |body| <= Max(16384, Min(USIZE_MAX, 64 * (|prefix| + |body|)))
  {
    hide Partition;
    assert PiecesWithin(rs, ByteCapacity(limit, prefix)) <==>
           forall k | 0 <= k < |rs| :: |prefix| + rs[k].end - rs[k].start <= Min(limit, 1024 * 1024);
  }

  /** Up to 64 pieces are always affordable, whatever the sizes. */
  lemma SixtyFourPieces(limit: nat, prefix: Str, body: Str, rs: seq<Range>)
    requires Split(body, rs, ByteCapacity(limit, prefix)) && |rs| <= 64
    ensures Feasible(limit, prefix, body, rs)
  {
    if rs != [] {
      assert rs[0].Length() <= ByteCapacity(limit, prefix);
      ProductsOrder(|rs|, 64, |prefix|);
    }
    hide Split;
  }

  /** Each further heading has to be made up for by the body, 63 times over. */
  lemma BeyondSixtyFour(limit: nat, prefix: Str, body: Str, rs: seq<Range>)
    requires Feasible(limit, prefix, body, rs)
    ensures |rs| * |prefix| + |body| <= 16384 || (|rs| - 64) * |prefix| <= 63 * |body|
  {
    FeasibleIs(limit, prefix, body, rs);
    hide Feasible;
    assert (|rs| - 64) * |prefix| == |rs| * |prefix| - 64 * |prefix|;
  }

  lemma AffordableSplits(limit: nat, prefix: Str, body: Str)
    ensures forall rs: seq<Range> | Split(body, rs, ByteCapacity(limit, prefix)) && |rs| <= 64 ::
              Feasible(limit, prefix, body, rs)
  {
    forall rs: seq<Range> | Split(body, rs, ByteCapacity(limit, prefix)) && |rs| <= 64
      ensures Feasible(limit, prefix, body, rs)
    {
      SixtyFourPieces(limit, prefix, body, rs);
    }
  }

  /** Cuts in which each piece reaches as far as the capacity and the boundaries allow. */
  ghost predicate Greedy(body: seq<byte>, rs: seq<Range>, upTo: nat, capacity: nat) {
    && Cuts(body, rs, upTo)
    && (forall k | 0 <= k < |rs| :: rs[k].end == Floor(body, Min(rs[k].start + capacity, |body|)))
  }

  lemma GreedyExtends(body: seq<byte>, rs: seq<Range>, upTo: nat, capacity: nat, end: nat)
    requires Greedy(body, rs, upTo, capacity) && upTo < |body| && IsBoundary(body, upTo)
    requires upTo < end == Floor(body, Min(upTo + capacity, |body|))
    ensures Greedy(body, rs + [Range(upTo, end)], end, capacity)
  {
    hide Cuts, Floor, IsBoundary;
    CutsExtend(body, rs, upTo, end);
  }

  /** The k-th cut of any split within the capacity is at or before the k-th greedy cut. */
  lemma {:induction false} GreedyStaysAhead(
    body: seq<byte>, greedy: seq<Range>, upTo: nat, other: seq<Range>, capacity: nat, k: nat)
    requires Greedy(body, greedy, upTo, capacity) && Split(body, other, capacity)
    requires k < |greedy| && k < |other|
    ensures other[k].end <= greedy[k].end
  {
    if k > 0 {
      GreedyStaysAhead(body, greedy, upTo, other, capacity, k - 1);
    }
    assert other[k].start == CutBefore(other, k) <= CutBefore(greedy, k) == greedy[k].start;
    assert other[k].Length() <= capacity;
    FloorIsLast(body, Min(greedy[k].start + capacity, |body|), other[k].end);
  }

  /** A split that must get past `upTo` needs more pieces than the greedy one has used. */
  lemma OthersNeedMore(body: seq<byte>, greedy: seq<Range>, upTo: nat, other: seq<Range>, capacity: nat)
    requires Greedy(body, greedy, upTo, capacity) && upTo < |body| && Split(body, other, capacity)
    ensures |greedy| < |other|
  {
    if |other| <= |greedy| {
      var last := |other| - 1;
      GreedyStaysAhead(body, greedy, upTo, other, capacity, last);
      CutsAscend(body, greedy, upTo, last, |greedy| - 1);
    }
  }

  lemma PartLimitBinds(body: seq<byte>, greedy: seq<Range>, upTo: nat, capacity: nat)
    requires Greedy(body, greedy, upTo, capacity) && upTo < |body|
    ensures forall rs: seq<Range> | Split(body, rs, capacity) :: |greedy| < |rs|
  {
    forall rs: seq<Range> | Split(body, rs, capacity)
      ensures |greedy| < |rs|
    {
      OthersNeedMore(body, greedy, upTo, rs, capacity);
    }
  }

  /** No split exists when no boundary follows `at` within the capacity. */
  lemma CharacterBinds(body: seq<byte>, at: nat, capacity: nat)
    requires at < |body| && Floor(body, Min(at + capacity, |body|)) <= at
    ensures forall rs: seq<Range> :: !Split(body, rs, capacity)
  {
    forall rs: seq<Range> | Partition(body, rs)
      ensures !PiecesWithin(rs, capacity)
    {
      var k := CutsCover(body, rs, |body|, at);
      if rs[k].Length() <= capacity {
        FloorIsLast(body, Min(at + capacity, |body|), rs[k].end);
      }
    }
  }

  /** Bytes written for `parts` pieces that together hold `body` bytes. */
  function OutputBytes(parts: nat, heading: nat, body: nat): nat {
    parts * heading + body
  }

  lemma OneMorePiece(parts: nat, heading: nat, body: nat, end: nat)
    ensures OutputBytes(parts + 1, heading, end) == OutputBytes(parts, heading, body) + heading + end - body
  {
  }

  lemma MorePiecesCostMore(heading: nat, few: nat, many: nat)
    requires few < many
    ensures few * heading + heading <= many * heading
  {
    assert (few + 1) * heading <= many * heading;
  }

  lemma OutputLimitBinds(
    heading: nat, allowance: nat, body: seq<byte>, greedy: seq<Range>, upTo: nat, capacity: nat, end: nat)
    requires Greedy(body, greedy, upTo, capacity) && upTo < |body| && end <= |body|
    requires allowance < OutputBytes(|greedy|, heading, end) + heading
    ensures forall rs: seq<Range> | Split(body, rs, capacity) :: allowance < OutputBytes(|rs|, heading, |body|)
  {
    PartLimitBinds(body, greedy, upTo, capacity);
    forall rs: seq<Range> | Split(body, rs, capacity)
      ensures allowance < OutputBytes(|rs|, heading, |body|)
    {
      MorePiecesCostMore(heading, |greedy|, |rs|);
    }
  }

  /** A finished greedy split uses as few pieces as any other. */
  lemma FewestPieces(body: seq<byte>, greedy: seq<Range>, capacity: nat)
    requires Greedy(body, greedy, |body|, capacity)
    ensures forall rs: seq<Range> | Split(body, rs, capacity) :: |greedy| <= |rs|
  {
    if |greedy| > 0 {
      var last := |greedy| - 1;
      CutsFront(body, greedy, |body|, last);
      PartLimitBinds(body, greedy[..last], greedy[last].start, capacity);
    }
  }

  lemma GreedyFits(body: seq<byte>, greedy: seq<Range>, upTo: nat, capacity: nat)
    requires Greedy(body, greedy, upTo, capacity)
    ensures PiecesWithin(greedy, capacity)
  {
  }

  lemma NothingCut(body: seq<byte>, capacity: nat)
    ensures Greedy(body, [], 0, capacity) && IsBoundary(body, 0)
  {
  }

  /** A finished greedy split within the limits is feasible, and no split within the capacity is smaller. */
  lemma GreedyIsFeasible(limit: nat, prefix: seq<byte>, body: seq<byte>, greedy: seq<Range>)
    requires 0 < ByteCapacity(limit, prefix) && Greedy(body, greedy, |body|, ByteCapacity(limit, prefix))
    requires |greedy| <= MAX_DOCUMENT_SPLIT_PARTS
    requires OutputBytes(|greedy|, |prefix|, |body|) <= Allowance(|prefix|, |body|)
    ensures Feasible(limit, prefix, body, greedy)
    ensures forall rs: seq<Range> | Split(body, rs, ByteCapacity(limit, prefix)) :: |greedy| <= |rs|
  {
    hide Floor, Allowance, OutputBytes;
    GreedyFits(body, greedy, |body|, ByteCapacity(limit, prefix));
    FewestPieces(body, greedy, ByteCapacity(limit, prefix));
  }

  /**
   Succeeds exactly when some feasible split exists, and then uses as few pieces as
   any split whose pieces fit. Each error kind rules out every split for its reason.
   */
  method DocumentByteRanges(limit: nat, prefix: Str, body: Str) returns (r: Result<seq<Range>, SplitError>)
    ensures r.Success? <==>
            && 0 < ByteCapacity(limit, prefix)
            && exists rs: seq<Range> :: Feasible(limit, prefix, body, rs)
    ensures r.Success? ==>
              && Feasible(limit, prefix, body, r.value)
              && 0 < ByteCapacity(limit, prefix) && Greedy(body, r.value, |body|, ByteCapacity(limit, prefix))
              && forall rs: seq<Range> | Split(body, rs, ByteCapacity(limit, prefix)) :: |r.value| <= |rs|
    ensures r == Failure(HeadingTooLong) <==> ByteCapacity(limit, prefix) <= 0
    ensures r == Failure(TooManyParts) ==>
              forall rs: seq<Range> | Split(body, rs, ByteCapacity(limit, prefix)) ::
                65536 < |rs|
    ensures r.Failure? && r.error.CharacterTooWide? ==>
              forall rs: seq<Range> :: !Split(body, rs, ByteCapacity(limit, prefix))
    ensures r == Failure(OutputTooLarge) ==>
              forall rs: seq<Range> | Split(body, rs, ByteCapacity(limit, prefix)) ::
                Max(16384, Min(USIZE_MAX, 64 * (|prefix| + |body|))) < |rs| * |prefix| + |body|
    ensures 0 < ByteCapacity(limit, prefix) ==>
              forall rs: seq<Range> | Split(body, rs, ByteCapacity(limit, prefix)) && |rs| <= 64 :: r.Success?
    ensures r.Failure? ==>
              r.error.HeadingTooLong? || r.error.TooManyParts? || r.error.CharacterTooWide? || r.error.OutputTooLarge?
  {
    hide Greedy, Split, Allowance, WellFormed, Floor;
    AffordableSplits(limit, prefix, body);
    AllowanceIs(|prefix|, |body|);
    if Min(limit, MAX_INPUT_BYTES) <= |prefix| {
      return Failure(HeadingTooLong);
    }
    var capacity: nat := Min(limit, MAX_INPUT_BYTES) - |prefix|;
    var ranges: seq<Range> := [];
    var start: nat := 0;
    var outputLeft: nat := Allowance(|prefix|, |body|);
    NothingCut(body, capacity);
    while start < |body|
      invariant start <= |body| && IsBoundary(body, start)
      invariant Greedy(body, ranges, start, capacity)
      invariant |ranges| <= MAX_DOCUMENT_SPLIT_PARTS
      invariant outputLeft + OutputBytes(|ranges|, |prefix|, start) == Allowance(|prefix|, |body|)
    {
      if |ranges| == MAX_DOCUMENT_SPLIT_PARTS {
        PartLimitBinds(body, ranges, start, capacity);
        return Failure(TooManyParts);
      }
      var end := AlignDown(body, Min(SaturatingAdd(start, capacity), |body|));
      FloorIsLast(body, Min(start + capacity, |body|), start);
      if end == start {
        CharacterBinds(body, start, capacity);
        return Failure(CharacterTooWide(start));
      }
      if outputLeft < |prefix| + end - start {
        OutputLimitBinds(|prefix|, Allowance(|prefix|, |body|), body, ranges, start, capacity, end);
        return Failure(OutputTooLarge);
      }
      outputLeft := outputLeft - (|prefix| + end - start);
      OneMorePiece(|ranges|, |prefix|, start, end);
      GreedyExtends(body, ranges, start, capacity, end);
      ranges := ranges + [Range(start, end)];
      start := end;
    }
    GreedyIsFeasible(limit, prefix, body, ranges);
    return Success(ranges);
  }

  // ------------------------------------------------------------------ budgets

  /** A tokenizer is any total count; `None` is an encoding error. */
  datatype Tokenizer = Tokenizer(encode: seq<byte> -> Option<nat>)

  datatype InputBudget = InputBudget(tokenizer: Option<Tokenizer>, limit: nat) {
    function Count(text: seq<byte>): Option<nat> {
      match tokenizer
      case Some(t) => t.encode(text)
      case None => Some(|text|)
    }

    /** What `validate` lets through. */
    predicate Accepts(text: seq<byte>) {
      |text| <= MAX_INPUT_BYTES && Count(text).Some? && Count(text).value <= limit
    }

    /** Stops at the first text over a limit and names it. */
    method Validate(texts: seq<seq<byte>>) returns (r: Result<(), SplitError>)
      ensures r.Success? <==> forall i | 0 <= i < |texts| :: Accepts(texts[i])
      ensures r.Failure? ==>
                exists i ::
                  && 0 <= i < |texts|
                  && !Accepts(texts[i])
                  && (forall j | 0 <= j < i :: Accepts(texts[j]))
                  && r.error == (if MAX_INPUT_BYTES < |texts[i]| then InputTooLong(i)
                                 else if Count(texts[i]).None? then TokenizerFailed
                                 else OverBudget(i))
    {
      for index := 0 to |texts|
        invariant forall i | 0 <= i < index :: Accepts(texts[i])
      {
        if |texts[index]| > MAX_INPUT_BYTES {
          return Failure(InputTooLong(index));
        }
        var count := Count(texts[index]);
        if count.None? {
          return Failure(TokenizerFailed);
        }
        if count.value > limit {
          return Failure(OverBudget(index));
        }
      }
      return Success(());
    }
  }

  // --------------------------------------------------------- the token budget

  /** The first `t` bytes of what remains fit beside the heading. */
  predicate Fits(budget: InputBudget, prefix: seq<byte>, remaining: seq<byte>, t: nat)
    requires t <= |remaining|
  {
    budget.Accepts(prefix + remaining[..t])
  }

  function ProbeCost(heading: nat, t: nat): nat {
    if heading + t == 0 then 1 else heading + t
  }

  /** Tokenizer work charged for a list of probes beside one heading. */
  function Work(heading: nat, tested: seq<nat>): nat {
    if tested == [] then 0 else Work(heading, tested[..|tested| - 1]) + ProbeCost(heading, tested[|tested| - 1])
  }

  /** Halvings of `n` until nothing above one is left, counting the start. */
  function Bits(n: nat): (b: nat)
    ensures b >= 1
  {
    if n <= 1 then 1 else 1 + Bits(n / 2)
  }

  lemma {:induction false} BitsMonotone(m: nat, n: nat)
    requires m <= n
    ensures Bits(m) <= Bits(n)
  {
    if 1 < m {
      BitsMonotone(m / 2, n / 2);
    }
  }

  lemma {:induction false} BitsOfPower(n: nat, k: nat, power: nat)
    requires n <= power && power == Power2(k)
    ensures Bits(n) <= k + 1
  {
    if 0 < k && 1 < n {
      BitsOfPower(n / 2, k - 1, Power2(k - 1));
    }
  }

  function Power2(k: nat): nat {
    if k == 0 then 1 else 2 * Power2(k - 1)
  }

  lemma MebiIsPower()
    ensures Power2(20) == 0x10_0000
  {
    assert Power2(10) == 1024;
  }

  /** Charges one probe, then counts the heading with the piece; a refused charge counts nothing. */
  method DocumentProbe(budget: InputBudget, prefix: seq<byte>, piece: seq<byte>, workLeft: nat)
    returns (r: Result<bool, SplitError>, left: nat)
    ensures r == Failure(WorkExhausted) <==> workLeft < ProbeCost(|prefix|, |piece|)
    ensures r == Failure(WorkExhausted) ==> left == workLeft
    ensures r != Failure(WorkExhausted) ==> left == workLeft - ProbeCost(|prefix|, |piece|)
    ensures r.Failure? ==> r.error.WorkExhausted? || (r.error.TokenizerFailed? && budget.Count(prefix + piece).None?)
    ensures r.Success? ==> budget.Count(prefix + piece).Some?
    ensures r.Success? && |prefix| + |piece| <= MAX_INPUT_BYTES ==> r.value == budget.Accepts(prefix + piece)
  {
    var bytes := |prefix| + |piece|;
    var cost := if bytes < 1 then 1 else bytes;
    if workLeft < cost {
      return Failure(WorkExhausted), workLeft;
    }
    left := workLeft - cost;
    var count := budget.Count(prefix + piece);
    if count.None? {
      return Failure(TokenizerFailed), left;
    }
    return Success(count.value <= budget.limit), left;
  }

  /** A candidate the search may probe: inside the window, on a boundary, not probed before. */
  predicate Candidate(remaining: seq<byte>, window: nat, tested: seq<nat>, t: nat) {
    0 < t <= window <= |remaining| && IsBoundary(remaining, t) && t !in tested
  }

  /** Candidates probed and counted one after another, none of which fits. */
  ghost predicate Rejected(
    budget: InputBudget, prefix: seq<byte>, remaining: seq<byte>, window: nat, tested: seq<nat>)
  {
    tested == [] ||
    var front, t := tested[..|tested| - 1], tested[|tested| - 1];
    && Candidate(remaining, window, front, t)
    && !Fits(budget, prefix, remaining, t)
    && budget.Count(prefix + remaining[..t]).Some?
    && Rejected(budget, prefix, remaining, window, front)
  }

  /** A search that stopped without a fit, or at the first candidate that fits. */
  ghost predicate Probed(
    budget: InputBudget, prefix: seq<byte>, remaining: seq<byte>, window: nat, tested: seq<nat>, fit: Option<nat>)
  {
    match fit
    case None => Rejected(budget, prefix, remaining, window, tested)
    case Some(t) =>
      && tested != [] && t == tested[|tested| - 1]
      && Candidate(remaining, window, tested[..|tested| - 1], t)
      && Fits(budget, prefix, remaining, t)
      && Rejected(budget, prefix, remaining, window, tested[..|tested| - 1])
  }

  lemma ProbedMore(
    budget: InputBudget, prefix: seq<byte>, remaining: seq<byte>, window: nat, tested: seq<nat>, t: nat)
    requires Rejected(budget, prefix, remaining, window, tested) && Candidate(remaining, window, tested, t)
    requires budget.Count(prefix + remaining[..t]).Some?
    ensures Probed(budget, prefix, remaining, window, tested + [t],
                   if Fits(budget, prefix, remaining, t) then Some(t) else None)
    ensures Work(|prefix|, tested + [t]) == Work(|prefix|, tested) + ProbeCost(|prefix|, t)
  {
    assert (tested + [t])[..|tested|] == tested;
  }

  lemma {:induction false} RejectedDoesNotFit(
    budget: InputBudget, prefix: seq<byte>, remaining: seq<byte>, window: nat, tested: seq<nat>, t: nat)
    requires Rejected(budget, prefix, remaining, window, tested) && t in tested
    ensures 0 < t <= |remaining| && !Fits(budget, prefix, remaining, t)
    ensures budget.Count(prefix + remaining[..t]).Some?
  {
    if t != tested[|tested| - 1] {
      RejectedDoesNotFit(budget, prefix, remaining, window, tested[..|tested| - 1], t);
    }
  }

  /** Halving from an end: each time the last boundary at or before half, at least one character. */
  function HalvingFrom(remaining: seq<byte>, end: nat, first: nat): (order: seq<nat>)
    requires 0 < first
    ensures order != [] && order[0] == end
    decreases end
  {
    if end <= first then [end]
    else [end] + HalvingFrom(remaining, Max(Floor(remaining, end / 2), first), first)
  }

  /** The aligned prefixes of at most `t` bytes that halving left out, shortest first. */
  function OthersUpTo(remaining: seq<byte>, t: nat, halved: seq<nat>): seq<nat> {
    if t == 0 then []
    else OthersUpTo(remaining, t - 1, halved) + if IsBoundary(remaining, t) && t !in halved then [t] else []
  }

  function Halvings(remaining: seq<byte>, window: nat): seq<nat> {
    if remaining == [] || LeadWidth(remaining[0]) == 0 then []
    else HalvingFrom(remaining, window, LeadWidth(remaining[0]))
  }

  /** Every aligned prefix of the window, in the order the search may probe them. */
  function ProbeOrder(remaining: seq<byte>, window: nat): seq<nat> {
    Halvings(remaining, window) + OthersUpTo(remaining, window, Halvings(remaining, window))
  }

  lemma {:induction false} OthersSkip(remaining: seq<byte>, from: nat, to: nat, halved: seq<nat>)
    requires from <= to && forall t | from < t <= to :: !IsBoundary(remaining, t)
    ensures OthersUpTo(remaining, to, halved) == OthersUpTo(remaining, from, halved)
  {
    if from < to {
      OthersSkip(remaining, from, to - 1, halved);
    }
  }

  lemma {:induction false} OthersGrow(remaining: seq<byte>, from: nat, to: nat, halved: seq<nat>)
    requires from <= to
    ensures OthersUpTo(remaining, from, halved) <= OthersUpTo(remaining, to, halved)
  {
    if from < to {
      OthersGrow(remaining, from, to - 1, halved);
    }
  }

  /** Why a search gave up early: its next probe is not paid for, or paid for and cannot be counted. */
  ghost predicate Stopped(
    budget: InputBudget, prefix: seq<byte>, remaining: seq<byte>,
    order: seq<nat>, tested: seq<nat>, left: nat, error: SplitError)
  {
    |tested| < |order| &&
    var next := order[|tested|];
    match error
    case WorkExhausted => left < ProbeCost(|prefix|, next)
    case TokenizerFailed =>
      && ProbeCost(|prefix|, next) <= left
      && next <= |remaining| && budget.Count(prefix + remaining[..next]).None?
    case _ => false
  }

  /** Between two halvings: everything probed was longer and did not fit. */
  ghost predicate Halving(
    budget: InputBudget, prefix: seq<byte>, remaining: seq<byte>, window: nat, work: nat,
    tested: seq<nat>, left: nat, end: nat)
  {
    && remaining != [] && 0 < LeadWidth(remaining[0]) <= end <= window <= |remaining|
    && IsBoundary(remaining, end)
    && Rejected(budget, prefix, remaining, window, tested)
    && (forall i | 0 <= i < |tested| :: end < tested[i])
    && |tested| + (if end == LeadWidth(remaining[0]) then 1 else Bits(end)) <= 21
    && left + Work(|prefix|, tested) == work
    && Halvings(remaining, window) == tested + HalvingFrom(remaining, end, LeadWidth(remaining[0]))
  }

  lemma HalvingStarts(budget: InputBudget, prefix: seq<byte>, remaining: Str, window: nat, work: nat)
    requires 0 < window <= |remaining| && IsBoundary(remaining, window) && window <= MAX_INPUT_BYTES
    ensures Halving(budget, prefix, remaining, window, work, [], work, window)
  {
    FirstCharacter(remaining);
    WindowBits(window);
    NothingProbed(budget, prefix, remaining, window);
  }

  lemma HalvingCandidate(
    budget: InputBudget, prefix: seq<byte>, remaining: seq<byte>, window: nat, work: nat,
    tested: seq<nat>, left: nat, end: nat)
    requires Halving(budget, prefix, remaining, window, work, tested, left, end)
    ensures Rejected(budget, prefix, remaining, window, tested) && Candidate(remaining, window, tested, end)
    ensures 0 < LeadWidth(remaining[0]) <= end && |tested| <= 20
    ensures left + Work(|prefix|, tested) == work
    ensures Halvings(remaining, window) == tested + HalvingFrom(remaining, end, LeadWidth(remaining[0]))
  {
    hide Rejected, Work, HalvingFrom;
  }

  /** A rejected end that is not the first character is followed by the boundary at or before its half. */
  lemma HalvingContinues(
    budget: InputBudget, prefix: seq<byte>, remaining: Str, window: nat, work: nat,
    tested: seq<nat>, left: nat, end: nat, left': nat)
    requires Halving(budget, prefix, remaining, window, work, tested, left, end)
    requires Rejected(budget, prefix, remaining, window, tested + [end])
    requires left' + Work(|prefix|, tested + [end]) == work && end != LeadWidth(remaining[0])
    ensures var next := Max(Floor(remaining, end / 2), LeadWidth(remaining[0]));
            next < end && Halving(budget, prefix, remaining, window, work, tested + [end], left', next)
  {
    hide Rejected, Work, WellFormed, Floor;
    var first := LeadWidth(remaining[0]);
    FirstCharacter(remaining);
    BitsMonotone(Floor(remaining, end / 2), end / 2);
    HalvingStep(remaining, end, first, tested);
  }

  /** Probes the window, then half of it, and so on down to the first character. */
  method HalvingSearch(budget: InputBudget, prefix: Str, remaining: Str, window: nat, workLeft: nat)
    returns (r: Result<Option<nat>, SplitError>, tested: seq<nat>, left: nat)
    requires 0 < window <= |remaining| && IsBoundary(remaining, window)
    requires |prefix| + window <= MAX_INPUT_BYTES
    ensures Ended(budget, prefix, remaining, window, Halvings(remaining, window), tested, left, r)
    ensures |tested| <= 21
    ensures left + Work(|prefix|, tested) == workLeft
    ensures r == Success(None) ==>
              tested == Halvings(remaining, window) && LeadWidth(remaining[0]) in tested
  {
    hide Rejected, Work, WellFormed, HalvingFrom, Halvings, Floor, Halving, Candidate, IsBoundary, Ended;
    var end: nat := window;
    tested, left := [], workLeft;
    HalvingStarts(budget, prefix, remaining, window, workLeft);
    while true
      invariant Halving(budget, prefix, remaining, window, workLeft, tested, left, end)
      decreases end
    {
      ghost var before, leftBefore := tested, left;
      HalvingCandidate(budget, prefix, remaining, window, workLeft, tested, left, end);
      var first := LeadWidth(remaining[0]);
      r, tested, left := ProbeOne(
        budget, prefix, remaining, window, tested, end, left,
        Halvings(remaining, window), HalvingFrom(remaining, end, first));
      if r != Success(None) {
        break;
      }
      EndedRejected(budget, prefix, remaining, window, Halvings(remaining, window), tested, left);
      if end == first {
        HalvingStep(remaining, end, first, before);
        assert tested[|tested| - 1] == first;
        break;
      }
      HalvingContinues(budget, prefix, remaining, window, workLeft, before, leftBefore, end, left);
      end := AlignDown(remaining, end / 2);
      end := Max(end, first);
    }
  }

  lemma EndedRejected(
    budget: InputBudget, prefix: seq<byte>, remaining: seq<byte>, window: nat,
    order: seq<nat>, tested: seq<nat>, left: nat)
    requires Ended(budget, prefix, remaining, window, order, tested, left, Success(None))
    ensures Rejected(budget, prefix, remaining, window, tested)
  {
  }

  lemma WindowBits(window: nat)
    requires window <= MAX_INPUT_BYTES
    ensures Bits(window) <= 21
  {
    MebiIsPower();
    BitsOfPower(window, 20, 0x10_0000);
  }

  lemma OutOfWork(
    budget: InputBudget, prefix: seq<byte>, remaining: seq<byte>, tested: seq<nat>, next: seq<nat>, left: nat)
    requires next != [] && left < ProbeCost(|prefix|, next[0])
    ensures Stopped(budget, prefix, remaining, tested + next, tested, left, WorkExhausted)
  {
  }

  lemma CannotCount(
    budget: InputBudget, prefix: seq<byte>, remaining: seq<byte>, tested: seq<nat>, next: seq<nat>, left: nat)
    requires next != [] && next[0] <= |remaining| && ProbeCost(|prefix|, next[0]) <= left
    requires budget.Count(prefix + remaining[..next[0]]).None?
    ensures Stopped(budget, prefix, remaining, tested + next, tested, left, TokenizerFailed)
  {
  }

  /** How a search through `order` ended, after the probes in `tested`. */
  ghost predicate Ended(
    budget: InputBudget, prefix: seq<byte>, remaining: seq<byte>, window: nat,
    order: seq<nat>, tested: seq<nat>, left: nat, r: Result<Option<nat>, SplitError>)
  {
    && Probed(budget, prefix, remaining, window, tested, if r.Success? then r.value else None)
    && tested <= order
    && (r.Failure? ==> Stopped(budget, prefix, remaining, order, tested, left, r.error))
  }

  lemma NothingProbed(budget: InputBudget, prefix: seq<byte>, remaining: seq<byte>, window: nat)
    ensures Rejected(budget, prefix, remaining, window, []) && Work(|prefix|, []) == 0
  {
  }

  /**
   One candidate of a search: `rest` is what the order still holds, this candidate first.
   A search that fails reports the work left before the probe that ended it.
   */
  method ProbeOne(
    budget: InputBudget, prefix: Str, remaining: Str, window: nat, tested: seq<nat>, t: nat, workLeft: nat,
    ghost order: seq<nat>, ghost rest: seq<nat>)
    returns (r: Result<Option<nat>, SplitError>, longer: seq<nat>, left: nat)
    requires Rejected(budget, prefix, remaining, window, tested) && Candidate(remaining, window, tested, t)
    requires |prefix| + window <= MAX_INPUT_BYTES && order == tested + rest && rest != [] && rest[0] == t
    ensures left + Work(|prefix|, longer) == workLeft + Work(|prefix|, tested)
    ensures longer == if r.Success? then tested + [t] else tested
    ensures Ended(budget, prefix, remaining, window, order, longer, left, r)
    ensures r.Success? && r.value.Some? ==> r.value.value == t
  {
    hide Rejected, Work, WellFormed, Stopped;
    var probe;
    probe, left := DocumentProbe(budget, prefix, remaining[..t], workLeft);
    if probe.Failure? {
      if probe.error.WorkExhausted? {
        OutOfWork(budget, prefix, remaining, tested, rest, workLeft);
      } else {
        CannotCount(budget, prefix, remaining, tested, rest, workLeft);
      }
      return Failure(probe.error), tested, workLeft;
    }
    ProbedMore(budget, prefix, remaining, window, tested, t);
    longer := tested + [t];
    r := Success(if probe.value then Some(t) else None);
  }

  lemma HalvingStep(remaining: seq<byte>, end: nat, first: nat, tested: seq<nat>)
    requires 0 < first <= end
    ensures tested + HalvingFrom(remaining, end, first) ==
            tested + [end] +
            if end == first then [] else HalvingFrom(remaining, Max(Floor(remaining, end / 2), first), first)
  {
  }

  /** Tries the aligned prefixes left over, shortest first, up to the probe limit. */
  method FallbackSearch(
    budget: InputBudget, prefix: Str, remaining: Str, window: nat, halved: seq<nat>, workLeft: nat)
    returns (r: Result<Option<nat>, SplitError>, tested: seq<nat>, left: nat)
    requires 0 < window <= |remaining| && IsBoundary(remaining, window)
    requires |prefix| + window <= MAX_INPUT_BYTES
    requires Rejected(budget, prefix, remaining, window, halved) && |halved| <= MAX_DOCUMENT_SPLIT_PROBES
    ensures Ended(budget, prefix, remaining, window, halved + OthersUpTo(remaining, window, halved), tested, left, r)
    ensures halved <= tested && |tested| <= MAX_DOCUMENT_SPLIT_PROBES
    ensures r.Failure? ==> |tested| < MAX_DOCUMENT_SPLIT_PROBES
    ensures left + Work(|prefix|, tested) == workLeft + Work(|prefix|, halved)
    ensures r == Success(None) && |tested| < MAX_DOCUMENT_SPLIT_PROBES ==>
              tested == halved + OthersUpTo(remaining, window, halved)
  {
    hide Rejected, Work, WellFormed, Stopped, OthersUpTo;
    ghost var order := halved + OthersUpTo(remaining, window, halved);
    var offset: nat := 0;
    tested, left, r := halved, workLeft, Success(None);
    NoOthers(remaining, window, halved);
    while offset < window
      invariant offset <= window && IsBoundary(remaining, offset) && r == Success(None)
      invariant Rejected(budget, prefix, remaining, window, tested)
      invariant |tested| <= MAX_DOCUMENT_SPLIT_PROBES
      invariant left + Work(|prefix|, tested) == workLeft + Work(|prefix|, halved)
      invariant tested == halved + OthersUpTo(remaining, offset, halved) <= order
    {
      NextBoundary(remaining, offset);
      var candidate := offset + LeadWidth(remaining[offset]);
      OthersStep(remaining, offset, candidate, window, halved);
      offset := candidate;
      if candidate in tested {
        continue;
      }
      if |tested| == MAX_DOCUMENT_SPLIT_PROBES {
        break;
      }
      r, tested, left := ProbeOne(
        budget, prefix, remaining, window, tested, candidate, left, order, order[|tested|..]);
      if r != Success(None) {
        break;
      }
    }
  }

  lemma NoOthers(remaining: seq<byte>, window: nat, halved: seq<nat>)
    ensures OthersUpTo(remaining, 0, halved) == []
    ensures halved + OthersUpTo(remaining, 0, halved) <= halved + OthersUpTo(remaining, window, halved)
  {
  }

  lemma OthersMore(remaining: seq<byte>, t: nat, halved: seq<nat>)
    requires 0 < t && IsBoundary(remaining, t)
    ensures OthersUpTo(remaining, t, halved) ==
            OthersUpTo(remaining, t - 1, halved) + if t in halved then [] else [t]
  {
  }

  /** From one boundary to the next, at most one candidate is added. */
  lemma OthersStep(remaining: seq<byte>, offset: nat, candidate: nat, window: nat, halved: seq<nat>)
    requires offset < candidate <= window && IsBoundary(remaining, candidate)
    requires forall t | offset < t < candidate :: !IsBoundary(remaining, t)
    ensures OthersUpTo(remaining, candidate, halved) ==
            OthersUpTo(remaining, offset, halved) + if candidate in halved then [] else [candidate]
    ensures OthersUpTo(remaining, candidate, halved) <= OthersUpTo(remaining, window, halved)
    ensures candidate !in OthersUpTo(remaining, offset, halved)
  {
    hide OthersUpTo;
    OthersSkip(remaining, offset, candidate - 1, halved);
    OthersMore(remaining, candidate, halved);
    OthersGrow(remaining, candidate, window, halved);
    OthersAreBelow(remaining, offset, halved);
  }

  lemma {:induction false} OthersAreBelow(remaining: seq<byte>, n: nat, halved: seq<nat>)
    ensures forall t | t in OthersUpTo(remaining, n, halved) :: t <= n
  {
    if 0 < n {
      OthersAreBelow(remaining, n - 1, halved);
    }
  }

  // ------------------------------------------------------ the whole splitting

  /** One piece's search: where it started, how far it looked, what it probed and took. */
  datatype Attempt = Attempt(start: nat, window: nat, tested: seq<nat>, fit: Option<nat>)

  /** Room for the body beside the heading under a tokenizer. */
  function TokenCapacity(prefix: seq<byte>): int {
    MAX_INPUT_BYTES - |prefix|
  }

  /** The scale carried from the piece taken last: twice its size, at least 4 bytes. */
  function CarriedWindow(log: seq<Attempt>, capacity: int): int {
    if log == [] || log[|log| - 1].fit.None? then capacity
    else Min(Max(SaturatingMul(log[|log| - 1].fit.value, 2), 4), capacity)
  }

  /** `a` searches the aligned window that starts where `log` ends, within the probe limit. */
  ghost predicate Searches(budget: InputBudget, prefix: seq<byte>, body: seq<byte>, log: seq<Attempt>, a: Attempt) {
    var window := CarriedWindow(log, TokenCapacity(prefix));
    && a.start < |body| && IsBoundary(body, a.start)
    && 0 < window
    && 0 < a.window == Floor(body[a.start..], Min(|body| - a.start, window))
    && Probed(budget, prefix, body[a.start..], a.window, a.tested, a.fit)
    && a.tested <= ProbeOrder(body[a.start..], a.window)
    && |a.tested| <= 128
  }

  /** A run of successful searches, each starting where the one before ended. */
  ghost predicate SearchLog(
    budget: InputBudget, prefix: seq<byte>, body: seq<byte>, log: seq<Attempt>, upTo: nat)
  {
    if log == [] then upTo == 0
    else
      var front, a := log[..|log| - 1], log[|log| - 1];
      && a.fit.Some? && upTo == a.start + a.fit.value
      && Searches(budget, prefix, body, front, a)
      && SearchLog(budget, prefix, body, front, a.start)
  }

  /** Where the last successful search ended. */
  function LogEnd(log: seq<Attempt>): nat {
    if log == [] || log[|log| - 1].fit.None? then 0 else log[|log| - 1].start + log[|log| - 1].fit.value
  }

  function TotalWork(heading: nat, log: seq<Attempt>): nat {
    if log == [] then 0 else TotalWork(heading, log[..|log| - 1]) + Work(heading, log[|log| - 1].tested)
  }

  function AttemptWork(heading: nat, a: Option<Attempt>): nat {
    if a.None? then 0 else Work(heading, a.value.tested)
  }

  /** The ranges the searches took. */
  function Taken(log: seq<Attempt>): seq<Range> {
    if log == [] then []
    else
      var a := log[|log| - 1];
      Taken(log[..|log| - 1]) + [Range(a.start, a.start + if a.fit.Some? then a.fit.value else 0)]
  }

  ghost predicate AllAccepted(budget: InputBudget, prefix: seq<byte>, body: seq<byte>, rs: seq<Range>) {
    forall k | 0 <= k < |rs| ::
      rs[k].start <= rs[k].end <= |body| && budget.Accepts(prefix + body[rs[k].start..rs[k].end])
  }

  /** A found piece ends on a boundary and is accepted beside the heading. */
  lemma FoundPiece(
    budget: InputBudget, prefix: seq<byte>, body: seq<byte>, start: nat, window: nat, tested: seq<nat>, t: nat)
    requires WellFormed(body) && start <= |body| && IsBoundary(body, start)
    requires Probed(budget, prefix, body[start..], window, tested, Some(t))
    ensures 0 < t <= |body| - start && IsBoundary(body, start + t)
    ensures budget.Accepts(prefix + body[start..start + t])
    ensures |prefix| + t <= Work(|prefix|, tested)
  {
    SliceBoundary(body, start, |body|, t);
    assert body[start..|body|] == body[start..];
    assert body[start..][..t] == body[start..start + t];
  }

  lemma SearchIsProbed(budget: InputBudget, prefix: seq<byte>, body: seq<byte>, log: seq<Attempt>, a: Attempt)
    requires Searches(budget, prefix, body, log, a)
    ensures a.start < |body| && IsBoundary(body, a.start)
    ensures Probed(budget, prefix, body[a.start..], a.window, a.tested, a.fit)
  {
    hide Probed, ProbeOrder, Floor, CarriedWindow, TokenCapacity, IsBoundary;
  }

  lemma SearchFound(budget: InputBudget, prefix: seq<byte>, body: seq<byte>, log: seq<Attempt>, a: Attempt)
    requires WellFormed(body) && Searches(budget, prefix, body, log, a) && a.fit.Some?
    ensures 0 < a.fit.value <= |body| - a.start && IsBoundary(body, a.start + a.fit.value)
    ensures budget.Accepts(prefix + body[a.start..a.start + a.fit.value])
    ensures |prefix| + a.fit.value <= Work(|prefix|, a.tested)
  {
    hide *;
    SearchIsProbed(budget, prefix, body, log, a);
    FoundPiece(budget, prefix, body, a.start, a.window, a.tested, a.fit.value);
  }

  lemma NothingLogged(budget: InputBudget, prefix: seq<byte>, body: seq<byte>, upTo: nat)
    requires SearchLog(budget, prefix, body, [], upTo)
    ensures upTo == 0 && IsBoundary(body, 0) && Cuts(body, Taken([]), 0) && Taken([]) == []
  {
  }

  /** The last search of a log, and the log before it. */
  lemma LogFront(budget: InputBudget, prefix: seq<byte>, body: seq<byte>, log: seq<Attempt>, upTo: nat)
    requires SearchLog(budget, prefix, body, log, upTo) && log != []
    ensures var front, a := log[..|log| - 1], log[|log| - 1];
            && log == front + [a]
            && a.fit.Some? && upTo == a.start + a.fit.value
            && Searches(budget, prefix, body, front, a)
            && SearchLog(budget, prefix, body, front, a.start)
  {
    hide Searches;
  }

  lemma LogMore(
    budget: InputBudget, prefix: seq<byte>, body: seq<byte>, log: seq<Attempt>, upTo: nat, a: Attempt)
    requires SearchLog(budget, prefix, body, log, upTo) && a.start == upTo
    requires Searches(budget, prefix, body, log, a) && a.fit.Some?
    ensures SearchLog(budget, prefix, body, log + [a], upTo + a.fit.value)
  {
    assert (log + [a])[..|log|] == log;
  }

  lemma TakenMore(log: seq<Attempt>, a: Attempt)
    requires a.fit.Some?
    ensures Taken(log + [a]) == Taken(log) + [Range(a.start, a.start + a.fit.value)]
  {
    assert (log + [a])[..|log|] == log;
  }

  lemma TotalWorkMore(heading: nat, log: seq<Attempt>, a: Attempt)
    ensures TotalWork(heading, log + [a]) == TotalWork(heading, log) + Work(heading, a.tested)
  {
    assert (log + [a])[..|log|] == log;
  }

  /** Searches that follow one another cut the text into aligned, accepted pieces. */
  lemma {:induction false} LogCuts(
    budget: InputBudget, prefix: seq<byte>, body: seq<byte>, log: seq<Attempt>, upTo: nat)
    requires WellFormed(body) && SearchLog(budget, prefix, body, log, upTo)
    ensures upTo <= |body| && IsBoundary(body, upTo)
    ensures Cuts(body, Taken(log), upTo) && |Taken(log)| == |log|
  {
    hide SearchLog, Searches, WellFormed, IsBoundary;
    if log == [] {
      NothingLogged(budget, prefix, body, upTo);
    } else {
      var front, a := log[..|log| - 1], log[|log| - 1];
      LogFront(budget, prefix, body, log, upTo);
      LogCuts(budget, prefix, body, front, a.start);
      SearchFound(budget, prefix, body, front, a);
      CutsExtend(body, Taken(front), a.start, upTo);
    }
  }

  lemma FoundIsAccepted(
    budget: InputBudget, prefix: seq<byte>, body: seq<byte>, front: seq<Attempt>, a: Attempt)
    requires WellFormed(body) && AllAccepted(budget, prefix, body, Taken(front))
    requires Searches(budget, prefix, body, front, a) && a.fit.Some?
    ensures AllAccepted(budget, prefix, body, Taken(front + [a]))
  {
    hide AllAccepted, Searches, Taken, Work, IsBoundary;
    SearchFound(budget, prefix, body, front, a);
    TakenMore(front, a);
    AcceptedMore(budget, prefix, body, Taken(front), Range(a.start, a.start + a.fit.value));
  }

  lemma {:induction false} LogAccepted(
    budget: InputBudget, prefix: seq<byte>, body: seq<byte>, log: seq<Attempt>, upTo: nat)
    requires WellFormed(body) && SearchLog(budget, prefix, body, log, upTo)
    ensures AllAccepted(budget, prefix, body, Taken(log))
  {
    if log != [] {
      var front, a := log[..|log| - 1], log[|log| - 1];
      LogFront(budget, prefix, body, log, upTo);
      hide *;
      LogAccepted(budget, prefix, body, front, a.start);
      FoundIsAccepted(budget, prefix, body, front, a);
    }
  }

  /** Each output piece, heading included, was paid for by the probe that accepted it. */
  lemma {:induction false} LogPaysForOutput(
    budget: InputBudget, prefix: seq<byte>, body: seq<byte>, log: seq<Attempt>, upTo: nat)
    requires WellFormed(body) && SearchLog(budget, prefix, body, log, upTo)
    ensures OutputBytes(|log|, |prefix|, upTo) <= TotalWork(|prefix|, log)
  {
    if log != [] {
      var front, a := log[..|log| - 1], log[|log| - 1];
      LogFront(budget, prefix, body, log, upTo);
      hide SearchLog, Searches, WellFormed, IsBoundary;
      LogPaysForOutput(budget, prefix, body, front, a.start);
      SearchFound(budget, prefix, body, front, a);
      OneMorePiece(|front|, |prefix|, a.start, upTo);
    }
  }

  lemma AcceptedMore(budget: InputBudget, prefix: seq<byte>, body: seq<byte>, rs: seq<Range>, r: Range)
    requires AllAccepted(budget, prefix, body, rs)
    requires r.start <= r.end <= |body| && budget.Accepts(prefix + body[r.start..r.end])
    ensures AllAccepted(budget, prefix, body, rs + [r])
  {
  }

  /** The carried window never shrinks below the widest character that could still fit. */
  lemma WindowHoldsACharacter(
    budget: InputBudget, prefix: seq<byte>, body: seq<byte>, log: seq<Attempt>, upTo: nat)
    requires SearchLog(budget, prefix, body, log, upTo) && 0 < TokenCapacity(prefix)
    ensures Min(4, TokenCapacity(prefix)) <= CarriedWindow(log, TokenCapacity(prefix)) <= TokenCapacity(prefix)
  {
  }

  /** An empty window means a character wider than everything left beside the heading. */
  lemma EmptyWindow(remaining: seq<byte>, window: nat, capacity: nat)
    requires WellFormed(remaining) && remaining != [] && Min(4, capacity) <= window <= capacity
    ensures Floor(remaining, Min(|remaining|, window)) == 0 <==> capacity < LeadWidth(remaining[0])
  {
    FirstCharacter(remaining);
    var first := LeadWidth(remaining[0]);
    if first <= window {
      FloorIsLast(remaining, Min(|remaining|, window), first);
    }
  }

  /** What an exhausted search has established about its window. */
  ghost predicate NothingFound(budget: InputBudget, prefix: seq<byte>, remaining: seq<byte>, a: Attempt)
    requires a.window <= |remaining|
  {
    && a.fit.None?
    && (|a.tested| == 128 || a.tested == ProbeOrder(remaining, a.window))
    && (|a.tested| == 128 ||
        forall t | 0 < t <= a.window && IsBoundary(remaining, t) :: !Fits(budget, prefix, remaining, t))
    && remaining != []
    && 0 < LeadWidth(remaining[0]) <= |remaining|
    && !Fits(budget, prefix, remaining, LeadWidth(remaining[0]))
  }

  /** The order holds every aligned prefix of the window. */
  lemma {:induction false} OthersAreAll(remaining: seq<byte>, n: nat, halved: seq<nat>, t: nat)
    requires 0 < t <= n && IsBoundary(remaining, t)
    ensures t in halved + OthersUpTo(remaining, n, halved)
  {
    if t < n {
      OthersAreAll(remaining, n - 1, halved, t);
    }
  }

  lemma NothingLeft(budget: InputBudget, prefix: seq<byte>, remaining: seq<byte>, a: Attempt)
    requires remaining != [] && a.window <= |remaining| && a.fit.None?
    requires Rejected(budget, prefix, remaining, a.window, a.tested)
    requires LeadWidth(remaining[0]) in a.tested
    requires |a.tested| < MAX_DOCUMENT_SPLIT_PROBES ==> a.tested == ProbeOrder(remaining, a.window)
    requires |a.tested| <= MAX_DOCUMENT_SPLIT_PROBES
    ensures NothingFound(budget, prefix, remaining, a)
  {
    forall t | t in a.tested
      ensures 0 < t <= |remaining| && !Fits(budget, prefix, remaining, t)
    {
      RejectedDoesNotFit(budget, prefix, remaining, a.window, a.tested, t);
    }
    if |a.tested| < MAX_DOCUMENT_SPLIT_PROBES {
      forall t | 0 < t <= a.window && IsBoundary(remaining, t)
        ensures !Fits(budget, prefix, remaining, t)
      {
        OthersAreAll(remaining, a.window, Halvings(remaining, a.window), t);
      }
    }
  }

  /** Both searches for one piece. */
  method FindPiece(budget: InputBudget, prefix: Str, remaining: Str, window: nat, workLeft: nat)
    returns (r: Result<Option<nat>, SplitError>, tested: seq<nat>, left: nat)
    requires 0 < window <= |remaining| && IsBoundary(remaining, window)
    requires |prefix| + window <= MAX_INPUT_BYTES
    ensures Probed(budget, prefix, remaining, window, tested, if r.Success? then r.value else None)
    ensures |tested| <= MAX_DOCUMENT_SPLIT_PROBES
    ensures left + Work(|prefix|, tested) == workLeft
    ensures r == Success(None) ==> NothingFound(budget, prefix, remaining, Attempt(0, window, tested, None))
    ensures tested <= ProbeOrder(remaining, window)
    ensures r.Failure? ==>
              && |tested| < MAX_DOCUMENT_SPLIT_PROBES
              && Stopped(budget, prefix, remaining, ProbeOrder(remaining, window), tested, left, r.error)
  {
    hide Rejected, Halvings, OthersUpTo, Work, WellFormed, NothingFound;
    r, tested, left := HalvingSearch(budget, prefix, remaining, window, workLeft);
    if r == Success(None) {
      r, tested, left := FallbackSearch(budget, prefix, remaining, window, tested, left);
      if r == Success(None) {
        NothingLeft(budget, prefix, remaining, Attempt(0, window, tested, None));
      }
    }
  }

  /** What the recorded searches say about how the tokenizer path ended. */
  ghost predicate Recorded(
    budget: InputBudget, prefix: seq<byte>, body: seq<byte>,
    r: Result<seq<Range>, SplitError>, log: seq<Attempt>, stuck: Option<Attempt>)
  {
    && SearchLog(budget, prefix, body, log, LogEnd(log))
    && (stuck.Some? ==>
          && stuck.value.start == LogEnd(log) && stuck.value.fit.None?
          && Searches(budget, prefix, body, log, stuck.value))
    && TotalWork(|prefix|, log) + AttemptWork(|prefix|, stuck) <= Allowance(|prefix|, |body|)
    && (r.Success? ==> stuck.None? && r.value == Taken(log))
  }

  /** The search in progress could not pay for its next probe, or could not count its last one. */
  ghost predicate Interrupted(
    budget: InputBudget, prefix: seq<byte>, body: seq<byte>, error: SplitError,
    log: seq<Attempt>, stuck: Option<Attempt>)
  {
    && |log| < MAX_DOCUMENT_SPLIT_PARTS
    && stuck.Some? && stuck.value.start <= |body| && |stuck.value.tested| < MAX_DOCUMENT_SPLIT_PROBES
    && var a := stuck.value;
       var left := Allowance(|prefix|, |body|) - TotalWork(|prefix|, log) - Work(|prefix|, a.tested);
       0 <= left &&
       Stopped(budget, prefix, body[a.start..], ProbeOrder(body[a.start..], a.window), a.tested, left, error)
  }

  /** The search behind an error: what it says is true of the text. */
  ghost predicate HonestFailure(
    budget: InputBudget, prefix: seq<byte>, body: seq<byte>, error: SplitError,
    log: seq<Attempt>, stuck: Option<Attempt>)
  {
    match error
    case TooManyParts =>
      |log| == 65536 && LogEnd(log) < |body| && stuck.None?
    case CharacterTooWide(at) =>
      && |log| < MAX_DOCUMENT_SPLIT_PARTS && stuck.None?
      && at == LogEnd(log) < |body| && IsBoundary(body, at) && TokenCapacity(prefix) < LeadWidth(body[at])
    case NoSplitFound(at) =>
      && |log| < MAX_DOCUMENT_SPLIT_PARTS && stuck.Some? && at == stuck.value.start < |body|
      && stuck.value.window <= |body| - at
      && NothingFound(budget, prefix, body[at..], stuck.value)
    case WorkExhausted => Interrupted(budget, prefix, body, error, log, stuck)
    case TokenizerFailed => Interrupted(budget, prefix, body, error, log, stuck)
    case _ => false
  }

  lemma PartLimitIsHonest(budget: InputBudget, prefix: seq<byte>, body: seq<byte>, log: seq<Attempt>)
    requires |log| == MAX_DOCUMENT_SPLIT_PARTS && LogEnd(log) < |body|
    ensures HonestFailure(budget, prefix, body, TooManyParts, log, None)
  {
  }

  lemma StoppedIsHonest(
    budget: InputBudget, prefix: seq<byte>, body: seq<byte>, log: seq<Attempt>, a: Attempt,
    error: SplitError, left: nat)
    requires |log| < MAX_DOCUMENT_SPLIT_PARTS && a.start < |body| && |a.tested| < MAX_DOCUMENT_SPLIT_PROBES
    requires TotalWork(|prefix|, log) + Work(|prefix|, a.tested) + left == Allowance(|prefix|, |body|)
    requires Stopped(budget, prefix, body[a.start..], ProbeOrder(body[a.start..], a.window), a.tested, left, error)
    ensures HonestFailure(budget, prefix, body, error, log, Some(a)) && !error.TooManyParts?
  {
    hide TotalWork, Work, Allowance, ProbeOrder;
  }

  lemma NothingFoundFrom(
    budget: InputBudget, prefix: seq<byte>, remaining: seq<byte>, start: nat, window: nat, tested: seq<nat>)
    requires window <= |remaining| && NothingFound(budget, prefix, remaining, Attempt(0, window, tested, None))
    ensures NothingFound(budget, prefix, remaining, Attempt(start, window, tested, None))
  {
    hide ProbeOrder;
  }

  /** What one more successful search adds to the record. */
  lemma RecordMore(
    budget: InputBudget, prefix: seq<byte>, body: seq<byte>, log: seq<Attempt>, start: nat, a: Attempt)
    requires SearchLog(budget, prefix, body, log, start) && a.start == start && a.fit.Some?
    requires Searches(budget, prefix, body, log, a)
    ensures SearchLog(budget, prefix, body, log + [a], start + a.fit.value)
    ensures Taken(log + [a]) == Taken(log) + [Range(start, start + a.fit.value)]
    ensures TotalWork(|prefix|, log + [a]) == TotalWork(|prefix|, log) + Work(|prefix|, a.tested)
  {
    hide *;
    LogMore(budget, prefix, body, log, start, a);
    TakenMore(log, a);
    TotalWorkMore(|prefix|, log, a);
  }

  /** Searches an aligned window; what it found, or why it found nothing. */
  method SearchWindow(
    budget: InputBudget, prefix: Str, body: Str, ghost log: seq<Attempt>, start: nat, searchEnd: nat, workLeft: nat)
    returns (r: Result<nat, SplitError>, left: nat, ghost tried: Attempt)
    requires start < |body| && IsBoundary(body, start) && |log| < MAX_DOCUMENT_SPLIT_PARTS
    requires 0 < searchEnd <= |body| - start && IsBoundary(body[start..], searchEnd)
    requires |prefix| + searchEnd <= MAX_INPUT_BYTES
    requires TotalWork(|prefix|, log) + workLeft == Allowance(|prefix|, |body|)
    ensures left + Work(|prefix|, tried.tested) == workLeft
    ensures tried.start == start && tried.window == searchEnd && |tried.tested| <= MAX_DOCUMENT_SPLIT_PROBES
    ensures Probed(budget, prefix, body[start..], searchEnd, tried.tested, tried.fit)
    ensures tried.tested <= ProbeOrder(body[start..], searchEnd)
    ensures tried.fit == if r.Success? then Some(r.value) else None
    ensures r.Success? ==> 0 < r.value <= |body| - start && IsBoundary(body, start + r.value)
    ensures r.Failure? ==>
              HonestFailure(budget, prefix, body, r.error, log, Some(tried)) && !r.error.TooManyParts?
  {
    hide Probed, Work, ProbeOrder, TotalWork, Allowance, NothingFound, Stopped, Interrupted, WellFormed;
    SliceWellFormed(body, start, |body|);
    assert body[start..|body|] == body[start..];
    var found, tested;
    found, tested, left := FindPiece(budget, prefix, body[start..], searchEnd, workLeft);
    tried := Attempt(start, searchEnd, tested, if found.Success? then found.value else None);
    if found.Failure? {
      StoppedIsHonest(budget, prefix, body, log, tried, found.error, left);
      return Failure(found.error), left, tried;
    }
    if found.value.None? {
      NothingFoundFrom(budget, prefix, body[start..], start, searchEnd, tested);
      return Failure(NoSplitFound(start)), left, tried;
    }
    FoundPiece(budget, prefix, body, start, searchEnd, tested, found.value.value);
    return Success(found.value.value), left, tried;
  }

  /** Aligns the window that starts at `start` and searches it. */
  method SearchFrom(
    budget: InputBudget, prefix: Str, body: Str, ghost log: seq<Attempt>, start: nat, window: nat, workLeft: nat)
    returns (r: Result<nat, SplitError>, left: nat, ghost tried: Option<Attempt>)
    requires 0 < TokenCapacity(prefix) && window == CarriedWindow(log, TokenCapacity(prefix))
    requires start < |body| && IsBoundary(body, start) && SearchLog(budget, prefix, body, log, start)
    requires TotalWork(|prefix|, log) + workLeft == Allowance(|prefix|, |body|)
    requires start == LogEnd(log) && |log| < MAX_DOCUMENT_SPLIT_PARTS
    ensures left + AttemptWork(|prefix|, tried) == workLeft
    ensures tried.Some? ==> tried.value.start == start && Searches(budget, prefix, body, log, tried.value)
    ensures r.Success? ==>
              && tried.Some? && tried.value.fit == Some(r.value)
              && 0 < r.value <= |body| - start && IsBoundary(body, start + r.value)
    ensures r.Failure? ==>
              && HonestFailure(budget, prefix, body, r.error, log, tried)
              && !r.error.TooManyParts?
              && (tried.Some? ==> tried.value.fit.None?)
  {
    hide SearchLog, Work, Probed, ProbeOrder, TotalWork, Allowance, NothingFound, Interrupted;
    var capacity: nat := MAX_INPUT_BYTES - |prefix|;
    SliceWellFormed(body, start, |body|);
    assert body[start..|body|] == body[start..];
    var remaining: Str := body[start..];
    var searchEnd := AlignDown(remaining, Min(Min(|remaining|, window), capacity));
    WindowHoldsACharacter(budget, prefix, body, log, start);
    EmptyWindow(remaining, window, capacity);
    if searchEnd == 0 {
      return Failure(CharacterTooWide(start)), workLeft, None;
    }
    ghost var search;
    r, left, search := SearchWindow(budget, prefix, body, log, start, searchEnd, workLeft);
    tried := Some(search);
  }

  /** What holds between two pieces: the record accounts for all progress and all work. */
  ghost predicate BetweenPieces(
    budget: InputBudget, prefix: seq<byte>, body: seq<byte>, log: seq<Attempt>,
    ranges: seq<Range>, start: int, window: int, workLeft: nat)
  {
    && 0 <= start <= |body| && IsBoundary(body, start)
    && start == LogEnd(log) && SearchLog(budget, prefix, body, log, start)
    && ranges == Taken(log) && |ranges| == |log| <= MAX_DOCUMENT_SPLIT_PARTS
    && TotalWork(|prefix|, log) + workLeft == Allowance(|prefix|, |body|)
    && window == CarriedWindow(log, TokenCapacity(prefix))
  }

  /** One turn of the loop: take the next piece, or fail for a reason found in the text. */
  method TakePiece(
    budget: InputBudget, prefix: Str, body: Str, ghost log: seq<Attempt>,
    ranges: seq<Range>, start: int, window: int, workLeft: nat)
    returns (r: Result<nat, SplitError>, left: nat, ghost log': seq<Attempt>, ghost stuck: Option<Attempt>)
    requires 0 < TokenCapacity(prefix) && start < |body|
    requires BetweenPieces(budget, prefix, body, log, ranges, start, window, workLeft)
    ensures r.Success? ==>
              && 0 < r.value <= |body| - start
              && BetweenPieces(
                   budget, prefix, body, log', ranges + [Range(start, start + r.value)], start + r.value,
                   Min(Max(SaturatingMul(r.value, 2), 4), TokenCapacity(prefix)), left)
    ensures r.Failure? ==>
              && HonestFailure(budget, prefix, body, r.error, log', stuck)
              && Recorded(budget, prefix, body, Failure(r.error), log', stuck)
  {
    hide Searches, SearchLog, Taken, TotalWork, Work, HonestFailure, Allowance;
    if |ranges| == MAX_DOCUMENT_SPLIT_PARTS {
      PartLimitIsHonest(budget, prefix, body, log);
      return Failure(TooManyParts), workLeft, log, None;
    }
    r, left, stuck := SearchFrom(budget, prefix, body, log, start, window, workLeft);
    log' := log;
    if r.Success? {
      RecordMore(budget, prefix, body, log, start, stuck.value);
      log', stuck := log + [stuck.value], None;
    }
  }

  /** A search that found nothing started at a character not accepted on its own. */
  lemma CharacterRefused(
    budget: InputBudget, prefix: seq<byte>, body: Str, at: nat, log: seq<Attempt>, stuck: Option<Attempt>)
    requires Recorded(budget, prefix, body, Failure(NoSplitFound(at)), log, stuck)
    requires HonestFailure(budget, prefix, body, NoSplitFound(at), log, stuck)
    ensures at < |body| && IsBoundary(body, at) && at + LeadWidth(body[at]) <= |body|
    ensures !budget.Accepts(prefix + body[at..at + LeadWidth(body[at])])
  {
    hide Probed, ProbeOrder, SearchLog, TotalWork, WellFormed, Floor;
    var width := LeadWidth(body[at]);
    assert body[at..][..width] == body[at..at + width];
  }

  /** Where every single character is accepted beside the heading, only a resource limit or the tokenizer fails. */
  lemma SingleCharactersSuffice(
    budget: InputBudget, prefix: seq<byte>, body: Str, error: SplitError, log: seq<Attempt>, stuck: Option<Attempt>)
    requires Recorded(budget, prefix, body, Failure(error), log, stuck)
    requires HonestFailure(budget, prefix, body, error, log, stuck)
    requires forall at | 0 <= at < |body| && IsBoundary(body, at) ::
               at + LeadWidth(body[at]) <= |body| && budget.Accepts(prefix + body[at..at + LeadWidth(body[at])])
    ensures error.TooManyParts? || error.WorkExhausted? || error.TokenizerFailed?
  {
    hide Recorded, SearchLog, WellFormed;
    if error.NoSplitFound? {
      CharacterRefused(budget, prefix, body, error.at, log, stuck);
    }
  }

  // ------------------------------------------------------- one possible outcome

  /** Two searches through one order that found a fit probed and found the same. */
  lemma ProbesAgree(
    budget: InputBudget, prefix: seq<byte>, remaining: seq<byte>, window: nat, order: seq<nat>,
    tested: seq<nat>, t: nat, tested': seq<nat>, t': nat)
    requires Probed(budget, prefix, remaining, window, tested, Some(t)) && tested <= order
    requires Probed(budget, prefix, remaining, window, tested', Some(t')) && tested' <= order
    ensures |tested| <= |tested'|
    ensures |tested| == |tested'| ==> tested == tested' && t == t'
  {
    if |tested'| < |tested| {
      assert t' == tested[..|tested| - 1][|tested'| - 1];
      RejectedDoesNotFit(budget, prefix, remaining, window, tested[..|tested| - 1], t');
    }
  }

  lemma SearchesAgree(
    budget: InputBudget, prefix: seq<byte>, body: seq<byte>, log: seq<Attempt>, a: Attempt, b: Attempt)
    requires Searches(budget, prefix, body, log, a) && Searches(budget, prefix, body, log, b)
    requires a.start == b.start && a.fit.Some? && b.fit.Some?
    ensures a == b
  {
    var remaining, window := body[a.start..], a.window;
    hide Rejected, Probed, ProbeOrder, Floor, IsBoundary;
    var order := ProbeOrder(remaining, window);
    ProbesAgree(budget, prefix, remaining, window, order, a.tested, a.fit.value, b.tested, b.fit.value);
    ProbesAgree(budget, prefix, remaining, window, order, b.tested, b.fit.value, a.tested, a.fit.value);
  }

  /** Of two logs over one body, the shorter is a prefix of the longer. */
  lemma {:induction false} LogsAgree(
    budget: InputBudget, prefix: seq<byte>, body: seq<byte>, log: seq<Attempt>, log': seq<Attempt>)
    requires SearchLog(budget, prefix, body, log, LogEnd(log)) && SearchLog(budget, prefix, body, log', LogEnd(log'))
    requires |log| <= |log'|
    ensures log <= log'
    decreases |log'|
  {
    hide Searches;
    if log' != [] {
      var front' := log'[..|log'| - 1];
      FrontIsLog(budget, prefix, body, log');
      if |log| < |log'| {
        LogsAgree(budget, prefix, body, log, front');
      } else {
        var front := log[..|log| - 1];
        FrontIsLog(budget, prefix, body, log);
        LogsAgree(budget, prefix, body, front, front');
        assert front == front';
        SearchesAgree(budget, prefix, body, front, log[|log| - 1], log'[|log| - 1]);
        assert log == front + [log[|log| - 1]] && log' == front' + [log'[|log| - 1]];
      }
    }
  }

  lemma FrontIsLog(budget: InputBudget, prefix: seq<byte>, body: seq<byte>, log: seq<Attempt>)
    requires log != [] && SearchLog(budget, prefix, body, log, LogEnd(log))
    ensures var front, a := log[..|log| - 1], log[|log| - 1];
            && SearchLog(budget, prefix, body, front, LogEnd(front))
            && a.start == LogEnd(front) < |body| && a.fit.Some? && Searches(budget, prefix, body, front, a)
  {
    hide Probed, ProbeOrder;
  }

  /** Whatever the count function, one body has at most one successful record. */
  lemma OneOutcome(
    budget: InputBudget, prefix: seq<byte>, body: seq<byte>,
    rs: seq<Range>, log: seq<Attempt>, rs': seq<Range>, log': seq<Attempt>)
    requires Recorded(budget, prefix, body, Success(rs), log, None) && LogEnd(log) == |body|
    requires Recorded(budget, prefix, body, Success(rs'), log', None) && LogEnd(log') == |body|
    ensures rs == rs' && log == log'
  {
    hide SearchLog, Taken;
    if |log| <= |log'| {
      LongerEndsToo(budget, prefix, body, log, log');
    } else {
      LongerEndsToo(budget, prefix, body, log', log);
    }
  }

  lemma {:induction false} LongerEndsToo(
    budget: InputBudget, prefix: seq<byte>, body: seq<byte>, log: seq<Attempt>, log': seq<Attempt>)
    requires SearchLog(budget, prefix, body, log, LogEnd(log)) && SearchLog(budget, prefix, body, log', LogEnd(log'))
    requires LogEnd(log) == |body| && |log| <= |log'|
    ensures log == log'
    decreases |log'|
  {
    LogsAgree(budget, prefix, body, log, log');
    if |log| < |log'| {
      FrontIsLog(budget, prefix, body, log');
      LongerEndsToo(budget, prefix, body, log, log'[..|log'| - 1]);
    }
  }

  lemma NothingTakenYet(budget: InputBudget, prefix: seq<byte>, body: seq<byte>, window: nat)
    requires window == TokenCapacity(prefix)
    ensures BetweenPieces(budget, prefix, body, [], [], 0, window, Allowance(|prefix|, |body|))
  {
  }

  lemma AllTaken(
    budget: InputBudget, prefix: seq<byte>, body: seq<byte>, log: seq<Attempt>,
    ranges: seq<Range>, start: int, window: int, workLeft: nat)
    requires BetweenPieces(budget, prefix, body, log, ranges, start, window, workLeft) && |body| <= start
    ensures Recorded(budget, prefix, body, Success(ranges), log, None)
    ensures LogEnd(log) == |body| && |log| <= MAX_DOCUMENT_SPLIT_PARTS
  {
  }

  /** All probes of a record cost at most 64 times heading and body together, or 16384 bytes. */
  lemma WorkIsBounded(
    budget: InputBudget, prefix: Str, body: Str, r: Result<seq<Range>, SplitError>,
    log: seq<Attempt>, stuck: Option<Attempt>)
    requires Recorded(budget, prefix, body, r, log, stuck)
    ensures TotalWork(|prefix|, log) + AttemptWork(|prefix|, stuck) <=
            Max(16384, Min(USIZE_MAX, 64 * (|prefix| + |body|)))
  {
    hide SearchLog, Searches, TotalWork, Work, Allowance, WellFormed;
    AllowanceIs(|prefix|, |body|);
  }

  /** Work runs out only when the next probe would exceed that. */
  lemma WorkRunsOut(
    budget: InputBudget, prefix: Str, body: Str, error: SplitError, log: seq<Attempt>, stuck: Option<Attempt>)
    requires Recorded(budget, prefix, body, Failure(error), log, stuck)
    requires HonestFailure(budget, prefix, body, error, log, stuck)
    ensures error.WorkExhausted? ==>
              && stuck.Some? && stuck.value.start <= |body|
              && var order := ProbeOrder(body[stuck.value.start..], stuck.value.window);
                 && stuck.value.tested < order
                 && Max(16384, Min(USIZE_MAX, 64 * (|prefix| + |body|))) <
                    TotalWork(|prefix|, log) + AttemptWork(|prefix|, stuck) +
                    ProbeCost(|prefix|, order[|stuck.value.tested|])
  {
    hide SearchLog, Probed, TotalWork, Work, Allowance, WellFormed, ProbeOrder, NothingFound, Floor, IsBoundary;
    AllowanceIs(|prefix|, |body|);
  }

  /** A complete record is a partition into accepted pieces whose output is affordable. */
  lemma RecordedIsSplit(budget: InputBudget, prefix: Str, body: Str, rs: seq<Range>, log: seq<Attempt>)
    requires Recorded(budget, prefix, body, Success(rs), log, None)
    requires LogEnd(log) == |body| && |log| <= MAX_DOCUMENT_SPLIT_PARTS
    ensures Partition(body, rs) && AllAccepted(budget, prefix, body, rs)
    ensures DocumentOutputBytes(|prefix|, |body|, |rs|).Success?
  {
    hide SearchLog, Searches, Taken, TotalWork, Work, WellFormed, LogEnd;
    LogCuts(budget, prefix, body, log, |body|);
    LogAccepted(budget, prefix, body, log, |body|);
    LogPaysForOutput(budget, prefix, body, log, |body|);
  }

  /** The token search over a whole body, piece after piece. */
  method TokenRanges(budget: InputBudget, prefix: Str, body: Str)
    returns (r: Result<seq<Range>, SplitError>, ghost log: seq<Attempt>, ghost stuck: Option<Attempt>)
    requires 0 < TokenCapacity(prefix)
    ensures r.Success? ==>
              && Partition(body, r.value)
              && AllAccepted(budget, prefix, body, r.value)
              && DocumentOutputBytes(|prefix|, |body|, |r.value|).Success?
    ensures Recorded(budget, prefix, body, r, log, stuck)
    ensures r.Success? ==> LogEnd(log) == |body| && |log| <= MAX_DOCUMENT_SPLIT_PARTS
    ensures r.Failure? ==> HonestFailure(budget, prefix, body, r.error, log, stuck)
    ensures TotalWork(|prefix|, log) + AttemptWork(|prefix|, stuck) <=
            Max(16384, Min(USIZE_MAX, 64 * (|prefix| + |body|)))
  {
    hide *;
    var ranges, start, window, workLeft: nat := [], 0, TokenCapacity(prefix), Allowance(|prefix|, |body|);
    log, stuck := [], None;
    NothingTakenYet(budget, prefix, body, window);
    while start < |body|
      invariant BetweenPieces(budget, prefix, body, log, ranges, start, window, workLeft)
      decreases |body| - start
    {
      var found;
      found, workLeft, log, stuck := TakePiece(budget, prefix, body, log, ranges, start, window, workLeft);
      if found.Failure? {
        WorkIsBounded(budget, prefix, body, Failure(found.error), log, stuck);
        return Failure(found.error), log, stuck;
      }
      ranges := ranges + [Range(start, start + found.value)];
      start := start + found.value;
      // The next search starts from twice the size that fitted.
      window := Min(Max(SaturatingMul(found.value, 2), 4), TokenCapacity(prefix));
    }
    AllTaken(budget, prefix, body, log, ranges, start, window, workLeft);
    RecordedIsSplit(budget, prefix, body, ranges, log);
    WorkIsBounded(budget, prefix, body, Success(ranges), log, None);
    r, stuck := Success(ranges), None;
  }

  // ------------------------------------------------------- the splitter's answer

  lemma {:induction false} GreedyAgrees(body: seq<byte>, a: seq<Range>, b: seq<Range>, upTo: nat, capacity: nat, k: nat)
    requires Greedy(body, a, upTo, capacity) && Greedy(body, b, upTo, capacity)
    requires k < |a| && k < |b|
    ensures a[k] == b[k]
  {
    if 0 < k {
      GreedyAgrees(body, a, b, upTo, capacity, k - 1);
    }
    hide Floor, IsBoundary;
    assert a[k].start == CutBefore(a, k) == CutBefore(b, k) == b[k].start;
  }

  lemma GreedyEnds(body: seq<byte>, a: seq<Range>, b: seq<Range>, upTo: nat, capacity: nat)
    requires Greedy(body, a, upTo, capacity) && Greedy(body, b, upTo, capacity)
    ensures |b| <= |a|
  {
    if |a| < |b| {
      if a != [] {
        GreedyAgrees(body, a, b, upTo, capacity, |a| - 1);
      }
      hide Floor, IsBoundary;
      assert b[|a|].start == CutBefore(b, |a|) == CutBefore(a, |a|);
      CutsAscend(body, b, upTo, |a|, |b| - 1);
    }
  }

  /** Filling to capacity leaves one result. */
  lemma GreedyIsUnique(body: seq<byte>, a: seq<Range>, b: seq<Range>, upTo: nat, capacity: nat)
    requires Greedy(body, a, upTo, capacity) && Greedy(body, b, upTo, capacity)
    ensures a == b
  {
    GreedyEnds(body, a, b, upTo, capacity);
    GreedyEnds(body, b, a, upTo, capacity);
    forall k | 0 <= k < |a|
      ensures a[k] == b[k]
    {
      GreedyAgrees(body, a, b, upTo, capacity, k);
    }
  }

  /** The ranges a successful split gives: filled to capacity, or the record of first fits. */
  ghost predicate SplitterTakes(budget: InputBudget, prefix: seq<byte>, body: seq<byte>, rs: seq<Range>) {
    if body == [] then rs == [] && budget.Accepts(prefix)
    else if budget.tokenizer.None? then
      && 0 < ByteCapacity(budget.limit, prefix)
      && Greedy(body, rs, |body|, ByteCapacity(budget.limit, prefix))
      && Feasible(budget.limit, prefix, body, rs)
    else exists log :: IsRecord(budget, prefix, body, rs, log)
  }

  /** A complete record of a successful token search. */
  ghost predicate IsRecord(
    budget: InputBudget, prefix: seq<byte>, body: seq<byte>, rs: seq<Range>, log: seq<Attempt>)
  {
    && Recorded(budget, prefix, body, Success(rs), log, None)
    && LogEnd(log) == |body| && |log| <= MAX_DOCUMENT_SPLIT_PARTS
  }

  /** A split is determined by budget, heading and body. */
  lemma SplitterIsUnique(budget: InputBudget, prefix: seq<byte>, body: seq<byte>, a: seq<Range>, b: seq<Range>)
    requires SplitterTakes(budget, prefix, body, a) && SplitterTakes(budget, prefix, body, b)
    ensures a == b
  {
    hide Greedy, Feasible, Recorded, LogEnd;
    if body != [] && budget.tokenizer.None? {
      GreedyIsUnique(body, a, b, |body|, ByteCapacity(budget.limit, prefix));
    } else if body != [] {
      var log :| IsRecord(budget, prefix, body, a, log);
      var log' :| IsRecord(budget, prefix, body, b, log');
      OneOutcome(budget, prefix, body, a, log, b, log');
    }
  }

  // ---- failure or success, not both

  lemma {:induction false} WorkPrefix(heading: nat, p: seq<nat>, q: seq<nat>)
    requires p <= q
    ensures Work(heading, p) <= Work(heading, q)
  {
    if |p| < |q| {
      WorkPrefix(heading, p, q[..|q| - 1]);
    } else {
      assert p == q;
    }
  }

  /** A search that found a fit went further than one that rejected all it tried. */
  lemma FitIsLater(
    budget: InputBudget, prefix: seq<byte>, remaining: seq<byte>, window: nat, order: seq<nat>,
    tested: seq<nat>, found: seq<nat>, t: nat)
    requires Rejected(budget, prefix, remaining, window, tested) && tested <= order
    requires Probed(budget, prefix, remaining, window, found, Some(t)) && found <= order
    ensures |tested| < |found|
  {
    if |found| <= |tested| {
      assert t == tested[|found| - 1];
      RejectedDoesNotFit(budget, prefix, remaining, window, tested, t);
    }
  }

  lemma NextIsPaid(heading: nat, order: seq<nat>, tested: seq<nat>, found: seq<nat>)
    requires tested <= order && found <= order && |tested| < |found|
    ensures Work(heading, tested) + ProbeCost(heading, order[|tested|]) <= Work(heading, found)
  {
    var n := |tested|;
    var next := tested + [order[n]];
    assert found[..n + 1] == next && next[..n] == tested;
    WorkPrefix(heading, next, found);
  }

  lemma NextIsCounted(
    budget: InputBudget, prefix: seq<byte>, remaining: seq<byte>, window: nat, found: seq<nat>, t: nat, n: nat)
    requires Probed(budget, prefix, remaining, window, found, Some(t)) && n < |found|
    ensures found[n] <= |remaining| && budget.Count(prefix + remaining[..found[n]]).Some?
  {
    hide Rejected;
    if n < |found| - 1 {
      assert found[n] == found[..|found| - 1][n];
      RejectedDoesNotFit(budget, prefix, remaining, window, found[..|found| - 1], found[n]);
    }
  }

  /** So it paid for, and counted, the next candidate. */
  lemma FitPassesNext(
    budget: InputBudget, prefix: seq<byte>, remaining: seq<byte>, window: nat, order: seq<nat>,
    tested: seq<nat>, found: seq<nat>, t: nat)
    requires Rejected(budget, prefix, remaining, window, tested) && tested <= order
    requires Probed(budget, prefix, remaining, window, found, Some(t)) && found <= order
    ensures |tested| < |order|
    ensures order[|tested|] <= |remaining| && budget.Count(prefix + remaining[..order[|tested|]]).Some?
    ensures Work(|prefix|, tested) + ProbeCost(|prefix|, order[|tested|]) <= Work(|prefix|, found)
  {
    hide Rejected, Probed, Work, ProbeCost;
    FitIsLater(budget, prefix, remaining, window, order, tested, found, t);
    assert found[|tested|] == order[|tested|];
    NextIsCounted(budget, prefix, remaining, window, found, t, |tested|);
    NextIsPaid(|prefix|, order, tested, found);
  }

  /** One attempt of a log: what came before it, and what the log paid up to it. */
  lemma {:induction false} LogAt(budget: InputBudget, prefix: seq<byte>, body: seq<byte>, log: seq<Attempt>, n: nat)
    requires SearchLog(budget, prefix, body, log, LogEnd(log)) && n < |log|
    ensures log[n].start == LogEnd(log[..n]) && log[n].fit.Some?
    ensures Searches(budget, prefix, body, log[..n], log[n])
    ensures TotalWork(|prefix|, log[..n]) + Work(|prefix|, log[n].tested) <= TotalWork(|prefix|, log)
  {
    hide SearchLog, Searches, Work;
    FrontIsLog(budget, prefix, body, log);
    if n < |log| - 1 {
      LogAt(budget, prefix, body, log[..|log| - 1], n);
      assert log[..|log| - 1][..n] == log[..n];
    }
  }

  /** Where a failed search stopped, the successful one went on. */
  lemma SuccessGoesOn(
    budget: InputBudget, prefix: seq<byte>, body: seq<byte>, log: seq<Attempt>, rs: seq<Range>, log': seq<Attempt>)
    requires SearchLog(budget, prefix, body, log, LogEnd(log)) && LogEnd(log) < |body|
    requires IsRecord(budget, prefix, body, rs, log')
    ensures |log| < |log'|
    ensures log'[|log|].start == LogEnd(log) && log'[|log|].fit.Some?
    ensures Searches(budget, prefix, body, log, log'[|log|])
    ensures TotalWork(|prefix|, log) + Work(|prefix|, log'[|log|].tested) <= Allowance(|prefix|, |body|)
  {
    hide SearchLog, Searches, Work, TotalWork, LogEnd, Allowance;
    if |log'| <= |log| {
      LongerEndsToo(budget, prefix, body, log', log);
    } else {
      LogsAgree(budget, prefix, body, log, log');
      LogAt(budget, prefix, body, log', |log|);
      assert log'[..|log|] == log;
    }
  }

  /** An attempt without result, beside the one the successful search made from there. */
  lemma StuckExcludesFit(
    budget: InputBudget, prefix: seq<byte>, body: seq<byte>, error: SplitError,
    log: seq<Attempt>, a: Attempt, b: Attempt)
    requires Searches(budget, prefix, body, log, a) && a.fit.None?
    requires Searches(budget, prefix, body, log, b) && b.fit.Some? && a.start == b.start
    requires TotalWork(|prefix|, log) + Work(|prefix|, b.tested) <= Allowance(|prefix|, |body|)
    ensures !HonestFailure(budget, prefix, body, error, log, Some(a)) || error.TooManyParts? || error.CharacterTooWide?
  {
    hide Rejected, ProbeOrder, Floor, IsBoundary, Work, TotalWork, Allowance;
    var remaining := body[a.start..];
    var order := ProbeOrder(remaining, a.window);
    FitIsLater(budget, prefix, remaining, a.window, order, a.tested, b.tested, b.fit.value);
    FitPassesNext(budget, prefix, remaining, a.window, order, a.tested, b.tested, b.fit.value);
  }

  /** A character wider than the room beside the heading is in no accepted piece. */
  lemma WideCharacterExcludesSuccess(
    budget: InputBudget, prefix: seq<byte>, body: Str, rs: seq<Range>, at: nat)
    requires Partition(body, rs) && AllAccepted(budget, prefix, body, rs)
    requires at < |body| && IsBoundary(body, at)
    ensures LeadWidth(body[at]) <= TokenCapacity(prefix)
  {
    var k := CutsCover(body, rs, |body|, at);
    NextBoundary(body, at);
    hide Partition, Cuts, WellFormed;
    assert budget.Accepts(prefix + body[rs[k].start..rs[k].end]);
  }

  /** No text has both the evidence of a failure and the record of a success. */
  lemma FailureExcludesSuccess(
    budget: InputBudget, prefix: Str, body: Str, error: SplitError, log: seq<Attempt>, stuck: Option<Attempt>,
    rs: seq<Range>, log': seq<Attempt>)
    requires IsRecord(budget, prefix, body, rs, log')
    requires Recorded(budget, prefix, body, Failure(error), log, stuck)
    ensures !HonestFailure(budget, prefix, body, error, log, stuck)
  {
    hide SearchLog, Searches, NothingFound, Stopped, Work, TotalWork, LogEnd, WellFormed;
    if HonestFailure(budget, prefix, body, error, log, stuck) {
      if error.CharacterTooWide? {
        RecordedIsSplit(budget, prefix, body, rs, log');
        WideCharacterExcludesSuccess(budget, prefix, body, rs, error.at);
      } else if error.TooManyParts? {
        SuccessGoesOn(budget, prefix, body, log, rs, log');
      } else {
        StuckStartsInside(budget, prefix, body, log, stuck.value);
        SuccessGoesOn(budget, prefix, body, log, rs, log');
        StuckExcludesFit(budget, prefix, body, error, log, stuck.value, log'[|log|]);
      }
    }
  }

  lemma StuckStartsInside(budget: InputBudget, prefix: seq<byte>, body: seq<byte>, log: seq<Attempt>, a: Attempt)
    requires Searches(budget, prefix, body, log, a)
    ensures a.start < |body|
  {
  }

  /** A search with a window has room for the next character. */
  lemma SearchHasRoom(budget: InputBudget, prefix: seq<byte>, body: Str, log: seq<Attempt>, a: Attempt)
    requires Searches(budget, prefix, body, log, a) && 0 <= TokenCapacity(prefix)
    ensures LeadWidth(body[a.start]) <= TokenCapacity(prefix)
  {
    hide Probed, ProbeOrder, WellFormed;
    WindowIsCarried(log, TokenCapacity(prefix));
    NextBoundary(body, a.start);
    SliceBoundary(body, a.start, |body|, a.window);
    assert body[a.start..|body|] == body[a.start..];
  }

  lemma WindowIsCarried(log: seq<Attempt>, capacity: int)
    ensures CarriedWindow(log, capacity) <= capacity
  {
  }

  /** Of two searches from one place, the one that stopped for good is not the shorter. */
  lemma StuckIsLast(
    budget: InputBudget, prefix: seq<byte>, body: seq<byte>, error: SplitError,
    log: seq<Attempt>, a: Attempt, c: Attempt)
    requires Searches(budget, prefix, body, log, a) && Searches(budget, prefix, body, log, c)
    requires a.start == c.start && c.fit.None? && |a.tested| < |c.tested|
    requires TotalWork(|prefix|, log) + Work(|prefix|, c.tested) <= Allowance(|prefix|, |body|)
    ensures !HonestFailure(budget, prefix, body, error, log, Some(a))
  {
    hide Rejected, ProbeOrder, Floor, IsBoundary, Work, TotalWork, Allowance;
    var remaining := body[a.start..];
    var order := ProbeOrder(remaining, a.window);
    NextIsPaid(|prefix|, order, a.tested, c.tested);
    assert c.tested[|a.tested|] == order[|a.tested|];
    RejectedDoesNotFit(budget, prefix, remaining, a.window, c.tested, order[|a.tested|]);
  }

  /** From one log, two stuck searches are the same and fail alike. */
  lemma StuckAgree(
    budget: InputBudget, prefix: seq<byte>, body: seq<byte>, log: seq<Attempt>,
    error: SplitError, a: Attempt, error': SplitError, c: Attempt)
    requires Searches(budget, prefix, body, log, a) && Searches(budget, prefix, body, log, c)
    requires a.start == c.start && a.fit.None? && c.fit.None?
    requires TotalWork(|prefix|, log) + Work(|prefix|, a.tested) <= Allowance(|prefix|, |body|)
    requires TotalWork(|prefix|, log) + Work(|prefix|, c.tested) <= Allowance(|prefix|, |body|)
    requires HonestFailure(budget, prefix, body, error, log, Some(a))
    requires HonestFailure(budget, prefix, body, error', log, Some(c))
    ensures a == c && error == error'
  {
    if |a.tested| < |c.tested| {
      StuckIsLast(budget, prefix, body, error, log, a, c);
    } else if |c.tested| < |a.tested| {
      StuckIsLast(budget, prefix, body, error', log, c, a);
    }
    hide Probed, ProbeOrder, Floor, IsBoundary, Work, TotalWork, Allowance;
  }

  /** A log that fails here goes no further in any affordable record. */
  lemma FailureIsFinal(
    budget: InputBudget, prefix: seq<byte>, body: Str, error: SplitError, log: seq<Attempt>, stuck: Option<Attempt>,
    log': seq<Attempt>)
    requires Recorded(budget, prefix, body, Failure(error), log, stuck) && 0 <= TokenCapacity(prefix)
    requires SearchLog(budget, prefix, body, log', LogEnd(log')) && |log| < |log'| <= MAX_DOCUMENT_SPLIT_PARTS
    requires TotalWork(|prefix|, log') <= Allowance(|prefix|, |body|)
    ensures !HonestFailure(budget, prefix, body, error, log, stuck)
  {
    hide SearchLog, Searches, NothingFound, Stopped, Work, TotalWork, LogEnd, WellFormed, Allowance;
    LogsAgree(budget, prefix, body, log, log');
    LogAt(budget, prefix, body, log', |log|);
    assert log'[..|log|] == log;
    var b := log'[|log|];
    StuckStartsInside(budget, prefix, body, log, b);
    if error.CharacterTooWide? {
      SearchHasRoom(budget, prefix, body, log, b);
    } else if stuck.Some? {
      StuckExcludesFit(budget, prefix, body, error, log, stuck.value, b);
    }
  }

  /** After one log there is one failure. */
  lemma FailuresAgree(
    budget: InputBudget, prefix: seq<byte>, body: Str, log: seq<Attempt>,
    error: SplitError, stuck: Option<Attempt>, error': SplitError, stuck': Option<Attempt>)
    requires 0 <= TokenCapacity(prefix)
    requires Recorded(budget, prefix, body, Failure(error), log, stuck)
    requires Recorded(budget, prefix, body, Failure(error'), log, stuck')
    requires HonestFailure(budget, prefix, body, error, log, stuck)
    requires HonestFailure(budget, prefix, body, error', log, stuck')
    ensures error == error' && stuck == stuck'
  {
    hide SearchLog, Searches, NothingFound, Stopped, Work, TotalWork, LogEnd, WellFormed, Allowance;
    if stuck.Some? && stuck'.Some? {
      StuckAgree(budget, prefix, body, log, error, stuck.value, error', stuck'.value);
    } else if stuck.Some? {
      StuckStartsInside(budget, prefix, body, log, stuck.value);
      SearchHasRoom(budget, prefix, body, log, stuck.value);
    } else if stuck'.Some? {
      StuckStartsInside(budget, prefix, body, log, stuck'.value);
      SearchHasRoom(budget, prefix, body, log, stuck'.value);
    }
  }

  /** Whatever the count function, one body has at most one failing record, error included. */
  lemma OneFailure(
    budget: InputBudget, prefix: seq<byte>, body: Str,
    error: SplitError, log: seq<Attempt>, stuck: Option<Attempt>,
    error': SplitError, log': seq<Attempt>, stuck': Option<Attempt>)
    requires 0 <= TokenCapacity(prefix)
    requires Recorded(budget, prefix, body, Failure(error), log, stuck)
    requires Recorded(budget, prefix, body, Failure(error'), log', stuck')
    requires HonestFailure(budget, prefix, body, error, log, stuck)
    requires HonestFailure(budget, prefix, body, error', log', stuck')
    ensures error == error' && log == log' && stuck == stuck'
  {
    hide *;
    FailingRecord(budget, prefix, body, error, log, stuck);
    FailingRecord(budget, prefix, body, error', log', stuck');
    if |log| < |log'| {
      FailureIsFinal(budget, prefix, body, error, log, stuck, log');
    } else if |log'| < |log| {
      FailureIsFinal(budget, prefix, body, error', log', stuck', log);
    } else {
      LogsAgree(budget, prefix, body, log, log');
      assert log == log';
      FailuresAgree(budget, prefix, body, log, error, stuck, error', stuck');
    }
  }

  lemma FailingRecord(
    budget: InputBudget, prefix: seq<byte>, body: seq<byte>, error: SplitError,
    log: seq<Attempt>, stuck: Option<Attempt>)
    requires Recorded(budget, prefix, body, Failure(error), log, stuck)
    requires HonestFailure(budget, prefix, body, error, log, stuck)
    ensures SearchLog(budget, prefix, body, log, LogEnd(log)) && |log| <= MAX_DOCUMENT_SPLIT_PARTS
    ensures TotalWork(|prefix|, log) <= Allowance(|prefix|, |body|)
  {
    hide SearchLog, Searches, NothingFound, Stopped, Work, LogEnd, Allowance;
  }

  /** A heading that leaves no room is the only failure without a record, and no success has one. */
  lemma SuccessHasRoom(budget: InputBudget, prefix: seq<byte>, body: seq<byte>, rs: seq<Range>, log: seq<Attempt>)
    requires IsRecord(budget, prefix, body, rs, log) && body != []
    ensures 0 < TokenCapacity(prefix)
  {
    hide SearchLog, Work, Probed;
    LogAt(budget, prefix, body, log, 0);
  }

  /** Under a byte budget it has the fewest pieces of any split within the capacity. */
  lemma SplitterTakesFewest(budget: InputBudget, prefix: seq<byte>, body: seq<byte>, rs: seq<Range>)
    requires SplitterTakes(budget, prefix, body, rs) && body != [] && budget.tokenizer.None?
    ensures forall other: seq<Range> | Split(body, other, ByteCapacity(budget.limit, prefix)) :: |rs| <= |other|
  {
    hide Greedy, Feasible, Split;
    FewestPieces(body, rs, ByteCapacity(budget.limit, prefix));
  }

  /**
   Partitions a body into inputs that are each accepted with the whole heading. The
   ghost results record every probe of the tokenizer path: finished searches in `log`,
   and in `stuck` the one in progress when the call failed.
   */
  method DocumentRanges(budget: InputBudget, prefix: Str, body: Str)
    returns (r: Result<seq<Range>, SplitError>, ghost log: seq<Attempt>, ghost stuck: Option<Attempt>)
    ensures r.Success? ==>
              && Partition(body, r.value)
              && AllAccepted(budget, prefix, body, r.value)
              && DocumentOutputBytes(|prefix|, |body|, |r.value|).Success?
              && SplitterTakes(budget, prefix, body, r.value)
    ensures r.Success? ==>
              forall k | 0 <= k < |r.value| ::
                WithinLimits(budget, prefix + body[r.value[k].start..r.value[k].end])
    ensures body == [] ==> (r.Success? <==> budget.Accepts(prefix))
    ensures body != [] && budget.tokenizer.None? ==>
              (r.Success? <==> exists rs: seq<Range> :: Feasible(budget.limit, prefix, body, rs))
    ensures body != [] && budget.tokenizer.Some? ==>
              && (r == Failure(HeadingTooLong) <==> TokenCapacity(prefix) <= 0)
              && (r != Failure(HeadingTooLong) ==> Recorded(budget, prefix, body, r, log, stuck))
              && (r.Failure? && r.error != HeadingTooLong ==>
                    HonestFailure(budget, prefix, body, r.error, log, stuck))
  {
    log, stuck := [], None;
    if body == [] {
      var valid := budget.Validate([prefix]);
      assert [prefix][0] == prefix;
      if valid.Failure? {
        return Failure(valid.error), log, stuck;
      }
      return Success([]), log, stuck;
    }
    if budget.tokenizer.None? {
      r := DocumentByteRanges(budget.limit, prefix, body);
      if r.Success? {
        BytePiecesAccepted(budget, prefix, body, r.value);
        AcceptedIsWithin(budget, prefix, body, r.value);
      }
      FeasibleNeedsRoom(budget.limit, prefix, body);
      return r, log, stuck;
    }
    if MAX_INPUT_BYTES <= |prefix| {
      return Failure(HeadingTooLong), log, stuck;
    }
    r, log, stuck := TokenRanges(budget, prefix, body);
    if r.Success? {
      assert IsRecord(budget, prefix, body, r.value, log);
      AcceptedIsWithin(budget, prefix, body, r.value);
    }
  }

  /** The two limits of an input, spelled out. */
  ghost predicate WithinLimits(budget: InputBudget, text: seq<byte>) {
    && |text| <= 0x10_0000
    && match budget.tokenizer
       case Some(t) => t.encode(text).Some? && t.encode(text).value <= budget.limit
       case None => |text| <= budget.limit
  }

  lemma AcceptedIsWithin(budget: InputBudget, prefix: seq<byte>, body: seq<byte>, rs: seq<Range>)
    requires AllAccepted(budget, prefix, body, rs)
    ensures forall k | 0 <= k < |rs| :: WithinLimits(budget, prefix + body[rs[k].start..rs[k].end])
  {
  }

  lemma BytePiecesAccepted(budget: InputBudget, prefix: seq<byte>, body: seq<byte>, rs: seq<Range>)
    requires budget.tokenizer.None? && Feasible(budget.limit, prefix, body, rs)
    ensures AllAccepted(budget, prefix, body, rs)
    ensures DocumentOutputBytes(|prefix|, |body|, |rs|).Success?
  {
    forall k | 0 <= k < |rs|
      ensures budget.Accepts(prefix + body[rs[k].start..rs[k].end])
    {
      assert rs[k].Length() <= ByteCapacity(budget.limit, prefix);
    }
  }

  /** A non-empty body has a non-empty piece, so a feasible split leaves room for it. */
  lemma FeasibleNeedsRoom(limit: nat, prefix: seq<byte>, body: seq<byte>)
    requires body != []
    ensures (exists rs: seq<Range> :: Feasible(limit, prefix, body, rs)) ==> 0 < ByteCapacity(limit, prefix)
  {
    if rs: seq<Range> :| Feasible(limit, prefix, body, rs) {
      assert rs[0].Length() <= ByteCapacity(limit, prefix);
    }
  }
}
