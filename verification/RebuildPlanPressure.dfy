/**
 What scanning a full first-in-first-out cache costs: each batch is looked up whole before
 its misses are admitted, so admission can push out what the scan has not reached yet.
 */
module RebuildPlanPressure {
  import opened Core
  import opened Utf8
  import opened FifoOrder
  import opened EmbeddingCache

  // ------------------------------------------------------------------ one batch

  /** Elements of a stream that are resident. */
  function Hits<T(==)>(order: seq<T>, xs: seq<T>): (n: nat)
    ensures n <= |xs|
  {
    if xs == [] then 0
    else Hits(order, xs[..|xs| - 1]) + if xs[|xs| - 1] in order then 1 else 0
  }

  /** Elements of a stream that are not. */
  function Misses<T(==)>(order: seq<T>, xs: seq<T>): seq<T> {
    if xs == [] then []
    else Misses(order, xs[..|xs| - 1]) + if xs[|xs| - 1] in order then [] else [xs[|xs| - 1]]
  }

  lemma {:induction false} MissesAreNew<T>(order: seq<T>, xs: seq<T>)
    ensures forall x | x in Misses(order, xs) :: x in xs && x !in order
  {
    if xs != [] {
      MissesAreNew(order, xs[..|xs| - 1]);
    }
  }

  lemma {:induction false} HitsAndMisses<T>(order: seq<T>, xs: seq<T>)
    ensures Hits(order, xs) + |Misses(order, xs)| == |xs|
  {
    if xs != [] {
      HitsAndMisses(order, xs[..|xs| - 1]);
    }
  }

  lemma {:induction false} HitsConcat<T>(order: seq<T>, xs: seq<T>, ys: seq<T>)
    ensures Hits(order, xs + ys) == Hits(order, xs) + Hits(order, ys)
  {
    if ys == [] {
      assert xs + ys == xs;
    } else {
      HitsConcat(order, xs, ys[..|ys| - 1]);
      assert (xs + ys)[..|xs + ys| - 1] == xs + ys[..|ys| - 1];
    }
  }

  lemma HitsSplit<T>(order: seq<T>, xs: seq<T>, n: nat)
    requires n <= |xs|
    ensures Hits(order, xs) == Hits(order, xs[..n]) + Hits(order, xs[n..])
  {
    HitsConcat(order, xs[..n], xs[n..]);
    assert xs[..n] + xs[n..] == xs;
  }

  lemma {:induction false} HitsMonotone<T>(fewer: seq<T>, more: seq<T>, xs: seq<T>)
    requires forall x | x in xs && x in fewer :: x in more
    ensures Hits(fewer, xs) <= Hits(more, xs)
  {
    if xs != [] {
      HitsMonotone(fewer, more, xs[..|xs| - 1]);
    }
  }

  lemma {:induction false} AllHit<T>(order: seq<T>, xs: seq<T>)
    requires forall x | x in xs :: x in order
    ensures Hits(order, xs) == |xs| && Misses(order, xs) == []
  {
    if xs != [] {
      AllHit(order, xs[..|xs| - 1]);
    }
  }

  lemma {:induction false} NoneHit<T>(order: seq<T>, xs: seq<T>)
    requires forall x | x in xs :: x !in order
    ensures Hits(order, xs) == 0 && Misses(order, xs) == xs
  {
    if xs != [] {
      NoneHit(order, xs[..|xs| - 1]);
      assert xs == xs[..|xs| - 1] + [xs[|xs| - 1]];
    }
  }

  // ------------------------------------------------------------------- the scan

  /** The queue after a batch: its misses enter only with admission. */
  function AfterBatch<T(==)>(order: seq<T>, batch: seq<T>, cap: nat, admit: bool): seq<T> {
    if admit then PushAll(order, Misses(order, batch), cap) else order
  }

  function ScanHits<T(==)>(order: seq<T>, xs: seq<T>, size: nat, cap: nat, admit: bool): nat
    requires 0 < size
    decreases |xs|
  {
    if xs == [] then 0
    else
      var n := Min(size, |xs|);
      Hits(order, xs[..n]) + ScanHits(AfterBatch(order, xs[..n], cap, admit), xs[n..], size, cap, admit)
  }

  lemma ScanStep<T>(order: seq<T>, xs: seq<T>, size: nat, cap: nat, admit: bool)
    requires 0 < size && xs != []
    ensures var n := Min(size, |xs|);
            ScanHits(order, xs, size, cap, admit) ==
            Hits(order, xs[..n]) + ScanHits(AfterBatch(order, xs[..n], cap, admit), xs[n..], size, cap, admit)
  {
  }

  /** Without admission a scan hits exactly what was resident, whatever the stream. */
  lemma {:induction false} NoAdmissionIsSnapshot<T>(order: seq<T>, xs: seq<T>, size: nat, cap: nat)
    requires 0 < size
    ensures ScanHits(order, xs, size, cap, false) == Hits(order, xs)
    decreases |xs|
  {
    if xs != [] {
      var n := Min(size, |xs|);
      NoAdmissionIsSnapshot(order, xs[n..], size, cap);
      HitsSplit(order, xs, n);
    }
  }

  /** What a batch admits is not what the rest of a distinct stream looks for. */
  lemma AdmissionIsUseless<T>(order: seq<T>, xs: seq<T>, n: nat, cap: nat)
    requires Distinct(xs) && n <= |xs|
    ensures forall x | x in xs[n..] && x in AfterBatch(order, xs[..n], cap, true) :: x in order
  {
    forall x | x in xs[n..] && x in AfterBatch(order, xs[..n], cap, true)
      ensures x in order
    {
      DistinctCut(xs, n, x);
      PushAllAdds(order, Misses(order, xs[..n]), cap, x);
      MissesAreNew(order, xs[..n]);
    }
  }

  /** On a stream without repetition admission never gains a hit. */
  lemma {:induction false} AdmissionNeverGains<T>(order: seq<T>, xs: seq<T>, size: nat, cap: nat)
    requires 0 < size && Distinct(xs)
    ensures ScanHits(order, xs, size, cap, true) <= Hits(order, xs)
    decreases |xs|
  {
    if xs != [] {
      var n := Min(size, |xs|);
      var after := AfterBatch(order, xs[..n], cap, true);
      ScanStep(order, xs, size, cap, true);
      DistinctSlice(xs, n, |xs|);
      AdmissionIsUseless(order, xs, n, cap);
      hide ScanHits, Distinct, AfterBatch, Hits;
      AdmissionNeverGains(after, xs[n..], size, cap);
      HitsMonotone(after, order, xs[n..]);
      HitsSplit(order, xs, n);
    }
  }

  /** A stream that starts with residents hits all of those. */
  lemma {:induction false} LeadingResidentsHit<T>(order: seq<T>, xs: seq<T>, m: nat, size: nat, cap: nat)
    requires 0 < size && m <= |xs| && forall i | 0 <= i < m :: xs[i] in order
    ensures m <= ScanHits(order, xs, size, cap, true)
    decreases |xs|
  {
    if xs != [] {
      var n := Min(size, |xs|);
      if n <= m {
        AllHit(order, xs[..n]);
        LeadingResidentsHit(order, xs[n..], m - n, size, cap);
      } else {
        AllHit(order, xs[..m]);
        HitsConcat(order, xs[..m], xs[m..n]);
        assert xs[..m] + xs[m..n] == xs[..n];
      }
    }
  }

  // ------------------------------------------------------- scanning what filled it

  /** Filling an empty cache with distinct elements leaves the last of them. */
  lemma FilledIsLast<T>(xs: seq<T>, cap: nat)
    requires Distinct(xs)
    ensures PushAll([], xs, cap) == LastN(xs, cap)
  {
    PushAllFresh([], xs, cap);
    assert [] + xs == xs;
  }

  /** The queue of a full cache after `s` elements of a second in-order scan. */
  function Round<T>(xs: seq<T>, cap: nat, s: nat): seq<T>
    requires s <= |xs|
  {
    LastN(xs + xs[..s], cap)
  }

  /** Nothing in the next batch is among the last `cap` of what was queued so far. */
  lemma NextBatchIsGone<T>(xs: seq<T>, cap: nat, size: nat, s: nat, n: nat)
    requires Distinct(xs) && cap + size <= |xs| && n <= size && s + n <= |xs|
    ensures forall x | x in xs[s..s + n] :: x !in Round(xs, cap, s)
  {
    var queued := xs + xs[..s];
    forall x | x in xs[s..s + n]
      ensures x !in LastN(queued, cap)
    {
      var j :| s <= j < s + n && xs[j] == x;
      forall p | |queued| - cap <= p < |queued|
        ensures queued[p] != x
      {
        assert queued[p] == if p < |xs| then xs[p] else xs[p - |xs|];
      }
    }
  }

  lemma LastNTwice<T>(xs: seq<T>, ys: seq<T>, cap: nat)
    ensures LastN(LastN(xs, cap) + ys, cap) == LastN(xs + ys, cap)
  {
  }

  lemma RoundMore<T>(xs: seq<T>, cap: nat, s: nat, n: nat)
    requires s + n <= |xs|
    ensures LastN(Round(xs, cap, s) + xs[s..s + n], cap) == Round(xs, cap, s + n)
  {
    LastNTwice(xs + xs[..s], xs[s..s + n], cap);
    hide LastN;
    assert xs + xs[..s] + xs[s..s + n] == xs + xs[..s + n];
  }

  /** One batch of a second in-order scan: no hit, and the queue moves on by the batch. */
  lemma ForwardBatch<T>(xs: seq<T>, cap: nat, size: nat, s: nat, n: nat)
    requires Distinct(xs) && cap + size <= |xs| && n <= size && s + n <= |xs|
    ensures Hits(Round(xs, cap, s), xs[s..s + n]) == 0
    ensures AfterBatch(Round(xs, cap, s), xs[s..s + n], cap, true) == Round(xs, cap, s + n)
  {
    NextBatchIsGone(xs, cap, size, s, n);
    DistinctSlice(xs, s, s + n);
    RoundMore(xs, cap, s, n);
    var batch := xs[s..s + n];
    BatchIsGone(Round(xs, cap, s), batch, cap);
  }

  lemma BatchIsGone<T>(order: seq<T>, batch: seq<T>, cap: nat)
    requires Distinct(batch) && |order| <= cap && forall x | x in batch :: x !in order
    ensures Hits(order, batch) == 0
    ensures AfterBatch(order, batch, cap, true) == LastN(order + batch, cap)
  {
    NoneHit(order, batch);
    PushAllFresh(order, batch, cap);
  }

  lemma SliceStep<T>(xs: seq<T>, s: nat, n: nat)
    requires s + n <= |xs|
    ensures xs[s..][..n] == xs[s..s + n] && xs[s..][n..] == xs[s + n..]
  {
  }

  /** From any point of a second in-order scan on, nothing hits. */
  lemma {:induction false} ForwardMissesFrom<T>(xs: seq<T>, cap: nat, size: nat, s: nat)
    requires Distinct(xs) && 0 < size && cap + size <= |xs| && s <= |xs|
    ensures ScanHits(Round(xs, cap, s), xs[s..], size, cap, true) == 0
    decreases |xs| - s
  {
    if s < |xs| {
      var n := Min(size, |xs| - s);
      SliceStep(xs, s, n);
      ScanStep(Round(xs, cap, s), xs[s..], size, cap, true);
      hide Distinct, Round, AfterBatch, Hits, ScanHits;
      ForwardBatch(xs, cap, size, s, n);
      ForwardMissesFrom(xs, cap, size, s + n);
    }
  }

  /** One resident in a stream is a hit. */
  lemma {:induction false} OneHit<T>(order: seq<T>, xs: seq<T>, i: nat)
    requires i < |xs| && xs[i] in order
    ensures 0 < Hits(order, xs)
  {
    if i < |xs| - 1 {
      OneHit(order, xs[..|xs| - 1], i);
    }
  }

  /** With fewer elements, the first batch already holds a resident. */
  lemma FirstBatchHits<T>(xs: seq<T>, cap: nat, size: nat)
    requires xs != [] && 0 < cap && 0 < size && |xs| < cap + size
    ensures 0 < ScanHits(LastN(xs, cap), xs, size, cap, true)
  {
    var n := Min(size, |xs|);
    var first := |xs| - Min(|xs|, cap);
    assert xs[..n][first] == xs[first] == LastN(xs, cap)[0];
    OneHit(LastN(xs, cap), xs[..n], first);
    ScanStep(LastN(xs, cap), xs, size, cap, true);
  }

  /**
   Filled with distinct elements in order, the cache misses every one of them in a second
   in-order scan exactly when they outnumber its capacity by a whole batch.
   */
  lemma ForwardScanMissesAll<T>(xs: seq<T>, cap: nat, size: nat)
    requires Distinct(xs) && xs != [] && 0 < cap && 0 < size
    ensures ScanHits(PushAll([], xs, cap), xs, size, cap, true) == 0 <==> cap + size <= |xs|
  {
    FilledIsLast(xs, cap);
    if cap + size <= |xs| {
      ForwardMissesFrom(xs, cap, size, 0);
      assert xs + xs[..0] == xs && xs[0..] == xs;
    } else {
      FirstBatchHits(xs, cap, size);
    }
  }

  lemma ReversedIsDistinct<T>(xs: seq<T>)
    requires Distinct(xs)
    ensures Distinct(Reversed(xs))
  {
  }

  /** Read backwards, exactly the first `min(N, cap)` elements are resident. */
  lemma ReverseResidents<T>(xs: seq<T>, cap: nat)
    requires Distinct(xs)
    ensures forall i | 0 <= i < |xs| :: Reversed(xs)[i] in LastN(xs, cap) <==> i < Min(|xs|, cap)
  {
    var last := LastN(xs, cap);
    forall i | 0 <= i < Min(|xs|, cap)
      ensures Reversed(xs)[i] in last
    {
      assert last[|last| - 1 - i] == Reversed(xs)[i];
    }
  }

  /** A second scan in reverse order hits everything the cache still holds. */
  lemma ReverseScanHitsResidents<T>(xs: seq<T>, cap: nat, size: nat)
    requires Distinct(xs) && 0 < size
    ensures ScanHits(PushAll([], xs, cap), Reversed(xs), size, cap, true) == Min(|xs|, cap)
  {
    var last, back, m := LastN(xs, cap), Reversed(xs), Min(|xs|, cap);
    FilledIsLast(xs, cap);
    ReverseResidents(xs, cap);
    ReversedIsDistinct(xs);
    hide LastN, Reversed, Distinct, Hits, ScanHits, PushAll;
    LeadingResidentsHit(last, back, m, size, cap);
    AdmissionNeverGains(last, back, size, cap);
    AllHit(last, back[..m]);
    NoneHit(last, back[m..]);
    HitsSplit(last, back, m);
  }

  // --------------------------------------------------------- the production cache

  type Input = seq<byte>

  function Digests(inputs: seq<Input>): seq<Key> {
    seq(|inputs|, i requires 0 <= i < |inputs| => Digest(inputs[i]))
  }

  lemma DigestsAreDistinct(inputs: seq<Input>)
    requires Distinct(inputs)
    ensures Distinct(Digests(inputs))
  {
  }

  /** Fills an empty cache; every insertion must be admitted. */
  method Populated(inputs: seq<Input>, dimension: nat) returns (cache: Cache)
    requires inputs != [] ==> 0 < dimension <= MAX_VECTOR_DIMENSION
    ensures fresh(cache) && cache.Valid() && cache.dimension == dimension
    ensures cache.modelIdentity == "pressure-fixture"
    ensures cache.maxEntries == Capacity(dimension, DEFAULT_MAX_ENTRIES)
    ensures cache.insertionOrder == PushAll([], Digests(inputs), cache.maxEntries)
  {
    cache := new Cache.WithCapacity("pressure-fixture", dimension, DEFAULT_MAX_ENTRIES);
    var vector: Vector := seq(dimension, _ => Finite(0));
    CapacityIsTight(dimension, DEFAULT_MAX_ENTRIES);
    hide Capacity, Inv, Push;
    for i := 0 to |inputs|
      invariant cache.Valid()
      invariant cache.insertionOrder == PushAll([], Digests(inputs[..i]), cache.maxEntries)
    {
      DigestsMore(inputs, i);
      var admitted := cache.Insert(inputs[i], vector);
      assert admitted;
    }
    assert inputs[..|inputs|] == inputs;
  }

  lemma DigestsMore(inputs: seq<Input>, i: nat)
    requires i < |inputs|
    ensures Digests(inputs[..i + 1]) == Digests(inputs[..i]) + [Digest(inputs[i])]
  {
  }

  lemma NothingMissing(order: seq<Key>, batch: seq<Input>)
    ensures Misses(order, Digests(batch[..0])) == Digests([])
  {
  }

  lemma MissingMore(order: seq<Key>, batch: seq<Input>, i: nat, missing: seq<Input>)
    requires i < |batch| && Digests(missing) == Misses(order, Digests(batch[..i]))
    ensures Misses(order, Digests(batch[..i + 1])) ==
            Digests(if Digest(batch[i]) in order then missing else missing + [batch[i]])
  {
    DigestsMore(batch, i);
  }

  lemma Resident(c: Contents, dimension: nat, cap: nat, key: Key)
    requires Inv(c, dimension, cap)
    ensures key in c.order <==> key in c.entries
  {
  }

  /** The inputs of a batch the cache does not hold. */
  method Missing(cache: Cache, batch: seq<Input>) returns (missing: seq<Input>)
    requires cache.Valid()
    ensures Digests(missing) == Misses(cache.insertionOrder, Digests(batch))
    ensures |missing| <= |batch|
  {
    hide Inv, Digests, Misses;
    missing := [];
    NothingMissing(cache.insertionOrder, batch);
    for i := 0 to |batch|
      invariant Digests(missing) == Misses(cache.insertionOrder, Digests(batch[..i]))
      invariant |missing| <= i
    {
      MissingMore(cache.insertionOrder, batch, i, missing);
      Resident(cache.Value(), cache.dimension, cache.maxEntries, Digest(batch[i]));
      var found := cache.Get(batch[i]);
      if found.None? {
        missing := missing + [batch[i]];
      }
    }
    assert batch[..|batch|] == batch;
  }

  method Admit(cache: Cache, missing: seq<Input>, vector: Vector)
    requires cache.Valid() && 0 < cache.maxEntries && Storable(vector, cache.dimension)
    modifies cache
    ensures cache.Valid()
    ensures cache.insertionOrder == PushAll(old(cache.insertionOrder), Digests(missing), cache.maxEntries)
  {
    hide Inv, Push;
    for i := 0 to |missing|
      invariant cache.Valid()
      invariant cache.insertionOrder == PushAll(old(cache.insertionOrder), Digests(missing[..i]), cache.maxEntries)
    {
      DigestsMore(missing, i);
      var admitted := cache.Insert(missing[i], vector);
      assert admitted;
    }
    assert missing[..|missing|] == missing;
  }

  /** Looks up one whole batch, then inserts its misses when they are to be admitted. */
  method ScanBatch(cache: Cache, batch: seq<Input>, admitMisses: bool) returns (hits: nat)
    requires cache.Valid()
    requires admitMisses ==> cache.dimension == 2 && 0 < cache.maxEntries
    modifies cache
    ensures cache.Valid()
    ensures hits == Hits(old(cache.insertionOrder), Digests(batch))
    ensures cache.insertionOrder ==
            AfterBatch(old(cache.insertionOrder), Digests(batch), cache.maxEntries, admitMisses)
  {
    hide Inv, PushAll, Hits, Misses;
    HitsAndMisses(cache.insertionOrder, Digests(batch));
    var missing := Missing(cache, batch);
    hits := |batch| - |missing|;
    if admitMisses {
      Admit(cache, missing, [Finite(1), Finite(0)]);
    }
  }

  /** What is still to be hit from the input at `start` on. */
  function HitsFrom(order: seq<Key>, inputs: seq<Input>, start: nat, size: nat, cap: nat, admit: bool): nat
    requires 0 < size && start <= |inputs|
  {
    ScanHits(order, Digests(inputs[start..]), size, cap, admit)
  }

  lemma DigestsCut(inputs: seq<Input>, start: nat, next: nat)
    requires start <= next <= |inputs|
    ensures Digests(inputs[start..])[..next - start] == Digests(inputs[start..next])
    ensures Digests(inputs[start..])[next - start..] == Digests(inputs[next..])
  {
  }

  lemma HitsFromStep(order: seq<Key>, inputs: seq<Input>, start: nat, size: nat, cap: nat, admit: bool)
    requires 0 < size && start < |inputs|
    ensures var next := Min(start + size, |inputs|);
            var batch := Digests(inputs[start..next]);
            HitsFrom(order, inputs, start, size, cap, admit) ==
            Hits(order, batch) + HitsFrom(AfterBatch(order, batch, cap, admit), inputs, next, size, cap, admit)
  {
    hide ScanHits, AfterBatch, Hits;
    ScanStep(order, Digests(inputs[start..]), size, cap, admit);
    DigestsCut(inputs, start, Min(start + size, |inputs|));
  }

  /** Batch by batch over all inputs, counting the hits. */
  method Scan(cache: Cache, inputs: seq<Input>, size: nat, admitMisses: bool) returns (hits: nat)
    requires cache.Valid() && 0 < size
    requires admitMisses ==> cache.dimension == 2 && 0 < cache.maxEntries
    modifies cache
    ensures cache.Valid()
    ensures hits == ScanHits(old(cache.insertionOrder), Digests(inputs), size, cache.maxEntries, admitMisses)
  {
    hide Inv, AfterBatch, Hits, Digests;
    var start: nat := 0;
    hits := 0;
    assert inputs[0..] == inputs;
    ghost var total := HitsFrom(cache.insertionOrder, inputs, 0, size, cache.maxEntries, admitMisses);
    while start < |inputs|
      invariant start <= |inputs| && cache.Valid()
      invariant total == hits + HitsFrom(cache.insertionOrder, inputs, start, size, cache.maxEntries, admitMisses)
    {
      HitsFromStep(cache.insertionOrder, inputs, start, size, cache.maxEntries, admitMisses);
      var next: nat := Min(start + size, |inputs|);
      var found := ScanBatch(cache, inputs[start..next], admitMisses);
      hits := hits + found;
      start := next;
    }
    NothingLeft(cache.insertionOrder, inputs, size, cache.maxEntries, admitMisses);
  }

  lemma NothingLeft(order: seq<Key>, inputs: seq<Input>, size: nat, cap: nat, admit: bool)
    requires 0 < size
    ensures HitsFrom(order, inputs, |inputs|, size, cap, admit) == 0
  {
  }

  lemma DigestsReversed(inputs: seq<Input>)
    ensures Digests(Reversed(inputs)) == Reversed(Digests(inputs))
  {
  }

  /**
   The whole experiment on distinct inputs: filling, saving and loading, then scanning
   again, forwards hits nothing from `capacity + size` inputs on, and backwards hits
   everything resident.
   */
  method PressureBoundary(inputs: seq<Input>, size: nat, codec: Codec) returns (forwards: nat, backwards: nat)
    requires Distinct(inputs) && inputs != [] && 0 < size && Lossless(codec)
    ensures forwards == 0 <==> Capacity(2, DEFAULT_MAX_ENTRIES) + size <= |inputs|
    ensures backwards == Min(|inputs|, Capacity(2, DEFAULT_MAX_ENTRIES))
  {
    var cap := Capacity(2, DEFAULT_MAX_ENTRIES);
    assert 0 < cap;
    DigestsAreDistinct(inputs);
    ForwardScanMissesAll(Digests(inputs), cap, size);
    ReverseScanHitsResidents(Digests(inputs), cap, size);
    DigestsReversed(inputs);
    hide Capacity, ScanHits, PushAll, Distinct, Lossless, Reversed, Digests, Inv;
    var cache := Populated(inputs, 2);
    var saved := Reloaded(cache, codec);
    forwards := Scan(saved, inputs, size, true);
    cache := Populated(inputs, 2);
    backwards := Scan(cache, Reversed(inputs), size, true);
  }

  /** The cache read back from what it saved, or a copy in memory when it saved nothing. */
  method Reloaded(cache: Cache, codec: Codec) returns (r: Cache)
    requires cache.Valid() && Lossless(codec)
    requires cache.maxEntries == Capacity(cache.dimension, DEFAULT_MAX_ENTRIES)
    ensures r.Valid() && (r == cache || fresh(r))
    ensures r.dimension == cache.dimension && r.maxEntries == cache.maxEntries
    ensures r.Value() == cache.Value()
  {
    r := cache;
    var file := cache.Save(codec);
    if file.Some? {
      SaveThenLoad(cache.Value(), codec, cache.modelIdentity, cache.dimension);
      r := Load(File(|file.value|, file.value), codec, cache.modelIdentity, cache.dimension);
    }
  }
}
