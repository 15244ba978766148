/**
 The bounded, content-addressed embedding cache: a map beside a first-in-first-out queue
 of its keys, saved to and loaded from a bounded file. Hashing is injective here, and the
 text encoding is any lossless one.
 */
module EmbeddingCache {
  import opened Core
  import opened Utf8
  import opened FifoOrder

  const FORMAT_VERSION: nat := 1
  const PREPROCESSING_VERSION: nat := 2
  const DEFAULT_MAX_ENTRIES: nat := 4096
  const MAX_CACHE_FILE_BYTES: nat := 32 * 1024 * 1024
  const MAX_VECTOR_DIMENSION: nat := 16_384
  const MAX_VECTOR_BYTES: nat := 16 * 1024 * 1024
  const ENTRY_OVERHEAD_BYTES: nat := 256
  const SCALAR_BYTES: nat := 4

  /** A single-precision number: finite with its bits, or an infinity or not a number. */
  datatype Scalar = Finite(bits: nat) | NonFinite

  type Vector = seq<Scalar>

  /** The digest of an input, or a text found in a file that is no known input's digest. */
  datatype Key = Digest(input: seq<byte>) | Foreign(text: string)

  predicate HexDigit(c: char) {
    '0' <= c <= '9' || 'a' <= c <= 'f' || 'A' <= c <= 'F'
  }

  predicate IsSha256Hex(key: Key) {
    key.Digest? || (|key.text| == 64 && forall i | 0 <= i < 64 :: HexDigit(key.text[i]))
  }

  predicate AllFinite(v: Vector) {
    forall i | 0 <= i < |v| :: v[i].Finite?
  }

  // -------------------------------------------------------------------- capacity

  function EntryBytes(dimension: nat): nat {
    dimension * SCALAR_BYTES + ENTRY_OVERHEAD_BYTES
  }

  /** Entries a cache may hold; a dimension it cannot store leaves no room at all. */
  function Capacity(dimension: nat, requested: nat): nat {
    if dimension == 0 || MAX_VECTOR_DIMENSION < dimension then 0
    else
      var entryBytes := SaturatingAdd(SaturatingMul(dimension, SCALAR_BYTES), ENTRY_OVERHEAD_BYTES);
      Min(Min(requested, DEFAULT_MAX_ENTRIES), MAX_VECTOR_BYTES / entryBytes)
  }

  /** A full cache stays within both limits, and one more entry would break one of them. */
  lemma CapacityIsTight(dimension: nat, requested: nat)
    ensures Capacity(dimension, requested) * (4 * dimension + 256) <= 16 * 1024 * 1024
    ensures Capacity(dimension, requested) <= Min(requested, 4096)
    ensures 0 < dimension <= 16384 ==>
              || Capacity(dimension, requested) == Min(requested, 4096)
              || 16 * 1024 * 1024 < (Capacity(dimension, requested) + 1) * (4 * dimension + 256)
    ensures 0 < Capacity(dimension, requested) <==> 0 < requested && 0 < dimension <= 16384
  {
    assert EntryBytes(dimension) == 4 * dimension + 256;
    if 0 < dimension <= MAX_VECTOR_DIMENSION {
      Quotient(MAX_VECTOR_BYTES, EntryBytes(dimension));
      var fit := MAX_VECTOR_BYTES / EntryBytes(dimension);
      ProductsOrder(Capacity(dimension, requested), fit, EntryBytes(dimension));
    }
  }

  lemma Quotient(n: nat, d: nat)
    requires 0 < d <= n
    ensures 1 <= n / d
    ensures n / d * d <= n < (n / d + 1) * d
  {
    assert n == n / d * d + n % d;
    assert n < (n / d + 1) * d;
    assert n / d != 0;
  }

  // -------------------------------------------------------------------- contents

  /** The abstract value of a cache: its keys by age, and what each maps to. */
  datatype Contents = Contents(order: seq<Key>, entries: map<Key, Vector>)

  /** The queue and the map hold the same keys, each once. */
  ghost predicate Consistent(c: Contents) {
    && Distinct(c.order)
    && (forall k :: k in c.order <==> k in c.entries)
  }

  /** A vector that may be stored at a dimension. */
  predicate Storable(v: Vector, dimension: nat) {
    |v| == dimension && AllFinite(v)
  }

  /** What every reachable cache keeps. */
  ghost predicate Inv(c: Contents, dimension: nat, cap: nat) {
    && Consistent(c)
    && |c.order| <= cap
    && (forall k | k in c.entries :: Storable(c.entries[k], dimension) && IsSha256Hex(k))
  }

  /** The part of a map under the given keys. */
  function Restrict(m: map<Key, Vector>, order: seq<Key>): map<Key, Vector> {
    map k | k in order && k in m :: m[k]
  }

  /** A value stored under a key; the order says what stays. */
  function Inserted(c: Contents, key: Key, v: Vector, cap: nat): Contents {
    var order := Push(c.order, key, cap);
    Contents(order, Restrict(c.entries[key := v], order))
  }

  lemma InsertedKeepsInv(c: Contents, key: Key, v: Vector, dimension: nat, cap: nat)
    requires Inv(c, dimension, cap) && Storable(v, dimension) && IsSha256Hex(key)
    ensures Inv(Inserted(c, key, v, cap), dimension, cap)
  {
    PushKeeps(c.order, key, cap);
    var all := c.order + [key];
    assert forall k | k in Push(c.order, key, cap) :: k in c.entries[key := v];
  }

  /** A known key keeps its place in the queue, every other key keeps its value, and nothing is evicted. */
  lemma ReinsertKeepsRank(c: Contents, key: Key, v: Vector, cap: nat)
    requires Consistent(c) && key in c.entries
    ensures Inserted(c, key, v, cap) == Contents(c.order, c.entries[key := v])
  {
    assert c.entries.Keys + {key} == c.entries.Keys;
  }

  /** A new key enters at the back; exactly the front leaves, and only from a full cache. */
  lemma InsertEvictsOldest(c: Contents, key: Key, v: Vector, cap: nat)
    requires Consistent(c) && key !in c.entries && |c.order| <= cap && 0 < cap
    ensures |c.order| < cap ==> Inserted(c, key, v, cap) == Contents(c.order + [key], c.entries[key := v])
    ensures |c.order| == cap ==>
              Inserted(c, key, v, cap) == Contents(c.order[1..] + [key], c.entries[key := v] - {c.order[0]})
  {
    hide Consistent, Restrict, LastN;
    EverythingQueued(c, key, v);
    if |c.order| < cap {
      PushWithRoom(c.order, key, cap);
    } else {
      PushWhenFull(c.order, key, cap);
      RestrictTail(c.entries[key := v], c.order + [key]);
    }
  }

  /** With the new key queued, queue and map agree. */
  lemma EverythingQueued(c: Contents, key: Key, v: Vector)
    requires Consistent(c) && key !in c.entries
    ensures key !in c.order && Distinct(c.order + [key])
    ensures Restrict(c.entries[key := v], c.order + [key]) == c.entries[key := v]
  {
    DistinctAppend(c.order, key);
  }

  lemma RestrictTail(m: map<Key, Vector>, order: seq<Key>)
    requires order != [] && Distinct(order)
    ensures Restrict(m, order) - {order[0]} == Restrict(m, order[1..])
  {
    assert order == [order[0]] + order[1..];
    assert order[0] !in order[1..];
  }

  lemma RestrictSize(m: map<Key, Vector>, order: seq<Key>)
    requires Distinct(order) && forall k | k in order :: k in m
    ensures |Restrict(m, order)| == |order|
  {
    DistinctSize(order);
    assert Restrict(m, order).Keys == Elements(order);
  }

  // -------------------------------------------------------------------- eviction

  /** The queue and the map while the oldest keys are dropped: a common end of what was queued. */
  ghost predicate Evicting(c: Contents, queued: seq<Key>, all: map<Key, Vector>, cap: nat) {
    && Consistent(Contents(queued, all))
    && Min(|queued|, cap) <= |c.order| <= |queued|
    && c.order == queued[|queued| - |c.order|..]
    && c.entries == Restrict(all, c.order)
  }

  function Queued(c: Contents, key: Key): seq<Key> {
    if key in c.entries then c.order else c.order + [key]
  }

  lemma EvictionStarts(c: Contents, key: Key, v: Vector, dimension: nat, cap: nat)
    requires Inv(c, dimension, cap)
    ensures Evicting(Contents(Queued(c, key), c.entries[key := v]), Queued(c, key), c.entries[key := v], cap)
  {
    var all, queued := c.entries[key := v], Queued(c, key);
    assert Restrict(all, queued) == all;
  }

  lemma EvictingSize(c: Contents, queued: seq<Key>, all: map<Key, Vector>, cap: nat)
    requires Evicting(c, queued, all, cap)
    ensures Distinct(c.order) && |c.entries| == |c.order|
  {
    DistinctSlice(queued, |queued| - |c.order|, |queued|);
    RestrictSize(all, c.order);
  }

  /** Over the limit, the queue is never empty: it holds every key of the map. */
  lemma EvictionStep(c: Contents, queued: seq<Key>, all: map<Key, Vector>, cap: nat)
    requires Evicting(c, queued, all, cap) && cap < |c.entries|
    ensures 0 < |c.order|
    ensures Evicting(Contents(c.order[1..], c.entries - {c.order[0]}), queued, all, cap)
  {
    EvictingSize(c, queued, all, cap);
    RestrictTail(all, c.order);
  }

  lemma EvictingParts(c: Contents, queued: seq<Key>, all: map<Key, Vector>, cap: nat)
    requires Evicting(c, queued, all, cap)
    ensures Min(|queued|, cap) <= |c.order| <= |queued| && c.order == queued[|queued| - |c.order|..]
    ensures c.entries == Restrict(all, c.order)
  {
    hide Consistent, Restrict;
  }

  lemma InvParts(c: Contents, dimension: nat, cap: nat, key: Key)
    requires Inv(c, dimension, cap)
    ensures |c.order| <= cap && (key in c.order <==> key in c.entries)
  {
    hide Distinct, Storable;
  }

  lemma EvictionEnds(c: Contents, key: Key, v: Vector, dimension: nat, cap: nat, last: Contents)
    requires Inv(c, dimension, cap) && |last.entries| <= cap
    requires Evicting(last, Queued(c, key), c.entries[key := v], cap)
    ensures last == Inserted(c, key, v, cap)
  {
    hide Inv, Evicting, Consistent, Distinct, Restrict, Push, LastN;
    var queued, all := Queued(c, key), c.entries[key := v];
    EvictingSize(last, queued, all, cap);
    EvictingParts(last, queued, all, cap);
    InvParts(c, dimension, cap, key);
    PushIsLastN(c.order, key, cap);
    SuffixIsLastN(queued, last.order, cap);
  }

  // ------------------------------------------------------------------- file format

  datatype Entry = Entry(inputSha256: Key, embedding: Vector)

  datatype Document = Document(
    formatVersion: nat,
    preprocessingVersion: nat,
    modelIdentity: string,
    dimension: nat,
    entries: seq<Entry>)

  /** The decoder's own accounting of the memory entries take. */
  function MemoryBytes(entries: seq<Entry>): nat {
    if entries == [] then 0
    else MemoryBytes(entries[..|entries| - 1]) + EntryBytes(|entries[|entries| - 1].embedding|)
  }

  lemma {:induction false} MemoryGrows(entries: seq<Entry>, n: nat)
    requires n <= |entries|
    ensures MemoryBytes(entries[..n]) <= MemoryBytes(entries)
  {
    if n < |entries| {
      MemoryGrows(entries[..|entries| - 1], n);
      assert entries[..|entries| - 1][..n] == entries[..n];
    } else {
      assert entries[..n] == entries;
    }
  }

  predicate EntryIsBounded(e: Entry) {
    IsSha256Hex(e.inputSha256) && |e.embedding| <= MAX_VECTOR_DIMENSION
  }

  /** What the bounded decoders let through. */
  predicate EntriesAreBounded(entries: seq<Entry>) {
    && |entries| <= DEFAULT_MAX_ENTRIES
    && MemoryBytes(entries) <= MAX_VECTOR_BYTES
    && (forall i | 0 <= i < |entries| :: EntryIsBounded(entries[i]))
  }

  method BoundedEmbedding(sequence: seq<Scalar>) returns (r: Option<Vector>)
    ensures r == if |sequence| <= MAX_VECTOR_DIMENSION then Some(sequence) else None
  {
    var values: Vector := [];
    for i := 0 to |sequence|
      invariant values == sequence[..i] && i <= MAX_VECTOR_DIMENSION
    {
      if MAX_VECTOR_DIMENSION <= |values| {
        return None;
      }
      values := values + [sequence[i]];
    }
    assert sequence[..|sequence|] == sequence;
    return Some(values);
  }

  /** Stops at the first entry over a limit, before keeping it. */
  method BoundedEntries(sequence: seq<Entry>) returns (r: Option<seq<Entry>>)
    ensures r == if EntriesAreBounded(sequence) then Some(sequence) else None
  {
    var entries: seq<Entry> := [];
    var memoryBytes := 0;
    for i := 0 to |sequence|
      invariant entries == sequence[..i] && memoryBytes == MemoryBytes(sequence[..i])
      invariant EntriesAreBounded(sequence[..i])
    {
      assert sequence[..i + 1][..i] == sequence[..i];
      MemoryGrows(sequence, i + 1);
      var embedding := BoundedEmbedding(sequence[i].embedding);
      if !IsSha256Hex(sequence[i].inputSha256) || embedding.None? {
        assert !EntryIsBounded(sequence[i]);
        return None;
      }
      memoryBytes := memoryBytes + EntryBytes(|embedding.value|);
      if DEFAULT_MAX_ENTRIES <= |entries| || MAX_VECTOR_BYTES < memoryBytes {
        return None;
      }
      entries := entries + [sequence[i]];
    }
    assert sequence[..|sequence|] == sequence;
    return Some(entries);
  }

  // ---------------------------------------------------------------- the bounded file

  /** A text encoding: chunks as they are written, and the parser of a whole file. */
  datatype Codec = Codec(encode: Document -> seq<seq<byte>>, parse: seq<byte> -> Option<Document>)

  function Flatten(chunks: seq<seq<byte>>): seq<byte> {
    if chunks == [] then [] else Flatten(chunks[..|chunks| - 1]) + chunks[|chunks| - 1]
  }

  lemma {:induction false} FlattenGrows(chunks: seq<seq<byte>>, n: nat)
    requires n <= |chunks|
    ensures |Flatten(chunks[..n])| <= |Flatten(chunks)|
  {
    if n < |chunks| {
      FlattenGrows(chunks[..|chunks| - 1], n);
      assert chunks[..|chunks| - 1][..n] == chunks[..n];
    } else {
      assert chunks[..n] == chunks;
    }
  }

  /** Finite numbers come back bit for bit. */
  ghost predicate Lossless(codec: Codec) {
    forall d: Document | (forall i | 0 <= i < |d.entries| :: AllFinite(d.entries[i].embedding)) ::
      codec.parse(Flatten(codec.encode(d))) == Some(d)
  }

  /** A writer that refuses the first chunk it has no room for. */
  method LimitedWrite(chunks: seq<seq<byte>>, limit: nat) returns (r: Option<seq<byte>>)
    ensures r == if |Flatten(chunks)| <= limit then Some(Flatten(chunks)) else None
  {
    var inner: seq<byte>, remaining: nat := [], limit;
    for i := 0 to |chunks|
      invariant inner == Flatten(chunks[..i]) && remaining + |inner| == limit
    {
      assert chunks[..i + 1][..i] == chunks[..i];
      if remaining < |chunks[i]| {
        FlattenGrows(chunks, i + 1);
        return None;
      }
      inner, remaining := inner + chunks[i], remaining - |chunks[i]|;
    }
    assert chunks[..|chunks|] == chunks;
    assert |inner| <= limit;
    return Some(inner);
  }

  /** What opening and reading a cache file can give; its length may change in between. */
  datatype Stored = Missing | Unreadable | File(reported: nat, bytes: seq<byte>)

  function Readable(stored: Stored): Option<seq<byte>> {
    if stored.File? && stored.reported <= MAX_CACHE_FILE_BYTES && |stored.bytes| <= MAX_CACHE_FILE_BYTES
    then Some(stored.bytes) else None
  }

  predicate Compatible(d: Document, modelIdentity: string, dimension: nat) {
    && d.formatVersion == FORMAT_VERSION
    && d.preprocessingVersion == PREPROCESSING_VERSION
    && d.modelIdentity == modelIdentity
    && d.dimension == dimension
  }

  // -------------------------------------------------------------------- save and load

  function DocumentOf(modelIdentity: string, dimension: nat, c: Contents): Document
    requires forall k | k in c.order :: k in c.entries
  {
    Document(FORMAT_VERSION, PREPROCESSING_VERSION, modelIdentity, dimension, EntriesOf(c, |c.order|))
  }

  /** The first `n` entries in queue order. */
  function EntriesOf(c: Contents, n: nat): (es: seq<Entry>)
    requires n <= |c.order| && forall k | k in c.order :: k in c.entries
    ensures |es| == n
  {
    if n == 0 then [] else EntriesOf(c, n - 1) + [Entry(c.order[n - 1], c.entries[c.order[n - 1]])]
  }

  const EMPTY := Contents([], map[])

  /** Entries inserted oldest first, those of another dimension or not finite left out. */
  function InsertAll(entries: seq<Entry>, dimension: nat, cap: nat): Contents {
    if entries == [] then EMPTY
    else
      var earlier, e := InsertAll(entries[..|entries| - 1], dimension, cap), entries[|entries| - 1];
      if Storable(e.embedding, dimension) && IsSha256Hex(e.inputSha256)
      then Inserted(earlier, e.inputSha256, e.embedding, cap) else earlier
  }

  function LoadedDocument(d: Document, modelIdentity: string, dimension: nat): Contents {
    if EntriesAreBounded(d.entries) && Compatible(d, modelIdentity, dimension)
    then InsertAll(d.entries, dimension, Capacity(dimension, DEFAULT_MAX_ENTRIES)) else EMPTY
  }

  /** What loading gives for any file: anything it cannot use gives an empty cache. */
  function Loaded(stored: Stored, codec: Codec, modelIdentity: string, dimension: nat): Contents {
    if Capacity(dimension, DEFAULT_MAX_ENTRIES) == 0 || Readable(stored).None? then EMPTY
    else
      match codec.parse(Readable(stored).value)
      case None => EMPTY
      case Some(d) => LoadedDocument(d, modelIdentity, dimension)
  }

  /** The loaded file holds a document for this model and dimension, in the current format. */
  ghost predicate HoldsDocumentFor(stored: Stored, codec: Codec, modelIdentity: string, dimension: nat) {
    && stored.File? && stored.reported <= 32 * 1024 * 1024 && |stored.bytes| <= 32 * 1024 * 1024
    && var parsed := codec.parse(stored.bytes);
       && parsed.Some?
       && parsed.value.formatVersion == 1
       && parsed.value.preprocessingVersion == 2
       && parsed.value.modelIdentity == modelIdentity
       && parsed.value.dimension == dimension
  }

  /** Only a document of the same model, dimension and format gives a cache anything to hold. */
  lemma LoadedIsForThisModel(stored: Stored, codec: Codec, modelIdentity: string, dimension: nat)
    requires Loaded(stored, codec, modelIdentity, dimension).order != []
    ensures HoldsDocumentFor(stored, codec, modelIdentity, dimension)
  {
  }

  /** A text is a usable key exactly when it is 64 hexadecimal digits. */
  lemma KeysAreHex(text: string)
    ensures IsSha256Hex(Foreign(text)) <==> |text| == 64 && forall c | c in text :: c in "0123456789abcdefABCDEF"
  {
    forall i | 0 <= i < |text|
      ensures HexDigit(text[i]) <==> text[i] in "0123456789abcdefABCDEF"
    {
      DigitIsListed(text[i]);
    }
  }

  lemma DigitIsListed(c: char)
    ensures HexDigit(c) <==> c in "0123456789abcdefABCDEF"
  {
    var all := "0123456789abcdefABCDEF";
    assert all[0] == '0' && all[1] == '1' && all[2] == '2' && all[3] == '3' && all[4] == '4' && all[5] == '5';
    assert all[6] == '6' && all[7] == '7' && all[8] == '8' && all[9] == '9';
    assert all[10] == 'a' && all[11] == 'b' && all[12] == 'c' && all[13] == 'd' && all[14] == 'e' && all[15] == 'f';
    assert all[16] == 'A' && all[17] == 'B' && all[18] == 'C' && all[19] == 'D' && all[20] == 'E' && all[21] == 'F';
  }

  lemma {:induction false} InsertAllKeepsInv(entries: seq<Entry>, dimension: nat, cap: nat)
    ensures Inv(InsertAll(entries, dimension, cap), dimension, cap)
  {
    if entries != [] {
      var e := entries[|entries| - 1];
      InsertAllKeepsInv(entries[..|entries| - 1], dimension, cap);
      if Storable(e.embedding, dimension) && IsSha256Hex(e.inputSha256) {
        var earlier := InsertAll(entries[..|entries| - 1], dimension, cap);
        InsertedKeepsInv(earlier, e.inputSha256, e.embedding, dimension, cap);
      }
    }
  }

  /** Whatever a file holds, loading it gives a cache that keeps the invariant. */
  lemma LoadedKeepsInv(stored: Stored, codec: Codec, modelIdentity: string, dimension: nat)
    ensures Inv(Loaded(stored, codec, modelIdentity, dimension), dimension, Capacity(dimension, DEFAULT_MAX_ENTRIES))
  {
    hide Capacity;
    var cap := Capacity(dimension, DEFAULT_MAX_ENTRIES);
    InsertAllKeepsInv([], dimension, cap);
    if cap != 0 && Readable(stored).Some? {
      match codec.parse(Readable(stored).value) {
        case None =>
        case Some(d) => InsertAllKeepsInv(d.entries, dimension, cap);
      }
    }
  }

  lemma {:induction false} EntryAt(c: Contents, n: nat, i: nat)
    requires i < n <= |c.order| && forall k | k in c.order :: k in c.entries
    ensures EntriesOf(c, n)[i] == Entry(c.order[i], c.entries[c.order[i]])
  {
    if i < n - 1 {
      EntryAt(c, n - 1, i);
    }
  }

  lemma OneMore(n: nat, size: nat)
    requires 0 < n
    ensures n * size == (n - 1) * size + size
  {
  }

  lemma {:induction false} UniformMemory(entries: seq<Entry>, dimension: nat)
    requires forall i | 0 <= i < |entries| :: |entries[i].embedding| == dimension
    ensures MemoryBytes(entries) == |entries| * EntryBytes(dimension)
  {
    if entries != [] {
      var n := |entries|;
      UniformMemory(entries[..n - 1], dimension);
      hide EntryBytes;
      OneMore(n, EntryBytes(dimension));
    }
  }

  /** Of well-formed entries of one dimension, the decoder takes as many as a cache may hold, and no more. */
  lemma DecoderTakesCapacity(entries: seq<Entry>, dimension: nat)
    requires 0 < dimension <= MAX_VECTOR_DIMENSION
    requires forall i | 0 <= i < |entries| ::
               |entries[i].embedding| == dimension && IsSha256Hex(entries[i].inputSha256)
    ensures EntriesAreBounded(entries) <==> |entries| <= Capacity(dimension, 4096)
  {
    CapacityIsTight(dimension, DEFAULT_MAX_ENTRIES);
    UniformMemory(entries, dimension);
    assert EntryBytes(dimension) == 4 * dimension + 256;
    hide Capacity, EntryBytes;
    var cap := Capacity(dimension, DEFAULT_MAX_ENTRIES);
    if |entries| <= cap {
      ProductsOrder(|entries|, cap, EntryBytes(dimension));
    } else {
      ProductsOrder(cap + 1, |entries|, EntryBytes(dimension));
    }
  }

  /** The bounded decoder never rejects what a cache within its capacity saved. */
  lemma DecoderAcceptsSaved(c: Contents, dimension: nat)
    requires Inv(c, dimension, Capacity(dimension, DEFAULT_MAX_ENTRIES))
    ensures EntriesAreBounded(EntriesOf(c, |c.order|))
  {
    var entries := EntriesOf(c, |c.order|);
    forall i | 0 <= i < |entries|
      ensures |entries[i].embedding| == dimension && IsSha256Hex(entries[i].inputSha256)
    {
      EntryAt(c, |c.order|, i);
      assert c.order[i] in c.entries;
    }
    if 0 < dimension <= MAX_VECTOR_DIMENSION {
      DecoderTakesCapacity(entries, dimension);
    }
  }

  /** The first `n` keys by age, with their values. */
  function Oldest(c: Contents, n: nat): Contents
    requires n <= |c.order|
  {
    Contents(c.order[..n], Restrict(c.entries, c.order[..n]))
  }

  lemma RestrictMore(m: map<Key, Vector>, order: seq<Key>, key: Key)
    requires key in m
    ensures Restrict(Restrict(m, order)[key := m[key]], order + [key]) == Restrict(m, order + [key])
  {
  }

  lemma PrefixGrows(c: Contents, n: nat, cap: nat)
    requires Consistent(c) && n < |c.order| <= cap
    ensures c.order[n] in c.entries
    ensures Inserted(Oldest(c, n), c.order[n], c.entries[c.order[n]], cap) == Oldest(c, n + 1)
  {
    var key := c.order[n];
    assert key in c.order;
    hide Distinct, Restrict, Push;
    PushNext(c.order, n, cap);
    RestrictMore(c.entries, c.order[..n], key);
  }

  lemma StoredAt(c: Contents, dimension: nat, cap: nat, i: nat)
    requires Inv(c, dimension, cap) && i < |c.order|
    ensures Consistent(c) && |c.order| <= cap && c.order[i] in c.entries
    ensures Storable(c.entries[c.order[i]], dimension) && IsSha256Hex(c.order[i])
  {
    assert c.order[i] in c.order;
    hide Storable, IsSha256Hex, Distinct;
  }

  lemma NothingRestored(c: Contents, dimension: nat, cap: nat)
    requires Inv(c, dimension, cap)
    ensures InsertAll(EntriesOf(c, 0), dimension, cap) == Oldest(c, 0)
  {
    hide Inv;
    assert c.order[..0] == [];
  }

  /** Inserting a saved cache's entries again rebuilds it, one key at a time. */
  lemma {:induction false} InsertAllRestores(c: Contents, dimension: nat, cap: nat, n: nat)
    requires Inv(c, dimension, cap) && n <= |c.order|
    ensures InsertAll(EntriesOf(c, n), dimension, cap) == Oldest(c, n)
  {
    hide Inv, Inserted, Oldest, Restrict, Distinct;
    if n == 0 {
      NothingRestored(c, dimension, cap);
    } else {
      StoredAt(c, dimension, cap, n - 1);
      InsertAllRestores(c, dimension, cap, n - 1);
      assert EntriesOf(c, n)[..n - 1] == EntriesOf(c, n - 1);
      PrefixGrows(c, n - 1, cap);
    }
  }

  lemma SavedIsFinite(c: Contents, dimension: nat, cap: nat, i: nat)
    requires Inv(c, dimension, cap) && i < |c.order|
    ensures AllFinite(EntriesOf(c, |c.order|)[i].embedding)
  {
    EntryAt(c, |c.order|, i);
    assert c.order[i] in c.entries;
  }

  lemma DocumentRestores(c: Contents, modelIdentity: string, dimension: nat)
    requires Inv(c, dimension, Capacity(dimension, DEFAULT_MAX_ENTRIES))
    ensures LoadedDocument(DocumentOf(modelIdentity, dimension, c), modelIdentity, dimension) == c
  {
    var cap := Capacity(dimension, DEFAULT_MAX_ENTRIES);
    DecoderAcceptsSaved(c, dimension);
    hide Capacity, EntriesAreBounded, EntriesOf, InsertAll;
    InsertAllRestores(c, dimension, cap, |c.order|);
    assert c.order[..|c.order|] == c.order;
    assert Restrict(c.entries, c.order) == c.entries;
  }

  lemma SavedIsParsed(c: Contents, codec: Codec, modelIdentity: string, dimension: nat, cap: nat)
    requires Inv(c, dimension, cap) && Lossless(codec)
    ensures var d := DocumentOf(modelIdentity, dimension, c);
            codec.parse(Flatten(codec.encode(d))) == Some(d)
  {
    var d := DocumentOf(modelIdentity, dimension, c);
    forall i | 0 <= i < |d.entries|
      ensures AllFinite(d.entries[i].embedding)
    {
      SavedIsFinite(c, dimension, cap, i);
    }
  }

  /**
   Saving any cache that keeps the invariant and loading the file under the same identity
   and dimension restores the same map in the same order.
   */
  lemma SaveThenLoad(c: Contents, codec: Codec, modelIdentity: string, dimension: nat)
    requires Inv(c, dimension, Capacity(dimension, DEFAULT_MAX_ENTRIES)) && Lossless(codec)
    ensures var bytes := Flatten(codec.encode(DocumentOf(modelIdentity, dimension, c)));
            |bytes| <= 32 * 1024 * 1024 ==> Loaded(File(|bytes|, bytes), codec, modelIdentity, dimension) == c
  {
    DocumentRestores(c, modelIdentity, dimension);
    SavedIsParsed(c, codec, modelIdentity, dimension, Capacity(dimension, DEFAULT_MAX_ENTRIES));
    if Capacity(dimension, DEFAULT_MAX_ENTRIES) == 0 {
      EmptyOrder(c, dimension, 0);
    }
    hide Inv, Capacity, LoadedDocument, Flatten, Lossless, Consistent;
  }

  /** A saved cache is restored under its own model and dimension, and gives nothing under any other. */
  lemma SavedElsewhere(
    c: Contents, codec: Codec, modelIdentity: string, dimension: nat, otherModel: string, otherDimension: nat)
    requires Inv(c, dimension, Capacity(dimension, DEFAULT_MAX_ENTRIES)) && Lossless(codec)
    ensures var bytes := Flatten(codec.encode(DocumentOf(modelIdentity, dimension, c)));
            |bytes| <= 32 * 1024 * 1024 ==>
              Loaded(File(|bytes|, bytes), codec, otherModel, otherDimension) ==
              if (otherModel, otherDimension) == (modelIdentity, dimension) then c else Contents([], map[])
  {
    hide Capacity, Loaded, Flatten, Lossless;
    SaveThenLoad(c, codec, modelIdentity, dimension);
    SavedIsParsed(c, codec, modelIdentity, dimension, Capacity(dimension, DEFAULT_MAX_ENTRIES));
    var bytes := Flatten(codec.encode(DocumentOf(modelIdentity, dimension, c)));
    var loaded := Loaded(File(|bytes|, bytes), codec, otherModel, otherDimension);
    LoadedKeepsInv(File(|bytes|, bytes), codec, otherModel, otherDimension);
    if loaded.order == [] {
      EmptyOrder(loaded, otherDimension, Capacity(otherDimension, DEFAULT_MAX_ENTRIES));
    } else {
      LoadedIsForThisModel(File(|bytes|, bytes), codec, otherModel, otherDimension);
    }
  }

  lemma EmptyOrder(c: Contents, dimension: nat, cap: nat)
    requires Inv(c, dimension, cap) && c.order == []
    ensures c == Contents([], map[])
  {
    assert c.entries == map[];
  }

  lemma SmallerCapacity(dimension: nat, requested: nat)
    ensures Capacity(dimension, requested) <= Capacity(dimension, DEFAULT_MAX_ENTRIES)
  {
  }

  // ---------------------------------------------------------------------- the object

  class Cache {
    const modelIdentity: string
    const dimension: nat
    const maxEntries: nat
    var entries: map<Key, Vector>
    var insertionOrder: seq<Key>

    ghost function Value(): Contents
      reads this
    {
      Contents(insertionOrder, entries)
    }

    ghost predicate Valid()
      reads this
    {
      Inv(Value(), dimension, maxEntries) && maxEntries <= Capacity(dimension, DEFAULT_MAX_ENTRIES)
    }

    constructor WithCapacity(modelIdentity: string, dimension: nat, maxEntries: nat)
      ensures Valid() && Value() == EMPTY
      ensures this.modelIdentity == modelIdentity && this.dimension == dimension
      ensures this.maxEntries == Capacity(dimension, maxEntries)
    {
      SmallerCapacity(dimension, maxEntries);
      this.modelIdentity := modelIdentity;
      this.dimension := dimension;
      this.maxEntries := Capacity(dimension, maxEntries);
      this.entries := map[];
      this.insertionOrder := [];
    }

    method Get(input: seq<byte>) returns (r: Option<Vector>)
      ensures r == if Digest(input) in entries then Some(entries[Digest(input)]) else None
    {
      r := if Digest(input) in entries then Some(entries[Digest(input)]) else None;
    }

    /** Refuses a vector the cache cannot hold; nothing changes then. */
    method Insert(input: seq<byte>, embedding: Vector) returns (admitted: bool)
      requires Valid()
      modifies this
      ensures Valid()
      ensures admitted <==> 0 < maxEntries && Storable(embedding, dimension)
      ensures Value() ==
              if admitted then Inserted(old(Value()), Digest(input), embedding, maxEntries) else old(Value())
    {
      if maxEntries == 0 || |embedding| != dimension || !AllFinite(embedding) {
        return false;
      }
      InsertHash(Digest(input), embedding);
      return true;
    }

    /** The eviction loop ends because the queue holds every key of the map. */
    method InsertHash(hash: Key, embedding: Vector)
      requires Valid() && Storable(embedding, dimension) && IsSha256Hex(hash)
      modifies this
      ensures Valid()
      ensures Value() == Inserted(old(Value()), hash, embedding, maxEntries)
    {
      hide Inv, Inserted, Consistent, Evicting, Capacity;
      ghost var was := Value();
      InsertedKeepsInv(was, hash, embedding, dimension, maxEntries);
      var known := hash in entries;
      entries := entries[hash := embedding];
      if !known {
        insertionOrder := insertionOrder + [hash];
      }
      ghost var queued, all := insertionOrder, entries;
      EvictionStarts(was, hash, embedding, dimension, maxEntries);
      while maxEntries < |entries|
        invariant Evicting(Value(), queued, all, maxEntries)
        decreases |insertionOrder|
      {
        EvictionStep(Value(), queued, all, maxEntries);
        if 0 < |insertionOrder| {
          var oldest := insertionOrder[0];
          insertionOrder := insertionOrder[1..];
          entries := entries - {oldest};
        }
      }
      EvictionEnds(was, hash, embedding, dimension, maxEntries, Value());
    }

    /** Entries in queue order. */
    method Persisted() returns (d: Document)
      requires Valid()
      ensures d == DocumentOf(modelIdentity, dimension, Value())
    {
      var saved: seq<Entry> := [];
      for i := 0 to |insertionOrder|
        invariant saved == EntriesOf(Value(), i)
      {
        if insertionOrder[i] in entries {
          saved := saved + [Entry(insertionOrder[i], entries[insertionOrder[i]])];
        }
      }
      d := Document(FORMAT_VERSION, PREPROCESSING_VERSION, modelIdentity, dimension, saved);
    }

    /** The file written, unless it would exceed the size limit. */
    method Save(codec: Codec) returns (r: Option<seq<byte>>)
      requires Valid()
      ensures var bytes := Flatten(codec.encode(DocumentOf(modelIdentity, dimension, Value())));
              r == if |bytes| <= 32 * 1024 * 1024 then Some(bytes) else None
    {
      var d := Persisted();
      r := LimitedWrite(codec.encode(d), MAX_CACHE_FILE_BYTES);
    }
  }

  method Load(stored: Stored, codec: Codec, modelIdentity: string, dimension: nat) returns (cache: Cache)
    ensures fresh(cache) && cache.Valid()
    ensures cache.modelIdentity == modelIdentity && cache.dimension == dimension
    ensures cache.maxEntries == Capacity(dimension, DEFAULT_MAX_ENTRIES)
    ensures cache.Value() == Loaded(stored, codec, modelIdentity, dimension)
    ensures cache.insertionOrder != [] ==> HoldsDocumentFor(stored, codec, modelIdentity, dimension)
  {
    cache := new Cache.WithCapacity(modelIdentity, dimension, DEFAULT_MAX_ENTRIES);
    if cache.maxEntries == 0 {
      return;
    }
    if stored.Missing? || stored.Unreadable? || MAX_CACHE_FILE_BYTES < stored.reported {
      return;
    }
    var read := stored.bytes[..Min(|stored.bytes|, MAX_CACHE_FILE_BYTES + 1)];
    if MAX_CACHE_FILE_BYTES < |read| {
      return;
    }
    assert read == stored.bytes;
    var parsed := codec.parse(read);
    if parsed.None? {
      return;
    }
    var entries := BoundedEntries(parsed.value.entries);
    if entries.None? || !Compatible(parsed.value, modelIdentity, dimension) {
      return;
    }
    Fill(cache, entries.value);
    if cache.insertionOrder != [] {
      LoadedIsForThisModel(stored, codec, modelIdentity, dimension);
    }
  }

  method Fill(cache: Cache, entries: seq<Entry>)
    requires cache.Valid() && cache.Value() == EMPTY
    modifies cache
    ensures cache.Valid()
    ensures cache.Value() == InsertAll(entries, cache.dimension, cache.maxEntries)
  {
    for i := 0 to |entries|
      invariant cache.Valid()
      invariant cache.Value() == InsertAll(entries[..i], cache.dimension, cache.maxEntries)
    {
      assert entries[..i + 1][..i] == entries[..i];
      var entry := entries[i];
      if Storable(entry.embedding, cache.dimension) && IsSha256Hex(entry.inputSha256) {
        cache.InsertHash(entry.inputSha256, entry.embedding);
      }
    }
    assert entries[..|entries|] == entries;
  }
}
