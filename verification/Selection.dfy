/** Which of a symbol's segments are embedded: at most a fixed number, spread over it. */
module Selection {
  import opened Core

  /** The indices `from`, ..., `to - 1`. */
  function Indices(from: nat, to: nat): seq<nat>
    requires from <= to
  {
    seq(to - from, i requires 0 <= i => from + i)
  }

  lemma IndicesHold(from: nat, to: nat)
    requires from <= to
    ensures forall x: nat :: x in Indices(from, to) <==> from <= x < to
  {
    forall x: nat | from <= x < to
      ensures x in Indices(from, to)
    {
      assert Indices(from, to)[x - from] == x;
    }
  }

  /** `size` distinct indices below `len`, in increasing order. */
  ghost predicate Selects(chosen: seq<nat>, len: nat, size: nat) {
    && |chosen| == size
    && (forall i | 0 <= i < |chosen| :: chosen[i] < len)
    && (forall i, j | 0 <= i < j < |chosen| :: chosen[i] < chosen[j])
  }

  /** The first and the last indices, half of the limit each. */
  function SelectedIndices(len: nat, limit: nat): seq<nat> {
    if len <= limit then Indices(0, len)
    else
      var head := (limit + 1) / 2;
      Indices(0, head) + Indices(len - (limit - head), len)
  }

  lemma SelectedIndicesSelect(len: nat, limit: nat)
    ensures Selects(SelectedIndices(len, limit), len, Min(len, limit))
    ensures 2 <= limit && 0 < len ==>
              0 in SelectedIndices(len, limit) && len - 1 in SelectedIndices(len, limit)
  {
    var chosen := SelectedIndices(len, limit);
    if 2 <= limit && 0 < len {
      assert chosen[0] == 0 && chosen[|chosen| - 1] == len - 1;
    }
  }

  /** Of more indices than wanted, a prefix and a suffix: the prefix as long as the suffix, or one longer. */
  lemma SelectedIndicesAre(len: nat, limit: nat, i: nat)
    requires i < len
    ensures i in SelectedIndices(len, limit) <==>
            len <= limit || 2 * i < limit || 2 * (len - 1 - i) < limit - limit % 2
  {
    if len <= limit {
      IndicesHold(0, len);
    } else {
      IndicesHold(0, (limit + 1) / 2);
      IndicesHold(len - limit / 2, len);
    }
  }

  // ---- ordered sets

  /** The members of `s` below `n`, in increasing order. */
  function Ascending(s: set<nat>, n: nat): seq<nat> {
    if n == 0 then [] else Ascending(s, n - 1) + (if n - 1 in s then [n - 1] else [])
  }

  lemma {:induction false} AscendingOrder(s: set<nat>, n: nat)
    ensures forall x: nat :: x in Ascending(s, n) <==> x in s && x < n
    ensures forall i, j | 0 <= i < j < |Ascending(s, n)| :: Ascending(s, n)[i] < Ascending(s, n)[j]
  {
    if n > 0 {
      AscendingOrder(s, n - 1);
      var front := Ascending(s, n - 1);
      forall i | 0 <= i < |front|
        ensures front[i] < n - 1
      {
        assert front[i] in front;
      }
    }
  }

  lemma {:induction false} AscendingSize(s: set<nat>, n: nat)
    requires forall x | x in s :: x < n
    ensures |Ascending(s, n)| == |s|
  {
    if n == 0 {
      assert s == {};
    } else {
      var rest := s - {n - 1};
      AscendingSize(rest, n - 1);
      AscendingSame(s, rest, n - 1);
    }
  }

  lemma {:induction false} AscendingSame(s: set<nat>, t: set<nat>, n: nat)
    requires forall x: nat | x < n :: x in s <==> x in t
    ensures Ascending(s, n) == Ascending(t, n)
  {
    if n > 0 {
      AscendingSame(s, t, n - 1);
    }
  }

  lemma AscendingSelects(s: set<nat>, n: nat)
    requires forall x | x in s :: x < n
    ensures Selects(Ascending(s, n), n, |s|)
  {
    AscendingOrder(s, n);
    AscendingSize(s, n);
    forall i | 0 <= i < |Ascending(s, n)|
      ensures Ascending(s, n)[i] < n
    {
      assert Ascending(s, n)[i] in Ascending(s, n);
    }
  }

  lemma {:induction false} AllBelow(s: set<nat>, n: nat)
    requires forall x: nat :: x in s <==> x < n
    ensures |s| == n
  {
    if n == 0 {
      assert s == {};
    } else {
      AllBelow(s - {n - 1}, n - 1);
    }
  }

  /**
   Inserts candidates in order until `limit` are distinct. Candidate `k` always makes it
   when `k` is below the limit.
   */
  method FirstDistinct(candidates: seq<nat>, limit: nat) returns (chosen: set<nat>)
    requires 0 < limit
    ensures forall x | x in chosen :: x in candidates
    ensures |chosen| <= limit
    ensures |chosen| < limit ==> forall x | x in candidates :: x in chosen
    ensures forall k | 0 <= k < |candidates| && k < limit :: candidates[k] in chosen
    ensures FirstOf(candidates, limit, chosen)
  {
    chosen := {};
    for i := 0 to |candidates|
      invariant forall x | x in chosen :: x in candidates
      invariant |chosen| <= i && |chosen| < limit
      invariant forall k | 0 <= k < i :: candidates[k] in chosen
      invariant chosen == Elements(candidates[..i])
    {
      chosen := chosen + {candidates[i]};
      assert candidates[..i + 1] == candidates[..i] + [candidates[i]];
      if |chosen| == limit {
        assert PrefixOf(candidates, i + 1, limit, chosen);
        return;
      }
    }
    assert PrefixOf(candidates, |candidates|, limit, chosen);
  }

  /** The members of the first `n` candidates: as many as wanted, or all there are. */
  ghost predicate PrefixOf(candidates: seq<nat>, n: nat, limit: nat, chosen: set<nat>) {
    && n <= |candidates| && chosen == Elements(candidates[..n])
    && (|chosen| == limit || n == |candidates|)
  }

  /** The first `limit` distinct candidates; the definition leaves only one such set. */
  ghost predicate FirstOf(candidates: seq<nat>, limit: nat, chosen: set<nat>) {
    |chosen| <= limit && exists n: nat :: PrefixOf(candidates, n, limit, chosen)
  }

  lemma FirstIsUnique(candidates: seq<nat>, limit: nat, a: set<nat>, b: set<nat>)
    requires FirstOf(candidates, limit, a) && FirstOf(candidates, limit, b)
    ensures a == b
  {
    var n: nat :| PrefixOf(candidates, n, limit, a);
    var m: nat :| PrefixOf(candidates, m, limit, b);
    if n <= m {
      PrefixGrows(candidates, n, m);
      SameSize(a, b);
    } else {
      PrefixGrows(candidates, m, n);
      SameSize(b, a);
    }
  }

  lemma PrefixGrows(candidates: seq<nat>, n: nat, m: nat)
    requires n <= m <= |candidates|
    ensures Elements(candidates[..n]) <= Elements(candidates[..m])
  {
    assert candidates[..m] == candidates[..n] + candidates[n..m];
  }

  lemma SameSize(a: set<nat>, b: set<nat>)
    requires a <= b && (|b| <= |a| || a == b)
    ensures a == b
  {
    if x :| x in b && x !in a {
      SubsetSize(a, b - {x});
    }
  }

  /** A limit's worth of evenly spaced indices. */
  function Spread(len: nat, limit: nat): seq<nat>
    requires 0 < len
  {
    seq(limit, (i: nat) => SpreadAt(len, limit, i))
  }

  function SpreadAt(len: nat, limit: nat, i: nat): nat
    requires 0 < len
  {
    i * (len - 1) / (if limit < 2 then 1 else limit - 1)
  }

  lemma SpreadBelow(len: nat, limit: nat, i: nat)
    requires 0 < len && i < limit
    ensures SpreadAt(len, limit, i) <= len - 1
  {
    if 2 <= limit {
      DivisionBound(i, limit - 1, len - 1);
    }
  }

  lemma DivisionBound(i: nat, d: nat, q: nat)
    requires 0 < d && i <= d
    ensures i * q / d <= q
  {
    ProductsOrder(i, d, q);
    var r := i * q / d;
    assert d * r <= i * q;
    if q < r {
      ProductsOrder(q + 1, r, d);
    }
  }

  lemma QuotientBounds(a: nat, d: nat)
    requires 0 < d
    ensures a / d * d <= a < (a / d + 1) * d
  {
  }

  lemma QuotientIs(a: nat, d: nat, low: nat, high: nat)
    requires 0 < d && low * d <= a < (high + 1) * d
    ensures low <= a / d <= high
  {
    QuotientBounds(a, d);
    if a / d < low {
      ProductsOrder(a / d + 1, low, d);
    } else if high < a / d {
      ProductsOrder(high + 1, a / d, d);
    }
  }

  lemma SumBetween(a: nat, q: nat, d: nat, x: nat, y: nat)
    requires x * d <= a < (x + 1) * d && y * d <= q < (y + 1) * d
    ensures (x + y) * d <= a + q < (x + y + 1 + 1) * d
  {
    Distributes(x, y, d);
    Distributes(x + 1, y + 1, d);
    assert x + 1 + (y + 1) == x + y + 1 + 1;
  }

  lemma StepOfDivision(a: nat, q: nat, d: nat)
    requires 0 < d
    ensures q / d <= (a + q) / d - a / d <= q / d + 1
  {
    var x, y := a / d, q / d;
    QuotientBounds(a, d);
    QuotientBounds(q, d);
    SumBetween(a, q, d, x, y);
    QuotientIs(a + q, d, x + y, x + y + 1);
  }

  lemma Distributes(x: nat, y: nat, d: nat)
    ensures (x + y) * d == x * d + y * d
  {
  }

  /** The spread runs from the first index to the last, in steps that differ by at most one. */
  lemma SpreadIsEven(len: nat, limit: nat, i: nat)
    requires 0 < len && 2 <= limit && i < limit
    ensures SpreadAt(len, limit, 0) == 0 && SpreadAt(len, limit, limit - 1) == len - 1
    ensures i + 1 < limit ==>
              (len - 1) / (limit - 1) <= SpreadAt(len, limit, i + 1) - SpreadAt(len, limit, i)
              <= (len - 1) / (limit - 1) + 1
  {
    WholeMultiple(limit - 1, len - 1);
    assert (i + 1) * (len - 1) == i * (len - 1) + (len - 1);
    StepOfDivision(i * (len - 1), len - 1, limit - 1);
  }

  lemma WholeMultiple(d: nat, q: nat)
    requires 0 < d
    ensures d * q / d == q
  {
    assert q * d == d * q && (q + 1) * d == d * q + d;
    QuotientIs(d * q, d, q, q);
  }

  /** First, last and middle, then evenly spaced ones, then whatever is left. */
  function DistributedCandidates(len: nat, limit: nat): seq<nat>
    requires 0 < len
  {
    [0, len - 1, len / 2] + Spread(len, limit) + Indices(0, len)
  }

  /** Every index when they fit, otherwise the first distinct candidates. */
  ghost predicate IsDistributed(chosen: seq<nat>, len: nat, limit: nat) {
    && Selects(chosen, len, Min(len, limit))
    && (0 < limit < len ==> FirstOf(DistributedCandidates(len, limit), limit, Elements(chosen)))
  }

  method DistributedIndices(len: nat, limit: nat) returns (chosen: seq<nat>)
    ensures IsDistributed(chosen, len, limit)
    ensures 2 <= limit && 0 < len ==> 0 in chosen && len - 1 in chosen
    ensures 3 <= limit && 0 < len ==> len / 2 in chosen
    ensures 0 < len ==> forall i: nat | i + 3 < limit :: SpreadAt(len, limit, i) in chosen
  {
    hide SpreadAt, FirstOf;
    if len <= limit {
      IndicesHold(0, len);
      chosen := Indices(0, len);
      SpreadWithin(len, limit);
      return;
    }
    if limit == 0 {
      return [];
    }
    var candidates := DistributedCandidates(len, limit);
    CandidatesBelow(len, limit);
    var distinct := FirstDistinct(candidates, limit);
    assert candidates[0] == 0 && candidates[1] == len - 1 && candidates[2] == len / 2;
    if |distinct| < limit {
      IndicesHold(0, len);
      AllBelow(distinct, len);
    }
    AscendingSelects(distinct, len);
    AscendingOrder(distinct, len);
    chosen := Ascending(distinct, len);
    assert Elements(chosen) == distinct;
    SpreadIsIn(len, limit, distinct);
  }

  lemma SpreadIsIn(len: nat, limit: nat, distinct: set<nat>)
    requires 0 < len
    requires var candidates := DistributedCandidates(len, limit);
             forall k | 0 <= k < |candidates| && k < limit :: candidates[k] in distinct
    ensures forall i: nat | i + 3 < limit :: SpreadAt(len, limit, i) in distinct
  {
    hide SpreadAt;
    var candidates := DistributedCandidates(len, limit);
    forall i: nat | i + 3 < limit
      ensures SpreadAt(len, limit, i) in distinct
    {
      assert candidates[3 + i] == SpreadAt(len, limit, i);
    }
  }

  lemma SpreadWithin(len: nat, limit: nat)
    ensures 0 < len ==> forall i: nat | i < limit :: SpreadAt(len, limit, i) < len
  {
    if 0 < len {
      forall i: nat | i < limit
        ensures SpreadAt(len, limit, i) < len
      {
        SpreadBelow(len, limit, i);
      }
    }
  }

  lemma CandidatesBelow(len: nat, limit: nat)
    requires limit < len
    ensures var candidates := DistributedCandidates(len, limit);
            forall i | 0 <= i < |candidates| :: candidates[i] < len
  {
    forall i | 0 <= i < limit
      ensures Spread(len, limit)[i] < len
    {
      SpreadBelow(len, limit, i);
    }
  }

  /** The middle segment first, then the ends, then an even spread over the rest. */
  function CentreCandidates(len: nat, centre: Option<nat>, spread: seq<nat>): seq<nat> {
    (if centre.Some? then [centre.value] else []) + (if 0 < len then [0, len - 1] else []) + spread
  }

  ghost predicate IsCentred(chosen: seq<nat>, len: nat, centre: Option<nat>, limit: nat) {
    && Selects(chosen, len, Min(len, limit))
    && exists spread ::
      IsDistributed(spread, len, limit) && FirstOf(CentreCandidates(len, centre, spread), limit, Elements(chosen))
  }

  lemma {:induction false} AscendingAgree(a: seq<nat>, b: seq<nat>)
    requires forall i, j | 0 <= i < j < |a| :: a[i] < a[j]
    requires forall i, j | 0 <= i < j < |b| :: b[i] < b[j]
    requires Elements(a) == Elements(b)
    ensures a == b
  {
    ElementsCount(a);
    ElementsCount(b);
    if a != [] {
      FrontElements(a);
      FrontElements(b);
      LastIsGreatest(a, b);
      LastIsGreatest(b, a);
      AscendingAgree(a[..|a| - 1], b[..|b| - 1]);
      assert a == a[..|a| - 1] + [a[|a| - 1]] && b == b[..|b| - 1] + [b[|b| - 1]];
    }
  }

  lemma FrontElements(a: seq<nat>)
    requires a != [] && forall i, j | 0 <= i < j < |a| :: a[i] < a[j]
    ensures Elements(a[..|a| - 1]) == Elements(a) - {a[|a| - 1]}
  {
    assert a == a[..|a| - 1] + [a[|a| - 1]];
  }

  lemma LastIsGreatest(a: seq<nat>, b: seq<nat>)
    requires a != [] && b != [] && Elements(a) == Elements(b)
    requires forall i, j | 0 <= i < j < |b| :: b[i] < b[j]
    ensures a[|a| - 1] <= b[|b| - 1]
  {
    var x := a[|a| - 1];
    assert x in Elements(a);
    var i :| 0 <= i < |b| && b[i] == x;
  }

  lemma SelectsAgree(a: seq<nat>, b: seq<nat>, len: nat, size: nat)
    requires Selects(a, len, size) && Selects(b, len, size) && Elements(a) == Elements(b)
    ensures a == b
  {
    AscendingAgree(a, b);
  }

  lemma {:induction false} FullSelection(a: seq<nat>, len: nat, k: nat)
    requires Selects(a, len, len) && k < len
    ensures a[k] == k
  {
    AtLeastIndex(a, k);
    AtMostIndex(a, len, k);
  }

  lemma {:induction false} AtLeastIndex(a: seq<nat>, k: nat)
    requires k < |a| && forall i, j | 0 <= i < j < |a| :: a[i] < a[j]
    ensures k <= a[k]
  {
    if 0 < k {
      AtLeastIndex(a, k - 1);
    }
  }

  lemma {:induction false} AtMostIndex(a: seq<nat>, len: nat, k: nat)
    requires Selects(a, len, len) && k < len
    ensures a[k] <= k
    decreases len - k
  {
    if k + 1 < len {
      AtMostIndex(a, len, k + 1);
    }
  }

  /** The spread, and with it the selection around a centre, has one possible result. */
  lemma DistributedIsUnique(a: seq<nat>, b: seq<nat>, len: nat, limit: nat)
    requires IsDistributed(a, len, limit) && IsDistributed(b, len, limit)
    ensures a == b
  {
    hide FirstOf;
    if limit < len {
      if 0 < limit {
        FirstIsUnique(DistributedCandidates(len, limit), limit, Elements(a), Elements(b));
      }
      SelectsAgree(a, b, len, limit);
    } else {
      forall k | 0 <= k < len
        ensures a[k] == b[k]
      {
        FullSelection(a, len, k);
        FullSelection(b, len, k);
      }
    }
  }

  lemma CentredIsUnique(a: seq<nat>, b: seq<nat>, len: nat, centre: Option<nat>, limit: nat)
    requires IsCentred(a, len, centre, limit) && IsCentred(b, len, centre, limit)
    ensures a == b
  {
    hide IsDistributed, FirstOf;
    var s :| IsDistributed(s, len, limit) && FirstOf(CentreCandidates(len, centre, s), limit, Elements(a));
    var t :| IsDistributed(t, len, limit) && FirstOf(CentreCandidates(len, centre, t), limit, Elements(b));
    DistributedIsUnique(s, t, len, limit);
    FirstIsUnique(CentreCandidates(len, centre, s), limit, Elements(a), Elements(b));
    AscendingAgree(a, b);
  }

  /** The spread itself, or with a centre outside it in the place of its last member but one. */
  ghost predicate MakesRoom(chosen: seq<nat>, spread: seq<nat>, centre: Option<nat>) {
    && 2 <= |spread|
    && Elements(chosen) ==
       if centre.Some? && centre.value !in spread
       then Elements(spread) - {spread[|spread| - 2]} + {centre.value}
       else Elements(spread)
  }

  lemma CentreReplaces(chosen: seq<nat>, spread: seq<nat>, len: nat, centre: Option<nat>, limit: nat)
    requires 3 <= limit < len && IsDistributed(spread, len, limit) && 0 in spread && len - 1 in spread
    requires FirstOf(CentreCandidates(len, centre, spread), limit, Elements(chosen))
    ensures MakesRoom(chosen, spread, centre)
  {
    hide FirstOf;
    var candidates := CentreCandidates(len, centre, spread);
    SpreadEnds(spread, len, limit);
    if centre.Some? && centre.value !in spread {
      CentreGoesIn(spread, len, centre.value, limit);
      FirstIsUnique(candidates, limit, Elements(chosen), Elements(spread) - {spread[limit - 2]} + {centre.value});
    } else {
      SpreadStays(spread, len, centre, limit);
      FirstIsUnique(candidates, limit, Elements(chosen), Elements(spread));
    }
  }

  lemma SpreadEnds(spread: seq<nat>, len: nat, limit: nat)
    requires 3 <= limit < len && Selects(spread, len, limit) && 0 in spread && len - 1 in spread
    ensures spread[0] == 0 && spread[limit - 1] == len - 1 && |Elements(spread)| == limit
  {
    ElementsCount(spread);
    var i :| 0 <= i < |spread| && spread[i] == 0;
    var j :| 0 <= j < |spread| && spread[j] == len - 1;
  }

  lemma SpreadStays(spread: seq<nat>, len: nat, centre: Option<nat>, limit: nat)
    requires |Elements(spread)| == limit && 0 in spread && len - 1 in spread
    requires centre.Some? ==> centre.value in spread
    ensures FirstOf(CentreCandidates(len, centre, spread), limit, Elements(spread))
  {
    var candidates := CentreCandidates(len, centre, spread);
    assert candidates[..|candidates|] == candidates && Elements(candidates) == Elements(spread);
    assert PrefixOf(candidates, |candidates|, limit, Elements(spread));
  }

  lemma WithoutOne(spread: seq<nat>, limit: nat, last: nat, centre: nat)
    requires 3 <= limit == |spread| && spread[0] == 0 && spread[limit - 1] == last
    requires forall i, j | 0 <= i < j < |spread| :: spread[i] < spread[j]
    ensures Elements([centre, 0, last] + spread[..limit - 2]) == Elements(spread) - {spread[limit - 2]} + {centre}
  {
    var front, next := spread[..limit - 2], spread[limit - 2];
    assert front[0] == 0 && next !in front && next != last;
    assert spread == front + [next, last];
    forall x
      ensures x in spread <==> x in front || x == next || x == last
    {
    }
  }

  lemma OneForAnother(spread: seq<nat>, k: nat, centre: nat)
    requires k < |spread| && centre !in spread
    ensures |Elements(spread) - {spread[k]} + {centre}| == |Elements(spread)|
  {
    assert spread[k] in Elements(spread);
  }

  lemma CandidatesBeyond(spread: seq<nat>, len: nat, centre: nat, k: nat)
    requires 0 < len && k <= |spread|
    ensures k + 3 <= |CentreCandidates(len, Some(centre), spread)|
    ensures CentreCandidates(len, Some(centre), spread)[..k + 3] == [centre, 0, len - 1] + spread[..k]
  {
  }

  lemma CentreGoesIn(spread: seq<nat>, len: nat, centre: nat, limit: nat)
    requires 3 <= limit < len && Selects(spread, len, limit) && centre !in spread
    requires spread[0] == 0 && spread[limit - 1] == len - 1 && |Elements(spread)| == limit
    ensures FirstOf(CentreCandidates(len, Some(centre), spread), limit,
                    Elements(spread) - {spread[limit - 2]} + {centre})
  {
    hide Elements, CentreCandidates;
    WithoutOne(spread, limit, len - 1, centre);
    OneForAnother(spread, limit - 2, centre);
    CandidatesBeyond(spread, len, centre, limit - 2);
    var members := Elements(spread) - {spread[limit - 2]} + {centre};
    assert PrefixOf(CentreCandidates(len, Some(centre), spread), limit + 1, limit, members);
  }

  method CentreFirst(len: nat, centre: Option<nat>, limit: nat) returns (chosen: seq<nat>)
    requires centre.Some? ==> centre.value < len
    requires 0 < limit
    ensures Selects(chosen, len, Min(len, limit))
    ensures centre.Some? ==> centre.value in chosen
    ensures 3 <= limit && 0 < len ==> 0 in chosen && len - 1 in chosen
    ensures IsCentred(chosen, len, centre, limit)
    ensures 3 <= limit < len ==>
              exists spread :: IsDistributed(spread, len, limit) && MakesRoom(chosen, spread, centre)
  {
    hide FirstOf, Spread, Indices, MakesRoom;
    var spread := DistributedIndices(len, limit);
    var candidates := CentreCandidates(len, centre, spread);
    var distinct := FirstDistinct(candidates, limit);
    assert centre.Some? ==> candidates[0] == centre.value;
    var ends := if centre.Some? then 1 else 0;
    assert 0 < len ==> candidates[ends] == 0 && candidates[ends + 1] == len - 1;
    SpreadFits(spread, distinct, candidates, len, limit);
    AscendingSelects(distinct, len);
    AscendingOrder(distinct, len);
    chosen := Ascending(distinct, len);
    assert Elements(chosen) == distinct;
    if 3 <= limit < len {
      CentreReplaces(chosen, spread, len, centre, limit);
    }
  }

  lemma SpreadFits(spread: seq<nat>, distinct: set<nat>, candidates: seq<nat>, len: nat, limit: nat)
    requires Selects(spread, len, Min(len, limit)) && |distinct| <= limit
    requires forall x | x in spread :: x in candidates
    requires forall x | x in candidates :: x < len
    requires forall x | x in distinct :: x in candidates
    requires |distinct| < limit ==> forall x | x in candidates :: x in distinct
    ensures |distinct| == Min(len, limit)
    ensures forall x | x in distinct :: x < len
  {
    var members := Elements(spread);
    ElementsCount(spread);
    if |distinct| < limit {
      assert members <= distinct;
      SubsetSize(members, distinct);
    }
    var all := Elements(Indices(0, len));
    IndicesHold(0, len);
    AllBelow(all, len);
    assert distinct <= all;
    SubsetSize(distinct, all);
  }

  lemma {:induction false} ElementsCount(s: seq<nat>)
    requires forall i, j | 0 <= i < j < |s| :: s[i] < s[j]
    ensures |Elements(s)| == |s|
  {
    if s != [] {
      var front, last := s[..|s| - 1], s[|s| - 1];
      ElementsCount(front);
      assert s == front + [last];
      assert Elements(s) == Elements(front) + {last};
      assert last !in front;
    }
  }

  lemma {:induction false} SubsetSize(a: set<nat>, b: set<nat>)
    requires a <= b
    ensures |a| <= |b|
  {
    if x :| x in a {
      SubsetSize(a - {x}, b - {x});
    }
  }
}
