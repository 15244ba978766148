/** First-in-first-out queues without repetition, bounded by a capacity. */
module FifoOrder {
  import opened Core

  ghost predicate Distinct<T>(xs: seq<T>) {
    forall i, j | 0 <= i < j < |xs| :: xs[i] != xs[j]
  }

  /** The last `cap` elements, or all of them. */
  function LastN<T>(xs: seq<T>, cap: nat): (r: seq<T>)
    ensures |r| == Min(|xs|, cap)
  {
    xs[|xs| - Min(|xs|, cap)..]
  }

  /** A new element goes to the back and may push the front out; a known one changes nothing. */
  function Push<T(==)>(order: seq<T>, x: T, cap: nat): seq<T> {
    if x in order then order else LastN(order + [x], cap)
  }

  function PushAll<T(==)>(order: seq<T>, xs: seq<T>, cap: nat): seq<T> {
    if xs == [] then order else Push(PushAll(order, xs[..|xs| - 1], cap), xs[|xs| - 1], cap)
  }

  // --------------------------------------------------------------------- distinct

  lemma {:induction false} DistinctSize<T>(xs: seq<T>)
    requires Distinct(xs)
    ensures |Elements(xs)| == |xs|
  {
    if xs != [] {
      var front := xs[..|xs| - 1];
      DistinctSize(front);
      assert Elements(xs) == Elements(front) + {xs[|xs| - 1]};
      assert xs[|xs| - 1] !in front;
    }
  }

  lemma DistinctSlice<T>(xs: seq<T>, i: nat, j: nat)
    requires Distinct(xs) && i <= j <= |xs|
    ensures Distinct(xs[i..j])
  {
  }

  lemma DistinctAppend<T>(xs: seq<T>, x: T)
    requires Distinct(xs) && x !in xs
    ensures Distinct(xs + [x])
  {
  }

  /** An element of a distinct sequence is on one side of a cut only. */
  lemma DistinctCut<T>(xs: seq<T>, cut: nat, x: T)
    requires Distinct(xs) && cut <= |xs| && x in xs[cut..]
    ensures x !in xs[..cut]
  {
  }

  // ------------------------------------------------------------------------- push

  lemma PushKeeps<T>(order: seq<T>, x: T, cap: nat)
    requires Distinct(order) && |order| <= cap
    ensures Distinct(Push(order, x, cap)) && |Push(order, x, cap)| <= cap
  {
    if x !in order {
      DistinctAppend(order, x);
      DistinctSlice(order + [x], |order| + 1 - Min(|order| + 1, cap), |order| + 1);
    }
  }

  /** Pushing is queueing what is new and keeping the last `cap`. */
  lemma PushIsLastN<T>(order: seq<T>, x: T, cap: nat)
    requires |order| <= cap
    ensures Push(order, x, cap) == LastN(if x in order then order else order + [x], cap)
  {
    assert LastN(order, cap) == order;
  }

  lemma PushWithRoom<T>(order: seq<T>, x: T, cap: nat)
    requires x !in order && |order| < cap
    ensures Push(order, x, cap) == order + [x]
  {
  }

  lemma PushWhenFull<T>(order: seq<T>, x: T, cap: nat)
    requires x !in order && |order| == cap && 0 < cap
    ensures Push(order, x, cap) == order[1..] + [x] == (order + [x])[1..]
    ensures (order + [x])[0] == order[0]
  {
  }

  /** A common end of a queue that holds as much as fits is its last `cap`. */
  lemma SuffixIsLastN<T>(queued: seq<T>, order: seq<T>, cap: nat)
    requires Min(|queued|, cap) <= |order| <= |queued| && |order| <= cap
    requires order == queued[|queued| - |order|..]
    ensures order == LastN(queued, cap)
  {
  }

  /** Pushing the next element of a distinct sequence within capacity extends the prefix. */
  lemma PushNext<T>(order: seq<T>, n: nat, cap: nat)
    requires Distinct(order) && n < |order| <= cap
    ensures order[..n + 1] == order[..n] + [order[n]]
    ensures Push(order[..n], order[n], cap) == order[..n + 1]
  {
    assert order[n] !in order[..n];
    assert order[..n + 1] == order[..n] + [order[n]];
  }

  /** Only what is pushed can enter. */
  lemma {:induction false} PushAllAdds<T>(order: seq<T>, xs: seq<T>, cap: nat, x: T)
    requires x in PushAll(order, xs, cap)
    ensures x in order || x in xs
  {
    if xs != [] {
      var earlier := PushAll(order, xs[..|xs| - 1], cap);
      if x in earlier {
        PushAllAdds(order, xs[..|xs| - 1], cap, x);
      }
    }
  }

  lemma LastNOfMore<T>(xs: seq<T>, x: T, cap: nat)
    ensures LastN(LastN(xs, cap) + [x], cap) == LastN(xs + [x], cap)
  {
  }

  /** New, distinct elements leave the last `cap` of everything queued. */
  lemma {:induction false} PushAllFresh<T>(order: seq<T>, xs: seq<T>, cap: nat)
    requires |order| <= cap && Distinct(xs)
    requires forall k | 0 <= k < |xs| :: xs[k] !in order
    ensures PushAll(order, xs, cap) == LastN(order + xs, cap)
  {
    if xs == [] {
      assert order + xs == order;
    } else {
      var front, last := xs[..|xs| - 1], xs[|xs| - 1];
      PushAllFresh(order, front, cap);
      var earlier := PushAll(order, front, cap);
      if last in earlier {
        PushAllAdds(order, front, cap, last);
      }
      LastNOfMore(order + front, last, cap);
      assert order + front + [last] == order + xs;
    }
  }
}
