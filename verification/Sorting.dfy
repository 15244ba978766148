/** Stable sorting by any relation, and the order of names and paths. */
module Sorting {
  function Insert<T>(le: (T, T) -> bool, xs: seq<T>, x: T): (r: seq<T>)
    ensures |r| == |xs| + 1
  {
    if xs == [] then [x]
    else if le(xs[|xs| - 1], x) then xs + [x]
    else Insert(le, xs[..|xs| - 1], x) + [xs[|xs| - 1]]
  }

  /** The sorted sequence a stable sort leaves. */
  function Sort<T>(le: (T, T) -> bool, xs: seq<T>): (r: seq<T>)
    ensures |r| == |xs|
  {
    if xs == [] then [] else Insert(le, Sort(le, xs[..|xs| - 1]), xs[|xs| - 1])
  }

  ghost predicate TotalOrder<T(!new)>(le: (T, T) -> bool) {
    && (forall a, b :: le(a, b) || le(b, a))
    && (forall a, b, c :: le(a, b) && le(b, c) ==> le(a, c))
  }

  ghost predicate Ordered<T>(le: (T, T) -> bool, xs: seq<T>) {
    forall i, j | 0 <= i < j < |xs| :: le(xs[i], xs[j])
  }

  lemma {:induction false} InsertHolds<T>(le: (T, T) -> bool, xs: seq<T>, x: T)
    ensures multiset(Insert(le, xs, x)) == multiset(xs) + multiset{x}
  {
    if xs != [] {
      var front, last := xs[..|xs| - 1], xs[|xs| - 1];
      assert xs == front + [last];
      if !le(last, x) {
        InsertHolds(le, front, x);
      }
    }
  }

  lemma {:induction false} SortHolds<T>(le: (T, T) -> bool, xs: seq<T>)
    ensures multiset(Sort(le, xs)) == multiset(xs)
  {
    if xs != [] {
      var front, last := xs[..|xs| - 1], xs[|xs| - 1];
      assert xs == front + [last];
      SortHolds(le, front);
      InsertHolds(le, Sort(le, front), last);
    }
  }

  lemma {:induction false} InsertOrders<T(!new)>(le: (T, T) -> bool, xs: seq<T>, x: T)
    requires TotalOrder(le) && Ordered(le, xs)
    ensures Ordered(le, Insert(le, xs, x))
    ensures forall y | y in Insert(le, xs, x) :: y in xs || y == x
  {
    if xs != [] {
      var front, last := xs[..|xs| - 1], xs[|xs| - 1];
      if !le(last, x) {
        InsertOrders(le, front, x);
        var inner := Insert(le, front, x);
        forall i | 0 <= i < |inner|
          ensures le(inner[i], last)
        {
          assert inner[i] in inner;
        }
      }
    }
  }

  lemma {:induction false} SortOrders<T(!new)>(le: (T, T) -> bool, xs: seq<T>)
    requires TotalOrder(le)
    ensures Ordered(le, Sort(le, xs))
  {
    if xs != [] {
      SortOrders(le, xs[..|xs| - 1]);
      InsertOrders(le, Sort(le, xs[..|xs| - 1]), xs[|xs| - 1]);
    }
  }

  /** The last of a sorted sequence is the latest greatest element. */
  lemma SortLast<T>(le: (T, T) -> bool, xs: seq<T>, x: T)
    ensures var before, all := Sort(le, xs), Sort(le, xs + [x]);
            all[|all| - 1] == if xs == [] || le(before[|before| - 1], x) then x else before[|before| - 1]
  {
    assert (xs + [x])[..|xs|] == xs;
  }

  // -------------------------------------------------------------------- paths

  predicate NameAtMost(a: string, b: string) {
    a == "" || (b != "" && (a[0] < b[0] || (a[0] == b[0] && NameAtMost(a[1..], b[1..]))))
  }

  /** Component by component; a path comes before everything below it. */
  predicate PathAtMost(a: seq<string>, b: seq<string>) {
    a == [] ||
    (b != [] && if a[0] == b[0] then PathAtMost(a[1..], b[1..]) else NameAtMost(a[0], b[0]))
  }

  /** `a` ends, or has the smaller character, where the two first differ. */
  ghost predicate NameEndsFirst(a: string, b: string, k: nat) {
    && k <= |a| && k <= |b| && a[..k] == b[..k]
    && (k == |a| || (k < |b| && a[k] < b[k]))
  }

  /** Names compare lexicographically. */
  lemma {:induction false} NameOrderIs(a: string, b: string)
    ensures NameAtMost(a, b) <==> exists k: nat :: NameEndsFirst(a, b, k)
  {
    if a == "" {
      assert NameEndsFirst(a, b, 0);
    } else if b != "" && a[0] == b[0] {
      NameOrderIs(a[1..], b[1..]);
      if k: nat :| NameEndsFirst(a[1..], b[1..], k) {
        assert a[..k + 1] == [a[0]] + a[1..][..k] && b[..k + 1] == [b[0]] + b[1..][..k];
        assert NameEndsFirst(a, b, k + 1);
      }
      if k: nat :| NameEndsFirst(a, b, k) {
        assert a[1..][..k - 1] == a[..k][1..] && b[1..][..k - 1] == b[..k][1..];
        assert NameEndsFirst(a[1..], b[1..], k - 1);
      }
    } else if b != "" {
      assert a[0] < b[0] ==> NameEndsFirst(a, b, 0);
      assert forall k: nat | 0 < k <= |a| && k <= |b| :: a[..k][0] != b[..k][0];
    }
  }

  /** `a` ends, or has the smaller component, where the two first differ. */
  ghost predicate PathEndsFirst(a: seq<string>, b: seq<string>, k: nat) {
    && k <= |a| && k <= |b| && a[..k] == b[..k]
    && (k == |a| || (k < |b| && a[k] != b[k] && exists j: nat :: NameEndsFirst(a[k], b[k], j)))
  }

  lemma PathTail(a: seq<string>, b: seq<string>, k: nat)
    requires a != [] && b != [] && a[0] == b[0]
    ensures PathEndsFirst(a[1..], b[1..], k) <==> PathEndsFirst(a, b, k + 1)
    ensures !PathEndsFirst(a, b, 0)
  {
    hide NameEndsFirst;
    if k < |a| && k < |b| {
      assert a[..k + 1] == [a[0]] + a[1..][..k] && b[..k + 1] == [b[0]] + b[1..][..k];
      assert a[1..][..k] == a[..k + 1][1..] && b[1..][..k] == b[..k + 1][1..];
    }
  }

  /** Paths compare lexicographically by whole components, and components as names do. */
  lemma {:induction false} PathOrderIs(a: seq<string>, b: seq<string>)
    ensures PathAtMost(a, b) <==> exists k: nat :: PathEndsFirst(a, b, k)
  {
    hide NameAtMost, NameEndsFirst;
    if a == [] {
      assert PathEndsFirst(a, b, 0);
    } else if b != [] && a[0] == b[0] {
      PathOrderIs(a[1..], b[1..]);
      hide PathEndsFirst;
      if k: nat :| PathEndsFirst(a[1..], b[1..], k) {
        PathTail(a, b, k);
      }
      if k: nat :| PathEndsFirst(a, b, k) {
        PathTail(a, b, if k == 0 then 0 else k - 1);
      }
    } else if b != [] {
      NameOrderIs(a[0], b[0]);
      assert NameAtMost(a[0], b[0]) ==> PathEndsFirst(a, b, 0);
      assert forall k: nat | 0 < k <= |a| && k <= |b| :: a[..k][0] != b[..k][0];
    }
  }

  lemma {:induction false} NamesCompare(a: string, b: string)
    ensures NameAtMost(a, b) || NameAtMost(b, a)
    ensures NameAtMost(a, b) && NameAtMost(b, a) ==> a == b
  {
    if a != "" && b != "" {
      NamesCompare(a[1..], b[1..]);
      assert a == [a[0]] + a[1..] && b == [b[0]] + b[1..];
    }
  }

  lemma {:induction false} NamesChain(a: string, b: string, c: string)
    requires NameAtMost(a, b) && NameAtMost(b, c)
    ensures NameAtMost(a, c)
  {
    if a != "" && b[0] == a[0] && c[0] == b[0] {
      NamesChain(a[1..], b[1..], c[1..]);
    }
  }

  lemma {:induction false} PathsCompare(a: seq<string>, b: seq<string>)
    ensures PathAtMost(a, b) || PathAtMost(b, a)
  {
    if a != [] && b != [] {
      if a[0] == b[0] {
        PathsCompare(a[1..], b[1..]);
      } else {
        NamesCompare(a[0], b[0]);
      }
    }
  }

  lemma {:induction false} PathsChain(a: seq<string>, b: seq<string>, c: seq<string>)
    requires PathAtMost(a, b) && PathAtMost(b, c)
    ensures PathAtMost(a, c)
  {
    if a != [] {
      if a[0] == b[0] && b[0] == c[0] {
        PathsChain(a[1..], b[1..], c[1..]);
      } else if a[0] != b[0] && b[0] != c[0] {
        NamesChain(a[0], b[0], c[0]);
        NamesCompare(a[0], b[0]);
      }
    }
  }

  lemma PathOrderIsTotal()
    ensures TotalOrder(PathAtMost)
  {
    forall a, b
      ensures PathAtMost(a, b) || PathAtMost(b, a)
    {
      PathsCompare(a, b);
    }
    forall a, b, c | PathAtMost(a, b) && PathAtMost(b, c)
      ensures PathAtMost(a, c)
    {
      PathsChain(a, b, c);
    }
  }

  /** Siblings compare by name. */
  lemma {:induction false} SiblingsCompare(path: seq<string>, a: string, b: string)
    ensures PathAtMost(path + [a], path + [b]) <==> NameAtMost(a, b)
  {
    if path == [] {
      NamesCompare(a, a);
    } else {
      assert (path + [a])[1..] == path[1..] + [a] && (path + [b])[1..] == path[1..] + [b];
      SiblingsCompare(path[1..], a, b);
    }
  }
}
