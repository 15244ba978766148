/**
 The bounded inventory of Git repositories below a directory: depth first with a work
 stack, under limits on directories, depth, repositories and entries.
 */
module Inventory {
  import opened Core
  import opened Sorting

  const MAX_DIRECTORIES: nat := 4096
  const MAX_DEPTH: nat := 6
  const MAX_REPOSITORIES: nat := 256
  const MAX_ENTRIES: nat := 50_000

  type Path = seq<string>

  /** What asking for `.git` gives. */
  datatype Marker = Present | Absent | MarkerFails

  /** A directory as the file system shows it; reading any part of it may fail. */
  datatype Dir = Dir(marker: Marker, listing: Listing)

  datatype Listing = Unreadable | Entries(entries: seq<Child>)

  datatype Child =
    | Subdirectory(name: string, dir: Dir)
    | OtherFile(name: string)
    | EntryFails

  const IGNORED: set<string> :=
    {"node_modules", "vendor", "target", "build", "dist", "coverage", "venv", "__pycache__"}

  predicate IgnoredDirectory(name: string) {
    (name != "" && name[0] == '.') || name in IGNORED
  }

  /** Hidden directories and those of dependencies and build output. */
  lemma IgnoredIs(name: string)
    ensures IgnoredDirectory(name) <==>
            || (exists rest :: name == "." + rest)
            || name in ["node_modules", "vendor", "target", "build", "dist", "coverage", "venv", "__pycache__"]
  {
    if name != "" {
      assert name == [name[0]] + name[1..];
    }
  }

  // -------------------------------------------------------------------- reference

  /** What lies below a directory: repositories, directories, entries read, faults and depth. */
  datatype Tally = Tally(repositories: multiset<Path>, directories: nat, entries: nat, faulty: bool, deep: bool)

  const NOTHING := Tally(multiset{}, 0, 0, false, false)

  function Add(a: Tally, b: Tally): Tally {
    Tally(
      a.repositories + b.repositories,
      a.directories + b.directories,
      a.entries + b.entries,
      a.faulty || b.faulty,
      a.deep || b.deep)
  }

  ghost predicate AtMost(a: Tally, b: Tally) {
    && a.repositories <= b.repositories
    && a.directories <= b.directories
    && a.entries <= b.entries
    && (a.faulty ==> b.faulty)
    && (a.deep ==> b.deep)
  }

  /** A directory and everything reachable below it without entering a Git directory other than the root. */
  function Below(d: Dir, path: Path, depth: nat): Tally
    decreases d, 1, 0
  {
    Add(OfDirectory(d, path),
        if d.marker.Present? && path != [] then NOTHING
        else if d.listing.Unreadable? then FAULT
        else BelowFirst(d, |d.listing.entries|, path, depth))
  }

  const FAULT := Tally(multiset{}, 0, 0, true, false)

  function OfDirectory(d: Dir, path: Path): Tally {
    Tally(if d.marker.Present? then multiset{path} else multiset{}, 1, 0, d.marker.MarkerFails?, false)
  }

  /** The first `n` entries of a listing and everything below them. */
  function BelowFirst(d: Dir, n: nat, path: Path, depth: nat): Tally
    requires d.listing.Entries? && n <= |d.listing.entries|
    decreases d, 0, n
  {
    if n == 0 then NOTHING
    else Add(BelowFirst(d, n - 1, path, depth), BelowEntry(d, n - 1, path, depth))
  }

  /** One entry of a listing and everything below it. */
  function BelowEntry(d: Dir, i: nat, path: Path, depth: nat): Tally
    requires d.listing.Entries? && i < |d.listing.entries|
    decreases d, 0, i
  {
    var entry := d.listing.entries[i];
    Add(OfEntry(entry, depth),
        if Entered(entry) then Below(entry.dir, path + [entry.name], depth + 1) else NOTHING)
  }

  predicate Entered(c: Child) {
    c.Subdirectory? && !IgnoredDirectory(c.name)
  }

  function OfEntry(c: Child, depth: nat): Tally {
    Tally(multiset{}, 0, 1, c.EntryFails?, Entered(c) && 6 <= depth)
  }

  /** The entered one of the first `n` entries whose name sorts last. */
  function LastEntered(d: Dir, n: nat): (last: Option<nat>)
    requires d.listing.Entries? && n <= |d.listing.entries|
    ensures last.Some? ==> last.value < n && Entered(d.listing.entries[last.value])
  {
    if n == 0 then None
    else
      var before, c := LastEntered(d, n - 1), d.listing.entries[n - 1];
      if Entered(c) && (before.None? || NameAtMost(d.listing.entries[before.value].name, c.name))
      then Some(n - 1) else before
  }

  /** Whether the directory visited last, in sorted depth-first order, is a repository. */
  predicate EndsInRepository(d: Dir, path: Path) {
    if (d.marker.Present? && path != []) || d.listing.Unreadable? || LastEntered(d, |d.listing.entries|).None?
    then d.marker.Present?
    else
      var c := d.listing.entries[LastEntered(d, |d.listing.entries|).value];
      EndsInRepository(c.dir, path + [c.name])
  }

  /**
   Nothing in the inventory is over a limit. The last repository allowed must also be the
   last directory visited: `ends` says whether the walk ends in one.
   */
  ghost predicate Fits(t: Tally, ends: bool) {
    && t.directories <= 4096
    && (|t.repositories| < 256 || (|t.repositories| == 256 && ends))
    && t.entries <= 50_000
    && !t.deep
  }

  // ------------------------------------------------------------------ tally algebra

  lemma AddAssoc(a: Tally, b: Tally, c: Tally)
    ensures Add(Add(a, b), c) == Add(a, Add(b, c))
  {
    assert a.repositories + b.repositories + c.repositories == a.repositories + (b.repositories + c.repositories);
  }

  lemma AddComm(a: Tally, b: Tally)
    ensures Add(a, b) == Add(b, a)
  {
    assert a.repositories + b.repositories == b.repositories + a.repositories;
  }

  lemma AddNothing(a: Tally)
    ensures Add(a, NOTHING) == a && Add(NOTHING, a) == a
  {
    assert a.repositories + multiset{} == a.repositories;
  }

  lemma AtMostAdd(a: Tally, b: Tally, c: Tally)
    requires AtMost(b, c)
    ensures AtMost(Add(a, b), Add(a, c))
  {
  }

  lemma AtMostTrans(a: Tally, b: Tally, c: Tally)
    requires AtMost(a, b) && AtMost(b, c)
    ensures AtMost(a, c)
  {
  }

  lemma AtMostSum(a: Tally, b: Tally)
    ensures AtMost(a, Add(a, b)) && AtMost(b, Add(a, b))
  {
  }

  // ------------------------------------------------------------------ waiting work

  datatype Work = Work(dir: Dir, path: Path, depth: nat)

  function BelowPending(pending: seq<Work>): Tally {
    if pending == [] then NOTHING
    else
      var last := pending[|pending| - 1];
      Add(BelowPending(pending[..|pending| - 1]), Below(last.dir, last.path, last.depth))
  }

  lemma BelowMore(pending: seq<Work>, w: Work)
    ensures BelowPending(pending + [w]) == Add(BelowPending(pending), Below(w.dir, w.path, w.depth))
  {
    assert (pending + [w])[..|pending|] == pending;
  }

  lemma {:induction false} BelowConcat(a: seq<Work>, b: seq<Work>)
    ensures BelowPending(a + b) == Add(BelowPending(a), BelowPending(b))
  {
    if b == [] {
      assert a + b == a;
      AddNothing(BelowPending(a));
    } else {
      var front, last := b[..|b| - 1], b[|b| - 1];
      assert a + b == a + front + [last] && b == front + [last];
      BelowMore(a + front, last);
      BelowMore(front, last);
      hide BelowPending, Below, Add;
      BelowConcat(a, front);
      AddAssoc(BelowPending(a), BelowPending(front), Below(last.dir, last.path, last.depth));
    }
  }

  lemma BelowOne(w: Work)
    ensures BelowPending([w]) == Below(w.dir, w.path, w.depth)
  {
    AddNothing(Below(w.dir, w.path, w.depth));
  }

  lemma {:induction false} BelowReversed(ws: seq<Work>)
    ensures BelowPending(Reversed(ws)) == BelowPending(ws) && |Reversed(ws)| == |ws|
  {
    hide Add, Below;
    if ws != [] {
      var front, last := ws[..|ws| - 1], ws[|ws| - 1];
      BelowReversed(front);
      assert Reversed(ws) == [last] + Reversed(front);
      BelowConcat([last], Reversed(front));
      BelowOne(last);
      AddComm(BelowPending(front), Below(last.dir, last.path, last.depth));
    }
  }

  /** Siblings are visited in the order of their paths. */
  predicate WorkAtMost(a: Work, b: Work) {
    PathAtMost(a.path, b.path)
  }

  lemma {:induction false} BelowInserted(ws: seq<Work>, w: Work)
    ensures BelowPending(Insert(WorkAtMost, ws, w)) == Add(BelowPending(ws), Below(w.dir, w.path, w.depth))
  {
    hide Add, Below, PathAtMost;
    if ws == [] {
      BelowMore([], w);
      assert [] + [w] == [w];
    } else if WorkAtMost(ws[|ws| - 1], w) {
      BelowMore(ws, w);
    } else {
      var front, last := ws[..|ws| - 1], ws[|ws| - 1];
      BelowInserted(front, w);
      BelowMore(Insert(WorkAtMost, front, w), last);
      assert ws == front + [last];
      BelowMore(front, last);
      var a, b, c := BelowPending(front), Below(w.dir, w.path, w.depth), Below(last.dir, last.path, last.depth);
      AddAssoc(a, b, c);
      AddComm(b, c);
      AddAssoc(a, c, b);
    }
  }

  lemma {:induction false} BelowSorted(ws: seq<Work>)
    ensures BelowPending(Sort(WorkAtMost, ws)) == BelowPending(ws)
  {
    hide Add, Below, WorkAtMost;
    if ws != [] {
      BelowSorted(ws[..|ws| - 1]);
      BelowInserted(Sort(WorkAtMost, ws[..|ws| - 1]), ws[|ws| - 1]);
    }
  }

  /** Sorted, the directories to enter end in the one whose name sorts last. */
  lemma {:induction false} SortedEndsInLast(d: Dir, n: nat, path: Path, depth: nat)
    requires d.listing.Entries? && n <= |d.listing.entries|
    ensures LastEntered(d, n).None? <==> Entering(d, n, path, depth) == []
    ensures LastEntered(d, n).Some? ==>
              var sorted := Sort(WorkAtMost, Entering(d, n, path, depth));
              sorted[|sorted| - 1] == WorkFor(d.listing.entries[LastEntered(d, n).value], path, depth)
  {
    hide Entered, NameAtMost, PathAtMost, Sort;
    if 0 < n {
      SortedEndsInLast(d, n - 1, path, depth);
      var c, before := d.listing.entries[n - 1], Entering(d, n - 1, path, depth);
      if Entered(c) {
        SortLast(WorkAtMost, before, WorkFor(c, path, depth));
        if LastEntered(d, n - 1).Some? {
          SiblingsCompare(path, d.listing.entries[LastEntered(d, n - 1).value].name, c.name);
        }
      } else {
        assert Entering(d, n, path, depth) == before;
      }
    }
  }

  /** Every waiting directory counts. */
  lemma {:induction false} PendingAreDirectories(pending: seq<Work>)
    ensures |pending| <= BelowPending(pending).directories
  {
    if pending != [] {
      PendingAreDirectories(pending[..|pending| - 1]);
    }
  }

  lemma FirstMore(d: Dir, n: nat, path: Path, depth: nat)
    requires d.listing.Entries? && n < |d.listing.entries|
    ensures BelowFirst(d, n + 1, path, depth) == Add(BelowFirst(d, n, path, depth), BelowEntry(d, n, path, depth))
  {
  }

  lemma AtMostItself(a: Tally)
    ensures AtMost(a, a)
  {
  }

  lemma {:induction false} BelowPrefix(d: Dir, n: nat, path: Path, depth: nat)
    requires d.listing.Entries? && n <= |d.listing.entries|
    ensures AtMost(BelowFirst(d, n, path, depth), BelowFirst(d, |d.listing.entries|, path, depth))
    decreases |d.listing.entries| - n
  {
    hide BelowFirst, BelowEntry, Add, AtMost;
    var all := BelowFirst(d, |d.listing.entries|, path, depth);
    if n < |d.listing.entries| {
      BelowPrefix(d, n + 1, path, depth);
      FirstMore(d, n, path, depth);
      AtMostSum(BelowFirst(d, n, path, depth), BelowEntry(d, n, path, depth));
      AtMostTrans(BelowFirst(d, n, path, depth), BelowFirst(d, n + 1, path, depth), all);
    } else {
      AtMostItself(all);
    }
  }

  // ---------------------------------------------------------- what the tally means

  /** A repository found by descending from a directory, stopping at Git directories other than the root. */
  ghost predicate Located(d: Dir, at: Path, repository: Path)
    decreases d, 2
  {
    || (d.marker.Present? && repository == at)
    || ((d.marker.Present? ==> at == []) && d.listing.Entries? &&
        AnyLocated(d, |d.listing.entries|, at, repository))
  }

  /** Found below one of the first `n` entries. */
  ghost predicate AnyLocated(d: Dir, n: nat, at: Path, repository: Path)
    requires d.listing.Entries? && n <= |d.listing.entries|
    decreases d, 1
  {
    exists i: nat :: i < n && LocatedIn(d, i, at, repository)
  }

  ghost predicate LocatedIn(d: Dir, i: nat, at: Path, repository: Path)
    requires d.listing.Entries? && i < |d.listing.entries|
    decreases d, 0
  {
    var entry := d.listing.entries[i];
    Entered(entry) && Located(entry.dir, at + [entry.name], repository)
  }

  lemma InSum(a: Tally, b: Tally, repository: Path)
    ensures repository in Add(a, b).repositories <==> repository in a.repositories || repository in b.repositories
  {
  }

  lemma {:induction false} EntryIsLocated(d: Dir, i: nat, at: Path, depth: nat, repository: Path)
    requires d.listing.Entries? && i < |d.listing.entries|
    ensures repository in BelowEntry(d, i, at, depth).repositories <==> LocatedIn(d, i, at, repository)
    decreases d, 0, i
  {
    var entry := d.listing.entries[i];
    hide Entered, Located, Below, Add;
    var below := if Entered(entry) then Below(entry.dir, at + [entry.name], depth + 1) else NOTHING;
    InSum(OfEntry(entry, depth), below, repository);
    if Entered(entry) {
      RepositoriesAreLocated(entry.dir, at + [entry.name], depth + 1, repository);
    }
  }

  lemma {:induction false} FirstAreLocated(d: Dir, n: nat, at: Path, depth: nat, repository: Path)
    requires d.listing.Entries? && n <= |d.listing.entries|
    ensures repository in BelowFirst(d, n, at, depth).repositories <==> AnyLocated(d, n, at, repository)
    decreases d, 0, n
  {
    hide BelowEntry, Add;
    if 0 < n {
      InSum(BelowFirst(d, n - 1, at, depth), BelowEntry(d, n - 1, at, depth), repository);
      FirstAreLocated(d, n - 1, at, depth, repository);
      EntryIsLocated(d, n - 1, at, depth, repository);
    }
  }

  /** The tally holds exactly the located repositories. */
  lemma {:induction false} RepositoriesAreLocated(d: Dir, at: Path, depth: nat, repository: Path)
    ensures repository in Below(d, at, depth).repositories <==> Located(d, at, repository)
    decreases d, 1, 0
  {
    hide Add;
    var rest :=
      if d.marker.Present? && at != [] then NOTHING
      else if d.listing.Unreadable? then FAULT
      else BelowFirst(d, |d.listing.entries|, at, depth);
    InSum(OfDirectory(d, at), rest, repository);
    if d.listing.Entries? {
      FirstAreLocated(d, |d.listing.entries|, at, depth, repository);
    }
  }

  // ------------------------------------------------------------------- one listing

  datatype ReadResult = Fault | EntryLimit | Read(directories: seq<Work>, entriesSeen: nat, truncated: bool)

  function Counted(entries: nat): Tally {
    Tally(multiset{}, 0, entries, false, false)
  }

  /** After `i` entries: what was queued, against what those entries hold. */
  ghost predicate Listed(d: Dir, i: nat, path: Path, depth: nat, directories: seq<Work>, truncated: bool) {
    && d.listing.Entries? && i <= |d.listing.entries|
    && var held, kept := BelowFirst(d, i, path, depth), Add(Counted(i), BelowPending(directories));
       && AtMost(kept, held)
       && (truncated ==> held.deep)
       && (!truncated ==> kept == held && directories == Entering(d, i, path, depth))
  }

  /** The directories to enter among the first `n` entries, in the order they are listed. */
  function Entering(d: Dir, n: nat, path: Path, depth: nat): seq<Work>
    requires d.listing.Entries? && n <= |d.listing.entries|
  {
    if n == 0 then []
    else
      Entering(d, n - 1, path, depth) +
      if Entered(d.listing.entries[n - 1]) then [WorkFor(d.listing.entries[n - 1], path, depth)] else []
  }

  lemma NothingListed(d: Dir, path: Path, depth: nat)
    requires d.listing.Entries?
    ensures Listed(d, 0, path, depth, [], false)
  {
    hide Below, BelowEntry, Add, AtMost;
    assert Counted(0) == NOTHING && BelowPending([]) == NOTHING && BelowFirst(d, 0, path, depth) == NOTHING;
    AddNothing(NOTHING);
    AtMostItself(NOTHING);
  }

  lemma OneCounted(i: nat, b: Tally, x: Tally)
    ensures Add(Add(Counted(i), b), Add(Counted(1), x)) == Add(Counted(i + 1), Add(b, x))
  {
  }

  lemma AtMostBoth(a: Tally, b: Tally, c: Tally)
    requires AtMost(a, b)
    ensures AtMost(Add(a, c), Add(b, c))
  {
  }

  /** An entry that is no directory to enter. */
  lemma PassEntry(d: Dir, i: nat, path: Path, depth: nat, directories: seq<Work>, truncated: bool)
    requires Listed(d, i, path, depth, directories, truncated) && i < |d.listing.entries|
    requires !Entered(d.listing.entries[i]) && !d.listing.entries[i].EntryFails?
    ensures Listed(d, i + 1, path, depth, directories, truncated)
  {
    hide Below, BelowFirst, BelowPending, Entered, Add, AtMost;
    var held, b := BelowFirst(d, i, path, depth), BelowPending(directories);
    FirstMore(d, i, path, depth);
    assert BelowEntry(d, i, path, depth) == Add(Counted(1), NOTHING);
    OneCounted(i, b, NOTHING);
    AddNothing(b);
    AtMostBoth(Add(Counted(i), b), held, Add(Counted(1), NOTHING));
    AddDeep(held, Add(Counted(1), NOTHING));
  }

  /** A directory below the depth limit is left out, and the inventory is then too deep. */
  lemma TooDeep(d: Dir, i: nat, path: Path, depth: nat, directories: seq<Work>, truncated: bool)
    requires Listed(d, i, path, depth, directories, truncated) && i < |d.listing.entries|
    requires Entered(d.listing.entries[i]) && MAX_DEPTH <= depth
    ensures Listed(d, i + 1, path, depth, directories, true)
  {
    hide Below, BelowFirst, BelowPending, Entered, Add, AtMost;
    var entry := d.listing.entries[i];
    FirstMore(d, i, path, depth);
    EnteredIsDirectory(entry);
    var below := Below(entry.dir, path + [entry.name], depth + 1);
    assert BelowEntry(d, i, path, depth) == Add(Tally(multiset{}, 0, 1, false, true), below);
    DeepTally(i, BelowFirst(d, i, path, depth), BelowPending(directories), below);
  }

  lemma DeepTally(i: nat, held: Tally, b: Tally, below: Tally)
    requires AtMost(Add(Counted(i), b), held)
    ensures var more := Add(held, Add(Tally(multiset{}, 0, 1, false, true), below));
            AtMost(Add(Counted(i + 1), b), more) && more.deep
  {
  }

  lemma QueueEntry(d: Dir, i: nat, path: Path, depth: nat, directories: seq<Work>, truncated: bool)
    requires Listed(d, i, path, depth, directories, truncated) && i < |d.listing.entries|
    requires Entered(d.listing.entries[i]) && depth < MAX_DEPTH
    ensures Listed(d, i + 1, path, depth, directories + [WorkFor(d.listing.entries[i], path, depth)], truncated)
  {
    hide Below, BelowFirst, BelowPending, Entered, Add, AtMost;
    var entry := d.listing.entries[i];
    EnteredIsDirectory(entry);
    var held, b := BelowFirst(d, i, path, depth), BelowPending(directories);
    var below := Below(entry.dir, path + [entry.name], depth + 1);
    FirstMore(d, i, path, depth);
    BelowMore(directories, WorkFor(entry, path, depth));
    assert BelowEntry(d, i, path, depth) == Add(Counted(1), below);
    OneCounted(i, b, below);
    AtMostBoth(Add(Counted(i), b), held, Add(Counted(1), below));
    AddDeep(held, Add(Counted(1), below));
  }

  lemma AddDeep(a: Tally, b: Tally)
    ensures a.deep ==> Add(a, b).deep
  {
  }

  lemma AddEntries(a: Tally, b: Tally)
    ensures Add(a, b).entries == a.entries + b.entries
  {
  }

  lemma FailingEntry(d: Dir, i: nat, path: Path, depth: nat)
    requires d.listing.Entries? && i < |d.listing.entries| && d.listing.entries[i].EntryFails?
    ensures BelowFirst(d, |d.listing.entries|, path, depth).faulty
  {
    BelowPrefix(d, i + 1, path, depth);
  }

  lemma {:induction false} EntriesAreCounted(d: Dir, n: nat, path: Path, depth: nat)
    requires d.listing.Entries? && n <= |d.listing.entries|
    ensures n <= BelowFirst(d, n, path, depth).entries
  {
    hide Add, Below;
    if 0 < n {
      EntriesAreCounted(d, n - 1, path, depth);
      var entry := d.listing.entries[n - 1];
      var below := if Entered(entry) then Below(entry.dir, path + [entry.name], depth + 1) else NOTHING;
      AddEntries(OfEntry(entry, depth), below);
      AddEntries(BelowFirst(d, n - 1, path, depth), BelowEntry(d, n - 1, path, depth));
    }
  }

  /** Stopping early keeps no more than the whole listing holds. */
  lemma StopEarly(d: Dir, i: nat, path: Path, depth: nat, directories: seq<Work>, truncated: bool)
    requires Listed(d, i, path, depth, directories, truncated)
    ensures AtMost(Add(Counted(i), BelowPending(directories)), BelowFirst(d, |d.listing.entries|, path, depth))
    ensures truncated ==> BelowFirst(d, |d.listing.entries|, path, depth).deep
  {
    BelowPrefix(d, i, path, depth);
    hide BelowFirst, BelowPending;
  }

  /** The directories to enter, up to the limits. */
  method ReadListing(d: Dir, path: Path, depth: nat, waiting: nat, entriesSeen: nat) returns (r: ReadResult)
    requires d.listing.Entries? && waiting < MAX_DIRECTORIES && entriesSeen <= MAX_ENTRIES
    ensures var held := BelowFirst(d, |d.listing.entries|, path, depth);
            match r
            case Fault => held.faulty
            case EntryLimit => MAX_ENTRIES < entriesSeen + held.entries
            case Read(directories, seen, truncated) =>
              && entriesSeen <= seen <= MAX_ENTRIES
              && waiting + |directories| <= MAX_DIRECTORIES
              && var kept := Add(Counted(seen - entriesSeen), BelowPending(directories));
                 && AtMost(kept, held)
                 && (!truncated ==>
                       kept == held && directories == Entering(d, |d.listing.entries|, path, depth))
                 && (truncated ==> held.deep || waiting + |directories| == MAX_DIRECTORIES)
  {
    hide Listed, Below, BelowFirst, BelowPending, Entered, Add, AtMost;
    var entries := d.listing.entries;
    var directories, truncated: bool := [], false;
    NothingListed(d, path, depth);
    for i := 0 to |entries|
      invariant Listed(d, i, path, depth, directories, truncated)
      invariant entriesSeen + i <= MAX_ENTRIES && waiting + |directories| < MAX_DIRECTORIES
    {
      if MAX_ENTRIES < entriesSeen + i + 1 {
        EntriesAreCounted(d, |entries|, path, depth);
        return EntryLimit;
      }
      if entries[i].EntryFails? {
        FailingEntry(d, i, path, depth);
        return Fault;
      }
      if !Entered(entries[i]) {
        PassEntry(d, i, path, depth, directories, truncated);
      } else if MAX_DEPTH <= depth {
        TooDeep(d, i, path, depth, directories, truncated);
        truncated := true;
      } else {
        QueueEntry(d, i, path, depth, directories, truncated);
        directories := directories + [WorkFor(entries[i], path, depth)];
        if MAX_DIRECTORIES <= |directories| + waiting {
          StopEarly(d, i + 1, path, depth, directories, truncated);
          return Read(directories, entriesSeen + i + 1, true);
        }
      }
    }
    StopEarly(d, |entries|, path, depth, directories, truncated);
    WholeListing(d, path, depth, directories, truncated);
    return Read(directories, entriesSeen + |entries|, truncated);
  }

  lemma EnteredIsDirectory(entry: Child)
    requires Entered(entry)
    ensures entry.Subdirectory?
  {
  }

  function WorkFor(entry: Child, path: Path, depth: nat): (w: Work)
    requires Entered(entry)
    ensures entry.Subdirectory? && w == Work(entry.dir, path + [entry.name], depth + 1)
  {
    Work(entry.dir, path + [entry.name], depth + 1)
  }

  lemma WholeListing(d: Dir, path: Path, depth: nat, directories: seq<Work>, truncated: bool)
    requires d.listing.Entries? && Listed(d, |d.listing.entries|, path, depth, directories, truncated)
    ensures !truncated ==>
              && Add(Counted(|d.listing.entries|), BelowPending(directories)) ==
                 BelowFirst(d, |d.listing.entries|, path, depth)
              && directories == Entering(d, |d.listing.entries|, path, depth)
  {
  }

  // ---------------------------------------------------------------- the whole walk

  /** What the walk has collected. */
  function Spent(found: seq<Path>, visited: nat, entriesSeen: nat): Tally {
    Tally(multiset(found), visited, entriesSeen, false, false)
  }

  /** Collected and waiting together make up the whole inventory, or no more than it once truncated. */
  ghost predicate Balanced(total: Tally, ends: bool, spent: Tally, waiting: Tally, truncated: bool) {
    && AtMost(Add(spent, waiting), total)
    && (!truncated ==> Add(spent, waiting) == total)
    && (truncated ==> !Fits(total, ends))
  }

  lemma SpendDirectory(d: Dir, path: Path, found: seq<Path>, visited: nat, entriesSeen: nat)
    requires !d.marker.MarkerFails?
    ensures Spent(if d.marker.Present? then found + [path] else found, visited + 1, entriesSeen) ==
            Add(Spent(found, visited, entriesSeen), OfDirectory(d, path))
  {
  }

  lemma SpendEntries(found: seq<Path>, visited: nat, entriesSeen: nat, n: nat)
    ensures Spent(found, visited, entriesSeen + n) == Add(Spent(found, visited, entriesSeen), Counted(n))
  {
  }

  /** Spending part of what waits keeps the balance. */
  lemma Regroup(spent: Tally, front: Tally, own: Tally, rest: Tally)
    ensures Add(Add(spent, own), Add(front, rest)) == Add(spent, Add(front, Add(own, rest)))
  {
  }

  /** Of a directory's own count and the rest below it, less may be kept than was held. */
  lemma BalanceMoves(
    total: Tally, ends: bool, spent: Tally, front: Tally, own: Tally, kept: Tally, held: Tally,
    truncated: bool, now: bool)
    requires Balanced(total, ends, spent, Add(front, Add(own, held)), truncated) && AtMost(kept, held)
    requires now ==> truncated || !Fits(total, ends)
    requires !now ==> !truncated && kept == held
    ensures Balanced(total, ends, Add(spent, own), Add(front, kept), now)
  {
    hide Add, AtMost, Fits;
    Regroup(spent, front, own, kept);
    AtMostAdd(own, kept, held);
    AtMostAdd(front, Add(own, kept), Add(own, held));
    AtMostAdd(spent, Add(front, Add(own, kept)), Add(front, Add(own, held)));
    AtMostTrans(Add(spent, Add(front, Add(own, kept))), Add(spent, Add(front, Add(own, held))), total);
  }

  /** What waits on top of the stack is part of the whole. */
  lemma TopIsPart(total: Tally, ends: bool, spent: Tally, front: Tally, own: Tally, held: Tally, truncated: bool)
    requires Balanced(total, ends, spent, Add(front, Add(own, held)), truncated)
    ensures own.faulty || held.faulty ==> total.faulty
    ensures held.deep ==> total.deep
    ensures spent.entries + held.entries <= total.entries
    ensures spent.directories + front.directories + own.directories <= total.directories
    ensures |spent.repositories| <= |total.repositories|
  {
    FewerRepositories(spent.repositories, total.repositories);
  }

  lemma FewerRepositories(a: multiset<Path>, b: multiset<Path>)
    requires a <= b
    ensures |a| <= |b|
  {
    assert b == a + (b - a);
  }

  lemma WalkStarts(root: Dir, ends: bool)
    ensures Balanced(Below(root, [], 0), ends, Spent([], 0, 0), BelowPending([Work(root, [], 0)]), false)
  {
    hide Below, Add, AtMost, BelowPending;
    BelowOne(Work(root, [], 0));
    assert Spent([], 0, 0) == NOTHING;
    AddNothing(Below(root, [], 0));
    AtMostItself(Below(root, [], 0));
  }

  function RestBelow(w: Work): Tally {
    if w.dir.marker.Present? && w.path != [] then NOTHING
    else if w.dir.listing.Unreadable? then FAULT
    else BelowFirst(w.dir, |w.dir.listing.entries|, w.path, w.depth)
  }

  lemma TopOfStack(pending: seq<Work>)
    requires pending != []
    ensures var front, w := pending[..|pending| - 1], pending[|pending| - 1];
            BelowPending(pending) == Add(BelowPending(front), Add(OfDirectory(w.dir, w.path), RestBelow(w)))
  {
    var front, w := pending[..|pending| - 1], pending[|pending| - 1];
    assert Below(w.dir, w.path, w.depth) == Add(OfDirectory(w.dir, w.path), RestBelow(w));
    hide Below, Add;
  }

  /** The stack is cut short only over a limit. */
  lemma LimitReached(
    total: Tally, ends: bool, found: seq<Path>, visited: nat, entriesSeen: nat, pending: seq<Work>, truncated: bool)
    requires pending != [] && (MAX_DIRECTORIES <= visited || MAX_REPOSITORIES <= |found|)
    requires truncated || Bottom(ends, found, pending)
    requires Balanced(total, ends, Spent(found, visited, entriesSeen), BelowPending(pending), truncated)
    ensures Balanced(total, ends, Spent(found, visited, entriesSeen), BelowPending(pending), true)
  {
    hide BelowPending, Add;
    PendingAreDirectories(pending);
    assert visited + |pending| <= total.directories by {
      SumOfDirectories(Spent(found, visited, entriesSeen), BelowPending(pending));
    }
    if !truncated {
      SumOfSizes(Spent(found, visited, entriesSeen), BelowPending(pending));
      if ends {
        BottomIsHeld(pending);
      }
    }
  }

  lemma SumOfDirectories(a: Tally, b: Tally)
    ensures Add(a, b).directories == a.directories + b.directories
  {
  }

  lemma SumOfRepositories(a: Tally, b: Tally)
    ensures a.repositories <= Add(a, b).repositories
  {
  }

  /** A result is exact, or a part over a limit. */
  ghost predicate Answers(total: Tally, ends: bool, found: seq<Path>, truncated: bool) {
    && multiset(found) <= total.repositories
    && (!truncated ==> multiset(found) == total.repositories && !total.faulty)
    && (truncated <==> !Fits(total, ends))
  }

  lemma PartialAnswer(total: Tally, ends: bool, found: seq<Path>, visited: nat, entriesSeen: nat, waiting: Tally)
    requires Balanced(total, ends, Spent(found, visited, entriesSeen), waiting, true)
    ensures Answers(total, ends, found, true)
  {
    hide Fits;
    SumOfRepositories(Spent(found, visited, entriesSeen), waiting);
  }

  lemma WalkEnds(total: Tally, ends: bool, found: seq<Path>, visited: nat, entriesSeen: nat, truncated: bool)
    requires Balanced(total, ends, Spent(found, visited, entriesSeen), BelowPending([]), truncated)
    requires truncated || Bottom(ends, found, [])
    requires visited <= MAX_DIRECTORIES && |found| <= MAX_REPOSITORIES && entriesSeen <= MAX_ENTRIES
    ensures Answers(total, ends, found, truncated)
  {
    hide Add, AtMost;
    AddNothing(Spent(found, visited, entriesSeen));
    assert BelowPending([]) == NOTHING;
    if truncated {
      AtMostRepositoriesOf(Spent(found, visited, entriesSeen), total);
    }
  }

  /** What the stack looks like after a directory's listing was read. */
  lemma StackGrows(front: seq<Work>, directories: seq<Work>)
    ensures var stack := front + Reversed(Sort(WorkAtMost, directories));
            && BelowPending(stack) == Add(BelowPending(front), BelowPending(directories))
            && |stack| == |front| + |directories|
  {
    var sorted := Sort(WorkAtMost, directories);
    hide Sort, Below, Add;
    BelowConcat(front, Reversed(sorted));
    BelowReversed(sorted);
    BelowSorted(directories);
  }

  /**
   At the bottom of the stack waits the directory that leads to the one visited last; with
   the stack empty, a full list of repositories has ended in one.
   */
  ghost predicate Bottom(ends: bool, found: seq<Path>, pending: seq<Work>) {
    if pending != [] then ends == EndsInRepository(pending[0].dir, pending[0].path)
    else |found| == MAX_REPOSITORIES ==> ends
  }

  /** Leaving the bottom directory for the ones below it, or for nothing. */
  lemma BottomMoves(ends: bool, found: seq<Path>, now: seq<Path>, front: seq<Work>, w: Work, directories: seq<Work>)
    requires Bottom(ends, found, front + [w]) && |found| < MAX_REPOSITORIES
    requires now == if w.dir.marker.Present? then found + [w.path] else found
    requires if w.dir.marker.Present? && w.path != [] then directories == []
             else
               && w.dir.listing.Entries?
               && directories == Entering(w.dir, |w.dir.listing.entries|, w.path, w.depth)
    ensures Bottom(ends, now, front + Reversed(Sort(WorkAtMost, directories)))
  {
    if w.dir.listing.Entries? {
      SortedEndsInLast(w.dir, |w.dir.listing.entries|, w.path, w.depth);
    }
    hide Sort, Entering, LastEntered, Entered, WorkAtMost;
    var stack := front + Reversed(Sort(WorkAtMost, directories));
    if front != [] {
      assert stack[0] == front[0] == (front + [w])[0];
    } else {
      assert (front + [w])[0] == w;
      if directories != [] {
        var sorted := Sort(WorkAtMost, directories);
        assert stack[0] == Reversed(sorted)[0] == sorted[|sorted| - 1];
      }
    }
  }

  /** A directory whose walk ends in a repository holds one. */
  lemma {:induction false} EndingIsHeld(d: Dir, path: Path, depth: nat)
    requires EndsInRepository(d, path)
    ensures 1 <= |Below(d, path, depth).repositories|
    decreases d
  {
    hide BelowFirst, BelowEntry, Add, Entered, NameAtMost;
    var rest := RestBelow(Work(d, path, depth));
    assert Below(d, path, depth) == Add(OfDirectory(d, path), rest);
    SumOfSizes(OfDirectory(d, path), rest);
    if !d.marker.Present? {
      var n := LastEntered(d, |d.listing.entries|).value;
      var c := d.listing.entries[n];
      EnteredIsDirectory(c);
      EndingIsHeld(c.dir, path + [c.name], depth + 1);
      EntryIsHeld(d, n, path, depth);
    } else if path == [] && d.listing.Entries? && LastEntered(d, |d.listing.entries|).Some? {
      assert |OfDirectory(d, path).repositories| == 1;
    }
  }

  lemma SumOfSizes(a: Tally, b: Tally)
    ensures |Add(a, b).repositories| == |a.repositories| + |b.repositories|
  {
  }

  lemma EntryIsHeld(d: Dir, n: nat, path: Path, depth: nat)
    requires d.listing.Entries? && n < |d.listing.entries| && Entered(d.listing.entries[n])
    ensures var c := d.listing.entries[n];
            |Below(c.dir, path + [c.name], depth + 1).repositories| <=
            |BelowFirst(d, |d.listing.entries|, path, depth).repositories|
  {
    hide Below, Entered, Add, AtMost;
    var c, all := d.listing.entries[n], BelowFirst(d, |d.listing.entries|, path, depth);
    EnteredIsDirectory(c);
    FirstMore(d, n, path, depth);
    SumOfSizes(BelowFirst(d, n, path, depth), BelowEntry(d, n, path, depth));
    SumOfSizes(OfEntry(c, depth), Below(c.dir, path + [c.name], depth + 1));
    BelowPrefix(d, n + 1, path, depth);
    AtMostRepositories(BelowFirst(d, n + 1, path, depth), all);
  }

  lemma AtMostRepositories(a: Tally, b: Tally)
    requires AtMost(a, b)
    ensures |a.repositories| <= |b.repositories|
  {
    FewerRepositories(a.repositories, b.repositories);
  }

  lemma AtMostRepositoriesOf(a: Tally, b: Tally)
    requires AtMost(a, b)
    ensures a.repositories <= b.repositories
  {
  }

  lemma BottomIsHeld(pending: seq<Work>)
    requires pending != [] && EndsInRepository(pending[0].dir, pending[0].path)
    ensures 1 <= |BelowPending(pending).repositories|
  {
    hide Below, Add, EndsInRepository;
    var rest := pending[1..];
    assert pending == [pending[0]] + rest;
    BelowConcat([pending[0]], rest);
    BelowOne(pending[0]);
    EndingIsHeld(pending[0].dir, pending[0].path, pending[0].depth);
    SumOfSizes(BelowPending([pending[0]]), BelowPending(rest));
  }

  /** A full stack after a visit means more directories than the limit. */
  lemma StackIsFull(
    total: Tally, ends: bool, spent: Tally, own: Tally, rest: Tally, front: Tally, kept: Tally,
    truncated: bool, n: nat)
    requires Balanced(total, ends, spent, Add(front, Add(own, rest)), truncated) && AtMost(kept, rest)
    requires own.directories == 1 && MAX_DIRECTORIES <= n && n <= front.directories + kept.directories
    ensures !Fits(total, ends)
  {
  }

  datatype Found = Found(repositories: seq<Path>, truncated: bool)

  datatype Step =
    | Unreached
    | Cut(found: seq<Path>)
    | Next(found: seq<Path>, entriesSeen: nat, pending: seq<Work>, truncated: bool)

  /** What a turn of the loop leaves: the balance, the limits and the bottom of the stack. */
  ghost predicate StepHolds(total: Tally, ends: bool, visited: nat, step: Step) {
    match step
    case Unreached => total.faulty
    case Cut(f) => Answers(total, ends, f, true) && |f| <= MAX_REPOSITORIES && MAX_ENTRIES < total.entries
    case Next(f, e, p, t) =>
      && Balanced(total, ends, Spent(f, visited + 1, e), BelowPending(p), t)
      && |f| <= MAX_REPOSITORIES && e <= MAX_ENTRIES && |p| <= MAX_DIRECTORIES
      && (t || Bottom(ends, f, p))
  }

  /** What is left to do about the directory `w` on top of the stack, with `front` below it. */
  ghost predicate OnTop(
    total: Tally, ends: bool, found: seq<Path>, visited: nat, entriesSeen: nat,
    front: seq<Work>, w: Work, truncated: bool)
  {
    && Balanced(total, ends, Spent(found, visited, entriesSeen),
                Add(BelowPending(front), Add(OfDirectory(w.dir, w.path), RestBelow(w))), truncated)
    && |front| < MAX_DIRECTORIES && |found| < MAX_REPOSITORIES && entriesSeen <= MAX_ENTRIES
    && (truncated || Bottom(ends, found, front + [w]))
  }

  lemma OwnCounts(d: Dir, path: Path, found: seq<Path>, visited: nat, entriesSeen: nat)
    ensures OfDirectory(d, path).directories == 1 && Spent(found, visited, entriesSeen).entries == entriesSeen
  {
  }

  /** Reads a directory's listing and puts what is entered on the stack, sorted. */
  method Enter(
    ghost total: Tally, ghost ends: bool, found: seq<Path>, ghost visited: nat, entriesSeen: nat,
    front: seq<Work>, w: Work, truncated: bool)
    returns (step: Step)
    requires OnTop(total, ends, found, visited, entriesSeen, front, w, truncated)
    requires !w.dir.marker.MarkerFails? && !(w.dir.marker.Present? && w.path != []) && w.dir.listing.Entries?
    ensures StepHolds(total, ends, visited, step)
  {
    hide Below, BelowFirst, BelowPending, Balanced, Answers, Fits, Reversed, Add, AtMost, Sort, Bottom, Entering,
         Spent, OfDirectory;
    OwnCounts(w.dir, w.path, found, visited, entriesSeen);
    ghost var spent, own, held := Spent(found, visited, entriesSeen), OfDirectory(w.dir, w.path), RestBelow(w);
    TopIsPart(total, ends, spent, BelowPending(front), own, held, truncated);
    var now := if w.dir.marker.Present? then found + [w.path] else found;
    SpendDirectory(w.dir, w.path, found, visited, entriesSeen);
    var read := ReadListing(w.dir, w.path, w.depth, |front|, entriesSeen);
    match read {
      case Fault =>
        return Unreached;
      case EntryLimit =>
        OverEntries(total, ends, spent, held);
        NothingIsLeast(held);
        BalanceMoves(total, ends, spent, BelowPending(front), own, NOTHING, held, truncated, true);
        PartialAnswer(total, ends, now, visited + 1, entriesSeen, Add(BelowPending(front), NOTHING));
        return Cut(now);
      case Read(directories, seen, short) =>
        ghost var n := seen - entriesSeen;
        ghost var kept := Add(Counted(n), BelowPending(directories));
        if |front| + |directories| == MAX_DIRECTORIES {
          PendingAreDirectories(front);
          PendingAreDirectories(directories);
          SumOfDirectories(Counted(n), BelowPending(directories));
          StackIsFull(total, ends, spent, own, held, BelowPending(front), kept, truncated, MAX_DIRECTORIES);
        }
        DeepIsUnfit(total, ends);
        BalanceMoves(total, ends, spent, BelowPending(front), own, kept, held, truncated, truncated || short);
        SpendEntries(now, visited + 1, entriesSeen, n);
        StackGrows(front, directories);
        Rebalanced(total, ends, Spent(now, visited + 1, entriesSeen), Counted(n), BelowPending(front),
                   BelowPending(directories), truncated || short);
        if !truncated && !short {
          BottomMoves(ends, found, now, front, w, directories);
        }
        return Next(now, seen, front + Reversed(Sort(WorkAtMost, directories)), truncated || short);
    }
  }

  /** One turn of the loop: the directory on top of the stack, marker first, then its listing. */
  method Visit(
    ghost total: Tally, ghost ends: bool, found: seq<Path>, ghost visited: nat, entriesSeen: nat,
    pending: seq<Work>, truncated: bool)
    returns (step: Step)
    requires Balanced(total, ends, Spent(found, visited, entriesSeen), BelowPending(pending), truncated)
    requires 0 < |pending| <= MAX_DIRECTORIES && |found| < MAX_REPOSITORIES && entriesSeen <= MAX_ENTRIES
    requires truncated || Bottom(ends, found, pending)
    ensures StepHolds(total, ends, visited, step)
  {
    hide Below, BelowFirst, BelowPending, Balanced, Answers, Fits, Reversed, Add, AtMost, Sort, Bottom, Entering;
    var front, w := pending[..|pending| - 1], pending[|pending| - 1];
    ghost var spent, own := Spent(found, visited, entriesSeen), OfDirectory(w.dir, w.path);
    assert pending == front + [w];
    TopOfStack(pending);
    TopIsPart(total, ends, spent, BelowPending(front), own, RestBelow(w), truncated);
    if w.dir.marker.MarkerFails? {
      return Unreached;
    }
    if w.dir.marker.Present? && w.path != [] {
      AtMostItself(NOTHING);
      AddNothing(BelowPending(front));
      SpendDirectory(w.dir, w.path, found, visited, entriesSeen);
      BalanceMoves(total, ends, spent, BelowPending(front), own, NOTHING, NOTHING, truncated, truncated);
      if !truncated {
        BottomMoves(ends, found, found + [w.path], front, w, []);
        NothingToSort(front);
      }
      return Next(found + [w.path], entriesSeen, front, truncated);
    }
    if w.dir.listing.Unreadable? {
      return Unreached;
    }
    step := Enter(total, ends, found, visited, entriesSeen, front, w, truncated);
  }

  lemma NothingToSort(front: seq<Work>)
    ensures front + Reversed(Sort(WorkAtMost, [])) == front
  {
  }

  lemma OverEntries(total: Tally, ends: bool, spent: Tally, held: Tally)
    requires spent.entries + held.entries <= total.entries && MAX_ENTRIES < spent.entries + held.entries
    ensures !Fits(total, ends)
  {
  }

  lemma DeepIsUnfit(total: Tally, ends: bool)
    ensures total.deep ==> !Fits(total, ends)
  {
  }

  lemma NothingIsLeast(a: Tally)
    ensures AtMost(NOTHING, a)
  {
  }

  lemma Rebalanced(total: Tally, ends: bool, spent: Tally, counted: Tally, front: Tally, added: Tally, truncated: bool)
    requires Balanced(total, ends, spent, Add(front, Add(counted, added)), truncated)
    ensures Balanced(total, ends, Add(spent, counted), Add(front, added), truncated)
  {
    hide Add, AtMost, Fits;
    Regroup(spent, front, counted, added);
  }

  /** The repositories in the order of their paths. */
  lemma SortedAnswers(total: Tally, ends: bool, found: seq<Path>, truncated: bool)
    requires Answers(total, ends, found, truncated)
    ensures Answers(total, ends, Sort(PathAtMost, found), truncated)
    ensures Ordered(PathAtMost, Sort(PathAtMost, found))
  {
    SortHolds(PathAtMost, found);
    PathOrderIsTotal();
    SortOrders(PathAtMost, found);
  }

  /**
   The whole inventory. It is truncated exactly when it does not fit the limits; otherwise
   it lists exactly the reachable repositories. The list is ordered by path, unless there
   are too many entries, and it fails only where some reachable directory cannot be read.
   */
  method Inventory(root: Dir) returns (r: Option<Found>)
    ensures r.None? ==> Below(root, [], 0).faulty
    ensures r.Some? ==>
              Answers(Below(root, [], 0), EndsInRepository(root, []), r.value.repositories, r.value.truncated)
    ensures r.Some? ==> |r.value.repositories| <= MAX_REPOSITORIES
    ensures r.Some? && Below(root, [], 0).entries <= MAX_ENTRIES ==> Ordered(PathAtMost, r.value.repositories)
    ensures Fits(Below(root, [], 0), EndsInRepository(root, [])) ==> (r.None? <==> Below(root, [], 0).faulty)
  {
    hide Below, BelowPending, Balanced, Fits, Spent, EndsInRepository, Sort, Ordered;
    ghost var total, ends := Below(root, [], 0), EndsInRepository(root, []);
    var found: seq<Path>, pending: seq<Work> := [], [Work(root, [], 0)];
    var visited: nat, entriesSeen: nat, truncated := 0, 0, false;
    WalkStarts(root, ends);
    while pending != []
      invariant Balanced(total, ends, Spent(found, visited, entriesSeen), BelowPending(pending), truncated)
      invariant visited <= MAX_DIRECTORIES && |found| <= MAX_REPOSITORIES && entriesSeen <= MAX_ENTRIES
      invariant |pending| <= MAX_DIRECTORIES && (truncated || Bottom(ends, found, pending))
      decreases MAX_DIRECTORIES - visited
    {
      if visited >= MAX_DIRECTORIES || |found| >= MAX_REPOSITORIES {
        LimitReached(total, ends, found, visited, entriesSeen, pending, truncated);
        PartialAnswer(total, ends, found, visited, entriesSeen, BelowPending(pending));
        SortedAnswers(total, ends, found, true);
        return Some(Found(Sort(PathAtMost, found), true));
      }
      var step := Visit(total, ends, found, visited, entriesSeen, pending, truncated);
      match step {
        case Unreached =>
          return None;
        case Cut(f) =>
          return Some(Found(f, true));
        case Next(f, e, p, t) =>
          found, visited, entriesSeen, pending, truncated := f, visited + 1, e, p, t;
      }
    }
    WalkEnds(total, ends, found, visited, entriesSeen, truncated);
    SortedAnswers(total, ends, found, truncated);
    return Some(Found(Sort(PathAtMost, found), truncated));
  }
}
