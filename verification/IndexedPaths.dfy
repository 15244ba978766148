/**
 The indexed paths of a configuration: the list written to the settings file, and beside
 it the canonical form each entry is compared by.
 */
module IndexedPaths {
  import opened Core

  /** A path as its components; `starts_with` compares whole components. */
  datatype Path = Path(absolute: bool, parts: seq<string>) {
    predicate StartsWith(base: Path) {
      && absolute == base.absolute
      && |base.parts| <= |parts|
      && parts[..|base.parts|] == base.parts
    }

    /** `join` with a relative path. */
    function Join(relative: seq<string>): Path {
      Path(absolute, parts + relative)
    }
  }

  /** The file system, seen through the one question asked of it. */
  datatype FileSystem = FileSystem(canonicalize: Path -> Option<Path>)

  /**
   A canonical path is absolute and its own canonical form, resolving the first part of a
   path first changes nothing, and the workspace root is a directory: `.` in it is itself.
   */
  ghost predicate Lawful(fs: FileSystem, root: Option<Path>) {
    && (forall p | fs.canonicalize(p).Some? ::
          && fs.canonicalize(p).value.absolute
          && fs.canonicalize(fs.canonicalize(p).value) == fs.canonicalize(p))
    && (forall p, rest | fs.canonicalize(p).Some? ::
          fs.canonicalize(p.Join(rest)) == fs.canonicalize(fs.canonicalize(p).value.Join(rest)))
    && (root.Some? ==> fs.canonicalize(root.value.Join(["."])) == fs.canonicalize(root.value))
  }

  datatype PathError =
    | InvalidPath
    | AlreadyIndexed(cover: Path)
    | NotFound

  function OrElse(p: Option<Path>, default: Path): Path {
    if p.Some? then p.value else default
  }

  /** What an entry is compared by. */
  function CanonicalIndexedPath(fs: FileSystem, root: Option<Path>, path: Path): Path {
    var resolved := if path.absolute || root.None? then path else root.value.Join(path.parts);
    OrElse(fs.canonicalize(resolved), resolved)
  }

  /** The canonical form of a path, taken from the root when it is relative; a path without one stands for itself. */
  lemma CanonicalIs(fs: FileSystem, root: Option<Path>, path: Path)
    ensures path.absolute || root.None? ==>
              var found := fs.canonicalize(path);
              CanonicalIndexedPath(fs, root, path) == if found.Some? then found.value else path
    ensures !path.absolute && root.Some? ==>
              var found := fs.canonicalize(root.value.Join(path.parts));
              CanonicalIndexedPath(fs, root, path) == if found.Some? then found.value else root.value.Join(path.parts)
  {
  }

  /** What is written for a canonical path: relative to the workspace where possible. */
  function PortableIndexedPath(fs: FileSystem, root: Option<Path>, canonical: Path): Path {
    match root
    case None => canonical
    case Some(stored) =>
      var base := OrElse(fs.canonicalize(stored), stored);
      if !canonical.StartsWith(base) then canonical
      else
        var relative := canonical.parts[|base.parts|..];
        Path(false, if relative == [] then ["."] else relative)
  }

  lemma StartsWithIs(p: Path, base: Path)
    ensures p.StartsWith(base) <==> exists rest :: p == base.Join(rest)
  {
    if p.StartsWith(base) {
      assert p == base.Join(p.parts[|base.parts|..]);
    }
    forall rest | p == base.Join(rest)
      ensures p.StartsWith(base)
    {
      assert (base.parts + rest)[..|base.parts|] == base.parts;
    }
  }

  /** A path inside the workspace root is written relative to it, the root itself as `.`; any other as it is. */
  lemma PortableIs(fs: FileSystem, root: Option<Path>, canonical: Path, base: Path)
    requires root.Some? ==>
               fs.canonicalize(root.value) == Some(base) || (fs.canonicalize(root.value).None? && root.value == base)
    ensures forall rest | root.Some? && canonical == base.Join(rest) ::
              PortableIndexedPath(fs, root, canonical) == Path(false, if rest == [] then ["."] else rest)
    ensures root.None? || (forall rest :: canonical != base.Join(rest)) ==>
              PortableIndexedPath(fs, root, canonical) == canonical
  {
    StartsWithIs(canonical, base);
    forall rest | root.Some? && canonical == base.Join(rest)
      ensures PortableIndexedPath(fs, root, canonical) == Path(false, if rest == [] then ["."] else rest)
    {
      assert canonical.parts[|base.parts|..] == rest;
    }
  }

  /** Reading back what was written gives the canonical path again. */
  lemma PortableRoundTrip(fs: FileSystem, root: Option<Path>, path: Path, canonical: Path)
    requires Lawful(fs, root) && fs.canonicalize(path) == Some(canonical)
    ensures CanonicalIndexedPath(fs, root, PortableIndexedPath(fs, root, canonical)) == canonical
  {
    if root.Some? {
      var base := OrElse(fs.canonicalize(root.value), root.value);
      if canonical.StartsWith(base) {
        RelativeRoundTrip(fs, root.value, base, canonical);
      }
    }
  }

  lemma RelativeRoundTrip(fs: FileSystem, stored: Path, base: Path, canonical: Path)
    requires Lawful(fs, Some(stored)) && fs.canonicalize(canonical) == Some(canonical)
    requires base == OrElse(fs.canonicalize(stored), stored) && canonical.StartsWith(base)
    ensures var relative := canonical.parts[|base.parts|..];
            fs.canonicalize(stored.Join(if relative == [] then ["."] else relative)) == Some(canonical)
  {
    var relative := canonical.parts[|base.parts|..];
    assert canonical == base.Join(relative);
    if fs.canonicalize(stored).Some? {
      assert fs.canonicalize(stored.Join(relative)) == fs.canonicalize(base.Join(relative));
    }
    if relative == [] {
      assert fs.canonicalize(stored.Join(["."])) == fs.canonicalize(stored);
      assert canonical == base;
    }
  }

  // -------------------------------------------------------------------- the lists

  /** The two lists correspond: each cached entry is what its written entry means. */
  ghost predicate Aligned(fs: FileSystem, root: Option<Path>, written: seq<Path>, cache: seq<Path>) {
    && |written| == |cache|
    && (forall i | 0 <= i < |written| :: CanonicalIndexedPath(fs, root, written[i]) == cache[i])
  }

  /** No entry covers another. */
  ghost predicate Antichain(cache: seq<Path>) {
    forall i, j | 0 <= i < |cache| && 0 <= j < |cache| && cache[i].StartsWith(cache[j]) :: i == j
  }

  ghost predicate Covers(cache: seq<Path>, p: Path) {
    exists i :: 0 <= i < |cache| && p.StartsWith(cache[i])
  }

  /** Entries of `xs` whose cached form does not lie under `top`. */
  function Outside(xs: seq<Path>, cache: seq<Path>, top: Path): seq<Path>
    requires |xs| == |cache|
  {
    if xs == [] then []
    else (if cache[0].StartsWith(top) then [] else [xs[0]]) + Outside(xs[1..], cache[1..], top)
  }

  lemma {:induction false} OutsideAligned(
    fs: FileSystem, root: Option<Path>, written: seq<Path>, cache: seq<Path>, top: Path)
    requires Aligned(fs, root, written, cache)
    ensures Aligned(fs, root, Outside(written, cache, top), Outside(cache, cache, top))
  {
    if written != [] {
      OutsideAligned(fs, root, written[1..], cache[1..], top);
    }
  }

  /** Exactly the entries not under `top` are kept. */
  lemma {:induction false} OutsideKeeps(cache: seq<Path>, top: Path)
    ensures forall x :: x in Outside(cache, cache, top) <==> x in cache && !x.StartsWith(top)
  {
    if cache != [] {
      OutsideKeeps(cache[1..], top);
      assert cache == [cache[0]] + cache[1..];
    }
  }

  lemma {:induction false} OutsideSizes(written: seq<Path>, cache: seq<Path>, top: Path)
    requires |written| == |cache|
    ensures |Outside(written, cache, top)| == |Outside(cache, cache, top)|
  {
    if written != [] {
      OutsideSizes(written[1..], cache[1..], top);
    }
  }

  lemma {:induction false} OutsideKeepsAll(xs: seq<Path>, cache: seq<Path>, top: Path)
    requires |xs| == |cache| && forall i | 0 <= i < |cache| :: !cache[i].StartsWith(top)
    ensures Outside(xs, cache, top) == xs
  {
    if xs != [] {
      OutsideKeepsAll(xs[1..], cache[1..], top);
    }
  }

  lemma AntichainTail(cache: seq<Path>)
    requires cache != [] && Antichain(cache)
    ensures Antichain(cache[1..])
    ensures forall x | x in cache[1..] :: !x.StartsWith(cache[0]) && !cache[0].StartsWith(x)
  {
    forall i, j | 0 <= i < |cache[1..]| && 0 <= j < |cache[1..]| && cache[1..][i].StartsWith(cache[1..][j])
      ensures i == j
    {
      assert cache[i + 1].StartsWith(cache[j + 1]);
    }
    forall x | x in cache[1..]
      ensures !x.StartsWith(cache[0]) && !cache[0].StartsWith(x)
    {
      var i :| 0 <= i < |cache[1..]| && cache[1..][i] == x;
      assert cache[i + 1] == x;
    }
  }

  lemma AntichainCons(x: Path, rest: seq<Path>)
    requires Antichain(rest) && forall y | y in rest :: !y.StartsWith(x) && !x.StartsWith(y)
    ensures Antichain([x] + rest)
  {
    var all := [x] + rest;
    forall i, j | 0 <= i < |all| && 0 <= j < |all| && all[i].StartsWith(all[j])
      ensures i == j
    {
      if 0 < i && 0 < j {
        assert rest[i - 1].StartsWith(rest[j - 1]);
      }
    }
  }

  lemma {:induction false} OutsideAntichain(cache: seq<Path>, top: Path)
    requires Antichain(cache)
    ensures Antichain(Outside(cache, cache, top))
  {
    if cache != [] {
      AntichainTail(cache);
      OutsideAntichain(cache[1..], top);
      OutsideKeeps(cache[1..], top);
      if !cache[0].StartsWith(top) {
        AntichainCons(cache[0], Outside(cache[1..], cache[1..], top));
      }
    }
  }

  lemma AntichainAppend(cache: seq<Path>, x: Path)
    requires Antichain(cache) && forall y | y in cache :: !y.StartsWith(x) && !x.StartsWith(y)
    ensures Antichain(cache + [x])
  {
    var all := cache + [x];
    forall i, j | 0 <= i < |all| && 0 <= j < |all| && all[i].StartsWith(all[j])
      ensures i == j
    {
      if i < |cache| && j < |cache| {
        assert cache[i].StartsWith(cache[j]);
      }
    }
  }

  lemma AlignedAppend(
    fs: FileSystem, root: Option<Path>, written: seq<Path>, cache: seq<Path>, w: Path, c: Path)
    requires Aligned(fs, root, written, cache) && CanonicalIndexedPath(fs, root, w) == c
    ensures Aligned(fs, root, written + [w], cache + [c])
  {
  }

  lemma StartsWithIsTransitive(p: Path, q: Path, r: Path)
    requires p.StartsWith(q) && q.StartsWith(r)
    ensures p.StartsWith(r)
  {
    assert p.parts[..|q.parts|][..|r.parts|] == p.parts[..|r.parts|];
  }

  /** Dropping entries under the new one and adding it covers what was covered and what it covers. */
  lemma AddCovers(cache: seq<Path>, top: Path, p: Path)
    ensures Covers(Outside(cache, cache, top) + [top], p) <==> Covers(cache, p) || p.StartsWith(top)
  {
    var kept := Outside(cache, cache, top);
    OutsideKeeps(cache, top);
    if i :| 0 <= i < |cache| && p.StartsWith(cache[i]) {
      if cache[i].StartsWith(top) {
        StartsWithIsTransitive(p, cache[i], top);
        assert (kept + [top])[|kept|] == top;
      } else {
        assert cache[i] in kept;
        var j :| 0 <= j < |kept| && kept[j] == cache[i];
        assert (kept + [top])[j] == cache[i];
      }
    } else if p.StartsWith(top) {
      assert (kept + [top])[|kept|] == top;
    } else {
      forall j | 0 <= j < |kept|
        ensures !p.StartsWith(kept[j])
      {
        assert kept[j] in cache;
      }
    }
  }

  // ------------------------------------------------------------------- the object

  function WithoutAt<T>(xs: seq<T>, i: nat): seq<T>
    requires i < |xs|
  {
    xs[..i] + xs[i + 1..]
  }

  lemma AntichainWithout(cache: seq<Path>, i: nat)
    requires Antichain(cache) && i < |cache|
    ensures Antichain(WithoutAt(cache, i))
    ensures !Covers(WithoutAt(cache, i), cache[i])
  {
    var rest := WithoutAt(cache, i);
    forall j | 0 <= j < |rest|
      ensures rest[j] == cache[if j < i then j else j + 1]
    {
    }
    forall j, k | 0 <= j < |rest| && 0 <= k < |rest| && rest[j].StartsWith(rest[k])
      ensures j == k
    {
      assert cache[if j < i then j else j + 1].StartsWith(cache[if k < i then k else k + 1]);
    }
    forall j | 0 <= j < |rest|
      ensures !cache[i].StartsWith(rest[j])
    {
      assert rest[j] == cache[if j < i then j else j + 1];
    }
  }

  class Settings {
    const workspaceRoot: Option<Path>
    var indexedPaths: seq<Path>
    var indexedPathsCache: seq<Path>

    ghost predicate InStep(fs: FileSystem)
      reads this
    {
      Aligned(fs, workspaceRoot, indexedPaths, indexedPathsCache)
    }

    constructor (workspaceRoot: Option<Path>, indexedPaths: seq<Path>)
      ensures this.workspaceRoot == workspaceRoot && this.indexedPaths == indexedPaths
      ensures indexedPathsCache == []
    {
      this.workspaceRoot := workspaceRoot;
      this.indexedPaths := indexedPaths;
      this.indexedPathsCache := [];
    }

    /** Rebuilds the cache from what is written; a cache in step is rebuilt unchanged. */
    method SyncIndexedPathCache(fs: FileSystem)
      modifies this`indexedPathsCache
      ensures InStep(fs)
      ensures old(InStep(fs)) ==> indexedPathsCache == old(indexedPathsCache)
    {
      var cache: seq<Path> := [];
      for i := 0 to |indexedPaths|
        invariant |cache| == i
        invariant forall k | 0 <= k < i :: CanonicalIndexedPath(fs, workspaceRoot, indexedPaths[k]) == cache[k]
      {
        cache := cache + [CanonicalIndexedPath(fs, workspaceRoot, indexedPaths[i])];
      }
      indexedPathsCache := cache;
    }

    /** The first entry that equals or covers a path, or whether some entry lies under it. */
    method FindCover(canonical: Path) returns (cover: Option<Path>, hasDescendants: bool)
      ensures cover.Some? ==> cover.value in indexedPathsCache && canonical.StartsWith(cover.value)
      ensures cover.Some? <==> Covers(indexedPathsCache, canonical)
      ensures cover.None? ==>
                (hasDescendants <==> exists e :: e in indexedPathsCache && e.StartsWith(canonical))
    {
      hasDescendants := false;
      for i := 0 to |indexedPathsCache|
        invariant forall k | 0 <= k < i :: !canonical.StartsWith(indexedPathsCache[k])
        invariant hasDescendants <==> exists k :: 0 <= k < i && indexedPathsCache[k].StartsWith(canonical)
      {
        var existing := indexedPathsCache[i];
        if existing == canonical || canonical.StartsWith(existing) {
          assert existing.parts[..|existing.parts|] == existing.parts;
          return Some(existing), hasDescendants;
        }
        if existing.StartsWith(canonical) {
          hasDescendants := true;
        }
      }
      return None, hasDescendants;
    }

    /** Drops both forms of every entry under a path, last first. */
    method RemoveDescendants(top: Path)
      requires |indexedPaths| == |indexedPathsCache|
      modifies this
      ensures indexedPathsCache == Outside(old(indexedPathsCache), old(indexedPathsCache), top)
      ensures indexedPaths == Outside(old(indexedPaths), old(indexedPathsCache), top)
    {
      hide Outside, WithoutAt;
      ghost var cache, written := indexedPathsCache, indexedPaths;
      RemovalStarts(cache, cache, top);
      RemovalStarts(written, cache, top);
      for index := |indexedPathsCache| downto 0
        invariant |indexedPaths| == |indexedPathsCache| && index <= |cache| == |written|
        invariant indexedPathsCache == Remaining(cache, cache, index, top)
        invariant indexedPaths == Remaining(written, cache, index, top)
      {
        RemovalStep(cache, cache, index, top);
        RemovalStep(written, cache, index, top);
        if indexedPathsCache[index].StartsWith(top) {
          indexedPathsCache := WithoutAt(indexedPathsCache, index);
          indexedPaths := WithoutAt(indexedPaths, index);
        }
      }
      RemovalEnds(cache, cache, top);
      RemovalEnds(written, cache, top);
    }

    /** Covers a path, replacing the entries under it; refuses one already covered. */
    method AddIndexedPath(fs: FileSystem, path: Path) returns (r: Result<(), PathError>)
      requires |indexedPaths| == |indexedPathsCache|
      modifies this
      ensures |indexedPaths| == |indexedPathsCache|
      ensures Lawful(fs, workspaceRoot) && old(InStep(fs)) ==> InStep(fs)
      ensures old(Antichain(indexedPathsCache)) ==> Antichain(indexedPathsCache)
      ensures r == Failure(InvalidPath) <==> fs.canonicalize(path).None?
      ensures r.Failure? && r.error.AlreadyIndexed? ==>
                r.error.cover in indexedPathsCache && fs.canonicalize(path).value.StartsWith(r.error.cover)
      ensures fs.canonicalize(path).Some? ==>
                (r.Failure? <==> old(Covers(indexedPathsCache, fs.canonicalize(path).value)))
      ensures r.Failure? ==>
                !r.error.NotFound? && indexedPaths == old(indexedPaths) && indexedPathsCache == old(indexedPathsCache)
      ensures r.Success? ==>
                var top := fs.canonicalize(path).value;
                && indexedPathsCache == Outside(old(indexedPathsCache), old(indexedPathsCache), top) + [top]
                && indexedPaths == Outside(old(indexedPaths), old(indexedPathsCache), top)
                                   + [PortableIndexedPath(fs, workspaceRoot, top)]
                && (forall p ::
                      Covers(indexedPathsCache, p) <==> old(Covers(indexedPathsCache, p)) || p.StartsWith(top))
    {
      var canonical := fs.canonicalize(path);
      if canonical.None? {
        return Failure(InvalidPath);
      }
      var top := canonical.value;
      var cover, hasDescendants := FindCover(top);
      if cover.Some? {
        return Failure(AlreadyIndexed(cover.value));
      }
      ghost var cache := indexedPathsCache;
      ghost var written := indexedPaths;
      if hasDescendants {
        RemoveDescendants(top);
      } else {
        NoneUnder(cache, written, top);
      }
      AddExtends(cache, top);
      OutsideSizes(written, cache, top);
      if Lawful(fs, workspaceRoot) && Aligned(fs, workspaceRoot, written, cache) {
        AddKeepsStep(fs, workspaceRoot, written, cache, path, top);
      }
      indexedPaths := indexedPaths + [PortableIndexedPath(fs, workspaceRoot, top)];
      indexedPathsCache := indexedPathsCache + [top];
      return Success(());
    }

    /** Drops exactly the entry that is the given path. */
    method RemoveIndexedPath(fs: FileSystem, path: Path) returns (r: Result<(), PathError>)
      requires |indexedPaths| == |indexedPathsCache|
      modifies this
      ensures |indexedPaths| == |indexedPathsCache|
      ensures old(InStep(fs)) ==> InStep(fs)
      ensures old(Antichain(indexedPathsCache)) ==> Antichain(indexedPathsCache)
      ensures r == Failure(InvalidPath) <==> fs.canonicalize(path).None?
      ensures r == Failure(NotFound) <==>
                fs.canonicalize(path).Some? && fs.canonicalize(path).value !in old(indexedPathsCache)
      ensures r.Failure? ==> indexedPaths == old(indexedPaths) && indexedPathsCache == old(indexedPathsCache)
      ensures r.Success? ==>
                exists i: nat ::
                  && i < |old(indexedPathsCache)| == |old(indexedPaths)|
                  && old(indexedPathsCache)[i] == fs.canonicalize(path).value
                  && fs.canonicalize(path).value !in old(indexedPathsCache)[..i]
                  && indexedPathsCache == WithoutAt(old(indexedPathsCache), i)
                  && indexedPaths == WithoutAt(old(indexedPaths), i)
      ensures r.Success? && old(Antichain(indexedPathsCache)) ==>
                !Covers(indexedPathsCache, fs.canonicalize(path).value)
    {
      var canonical := fs.canonicalize(path);
      if canonical.None? {
        return Failure(InvalidPath);
      }
      for index := 0 to |indexedPathsCache|
        invariant canonical.value !in indexedPathsCache[..index]
        invariant indexedPaths == old(indexedPaths) && indexedPathsCache == old(indexedPathsCache)
      {
        if indexedPathsCache[index] == canonical.value {
          if Antichain(indexedPathsCache) {
            AntichainWithout(indexedPathsCache, index);
          }
          indexedPathsCache := WithoutAt(indexedPathsCache, index);
          indexedPaths := WithoutAt(indexedPaths, index);
          return Success(());
        }
      }
      assert indexedPathsCache[..|indexedPathsCache|] == indexedPathsCache;
      return Failure(NotFound);
    }
  }

  /** A list whose entries from `index` on have been looked at, last first. */
  function Remaining(xs: seq<Path>, cache: seq<Path>, index: nat, top: Path): seq<Path>
    requires index <= |xs| == |cache|
  {
    xs[..index] + Outside(xs[index..], cache[index..], top)
  }

  lemma RemovalStarts(xs: seq<Path>, cache: seq<Path>, top: Path)
    requires |xs| == |cache|
    ensures Remaining(xs, cache, |xs|, top) == xs
  {
  }

  lemma RemovalEnds(xs: seq<Path>, cache: seq<Path>, top: Path)
    requires |xs| == |cache|
    ensures Remaining(xs, cache, 0, top) == Outside(xs, cache, top)
  {
    assert xs[0..] == xs && cache[0..] == cache;
  }

  /** Looking at one more entry drops it exactly when it lies under `top`. */
  lemma RemovalStep(xs: seq<Path>, cache: seq<Path>, index: nat, top: Path)
    requires index < |xs| == |cache|
    ensures var before := Remaining(xs, cache, index + 1, top);
            && index < |before| && before[index] == xs[index]
            && Remaining(xs, cache, index, top) ==
               if cache[index].StartsWith(top) then WithoutAt(before, index) else before
    ensures |Remaining(xs, cache, index, top)| == |Remaining(cache, cache, index, top)|
    ensures |Remaining(xs, cache, index + 1, top)| == |Remaining(cache, cache, index + 1, top)|
  {
    OutsideSizes(xs[index..], cache[index..], top);
    OutsideSizes(xs[index + 1..], cache[index + 1..], top);
    OutsideMore(xs, cache, index, top);
    hide Outside;
    DropAt(xs, index, Outside(xs[index + 1..], cache[index + 1..], top));
    KeepAt(xs, index, Outside(xs[index + 1..], cache[index + 1..], top));
  }

  lemma OutsideMore(xs: seq<Path>, cache: seq<Path>, index: nat, top: Path)
    requires index < |xs| == |cache|
    ensures Outside(xs[index..], cache[index..], top) ==
            (if cache[index].StartsWith(top) then [] else [xs[index]]) +
            Outside(xs[index + 1..], cache[index + 1..], top)
  {
    assert xs[index..][1..] == xs[index + 1..] && cache[index..][1..] == cache[index + 1..];
  }

  lemma DropAt(xs: seq<Path>, index: nat, rest: seq<Path>)
    requires index < |xs|
    ensures (xs[..index + 1] + rest)[index] == xs[index]
    ensures WithoutAt(xs[..index + 1] + rest, index) == xs[..index] + rest
  {
  }

  lemma KeepAt(xs: seq<Path>, index: nat, rest: seq<Path>)
    requires index < |xs|
    ensures xs[..index + 1] + rest == xs[..index] + ([xs[index]] + rest)
  {
  }

  lemma NoneUnder(cache: seq<Path>, written: seq<Path>, top: Path)
    requires |written| == |cache| && forall e | e in cache :: !e.StartsWith(top)
    ensures Outside(cache, cache, top) == cache && Outside(written, cache, top) == written
  {
    OutsideKeepsAll(cache, cache, top);
    OutsideKeepsAll(written, cache, top);
  }

  /** What a successful addition does to coverage, with no condition on the file system. */
  lemma AddExtends(cache: seq<Path>, top: Path)
    requires !Covers(cache, top)
    ensures var kept := Outside(cache, cache, top) + [top];
            && (Antichain(cache) ==> Antichain(kept))
            && (forall p :: Covers(kept, p) <==> Covers(cache, p) || p.StartsWith(top))
  {
    forall p
      ensures Covers(Outside(cache, cache, top) + [top], p) <==> Covers(cache, p) || p.StartsWith(top)
    {
      AddCovers(cache, top, p);
    }
    if Antichain(cache) {
      OutsideAntichain(cache, top);
      OutsideKeeps(cache, top);
      AntichainAppend(Outside(cache, cache, top), top);
    }
  }

  /** An addition keeps lists that are in step with a lawful file system in step. */
  lemma AddKeepsStep(
    fs: FileSystem, root: Option<Path>, written: seq<Path>, cache: seq<Path>, path: Path, top: Path)
    requires Lawful(fs, root) && Aligned(fs, root, written, cache) && fs.canonicalize(path) == Some(top)
    ensures Aligned(fs, root, Outside(written, cache, top) + [PortableIndexedPath(fs, root, top)],
                    Outside(cache, cache, top) + [top])
  {
    hide Lawful;
    OutsideAligned(fs, root, written, cache, top);
    PortableRoundTrip(fs, root, path, top);
    AlignedAppend(fs, root, Outside(written, cache, top), Outside(cache, cache, top),
                  PortableIndexedPath(fs, root, top), top);
  }
}
