/** Reachability over the supertypes each name supplies; the graph may have cycles. */
module SupplyGraph {
  import opened Core

  type Name = string

  /** Each name's parents, in the order they are visited. */
  type Supply = map<Name, seq<Name>>

  predicate Hop(supply: Supply, child: Name, parent: Name) {
    child in supply && parent in supply[child]
  }

  /** A walk along supply hops. */
  ghost predicate Walk(supply: Supply, path: seq<Name>) {
    && path != []
    && (|path| == 1 || (Walk(supply, path[..|path| - 1]) && Hop(supply, path[|path| - 2], path[|path| - 1])))
  }

  ghost predicate WalkBetween(supply: Supply, path: seq<Name>, from: Name, to: Name) {
    Walk(supply, path) && path[0] == from && path[|path| - 1] == to
  }

  /** In any number of hops, none included. */
  ghost predicate Visits(supply: Supply, from: Name, to: Name) {
    exists path :: WalkBetween(supply, path, from, to)
  }

  /** In at least one hop. */
  ghost predicate Reachable(supply: Supply, from: Name, to: Name) {
    exists path :: 2 <= |path| && WalkBetween(supply, path, from, to)
  }

  lemma VisitsSelf(supply: Supply, from: Name)
    ensures Visits(supply, from, from)
  {
    assert WalkBetween(supply, [from], from, from);
  }

  lemma OneMoreHop(supply: Supply, from: Name, child: Name, parent: Name)
    requires Visits(supply, from, child) && Hop(supply, child, parent)
    ensures Reachable(supply, from, parent) && Visits(supply, from, parent)
  {
    var path :| WalkBetween(supply, path, from, child);
    var longer := path + [parent];
    assert longer[..|longer| - 1] == path;
    assert WalkBetween(supply, longer, from, parent) && 2 <= |longer|;
  }

  /** Everything the search can meet: the start and every parent. */
  function Names(supply: Supply, from: Name): set<Name> {
    {from} + set child, i | child in supply && 0 <= i < |supply[child]| :: supply[child][i]
  }

  /** The parents of every name already expanded are expanded, waiting, or still to be queued. */
  ghost predicate Expanded(supply: Supply, to: Name, seen: set<Name>, met: set<Name>) {
    forall child, parent | child in seen && Hop(supply, child, parent) :: parent in met && parent != to
  }

  /** A closed set that holds the start holds every walk, and none of them ends at the target. */
  lemma {:induction false} ClosedHoldsWalks(supply: Supply, from: Name, to: Name, seen: set<Name>, path: seq<Name>)
    requires Expanded(supply, to, seen, seen) && from in seen && Walk(supply, path) && path[0] == from
    ensures path[|path| - 1] in seen
    ensures 2 <= |path| ==> path[|path| - 1] != to
  {
    if 2 <= |path| {
      ClosedHoldsWalks(supply, from, to, seen, path[..|path| - 1]);
    }
  }

  lemma ClosedIsUnreachable(supply: Supply, from: Name, to: Name, seen: set<Name>)
    requires Expanded(supply, to, seen, seen) && from in seen
    ensures !Reachable(supply, from, to)
  {
    if path :| 2 <= |path| && WalkBetween(supply, path, from, to) {
      ClosedHoldsWalks(supply, from, to, seen, path);
    }
  }

  /** What holds between two steps of the search. */
  ghost predicate Searching(supply: Supply, from: Name, to: Name, seen: set<Name>, queue: seq<Name>) {
    && from in seen + Elements(queue)
    && (forall x | x in seen + Elements(queue) :: Visits(supply, from, x) && x in Names(supply, from))
    && Expanded(supply, to, seen, seen + Elements(queue))
  }

  lemma SearchStarts(supply: Supply, from: Name, to: Name)
    ensures Searching(supply, from, to, {}, [from])
  {
    VisitsSelf(supply, from);
  }

  lemma SkipSeen(supply: Supply, from: Name, to: Name, seen: set<Name>, queue: seq<Name>)
    requires Searching(supply, from, to, seen, queue) && queue != [] && queue[0] in seen
    ensures Searching(supply, from, to, seen, queue[1..])
  {
    assert queue == [queue[0]] + queue[1..];
    assert seen + Elements(queue) == seen + Elements(queue[1..]);
  }

  /** A name without a target among its parents is expanded by queueing them all. */
  lemma ExpandName(supply: Supply, from: Name, to: Name, seen: set<Name>, queue: seq<Name>, parents: seq<Name>)
    requires Searching(supply, from, to, seen, queue) && queue != []
    requires parents == if queue[0] in supply then supply[queue[0]] else []
    requires to !in parents
    ensures Searching(supply, from, to, seen + {queue[0]}, queue[1..] + parents)
  {
    var current := queue[0];
    assert queue == [current] + queue[1..];
    forall x | x in parents
      ensures Visits(supply, from, x) && x in Names(supply, from)
    {
      OneMoreHop(supply, from, current, x);
      var i :| 0 <= i < |parents| && parents[i] == x;
      assert supply[current][i] == x;
    }
    var met := seen + {current} + Elements(queue[1..] + parents);
    assert forall x | x in seen + Elements(queue) :: x in met;
  }

  lemma FewerLeft(names: set<Name>, seen: set<Name>, x: Name)
    requires x in names && x !in seen
    ensures |names - (seen + {x})| < |names - seen|
  {
    assert names - (seen + {x}) == names - seen - {x};
  }

  lemma SearchExhausted(supply: Supply, from: Name, to: Name, seen: set<Name>)
    requires Searching(supply, from, to, seen, [])
    ensures !Reachable(supply, from, to)
  {
    assert seen + Elements([]) == seen;
    ClosedIsUnreachable(supply, from, to, seen);
  }

  lemma FoundHop(supply: Supply, from: Name, to: Name, seen: set<Name>, queue: seq<Name>)
    requires Searching(supply, from, to, seen, queue) && queue != [] && Hop(supply, queue[0], to)
    ensures Reachable(supply, from, to)
  {
    assert queue[0] in Elements(queue);
    OneMoreHop(supply, from, queue[0], to);
  }

  /** Queues parents until one of them is the target. */
  method QueueParents(parents: seq<Name>, to: Name, queue: seq<Name>) returns (hit: bool, longer: seq<Name>)
    ensures hit <==> to in parents
    ensures !hit ==> longer == queue + parents
  {
    hit, longer := false, queue;
    for i := 0 to |parents|
      invariant to !in parents[..i] && longer == queue + parents[..i]
    {
      if parents[i] == to {
        return true, longer;
      }
      longer := longer + [parents[i]];
    }
    assert parents[..|parents|] == parents;
  }

  /** Breadth first; every name is expanded once, so cycles end too. */
  method Reaches(supply: Supply, from: Name, to: Name) returns (r: bool)
    ensures r <==> Reachable(supply, from, to)
  {
    hide Searching, Reachable, Names;
    var seen: set<Name>, queue := {}, [from];
    SearchStarts(supply, from, to);
    while queue != []
      invariant Searching(supply, from, to, seen, queue)
      decreases |Names(supply, from) - seen|, |queue|
    {
      var current := queue[0];
      if current in seen {
        SkipSeen(supply, from, to, seen, queue);
        queue := queue[1..];
      } else {
        var parents := if current in supply then supply[current] else [];
        var hit, longer := QueueParents(parents, to, queue[1..]);
        if hit {
          FoundHop(supply, from, to, seen, queue);
          return true;
        }
        ExpandName(supply, from, to, seen, queue, parents);
        WaitingIsNamed(supply, from, to, seen, queue);
        FewerLeft(Names(supply, from), seen, current);
        seen, queue := seen + {current}, longer;
      }
    }
    SearchExhausted(supply, from, to, seen);
    return false;
  }

  lemma WaitingIsNamed(supply: Supply, from: Name, to: Name, seen: set<Name>, queue: seq<Name>)
    requires Searching(supply, from, to, seen, queue) && queue != []
    ensures queue[0] in Names(supply, from)
  {
    assert queue[0] in Elements(queue);
  }
}
