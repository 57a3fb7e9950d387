/**
  Upstream traversal of the plan graph: from a collection of start operators,
  follow every occupied input slot to the operator that feeds it, visiting each
  operator once. Only the set of visited operators is modelled; the order of
  visits and the callbacks are not.

  `Reachable` is the reference definition (an upstream path exists) and
  `UpstreamReach` the worklist algorithm; `ReachCharacterization` proves they agree.
 */
module Traversal {
  import opened PlanGraph

  /** Every element of `roots` is an operator of `g`. */
  predicate AllOperators(g: Graph, roots: seq<OpId>) {
    forall k :: 0 <= k < |roots| ==> IsOperator(g, roots[k])
  }

  /** The indices below `n`. */
  function Below(n: nat): (r: set<OpId>)
    ensures forall v: OpId :: v in r <==> v < n
  {
    if n == 0 then {} else Below(n - 1) + {n - 1}
  }

  /** The operators of `g`. */
  function Operators(g: Graph): (r: set<OpId>)
    ensures forall v: OpId :: v in r <==> IsOperator(g, v)
  {
    Below(|g.ops|)
  }

  /** Every producer of `v` lies in `s`. */
  ghost predicate ProducersIn(g: Graph, v: OpId, s: set<OpId>)
    requires IsOperator(g, v)
  {
    forall u :: u in Producers(g, v) ==> u in s
  }

  /** `s` is closed under upstream steps. */
  ghost predicate Closed(g: Graph, s: set<OpId>) {
    forall v :: v in s && IsOperator(g, v) ==> ProducersIn(g, v, s)
  }

  /** The operators listed in `s`. */
  function Elements(s: seq<OpId>): set<OpId> {
    set u | u in s
  }

  /** The elements of `s` that are not in `visited`, in order. */
  function Unvisited(s: seq<OpId>, visited: set<OpId>): (r: seq<OpId>)
    ensures forall u :: u in r <==> u in s && u !in visited
  {
    if s == [] then []
    else if s[0] in visited then Unvisited(s[1..], visited)
    else [s[0]] + Unvisited(s[1..], visited)
  }

  /** Marking newly found operators as visited shrinks what is left to visit. */
  lemma VisitingShrinks(all: set<OpId>, visited: set<OpId>, found: seq<OpId>)
    requires forall u :: u in found ==> u in all && u !in visited
    ensures found != [] ==> |all - (visited + Elements(found))| < |all - visited|
  {
    if found != [] {
      var rest := all - (visited + Elements(found));
      var before := all - visited;
      assert found[0] in before && found[0] !in rest;
      assert before == rest + (before - rest);
      assert found[0] in before - rest;
    }
  }

  /**
    What the worklist loop keeps: everything seen is an operator, everything
    queued has been seen, and every seen operator that is no longer queued has
    had all its producers seen.
   */
  ghost predicate WorklistInvariant(g: Graph, work: seq<OpId>, visited: set<OpId>) {
    && visited <= Operators(g)
    && (forall k :: 0 <= k < |work| ==> work[k] in visited)
    && (forall v :: v in visited && v !in work ==> ProducersIn(g, v, visited))
  }

  /** Taking one operator off the worklist and queueing its unseen producers keeps the invariant. */
  lemma WorklistStep(g: Graph, work: seq<OpId>, visited: set<OpId>)
    requires WellFormed(g) && WorklistInvariant(g, work, visited) && work != []
    ensures var found := Unvisited(Producers(g, work[0]), visited);
            WorklistInvariant(g, work[1..] + found, visited + Elements(found))
  {
    var v := work[0];
    var found := Unvisited(Producers(g, v), visited);
    var visited' := visited + Elements(found);
    var work' := work[1..] + found;
    forall u | u in visited' && u !in work' ensures ProducersIn(g, u, visited') {
      if u != v {
        assert u !in work;
      }
    }
  }

  /**
    The worklist loop: `visited` holds every operator seen so far, `work` the
    seen operators whose producers are still to be looked at.
   */
  function Traverse(g: Graph, work: seq<OpId>, visited: set<OpId>): (r: set<OpId>)
    requires WellFormed(g) && WorklistInvariant(g, work, visited)
    ensures visited <= r <= Operators(g)
    ensures Closed(g, r)
    decreases |Operators(g) - visited|, |work|
  {
    if work == [] then
      visited
    else
      var v := work[0];
      var found := Unvisited(Producers(g, v), visited);
      var visited' := visited + Elements(found);
      VisitingShrinks(Operators(g), visited, found);
      WorklistStep(g, work, visited);
      Traverse(g, work[1..] + found, visited')
  }

  /** Everything a traversal visits lies in any closed set containing what it has seen. */
  lemma {:induction false} TraverseWithin(g: Graph, work: seq<OpId>, visited: set<OpId>, s: set<OpId>)
    requires WellFormed(g) && WorklistInvariant(g, work, visited)
    requires visited <= s && Closed(g, s)
    ensures Traverse(g, work, visited) <= s
    decreases |Operators(g) - visited|, |work|
  {
    if work != [] {
      var v := work[0];
      var found := Unvisited(Producers(g, v), visited);
      var visited' := visited + Elements(found);
      assert ProducersIn(g, v, s);
      VisitingShrinks(Operators(g), visited, found);
      WorklistStep(g, work, visited);
      TraverseWithin(g, work[1..] + found, visited', s);
    }
  }

  /** The operators visited by an upstream traversal from `roots`. */
  function UpstreamReach(g: Graph, roots: seq<OpId>): (r: set<OpId>)
    requires WellFormed(g) && AllOperators(g, roots)
    ensures r <= Operators(g)
    ensures forall k :: 0 <= k < |roots| ==> roots[k] in r
    ensures Closed(g, r)
  {
    Traverse(g, roots, Elements(roots))
  }

  /** The smallest closed set containing the roots: whatever closed set contains them contains the traversal. */
  lemma UpstreamReachMinimal(g: Graph, roots: seq<OpId>, s: set<OpId>)
    requires WellFormed(g) && AllOperators(g, roots)
    requires forall k :: 0 <= k < |roots| ==> roots[k] in s
    requires Closed(g, s)
    ensures UpstreamReach(g, roots) <= s
  {
    TraverseWithin(g, roots, Elements(roots), s);
  }

  /**
    `path` starts at one of the roots and each next element is a producer of
    the one before: an upstream walk.
   */
  ghost predicate UpstreamPath(g: Graph, roots: seq<OpId>, path: seq<OpId>)
    decreases |path|
  {
    if |path| == 0 then false
    else if |path| == 1 then path[0] in roots
    else
      && UpstreamPath(g, roots, path[..|path| - 1])
      && IsOperator(g, path[|path| - 2])
      && path[|path| - 1] in Producers(g, path[|path| - 2])
  }

  /** `v` lies on some upstream path from the roots. */
  ghost predicate Reachable(g: Graph, roots: seq<OpId>, v: OpId) {
    exists path :: UpstreamPath(g, roots, path) && path[|path| - 1] == v
  }

  /** Every upstream path ends inside any closed set containing the roots. */
  lemma {:induction false} PathEndsWithin(g: Graph, roots: seq<OpId>, path: seq<OpId>, s: set<OpId>)
    requires forall k :: 0 <= k < |roots| ==> roots[k] in s
    requires Closed(g, s)
    requires UpstreamPath(g, roots, path)
    ensures path[|path| - 1] in s
    decreases |path|
  {
    if |path| > 1 {
      var prefix := path[..|path| - 1];
      PathEndsWithin(g, roots, prefix, s);
      assert prefix[|prefix| - 1] == path[|path| - 2];
    }
  }

  /** The set of reachable operators is closed and holds the roots. */
  lemma ReachableClosed(g: Graph, roots: seq<OpId>, s: set<OpId>)
    requires WellFormed(g) && AllOperators(g, roots)
    requires s == set v: OpId | v < |g.ops| && Reachable(g, roots, v)
    ensures forall k :: 0 <= k < |roots| ==> roots[k] in s
    ensures Closed(g, s)
  {
    forall k | 0 <= k < |roots| ensures roots[k] in s {
      assert UpstreamPath(g, roots, [roots[k]]);
    }
    forall v | v in s && IsOperator(g, v) ensures ProducersIn(g, v, s) {
      var path :| UpstreamPath(g, roots, path) && path[|path| - 1] == v;
      forall u | u in Producers(g, v) ensures u in s {
        var path' := path + [u];
        assert path'[..|path'| - 1] == path;
        assert UpstreamPath(g, roots, path');
      }
    }
  }

  /** The traversal visits exactly the operators that lie on an upstream path from the roots. */
  lemma ReachCharacterization(g: Graph, roots: seq<OpId>)
    requires WellFormed(g) && AllOperators(g, roots)
    ensures forall v :: v in UpstreamReach(g, roots) <==> Reachable(g, roots, v)
  {
    var reach := UpstreamReach(g, roots);
    var s := set v: OpId | v < |g.ops| && Reachable(g, roots, v);
    ReachableClosed(g, roots, s);
    UpstreamReachMinimal(g, roots, s);
    forall v | Reachable(g, roots, v) ensures v in reach {
      var path :| UpstreamPath(g, roots, path) && path[|path| - 1] == v;
      PathEndsWithin(g, roots, path, reach);
    }
  }
}
