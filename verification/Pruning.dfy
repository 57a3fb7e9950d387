/**
  The two-pass pruning of a plan graph: a first upstream traversal from the
  sinks collects the reachable operators, a second one disconnects, at every
  operator it visits, each edge whose consumer is not reachable.
 */
module Pruning {
  import opened PlanGraph
  import opened Traversal

  /** No edge runs from output slots of `base` to an operator outside `reachable`. */
  ghost predicate SuccessorsIn(g: Graph, base: OpId, reachable: set<OpId>) {
    forall o, i :: HasEdge(g, o, i) && o.owner == base ==> i.owner in reachable
  }

  /** No edge runs from inside `reachable` to outside it. */
  ghost predicate NoEdgeLeaves(g: Graph, reachable: set<OpId>) {
    forall o, i :: HasEdge(g, o, i) && o.owner in reachable ==> i.owner in reachable
  }

  /** `h` agrees with `g` on the input slots of every operator in `s`. */
  ghost predicate SameOccupants(g: Graph, h: Graph, s: set<OpId>) {
    forall v :: v in s && IsOperator(g, v) && IsOperator(h, v) ==> h.ops[v].occupants == g.ops[v].occupants
  }

  /** Shape and the input slots of `s` carry over a chain of two graphs. */
  lemma ShapeAndOccupantsTransitive(g: Graph, h: Graph, k: Graph, s: set<OpId>)
    requires SameShape(g, h) && SameShape(h, k)
    requires SameOccupants(g, h, s) && SameOccupants(h, k, s)
    ensures SameShape(g, k) && SameOccupants(g, k, s)
  {
  }

  /**
    Walks a copy of the occupied-slot list of `o`, disconnecting each input
    slot whose owner is not in `reachable`. Iterating the copy, not the live
    list, is what lets the loop remove entries as it goes.
   */
  function PruneSnapshot(g: Graph, o: OutputSlot, snapshot: seq<InputSlot>, reachable: set<OpId>): (r: Graph)
    requires WellFormed(g) && ValidOutput(g, o)
    requires forall i :: i in snapshot ==> ValidInput(g, i)
    ensures WellFormed(r) && SameShape(g, r)
    ensures forall o', i' :: HasEdge(r, o', i') <==>
              HasEdge(g, o', i') && !(o' == o && i' in snapshot && i'.owner !in reachable)
    ensures SameOccupants(g, r, reachable)
    ensures (forall i :: i in snapshot && i.owner !in reachable ==> !HasEdge(g, o, i)) ==> r == g
    decreases |snapshot|
  {
    if snapshot == [] then
      g
    else
      var i := snapshot[0];
      var g' := if i.owner in reachable then g else Disconnect(g, o, i);
      SameShapeSlots(g, g');
      var r := PruneSnapshot(g', o, snapshot[1..], reachable);
      ShapeAndOccupantsTransitive(g, g', r, reachable);
      PruneSnapshotStep(g, o, snapshot, reachable, g', r);
      r
  }

  /** Dropping the head of the snapshot and then pruning the rest prunes the whole snapshot. */
  lemma PruneSnapshotStep(g: Graph, o: OutputSlot, snapshot: seq<InputSlot>, reachable: set<OpId>, g': Graph, r: Graph)
    requires snapshot != []
    requires forall o', i' :: HasEdge(g', o', i') <==>
               HasEdge(g, o', i') && !(o' == o && i' == snapshot[0] && i'.owner !in reachable)
    requires snapshot[0].owner in reachable || !HasEdge(g, o, snapshot[0]) ==> g' == g
    requires forall o', i' :: HasEdge(r, o', i') <==>
               HasEdge(g', o', i') && !(o' == o && i' in snapshot[1..] && i'.owner !in reachable)
    requires (forall i :: i in snapshot[1..] && i.owner !in reachable ==> !HasEdge(g', o, i)) ==> r == g'
    ensures forall o', i' :: HasEdge(r, o', i') <==>
              HasEdge(g, o', i') && !(o' == o && i' in snapshot && i'.owner !in reachable)
    ensures (forall i :: i in snapshot && i.owner !in reachable ==> !HasEdge(g, o, i)) ==> r == g
  {
    if forall i :: i in snapshot && i.owner !in reachable ==> !HasEdge(g, o, i) {
      assert g' == g;
    }
  }

  /** Prunes the output slots of `base` from index `y` on. */
  function PruneOutputsFrom(g: Graph, base: OpId, y: nat, reachable: set<OpId>): (r: Graph)
    requires WellFormed(g) && IsOperator(g, base) && y <= |g.ops[base].occupiedSlots|
    ensures WellFormed(r) && SameShape(g, r)
    ensures forall o, i :: HasEdge(r, o, i) <==>
              HasEdge(g, o, i) && !(o.owner == base && o.index >= y && i.owner !in reachable)
    ensures SameOccupants(g, r, reachable)
    ensures SuccessorsIn(g, base, reachable) ==> r == g
    decreases |g.ops[base].occupiedSlots| - y
  {
    if y == |g.ops[base].occupiedSlots| then
      g
    else
      var o := OutputSlot(base, y);
      var snapshot := OccupiedSlots(g, o);
      var g' := PruneSnapshot(g, o, snapshot, reachable);
      assert |g'.ops[base].occupiedSlots| == |g.ops[base].occupiedSlots|;
      var r := PruneOutputsFrom(g', base, y + 1, reachable);
      PruneOutputStep(g, base, y, reachable, g', r);
      ShapeAndOccupantsTransitive(g, g', r, reachable);
      r
  }

  /** One output slot pruned from a snapshot of its own list, then the rest: the edges combine. */
  lemma PruneOutputStep(g: Graph, base: OpId, y: nat, reachable: set<OpId>, g': Graph, r: Graph)
    requires WellFormed(g) && IsOperator(g, base) && y < |g.ops[base].occupiedSlots|
    requires forall o', i' :: HasEdge(g', o', i') <==>
               HasEdge(g, o', i') && !(o' == OutputSlot(base, y) && i' in OccupiedSlots(g, OutputSlot(base, y))
                                      && i'.owner !in reachable)
    requires (forall i :: i in OccupiedSlots(g, OutputSlot(base, y)) && i.owner !in reachable ==>
                !HasEdge(g, OutputSlot(base, y), i)) ==> g' == g
    requires forall o, i :: HasEdge(r, o, i) <==>
               HasEdge(g', o, i) && !(o.owner == base && o.index >= y + 1 && i.owner !in reachable)
    requires SuccessorsIn(g', base, reachable) ==> r == g'
    ensures forall o, i :: HasEdge(r, o, i) <==>
              HasEdge(g, o, i) && !(o.owner == base && o.index >= y && i.owner !in reachable)
    ensures SuccessorsIn(g, base, reachable) ==> r == g
  {
    var o := OutputSlot(base, y);
    forall o', i' ensures HasEdge(r, o', i') <==>
              HasEdge(g, o', i') && !(o'.owner == base && o'.index >= y && i'.owner !in reachable)
    {
      if o' == o && HasEdge(g, o', i') {
        assert i' in OccupiedSlots(g, o);
      }
    }
    assert forall i :: i in OccupiedSlots(g, o) ==> HasEdge(g, o, i);
  }

  /** Disconnects every successor of `base` that is not in `reachable`. */
  function PruneUnreachableSuccessors(g: Graph, base: OpId, reachable: set<OpId>): (r: Graph)
    requires WellFormed(g) && IsOperator(g, base)
    ensures WellFormed(r) && SameShape(g, r)
    ensures forall o, i :: HasEdge(r, o, i) <==>
              HasEdge(g, o, i) && !(o.owner == base && i.owner !in reachable)
    ensures SuccessorsIn(r, base, reachable)
    ensures SameOccupants(g, r, reachable)
    ensures SuccessorsIn(g, base, reachable) ==> r == g
  {
    PruneOutputsFrom(g, base, 0, reachable)
  }

  /**
    What the second traversal keeps: everything seen is reachable, everything
    queued has been seen, and every seen operator no longer queued has had its
    producers seen and its unreachable successors disconnected.
   */
  ghost predicate SecondPassInvariant(g: Graph, reachable: set<OpId>, work: seq<OpId>, visited: set<OpId>) {
    && reachable <= Operators(g)
    && Closed(g, reachable)
    && visited <= reachable
    && (forall k :: 0 <= k < |work| ==> work[k] in visited)
    && (forall v :: v in visited && v !in work ==> ProducersIn(g, v, visited) && SuccessorsIn(g, v, reachable))
  }

  /**
    What the second traversal, started with `visited` seen, promises about its
    result `r` (the pruned graph and the set it visited): the shape and the
    input slots of reachable operators are kept, the visited set is closed and
    within `reachable`, and exactly the edges from a visited operator to an
    unreachable one are gone; a graph with no such edge comes back unchanged.
   */
  ghost predicate PassOutcome(g: Graph, reachable: set<OpId>, visited: set<OpId>, r: (Graph, set<OpId>)) {
    && WellFormed(r.0) && SameShape(g, r.0)
    && visited <= r.1 <= reachable
    && Closed(g, r.1)
    && SameOccupants(g, r.0, reachable)
    && (forall o, i :: HasEdge(r.0, o, i) <==>
          HasEdge(g, o, i) && !(o.owner in r.1 && i.owner !in reachable))
    && (NoEdgeLeaves(g, reachable) ==> r.0 == g)
  }

  /**
    The second upstream traversal. Its callback prunes the operator being
    visited before the traversal reads that operator's producers, so the walk
    runs over a graph that changes under it.
   */
  function SecondPass(g: Graph, reachable: set<OpId>, work: seq<OpId>, visited: set<OpId>): (r: (Graph, set<OpId>))
    requires WellFormed(g) && SecondPassInvariant(g, reachable, work, visited)
    ensures PassOutcome(g, reachable, visited, r)
    decreases |reachable - visited|, |work|
  {
    if work == [] then
      SecondPassDone(g, reachable, visited);
      (g, visited)
    else
      var step := Visit(g, reachable, work, visited);
      var r := SecondPass(step.graph, reachable, step.work, step.visited);
      SecondPassResult(g, reachable, work, visited, step, r);
      r
  }

  /** With the worklist empty, the graph already is what the traversal promises. */
  lemma SecondPassDone(g: Graph, reachable: set<OpId>, visited: set<OpId>)
    requires WellFormed(g) && SecondPassInvariant(g, reachable, [], visited)
    ensures PassOutcome(g, reachable, visited, (g, visited))
  {
  }

  /** The traversal state after one visit. */
  datatype VisitState = VisitState(graph: Graph, work: seq<OpId>, visited: set<OpId>)

  /** What one visit of the head of the worklist does to the state. */
  ghost predicate VisitOutcome(g: Graph, reachable: set<OpId>, work: seq<OpId>, visited: set<OpId>, r: VisitState)
    requires work != []
  {
    && WellFormed(r.graph) && SecondPassInvariant(r.graph, reachable, r.work, r.visited)
    && (|reachable - r.visited| < |reachable - visited| || (r.visited == visited && |r.work| < |work|))
    && visited <= r.visited
    && SameShape(g, r.graph) && SameOccupants(g, r.graph, reachable)
    && (forall o, i :: HasEdge(r.graph, o, i) <==>
          HasEdge(g, o, i) && !(o.owner == work[0] && i.owner !in reachable))
    && (SuccessorsIn(g, work[0], reachable) ==> r.graph == g)
  }

  /**
    One visit of the second traversal: prune the successors of the head of the
    worklist, then queue its producers not seen yet.
   */
  function Visit(g: Graph, reachable: set<OpId>, work: seq<OpId>, visited: set<OpId>): (r: VisitState)
    requires WellFormed(g) && SecondPassInvariant(g, reachable, work, visited) && work != []
    ensures VisitOutcome(g, reachable, work, visited, r)
  {
    var v := work[0];
    var g' := PruneUnreachableSuccessors(g, v, reachable);
    var found := Unvisited(Producers(g', v), visited);
    VisitStep(g, reachable, work, visited, g', found);
    VisitState(g', work[1..] + found, visited + Elements(found))
  }

  /** The state one visit leaves, given what pruning the head of the worklist did. */
  lemma VisitStep(g: Graph, reachable: set<OpId>, work: seq<OpId>, visited: set<OpId>, g': Graph, found: seq<OpId>)
    requires WellFormed(g) && SecondPassInvariant(g, reachable, work, visited) && work != []
    requires WellFormed(g') && SameShape(g, g')
    requires forall o, i :: HasEdge(g', o, i) <==> HasEdge(g, o, i) && !(o.owner == work[0] && i.owner !in reachable)
    requires SuccessorsIn(g', work[0], reachable)
    requires SameOccupants(g, g', reachable)
    requires SuccessorsIn(g, work[0], reachable) ==> g' == g
    requires found == Unvisited(Producers(g', work[0]), visited)
    ensures VisitOutcome(g, reachable, work, visited, VisitState(g', work[1..] + found, visited + Elements(found)))
  {
    SecondPassStep(g, reachable, work, visited, g');
    VisitingShrinks(reachable, visited, found);
  }

  /** Pruning the head of the worklist and queueing its unseen producers keeps the invariant. */
  lemma SecondPassStep(g: Graph, reachable: set<OpId>, work: seq<OpId>, visited: set<OpId>, g': Graph)
    requires SecondPassInvariant(g, reachable, work, visited) && work != []
    requires SameShape(g, g') && SameOccupants(g, g', reachable) && SuccessorsIn(g', work[0], reachable)
    requires forall o, i :: HasEdge(g', o, i) ==> HasEdge(g, o, i)
    ensures Producers(g', work[0]) == Producers(g, work[0])
    ensures forall u :: u in Unvisited(Producers(g', work[0]), visited) ==> u in reachable && u !in visited
    ensures var found := Unvisited(Producers(g', work[0]), visited);
            SecondPassInvariant(g', reachable, work[1..] + found, visited + Elements(found))
  {
    var v := work[0];
    ProducersFollowOccupants(g, g', reachable);
    var found := Unvisited(Producers(g', v), visited);
    var visited' := visited + Elements(found);
    var work' := work[1..] + found;
    assert ProducersIn(g, v, reachable);
    forall u | u in visited' && u !in work'
      ensures ProducersIn(g', u, visited') && SuccessorsIn(g', u, reachable)
    {
      if u != v {
        assert u !in work;
        assert SuccessorsIn(g, u, reachable);
      }
    }
  }

  /** Operators whose input slots did not change have the same producers. */
  lemma ProducersFollowOccupants(g: Graph, h: Graph, s: set<OpId>)
    requires SameShape(g, h) && SameOccupants(g, h, s)
    ensures forall v :: v in s && IsOperator(g, v) ==> Producers(h, v) == Producers(g, v)
    ensures s <= Operators(g) && Closed(g, s) ==> Closed(h, s)
  {
  }

  /** The result of the recursive call, read back against the graph before the visit. */
  lemma SecondPassResult(g: Graph, reachable: set<OpId>, work: seq<OpId>, visited: set<OpId>,
                         step: VisitState, r: (Graph, set<OpId>))
    requires SecondPassInvariant(g, reachable, work, visited) && work != []
    requires VisitOutcome(g, reachable, work, visited, step)
    requires PassOutcome(step.graph, reachable, step.visited, r)
    ensures PassOutcome(g, reachable, visited, r)
  {
    var g' := step.graph;
    SameShapeTransitive(g, g', r.0);
    ShapeAndOccupantsTransitive(g, g', r.0, reachable);
    ClosedCarriesBack(g, g', reachable, r.1);
    EdgesCompose(g, g', r.0, reachable, work[0], r.1);
  }

  /** A set of reachable operators closed after a visit was closed before it. */
  lemma ClosedCarriesBack(g: Graph, g': Graph, reachable: set<OpId>, s: set<OpId>)
    requires SameShape(g, g') && SameOccupants(g, g', reachable)
    requires s <= reachable && Closed(g', s)
    ensures Closed(g, s)
  {
    ProducersFollowOccupants(g, g', reachable);
  }

  /** Pruning `v` and then the rest of `s` removes the edges from `s` to outside `reachable`. */
  lemma EdgesCompose(g: Graph, g': Graph, r: Graph, reachable: set<OpId>, v: OpId, s: set<OpId>)
    requires v in s && v in reachable
    requires forall o, i :: HasEdge(g', o, i) <==> HasEdge(g, o, i) && !(o.owner == v && i.owner !in reachable)
    requires SuccessorsIn(g, v, reachable) ==> g' == g
    requires forall o, i :: HasEdge(r, o, i) <==> HasEdge(g', o, i) && !(o.owner in s && i.owner !in reachable)
    requires NoEdgeLeaves(g', reachable) ==> r == g'
    ensures forall o, i :: HasEdge(r, o, i) <==> HasEdge(g, o, i) && !(o.owner in s && i.owner !in reachable)
    ensures NoEdgeLeaves(g, reachable) ==> r == g
  {
    if NoEdgeLeaves(g, reachable) {
      assert SuccessorsIn(g, v, reachable);
    }
  }

  /**
    The graph part of pruning: the reachable set of the first pass, then the
    second pass from the same sinks.
   */
  function PruneGraph(g: Graph, sinks: seq<OpId>): (r: Graph)
    requires WellFormed(g) && AllOperators(g, sinks)
    ensures WellFormed(r) && SameShape(g, r) && AllOperators(r, sinks)
    ensures SameOccupants(g, r, UpstreamReach(g, sinks))
    ensures forall o, i :: HasEdge(r, o, i) <==>
              HasEdge(g, o, i) && !(o.owner in UpstreamReach(g, sinks) && i.owner !in UpstreamReach(g, sinks))
    ensures NoEdgeLeaves(g, UpstreamReach(g, sinks)) ==> r == g
  {
    var reachable := UpstreamReach(g, sinks);
    var pass := SecondPass(g, reachable, sinks, Elements(sinks));
    assert PassOutcome(g, reachable, Elements(sinks), pass);
    SecondPassVisitsReach(g, sinks);
    pass.0
  }

  /**
    The second walk, although it runs over the graph it is pruning, visits
    exactly the operators the first walk found.
   */
  lemma SecondPassVisitsReach(g: Graph, sinks: seq<OpId>)
    requires WellFormed(g) && AllOperators(g, sinks)
    ensures SecondPass(g, UpstreamReach(g, sinks), sinks, Elements(sinks)).1 == UpstreamReach(g, sinks)
  {
    var reachable := UpstreamReach(g, sinks);
    var pass := SecondPass(g, reachable, sinks, Elements(sinks));
    assert PassOutcome(g, reachable, Elements(sinks), pass);
    UpstreamReachMinimal(g, sinks, pass.1);
  }

  /**
    Two graphs of the same shape that agree on the input slots of every
    operator reachable in the first have the same reachable operators.
   */
  lemma SameReach(g: Graph, h: Graph, roots: seq<OpId>)
    requires WellFormed(g) && WellFormed(h) && SameShape(g, h) && AllOperators(g, roots)
    requires SameOccupants(g, h, UpstreamReach(g, roots))
    ensures AllOperators(h, roots)
    ensures UpstreamReach(h, roots) == UpstreamReach(g, roots)
  {
    var reach := UpstreamReach(g, roots);
    ProducersFollowOccupants(g, h, reach);
    UpstreamReachMinimal(h, roots, reach);
    var reach' := UpstreamReach(h, roots);
    ProducersFollowOccupants(h, g, reach');
    UpstreamReachMinimal(g, roots, reach');
  }

  /**
    Pruning removes exactly the edges that run from an operator reachable from
    the sinks to one that is not: it adds no edge, and keeps every edge into a
    reachable operator and every edge between unreachable ones.
   */
  lemma PruneRemovesExactlyDeadEdges(g: Graph, sinks: seq<OpId>)
    requires WellFormed(g) && AllOperators(g, sinks)
    ensures forall o, i :: HasEdge(PruneGraph(g, sinks), o, i) <==>
              HasEdge(g, o, i) && !(Reachable(g, sinks, o.owner) && !Reachable(g, sinks, i.owner))
  {
    ReachCharacterization(g, sinks);
  }

  /** The operators reachable from the sinks are the same before and after pruning. */
  lemma PruneKeepsReachable(g: Graph, sinks: seq<OpId>)
    requires WellFormed(g) && AllOperators(g, sinks)
    ensures forall v :: Reachable(PruneGraph(g, sinks), sinks, v) <==> Reachable(g, sinks, v)
  {
    var g' := PruneGraph(g, sinks);
    SameReach(g, g', sinks);
    ReachCharacterization(g, sinks);
    ReachCharacterization(g', sinks);
  }

  /** After pruning, no edge leads from an operator reachable from the sinks to one that is not. */
  lemma PruneClosure(g: Graph, sinks: seq<OpId>)
    requires WellFormed(g) && AllOperators(g, sinks)
    ensures forall o, i :: HasEdge(PruneGraph(g, sinks), o, i) && Reachable(PruneGraph(g, sinks), sinks, o.owner) ==>
              Reachable(PruneGraph(g, sinks), sinks, i.owner)
  {
    PruneKeepsReachable(g, sinks);
    PruneRemovesExactlyDeadEdges(g, sinks);
  }

  /** Pruning an already pruned graph changes nothing. */
  lemma PruneIdempotent(g: Graph, sinks: seq<OpId>)
    requires WellFormed(g) && AllOperators(g, sinks)
    ensures PruneGraph(PruneGraph(g, sinks), sinks) == PruneGraph(g, sinks)
  {
    var g' := PruneGraph(g, sinks);
    SameReach(g, g', sinks);
    assert NoEdgeLeaves(g', UpstreamReach(g', sinks));
  }
}
