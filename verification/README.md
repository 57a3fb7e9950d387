# Rheem plan: sink lifecycle and reachability pruning, in Dafny

This project models the core of `RheemPlan`, the logical plan of Rheem's
cross-platform optimizer. A plan is a directed graph of operators connected
from output slots to input slots, a list of declared sinks, and two one-way
lifecycle flags, `isPruned` and `isLoopsIsolated`. The model covers:

- the operator graph as an arena (`PlanGraph`). Operators are indices. Every
  edge is recorded on both sides: an input slot's occupant, and an output
  slot's list of occupied input slots. `WellFormed` says the two sides agree
  and no list repeats an input slot. `Disconnect` removes an edge from both
  sides;
- upstream traversal from the sinks (`Traversal`). It is a worklist with a
  visited set, so it terminates on cycles. It is proved to visit exactly the
  operators on some upstream path from the sinks (`Reachable`);
- the two-pass pruning (`Pruning`). The first pass collects the reachable
  operators. The second pass walks upstream again and disconnects, at each
  visited operator, every edge whose consumer is not reachable. Each output
  slot's list is copied before the loop, as in the code. The second walk runs
  on the graph it is changing, and the model proves it visits the same set
  (`SecondPassVisitsReach`);
- the plan lifecycle (`RheemPlans`): the constructor, `addSink`,
  `replaceSink`, `collectReachableTopLevelSources`, `prune`, `setLoopsIsolated`
  and `prepare`. A sequence of calls (`Run`) states what holds over any
  mix of the public methods, graph rewrites, and edits of the sink list.

`isLoopsIsolated` is the field of the same name in `Plan`. `getSinks` returns
the plan's own list, not a copy, so whoever holds it can edit the sinks
directly and bypass `addSink`'s checks. The call `SetSinks` models such an
edit, and the lifecycle lemmas say which of their promises depend on it not
happening. Exceptions (`IllegalStateException`, `Validate` failures) become
`Failure` results. The `assert` checks in `replaceSink` become preconditions.

Where the Javadoc and the code differ, the model follows the code:

- `prepare`'s Javadoc says it prepares the plan "if not already done"
  (RheemPlan.java:24). Only `prune` checks a flag. `prepare` neither sets
  `isLoopsIsolated` nor checks it, so it always prunes and then runs loop
  isolation.
- `collectReachableTopLevelSources`' Javadoc says "only top-level operators
  are considered" (RheemPlan.java:77). The code filters the traversed
  operators by `isSource` only. Being top-level comes from the traversal not
  descending into nested operators; there is no separate parent check.

The sinks are a `LinkedList`. `addSink` appends, so the same operator can be
added twice. `replaceSink` removes the first occurrence and appends the new
sink at the end.

## Model

| member | source | states |
|---|---|---|
| PlanGraph.WithoutRemovesOne | rheem-core/src/main/java/org/qcri/rheem/core/plan/rheemplan/RheemPlan.java:117 | on an occupied-slot list, which never repeats an input slot, removing an entry drops exactly one element, and removing an absent entry changes nothing |
| PlanGraph.DropEdgeKeepsWellFormed | rheem-core/src/main/java/org/qcri/rheem/core/plan/rheemplan/RheemPlan.java:117 | clearing both halves of an existing edge leaves a well-formed graph whose edges are the old ones minus exactly that edge |
| PlanGraph.Disconnect | rheem-core/src/main/java/org/qcri/rheem/core/plan/rheemplan/RheemPlan.java:117 | the edge from the output slot to the input slot is gone from both sides and every other edge is kept. Well-formedness and the operators' slots and classification are preserved. Only the consumer's input slots change, and an unconnected pair is left as it is |
| Traversal.Traverse | rheem-core/src/main/java/org/qcri/rheem/core/plan/rheemplan/RheemPlan.java:91-98 | the worklist walk terminates on any graph, cycles included. It returns a set of operators that holds every operator already seen and is closed under "producer of an input" |
| Traversal.UpstreamReachMinimal | rheem-core/src/main/java/org/qcri/rheem/core/plan/rheemplan/RheemPlan.java:91-98 | the traversal from the sinks lies inside every closed set that contains the sinks, so it is the least such set |
| Traversal.ReachCharacterization | rheem-core/src/main/java/org/qcri/rheem/core/plan/rheemplan/RheemPlan.java:90-98 | an operator is visited by the upstream traversal from the sinks if and only if some upstream path from a sink reaches it |
| Pruning.PruneSnapshot | rheem-core/src/main/java/org/qcri/rheem/core/plan/rheemplan/RheemPlan.java:113-118 | walking the copied list of an output slot removes exactly the edges from that slot to listed input slots of unreachable operators. Input slots of reachable operators are untouched |
| Pruning.PruneOutputsFrom | rheem-core/src/main/java/org/qcri/rheem/core/plan/rheemplan/RheemPlan.java:111-119 | the loop over output slots from index y removes exactly the edges from those slots to unreachable operators. If there are none, the graph is unchanged |
| Pruning.PruneUnreachableSuccessors | rheem-core/src/main/java/org/qcri/rheem/core/plan/rheemplan/RheemPlan.java:110-121 | afterwards no edge leaves the base operator for an unreachable operator. Exactly those edges were removed, and every other edge is kept |
| Pruning.SecondPass | rheem-core/src/main/java/org/qcri/rheem/core/plan/rheemplan/RheemPlan.java:100-102 | the second upstream walk prunes each visited operator as it goes and stays within the reachable set. Its visited set is closed, and the edges removed are exactly those from a visited operator to an unreachable one |
| Pruning.Visit | rheem-core/src/main/java/org/qcri/rheem/core/plan/rheemplan/RheemPlan.java:100-102 | one visit of the second walk keeps the walk's invariant. It makes progress, and it leaves the input slots of reachable operators, and hence their producers, unchanged |
| Pruning.SecondPassVisitsReach | rheem-core/src/main/java/org/qcri/rheem/core/plan/rheemplan/RheemPlan.java:100-102 | the second walk, run over the graph it is pruning, visits exactly the operators the first walk found |
| Pruning.PruneGraph | rheem-core/src/main/java/org/qcri/rheem/core/plan/rheemplan/RheemPlan.java:90-102 | the edges after both passes are the edges before, minus those from a first-pass-reachable operator to one that is not. A graph with no such edge comes back unchanged |
| Pruning.SameReach | rheem-core/src/main/java/org/qcri/rheem/core/plan/rheemplan/RheemPlan.java:100-102 | two graphs that agree on the input slots of the operators reachable in the first have the same reachable operators. This is why the second walk sees what the first saw |
| Pruning.PruneRemovesExactlyDeadEdges | rheem-core/src/main/java/org/qcri/rheem/core/plan/rheemplan/RheemPlan.java:110-119 | pruning adds no edge. An edge is removed if and only if it runs from an operator reachable from the sinks to one that is not |
| Pruning.PruneKeepsReachable | rheem-core/src/main/java/org/qcri/rheem/core/plan/rheemplan/RheemPlan.java:100-119 | an operator is reachable from the sinks after pruning if and only if it was reachable before |
| Pruning.PruneClosure | rheem-core/src/main/java/org/qcri/rheem/core/plan/rheemplan/RheemPlan.java:90-102 | after pruning, no edge leads from an operator reachable from the sinks to one that is not |
| Pruning.PruneIdempotent | rheem-core/src/main/java/org/qcri/rheem/core/plan/rheemplan/RheemPlan.java:87-105 | pruning the pruned graph again gives the same graph |
| RheemPlans.AddSink | rheem-core/src/main/java/org/qcri/rheem/core/plan/rheemplan/RheemPlan.java:47-54 | fails if and only if the plan is pruned or loop-isolated, or the operator is not a sink, or it has a parent. The errors are checked in that order. On success the operator is appended and the graph and flags are unchanged |
| RheemPlans.AddSinks | rheem-core/src/main/java/org/qcri/rheem/core/plan/rheemplan/RheemPlan.java:38-40 | adding a list of sinks succeeds if and only if each is a top-level sink. It then appends them all in order; a failure is never the lifecycle error on an unfrozen plan |
| RheemPlans.NewPlan | rheem-core/src/main/java/org/qcri/rheem/core/plan/rheemplan/RheemPlan.java:37-41 | construction succeeds if and only if every given operator is a top-level sink. The new plan has exactly those sinks, is neither pruned nor loop-isolated, and a failure is a validation error |
| RheemPlans.IndexOf | rheem-core/src/main/java/org/qcri/rheem/core/plan/rheemplan/RheemPlan.java:64 | the position found holds the operator and no earlier position does |
| RheemPlans.RemoveFirst | rheem-core/src/main/java/org/qcri/rheem/core/plan/rheemplan/RheemPlan.java:64 | removes one occurrence as a multiset, and exactly the first one positionally. The other elements keep their order |
| RheemPlans.ReplaceFirst | rheem-core/src/main/java/org/qcri/rheem/core/plan/rheemplan/RheemPlan.java:64-66 | the list keeps its length and, as a multiset, loses one occurrence of the old element and gains the new one. Positionally, the elements before the first occurrence stay in place, the later ones move up by one, and the new element is last |
| RheemPlans.ReplaceSink | rheem-core/src/main/java/org/qcri/rheem/core/plan/rheemplan/RheemPlan.java:60-68 | is a no-op when old and new are the same operator or old is not among the plan's sinks. Otherwise the sinks lose the first occurrence of old and gain new at the end, as a multiset, and the number of sinks is unchanged. Graph and flags are never changed, whatever the flags are, and every sink is still an operator of the graph |
| RheemPlans.CollectReachableTopLevelSources | rheem-core/src/main/java/org/qcri/rheem/core/plan/rheemplan/RheemPlan.java:80-82 | returns exactly the source operators that lie on an upstream path from a sink |
| RheemPlans.Prune | rheem-core/src/main/java/org/qcri/rheem/core/plan/rheemplan/RheemPlan.java:87-105 | on a pruned plan nothing changes. Otherwise exactly the edges from reachable to unreachable operators are removed. Afterwards the plan is pruned and its sinks and isLoopsIsolated are as before |
| RheemPlans.SetLoopsIsolated | rheem-core/src/main/java/org/qcri/rheem/core/plan/rheemplan/RheemPlan.java:133-135 | sets isLoopsIsolated and changes nothing else |
| RheemPlans.FlagsNeverReset | rheem-core/src/main/java/org/qcri/rheem/core/plan/rheemplan/RheemPlan.java:18-20 | over any sequence of public calls and graph rewrites, a flag that is set stays set |
| RheemPlans.FrozenSinkCountFixed | rheem-core/src/main/java/org/qcri/rheem/core/plan/rheemplan/RheemPlan.java:47-50 | once a plan is pruned or loop-isolated, no sequence of calls unfreezes it. The number of sinks stays the same unless some call edits the list `getSinks` returns |
| RheemPlans.SinkListEditBypassesFreeze | rheem-core/src/main/java/org/qcri/rheem/core/plan/rheemplan/RheemPlan.java:47-50 | on a frozen plan `addSink` fails with the lifecycle error, yet an edit of the list `getSinks` returns still adds the sink, so the count does change |
| RheemPlans.SinksStayTopLevelSinks | rheem-core/src/main/java/org/qcri/rheem/core/plan/rheemplan/RheemPlan.java:51-53 | every call of the plan's own methods keeps all sinks top-level sink operators. After an edit of the sink list this holds if and only if the new list consists of top-level sinks |
| RheemPlans.ReplaceSinkKeepsTopLevelSinks | rheem-core/src/main/java/org/qcri/rheem/core/plan/rheemplan/RheemPlan.java:62-66 | replacing a sink under the asserted conditions keeps all sinks top-level sink operators |
| RheemPlans.Prepare | rheem-core/src/main/java/org/qcri/rheem/core/plan/rheemplan/RheemPlan.java:26-29 | whatever calls loop isolation makes, the prepared plan is pruned and every later addSink fails with the lifecycle error. Unless the isolator edits the list `getSinks` returns, the plan has as many sinks as before |

## Left out

- Logging. The warnings for nested operators and for each pruned successor
  only report; they do not affect the graph.
- Loop isolation. `LoopIsolator` is not part of this model. `Prepare` takes
  the isolator's effect as an arbitrary sequence of plan calls and graph
  rewrites (`Call`). The isolator has no way to clear the private `isPruned`
  flag.
- Nested sub-plans. Neither traversal descends into non-elementary operators,
  and the code does the same. `isElementary` is carried but never read.
- `PlanTraversal`'s visiting order and callbacks. Only the set of visited
  operators is modelled.
- The `Operator`, `InputSlot` and `OutputSlot` classes are not part of this
  model. An operator's `isSource`, `isSink`, `isElementary` and parent are
  taken as given attributes, not derived from its slots. Slot data types are
  not modelled.
- `disconnectFrom` on a pair that is not connected is modelled as a no-op.
  `OutputSlot` is not part of this model, so its behaviour there is taken as
  given.
- Java's `assert` statements are modelled as preconditions of `ReplaceSink`,
  so the model has no behaviour for a run where the assertions are disabled
  and fail.
- RheemPlans.NewPlan: on failure states only that the error is a validation
  error, not which of the given operators caused it.
- RheemPlans.CollectReachableTopLevelSources: returns a set. The Java
  collection's order and multiplicity are not modelled.
- `python/src/pywy/graph/types.py` is a thin wrapper over graph classes that
  are not part of this model.
