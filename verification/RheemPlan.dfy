/**
  A Rheem plan: the declared sinks of an operator graph plus two one-way
  lifecycle flags, `isPruned` and `isLoopsIsolated`. Once either flag is set no
  further sink may be added; replacing a sink stays allowed.

  Thrown exceptions become `Failure` results; the source's `assert` checks
  become preconditions.
 */
module RheemPlans {
  import opened Wrappers
  import opened PlanGraph
  import opened Traversal
  import opened Pruning

  /** The exceptions `addSink` throws. */
  datatype PlanError =
    | TooLateToAddSinks  // IllegalStateException: the plan is pruned or its loops are isolated
    | NotASink           // the operator is not a sink
    | Nested             // the operator has a parent

  datatype Plan = Plan(graph: Graph, sinks: seq<OpId>, isLoopsIsolated: bool, isPruned: bool)

  /** The graph is well formed and every sink is one of its operators. */
  ghost predicate Valid(p: Plan) {
    WellFormed(p.graph) && AllOperators(p.graph, p.sinks)
  }

  predicate IsSink(g: Graph, v: OpId) {
    IsOperator(g, v) && g.ops[v].kind.isSink
  }

  predicate IsSource(g: Graph, v: OpId) {
    IsOperator(g, v) && g.ops[v].kind.isSource
  }

  predicate IsTopLevel(g: Graph, v: OpId) {
    IsOperator(g, v) && g.ops[v].kind.parent.None?
  }

  /** Sinks may no longer be added. */
  predicate Frozen(p: Plan) {
    p.isLoopsIsolated || p.isPruned
  }

  /** Every declared sink is a top-level sink operator. */
  ghost predicate SinksAreTopLevelSinks(p: Plan) {
    forall k :: 0 <= k < |p.sinks| ==> IsSink(p.graph, p.sinks[k]) && IsTopLevel(p.graph, p.sinks[k])
  }

  /**
    Appends `sink` to the sinks. Fails when the plan is frozen, then when the
    operator is not a sink, then when it is nested, in that order; a failure
    leaves the plan as it was.
   */
  function AddSink(p: Plan, sink: OpId): (r: Result<Plan, PlanError>)
    requires Valid(p) && IsOperator(p.graph, sink)
    ensures r.Failure? <==> Frozen(p) || !IsSink(p.graph, sink) || !IsTopLevel(p.graph, sink)
    ensures r.Failure? && Frozen(p) ==> r.error == TooLateToAddSinks
    ensures r.Failure? && !Frozen(p) && !IsSink(p.graph, sink) ==> r.error == NotASink
    ensures r.Failure? && !Frozen(p) && IsSink(p.graph, sink) ==> r.error == Nested
    ensures r.Success? ==>
              && r.value.sinks == p.sinks + [sink]
              && r.value.graph == p.graph
              && r.value.isLoopsIsolated == p.isLoopsIsolated
              && r.value.isPruned == p.isPruned
              && Valid(r.value)
  {
    if p.isLoopsIsolated || p.isPruned then
      Failure(TooLateToAddSinks)
    else if !p.graph.ops[sink].kind.isSink then
      Failure(NotASink)
    else if p.graph.ops[sink].kind.parent != None then
      Failure(Nested)
    else
      Success(p.(sinks := p.sinks + [sink]))
  }

  /** Adds the `sinks` one after the other, stopping at the first failure. */
  function AddSinks(p: Plan, sinks: seq<OpId>): (r: Result<Plan, PlanError>)
    requires Valid(p) && AllOperators(p.graph, sinks) && !Frozen(p)
    ensures r.Success? <==>
              forall k :: 0 <= k < |sinks| ==> IsSink(p.graph, sinks[k]) && IsTopLevel(p.graph, sinks[k])
    ensures r.Success? ==> r.value == p.(sinks := p.sinks + sinks)
    ensures r.Failure? ==> r.error != TooLateToAddSinks
    decreases |sinks|
  {
    if sinks == [] then
      assert p.sinks + sinks == p.sinks;
      Success(p)
    else
      match AddSink(p, sinks[0])
      case Failure(e) => Failure(e)
      case Success(q) =>
        var r := AddSinks(q, sinks[1..]);
        assert p.sinks + sinks == q.sinks + sinks[1..];
        assert forall k :: 1 <= k < |sinks| ==> sinks[k] == sinks[1..][k - 1];
        r
  }

  /** The constructor: an empty, unfrozen plan over `g` to which the `sinks` are added. */
  function NewPlan(g: Graph, sinks: seq<OpId>): (r: Result<Plan, PlanError>)
    requires WellFormed(g) && AllOperators(g, sinks)
    ensures r.Success? <==> forall k :: 0 <= k < |sinks| ==> IsSink(g, sinks[k]) && IsTopLevel(g, sinks[k])
    ensures r.Success? ==>
              r.value == Plan(g, sinks, false, false) && SinksAreTopLevelSinks(r.value)
    ensures r.Failure? ==> r.error in {NotASink, Nested}
  {
    AddSinks(Plan(g, [], false, false), sinks)
  }

  /** The position of the first occurrence of `x` in `s`. */
  function IndexOf(s: seq<OpId>, x: OpId): (k: nat)
    requires x in s
    ensures k < |s| && s[k] == x && x !in s[..k]
  {
    if s[0] == x then 0 else 1 + IndexOf(s[1..], x)
  }

  /** `s` without its first occurrence of `x`, as `LinkedList.remove` leaves it. */
  function RemoveFirst(s: seq<OpId>, x: OpId): (r: seq<OpId>)
    requires x in s
    ensures |r| == |s| - 1
    ensures multiset(r) == multiset(s) - multiset{x}
    ensures forall j :: 0 <= j < |r| ==> r[j] == if j < IndexOf(s, x) then s[j] else s[j + 1]
  {
    var k := IndexOf(s, x);
    assert s == s[..k] + [x] + s[k + 1..];
    s[..k] + s[k + 1..]
  }

  /**
    `s` with its first occurrence of `x` removed and `y` appended: the
    `remove`/`add` pair `replaceSink` performs on the sink list.
   */
  function ReplaceFirst(s: seq<OpId>, x: OpId, y: OpId): (r: seq<OpId>)
    requires x in s
    ensures |r| == |s| && r[|r| - 1] == y
    ensures multiset(r) == multiset(s) - multiset{x} + multiset{y}
    ensures forall j :: 0 <= j < |r| - 1 ==> r[j] == if j < IndexOf(s, x) then s[j] else s[j + 1]
  {
    RemoveFirst(s, x) + [y]
  }

  /** Every element of a replaced list is the new element or an old one. */
  lemma ReplaceFirstFrom(s: seq<OpId>, x: OpId, y: OpId)
    requires x in s
    ensures forall k :: 0 <= k < |s| ==>
              ReplaceFirst(s, x, y)[k] == y || ReplaceFirst(s, x, y)[k] == s[if k < IndexOf(s, x) then k else k + 1]
  {
  }

  /** What `replaceSink` asserts of its arguments. */
  predicate ReplaceSinkAllowed(p: Plan, oldSink: OpId, newSink: OpId) {
    && IsOperator(p.graph, oldSink) && IsOperator(p.graph, newSink)
    && (oldSink != newSink ==> IsSink(p.graph, oldSink) && IsSink(p.graph, newSink))
    && (oldSink != newSink && oldSink in p.sinks ==> IsTopLevel(p.graph, newSink))
  }

  /**
    Replaces one occurrence of `oldSink` by `newSink` at the end of the sinks;
    nothing happens when the two are the same or `oldSink` is not among the
    plan's sinks.
    The lifecycle flags are neither consulted nor changed.
   */
  function ReplaceSink(p: Plan, oldSink: OpId, newSink: OpId): (r: Plan)
    requires Valid(p) && ReplaceSinkAllowed(p, oldSink, newSink)
    ensures Valid(r)
    ensures r.graph == p.graph && r.isLoopsIsolated == p.isLoopsIsolated && r.isPruned == p.isPruned
    ensures |r.sinks| == |p.sinks|
    ensures oldSink == newSink || oldSink !in p.sinks ==> r.sinks == p.sinks
    ensures oldSink != newSink && oldSink in p.sinks ==>
              && r.sinks == ReplaceFirst(p.sinks, oldSink, newSink)
              && multiset(r.sinks) == multiset(p.sinks) - multiset{oldSink} + multiset{newSink}
  {
    if oldSink == newSink then
      p
    else if oldSink in p.sinks then
      var sinks := ReplaceFirst(p.sinks, oldSink, newSink);
      ReplaceFirstFrom(p.sinks, oldSink, newSink);
      p.(sinks := sinks)
    else
      p
  }

  /** The source operators met by an upstream traversal from the sinks. */
  function CollectReachableTopLevelSources(p: Plan): (r: set<OpId>)
    requires Valid(p)
    ensures forall v :: v in r <==> Reachable(p.graph, p.sinks, v) && IsSource(p.graph, v)
  {
    var reach := UpstreamReach(p.graph, p.sinks);
    ReachCharacterization(p.graph, p.sinks);
    set v | v in reach && IsSource(p.graph, v)
  }

  /**
    Prunes the graph once: on an already pruned plan nothing happens,
    otherwise every edge from an operator reachable from the sinks to one that
    is not is disconnected, and the plan is marked pruned.
   */
  function Prune(p: Plan): (r: Plan)
    requires Valid(p)
    ensures Valid(r) && r.isPruned
    ensures p.isPruned ==> r == p
    ensures r.sinks == p.sinks && r.isLoopsIsolated == p.isLoopsIsolated
    ensures SameShape(p.graph, r.graph)
    ensures !p.isPruned ==>
              forall o, i :: HasEdge(r.graph, o, i) <==>
                HasEdge(p.graph, o, i) && !(Reachable(p.graph, p.sinks, o.owner) && !Reachable(p.graph, p.sinks, i.owner))
  {
    if p.isPruned then
      p
    else
      PruneRemovesExactlyDeadEdges(p.graph, p.sinks);
      p.(graph := PruneGraph(p.graph, p.sinks), isPruned := true)
  }

  /** Records that the loops have been isolated; nothing else changes. */
  function SetLoopsIsolated(p: Plan): (r: Plan)
    ensures r.isLoopsIsolated
    ensures r.graph == p.graph && r.sinks == p.sinks && r.isPruned == p.isPruned
  {
    p.(isLoopsIsolated := true)
  }

  /**
    A call a client, or the loop isolator, makes on a plan. `Rewire` stands for
    any change to the operator graph made outside the plan, as loop isolation
    does. `getSinks` hands out the plan's own list, so `SetSinks` stands for
    any edit made through it: such an edit bypasses the checks of `addSink`.
   */
  datatype Call =
    | AddSinkCall(sink: OpId)
    | ReplaceSinkCall(oldSink: OpId, newSink: OpId)
    | PruneCall
    | SetLoopsIsolatedCall
    | Rewire(graph: Graph)
    | SetSinks(sinks: seq<OpId>)

  /** The call's own preconditions hold on `p`. */
  ghost predicate CallAllowed(p: Plan, c: Call) {
    match c
    case AddSinkCall(sink) => IsOperator(p.graph, sink)
    case ReplaceSinkCall(oldSink, newSink) => ReplaceSinkAllowed(p, oldSink, newSink)
    case PruneCall => true
    case SetLoopsIsolatedCall => true
    case Rewire(g) => WellFormed(g) && AllOperators(g, p.sinks)
    case SetSinks(sinks) => AllOperators(p.graph, sinks)
  }

  /** The plan after the call; an `addSink` that throws leaves the plan as it was. */
  function Apply(p: Plan, c: Call): (r: Plan)
    requires Valid(p) && CallAllowed(p, c)
    ensures Valid(r)
  {
    match c
    case AddSinkCall(sink) =>
      (match AddSink(p, sink)
       case Success(q) => q
       case Failure(_) => p)
    case ReplaceSinkCall(oldSink, newSink) => ReplaceSink(p, oldSink, newSink)
    case PruneCall => Prune(p)
    case SetLoopsIsolatedCall => SetLoopsIsolated(p)
    case Rewire(g) => p.(graph := g)
    case SetSinks(sinks) => p.(sinks := sinks)
  }

  /** Each call of `calls` is allowed on the plan the previous ones leave. */
  ghost predicate RunAllowed(p: Plan, calls: seq<Call>)
    decreases |calls|
  {
    && Valid(p)
    && (calls != [] ==> CallAllowed(p, calls[0]) && RunAllowed(Apply(p, calls[0]), calls[1..]))
  }

  /** The plan after the calls, in order. */
  function Run(p: Plan, calls: seq<Call>): (r: Plan)
    requires RunAllowed(p, calls)
    ensures Valid(r)
    decreases |calls|
  {
    if calls == [] then p else Run(Apply(p, calls[0]), calls[1..])
  }

  /** Neither lifecycle flag is ever reset, whatever calls are made. */
  lemma {:induction false} FlagsNeverReset(p: Plan, calls: seq<Call>)
    requires RunAllowed(p, calls)
    ensures p.isPruned ==> Run(p, calls).isPruned
    ensures p.isLoopsIsolated ==> Run(p, calls).isLoopsIsolated
    decreases |calls|
  {
    if calls != [] {
      FlagsNeverReset(Apply(p, calls[0]), calls[1..]);
    }
  }

  /**
    A frozen plan stays frozen. Its own methods never change the number of
    sinks: additions fail and replacements swap one sink for another. Only an
    edit through the list `getSinks` returns can change it.
   */
  lemma {:induction false} FrozenSinkCountFixed(p: Plan, calls: seq<Call>)
    requires RunAllowed(p, calls) && Frozen(p)
    ensures Frozen(Run(p, calls))
    ensures ThroughPlanMethods(calls) ==> |Run(p, calls).sinks| == |p.sinks|
    decreases |calls|
  {
    if calls != [] {
      assert ThroughPlanMethods(calls) ==> ThroughPlanMethods(calls[1..]) by {
        assert forall k :: 1 <= k < |calls| ==> calls[1..][k - 1] == calls[k];
      }
      FrozenSinkCountFixed(Apply(p, calls[0]), calls[1..]);
    }
  }

  /**
    Why `FrozenSinkCountFixed` needs `ThroughPlanMethods`: on a frozen plan
    `addSink` refuses a sink that an edit of the list `getSinks` returns
    still appends.
   */
  lemma SinkListEditBypassesFreeze(p: Plan, sink: OpId)
    requires Valid(p) && Frozen(p) && IsOperator(p.graph, sink)
    ensures AddSink(p, sink) == Failure(TooLateToAddSinks)
    ensures CallAllowed(p, SetSinks(p.sinks + [sink]))
    ensures |Apply(p, SetSinks(p.sinks + [sink])).sinks| == |p.sinks| + 1
  {
  }

  /** No call edits the sink list through the reference `getSinks` returns. */
  ghost predicate ThroughPlanMethods(calls: seq<Call>) {
    forall k :: 0 <= k < |calls| ==> !calls[k].SetSinks?
  }

  /**
    The plan's own methods keep every sink a top-level sink operator; an edit
    through the list `getSinks` returns keeps this exactly when the new list
    consists of top-level sinks.
   */
  lemma SinksStayTopLevelSinks(p: Plan, c: Call)
    requires Valid(p) && CallAllowed(p, c) && !c.Rewire? && SinksAreTopLevelSinks(p)
    ensures !c.SetSinks? ==> SinksAreTopLevelSinks(Apply(p, c))
    ensures c.SetSinks? ==>
              (SinksAreTopLevelSinks(Apply(p, c)) <==>
                 forall k :: 0 <= k < |c.sinks| ==> IsSink(p.graph, c.sinks[k]) && IsTopLevel(p.graph, c.sinks[k]))
  {
    match c
    case AddSinkCall(sink) =>
      if AddSink(p, sink).Success? {
        AddSinkKeepsTopLevelSinks(p, sink);
      }
    case ReplaceSinkCall(oldSink, newSink) =>
      ReplaceSinkKeepsTopLevelSinks(p, oldSink, newSink);
    case PruneCall =>
      ReshapeKeepsTopLevelSinks(p, Prune(p));
    case SetLoopsIsolatedCall =>
    case SetSinks(sinks) =>
  }

  /** A successful `addSink` appends a top-level sink. */
  lemma AddSinkKeepsTopLevelSinks(p: Plan, sink: OpId)
    requires Valid(p) && IsOperator(p.graph, sink) && SinksAreTopLevelSinks(p) && AddSink(p, sink).Success?
    ensures SinksAreTopLevelSinks(AddSink(p, sink).value)
  {
  }

  /** Classification is part of the shape, so a same-shape graph keeps the sinks' standing. */
  lemma ReshapeKeepsTopLevelSinks(p: Plan, q: Plan)
    requires SameShape(p.graph, q.graph) && q.sinks == p.sinks && SinksAreTopLevelSinks(p)
    ensures SinksAreTopLevelSinks(q)
  {
    forall k | 0 <= k < |q.sinks|
      ensures IsSink(q.graph, q.sinks[k]) && IsTopLevel(q.graph, q.sinks[k])
    {
      assert SameSlots(p.graph.ops[p.sinks[k]], q.graph.ops[p.sinks[k]]);
    }
  }

  /** A replacement only brings in a sink that `replaceSink` asserts is top level. */
  lemma ReplaceSinkKeepsTopLevelSinks(p: Plan, oldSink: OpId, newSink: OpId)
    requires Valid(p) && ReplaceSinkAllowed(p, oldSink, newSink) && SinksAreTopLevelSinks(p)
    ensures SinksAreTopLevelSinks(ReplaceSink(p, oldSink, newSink))
  {
    if oldSink != newSink && oldSink in p.sinks {
      ReplaceFirstFrom(p.sinks, oldSink, newSink);
    }
  }

  /**
    `prepare`: prune, then hand the plan to the loop isolator, modelled as the
    calls it makes. Whatever those calls are, the plan comes back pruned and
    refuses new sinks; unless the isolator edits the list `getSinks` returns,
    it has as many sinks as before.
   */
  function Prepare(p: Plan, isolation: seq<Call>): (r: Plan)
    requires Valid(p) && RunAllowed(Prune(p), isolation)
    ensures Valid(r) && r.isPruned
    ensures ThroughPlanMethods(isolation) ==> |r.sinks| == |p.sinks|
    ensures forall sink :: IsOperator(r.graph, sink) ==> AddSink(r, sink) == Failure(TooLateToAddSinks)
  {
    var pruned := Prune(p);
    FlagsNeverReset(pruned, isolation);
    FrozenSinkCountFixed(pruned, isolation);
    Run(pruned, isolation)
  }
}
