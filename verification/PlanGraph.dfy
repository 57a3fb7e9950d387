/**
  The operator/slot graph that a Rheem plan is made of, as an arena.

  Operators are addressed by their index in `Graph.ops`. Each operator keeps
  both halves of every edge it takes part in: an input slot records the output
  slot that occupies it, and an output slot records the list of input slots it
  occupies. `WellFormed` says that the two halves agree and that no list
  repeats an input slot, and `Disconnect` is the only mutation of edges this
  model needs.
 */
module PlanGraph {
  import opened Wrappers

  type OpId = nat

  /** The `index`-th input slot of operator `owner`. */
  datatype InputSlot = InputSlot(owner: OpId, index: nat)

  /** The `index`-th output slot of operator `owner`. */
  datatype OutputSlot = OutputSlot(owner: OpId, index: nat)

  /** The classification queries the plan asks of an operator. */
  datatype OperatorKind = OperatorKind(
    isSource: bool,
    isSink: bool,
    isElementary: bool,
    parent: Option<OpId>)

  /**
    An operator: `occupants[x]` is the producer of input slot `x` (if any),
    `occupiedSlots[y]` lists the input slots fed by output slot `y`.
   */
  datatype Operator = Operator(
    kind: OperatorKind,
    occupants: seq<Option<OutputSlot>>,
    occupiedSlots: seq<seq<InputSlot>>)

  datatype Graph = Graph(ops: seq<Operator>)

  predicate IsOperator(g: Graph, v: OpId) {
    v < |g.ops|
  }

  predicate ValidInput(g: Graph, i: InputSlot) {
    i.owner < |g.ops| && i.index < |g.ops[i.owner].occupants|
  }

  predicate ValidOutput(g: Graph, o: OutputSlot) {
    o.owner < |g.ops| && o.index < |g.ops[o.owner].occupiedSlots|
  }

  /** The output slot that occupies input slot `i`, if any. */
  function Occupant(g: Graph, i: InputSlot): Option<OutputSlot>
    requires ValidInput(g, i)
  {
    g.ops[i.owner].occupants[i.index]
  }

  /** The input slots that output slot `o` feeds. */
  function OccupiedSlots(g: Graph, o: OutputSlot): seq<InputSlot>
    requires ValidOutput(g, o)
  {
    g.ops[o.owner].occupiedSlots[o.index]
  }

  /** There is an edge from output slot `o` to input slot `i`. */
  predicate HasEdge(g: Graph, o: OutputSlot, i: InputSlot) {
    ValidOutput(g, o) && ValidInput(g, i) && i in OccupiedSlots(g, o)
  }

  /** Both halves of every edge are recorded, and they agree. */
  ghost predicate WellFormed(g: Graph) {
    ListedAreOccupied(g) && OccupiedAreListed(g) && ListsDistinct(g)
  }

  /** No output slot lists an input slot twice: an input slot has one occupant. */
  ghost predicate ListsDistinct(g: Graph) {
    forall o :: ValidOutput(g, o) ==> Distinct(OccupiedSlots(g, o))
  }

  predicate Distinct(s: seq<InputSlot>) {
    forall a, b :: 0 <= a < b < |s| ==> s[a] != s[b]
  }

  /** Every input slot an output slot lists is occupied by that output slot. */
  ghost predicate ListedAreOccupied(g: Graph) {
    forall o: OutputSlot, i: InputSlot ::
      ValidOutput(g, o) && i in OccupiedSlots(g, o) ==> ValidInput(g, i) && Occupant(g, i) == Some(o)
  }

  /** Every occupied input slot is listed by its occupant. */
  ghost predicate OccupiedAreListed(g: Graph) {
    forall i: InputSlot ::
      ValidInput(g, i) && Occupant(g, i).Some? ==>
        ValidOutput(g, Occupant(g, i).value) && i in OccupiedSlots(g, Occupant(g, i).value)
  }

  /** `h` has the operators and slots of `g`, with the same classification. */
  ghost predicate SameShape(g: Graph, h: Graph) {
    && |g.ops| == |h.ops|
    && forall v :: 0 <= v < |g.ops| ==> SameSlots(g.ops[v], h.ops[v])
  }

  /** Same classification and the same number of input and output slots. */
  predicate SameSlots(a: Operator, b: Operator) {
    && a.kind == b.kind
    && |a.occupants| == |b.occupants|
    && |a.occupiedSlots| == |b.occupiedSlots|
  }

  /** Having the same shape is transitive. */
  lemma SameShapeTransitive(g: Graph, h: Graph, k: Graph)
    requires SameShape(g, h) && SameShape(h, k)
    ensures SameShape(g, k)
  {
  }

  /** Graphs of the same shape have the same valid slots. */
  lemma SameShapeSlots(g: Graph, h: Graph)
    requires SameShape(g, h)
    ensures forall i :: ValidInput(g, i) <==> ValidInput(h, i)
    ensures forall o :: ValidOutput(g, o) <==> ValidOutput(h, o)
  {
  }

  /** In a well-formed graph an edge can be read off either of its two halves. */
  lemma EdgeFromEitherSide(g: Graph, o: OutputSlot, i: InputSlot)
    requires WellFormed(g)
    ensures HasEdge(g, o, i) <==> ValidOutput(g, o) && ValidInput(g, i) && Occupant(g, i) == Some(o)
  {
  }

  /** `s` with every occurrence of `x` removed. */
  function Without(s: seq<InputSlot>, x: InputSlot): (r: seq<InputSlot>)
    ensures forall y :: y in r <==> y in s && y != x
    ensures |r| <= |s|
    ensures Distinct(s) ==> Distinct(r)
  {
    if s == [] then []
    else if s[0] == x then Without(s[1..], x)
    else
      var rest := Without(s[1..], x);
      assert Distinct(s) ==> s[0] !in rest;
      assert forall b :: 0 < b < |[s[0]] + rest| ==> ([s[0]] + rest)[b] == rest[b - 1];
      [s[0]] + rest
  }

  /**
    On a list without repeats `Without` removes a single entry, as
    `List.remove(Object)` does, and leaves a list without `x` alone.
   */
  lemma {:induction false} WithoutRemovesOne(s: seq<InputSlot>, x: InputSlot)
    ensures x !in s ==> Without(s, x) == s
    ensures Distinct(s) && x in s ==> |Without(s, x)| == |s| - 1
  {
    if s != [] {
      WithoutRemovesOne(s[1..], x);
      if s[0] == x {
        assert Distinct(s) ==> x !in s[1..];
      }
    }
  }

  /** `g` with the occupied-slot list of `o` replaced by `slots`. */
  function SetOccupiedSlots(g: Graph, o: OutputSlot, slots: seq<InputSlot>): (r: Graph)
    requires ValidOutput(g, o)
    ensures SameShape(g, r)
    ensures forall v :: 0 <= v < |g.ops| ==> r.ops[v].occupants == g.ops[v].occupants
    ensures forall o' :: ValidOutput(g, o') ==>
              OccupiedSlots(r, o') == if o' == o then slots else OccupiedSlots(g, o')
  {
    var op := g.ops[o.owner];
    Graph(g.ops[o.owner := op.(occupiedSlots := op.occupiedSlots[o.index := slots])])
  }

  /** `g` with the occupant of `i` replaced by `occupant`. */
  function SetOccupant(g: Graph, i: InputSlot, occupant: Option<OutputSlot>): (r: Graph)
    requires ValidInput(g, i)
    ensures SameShape(g, r)
    ensures forall v :: 0 <= v < |g.ops| && v != i.owner ==> r.ops[v].occupants == g.ops[v].occupants
    ensures forall i' :: ValidInput(g, i') ==>
              Occupant(r, i') == if i' == i then occupant else Occupant(g, i')
    ensures forall o :: ValidOutput(g, o) ==> OccupiedSlots(r, o) == OccupiedSlots(g, o)
  {
    var op := g.ops[i.owner];
    Graph(g.ops[i.owner := op.(occupants := op.occupants[i.index := occupant])])
  }

  /**
    `r` has the slots of `g`; output slot `o` no longer lists `i`, input slot
    `i` has no occupant, and every other slot is as in `g`.
   */
  ghost predicate Dropped(g: Graph, o: OutputSlot, i: InputSlot, r: Graph)
    requires ValidOutput(g, o) && ValidInput(g, i)
  {
    && (forall o' :: ValidOutput(r, o') <==> ValidOutput(g, o'))
    && (forall i' :: ValidInput(r, i') <==> ValidInput(g, i'))
    && OccupiedSlots(r, o) == Without(OccupiedSlots(g, o), i)
    && (forall o' :: ValidOutput(g, o') && o' != o ==> OccupiedSlots(r, o') == OccupiedSlots(g, o'))
    && Occupant(r, i) == None
    && (forall i' :: ValidInput(g, i') && i' != i ==> Occupant(r, i') == Occupant(g, i'))
  }

  /** `g` with `i` dropped from the list of `o` and the occupant of `i` cleared. */
  function DropEdge(g: Graph, o: OutputSlot, i: InputSlot): (r: Graph)
    requires ValidOutput(g, o) && ValidInput(g, i)
    ensures SameShape(g, r)
    ensures forall v :: 0 <= v < |g.ops| && v != i.owner ==> r.ops[v].occupants == g.ops[v].occupants
    ensures Dropped(g, o, i, r)
  {
    var g1 := SetOccupiedSlots(g, o, Without(OccupiedSlots(g, o), i));
    SameShapeSlots(g, g1);
    var r := SetOccupant(g1, i, None);
    SameShapeSlots(g1, r);
    SameShapeTransitive(g, g1, r);
    r
  }

  /**
    Removes the edge from `o` to `i` on both sides; a pair that is not
    connected is left alone.
   */
  function Disconnect(g: Graph, o: OutputSlot, i: InputSlot): (r: Graph)
    requires WellFormed(g) && ValidOutput(g, o) && ValidInput(g, i)
    ensures WellFormed(r) && SameShape(g, r)
    ensures forall o', i' :: HasEdge(r, o', i') <==> HasEdge(g, o', i') && (o', i') != (o, i)
    ensures forall v :: 0 <= v < |g.ops| && v != i.owner ==> r.ops[v].occupants == g.ops[v].occupants
    ensures !HasEdge(g, o, i) ==> r == g
  {
    if Occupant(g, i) != Some(o) then
      g
    else
      DropEdgeKeepsWellFormed(g, o, i);
      DropEdge(g, o, i)
  }

  /** Dropping an existing edge keeps the graph well formed and removes exactly that edge. */
  lemma DropEdgeKeepsWellFormed(g: Graph, o: OutputSlot, i: InputSlot)
    requires WellFormed(g) && ValidOutput(g, o) && ValidInput(g, i) && Occupant(g, i) == Some(o)
    ensures WellFormed(DropEdge(g, o, i))
    ensures forall o', i' :: HasEdge(DropEdge(g, o, i), o', i') <==> HasEdge(g, o', i') && (o', i') != (o, i)
  {
    var r := DropEdge(g, o, i);
    DisconnectOutputSide(g, o, i, r);
    DisconnectInputSide(g, o, i, r);
    DisconnectListsDistinct(g, o, i, r);
    DropEdgeEdges(g, o, i, r);
  }

  /** The edges after dropping the edge from `o` to `i` are the other edges before. */
  lemma DropEdgeEdges(g: Graph, o: OutputSlot, i: InputSlot, r: Graph)
    requires ValidOutput(g, o) && ValidInput(g, i)
    requires Dropped(g, o, i, r)
    ensures forall o', i' :: HasEdge(r, o', i') <==> HasEdge(g, o', i') && (o', i') != (o, i)
  {
    forall o', i' ensures HasEdge(r, o', i') <==> HasEdge(g, o', i') && (o', i') != (o, i) {
      if !ValidOutput(g, o') || !ValidInput(g, i') {
      } else if o' == o {
        assert i' in OccupiedSlots(r, o) <==> i' in OccupiedSlots(g, o) && i' != i;
      } else {
        assert OccupiedSlots(r, o') == OccupiedSlots(g, o');
      }
    }
  }

  /** After a disconnection every listed input slot still names its occupant. */
  lemma DisconnectOutputSide(g: Graph, o: OutputSlot, i: InputSlot, r: Graph)
    requires ListedAreOccupied(g) && ValidOutput(g, o) && ValidInput(g, i) && Occupant(g, i) == Some(o)
    requires Dropped(g, o, i, r)
    ensures ListedAreOccupied(r)
  {
    forall o': OutputSlot, i': InputSlot | ValidOutput(r, o') && i' in OccupiedSlots(r, o')
      ensures ValidInput(r, i') && Occupant(r, i') == Some(o')
    {
      if o' == o {
        assert i' in Without(OccupiedSlots(g, o), i);
      } else {
        assert OccupiedSlots(r, o') == OccupiedSlots(g, o');
      }
      assert i' != i;
    }
  }

  /** After a disconnection no output slot lists an input slot twice. */
  lemma DisconnectListsDistinct(g: Graph, o: OutputSlot, i: InputSlot, r: Graph)
    requires ListsDistinct(g) && ValidOutput(g, o) && ValidInput(g, i) && Occupant(g, i) == Some(o)
    requires Dropped(g, o, i, r)
    ensures ListsDistinct(r)
  {
    forall o' | ValidOutput(r, o') ensures Distinct(OccupiedSlots(r, o')) {
      if o' != o {
        assert OccupiedSlots(r, o') == OccupiedSlots(g, o');
      }
    }
  }

  /** After a disconnection every occupied input slot is still listed by its occupant. */
  lemma DisconnectInputSide(g: Graph, o: OutputSlot, i: InputSlot, r: Graph)
    requires OccupiedAreListed(g) && ValidOutput(g, o) && ValidInput(g, i) && Occupant(g, i) == Some(o)
    requires Dropped(g, o, i, r)
    ensures OccupiedAreListed(r)
  {
    forall i': InputSlot | ValidInput(r, i') && Occupant(r, i').Some?
      ensures ValidOutput(r, Occupant(r, i').value) && i' in OccupiedSlots(r, Occupant(r, i').value)
    {
      assert i' != i;
      assert Occupant(r, i') == Occupant(g, i');
    }
  }

  /** The owners of the occupied entries of `occs`, in slot order. */
  function OccupantOwners(occs: seq<Option<OutputSlot>>): (r: seq<OpId>)
    ensures forall u :: u in r <==>
              exists x :: 0 <= x < |occs| && occs[x].Some? && occs[x].value.owner == u
  {
    if occs == [] then []
    else
      var rest := OccupantOwners(occs[1..]);
      assert forall x :: 1 <= x < |occs| ==> occs[x] == occs[1..][x - 1];
      if occs[0].Some? then [occs[0].value.owner] + rest else rest
  }

  /**
    The operators one upstream step away from `v`: the owners of the output
    slots occupying the input slots of `v`.
   */
  function Producers(g: Graph, v: OpId): (r: seq<OpId>)
    requires IsOperator(g, v)
    ensures WellFormed(g) ==> forall u :: u in r ==> IsOperator(g, u)
  {
    var r := OccupantOwners(g.ops[v].occupants);
    assert WellFormed(g) ==> forall u :: u in r ==> IsOperator(g, u) by {
      if WellFormed(g) {
        forall u | u in r ensures IsOperator(g, u) {
          var x :| 0 <= x < |g.ops[v].occupants| && g.ops[v].occupants[x].Some?
                   && g.ops[v].occupants[x].value.owner == u;
          assert Occupant(g, InputSlot(v, x)).Some?;
        }
      }
    }
    r
  }

  /** An upstream step from `v` to `u` is an edge from some output of `u` to some input of `v`. */
  lemma ProducerIsEdge(g: Graph, v: OpId, u: OpId)
    requires WellFormed(g) && IsOperator(g, v)
    ensures u in Producers(g, v) <==>
              exists o, i :: HasEdge(g, o, i) && o.owner == u && i.owner == v
  {
    var occs := g.ops[v].occupants;
    if u in Producers(g, v) {
      var x :| 0 <= x < |occs| && occs[x].Some? && occs[x].value.owner == u;
      assert Occupant(g, InputSlot(v, x)) == occs[x];
      assert HasEdge(g, occs[x].value, InputSlot(v, x));
    }
    if exists o, i :: HasEdge(g, o, i) && o.owner == u && i.owner == v {
      var o, i :| HasEdge(g, o, i) && o.owner == u && i.owner == v;
      assert occs[i.index] == Some(o);
    }
  }
}
