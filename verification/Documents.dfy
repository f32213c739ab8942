/**
 * Graph documents as values (packages/graph/src/document.ts): commands, the computation key,
 * the order in which edges are materialised, and the graph a document materialises into.
 */
module Documents {
  import opened Wrappers
  import opened DataKinds
  import opened Graphs

  datatype Position = Position(x: real, y: real)
  datatype Viewport = Viewport(x: real, y: real, zoom: real)

  datatype NodeDoc = NodeDoc(
    id: string, reducerId: string, labelText: string, position: Position, inputValues: map<string, Value>)

  datatype EdgeDoc = EdgeDoc(
    id: string, sourceNode: string, sourceSocket: string, targetNode: string, targetSocket: string,
    order: Option<real>)

  datatype Document = Document(
    id: string, title: string, revision: int,
    nodes: seq<NodeDoc>, edges: seq<EdgeDoc>, viewport: Option<Viewport>)

  /** The input values of an update: the properties given a value and those set to undefined. */
  datatype InputPatch = InputPatch(values: map<string, Value>, undefineds: set<string>)

  function Plain(values: map<string, Value>): InputPatch {
    InputPatch(values, {})
  }

  datatype Command =
    | NodeAdd(node: NodeDoc)
    | NodeUpdate(id: string, labelText: Option<string>, inputs: Option<InputPatch>)
    | NodeMove(id: string, position: Position)
    | NodeRemove(id: string)
    | EdgeAdd(edge: EdgeDoc)
    | EdgeRemove(id: string)
    | ViewportUpdate(viewport: Viewport)
    | Unknown(name: string)

  /** The registered reducers and the JavaScript runtime they run on. */
  datatype Runtime = Runtime(host: Host, registry: map<string, Reducer>)

  // ----- commands ---------------------------------------------------------

  predicate AffectsComputation(c: Command) {
    match c
    case NodeMove(_, _) => false
    case ViewportUpdate(_) => false
    case NodeUpdate(_, _, inputs) => inputs.Some?
    case _ => true
  }

  predicate HasNode(nodes: seq<NodeDoc>, id: string) {
    exists i | 0 <= i < |nodes| :: nodes[i].id == id
  }

  predicate HasEdgeId(edges: seq<EdgeDoc>, id: string) {
    exists i | 0 <= i < |edges| :: edges[i].id == id
  }

  /** Edits the first node with the id. */
  function EditFirst(nodes: seq<NodeDoc>, id: string, edit: NodeDoc -> NodeDoc): seq<NodeDoc> {
    if nodes == [] then []
    else if nodes[0].id == id then [edit(nodes[0])] + nodes[1..]
    else [nodes[0]] + EditFirst(nodes[1..], id, edit)
  }

  /** Spreading the patch over the stored values; a property set to undefined is absent from then on. */
  function Patched(n: NodeDoc, labelText: Option<string>, inputs: Option<InputPatch>): NodeDoc {
    n.(labelText := if labelText.Some? then labelText.value else n.labelText,
       inputValues := if inputs.Some? then n.inputValues + inputs.value.values - inputs.value.undefineds
         else n.inputValues)
  }

  function NodesWithout(nodes: seq<NodeDoc>, id: string): seq<NodeDoc> {
    if nodes == [] then []
    else (if nodes[0].id == id then [] else [nodes[0]]) + NodesWithout(nodes[1..], id)
  }

  function EdgesOff(edges: seq<EdgeDoc>, node: string): seq<EdgeDoc> {
    if edges == [] then []
    else
      (if edges[0].sourceNode == node || edges[0].targetNode == node then [] else [edges[0]])
      + EdgesOff(edges[1..], node)
  }

  function EdgesWithout(edges: seq<EdgeDoc>, id: string): seq<EdgeDoc> {
    if edges == [] then []
    else (if edges[0].id == id then [] else [edges[0]]) + EdgesWithout(edges[1..], id)
  }

  function Reduced(d: Document, c: Command): Result<Document, GraphError> {
    var next := d.(revision := d.revision + 1);
    match c
    case NodeAdd(node) =>
      if ':' in node.id then Failure(InvalidId)
      else if HasNode(d.nodes, node.id) then Failure(DuplicateId)
      else Success(next.(nodes := d.nodes + [node]))
    case NodeUpdate(id, labelText, inputs) =>
      if ':' in id then Failure(InvalidId)
      else if !HasNode(d.nodes, id) then Failure(UnknownNode)
      else Success(next.(nodes := EditFirst(d.nodes, id, n => Patched(n, labelText, inputs))))
    case NodeMove(id, position) =>
      if ':' in id then Failure(InvalidId)
      else if !HasNode(d.nodes, id) then Failure(UnknownNode)
      else Success(next.(nodes := EditFirst(d.nodes, id, (n: NodeDoc) => n.(position := position))))
    case NodeRemove(id) =>
      if ':' in id then Failure(InvalidId)
      else Success(next.(nodes := NodesWithout(d.nodes, id), edges := EdgesOff(d.edges, id)))
    case EdgeAdd(edge) =>
      if HasEdgeId(d.edges, edge.id) then Failure(DuplicateId)
      else Success(next.(edges := d.edges + [edge]))
    case EdgeRemove(id) => Success(next.(edges := EdgesWithout(d.edges, id)))
    case ViewportUpdate(viewport) => Success(next.(viewport := Some(viewport)))
    case Unknown(_) => Failure(UnknownCommand)
  }

  function ReducedEach(d: Document, cs: seq<Command>): Result<Document, GraphError>
    decreases |cs|
  {
    if cs == [] then Success(d)
    else
      var next :- Reduced(d, cs[0]);
      ReducedEach(next, cs[1..])
  }

  /** A batch of commands counts as one revision. */
  function ReducedAll(d: Document, cs: seq<Command>): Result<Document, GraphError> {
    if cs == [] then Success(d)
    else
      var next :- ReducedEach(d, cs);
      Success(next.(revision := d.revision + 1))
  }

  // ----- the order of edges -----------------------------------------------

  datatype Indexed = Indexed(edge: EdgeDoc, index: nat)

  function WithIndexes(edges: seq<EdgeDoc>): (r: seq<Indexed>)
    ensures |r| == |edges| && forall i | 0 <= i < |r| :: r[i] == Indexed(edges[i], i)
  {
    seq(|edges|, i requires 0 <= i < |edges| => Indexed(edges[i], i))
  }

  function Rank(x: Indexed): real {
    if x.edge.order.Some? then x.edge.order.value else x.index as real
  }

  /** The comparator of `orderedEdges` is negative on `(a, b)`. */
  predicate Precedes(a: Indexed, b: Indexed) {
    Rank(a) < Rank(b) || (Rank(a) == Rank(b) && a.index < b.index)
  }

  function Inserted(x: Indexed, s: seq<Indexed>): seq<Indexed> {
    if s == [] then [x]
    else if Precedes(s[0], x) then [s[0]] + Inserted(x, s[1..])
    else [x] + s
  }

  function Sorted(s: seq<Indexed>): seq<Indexed> {
    if s == [] then [] else Inserted(s[0], Sorted(s[1..]))
  }

  function EdgesOf(s: seq<Indexed>): (r: seq<EdgeDoc>)
    ensures |r| == |s| && forall i | 0 <= i < |s| :: r[i] == s[i].edge
  {
    seq(|s|, i requires 0 <= i < |s| => s[i].edge)
  }

  function OrderedEdges(edges: seq<EdgeDoc>): seq<EdgeDoc> {
    EdgesOf(Sorted(WithIndexes(edges)))
  }

  predicate InOrder(s: seq<Indexed>) {
    forall i, j | 0 <= i < j < |s| :: Precedes(s[i], s[j])
  }

  predicate DistinctIndexes(s: seq<Indexed>) {
    forall i, j | 0 <= i < j < |s| :: s[i].index != s[j].index
  }

  lemma {:induction false} InsertedMembers(x: Indexed, s: seq<Indexed>)
    ensures multiset(Inserted(x, s)) == multiset(s) + multiset{x}
    ensures forall y :: y in Inserted(x, s) <==> y == x || y in s
  {
    if s != [] && Precedes(s[0], x) {
      InsertedMembers(x, s[1..]);
      assert s == [s[0]] + s[1..];
    }
  }

  lemma PrecedesOrders(a: Indexed, b: Indexed, c: Indexed)
    ensures Precedes(a, b) && Precedes(b, c) ==> Precedes(a, c)
    ensures !(Precedes(a, b) && Precedes(b, a))
    ensures a.index != b.index ==> Precedes(a, b) || Precedes(b, a)
  {
  }

  lemma {:induction false} InsertedInOrder(x: Indexed, s: seq<Indexed>)
    requires InOrder(s) && forall i | 0 <= i < |s| :: s[i].index != x.index
    ensures InOrder(Inserted(x, s))
  {
    if s == [] {
    } else if Precedes(s[0], x) {
      InsertedInOrder(x, s[1..]);
      InsertedMembers(x, s[1..]);
      var r := Inserted(x, s[1..]);
      forall j | 0 <= j < |r| ensures Precedes(s[0], r[j]) {
        assert r[j] in r;
        if r[j] != x {
          var k :| 0 <= k < |s[1..]| && s[1..][k] == r[j];
          assert Precedes(s[0], s[k + 1]);
        }
      }
    } else {
      PrecedesOrders(s[0], x, x);
      forall j | 0 <= j < |s| ensures Precedes(x, s[j]) {
        PrecedesOrders(x, s[0], s[j]);
      }
    }
  }

  /** Sorting permutes the edges into comparator order. */
  lemma {:induction false} SortedInOrder(s: seq<Indexed>)
    requires DistinctIndexes(s)
    ensures InOrder(Sorted(s)) && multiset(Sorted(s)) == multiset(s)
    ensures forall y :: y in Sorted(s) <==> y in s
  {
    if s != [] {
      SortedInOrder(s[1..]);
      forall i | 0 <= i < |Sorted(s[1..])| ensures Sorted(s[1..])[i].index != s[0].index {
        assert Sorted(s[1..])[i] in s[1..];
      }
      InsertedInOrder(s[0], Sorted(s[1..]));
      InsertedMembers(s[0], Sorted(s[1..]));
      assert s == [s[0]] + s[1..];
    }
  }

  lemma SameFirst(s: seq<Indexed>, t: seq<Indexed>)
    requires InOrder(s) && InOrder(t) && s != [] && t != [] && s[0] in t && t[0] in s
    ensures s[0] == t[0]
  {
    var i :| 0 <= i < |t| && t[i] == s[0];
    var j :| 0 <= j < |s| && s[j] == t[0];
    PrecedesOrders(s[0], t[0], t[0]);
    if i > 0 {
      assert Precedes(t[0], t[i]);
    }
    if j > 0 && i == 0 {
      assert t[0] == s[0];
    }
  }

  lemma RestMultiset(s: seq<Indexed>)
    requires s != []
    ensures multiset(s[1..]) == multiset(s) - multiset{s[0]}
  {
    assert s == [s[0]] + s[1..];
  }

  /** So any sort that obeys the comparator returns the same list. */
  lemma {:induction false} SortIsUnique(s: seq<Indexed>, t: seq<Indexed>)
    requires InOrder(s) && InOrder(t) && multiset(s) == multiset(t)
    ensures s == t
  {
    assert |multiset(s)| == |s| && |multiset(t)| == |t|;
    if s != [] {
      assert s[0] in multiset(t) && t[0] in multiset(s);
      SameFirst(s, t);
      RestMultiset(s);
      RestMultiset(t);
      SortIsUnique(s[1..], t[1..]);
      assert s == [s[0]] + s[1..] && t == [t[0]] + t[1..];
    }
  }

  /** Each ordered edge is one edge of the document, at its own index. */
  lemma OrderedPositions(edges: seq<EdgeDoc>)
    ensures var s := Sorted(WithIndexes(edges));
      && |s| == |edges| && DistinctIndexes(s)
      && (forall p | 0 <= p < |s| :: s[p].index < |edges| && s[p].edge == edges[s[p].index])
      && (forall i | 0 <= i < |edges| :: Indexed(edges[i], i) in s)
  {
    var w := WithIndexes(edges);
    var s := Sorted(w);
    SortedInOrder(w);
    assert |multiset(s)| == |s| && |multiset(w)| == |w|;
    forall p | 0 <= p < |s| ensures s[p].index < |edges| && s[p].edge == edges[s[p].index] {
      assert s[p] in w;
    }
    forall i, j | 0 <= i < j < |s| ensures s[i].index != s[j].index {
      assert Precedes(s[i], s[j]);
    }
    forall i | 0 <= i < |edges| ensures Indexed(edges[i], i) in s {
      assert w[i] in s;
    }
  }

  // ----- materialisation --------------------------------------------------

  function Lookup(reg: map<string, Reducer>, id: string): Option<Reducer> {
    if id in reg then Some(reg[id]) else None
  }

  /** Stored input values become socket defaults; names the reducer does not have are ignored. */
  function WithDefaults(h: Host, inputs: map<string, Socket>, values: map<string, Value>): Option<map<string, Socket>> {
    if forall name | name in values && name in inputs ::
         NormalizeSocketValue(h, inputs[name].def, values[name], InferKind(values[name])).Success?
    then
      Some(map name | name in inputs ::
        if name in values
        then inputs[name].(def := inputs[name].def.(defaultValue :=
               Some(NormalizeSocketValue(h, inputs[name].def, values[name], InferKind(values[name])).value)))
        else inputs[name])
    else None
  }

  function BuiltNode(rt: Runtime, n: NodeDoc): Result<Node, GraphError> {
    if ':' in n.id then Failure(InvalidId)
    else
      var reducer := Lookup(rt.registry, n.reducerId);
      if reducer.None? then Failure(UnknownReducer)
      else
        var node := CreateNode(n.id, reducer.value);
        var inputs := WithDefaults(rt.host, node.inputs, n.inputValues);
        if inputs.None? then Failure(DefaultFault) else Success(node.(inputs := inputs.value))
  }

  function BuiltNodes(rt: Runtime, ns: seq<NodeDoc>): Result<Nodes, GraphError> {
    if ns == [] then Success(map[])
    else
      var before :- BuiltNodes(rt, ns[..|ns| - 1]);
      var node :- BuiltNode(rt, ns[|ns| - 1]);
      Success(before[node.id := node])
  }

  function EdgeFor(e: EdgeDoc): Edge {
    Edge(e.id, SocketId(e.sourceNode, Output, e.sourceSocket), SocketId(e.targetNode, Input, e.targetSocket))
  }

  function BuiltEdge(g: GraphState, e: EdgeDoc): Result<GraphState, GraphError> {
    if ':' in e.sourceSocket || ':' in e.targetSocket then Failure(InvalidId) else EdgeAdded(g, EdgeFor(e))
  }

  function BuiltEdges(g: GraphState, es: seq<EdgeDoc>): Result<GraphState, GraphError>
    decreases |es|
  {
    if es == [] then Success(g)
    else
      var next :- BuiltEdge(g, es[0]);
      BuiltEdges(next, es[1..])
  }

  function Materialized(rt: Runtime, d: Document): Result<GraphState, GraphError> {
    var nodes :- BuiltNodes(rt, d.nodes);
    BuiltEdges(GraphState(nodes, map[]), OrderedEdges(d.edges))
  }

  // ----- the computation key ----------------------------------------------

  datatype KeyNode = KeyNode(id: string, reducerId: string, inputValues: map<string, Value>)
  datatype KeyEdge = KeyEdge(
    sourceNode: string, sourceSocket: string, targetNode: string, targetSocket: string, order: Option<real>)
  datatype Key = Key(nodes: seq<KeyNode>, edges: seq<KeyEdge>)

  function KeyOfNode(n: NodeDoc): KeyNode {
    KeyNode(n.id, n.reducerId, n.inputValues)
  }

  function KeyOfEdge(e: EdgeDoc): KeyEdge {
    KeyEdge(e.sourceNode, e.sourceSocket, e.targetNode, e.targetSocket, e.order)
  }

  function KeyNodes(ns: seq<NodeDoc>): (r: seq<KeyNode>)
    ensures |r| == |ns| && forall i | 0 <= i < |ns| :: r[i] == KeyOfNode(ns[i])
  {
    seq(|ns|, i requires 0 <= i < |ns| => KeyOfNode(ns[i]))
  }

  function KeyEdges(es: seq<EdgeDoc>): (r: seq<KeyEdge>)
    ensures |r| == |es| && forall i | 0 <= i < |es| :: r[i] == KeyOfEdge(es[i])
  {
    seq(|es|, i requires 0 <= i < |es| => KeyOfEdge(es[i]))
  }

  /** JSON text with sorted keys, as the value it denotes. Labels, positions and edge ids are not in it. */
  function ComputationKey(d: Document): Key {
    Key(KeyNodes(d.nodes), KeyEdges(OrderedEdges(d.edges)))
  }

  lemma {:induction false} SameKeySameNodes(rt: Runtime, a: seq<NodeDoc>, b: seq<NodeDoc>)
    requires |a| == |b| && forall i | 0 <= i < |a| :: KeyOfNode(a[i]) == KeyOfNode(b[i])
    ensures BuiltNodes(rt, a) == BuiltNodes(rt, b)
  {
    if a != [] {
      SameKeySameNodes(rt, a[..|a| - 1], b[..|b| - 1]);
      assert KeyOfNode(a[|a| - 1]) == KeyOfNode(b[|a| - 1]);
    }
  }

  lemma {:induction false} SameKeySameLinks(g: GraphState, g': GraphState, a: seq<EdgeDoc>, b: seq<EdgeDoc>)
    requires g.nodes == g'.nodes && |a| == |b| && forall i | 0 <= i < |a| :: KeyOfEdge(a[i]) == KeyOfEdge(b[i])
    ensures BuiltEdges(g, a).Success? == BuiltEdges(g', b).Success?
    ensures BuiltEdges(g, a).Success? ==> BuiltEdges(g, a).value.nodes == BuiltEdges(g', b).value.nodes
    decreases |a|
  {
    if a != [] {
      assert KeyOfEdge(a[0]) == KeyOfEdge(b[0]);
      if BuiltEdge(g, a[0]).Success? {
        SameKeySameLinks(BuiltEdge(g, a[0]).value, BuiltEdge(g', b[0]).value, a[1..], b[1..]);
      }
    }
  }

  /**
   * The computation key is a sound cache key: documents with equal keys both materialise or
   * both fail, into graphs with the same nodes, defaults and connections in the same order;
   * everything the engine reads.
   */
  lemma KeyIsSound(rt: Runtime, a: Document, b: Document)
    requires ComputationKey(a) == ComputationKey(b)
    ensures Materialized(rt, a).Success? == Materialized(rt, b).Success?
    ensures Materialized(rt, a).Success? ==> Materialized(rt, a).value.nodes == Materialized(rt, b).value.nodes
  {
    var oa, ob := OrderedEdges(a.edges), OrderedEdges(b.edges);
    assert KeyNodes(a.nodes) == KeyNodes(b.nodes);
    assert KeyEdges(oa) == KeyEdges(ob);
    forall i | 0 <= i < |a.nodes| ensures KeyOfNode(a.nodes[i]) == KeyOfNode(b.nodes[i]) {
      assert KeyNodes(a.nodes)[i] == KeyNodes(b.nodes)[i];
    }
    forall i | 0 <= i < |oa| ensures KeyOfEdge(oa[i]) == KeyOfEdge(ob[i]) {
      assert KeyEdges(oa)[i] == KeyEdges(ob)[i];
    }
    SameKeySameNodes(rt, a.nodes, b.nodes);
    if BuiltNodes(rt, a.nodes).Success? {
      var g := GraphState(BuiltNodes(rt, a.nodes).value, map[]);
      SameKeySameLinks(g, g, oa, ob);
    }
  }

  /** Edits that change neither ids, reducers nor input values. */
  lemma {:induction false} EditFirstKey(nodes: seq<NodeDoc>, id: string, edit: NodeDoc -> NodeDoc)
    requires forall n :: KeyOfNode(edit(n)) == KeyOfNode(n)
    ensures KeyNodes(EditFirst(nodes, id, edit)) == KeyNodes(nodes)
  {
    if nodes != [] && nodes[0].id != id {
      EditFirstKey(nodes[1..], id, edit);
      var r := EditFirst(nodes[1..], id, edit);
      forall i | 0 <= i < |r| ensures KeyOfNode(r[i]) == KeyOfNode(nodes[i + 1]) {
        assert KeyNodes(r)[i] == KeyNodes(nodes[1..])[i];
      }
      assert |KeyNodes(r)| == |KeyNodes(nodes[1..])|;
    }
  }

  lemma LayoutKeepsKey(d: Document, c: Command)
    requires !AffectsComputation(c) && Reduced(d, c).Success?
    ensures ComputationKey(Reduced(d, c).value) == ComputationKey(d)
    ensures Reduced(d, c).value.edges == d.edges
  {
    match c {
      case NodeMove(id, position) => EditFirstKey(d.nodes, id, (n: NodeDoc) => n.(position := position));
      case NodeUpdate(id, labelText, inputs) => EditFirstKey(d.nodes, id, n => Patched(n, labelText, inputs));
      case _ =>
    }
  }

  /** A batch of layout-only commands leaves the computation key and the edges unchanged. */
  lemma {:induction false} LayoutBatchKeepsKey(d: Document, cs: seq<Command>)
    requires (forall c | c in cs :: !AffectsComputation(c)) && ReducedEach(d, cs).Success?
    ensures ComputationKey(ReducedEach(d, cs).value) == ComputationKey(d)
    ensures ReducedEach(d, cs).value.edges == d.edges
    decreases |cs|
  {
    if cs != [] {
      LayoutKeepsKey(d, cs[0]);
      LayoutBatchKeepsKey(Reduced(d, cs[0]).value, cs[1..]);
    }
  }
}
