/**
 * What `validateGraphDocument` reports, and why a document without issues materialises
 * (packages/graph/src/document.ts:287-456).
 */
module Validations {
  import opened Wrappers
  import opened DataKinds
  import opened Graphs
  import opened Documents

  datatype Issue =
    | DuplicateNode(id: string)
    | DuplicateEdge(id: string)
    | InvalidNodeId(id: string)
    | Unregistered(id: string)
    | UnknownInput(id: string, name: string)
    | InputMismatch(id: string, name: string)
    | InvalidSocketName(id: string)
    | MissingSocket(id: string)
    | EdgeMismatch(id: string)
    | InputOccupied(id: string)

  // ----- the issues of a document -----------------------------------------

  /** The map from node ids to reducers is filled in order, so the last node with an id decides. */
  function LastReducer(rt: Runtime, nodes: seq<NodeDoc>, id: string): Option<Reducer> {
    if nodes == [] then None
    else if nodes[|nodes| - 1].id == id then Lookup(rt.registry, nodes[|nodes| - 1].reducerId)
    else LastReducer(rt, nodes[..|nodes| - 1], id)
  }

  /** The first definition with the name. */
  function FindDef(defs: seq<SocketDef>, name: string): Option<SocketDef> {
    if defs == [] then None
    else
      var before := FindDef(defs[..|defs| - 1], name);
      if before.Some? then before
      else if defs[|defs| - 1].name == name then Some(defs[|defs| - 1])
      else None
  }

  function InputIssue(r: Reducer, id: string, name: string, value: Value): set<Issue> {
    var def := FindDef(r.inputs, name);
    if def.None? then {UnknownInput(id, name)}
    else if !SocketAcceptsKind(def.value, InferKind(value)) then {InputMismatch(id, name)}
    else {}
  }

  function NodeIssues(rt: Runtime, d: Document, n: NodeDoc): set<Issue> {
    var r := LastReducer(rt, d.nodes, n.id);
    if r.None? then {Unregistered(n.id)}
    else set name, x | name in n.inputValues && x in InputIssue(r.value, n.id, name, n.inputValues[name]) :: x
  }

  datatype Ends = Ends(source: SocketDef, target: SocketDef)

  predicate ColonFree(e: EdgeDoc) {
    ':' !in e.sourceSocket && ':' !in e.targetSocket
  }

  function EndsOf(rt: Runtime, d: Document, e: EdgeDoc): Option<Ends> {
    var sr, tr := LastReducer(rt, d.nodes, e.sourceNode), LastReducer(rt, d.nodes, e.targetNode);
    if sr.None? || tr.None? then None
    else
      var s, t := FindDef(sr.value.outputs, e.sourceSocket), FindDef(tr.value.inputs, e.targetSocket);
      if s.None? || t.None? then None else Some(Ends(s.value, t.value))
  }

  /** `${edge.targetNodeId}.${edge.targetSocket}` */
  function TargetKey(e: EdgeDoc): string {
    e.targetNode + "." + e.targetSocket
  }

  predicate Settles(rt: Runtime, d: Document, e: EdgeDoc) {
    ColonFree(e) && EndsOf(rt, d, e).Some?
  }

  predicate Occupied(rt: Runtime, d: Document, i: nat)
    requires i < |d.edges|
  {
    exists j | 0 <= j < i :: Settles(rt, d, d.edges[j]) && TargetKey(d.edges[j]) == TargetKey(d.edges[i])
  }

  function EdgeIssues(rt: Runtime, d: Document, i: nat): set<Issue>
    requires i < |d.edges|
  {
    var e := d.edges[i];
    if !ColonFree(e) then {InvalidSocketName(e.id)}
    else
      var ends := EndsOf(rt, d, e);
      if ends.None? then {MissingSocket(e.id)}
      else
        (if !SocketAcceptsKind(ends.value.target, ends.value.source.kind) then {EdgeMismatch(e.id)} else {}) +
        (if !ends.value.target.multiple && Occupied(rt, d, i) then {InputOccupied(e.id)} else {})
  }

  predicate Repeated(ids: seq<string>, id: string) {
    exists i, j | 0 <= i < j < |ids| :: ids[i] == id && ids[j] == id
  }

  function NodeIds(ns: seq<NodeDoc>): (r: seq<string>)
    ensures |r| == |ns| && forall i | 0 <= i < |ns| :: r[i] == ns[i].id
  {
    seq(|ns|, i requires 0 <= i < |ns| => ns[i].id)
  }

  function EdgeIds(es: seq<EdgeDoc>): (r: seq<string>)
    ensures |r| == |es| && forall i | 0 <= i < |es| :: r[i] == es[i].id
  {
    seq(|es|, i requires 0 <= i < |es| => es[i].id)
  }

  ghost predicate IsIssue(rt: Runtime, d: Document, x: Issue) {
    || (x.DuplicateNode? && Repeated(NodeIds(d.nodes), x.id))
    || (x.DuplicateEdge? && Repeated(EdgeIds(d.edges), x.id))
    || (x.InvalidNodeId? && ':' in x.id && HasNode(d.nodes, x.id))
    || (exists i | 0 <= i < |d.nodes| :: x in NodeIssues(rt, d, d.nodes[i]))
    || (exists i | 0 <= i < |d.edges| :: x in EdgeIssues(rt, d, i))
  }

  ghost predicate NoIssues(rt: Runtime, d: Document) {
    forall x :: !IsIssue(rt, d, x)
  }

  // ----- a registry whose reducers keep their word ------------------------

  predicate DistinctNames(defs: seq<SocketDef>) {
    forall i, j | 0 <= i < j < |defs| :: defs[i].name != defs[j].name
  }

  /** Reducers name their sockets apart and return every output they declare. */
  ghost predicate ReducerOk(r: Reducer) {
    && DistinctNames(r.inputs) && DistinctNames(r.outputs)
    && forall inputs, i | 0 <= i < |r.outputs| ::
         r.run(inputs).Success? ==> r.outputs[i].name in r.run(inputs).value
  }

  ghost predicate RegistryOk(rt: Runtime) {
    forall id | id in rt.registry :: ReducerOk(rt.registry[id])
  }

  lemma {:induction false} CreatedSockets(defs: seq<SocketDef>, name: string)
    ensures name in CreateSockets(defs) <==> FindDef(defs, name).Some?
    ensures FindDef(defs, name).Some? ==> FindDef(defs, name).value in defs && FindDef(defs, name).value.name == name
    ensures name in CreateSockets(defs) ==>
      exists i | 0 <= i < |defs| ::
        defs[i].name == name && CreateSockets(defs)[name] == Socket(defs[i], [], defs[i].defaultValue)
    ensures DistinctNames(defs) && name in CreateSockets(defs) ==>
      CreateSockets(defs)[name] == Socket(FindDef(defs, name).value, [], FindDef(defs, name).value.defaultValue)
  {
    if defs != [] {
      CreatedSockets(defs[..|defs| - 1], name);
    }
  }

  // ----- building nodes ---------------------------------------------------

  /** What any built node looks like. */
  lemma BuiltNodeShape(rt: Runtime, n: NodeDoc)
    requires BuiltNode(rt, n).Success?
    ensures var node := BuiltNode(rt, n).value;
      && node.id == n.id && Unconnected(node)
      && n.reducerId in rt.registry && node.reducer == rt.registry[n.reducerId]
      && node.outputs == CreateSockets(node.reducer.outputs)
      && node.inputs.Keys == CreateSockets(node.reducer.inputs).Keys
      && forall name | name in node.inputs ::
           SameDefButDefault(node.inputs[name].def, CreateSockets(node.reducer.inputs)[name].def)
  {
    var node := BuiltNode(rt, n).value;
    forall name | name in node.inputs ensures node.inputs[name].connections == [] {
      CreatedSockets(node.reducer.inputs, name);
    }
    forall name | name in node.outputs ensures node.outputs[name].connections == [] {
      CreatedSockets(node.reducer.outputs, name);
    }
  }

  predicate SameDefButDefault(a: SocketDef, b: SocketDef) {
    a.kind == b.kind && a.multiple == b.multiple && a.accepts == b.accepts && a.required == b.required
  }

  ghost predicate BuiltFrom(rt: Runtime, ns: seq<NodeDoc>, id: string, node: Node) {
    exists i | 0 <= i < |ns| :: ns[i].id == id && BuiltNode(rt, ns[i]) == Success(node)
  }

  lemma {:induction false} BuiltNodesShape(rt: Runtime, ns: seq<NodeDoc>)
    requires BuiltNodes(rt, ns).Success?
    ensures var nodes := BuiltNodes(rt, ns).value;
      forall id | id in nodes :: BuiltFrom(rt, ns, id, nodes[id])
  {
    if ns != [] {
      var k := |ns| - 1;
      BuiltNodesShape(rt, ns[..k]);
      var before, nodes := BuiltNodes(rt, ns[..k]).value, BuiltNodes(rt, ns).value;
      forall id | id in nodes
        ensures BuiltFrom(rt, ns, id, nodes[id])
      {
        if id == ns[k].id {
          assert BuiltNode(rt, ns[k]) == Success(nodes[id]);
        } else {
          assert id in before;
          var i :| 0 <= i < k && ns[..k][i].id == id && BuiltNode(rt, ns[..k][i]) == Success(before[id]);
          assert ns[..k][i] == ns[i];
        }
      }
    }
  }

  lemma {:induction false} BuiltNodesTotal(rt: Runtime, ns: seq<NodeDoc>)
    requires forall i | 0 <= i < |ns| :: BuiltNode(rt, ns[i]).Success?
    requires forall i, j | 0 <= i < j < |ns| :: ns[i].id != ns[j].id
    ensures BuiltNodes(rt, ns).Success?
    ensures forall i | 0 <= i < |ns| ::
      ns[i].id in BuiltNodes(rt, ns).value && BuiltNodes(rt, ns).value[ns[i].id] == BuiltNode(rt, ns[i]).value
  {
    if ns != [] {
      var k := |ns| - 1;
      BuiltNodesTotal(rt, ns[..k]);
      forall i | 0 <= i < k ensures ns[i].id in BuiltNodes(rt, ns).value
        && BuiltNodes(rt, ns).value[ns[i].id] == BuiltNode(rt, ns[i]).value {
        assert ns[..k][i] == ns[i];
      }
    }
  }

  lemma {:induction false} OwnReducer(rt: Runtime, ns: seq<NodeDoc>, i: nat)
    requires i < |ns| && forall i, j | 0 <= i < j < |ns| :: ns[i].id != ns[j].id
    ensures LastReducer(rt, ns, ns[i].id) == Lookup(rt.registry, ns[i].reducerId)
  {
    if i < |ns| - 1 {
      OwnReducer(rt, ns[..|ns| - 1], i);
    }
  }

  lemma {:induction false} ReducerHasNode(rt: Runtime, ns: seq<NodeDoc>, id: string)
    requires LastReducer(rt, ns, id).Some?
    ensures exists i :: 0 <= i < |ns| && ns[i].id == id
  {
    if ns[|ns| - 1].id != id {
      ReducerHasNode(rt, ns[..|ns| - 1], id);
      var i :| 0 <= i < |ns[..|ns| - 1]| && ns[..|ns| - 1][i].id == id;
      assert ns[i].id == id;
    }
  }

  /** No issues: node ids are distinct and colon-free, and edge ids are distinct. */
  lemma IdsAreDistinct(rt: Runtime, d: Document)
    requires NoIssues(rt, d)
    ensures forall i, j | 0 <= i < j < |d.nodes| :: d.nodes[i].id != d.nodes[j].id
    ensures forall i, j | 0 <= i < j < |d.edges| :: d.edges[i].id != d.edges[j].id
    ensures forall i | 0 <= i < |d.nodes| :: ':' !in d.nodes[i].id
  {
    forall i, j | 0 <= i < j < |d.nodes| ensures d.nodes[i].id != d.nodes[j].id {
      var ids := NodeIds(d.nodes);
      assert !IsIssue(rt, d, DuplicateNode(d.nodes[i].id));
      assert ids[i] == d.nodes[i].id && ids[j] == d.nodes[j].id;
    }
    forall i, j | 0 <= i < j < |d.edges| ensures d.edges[i].id != d.edges[j].id {
      var ids := EdgeIds(d.edges);
      assert !IsIssue(rt, d, DuplicateEdge(d.edges[i].id));
      assert ids[i] == d.edges[i].id && ids[j] == d.edges[j].id;
    }
    forall i | 0 <= i < |d.nodes| ensures ':' !in d.nodes[i].id {
      assert !IsIssue(rt, d, InvalidNodeId(d.nodes[i].id));
    }
  }

  /** No issues: every node builds; in particular no default fails coercion. */
  lemma NodeBuilds(rt: Runtime, d: Document, i: nat)
    requires NoIssues(rt, d) && RegistryOk(rt) && i < |d.nodes|
    ensures BuiltNode(rt, d.nodes[i]).Success?
  {
    var n := d.nodes[i];
    IdsAreDistinct(rt, d);
    OwnReducer(rt, d.nodes, i);
    var r := LastReducer(rt, d.nodes, n.id);
    assert r.Some? by {
      if r.None? {
        assert IsIssue(rt, d, Unregistered(n.id));
      }
    }
    var inputs := CreateSockets(r.value.inputs);
    assert ReducerOk(r.value);
    forall name | name in n.inputValues && name in inputs
      ensures NormalizeSocketValue(rt.host, inputs[name].def, n.inputValues[name],
        InferKind(n.inputValues[name])).Success?
    {
      CreatedSockets(r.value.inputs, name);
      var def := FindDef(r.value.inputs, name).value;
      AcceptedDefaultsNormalize(rt.host, def, n.inputValues[name]);
      if !SocketAcceptsKind(def, InferKind(n.inputValues[name])) {
        assert InputMismatch(n.id, name) in InputIssue(r.value, n.id, name, n.inputValues[name]);
        assert InputMismatch(n.id, name) in NodeIssues(rt, d, n);
        assert IsIssue(rt, d, InputMismatch(n.id, name));
      }
    }
  }

  lemma NodesBuild(rt: Runtime, d: Document)
    requires NoIssues(rt, d) && RegistryOk(rt)
    ensures BuiltNodes(rt, d.nodes).Success?
    ensures forall i | 0 <= i < |d.nodes| ::
      d.nodes[i].id in BuiltNodes(rt, d.nodes).value &&
      BuiltNode(rt, d.nodes[i]) == Success(BuiltNodes(rt, d.nodes).value[d.nodes[i].id])
    ensures Linked(GraphState(BuiltNodes(rt, d.nodes).value, map[]))
    ensures Disconnected(BuiltNodes(rt, d.nodes).value)
  {
    IdsAreDistinct(rt, d);
    forall i | 0 <= i < |d.nodes| ensures BuiltNode(rt, d.nodes[i]).Success? {
      NodeBuilds(rt, d, i);
    }
    BuiltNodesTotal(rt, d.nodes);
    BuiltNodesUnconnected(rt, d.nodes);
  }

  ghost predicate Disconnected(nodes: Nodes) {
    forall sid: SocketId :: Connections(nodes, sid) == []
  }

  lemma BuiltNodesUnconnected(rt: Runtime, ns: seq<NodeDoc>)
    requires BuiltNodes(rt, ns).Success?
    ensures Disconnected(BuiltNodes(rt, ns).value)
    ensures Linked(GraphState(BuiltNodes(rt, ns).value, map[]))
  {
    var nodes := BuiltNodes(rt, ns).value;
    BuiltNodesShape(rt, ns);
    forall id | id in nodes ensures nodes[id].id == id && Unconnected(nodes[id]) {
      var i :| 0 <= i < |ns| && ns[i].id == id && BuiltNode(rt, ns[i]) == Success(nodes[id]);
      BuiltNodeShape(rt, ns[i]);
    }
    forall sid: SocketId ensures Connections(nodes, sid) == [] {
    }
  }

  // ----- building edges ---------------------------------------------------

  /** The edge's ends exist in the graph and the kinds agree. */
  predicate Joinable(nodes: Nodes, e: EdgeDoc) {
    var edge := EdgeFor(e);
    && ColonFree(e)
    && GetSocket(nodes, edge.from).Some? && GetSocket(nodes, edge.to).Some?
    && SocketAcceptsKind(GetSocket(nodes, edge.to).value.def, GetSocket(nodes, edge.from).value.def.kind)
  }

  /** No issues: every edge is joinable in the built nodes. */
  lemma EdgeJoins(rt: Runtime, d: Document, i: nat)
    requires NoIssues(rt, d) && RegistryOk(rt) && i < |d.edges|
    ensures BuiltNodes(rt, d.nodes).Success? && Joinable(BuiltNodes(rt, d.nodes).value, d.edges[i])
    ensures EndsOf(rt, d, d.edges[i]).Some?
    ensures GetSocket(BuiltNodes(rt, d.nodes).value, EdgeFor(d.edges[i]).to).value.def.multiple ==
      EndsOf(rt, d, d.edges[i]).value.target.multiple
  {
    var e := d.edges[i];
    NodesBuild(rt, d);
    assert EdgeIssues(rt, d, i) == {} by {
      forall x | x in EdgeIssues(rt, d, i) ensures false {
        assert IsIssue(rt, d, x);
      }
    }
    NamedSocket(rt, d, e.sourceNode, Output, e.sourceSocket);
    NamedSocket(rt, d, e.targetNode, Input, e.targetSocket);
  }

  /** A definition validation finds is the definition of the built socket. */
  lemma NamedSocket(rt: Runtime, d: Document, node: string, dir: Direction, name: string)
    requires NoIssues(rt, d) && RegistryOk(rt) && BuiltNodes(rt, d.nodes).Success?
    requires LastReducer(rt, d.nodes, node).Some?
    requires FindDef(if dir == Input then LastReducer(rt, d.nodes, node).value.inputs
      else LastReducer(rt, d.nodes, node).value.outputs, name).Some?
    ensures var s := GetSocket(BuiltNodes(rt, d.nodes).value, SocketId(node, dir, name));
      var r := LastReducer(rt, d.nodes, node).value;
      s.Some? && SameDefButDefault(s.value.def, FindDef(if dir == Input then r.inputs else r.outputs, name).value)
  {
    NodesBuild(rt, d);
    IdsAreDistinct(rt, d);
    ReducerHasNode(rt, d.nodes, node);
    var i :| 0 <= i < |d.nodes| && d.nodes[i].id == node;
    OwnReducer(rt, d.nodes, i);
    var r := LastReducer(rt, d.nodes, node).value;
    NodeBuilds(rt, d, i);
    BuiltNodeShape(rt, d.nodes[i]);
    assert ReducerOk(r);
    if dir == Input {
      CreatedSockets(r.inputs, name);
    } else {
      CreatedSockets(r.outputs, name);
    }
  }

  ghost predicate NoSelfEdge(es: seq<EdgeDoc>) {
    forall i | 0 <= i < |es| :: es[i].sourceNode != es[i].targetNode
  }

  /** Edges may be added in this order: distinct fresh ids, and single inputs targeted at most once. */
  ghost predicate Buildable(g: GraphState, es: seq<EdgeDoc>) {
    && (forall i | 0 <= i < |es| :: Joinable(g.nodes, es[i]) && es[i].id !in g.edges && FreeTarget(g.nodes, es[i]))
    && (forall i, j | 0 <= i < j < |es| :: es[i].id != es[j].id && !Collide(g.nodes, es[i], es[j]))
  }

  predicate FreeTarget(nodes: Nodes, e: EdgeDoc) {
    SingleInput(nodes, EdgeFor(e).to) ==> Connections(nodes, EdgeFor(e).to) == []
  }

  predicate Collide(nodes: Nodes, e: EdgeDoc, f: EdgeDoc) {
    SingleInput(nodes, EdgeFor(f).to) && EdgeFor(e).to == EdgeFor(f).to
  }

  function EdgeMap(es: seq<EdgeDoc>): map<string, Edge> {
    if es == [] then map[] else map[es[0].id := EdgeFor(es[0])] + EdgeMap(es[1..])
  }

  lemma JoinablePersists(g: GraphState, e: EdgeDoc, f: EdgeDoc)
    requires CanConnect(g.nodes, EdgeFor(e).from, EdgeFor(e).to) && Joinable(g.nodes, f) && FreeTarget(g.nodes, f)
    requires !Collide(g.nodes, e, f)
    ensures var g' := EdgeAdded(g, EdgeFor(e)).value;
      Joinable(g'.nodes, f) && FreeTarget(g'.nodes, f)
  {
    EdgeAddedAt(g, EdgeFor(e), EdgeFor(f).from);
    EdgeAddedAt(g, EdgeFor(e), EdgeFor(f).to);
  }

  lemma CollidePersists(g: GraphState, e: EdgeDoc, f1: EdgeDoc, f2: EdgeDoc)
    requires CanConnect(g.nodes, EdgeFor(e).from, EdgeFor(e).to) && !Collide(g.nodes, f1, f2)
    ensures !Collide(EdgeAdded(g, EdgeFor(e)).value.nodes, f1, f2)
  {
    EdgeAddedAt(g, EdgeFor(e), EdgeFor(f2).to);
  }

  lemma BuildableStep(g: GraphState, es: seq<EdgeDoc>)
    requires Buildable(g, es) && es != [] && CanConnect(g.nodes, EdgeFor(es[0]).from, EdgeFor(es[0]).to)
    ensures Buildable(EdgeAdded(g, EdgeFor(es[0])).value, es[1..])
  {
    var g', rest := EdgeAdded(g, EdgeFor(es[0])).value, es[1..];
    forall i | 0 <= i < |rest| ensures Joinable(g'.nodes, rest[i]) && rest[i].id !in g'.edges
      && FreeTarget(g'.nodes, rest[i]) {
      assert rest[i] == es[i + 1];
      JoinablePersists(g, es[0], rest[i]);
    }
    forall i, j | 0 <= i < j < |rest| ensures rest[i].id != rest[j].id && !Collide(g'.nodes, rest[i], rest[j]) {
      assert rest[i] == es[i + 1] && rest[j] == es[j + 1];
      CollidePersists(g, es[0], rest[i], rest[j]);
    }
  }

  lemma FirstConnects(g: GraphState, es: seq<EdgeDoc>)
    requires Buildable(g, es) && es != [] && es[0].sourceNode != es[0].targetNode
    ensures CanConnect(g.nodes, EdgeFor(es[0]).from, EdgeFor(es[0]).to)
    ensures BuiltEdge(g, es[0]) == EdgeAdded(g, EdgeFor(es[0])) && es[0].id !in g.edges
  {
    assert Joinable(g.nodes, es[0]) && FreeTarget(g.nodes, es[0]);
  }

  lemma {:induction false} EdgesBuild(g: GraphState, es: seq<EdgeDoc>)
    requires Linked(g) && Buildable(g, es) && NoSelfEdge(es)
    ensures BuiltEdges(g, es).Success? && Linked(BuiltEdges(g, es).value)
    decreases |es|
  {
    if es != [] {
      FirstConnects(g, es);
      BuildableStep(g, es);
      EdgeAddedKeeps(g, EdgeFor(es[0]));
      EdgesBuild(EdgeAdded(g, EdgeFor(es[0])).value, es[1..]);
    }
  }

  lemma {:induction false} EdgesCollected(g: GraphState, es: seq<EdgeDoc>)
    requires BuiltEdges(g, es).Success?
    ensures BuiltEdges(g, es).value.edges == g.edges + EdgeMap(es)
    decreases |es|
  {
    if es == [] {
      assert g.edges + map[] == g.edges;
    } else {
      EdgesCollected(BuiltEdge(g, es[0]).value, es[1..]);
      UpdateIsUnion(g.edges, es[0].id, EdgeFor(es[0]), EdgeMap(es[1..]));
    }
  }

  lemma UpdateIsUnion(m: map<string, Edge>, id: string, e: Edge, rest: map<string, Edge>)
    ensures m[id := e] + rest == m + (map[id := e] + rest)
  {
  }

  lemma {:induction false} SelfEdgeFails(g: GraphState, es: seq<EdgeDoc>, i: nat)
    requires i < |es| && es[i].sourceNode == es[i].targetNode
    ensures BuiltEdges(g, es).Failure?
    decreases i
  {
    if i > 0 && BuiltEdge(g, es[0]).Success? {
      SelfEdgeFails(BuiltEdge(g, es[0]).value, es[1..], i - 1);
    }
  }

  lemma {:induction false} EdgeMapLookup(es: seq<EdgeDoc>)
    requires forall i, j | 0 <= i < j < |es| :: es[i].id != es[j].id
    ensures forall i | 0 <= i < |es| :: es[i].id in EdgeMap(es) && EdgeMap(es)[es[i].id] == EdgeFor(es[i])
    ensures forall id | id in EdgeMap(es) :: exists i :: 0 <= i < |es| && es[i].id == id
  {
    if es != [] {
      EdgeMapLookup(es[1..]);
      forall i | 0 <= i < |es| ensures es[i].id in EdgeMap(es) && EdgeMap(es)[es[i].id] == EdgeFor(es[i]) {
        if i > 0 {
          assert es[i] == es[1..][i - 1];
        }
      }
      forall id | id in EdgeMap(es) ensures exists i :: 0 <= i < |es| && es[i].id == id {
        if id != es[0].id {
          var j :| 0 <= j < |es[1..]| && es[1..][j].id == id;
          assert es[j + 1].id == id;
        } else {
          assert es[0].id == id;
        }
      }
    }
  }

  /** No issues: the ordered edges can be added to the built nodes. */
  lemma OrderedEdgesBuildable(rt: Runtime, d: Document)
    requires NoIssues(rt, d) && RegistryOk(rt)
    ensures BuiltNodes(rt, d.nodes).Success?
    ensures Buildable(GraphState(BuiltNodes(rt, d.nodes).value, map[]), OrderedEdges(d.edges))
  {
    NodesBuild(rt, d);
    IdsAreDistinct(rt, d);
    OrderedPositions(d.edges);
    var nodes, s, es := BuiltNodes(rt, d.nodes).value, Sorted(WithIndexes(d.edges)), OrderedEdges(d.edges);
    forall p | 0 <= p < |es| ensures Joinable(nodes, es[p]) && FreeTarget(nodes, es[p]) {
      assert es[p] == d.edges[s[p].index];
      EdgeJoins(rt, d, s[p].index);
    }
    forall p, q | 0 <= p < q < |es| ensures es[p].id != es[q].id && !Collide(nodes, es[p], es[q]) {
      assert s[p].index != s[q].index;
      if s[p].index < s[q].index {
        TargetsApart(rt, d, s[p].index, s[q].index);
      } else {
        TargetsApart(rt, d, s[q].index, s[p].index);
      }
    }
  }

  lemma TargetsApart(rt: Runtime, d: Document, i: nat, j: nat)
    requires NoIssues(rt, d) && RegistryOk(rt) && i < j < |d.edges|
    ensures BuiltNodes(rt, d.nodes).Success?
    ensures !Collide(BuiltNodes(rt, d.nodes).value, d.edges[i], d.edges[j])
    ensures !Collide(BuiltNodes(rt, d.nodes).value, d.edges[j], d.edges[i])
  {
    EdgeJoins(rt, d, i);
    EdgeJoins(rt, d, j);
    var e, f := d.edges[i], d.edges[j];
    if EdgeFor(e).to == EdgeFor(f).to && !EndsOf(rt, d, f).value.target.multiple {
      assert TargetKey(e) == TargetKey(f);
      assert Settles(rt, d, e);
      assert Occupied(rt, d, j);
      assert InputOccupied(f.id) in EdgeIssues(rt, d, j);
      assert IsIssue(rt, d, InputOccupied(f.id));
    }
  }

  lemma SelfEdgeNeverMaterializes(rt: Runtime, d: Document)
    requires !NoSelfEdge(d.edges)
    ensures Materialized(rt, d).Failure?
  {
    OrderedPositions(d.edges);
    var i :| 0 <= i < |d.edges| && d.edges[i].sourceNode == d.edges[i].targetNode;
    var s := Sorted(WithIndexes(d.edges));
    var p :| 0 <= p < |s| && s[p] == Indexed(d.edges[i], i);
    if BuiltNodes(rt, d.nodes).Success? {
      SelfEdgeFails(GraphState(BuiltNodes(rt, d.nodes).value, map[]), OrderedEdges(d.edges), p);
    }
  }

  ghost predicate OneEdgeEach(edges: map<string, Edge>, es: seq<EdgeDoc>) {
    && |edges| == |es|
    && forall i | 0 <= i < |es| :: es[i].id in edges && edges[es[i].id] == EdgeFor(es[i])
  }

  lemma OrderedEdgesAlike(es: seq<EdgeDoc>)
    requires forall i, j | 0 <= i < j < |es| :: es[i].id != es[j].id
    ensures |OrderedEdges(es)| == |es|
    ensures NoSelfEdge(es) ==> NoSelfEdge(OrderedEdges(es))
    ensures forall p, q | 0 <= p < q < |es| :: OrderedEdges(es)[p].id != OrderedEdges(es)[q].id
    ensures forall i | 0 <= i < |es| :: es[i] in OrderedEdges(es)
  {
    OrderedPositions(es);
    var s, os := Sorted(WithIndexes(es)), OrderedEdges(es);
    forall p, q | 0 <= p < q < |os| ensures os[p].id != os[q].id {
      assert s[p].index != s[q].index;
    }
    forall i | 0 <= i < |es| ensures es[i] in os {
      var p :| 0 <= p < |s| && s[p] == Indexed(es[i], i);
      assert os[p] == es[i];
    }
  }

  lemma OrderedEdgesMapped(es: seq<EdgeDoc>)
    requires forall i, j | 0 <= i < j < |es| :: es[i].id != es[j].id
    ensures OneEdgeEach(EdgeMap(OrderedEdges(es)), es)
  {
    var os := OrderedEdges(es);
    OrderedEdgesAlike(es);
    EdgeMapLookup(os);
    EdgeMapSize(os);
    forall i | 0 <= i < |es| ensures es[i].id in EdgeMap(os) && EdgeMap(os)[es[i].id] == EdgeFor(es[i]) {
      var p :| 0 <= p < |os| && os[p] == es[i];
    }
  }

  lemma ValidMaterializes(rt: Runtime, d: Document)
    requires NoIssues(rt, d) && RegistryOk(rt) && NoSelfEdge(d.edges)
    ensures Materialized(rt, d).Success? && Linked(Materialized(rt, d).value)
  {
    NodesBuild(rt, d);
    IdsAreDistinct(rt, d);
    OrderedEdgesBuildable(rt, d);
    OrderedEdgesAlike(d.edges);
    EdgesBuild(GraphState(BuiltNodes(rt, d.nodes).value, map[]), OrderedEdges(d.edges));
  }

  lemma ValidEdges(rt: Runtime, d: Document)
    requires NoIssues(rt, d) && Materialized(rt, d).Success?
    ensures OneEdgeEach(Materialized(rt, d).value.edges, d.edges)
  {
    IdsAreDistinct(rt, d);
    var es := OrderedEdges(d.edges);
    EdgesCollected(GraphState(BuiltNodes(rt, d.nodes).value, map[]), es);
    OrderedEdgesMapped(d.edges);
    assert map[] + EdgeMap(es) == EdgeMap(es);
  }

  /**
   * Validation is sound for materialisation. A document without issues materialises exactly
   * when no edge is a self-loop, which validation does not look for. Then every document edge
   * is one graph edge and the graph has its structural invariant, so no single input has two
   * connections.
   */
  lemma ValidMaterializesIff(rt: Runtime, d: Document)
    requires NoIssues(rt, d) && RegistryOk(rt)
    ensures Materialized(rt, d).Success? <==> NoSelfEdge(d.edges)
    ensures Materialized(rt, d).Success? ==>
      Linked(Materialized(rt, d).value) && OneEdgeEach(Materialized(rt, d).value.edges, d.edges)
  {
    if NoSelfEdge(d.edges) {
      ValidMaterializes(rt, d);
      ValidEdges(rt, d);
    } else {
      SelfEdgeNeverMaterializes(rt, d);
    }
  }

  lemma {:induction false} EdgeMapSize(es: seq<EdgeDoc>)
    requires forall i, j | 0 <= i < j < |es| :: es[i].id != es[j].id
    ensures |EdgeMap(es)| == |es|
  {
    if es != [] {
      EdgeMapSize(es[1..]);
      FirstIdIsNew(es);
      assert EdgeMap(es) == EdgeMap(es[1..])[es[0].id := EdgeFor(es[0])];
    }
  }

  lemma FirstIdIsNew(es: seq<EdgeDoc>)
    requires es != [] && forall i, j | 0 <= i < j < |es| :: es[i].id != es[j].id
    ensures es[0].id !in EdgeMap(es[1..])
  {
    EdgeMapLookup(es[1..]);
  }

  /** Moving, relabelling and panning neither add nor remove issues. */
  lemma SameKeySameIssues(rt: Runtime, a: Document, b: Document)
    requires KeyNodes(a.nodes) == KeyNodes(b.nodes) && a.edges == b.edges
    ensures NoIssues(rt, a) <==> NoIssues(rt, b)
  {
    forall x { SameIssue(rt, a, b, x); }
  }

  lemma SameIssue(rt: Runtime, a: Document, b: Document, x: Issue)
    requires KeyNodes(a.nodes) == KeyNodes(b.nodes) && a.edges == b.edges
    ensures IsIssue(rt, a, x) <==> IsIssue(rt, b, x)
  {
    forall i | 0 <= i < |a.nodes| ensures KeyOfNode(a.nodes[i]) == KeyOfNode(b.nodes[i]) {
      assert KeyNodes(a.nodes)[i] == KeyNodes(b.nodes)[i];
    }
    assert NodeIds(a.nodes) == NodeIds(b.nodes);
    forall id { SameLastReducer(rt, a.nodes, b.nodes, id); }
    forall i | 0 <= i < |a.nodes| ensures NodeIssues(rt, a, a.nodes[i]) == NodeIssues(rt, b, b.nodes[i]) {
      assert KeyOfNode(a.nodes[i]) == KeyOfNode(b.nodes[i]);
    }
    forall i | 0 <= i < |a.edges| ensures EdgeIssues(rt, a, i) == EdgeIssues(rt, b, i) {
      assert forall j | 0 <= j < |a.edges| :: EndsOf(rt, a, a.edges[j]) == EndsOf(rt, b, a.edges[j]);
      assert forall j | 0 <= j < |a.edges| :: Settles(rt, a, a.edges[j]) == Settles(rt, b, a.edges[j]);
      assert Occupied(rt, a, i) == Occupied(rt, b, i);
    }
  }

  lemma {:induction false} SameLastReducer(rt: Runtime, a: seq<NodeDoc>, b: seq<NodeDoc>, id: string)
    requires |a| == |b| && forall i | 0 <= i < |a| :: KeyOfNode(a[i]) == KeyOfNode(b[i])
    ensures LastReducer(rt, a, id) == LastReducer(rt, b, id)
  {
    if a != [] {
      assert KeyOfNode(a[|a| - 1]) == KeyOfNode(b[|b| - 1]);
      SameLastReducer(rt, a[..|a| - 1], b[..|b| - 1], id);
    }
  }

  // ----- the document that passes and fails ---------------------------------

  const ECHO: Reducer := Reducer("echo",
    [SocketDef("in", Any, false, false, None, None)], [SocketDef("out", Any, false, false, None, None)],
    (inputs: map<string, Value>) => true,
    (inputs: map<string, Value>) => Success(map["out" := Null]))

  /** One node wired to itself. */
  const LOOP: Document := Document("d", "t", 0,
    [NodeDoc("n", "echo", "n", Position(0.0, 0.0), map[])], [EdgeDoc("e", "n", "out", "n", "in", None)], None)

  /** Validation says nothing about an edge from a node to itself, and materialisation throws. */
  lemma SelfEdgePassesValidation(host: Host)
    ensures var rt := Runtime(host, map["echo" := ECHO]);
      RegistryOk(rt) && NoIssues(rt, LOOP) && Materialized(rt, LOOP).Failure?
  {
    var rt := Runtime(host, map["echo" := ECHO]);
    LoopReducer(rt);
    assert LOOP.edges[0].sourceNode == LOOP.edges[0].targetNode;
    assert !NoSelfEdge(LOOP.edges);
    SelfEdgeNeverMaterializes(rt, LOOP);
  }

  lemma LoopReducer(rt: Runtime)
    requires rt.registry == map["echo" := ECHO]
    ensures NoIssues(rt, LOOP)
  {
    assert LastReducer(rt, LOOP.nodes, "n") == Some(ECHO);
    assert FindDef(ECHO.outputs, "out") == Some(ECHO.outputs[0]);
    assert FindDef(ECHO.inputs, "in") == Some(ECHO.inputs[0]);
    assert EdgeIssues(rt, LOOP, 0) == {};
    assert NodeIssues(rt, LOOP, LOOP.nodes[0]) == {};
  }
}
