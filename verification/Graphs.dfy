/**
 * The typed computation graph (packages/graph/src/graph.ts, node.ts, edge.ts).
 *
 * A `GraphState` is the value of a graph; the class `Graph` updates its fields in place and
 * each method is specified by a function on `GraphState`. A JavaScript Set of connections is
 * a duplicate-free sequence in insertion order.
 */
module Graphs {
  import opened Wrappers
  import opened DataKinds

  datatype Direction = Input | Output

  datatype SocketId = SocketId(node: string, direction: Direction, name: string)

  datatype Reducer = Reducer(
    id: string,
    inputs: seq<SocketDef>,
    outputs: seq<SocketDef>,
    validate: map<string, Value> -> bool,
    run: map<string, Value> -> Result<map<string, Value>, GraphError>)

  datatype Socket = Socket(def: SocketDef, connections: seq<SocketId>, value: Option<Value>)

  datatype Node = Node(
    id: string,
    reducer: Reducer,
    inputs: map<string, Socket>,
    outputs: map<string, Socket>,
    error: Option<GraphError>)

  datatype Edge = Edge(id: string, from: SocketId, to: SocketId)

  type Nodes = map<string, Node>

  datatype GraphState = GraphState(nodes: Nodes, edges: map<string, Edge>)

  // ----- sockets of a node map -------------------------------------------

  function SocketsOf(n: Node, d: Direction): map<string, Socket> {
    if d == Input then n.inputs else n.outputs
  }

  function GetSocket(nodes: Nodes, sid: SocketId): Option<Socket> {
    if sid.node in nodes && sid.name in SocketsOf(nodes[sid.node], sid.direction)
    then Some(SocketsOf(nodes[sid.node], sid.direction)[sid.name])
    else None
  }

  function WithSocket(nodes: Nodes, sid: SocketId, s: Socket): Nodes
    requires GetSocket(nodes, sid).Some?
  {
    var n := nodes[sid.node];
    nodes[sid.node := if sid.direction == Input then n.(inputs := n.inputs[sid.name := s])
                      else n.(outputs := n.outputs[sid.name := s])]
  }

  function Connections(nodes: Nodes, sid: SocketId): seq<SocketId> {
    var s := GetSocket(nodes, sid);
    if s.Some? then s.value.connections else []
  }

  predicate NoDuplicates<T(==)>(s: seq<T>) {
    forall i, j | 0 <= i < j < |s| :: s[i] != s[j]
  }

  /** Set.add: append unless present. */
  function Added(s: seq<SocketId>, x: SocketId): seq<SocketId> {
    if x in s then s else s + [x]
  }

  /** Set.delete, for a whole set of elements: what is kept stays in order. */
  function Without(s: seq<SocketId>, gone: set<SocketId>): (r: seq<SocketId>)
    ensures forall x :: x in r <==> x in s && x !in gone
    ensures NoDuplicates(s) ==> NoDuplicates(r)
  {
    if s == [] then []
    else if s[0] in gone then Without(s[1..], gone)
    else [s[0]] + Without(s[1..], gone)
  }

  lemma {:induction false} WithoutTwice(s: seq<SocketId>, a: set<SocketId>, b: set<SocketId>)
    ensures Without(Without(s, a), b) == Without(s, a + b)
  {
    if s != [] {
      WithoutTwice(s[1..], a, b);
    }
  }

  lemma {:induction false} WithoutSame(s: seq<SocketId>, a: set<SocketId>, b: set<SocketId>)
    requires forall x | x in s :: x in a <==> x in b
    ensures Without(s, a) == Without(s, b)
  {
    if s != [] {
      WithoutSame(s[1..], a, b);
    }
  }

  lemma {:induction false} WithoutNone(s: seq<SocketId>, a: set<SocketId>)
    requires forall x | x in s :: x !in a
    ensures Without(s, a) == s
  {
    if s != [] {
      WithoutNone(s[1..], a);
    }
  }

  // ----- the text form of a socket id -------------------------------------

  function DirectionText(d: Direction): string {
    if d == Input then "input" else "output"
  }

  /** `${nodeId}:${direction}:${name}` */
  function SocketIdText(sid: SocketId): string {
    sid.node + ":" + DirectionText(sid.direction) + ":" + sid.name
  }

  /** `text.split(":")` */
  function SplitColon(text: string): (parts: seq<string>)
    ensures |parts| >= 1
  {
    if text == "" then [""]
    else
      var rest := SplitColon(text[1..]);
      if text[0] == ':' then [""] + rest else [[text[0]] + rest[0]] + rest[1..]
  }

  /** The destructuring at the head of `getSocket`: parts after the third are dropped. */
  function ParseSocketId(text: string): Option<SocketId> {
    var parts := SplitColon(text);
    if |parts| < 3 then None
    else Some(SocketId(parts[0], if parts[1] == "input" then Input else Output, parts[2]))
  }

  lemma {:induction false} SplitAtColon(a: string, b: string)
    requires ':' !in a
    ensures SplitColon(a + ":" + b) == [a] + SplitColon(b)
  {
    if a == "" {
      assert (a + ":" + b)[1..] == b;
    } else {
      SplitAtColon(a[1..], b);
      assert (a + ":" + b)[1..] == a[1..] + ":" + b;
      assert (a + ":" + b)[0] == a[0];
      assert a == [a[0]] + a[1..];
    }
  }

  lemma {:induction false} SplitHead(a: string)
    ensures ':' !in SplitColon(a)[0]
    ensures ':' !in a ==> SplitColon(a) == [a]
  {
    if a != "" {
      SplitHead(a[1..]);
      assert a == [a[0]] + a[1..];
    }
  }

  lemma ColonFreeRoundTrip(sid: SocketId)
    requires ':' !in sid.node && ':' !in sid.name
    ensures ParseSocketId(SocketIdText(sid)) == Some(sid)
  {
    var d := DirectionText(sid.direction);
    assert SocketIdText(sid) == sid.node + ":" + (d + ":" + sid.name);
    SplitAtColon(sid.node, d + ":" + sid.name);
    SplitAtColon(d, sid.name);
    SplitHead(sid.name);
  }

  /** Parts hold no colon. */
  lemma {:induction false} PartsHaveNoColon(text: string)
    ensures forall part | part in SplitColon(text) :: ':' !in part
  {
    if text != "" {
      PartsHaveNoColon(text[1..]);
      var rest := SplitColon(text[1..]);
      assert rest[0] in rest && forall part | part in rest[1..] :: part in rest;
    }
  }

  lemma ParsedHasNoColon(text: string)
    requires ParseSocketId(text).Some?
    ensures ':' !in ParseSocketId(text).value.node && ':' !in ParseSocketId(text).value.name
  {
    PartsHaveNoColon(text);
  }

  /**
   * Splitting the text of a socket id gives the id back exactly when neither the node id nor
   * the socket name contains a colon, which is what the document layer insists on.
   */
  lemma SocketIdRoundTrip(sid: SocketId)
    ensures ParseSocketId(SocketIdText(sid)) == Some(sid) <==> ':' !in sid.node && ':' !in sid.name
  {
    if ':' !in sid.node && ':' !in sid.name {
      ColonFreeRoundTrip(sid);
    } else if ParseSocketId(SocketIdText(sid)).Some? {
      ParsedHasNoColon(SocketIdText(sid));
    }
  }

  // ----- specification of the graph operations ----------------------------

  function CreateSockets(defs: seq<SocketDef>): map<string, Socket> {
    if defs == [] then map[]
    else
      var d := defs[|defs| - 1];
      CreateSockets(defs[..|defs| - 1])[d.name := Socket(d, [], d.defaultValue)]
  }

  function CreateNode(id: string, r: Reducer): Node {
    Node(id, r, CreateSockets(r.inputs), CreateSockets(r.outputs), None)
  }

  predicate CanConnect(nodes: Nodes, from: SocketId, to: SocketId) {
    var f, t := GetSocket(nodes, from), GetSocket(nodes, to);
    && f.Some? && t.Some?
    && from.node != to.node
    && from.direction == Output && to.direction == Input
    && !(!t.value.def.multiple && |t.value.connections| > 0)
    && SocketAcceptsKind(t.value.def, f.value.def.kind)
  }

  function Connect(nodes: Nodes, at: SocketId, other: SocketId): Nodes {
    var s := GetSocket(nodes, at);
    if s.None? then nodes
    else WithSocket(nodes, at, s.value.(connections := Added(s.value.connections, other)))
  }

  function Disconnect(nodes: Nodes, at: SocketId, other: SocketId): Nodes {
    var s := GetSocket(nodes, at);
    if s.None? then nodes
    else WithSocket(nodes, at, s.value.(connections := Without(s.value.connections, {other})))
  }

  function NodeAdded(g: GraphState, n: Node): GraphState {
    g.(nodes := g.nodes[n.id := n])
  }

  function EdgeAdded(g: GraphState, e: Edge): Result<GraphState, GraphError> {
    if !CanConnect(g.nodes, e.from, e.to) then Failure(InvalidConnection)
    else Success(GraphState(Connect(Connect(g.nodes, e.from, e.to), e.to, e.from), g.edges[e.id := e]))
  }

  function EdgeRemoved(g: GraphState, id: string): GraphState {
    if id !in g.edges then g
    else
      var e := g.edges[id];
      GraphState(Disconnect(Disconnect(g.nodes, e.from, e.to), e.to, e.from), g.edges - {id})
  }

  predicate Touches(e: Edge, id: string) {
    e.from.node == id || e.to.node == id
  }

  function Pruned(sockets: map<string, Socket>, id: string): map<string, Socket> {
    map name | name in sockets ::
      sockets[name].(connections :=
        Without(sockets[name].connections, set x | x in sockets[name].connections && x.node == id))
  }

  /** What removing a node leaves: every other node, minus its connections to the removed one. */
  function NodeRemoved(g: GraphState, id: string): GraphState {
    GraphState(
      map n | n in g.nodes && n != id ::
        g.nodes[n].(inputs := Pruned(g.nodes[n].inputs, id), outputs := Pruned(g.nodes[n].outputs, id)),
      map e | e in g.edges && !Touches(g.edges[e], id) :: g.edges[e])
  }

  function NeighboursOf(nodes: Nodes, sockets: map<string, Socket>): set<string> {
    set name, sid | name in sockets && sid in sockets[name].connections && GetSocket(nodes, sid).Some? :: sid.node
  }

  function Downstream(nodes: Nodes, id: string): set<string> {
    if id in nodes then NeighboursOf(nodes, nodes[id].outputs) else {}
  }

  function Upstream(nodes: Nodes, id: string): set<string> {
    if id in nodes then NeighboursOf(nodes, nodes[id].inputs) else {}
  }

  lemma UpstreamInGraph(nodes: Nodes, id: string)
    ensures Upstream(nodes, id) <= nodes.Keys
    ensures Downstream(nodes, id) <= nodes.Keys
  {
  }

  // ----- the structural invariant -----------------------------------------

  predicate Joins(e: Edge, a: SocketId, b: SocketId) {
    (e.from == a && e.to == b) || (e.from == b && e.to == a)
  }

  ghost predicate EdgeFits(nodes: Nodes, e: Edge) {
    && GetSocket(nodes, e.from).Some? && GetSocket(nodes, e.to).Some?
    && e.from.direction == Output && e.to.direction == Input
    && e.from.node != e.to.node
    && e.to in Connections(nodes, e.from) && e.from in Connections(nodes, e.to)
    && SocketAcceptsKind(GetSocket(nodes, e.to).value.def, GetSocket(nodes, e.from).value.def.kind)
  }

  ghost predicate HasEdge(edges: map<string, Edge>, a: SocketId, b: SocketId) {
    exists id :: id in edges && Joins(edges[id], a, b)
  }

  /**
   * Connections are symmetric and are exactly the pairs the edges join; no edge is a
   * self-loop or crosses incompatible kinds; a single input has at most one connection.
   */
  ghost predicate Linked(g: GraphState) {
    && IdsMatch(g)
    && EdgesFit(g)
    && ConnectionsHaveEdges(g)
    && ConnectionsBounded(g.nodes)
  }

  ghost predicate IdsMatch(g: GraphState) {
    && (forall id | id in g.nodes :: g.nodes[id].id == id)
    && (forall id | id in g.edges :: g.edges[id].id == id)
  }

  ghost predicate EdgesFit(g: GraphState) {
    forall id | id in g.edges :: EdgeFits(g.nodes, g.edges[id])
  }

  ghost predicate ConnectionsHaveEdges(g: GraphState) {
    forall a: SocketId, b: SocketId {:trigger HasEdge(g.edges, a, b)} ::
      b in Connections(g.nodes, a) ==> HasEdge(g.edges, a, b)
  }

  predicate SingleInput(nodes: Nodes, a: SocketId) {
    a.direction == Input && GetSocket(nodes, a).Some? && !GetSocket(nodes, a).value.def.multiple
  }

  ghost predicate ConnectionsBounded(nodes: Nodes) {
    forall a: SocketId ::
      && NoDuplicates(Connections(nodes, a))
      && (SingleInput(nodes, a) ==> |Connections(nodes, a)| <= 1)
  }

  /** Moreover each connection comes from one edge only. */
  ghost predicate Exact(g: GraphState) {
    Linked(g) && PairsDistinct(g.edges)
  }

  predicate SamePair(e: Edge, f: Edge) {
    e.from == f.from && e.to == f.to
  }

  ghost predicate PairsDistinct(edges: map<string, Edge>) {
    forall i, j | i in edges && j in edges && i != j :: !SamePair(edges[i], edges[j])
  }

  ghost predicate Unconnected(n: Node) {
    && (forall name | name in n.inputs :: n.inputs[name].connections == [])
    && (forall name | name in n.outputs :: n.outputs[name].connections == [])
  }

  lemma LinkedIsSymmetric(g: GraphState, a: SocketId, b: SocketId)
    requires Linked(g) && b in Connections(g.nodes, a)
    ensures a in Connections(g.nodes, b) && a.node != b.node && a.direction != b.direction
  {
    assert HasEdge(g.edges, a, b);
  }

  /** Upstream is the converse of downstream, and no node feeds itself. */
  lemma UpstreamIsConverse(g: GraphState, u: string, d: string)
    requires Linked(g)
    ensures u in Upstream(g.nodes, d) <==> d in Downstream(g.nodes, u)
    ensures u in Upstream(g.nodes, d) ==> u != d
  {
    if u in Upstream(g.nodes, d) {
      var name, sid :| name in g.nodes[d].inputs && sid in g.nodes[d].inputs[name].connections
        && GetSocket(g.nodes, sid).Some? && sid.node == u;
      var at := SocketId(d, Input, name);
      assert sid in Connections(g.nodes, at);
      LinkedIsSymmetric(g, at, sid);
      assert at in g.nodes[u].outputs[sid.name].connections;
    }
    if d in Downstream(g.nodes, u) {
      var name, sid :| name in g.nodes[u].outputs && sid in g.nodes[u].outputs[name].connections
        && GetSocket(g.nodes, sid).Some? && sid.node == d;
      var at := SocketId(u, Output, name);
      assert sid in Connections(g.nodes, at);
      LinkedIsSymmetric(g, at, sid);
      assert at in g.nodes[d].inputs[sid.name].connections;
    }
  }

  // How each step moves the sockets, pointwise.

  lemma ConnectAt(nodes: Nodes, at: SocketId, other: SocketId, sid: SocketId)
    ensures GetSocket(Connect(nodes, at, other), sid) ==
      if sid == at && GetSocket(nodes, at).Some?
      then Some(GetSocket(nodes, at).value.(connections := Added(Connections(nodes, at), other)))
      else GetSocket(nodes, sid)
    ensures Connect(nodes, at, other).Keys == nodes.Keys
    ensures sid.node in nodes ==> Connect(nodes, at, other)[sid.node].id == nodes[sid.node].id
  {
  }

  lemma DisconnectAt(nodes: Nodes, at: SocketId, other: SocketId, sid: SocketId)
    ensures GetSocket(Disconnect(nodes, at, other), sid) ==
      if sid == at && GetSocket(nodes, at).Some?
      then Some(GetSocket(nodes, at).value.(connections := Without(Connections(nodes, at), {other})))
      else GetSocket(nodes, sid)
    ensures Disconnect(nodes, at, other).Keys == nodes.Keys
    ensures sid.node in nodes ==> Disconnect(nodes, at, other)[sid.node].id == nodes[sid.node].id
  {
  }

  lemma EdgeAddedAt(g: GraphState, e: Edge, sid: SocketId)
    requires CanConnect(g.nodes, e.from, e.to)
    ensures var g' := EdgeAdded(g, e).value;
      && Connections(g'.nodes, sid) ==
           (if sid == e.from then Added(Connections(g.nodes, sid), e.to)
            else if sid == e.to then Added(Connections(g.nodes, sid), e.from)
            else Connections(g.nodes, sid))
      && GetSocket(g'.nodes, sid).Some? == GetSocket(g.nodes, sid).Some?
      && (GetSocket(g.nodes, sid).Some? ==> GetSocket(g'.nodes, sid).value.def == GetSocket(g.nodes, sid).value.def)
      && g'.nodes.Keys == g.nodes.Keys
      && (sid.node in g.nodes ==> g'.nodes[sid.node].id == g.nodes[sid.node].id)
  {
    ConnectAt(g.nodes, e.from, e.to, sid);
    ConnectAt(g.nodes, e.from, e.to, e.to);
    ConnectAt(Connect(g.nodes, e.from, e.to), e.to, e.from, sid);
  }

  lemma EdgeRemovedAt(g: GraphState, id: string, sid: SocketId)
    requires id in g.edges && g.edges[id].from != g.edges[id].to
    ensures var g', e := EdgeRemoved(g, id), g.edges[id];
      && GetSocket(g'.nodes, sid).Some? == GetSocket(g.nodes, sid).Some?
      && (GetSocket(g.nodes, sid).Some? ==>
           GetSocket(g'.nodes, sid).value == GetSocket(g.nodes, sid).value.(connections := Connections(g'.nodes, sid)))
      && Connections(g'.nodes, sid) ==
           (if sid == e.from then Without(Connections(g.nodes, sid), {e.to})
            else if sid == e.to then Without(Connections(g.nodes, sid), {e.from})
            else Connections(g.nodes, sid))
      && g'.nodes.Keys == g.nodes.Keys
      && (sid.node in g.nodes ==> g'.nodes[sid.node].id == g.nodes[sid.node].id)
  {
    var e := g.edges[id];
    DisconnectAt(g.nodes, e.from, e.to, sid);
    DisconnectAt(g.nodes, e.from, e.to, e.to);
    DisconnectAt(Disconnect(g.nodes, e.from, e.to), e.to, e.from, sid);
  }

  // ----- the invariant over single steps and over runs --------------------

  lemma NodeAddedAt(g: GraphState, n: Node, a: SocketId)
    requires Unconnected(n) && (n.id in g.nodes ==> Unconnected(g.nodes[n.id]))
    ensures Connections(NodeAdded(g, n).nodes, a) == Connections(g.nodes, a)
    ensures a.node != n.id ==> GetSocket(NodeAdded(g, n).nodes, a) == GetSocket(g.nodes, a)
  {
  }

  lemma NodeAddedFits(g: GraphState, n: Node)
    requires EdgesFit(g) && Unconnected(n) && (n.id in g.nodes ==> Unconnected(g.nodes[n.id]))
    ensures EdgesFit(NodeAdded(g, n))
  {
    var g' := NodeAdded(g, n);
    forall id | id in g.edges ensures EdgeFits(g'.nodes, g.edges[id]) {
      assert EdgeFits(g.nodes, g.edges[id]);
      NodeAddedAt(g, n, g.edges[id].from);
      NodeAddedAt(g, n, g.edges[id].to);
    }
  }

  lemma NodeAddedHasEdges(g: GraphState, n: Node)
    requires ConnectionsHaveEdges(g) && Unconnected(n) && (n.id in g.nodes ==> Unconnected(g.nodes[n.id]))
    ensures ConnectionsHaveEdges(NodeAdded(g, n))
  {
    var g' := NodeAdded(g, n);
    forall a: SocketId, b: SocketId | b in Connections(g'.nodes, a) ensures HasEdge(g'.edges, a, b) {
      NodeAddedAt(g, n, a);
      assert HasEdge(g.edges, a, b);
    }
  }

  lemma NodeAddedBounded(g: GraphState, n: Node)
    requires ConnectionsBounded(g.nodes) && Unconnected(n) && (n.id in g.nodes ==> Unconnected(g.nodes[n.id]))
    ensures ConnectionsBounded(NodeAdded(g, n).nodes)
  {
    var g' := NodeAdded(g, n);
    forall a: SocketId
      ensures NoDuplicates(Connections(g'.nodes, a))
      ensures SingleInput(g'.nodes, a) ==> |Connections(g'.nodes, a)| <= 1
    {
      NodeAddedAt(g, n, a);
      assert NoDuplicates(Connections(g.nodes, a));
    }
  }

  lemma NodeAddedKeeps(g: GraphState, n: Node)
    requires Linked(g) && Unconnected(n) && (n.id in g.nodes ==> Unconnected(g.nodes[n.id]))
    ensures Linked(NodeAdded(g, n))
    ensures Exact(g) ==> Exact(NodeAdded(g, n))
  {
    NodeAddedFits(g, n);
    NodeAddedHasEdges(g, n);
    NodeAddedBounded(g, n);
  }

  /** What a node's own socket holds. */
  function OwnConnections(n: Node, a: SocketId): seq<SocketId> {
    if a.name in SocketsOf(n, a.direction) then SocketsOf(n, a.direction)[a.name].connections else []
  }

  /** The node's sockets hold, up to order, what those of the node it overwrites held; nothing, if there is none. */
  ghost predicate Carries(g: GraphState, n: Node) {
    forall a: SocketId, b: SocketId {:trigger CarriesPair(g, n, a, b)} :: a.node == n.id ==> CarriesPair(g, n, a, b)
  }

  ghost predicate CarriesPair(g: GraphState, n: Node, a: SocketId, b: SocketId) {
    b in OwnConnections(n, a) <==> b in Connections(g.nodes, a)
  }

  /** No socket of the node holds a connection twice, and no single input holds two. */
  ghost predicate WellHeld(n: Node) {
    forall a: SocketId | a.node == n.id :: HeldOnce(n, a)
  }

  predicate HeldOnce(n: Node, a: SocketId) {
    && NoDuplicates(OwnConnections(n, a))
    && (a.direction == Input && a.name in n.inputs && !n.inputs[a.name].def.multiple ==> |OwnConnections(n, a)| <= 1)
  }

  /** The edges that touch the node still join sockets of accepted kinds. */
  ghost predicate StillAccepted(g: GraphState, n: Node) {
    forall id | id in g.edges && Touches(g.edges[id], n.id) :: Accepted(NodeAdded(g, n).nodes, g.edges[id])
  }

  predicate Accepted(nodes: Nodes, e: Edge) {
    && GetSocket(nodes, e.from).Some? && GetSocket(nodes, e.to).Some?
    && SocketAcceptsKind(GetSocket(nodes, e.to).value.def, GetSocket(nodes, e.from).value.def.kind)
  }

  lemma AddedAt(g: GraphState, n: Node, a: SocketId)
    ensures var g' := NodeAdded(g, n);
      && (a.node == n.id ==> Connections(g'.nodes, a) == OwnConnections(n, a))
      && (a.node != n.id ==> GetSocket(g'.nodes, a) == GetSocket(g.nodes, a))
  {
  }

  lemma CarriedFits(g: GraphState, n: Node)
    requires EdgesFit(g) && Carries(g, n) && StillAccepted(g, n)
    ensures EdgesFit(NodeAdded(g, n))
  {
    var g' := NodeAdded(g, n);
    forall id | id in g.edges ensures EdgeFits(g'.nodes, g.edges[id]) {
      var e := g.edges[id];
      assert EdgeFits(g.nodes, e);
      AddedAt(g, n, e.from);
      AddedAt(g, n, e.to);
      assert e.from.node == n.id ==> CarriesPair(g, n, e.from, e.to);
      assert e.to.node == n.id ==> CarriesPair(g, n, e.to, e.from);
    }
  }

  lemma CarriedHasEdges(g: GraphState, n: Node)
    requires ConnectionsHaveEdges(g) && Carries(g, n)
    ensures ConnectionsHaveEdges(NodeAdded(g, n))
  {
    var g' := NodeAdded(g, n);
    forall a: SocketId, b: SocketId | b in Connections(g'.nodes, a) ensures HasEdge(g'.edges, a, b) {
      AddedAt(g, n, a);
      assert a.node == n.id ==> CarriesPair(g, n, a, b);
      assert HasEdge(g.edges, a, b);
    }
  }

  lemma CarriedBounded(g: GraphState, n: Node)
    requires ConnectionsBounded(g.nodes) && WellHeld(n)
    ensures ConnectionsBounded(NodeAdded(g, n).nodes)
  {
    var g' := NodeAdded(g, n);
    forall a: SocketId
      ensures NoDuplicates(Connections(g'.nodes, a))
      ensures SingleInput(g'.nodes, a) ==> |Connections(g'.nodes, a)| <= 1
    {
      AddedAt(g, n, a);
      if a.node == n.id {
        assert HeldOnce(n, a);
      } else {
        assert NoDuplicates(Connections(g.nodes, a));
      }
    }
  }

  lemma ExactCarries(g: GraphState, n: Node)
    requires Exact(g) && Exact(NodeAdded(g, n))
    ensures Carries(g, n) && WellHeld(n) && StillAccepted(g, n)
  {
    var g' := NodeAdded(g, n);
    forall a: SocketId, b: SocketId | a.node == n.id ensures CarriesPair(g, n, a, b) {
      AddedAt(g, n, a);
      PairHasEdge(g, a, b);
      PairHasEdge(g', a, b);
    }
    forall a: SocketId | a.node == n.id ensures HeldOnce(n, a) {
      AddedAt(g, n, a);
      assert NoDuplicates(Connections(g'.nodes, a));
    }
    forall id | id in g.edges && Touches(g.edges[id], n.id) ensures Accepted(g'.nodes, g.edges[id]) {
      assert EdgeFits(g'.nodes, g'.edges[id]);
    }
  }

  /** In a linked graph a connection is there exactly if some edge joins the two sockets. */
  lemma PairHasEdge(g: GraphState, a: SocketId, b: SocketId)
    requires EdgesFit(g) && ConnectionsHaveEdges(g)
    ensures b in Connections(g.nodes, a) <==> HasEdge(g.edges, a, b)
  {
    if HasEdge(g.edges, a, b) {
      var id :| id in g.edges && Joins(g.edges[id], a, b);
      assert EdgeFits(g.nodes, g.edges[id]);
    }
  }

  /**
   * Adding any node, new or in place of another, keeps edges and connections one to one if and only if
   * its sockets carry what the overwritten ones held, each connection once, single inputs at most one,
   * and the edges that touch it still join accepted kinds.
   */
  lemma NodeAddedExactIff(g: GraphState, n: Node)
    requires Exact(g)
    ensures Exact(NodeAdded(g, n)) <==> Carries(g, n) && WellHeld(n) && StillAccepted(g, n)
  {
    if Carries(g, n) && WellHeld(n) && StillAccepted(g, n) {
      CarriedFits(g, n);
      CarriedHasEdges(g, n);
      CarriedBounded(g, n);
    } else if Exact(NodeAdded(g, n)) {
      ExactCarries(g, n);
    }
  }

  /** So a node without connections may overwrite exactly the nodes without connections. */
  lemma BareNodeExactIff(g: GraphState, n: Node)
    requires Exact(g) && Unconnected(n)
    ensures Exact(NodeAdded(g, n)) <==> (n.id in g.nodes ==> Unconnected(g.nodes[n.id]))
  {
    if n.id in g.nodes ==> Unconnected(g.nodes[n.id]) {
      NodeAddedKeeps(g, n);
    } else {
      var d, name :| name in SocketsOf(g.nodes[n.id], d) && SocketsOf(g.nodes[n.id], d)[name].connections != [];
      OverwriteDangles(g, n, SocketId(n.id, d, name));
    }
  }

  lemma OverwriteDangles(g: GraphState, n: Node, a: SocketId)
    requires Exact(g) && Unconnected(n) && a.node == n.id && Connections(g.nodes, a) != []
    ensures !EdgesFit(NodeAdded(g, n))
  {
    var b := Connections(g.nodes, a)[0];
    assert HasEdge(g.edges, a, b);
    var id :| id in g.edges && Joins(g.edges[id], a, b);
    OverwrittenSocketIsEmpty(g, n, a);
    EndWithoutConnections(NodeAdded(g, n).nodes, g.edges[id], a, b);
  }

  lemma OverwrittenSocketIsEmpty(g: GraphState, n: Node, a: SocketId)
    requires Unconnected(n) && a.node == n.id
    ensures Connections(NodeAdded(g, n).nodes, a) == []
  {
  }

  lemma EndWithoutConnections(nodes: Nodes, e: Edge, a: SocketId, b: SocketId)
    requires Joins(e, a, b) && Connections(nodes, a) == []
    ensures !EdgeFits(nodes, e)
  {
  }

  lemma EdgeAddedFits(g: GraphState, e: Edge)
    requires EdgesFit(g) && CanConnect(g.nodes, e.from, e.to)
    ensures EdgesFit(EdgeAdded(g, e).value)
  {
    var g' := EdgeAdded(g, e).value;
    forall id | id in g'.edges ensures EdgeFits(g'.nodes, g'.edges[id]) {
      var x := if id == e.id then e else g.edges[id];
      if id != e.id {
        assert EdgeFits(g.nodes, x);
      }
      EdgeAddedAt(g, e, x.from);
      EdgeAddedAt(g, e, x.to);
    }
  }

  lemma EdgeAddedHasEdges(g: GraphState, e: Edge)
    requires ConnectionsHaveEdges(g) && CanConnect(g.nodes, e.from, e.to) && e.id !in g.edges
    ensures ConnectionsHaveEdges(EdgeAdded(g, e).value)
  {
    var g' := EdgeAdded(g, e).value;
    forall a: SocketId, b: SocketId | b in Connections(g'.nodes, a)
      ensures HasEdge(g'.edges, a, b)
    {
      EdgeAddedAt(g, e, a);
      if b in Connections(g.nodes, a) {
        assert HasEdge(g.edges, a, b);
        var id :| id in g.edges && Joins(g.edges[id], a, b);
        assert id in g'.edges && Joins(g'.edges[id], a, b);
      } else {
        assert e.id in g'.edges && Joins(g'.edges[e.id], a, b);
      }
    }
  }

  lemma EdgeAddedBounded(g: GraphState, e: Edge)
    requires ConnectionsBounded(g.nodes) && CanConnect(g.nodes, e.from, e.to)
    ensures ConnectionsBounded(EdgeAdded(g, e).value.nodes)
  {
    var g' := EdgeAdded(g, e).value;
    forall a: SocketId
      ensures NoDuplicates(Connections(g'.nodes, a))
      ensures SingleInput(g'.nodes, a) ==> |Connections(g'.nodes, a)| <= 1
    {
      EdgeAddedAt(g, e, a);
      assert NoDuplicates(Connections(g.nodes, a));
    }
  }

  lemma EdgeAddedIds(g: GraphState, e: Edge)
    requires IdsMatch(g) && CanConnect(g.nodes, e.from, e.to)
    ensures IdsMatch(EdgeAdded(g, e).value)
  {
    forall id | id in EdgeAdded(g, e).value.nodes {
      EdgeAddedAt(g, e, SocketId(id, Input, ""));
    }
  }

  lemma EdgeAddedKeeps(g: GraphState, e: Edge)
    requires Linked(g) && CanConnect(g.nodes, e.from, e.to) && e.id !in g.edges
    ensures Linked(EdgeAdded(g, e).value)
  {
    EdgeAddedIds(g, e);
    EdgeAddedFits(g, e);
    EdgeAddedHasEdges(g, e);
    EdgeAddedBounded(g, e);
  }

  /**
   * On an exact graph, adding an allowed edge keeps exactness if and only if both its id and
   * its pair of sockets are fresh, or the very same edge is added again.
   */
  lemma EdgeAddedExactIff(g: GraphState, e: Edge)
    requires Exact(g) && CanConnect(g.nodes, e.from, e.to)
    ensures Exact(EdgeAdded(g, e).value) <==>
      (e.id !in g.edges && e.to !in Connections(g.nodes, e.from)) || (e.id in g.edges && g.edges[e.id] == e)
  {
    if e.id !in g.edges {
      EdgeAddedKeeps(g, e);
      FreshPairIff(g, e);
      DistinctIff(g.edges, e);
    } else if g.edges[e.id] == e {
      SameEdgeAgain(g, e);
    } else {
      ReusedIdDangles(g, e);
    }
  }

  lemma FreshPairIff(g: GraphState, e: Edge)
    requires Exact(g) && CanConnect(g.nodes, e.from, e.to)
    ensures e.to in Connections(g.nodes, e.from) <==> exists id :: id in g.edges && SamePair(g.edges[id], e)
  {
    if e.to in Connections(g.nodes, e.from) {
      assert HasEdge(g.edges, e.from, e.to);
      var id :| id in g.edges && Joins(g.edges[id], e.from, e.to);
      assert EdgeFits(g.nodes, g.edges[id]);
      assert SamePair(g.edges[id], e);
    }
    if id :| id in g.edges && SamePair(g.edges[id], e) {
      assert EdgeFits(g.nodes, g.edges[id]);
    }
  }

  lemma DistinctIff(edges: map<string, Edge>, e: Edge)
    requires PairsDistinct(edges) && e.id !in edges
    ensures PairsDistinct(edges[e.id := e]) <==> !exists id :: id in edges && SamePair(edges[id], e)
  {
    var edges' := edges[e.id := e];
    if id :| id in edges && SamePair(edges[id], e) {
      assert id in edges' && e.id in edges' && SamePair(edges'[id], edges'[e.id]);
    }
  }

  lemma SameEdgeAgain(g: GraphState, e: Edge)
    requires Exact(g) && CanConnect(g.nodes, e.from, e.to) && e.id in g.edges && g.edges[e.id] == e
    ensures EdgeAdded(g, e).value == g
  {
    assert EdgeFits(g.nodes, e);
    ReconnectSame(g.nodes, e.from, e.to);
    ReconnectSame(g.nodes, e.to, e.from);
    assert g.edges[e.id := e] == g.edges;
  }

  lemma ReconnectSame(nodes: Nodes, at: SocketId, other: SocketId)
    requires other in Connections(nodes, at)
    ensures Connect(nodes, at, other) == nodes
  {
    var n, s := nodes[at.node], GetSocket(nodes, at).value;
    assert s.(connections := Added(s.connections, other)) == s;
    assert SocketsOf(n, at.direction)[at.name := s] == SocketsOf(n, at.direction);
  }

  /** Reusing an edge id for another pair leaves the old connection without an edge. */
  lemma ReusedIdDangles(g: GraphState, e: Edge)
    requires Exact(g) && CanConnect(g.nodes, e.from, e.to) && e.id in g.edges && g.edges[e.id] != e
    ensures !Exact(EdgeAdded(g, e).value)
  {
    var g', lost := EdgeAdded(g, e).value, g.edges[e.id];
    assert EdgeFits(g.nodes, lost);
    EdgeAddedAt(g, e, lost.from);
    assert lost.to in Connections(g'.nodes, lost.from);
    assert !HasEdge(g'.edges, lost.from, lost.to);
  }

  lemma EdgeRemovedFits(g: GraphState, id: string)
    requires Exact(g) && id in g.edges
    ensures EdgesFit(EdgeRemoved(g, id))
  {
    var g', e := EdgeRemoved(g, id), g.edges[id];
    assert EdgeFits(g.nodes, e);
    forall i | i in g'.edges ensures EdgeFits(g'.nodes, g'.edges[i]) {
      var x := g.edges[i];
      assert EdgeFits(g.nodes, x);
      EdgeRemovedAt(g, id, x.from);
      EdgeRemovedAt(g, id, x.to);
    }
  }

  lemma EdgeRemovedHasEdges(g: GraphState, id: string)
    requires ConnectionsHaveEdges(g) && id in g.edges && g.edges[id].from != g.edges[id].to
    ensures ConnectionsHaveEdges(EdgeRemoved(g, id))
  {
    var g', e := EdgeRemoved(g, id), g.edges[id];
    forall a: SocketId, b: SocketId | b in Connections(g'.nodes, a)
      ensures HasEdge(g'.edges, a, b)
    {
      EdgeRemovedAt(g, id, a);
      assert HasEdge(g.edges, a, b);
      var i :| i in g.edges && Joins(g.edges[i], a, b);
      assert i != id;
      assert i in g'.edges && Joins(g'.edges[i], a, b);
    }
  }

  lemma EdgeRemovedBounded(g: GraphState, id: string)
    requires ConnectionsBounded(g.nodes) && id in g.edges && g.edges[id].from != g.edges[id].to
    ensures ConnectionsBounded(EdgeRemoved(g, id).nodes)
  {
    var g', e := EdgeRemoved(g, id), g.edges[id];
    forall a: SocketId
      ensures NoDuplicates(Connections(g'.nodes, a))
      ensures SingleInput(g'.nodes, a) ==> |Connections(g'.nodes, a)| <= 1
    {
      EdgeRemovedAt(g, id, a);
      assert NoDuplicates(Connections(g.nodes, a));
      WithoutShorter(Connections(g.nodes, a), {e.to});
      WithoutShorter(Connections(g.nodes, a), {e.from});
    }
  }

  lemma {:induction false} WithoutShorter(s: seq<SocketId>, gone: set<SocketId>)
    ensures |Without(s, gone)| <= |s|
  {
    if s != [] {
      WithoutShorter(s[1..], gone);
    }
  }

  lemma EdgeRemovedIds(g: GraphState, id: string)
    requires IdsMatch(g) && id in g.edges && g.edges[id].from != g.edges[id].to
    ensures IdsMatch(EdgeRemoved(g, id))
  {
    forall n | n in EdgeRemoved(g, id).nodes {
      EdgeRemovedAt(g, id, SocketId(n, Input, ""));
    }
  }

  lemma EdgeRemovedKeeps(g: GraphState, id: string)
    requires Exact(g)
    ensures Exact(EdgeRemoved(g, id))
  {
    if id in g.edges {
      assert EdgeFits(g.nodes, g.edges[id]);
      EdgeRemovedIds(g, id);
      EdgeRemovedFits(g, id);
      EdgeRemovedHasEdges(g, id);
      EdgeRemovedBounded(g, id);
    }
  }

  function Toward(s: seq<SocketId>, id: string): set<SocketId> {
    set x | x in s && x.node == id
  }

  lemma NodeRemovedAt(g: GraphState, id: string, a: SocketId)
    ensures var g' := NodeRemoved(g, id);
      if a.node == id then GetSocket(g'.nodes, a).None?
      else
        && GetSocket(g'.nodes, a).Some? == GetSocket(g.nodes, a).Some?
        && Connections(g'.nodes, a) == Without(Connections(g.nodes, a), Toward(Connections(g.nodes, a), id))
        && (GetSocket(g.nodes, a).Some? ==> GetSocket(g'.nodes, a).value.def == GetSocket(g.nodes, a).value.def)
  {
  }

  lemma NodeRemovedFits(g: GraphState, id: string)
    requires EdgesFit(g)
    ensures EdgesFit(NodeRemoved(g, id))
  {
    var g' := NodeRemoved(g, id);
    forall i | i in g'.edges ensures EdgeFits(g'.nodes, g'.edges[i]) {
      var x := g.edges[i];
      assert EdgeFits(g.nodes, x);
      NodeRemovedAt(g, id, x.from);
      NodeRemovedAt(g, id, x.to);
    }
  }

  lemma SurvivingConnection(g: GraphState, id: string, a: SocketId, b: SocketId)
    requires EdgesFit(g) && ConnectionsHaveEdges(g) && b in Connections(NodeRemoved(g, id).nodes, a)
    ensures a.node != id && b.node != id && b in Connections(g.nodes, a)
    ensures exists i :: i in g.edges && Joins(g.edges[i], a, b) && EdgeFits(g.nodes, g.edges[i])
  {
    NodeRemovedAt(g, id, a);
    assert HasEdge(g.edges, a, b);
  }

  lemma NodeRemovedHasEdges(g: GraphState, id: string)
    requires EdgesFit(g) && ConnectionsHaveEdges(g)
    ensures ConnectionsHaveEdges(NodeRemoved(g, id))
  {
    var g' := NodeRemoved(g, id);
    forall a: SocketId, b: SocketId | b in Connections(g'.nodes, a) ensures HasEdge(g'.edges, a, b) {
      SurvivingConnection(g, id, a, b);
      var i :| i in g.edges && Joins(g.edges[i], a, b);
      assert i in g'.edges && Joins(g'.edges[i], a, b);
    }
  }

  lemma NodeRemovedDanglesNothing(g: GraphState, id: string)
    requires EdgesFit(g) && ConnectionsHaveEdges(g)
    ensures NothingDangles(NodeRemoved(g, id).nodes, id)
  {
    var g' := NodeRemoved(g, id);
    forall a: SocketId, b: SocketId | b in Connections(g'.nodes, a)
      ensures a.node != id && b.node != id && GetSocket(g'.nodes, b).Some?
    {
      SurvivingConnection(g, id, a, b);
      NodeRemovedAt(g, id, b);
    }
  }

  lemma NodeRemovedBounded(g: GraphState, id: string)
    requires ConnectionsBounded(g.nodes)
    ensures ConnectionsBounded(NodeRemoved(g, id).nodes)
  {
    var g' := NodeRemoved(g, id);
    forall a: SocketId
      ensures NoDuplicates(Connections(g'.nodes, a))
      ensures SingleInput(g'.nodes, a) ==> |Connections(g'.nodes, a)| <= 1
    {
      NodeRemovedAt(g, id, a);
      assert NoDuplicates(Connections(g.nodes, a));
      WithoutShorter(Connections(g.nodes, a), Toward(Connections(g.nodes, a), id));
    }
  }

  ghost predicate NothingDangles(nodes: Nodes, id: string) {
    forall a: SocketId, b: SocketId :: b in Connections(nodes, a) ==>
      a.node != id && b.node != id && GetSocket(nodes, b).Some?
  }

  /** Removing a node keeps the invariant and leaves nothing that mentions the node. */
  lemma NodeRemovedKeeps(g: GraphState, id: string)
    requires Linked(g)
    ensures Linked(NodeRemoved(g, id)) && NothingDangles(NodeRemoved(g, id).nodes, id)
    ensures Exact(g) ==> Exact(NodeRemoved(g, id))
  {
    NodeRemovedFits(g, id);
    NodeRemovedHasEdges(g, id);
    NodeRemovedDanglesNothing(g, id);
    NodeRemovedBounded(g, id);
  }

  // Runs of graph operations.

  datatype GraphOp =
    | AddNodeOp(node: Node)
    | RemoveNodeOp(nodeId: string)
    | AddEdgeOp(edge: Edge)
    | RemoveEdgeOp(edgeId: string)

  /** An `addEdge` that throws leaves the graph as it was. */
  function Step(g: GraphState, op: GraphOp): GraphState {
    match op
    case AddNodeOp(n) => NodeAdded(g, n)
    case RemoveNodeOp(id) => NodeRemoved(g, id)
    case AddEdgeOp(e) => var r := EdgeAdded(g, e); if r.Success? then r.value else g
    case RemoveEdgeOp(id) => EdgeRemoved(g, id)
  }

  function RunOps(g: GraphState, ops: seq<GraphOp>): GraphState
    decreases |ops|
  {
    if ops == [] then g else RunOps(Step(g, ops[0]), ops[1..])
  }

  /** Callers use node ids, edge ids and socket pairs that are not in the graph yet. */
  ghost predicate Fresh(g: GraphState, op: GraphOp) {
    match op
    case AddNodeOp(n) => Unconnected(n) && n.id !in g.nodes
    case AddEdgeOp(e) => e.id !in g.edges && e.to !in Connections(g.nodes, e.from)
    case _ => true
  }

  ghost predicate AllFresh(g: GraphState, ops: seq<GraphOp>)
    decreases |ops|
  {
    ops == [] || (Fresh(g, ops[0]) && AllFresh(Step(g, ops[0]), ops[1..]))
  }

  /** The structural invariant survives every run with fresh ids and socket pairs. */
  lemma {:induction false} RunsKeepExact(g: GraphState, ops: seq<GraphOp>)
    requires Exact(g) && AllFresh(g, ops)
    ensures Exact(RunOps(g, ops))
    decreases |ops|
  {
    if ops != [] {
      match ops[0] {
        case AddNodeOp(n) => NodeAddedKeeps(g, n);
        case RemoveNodeOp(id) => NodeRemovedKeeps(g, id);
        case AddEdgeOp(e) => if CanConnect(g.nodes, e.from, e.to) { EdgeAddedExactIff(g, e); }
        case RemoveEdgeOp(id) => EdgeRemovedKeeps(g, id);
      }
      RunsKeepExact(Step(g, ops[0]), ops[1..]);
    }
  }

  /** The empty graph, from which every run starts, has the invariant. */
  lemma EmptyIsExact()
    ensures Exact(GraphState(map[], map[]))
  {
  }

  // ----- graphs on which single steps break the invariant --------------------

  function AnySocket(name: string, multiple: bool): SocketDef {
    SocketDef(name, Any, false, multiple, None, None)
  }

  const SOURCE: Reducer := Reducer("source", [], [AnySocket("out", false)],
    (inputs: map<string, Value>) => true, (inputs: map<string, Value>) => Success(map["out" := Null]))

  const SINK: Reducer := Reducer("sink", [AnySocket("in", true), AnySocket("more", false)], [],
    (inputs: map<string, Value>) => true, (inputs: map<string, Value>) => Success(map[]))

  const OUT: SocketId := SocketId("a", Output, "out")
  const INTO: SocketId := SocketId("b", Input, "in")
  const MORE: SocketId := SocketId("b", Input, "more")

  /** Two nodes and no edge. */
  function Apart(): GraphState {
    NodeAdded(NodeAdded(GraphState(map[], map[]), CreateNode("a", SOURCE)), CreateNode("b", SINK))
  }

  /** Two nodes joined by the edge "e". */
  function Joined(): GraphState {
    EdgeAdded(Apart(), Edge("e", OUT, INTO)).value
  }

  lemma SocketsOfExamples(id: string)
    ensures CreateNode(id, SOURCE).inputs == map[]
    ensures CreateNode(id, SOURCE).outputs == map["out" := Socket(AnySocket("out", false), [], None)]
    ensures CreateNode(id, SINK).outputs == map[]
    ensures CreateNode(id, SINK).inputs ==
      map["in" := Socket(AnySocket("in", true), [], None), "more" := Socket(AnySocket("more", false), [], None)]
  {
    assert SOURCE.outputs[..0] == [] && SINK.inputs[..1] == [SINK.inputs[0]] && [SINK.inputs[0]][..0] == [];
  }

  lemma ApartIsExact()
    ensures Exact(Apart()) && CanConnect(Apart().nodes, OUT, INTO)
  {
    SocketsOfExamples("a");
    SocketsOfExamples("b");
    EmptyIsExact();
    var g := NodeAdded(GraphState(map[], map[]), CreateNode("a", SOURCE));
    NodeAddedKeeps(GraphState(map[], map[]), CreateNode("a", SOURCE));
    NodeAddedKeeps(g, CreateNode("b", SINK));
  }

  lemma JoinedIsExact()
    ensures CanConnect(Apart().nodes, OUT, INTO) && Exact(Joined())
    ensures CanConnect(Joined().nodes, OUT, INTO) && CanConnect(Joined().nodes, OUT, MORE)
    ensures INTO in Connections(Joined().nodes, OUT) && Joined().edges == map["e" := Edge("e", OUT, INTO)]
  {
    ApartIsExact();
    var e := Edge("e", OUT, INTO);
    SocketsOfExamples("a");
    SocketsOfExamples("b");
    EdgeAddedExactIff(Apart(), e);
    EdgeAddedAt(Apart(), e, OUT);
    EdgeAddedAt(Apart(), e, INTO);
    EdgeAddedAt(Apart(), e, MORE);
  }

  /** Adding a new "a" over the connected one leaves the edge without connections. */
  lemma OverwritingBreaks()
    ensures Exact(Joined()) && Unconnected(CreateNode("a", SOURCE))
      && !Exact(NodeAdded(Joined(), CreateNode("a", SOURCE)))
  {
    JoinedIsExact();
    SocketsOfExamples("a");
    var d, name := OUT.direction, OUT.name;
    assert name in SocketsOf(Joined().nodes["a"], d) && SocketsOf(Joined().nodes["a"], d)[name].connections != [];
    BareNodeExactIff(Joined(), CreateNode("a", SOURCE));
  }

  /** Reusing the edge id leaves a connection without an edge; reusing the pair gives one connection two edges. */
  lemma ReusingBreaks()
    ensures var reusedId, reusedPair := Edge("e", OUT, MORE), Edge("f", OUT, INTO);
      && Exact(Joined())
      && EdgeAdded(Joined(), reusedId).Success? && !Exact(EdgeAdded(Joined(), reusedId).value)
      && EdgeAdded(Joined(), reusedPair).Success? && !Exact(EdgeAdded(Joined(), reusedPair).value)
  {
    JoinedIsExact();
    EdgeAddedExactIff(Joined(), Edge("e", OUT, MORE));
    EdgeAddedExactIff(Joined(), Edge("f", OUT, INTO));
  }
}
