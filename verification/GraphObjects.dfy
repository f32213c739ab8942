/** The mutable `Graph` class of packages/graph/src/graph.ts. */
module GraphObjects {
  import opened Wrappers
  import opened DataKinds
  import opened Graphs
  import opened Traversals

  // ----- removing a node, edge by edge ------------------------------------

  function Partners(edges: map<string, Edge>, ids: set<string>, sid: SocketId): set<SocketId> {
    (set i | i in ids && i in edges && edges[i].from == sid :: edges[i].to) +
    (set i | i in ids && i in edges && edges[i].to == sid :: edges[i].from)
  }

  ghost predicate SameFrame(n: Node, m: Node) {
    n.id == m.id && n.reducer == m.reducer && n.error == m.error &&
    n.inputs.Keys == m.inputs.Keys && n.outputs.Keys == m.outputs.Keys
  }

  ghost predicate DetachedAt(g0: GraphState, ids: set<string>, g: GraphState, sid: SocketId) {
    var s := GetSocket(g0.nodes, sid);
    GetSocket(g.nodes, sid) ==
      if s.None? then None
      else Some(s.value.(connections := Without(s.value.connections, Partners(g0.edges, ids, sid))))
  }

  /** `g` is `g0` after the edges `ids` have been removed one by one. */
  ghost predicate Detached(g0: GraphState, ids: set<string>, g: GraphState) {
    && g.edges == g0.edges - ids
    && g.nodes.Keys == g0.nodes.Keys
    && (forall n | n in g0.nodes :: SameFrame(g0.nodes[n], g.nodes[n]))
    && (forall sid: SocketId :: DetachedAt(g0, ids, g, sid))
  }

  lemma NothingDetached(g: GraphState)
    ensures Detached(g, {}, g)
  {
    forall sid: SocketId ensures DetachedAt(g, {}, g, sid) {
      WithoutNone(Connections(g.nodes, sid), Partners(g.edges, {}, sid));
    }
    assert g.edges == g.edges - {};
  }

  lemma OneMoreDetached(g0: GraphState, ids: set<string>, g: GraphState, id: string)
    requires Detached(g0, ids, g) && id in g.edges && g.edges[id].from != g.edges[id].to
    ensures Detached(g0, ids + {id}, EdgeRemoved(g, id))
  {
    var g' := EdgeRemoved(g, id);
    forall sid: SocketId ensures DetachedAt(g0, ids + {id}, g', sid) {
      OneMoreDetachedAt(g0, ids, g, id, sid);
    }
    EdgeRemovedFrames(g, id);
    assert g'.edges == g0.edges - (ids + {id});
  }

  lemma DisconnectFrames(nodes: Nodes, at: SocketId, other: SocketId)
    ensures Disconnect(nodes, at, other).Keys == nodes.Keys
    ensures forall n | n in nodes :: SameFrame(nodes[n], Disconnect(nodes, at, other)[n])
  {
  }

  lemma EdgeRemovedFrames(g: GraphState, id: string)
    ensures EdgeRemoved(g, id).nodes.Keys == g.nodes.Keys
    ensures forall n | n in g.nodes :: SameFrame(g.nodes[n], EdgeRemoved(g, id).nodes[n])
  {
    if id in g.edges {
      var e := g.edges[id];
      DisconnectFrames(g.nodes, e.from, e.to);
      DisconnectFrames(Disconnect(g.nodes, e.from, e.to), e.to, e.from);
    }
  }

  lemma OneMoreDetachedAt(g0: GraphState, ids: set<string>, g: GraphState, id: string, sid: SocketId)
    requires id in g.edges && id in g0.edges && g.edges[id] == g0.edges[id] && g.edges[id].from != g.edges[id].to
    requires DetachedAt(g0, ids, g, sid)
    ensures DetachedAt(g0, ids + {id}, EdgeRemoved(g, id), sid)
  {
    EdgeRemovedAt(g, id, sid);
    OneMorePartner(g0.edges, ids, id, sid);
    WithoutTwice(Connections(g0.nodes, sid), Partners(g0.edges, ids, sid), Partners(g0.edges, {id}, sid));
    WithoutNone(Connections(g.nodes, sid), {});
  }

  lemma OneMorePartner(edges: map<string, Edge>, ids: set<string>, id: string, sid: SocketId)
    requires id in edges && edges[id].from != edges[id].to
    ensures Partners(edges, ids + {id}, sid) == Partners(edges, ids, sid) + Partners(edges, {id}, sid)
    ensures Partners(edges, {id}, sid) ==
      if sid == edges[id].from then {edges[id].to} else if sid == edges[id].to then {edges[id].from} else {}
  {
    assert id in {id};
  }

  ghost predicate AllTouching(edges: map<string, Edge>, ids: set<string>, id: string) {
    forall i :: i in ids <==> i in edges && Touches(edges[i], id)
  }

  /** The edges `removeNode` collects: those with an existing socket on the node. */
  function TouchingIds(g: GraphState, id: string): set<string> {
    set i | i in g.edges && TouchesSocket(g, g.edges[i], id)
  }

  predicate TouchesSocket(g: GraphState, e: Edge, id: string) {
    (GetSocket(g.nodes, e.from).Some? && e.from.node == id) || (GetSocket(g.nodes, e.to).Some? && e.to.node == id)
  }

  /** No edge joins a socket to itself; `addEdge` never adds one. */
  ghost predicate NoLoops(g: GraphState) {
    forall i | i in g.edges :: g.edges[i].from != g.edges[i].to
  }

  /** Once every edge that touches the node is gone, dropping the node gives the specified graph. */
  lemma AllDetached(g0: GraphState, ids: set<string>, g: GraphState, id: string)
    requires EdgesFit(g0) && ConnectionsHaveEdges(g0) && Detached(g0, ids, g) && AllTouching(g0.edges, ids, id)
    ensures GraphState(g.nodes - {id}, g.edges) == NodeRemoved(g0, id)
  {
    DetachedNodes(g0, ids, g, id);
    DetachedEdges(g0, ids, g, id);
  }

  lemma LinkedTouching(g: GraphState, id: string)
    requires EdgesFit(g)
    ensures NoLoops(g) && AllTouching(g.edges, TouchingIds(g, id), id)
  {
    forall i | i in g.edges ensures TouchesSocket(g, g.edges[i], id) <==> Touches(g.edges[i], id) {
      assert EdgeFits(g.nodes, g.edges[i]);
    }
  }

  lemma DetachedEdges(g0: GraphState, ids: set<string>, g: GraphState, id: string)
    requires g.edges == g0.edges - ids && AllTouching(g0.edges, ids, id)
    ensures g.edges == NodeRemoved(g0, id).edges
  {
  }

  lemma DetachedNodes(g0: GraphState, ids: set<string>, g: GraphState, id: string)
    requires EdgesFit(g0) && ConnectionsHaveEdges(g0) && Detached(g0, ids, g) && AllTouching(g0.edges, ids, id)
    ensures g.nodes - {id} == NodeRemoved(g0, id).nodes
  {
    forall n | n in g0.nodes && n != id {
      DetachedNode(g0, ids, g, id, n);
    }
    SameMaps(g.nodes - {id}, NodeRemoved(g0, id).nodes);
  }

  lemma SameMaps(a: Nodes, b: Nodes)
    requires a.Keys == b.Keys && forall n | n in a :: a[n] == b[n]
    ensures a == b
  {
  }

  lemma DetachedNode(g0: GraphState, ids: set<string>, g: GraphState, id: string, n: string)
    requires EdgesFit(g0) && ConnectionsHaveEdges(g0) && Detached(g0, ids, g) && AllTouching(g0.edges, ids, id)
    requires n in g0.nodes && n != id
    ensures g.nodes[n] == NodeRemoved(g0, id).nodes[n]
  {
    assert SameFrame(g0.nodes[n], g.nodes[n]);
    DetachedInputs(g0, ids, g, id, n);
    DetachedOutputs(g0, ids, g, id, n);
  }

  lemma DetachedInputs(g0: GraphState, ids: set<string>, g: GraphState, id: string, n: string)
    requires EdgesFit(g0) && ConnectionsHaveEdges(g0) && Detached(g0, ids, g) && AllTouching(g0.edges, ids, id)
    requires n in g0.nodes && n != id
    ensures g.nodes[n].inputs == NodeRemoved(g0, id).nodes[n].inputs
  {
    var was, now := g.nodes[n].inputs, NodeRemoved(g0, id).nodes[n].inputs;
    assert SameFrame(g0.nodes[n], g.nodes[n]);
    forall name | name in g0.nodes[n].inputs ensures was[name] == now[name] {
      DetachedSocket(g0, ids, g, id, SocketId(n, Input, name));
    }
  }

  lemma DetachedOutputs(g0: GraphState, ids: set<string>, g: GraphState, id: string, n: string)
    requires EdgesFit(g0) && ConnectionsHaveEdges(g0) && Detached(g0, ids, g) && AllTouching(g0.edges, ids, id)
    requires n in g0.nodes && n != id
    ensures g.nodes[n].outputs == NodeRemoved(g0, id).nodes[n].outputs
  {
    var was, now := g.nodes[n].outputs, NodeRemoved(g0, id).nodes[n].outputs;
    assert SameFrame(g0.nodes[n], g.nodes[n]);
    forall name | name in g0.nodes[n].outputs ensures was[name] == now[name] {
      DetachedSocket(g0, ids, g, id, SocketId(n, Output, name));
    }
  }

  lemma DetachedSocket(g0: GraphState, ids: set<string>, g: GraphState, id: string, sid: SocketId)
    requires EdgesFit(g0) && ConnectionsHaveEdges(g0) && AllTouching(g0.edges, ids, id)
    requires DetachedAt(g0, ids, g, sid) && sid.node != id && GetSocket(g0.nodes, sid).Some?
    ensures GetSocket(g.nodes, sid) == GetSocket(NodeRemoved(g0, id).nodes, sid)
  {
    var conns := Connections(g0.nodes, sid);
    forall x | x in conns ensures x in Partners(g0.edges, ids, sid) <==> x in Toward(conns, id) {
      PartnersAreToward(g0, ids, id, sid, x);
    }
    WithoutSame(conns, Partners(g0.edges, ids, sid), Toward(conns, id));
  }

  lemma PartnersAreToward(g0: GraphState, ids: set<string>, id: string, sid: SocketId, x: SocketId)
    requires ConnectionsHaveEdges(g0) && AllTouching(g0.edges, ids, id)
    requires sid.node != id && x in Connections(g0.nodes, sid)
    ensures x in Partners(g0.edges, ids, sid) <==> x.node == id
  {
    assert HasEdge(g0.edges, sid, x);
    var i :| i in g0.edges && Joins(g0.edges[i], sid, x);
    if x.node == id {
      assert i in ids;
    }
  }

  function NodesAt(nodes: Nodes, conns: seq<SocketId>): set<string> {
    set sid | sid in conns && GetSocket(nodes, sid).Some? :: sid.node
  }

  lemma OneMoreSocket(nodes: Nodes, sockets: map<string, Socket>, rest: set<string>, name: string)
    requires rest <= sockets.Keys && name in rest
    ensures NeighboursOf(nodes, sockets - (rest - {name})) ==
      NeighboursOf(nodes, sockets - rest) + NodesAt(nodes, sockets[name].connections)
  {
    var a, b := sockets - rest, sockets - (rest - {name});
    forall x | x in NeighboursOf(nodes, b)
      ensures x in NeighboursOf(nodes, a) + NodesAt(nodes, sockets[name].connections)
    {
      var n, sid :| n in b && sid in b[n].connections && GetSocket(nodes, sid).Some? && x == sid.node;
      assert n != name ==> n in a;
    }
    forall x | x in NeighboursOf(nodes, a) ensures x in NeighboursOf(nodes, b) {
      var n, sid :| n in a && sid in a[n].connections && GetSocket(nodes, sid).Some? && x == sid.node;
      assert n in b;
    }
    forall x | x in NodesAt(nodes, sockets[name].connections) ensures x in NeighboursOf(nodes, b) {
      assert name in b;
    }
  }

  // ----- the depth-first sort ---------------------------------------------

  /** The local sets and list of `topologicalSort`, shared by its recursive closure. */
  class SortRun {
    const nodes: Nodes
    var sorted: seq<string>
    var visited: set<string>
    var visiting: set<string>
    ghost var stack: seq<string>  // the nodes being visited, outermost first

    ghost predicate Valid()
      reads this
    {
      && NoDuplicates(sorted) && NoDuplicates(stack)
      && (forall x :: x in visited <==> x in sorted)
      && (forall x :: x in visiting <==> x in stack)
      && visited !! visiting && visited <= nodes.Keys && visiting <= nodes.Keys
      && UpstreamWalk(nodes, stack)
      && FedFromBefore(nodes, sorted)
    }

    constructor (nodes: Nodes)
      ensures Valid() && this.nodes == nodes && sorted == [] && stack == []
    {
      this.nodes := nodes;
      sorted, visited, visiting, stack := [], {}, {}, [];
    }

    /** `ok` is false when the source throws. */
    method Visit(id: string) returns (ok: bool)
      requires Valid() && id in nodes
      requires stack != [] ==> id in Upstream(nodes, stack[|stack| - 1])
      modifies this
      ensures ok ==> Valid() && stack == old(stack) && visiting == old(visiting)
      ensures ok ==> id in visited && old(visited) <= visited
      ensures !ok ==> HasCycle(nodes)
      decreases nodes.Keys - visiting
    {
      if id in visited {
        return true;
      }
      if id in visiting {
        CycleOnStack(id);
        return false;
      }
      Pushed(stack, id);
      visiting := visiting + {id};
      stack := stack + [id];
      var todo := Upstream(nodes, id);
      UpstreamInGraph(nodes, id);
      while todo != {}
        invariant Valid() && stack == old(stack) + [id] && visiting == old(visiting) + {id}
        invariant todo <= Upstream(nodes, id) && old(visited) <= visited
        invariant Upstream(nodes, id) - todo <= visited
        decreases todo
      {
        var up :| up in todo;
        todo := todo - {up};
        var done := Visit(up);
        if !done {
          return false;
        }
      }
      Finished(stack, sorted, id);
      visiting := visiting - {id};
      stack := stack[..|stack| - 1];
      visited := visited + {id};
      sorted := sorted + [id];
      return true;
    }

    lemma Pushed(stack: seq<string>, id: string)
      requires NoDuplicates(stack) && UpstreamWalk(nodes, stack) && id !in stack
      requires stack != [] ==> id in Upstream(nodes, stack[|stack| - 1])
      ensures NoDuplicates(stack + [id]) && UpstreamWalk(nodes, stack + [id])
      ensures forall x :: x in stack + [id] <==> x in stack || x == id
    {
    }

    /** A node all of whose upstream nodes are sorted can be appended. */
    lemma Finished(stack: seq<string>, sorted: seq<string>, id: string)
      requires stack != [] && stack[|stack| - 1] == id && NoDuplicates(stack) && UpstreamWalk(nodes, stack)
      requires NoDuplicates(sorted) && id !in sorted && FedFromBefore(nodes, sorted)
      requires forall u | u in Upstream(nodes, id) :: u in sorted
      ensures NoDuplicates(sorted + [id]) && FedFromBefore(nodes, sorted + [id])
      ensures var rest := stack[..|stack| - 1];
        NoDuplicates(rest) && UpstreamWalk(nodes, rest) && (forall x :: x in rest <==> x in stack && x != id)
    {
      var s, rest := sorted + [id], stack[..|stack| - 1];
      forall i, u | 0 <= i < |s| && u in Upstream(nodes, s[i]) ensures u in s[..i] {
        assert s[..i] == sorted[..i];
        assert sorted[..|sorted|] == sorted;
      }
      forall x ensures x in rest <==> x in stack && x != id {
        assert stack == rest + [id];
      }
    }

    lemma CycleOnStack(id: string)
      requires Valid() && id in visiting && stack != [] && id in Upstream(nodes, stack[|stack| - 1])
      ensures HasCycle(nodes)
    {
      var k :| 0 <= k < |stack| && stack[k] == id;
      var p := stack[k..] + [id];
      assert UpstreamWalk(nodes, p);
      assert p[0] == p[|p| - 1];
    }
  }

  class Graph {
    var nodes: map<string, Node>
    var edges: map<string, Edge>

    ghost function State(): GraphState
      reads this
    {
      GraphState(nodes, edges)
    }

    constructor ()
      ensures State() == GraphState(map[], map[])
    {
      nodes, edges := map[], map[];
    }

    method AddNode(node: Node)
      modifies this
      ensures State() == NodeAdded(old(State()), node)
    {
      nodes := nodes[node.id := node];
    }

    /**
     * On any graph, exactly the connections of the touching edges go, from every socket, and then the
     * node; on a linked graph that is every connection toward it.
     */
    method RemoveNode(nodeId: string) returns (ghost last: GraphState)
      modifies this
      ensures nodeId !in nodes
      ensures old(NoLoops(State())) ==>
        Detached(old(State()), old(TouchingIds(State(), nodeId)), last)
          && State() == GraphState(last.nodes - {nodeId}, last.edges)
      ensures old(Linked(State())) ==> State() == NodeRemoved(old(State()), nodeId)
    {
      ghost var g0 := State();
      var toRemove: seq<string> := [];
      var rest := edges.Keys;
      while rest != {}
        invariant State() == g0 && rest <= edges.Keys
        invariant NoDuplicates(toRemove)
        invariant forall i :: i in toRemove <==> i in edges && i !in rest && TouchesSocket(g0, edges[i], nodeId)
        decreases rest
      {
        var edgeId :| edgeId in rest;
        assert edgeId !in toRemove;
        rest := rest - {edgeId};
        var edge := edges[edgeId];
        var from, to := Graphs.GetSocket(nodes, edge.from), Graphs.GetSocket(nodes, edge.to);
        if (from.Some? && edge.from.node == nodeId) || (to.Some? && edge.to.node == nodeId) {
          toRemove := toRemove + [edgeId];
        }
      }
      ghost var gone: set<string> := {};
      NothingDetached(g0);
      for k := 0 to |toRemove|
        invariant gone == set i | i in toRemove[..k]
        invariant NoLoops(g0) ==> Detached(g0, gone, State())
      {
        ghost var g := State();
        RemoveEdge(toRemove[k]);
        if NoLoops(g0) {
          assert toRemove[k] !in toRemove[..k];
          OneMoreDetached(g0, gone, g, toRemove[k]);
        }
        assert toRemove[..k + 1] == toRemove[..k] + [toRemove[k]];
        gone := gone + {toRemove[k]};
      }
      assert toRemove[..|toRemove|] == toRemove;
      last := State();
      assert gone == TouchingIds(g0, nodeId);
      if Linked(g0) {
        LinkedTouching(g0, nodeId);
        AllDetached(g0, gone, last, nodeId);
      }
      nodes := nodes - {nodeId};
    }

    method AddEdge(edge: Edge) returns (r: Result<(), GraphError>)
      modifies this
      ensures r.Success? <==> EdgeAdded(old(State()), edge).Success?
      ensures r.Success? ==> State() == EdgeAdded(old(State()), edge).value
      ensures r.Failure? ==> r.error == InvalidConnection && State() == old(State())
    {
      if !Graphs.CanConnect(nodes, edge.from, edge.to) {
        return Failure(InvalidConnection);
      }
      nodes := Connect(nodes, edge.from, edge.to);
      nodes := Connect(nodes, edge.to, edge.from);
      edges := edges[edge.id := edge];
      return Success(());
    }

    method RemoveEdge(edgeId: string)
      modifies this
      ensures State() == EdgeRemoved(old(State()), edgeId)
    {
      if edgeId !in edges {
        return;
      }
      var edge := edges[edgeId];
      nodes := Disconnect(nodes, edge.from, edge.to);
      nodes := Disconnect(nodes, edge.to, edge.from);
      edges := edges - {edgeId};
    }

    /** The nodes at the other end of a group of sockets, collected socket by socket. */
    method CollectNeighbours(sockets: map<string, Socket>) returns (result: set<string>)
      ensures result == NeighboursOf(nodes, sockets)
    {
      result := {};
      var rest := sockets.Keys;
      while rest != {}
        invariant rest <= sockets.Keys && result == NeighboursOf(nodes, sockets - rest)
        decreases rest
      {
        var name :| name in rest;
        ghost var before := result;
        var conns := sockets[name].connections;
        for k := 0 to |conns|
          invariant result == before + NodesAt(nodes, conns[..k])
        {
          assert conns[..k + 1] == conns[..k] + [conns[k]];
          if Graphs.GetSocket(nodes, conns[k]).Some? {
            result := result + {conns[k].node};
          }
        }
        assert conns[..|conns|] == conns;
        OneMoreSocket(nodes, sockets, rest, name);
        rest := rest - {name};
      }
      assert sockets - {} == sockets;
    }

    method GetDownstream(nodeId: string) returns (result: set<string>)
      ensures result == Downstream(nodes, nodeId)
    {
      if nodeId !in nodes {
        return {};
      }
      result := CollectNeighbours(nodes[nodeId].outputs);
    }

    method GetUpstream(nodeId: string) returns (result: set<string>)
      ensures result == Upstream(nodes, nodeId)
    {
      if nodeId !in nodes {
        return {};
      }
      result := CollectNeighbours(nodes[nodeId].inputs);
    }

    /** Sorts exactly the acyclic graphs, and throws on every other. */
    method TopologicalSort() returns (r: Result<seq<string>, GraphError>)
      ensures r.Success? ==> TopoOrder(nodes, r.value)
      ensures r.Success? <==> !HasCycle(nodes)
      ensures r.Failure? ==> r.error == Cycle
    {
      var run := new SortRun(nodes);
      var rest := nodes.Keys;
      while rest != {}
        invariant run.Valid() && run.nodes == nodes && run.stack == [] && fresh(run)
        invariant rest <= nodes.Keys && nodes.Keys - rest <= run.visited
        decreases rest
      {
        var nodeId :| nodeId in rest;
        rest := rest - {nodeId};
        var ok := run.Visit(nodeId);
        if !ok {
          return Failure(Cycle);
        }
      }
      OrderedIsAcyclic(nodes, run.sorted);
      return Success(run.sorted);
    }
  }
}
