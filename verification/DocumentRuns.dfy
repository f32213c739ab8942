/**
 * Validating, materialising, running and planning documents step by step
 * (packages/graph/src/document.ts:228-511).
 */
module DocumentRuns {
  import opened Wrappers
  import opened DataKinds
  import opened Graphs
  import opened Traversals
  import opened GraphObjects
  import opened Executions
  import opened Engines
  import opened Documents
  import opened Validations

  // ----- what running a document means ------------------------------------

  /** The graph is acyclic and its reducers have a common solution. */
  ghost predicate RunsClean(rt: Runtime, nodes: Nodes) {
    !HasCycle(nodes) && Solvable(rt.host, nodes)
  }

  ghost predicate DocumentOk(rt: Runtime, d: Document) {
    NoIssues(rt, d) && Materialized(rt, d).Success? && RunsClean(rt, Materialized(rt, d).value.nodes)
  }

  /** The document a batch leads to, or `None` when its plan is not valid. */
  ghost function Planned(rt: Runtime, d: Document, cs: seq<Command>): Option<Document> {
    var next := ReducedAll(d, cs);
    if next.Failure? then None
    else if (exists c :: c in cs && AffectsComputation(c)) && !DocumentOk(rt, next.value) then None
    else Some(next.value)
  }

  /** Whether a document is acceptable does not depend on layout, labels, title or revision. */
  lemma LayoutKeepsOk(rt: Runtime, a: Document, b: Document)
    requires ComputationKey(a) == ComputationKey(b) && a.edges == b.edges
    ensures DocumentOk(rt, a) <==> DocumentOk(rt, b)
  {
    KeyIsSound(rt, a, b);
    SameKeySameIssues(rt, a, b);
  }

  // ----- every materialised graph can be executed -------------------------

  /** Connections are symmetric and join the two directions. */
  ghost predicate Symmetric(nodes: Nodes) {
    forall a: SocketId, b: SocketId {:trigger Linkage(nodes, a, b)} :: b in Connections(nodes, a) ==>
      Linkage(nodes, a, b)
  }

  ghost predicate Linkage(nodes: Nodes, a: SocketId, b: SocketId) {
    GetSocket(nodes, b).Some? && a in Connections(nodes, b) && a.direction != b.direction
  }

  lemma SymmetricIsMirrored(nodes: Nodes)
    requires Symmetric(nodes)
    ensures Mirrored(nodes)
  {
    forall u, d ensures d in Downstream(nodes, u) <==> u in Upstream(nodes, d) {
      if d in Downstream(nodes, u) {
        var name, sid :| name in nodes[u].outputs && sid in nodes[u].outputs[name].connections
          && GetSocket(nodes, sid).Some? && sid.node == d;
        var at := SocketId(u, Output, name);
        assert sid in Connections(nodes, at);
        assert Linkage(nodes, at, sid);
        assert at in nodes[d].inputs[sid.name].connections;
      }
      if u in Upstream(nodes, d) {
        var name, sid :| name in nodes[d].inputs && sid in nodes[d].inputs[name].connections
          && GetSocket(nodes, sid).Some? && sid.node == u;
        var at := SocketId(d, Input, name);
        assert sid in Connections(nodes, at);
        assert Linkage(nodes, at, sid);
        assert at in nodes[u].outputs[sid.name].connections;
      }
    }
  }

  lemma EdgeAddedSymmetric(g: GraphState, e: Edge)
    requires Symmetric(g.nodes) && CanConnect(g.nodes, e.from, e.to)
    ensures Symmetric(EdgeAdded(g, e).value.nodes)
  {
    var g' := EdgeAdded(g, e).value;
    forall a: SocketId, b: SocketId | b in Connections(g'.nodes, a) ensures Linkage(g'.nodes, a, b) {
      EdgeAddedAt(g, e, a);
      EdgeAddedAt(g, e, b);
      if b in Connections(g.nodes, a) {
        assert Linkage(g.nodes, a, b);
      }
    }
  }

  lemma EdgeAddedFrames(g: GraphState, e: Edge)
    requires CanConnect(g.nodes, e.from, e.to)
    ensures var g' := EdgeAdded(g, e).value;
      g'.nodes.Keys == g.nodes.Keys && forall n | n in g.nodes :: SameFrame(g.nodes[n], g'.nodes[n])
  {
    assert forall n | n in g.nodes :: SameFrame(g.nodes[n], Connect(g.nodes, e.from, e.to)[n]);
  }

  ghost predicate SameFrames(a: Nodes, b: Nodes) {
    a.Keys == b.Keys && forall n | n in a :: SameFrame(a[n], b[n])
  }

  lemma {:induction false} EdgesKeepRunnable(g: GraphState, es: seq<EdgeDoc>)
    requires Symmetric(g.nodes) && BuiltEdges(g, es).Success?
    ensures Symmetric(BuiltEdges(g, es).value.nodes) && SameFrames(g.nodes, BuiltEdges(g, es).value.nodes)
    decreases |es|
  {
    if es != [] {
      var g' := BuiltEdge(g, es[0]).value;
      EdgeAddedSymmetric(g, EdgeFor(es[0]));
      EdgeAddedFrames(g, EdgeFor(es[0]));
      EdgesKeepRunnable(g', es[1..]);
      var end := BuiltEdges(g', es[1..]).value;
      forall n | n in g.nodes ensures SameFrame(g.nodes[n], end.nodes[n]) {
        assert SameFrame(g.nodes[n], g'.nodes[n]) && SameFrame(g'.nodes[n], end.nodes[n]);
      }
    }
  }

  lemma MaterializedIsMirrored(rt: Runtime, d: Document)
    requires Materialized(rt, d).Success?
    ensures Mirrored(Materialized(rt, d).value.nodes)
    ensures BuiltNodes(rt, d.nodes).Success?
    ensures SameFrames(BuiltNodes(rt, d.nodes).value, Materialized(rt, d).value.nodes)
  {
    BuiltNodesUnconnected(rt, d.nodes);
    var g0 := GraphState(BuiltNodes(rt, d.nodes).value, map[]);
    assert Symmetric(g0.nodes) by {
      forall a: SocketId, b: SocketId ensures b !in Connections(g0.nodes, a) {
        assert Connections(g0.nodes, a) == [];
      }
    }
    EdgesKeepRunnable(g0, OrderedEdges(d.edges));
    SymmetricIsMirrored(Materialized(rt, d).value.nodes);
  }

  lemma BuiltNodeCovers(rt: Runtime, n: NodeDoc)
    requires BuiltNode(rt, n).Success? && RegistryOk(rt)
    ensures CoversOutputs(BuiltNode(rt, n).value)
  {
    var node := BuiltNode(rt, n).value;
    BuiltNodeShape(rt, n);
    assert ReducerOk(node.reducer);
    forall inputs, name | node.reducer.run(inputs).Success? && name in node.outputs
      ensures name in node.reducer.run(inputs).value
    {
      CreatedSockets(node.reducer.outputs, name);
      var i :| 0 <= i < |node.reducer.outputs| && node.reducer.outputs[i].name == name;
    }
  }

  lemma MaterializedIsTotal(rt: Runtime, d: Document)
    requires Materialized(rt, d).Success? && RegistryOk(rt)
    ensures Total(Materialized(rt, d).value.nodes)
  {
    MaterializedIsMirrored(rt, d);
    BuiltNodesShape(rt, d.nodes);
    var before, nodes := BuiltNodes(rt, d.nodes).value, Materialized(rt, d).value.nodes;
    forall id | id in nodes ensures CoversOutputs(nodes[id]) {
      assert SameFrame(before[id], nodes[id]);
      assert BuiltFrom(rt, d.nodes, id, before[id]);
      var i :| 0 <= i < |d.nodes| && d.nodes[i].id == id && BuiltNode(rt, d.nodes[i]) == Success(before[id]);
      BuiltNodeCovers(rt, d.nodes[i]);
    }
  }

  // ----- materializeGraph -------------------------------------------------

  lemma DefaultsOneMore(h: Host, inputs: map<string, Socket>, values: map<string, Value>, name: string, v: Value)
    requires name !in values && WithDefaults(h, inputs, values).Some?
    ensures var more := WithDefaults(h, inputs, values[name := v]);
      if name !in inputs then more == WithDefaults(h, inputs, values)
      else
        var n := NormalizeSocketValue(h, inputs[name].def, v, InferKind(v));
        && (n.Failure? ==> more.None?)
        && (n.Success? ==> more == Some(WithDefaults(h, inputs, values).value[name :=
             inputs[name].(def := inputs[name].def.(defaultValue := Some(n.value)))]))
  {
    var all := values[name := v];
    var more := WithDefaults(h, inputs, all);
    if name in inputs && NormalizeSocketValue(h, inputs[name].def, v, InferKind(v)).Failure? {
      assert name in all && name in inputs;
    } else {
      assert forall x | x in all && x in inputs && x != name :: x in values && all[x] == values[x];
      assert more.Some?;
      if name in inputs {
        var n := NormalizeSocketValue(h, inputs[name].def, v, InferKind(v));
        assert more.value == WithDefaults(h, inputs, values).value[name :=
          inputs[name].(def := inputs[name].def.(defaultValue := Some(n.value)))];
      } else {
        assert more.value == WithDefaults(h, inputs, values).value;
      }
    }
  }

  lemma NoDefaults(h: Host, inputs: map<string, Socket>)
    ensures WithDefaults(h, inputs, map[]) == Some(inputs)
  {
    assert WithDefaults(h, inputs, map[]).value == inputs;
  }

  method ApplyDefaults(h: Host, inputs: map<string, Socket>, values: map<string, Value>)
    returns (r: Option<map<string, Socket>>)
    ensures r == WithDefaults(h, inputs, values)
  {
    var current := inputs;
    var names := values.Keys;
    assert values - names == map[];
    NoDefaults(h, inputs);
    while names != {}
      invariant names <= values.Keys && WithDefaults(h, inputs, values - names) == Some(current)
      decreases names
    {
      var name :| name in names;
      assert values - (names - {name}) == (values - names)[name := values[name]];
      DefaultsOneMore(h, inputs, values - names, name, values[name]);
      if name in inputs {
        var value := NormalizeSocketValue(h, inputs[name].def, values[name], InferKind(values[name]));
        if value.Failure? {
          return None;
        }
        current := current[name := inputs[name].(def := inputs[name].def.(defaultValue := Some(value.value)))];
      }
      names := names - {name};
    }
    assert values - {} == values;
    return Some(current);
  }

  method MaterializeNode(rt: Runtime, n: NodeDoc) returns (r: Result<Node, GraphError>)
    ensures r == BuiltNode(rt, n)
  {
    if ':' in n.id {
      return Failure(InvalidId);
    }
    var reducer := Lookup(rt.registry, n.reducerId);
    if reducer.None? {
      return Failure(UnknownReducer);
    }
    var node := CreateNode(n.id, reducer.value);
    var inputs := ApplyDefaults(rt.host, node.inputs, n.inputValues);
    if inputs.None? {
      return Failure(DefaultFault);
    }
    return Success(node.(inputs := inputs.value));
  }

  method MaterializeNodes(rt: Runtime, d: Document, graph: Graph) returns (r: Result<(), GraphError>)
    requires graph.State() == GraphState(map[], map[])
    modifies graph
    ensures r.Success? <==> BuiltNodes(rt, d.nodes).Success?
    ensures r.Success? ==> graph.State() == GraphState(BuiltNodes(rt, d.nodes).value, map[])
  {
    assert d.nodes[..0] == [];
    for k := 0 to |d.nodes|
      invariant graph.edges == map[] && BuiltNodes(rt, d.nodes[..k]) == Success(graph.nodes)
    {
      assert d.nodes[..k + 1][..k] == d.nodes[..k];
      BuiltNodesFailEarly(rt, d.nodes, k + 1);
      var node := MaterializeNode(rt, d.nodes[k]);
      if node.Failure? {
        return Failure(node.error);
      }
      graph.AddNode(node.value);
    }
    assert d.nodes[..|d.nodes|] == d.nodes;
    return Success(());
  }

  method MaterializeEdges(edges: seq<EdgeDoc>, graph: Graph) returns (r: Result<(), GraphError>)
    modifies graph
    ensures r.Success? <==> BuiltEdges(old(graph.State()), edges).Success?
    ensures r.Success? ==> graph.State() == BuiltEdges(old(graph.State()), edges).value
  {
    assert edges[0..] == edges;
    for k := 0 to |edges|
      invariant BuiltEdges(graph.State(), edges[k..]) == BuiltEdges(old(graph.State()), edges)
    {
      assert edges[k..][0] == edges[k] && edges[k..][1..] == edges[k + 1..];
      if ':' in edges[k].sourceSocket || ':' in edges[k].targetSocket {
        return Failure(InvalidId);
      }
      var added := graph.AddEdge(EdgeFor(edges[k]));
      if added.Failure? {
        return Failure(added.error);
      }
    }
    return Success(());
  }

  method MaterializeGraph(rt: Runtime, d: Document) returns (r: Result<Graph, GraphError>)
    ensures r.Success? <==> Materialized(rt, d).Success?
    ensures r.Success? ==> fresh(r.value) && r.value.State() == Materialized(rt, d).value
  {
    var graph := new Graph();
    var nodes := MaterializeNodes(rt, d, graph);
    if nodes.Failure? {
      return Failure(nodes.error);
    }
    var edges := MaterializeEdges(OrderedEdges(d.edges), graph);
    if edges.Failure? {
      return Failure(edges.error);
    }
    return Success(graph);
  }

  lemma {:induction false} BuiltNodesFailEarly(rt: Runtime, ns: seq<NodeDoc>, k: nat)
    requires k <= |ns|
    ensures BuiltNodes(rt, ns[..k]).Failure? ==> BuiltNodes(rt, ns).Failure?
    decreases |ns|
  {
    if k < |ns| {
      assert ns[..|ns| - 1][..k] == ns[..k];
      BuiltNodesFailEarly(rt, ns[..|ns| - 1], k);
    } else {
      assert ns[..k] == ns;
    }
  }

  // ----- runGraphDocument -------------------------------------------------

  datatype Run = Run(outputs: map<string, map<string, Value>>, errors: map<string, GraphError>)

  /** An output that was never set is reported as null. */
  function Reported(outputs: map<string, Socket>): map<string, Value> {
    map name | name in outputs :: if outputs[name].value.Some? then outputs[name].value.value else Null
  }

  function ReportedAll(nodes: Nodes): map<string, map<string, Value>> {
    map id | id in nodes :: Reported(nodes[id].outputs)
  }

  lemma EqualOutputsReport(a: Nodes, b: Nodes)
    requires OutputsEqual(a, b)
    ensures ReportedAll(a) == ReportedAll(b)
  {
  }

  ghost predicate ReportsSolution(rt: Runtime, nodes: Nodes, outputs: map<string, map<string, Value>>) {
    forall sol: Nodes | Solves(rt.host, nodes, sol) :: outputs == ReportedAll(sol)
  }

  /** Documents with equal computation keys report the same outputs, so the key is sound for caching runs. */
  lemma SameKeySameOutputs(rt: Runtime, a: Document, b: Document, outputs: map<string, map<string, Value>>,
      outputs': map<string, map<string, Value>>)
    requires ComputationKey(a) == ComputationKey(b) && Materialized(rt, a).Success? && Materialized(rt, b).Success?
    requires RunsClean(rt, Materialized(rt, a).value.nodes)
    requires ReportsSolution(rt, Materialized(rt, a).value.nodes, outputs)
    requires ReportsSolution(rt, Materialized(rt, b).value.nodes, outputs')
    ensures RunsClean(rt, Materialized(rt, b).value.nodes) && outputs == outputs'
  {
    KeyIsSound(rt, a, b);
    var nodes := Materialized(rt, a).value.nodes;
    var sol: Nodes :| Solves(rt.host, nodes, sol);
    assert outputs == ReportedAll(sol) && outputs' == ReportedAll(sol);
  }

  lemma FreshRun(rt: Runtime, nodes: Nodes, dirty: set<string>, order: seq<string>)
    requires Mirrored(nodes) && Total(nodes) && TopoOrder(nodes, order) && nodes.Keys <= dirty
    ensures var r := Executed(rt.host, nodes, dirty, DirtyPart(order, dirty));
      (r.ok <==> RunsClean(rt, nodes)) && (r.ok ==> ReportsSolution(rt, nodes, ReportedAll(r.nodes)))
  {
    OrderedIsAcyclic(nodes, order);
    AllDirtyIsUpToDate(rt.host, nodes, dirty);
    ExecuteIffSolvable(rt.host, nodes, dirty, order);
    var r := Executed(rt.host, nodes, dirty, DirtyPart(order, dirty));
    if r.ok {
      forall sol: Nodes | Solves(rt.host, nodes, sol) ensures ReportedAll(r.nodes) == ReportedAll(sol) {
        EqualOutputsReport(r.nodes, sol);
      }
    }
  }

  function ErrorsOf(nodes: Nodes): map<string, GraphError> {
    map id | id in nodes && nodes[id].error.Some? :: nodes[id].error.value
  }

  /** A fresh execution: every node dirty, in the given order; a cycle stops it before the first node. */
  ghost function FreshEnd(rt: Runtime, nodes: Nodes, order: seq<string>): EngineState {
    if HasCycle(nodes) then EngineState(false, nodes, nodes.Keys)
    else Executed(rt.host, nodes, nodes.Keys, DirtyPart(order, nodes.Keys))
  }

  /**
   * The report of a fresh execution: the values of all outputs, and on failure the errors recorded on
   * nodes, or one error for the graph when no node has any.
   */
  ghost predicate IsRun(rt: Runtime, nodes: Nodes, order: seq<string>, run: Run) {
    var end := FreshEnd(rt, nodes, order);
    && (!HasCycle(nodes) ==> TopoOrder(nodes, order))
    && run.outputs == ReportedAll(end.nodes)
    && (if end.ok then run.errors == map[]
        else if ErrorsOf(end.nodes) != map[] then run.errors == ErrorsOf(end.nodes)
        else run.errors.Keys == {"graph"})
  }

  /** Marks every node and executes. */
  method ExecuteFresh(rt: Runtime, graph: Graph) returns (r: Result<(), GraphError>, ghost order: seq<string>)
    modifies graph
    ensures !HasCycle(old(graph.nodes)) ==> TopoOrder(old(graph.nodes), order)
    ensures r.Success? == FreshEnd(rt, old(graph.nodes), order).ok
      && graph.nodes == FreshEnd(rt, old(graph.nodes), order).nodes
  {
    ghost var nodes := graph.nodes;
    var engine := new ExecutionEngine(graph, rt.host);
    var all := ToSeq(graph.nodes.Keys);
    engine.MarkDirty(all);
    assert engine.dirty == nodes.Keys;
    r, order := engine.Execute();
  }

  lemma FreshEndRuns(rt: Runtime, nodes: Nodes, order: seq<string>)
    requires Mirrored(nodes) && Total(nodes) && (!HasCycle(nodes) ==> TopoOrder(nodes, order))
    ensures FreshEnd(rt, nodes, order).ok <==> RunsClean(rt, nodes)
    ensures FreshEnd(rt, nodes, order).ok ==> ReportsSolution(rt, nodes, ReportedAll(FreshEnd(rt, nodes, order).nodes))
  {
    if !HasCycle(nodes) {
      FreshRun(rt, nodes, nodes.Keys, order);
    }
  }

  method RunGraphDocument(rt: Runtime, d: Document) returns (r: Result<Run, GraphError>, ghost order: seq<string>)
    ensures r.Success? <==> Materialized(rt, d).Success?
    ensures r.Success? ==> IsRun(rt, Materialized(rt, d).value.nodes, order, r.value)
    ensures r.Success? && RegistryOk(rt) ==>
      && (r.value.errors == map[] <==> RunsClean(rt, Materialized(rt, d).value.nodes))
      && (r.value.errors == map[] ==> ReportsSolution(rt, Materialized(rt, d).value.nodes, r.value.outputs))
  {
    order := [];
    var materialized := MaterializeGraph(rt, d);
    if materialized.Failure? {
      return Failure(materialized.error), order;
    }
    var graph := materialized.value;
    ghost var nodes := graph.nodes;
    var executed;
    executed, order := ExecuteFresh(rt, graph);
    var errors: map<string, GraphError> := map[];
    if executed.Failure? {
      errors := ErrorsOf(graph.nodes);
      if errors == map[] {
        errors := map["graph" := executed.error];
        assert "graph" in errors;
      }
    }
    if RegistryOk(rt) {
      MaterializedIsMirrored(rt, d);
      MaterializedIsTotal(rt, d);
      FreshEndRuns(rt, nodes, order);
    }
    return Success(Run(ReportedAll(graph.nodes), errors)), order;
  }

  /**
   * Documents with equal computation keys have the same runs, clean or not: the same outputs, the same
   * nodes with errors and the same errors, whatever order the sort makes of the nodes as they were added.
   */
  lemma SameKeySameRun(rt: Runtime, a: Document, b: Document, sort: (seq<string>, Nodes) -> seq<string>,
                       run: Run, run': Run)
    requires ComputationKey(a) == ComputationKey(b) && Materialized(rt, a).Success? && Materialized(rt, b).Success?
    requires var nodes := Materialized(rt, a).value.nodes; IsRun(rt, nodes, sort(NodeIds(a.nodes), nodes), run)
    requires var nodes := Materialized(rt, b).value.nodes; IsRun(rt, nodes, sort(NodeIds(b.nodes), nodes), run')
    ensures run.outputs == run'.outputs && run.errors.Keys == run'.errors.Keys
    ensures var nodes := Materialized(rt, a).value.nodes;
      ErrorsOf(FreshEnd(rt, nodes, sort(NodeIds(a.nodes), nodes)).nodes) != map[] ==> run == run'
  {
    KeyIsSound(rt, a, b);
    SameKeySameIds(a, b);
  }

  /** Equal keys list the same nodes in the same order. */
  lemma SameKeySameIds(a: Document, b: Document)
    requires ComputationKey(a) == ComputationKey(b)
    ensures NodeIds(a.nodes) == NodeIds(b.nodes)
  {
    forall i | 0 <= i < |a.nodes| ensures i < |b.nodes| && a.nodes[i].id == b.nodes[i].id {
      assert ComputationKey(a).nodes[i] == ComputationKey(b).nodes[i];
    }
  }

  method ToSeq(s: set<string>) returns (r: seq<string>)
    ensures forall x :: x in r <==> x in s
  {
    r := [];
    var rest := s;
    while rest != {}
      invariant rest <= s && forall x :: x in r <==> x in s && x !in rest
      decreases rest
    {
      var x :| x in rest;
      rest := rest - {x};
      r := r + [x];
    }
  }

  // ----- validateGraphDocument --------------------------------------------

  method CollectDuplicateIds(ids: seq<string>) returns (duplicates: set<string>)
    ensures forall id :: id in duplicates <==> Repeated(ids, id)
  {
    var seen: set<string> := {};
    duplicates := {};
    for k := 0 to |ids|
      invariant forall id :: id in seen <==> id in ids[..k]
      invariant forall id :: id in duplicates <==> Repeated(ids[..k], id)
    {
      RepeatedOneMore(ids, k);
      if ids[k] in seen {
        duplicates := duplicates + {ids[k]};
      }
      seen := seen + {ids[k]};
      assert ids[..k + 1] == ids[..k] + [ids[k]];
    }
    assert ids[..|ids|] == ids;
  }

  lemma RepeatedOneMore(ids: seq<string>, k: nat)
    requires k < |ids|
    ensures forall id :: Repeated(ids[..k + 1], id) <==> Repeated(ids[..k], id) || (id == ids[k] && id in ids[..k])
  {
    var a, b := ids[..k], ids[..k + 1];
    forall id ensures Repeated(b, id) <==> Repeated(a, id) || (id == ids[k] && id in a) {
      if Repeated(b, id) {
        var i, j :| 0 <= i < j < |b| && b[i] == id && b[j] == id;
        assert a[i] == id;
        if j < k { assert a[j] == id; }
      }
      if Repeated(a, id) {
        var i, j :| 0 <= i < j < |a| && a[i] == id && a[j] == id;
        assert b[i] == id && b[j] == id;
      }
      if id == ids[k] && id in a {
        var i :| 0 <= i < |a| && a[i] == id;
        assert b[i] == id && b[k] == id;
      }
    }
  }

  method ReportIds(d: Document) returns (issues: seq<Issue>)
    ensures forall x :: x in issues <==>
      || (x.DuplicateNode? && Repeated(NodeIds(d.nodes), x.id))
      || (x.DuplicateEdge? && Repeated(EdgeIds(d.edges), x.id))
      || (x.InvalidNodeId? && ':' in x.id && HasNode(d.nodes, x.id))
  {
    issues := [];
    var nodes := CollectDuplicateIds(NodeIds(d.nodes));
    var edges := CollectDuplicateIds(EdgeIds(d.edges));
    var rest := nodes;
    while rest != {}
      invariant rest <= nodes && forall x :: x in issues <==> x.DuplicateNode? && x.id in nodes && x.id !in rest
      decreases rest
    {
      var id :| id in rest;
      rest := rest - {id};
      issues := issues + [DuplicateNode(id)];
    }
    rest := edges;
    while rest != {}
      invariant rest <= edges
      invariant forall x :: x in issues <==>
        (x.DuplicateNode? && x.id in nodes) || (x.DuplicateEdge? && x.id in edges && x.id !in rest)
      decreases rest
    {
      var id :| id in rest;
      rest := rest - {id};
      issues := issues + [DuplicateEdge(id)];
    }
    for k := 0 to |d.nodes|
      invariant forall x :: x in issues <==>
        || (x.DuplicateNode? && x.id in nodes)
        || (x.DuplicateEdge? && x.id in edges)
        || (x.InvalidNodeId? && ':' in x.id && HasNode(d.nodes[..k], x.id))
    {
      HasNodeOneMore(d.nodes, k);
      if ':' in d.nodes[k].id {
        issues := issues + [InvalidNodeId(d.nodes[k].id)];
      }
    }
    assert d.nodes[..|d.nodes|] == d.nodes;
  }

  lemma HasNodeOneMore(ns: seq<NodeDoc>, k: nat)
    requires k < |ns|
    ensures forall id :: HasNode(ns[..k + 1], id) <==> HasNode(ns[..k], id) || id == ns[k].id
  {
    forall id ensures HasNode(ns[..k + 1], id) <==> HasNode(ns[..k], id) || id == ns[k].id {
      if HasNode(ns[..k], id) {
        var i :| 0 <= i < k && ns[..k][i].id == id;
        assert ns[..k + 1][i].id == id;
      }
      if id == ns[k].id {
        assert ns[..k + 1][k].id == id;
      }
      if HasNode(ns[..k + 1], id) && id != ns[k].id {
        var i :| 0 <= i < k + 1 && ns[..k + 1][i].id == id;
        assert ns[..k][i].id == id;
      }
    }
  }

  /** `reducers.get(id)` with the map filled by the caller. */
  ghost predicate ReducersOf(rt: Runtime, ns: seq<NodeDoc>, reducers: map<string, Option<Reducer>>) {
    forall id :: LastReducer(rt, ns, id) == (if id in reducers then reducers[id] else None)
  }

  method CollectReducers(rt: Runtime, ns: seq<NodeDoc>) returns (reducers: map<string, Option<Reducer>>)
    ensures ReducersOf(rt, ns, reducers)
  {
    reducers := map[];
    for k := 0 to |ns|
      invariant ReducersOf(rt, ns[..k], reducers)
    {
      assert ns[..k + 1][..k] == ns[..k];
      reducers := reducers[ns[k].id := Lookup(rt.registry, ns[k].reducerId)];
    }
    assert ns[..|ns|] == ns;
  }

  method ReportNodes(rt: Runtime, d: Document, reducers: map<string, Option<Reducer>>) returns (issues: seq<Issue>)
    requires ReducersOf(rt, d.nodes, reducers)
    ensures forall x :: x in issues <==> exists i | 0 <= i < |d.nodes| :: x in NodeIssues(rt, d, d.nodes[i])
  {
    issues := [];
    for k := 0 to |d.nodes|
      invariant forall x :: x in issues <==> exists i | 0 <= i < k :: x in NodeIssues(rt, d, d.nodes[i])
    {
      var found := ReportNode(rt, d, reducers, d.nodes[k]);
      ghost var before := issues;
      issues := issues + found;
      forall x ensures x in issues <==> exists i | 0 <= i < k + 1 :: x in NodeIssues(rt, d, d.nodes[i]) {
        if x in found {
          assert x in NodeIssues(rt, d, d.nodes[k]);
        }
      }
    }
  }

  method ReportNode(rt: Runtime, d: Document, reducers: map<string, Option<Reducer>>, node: NodeDoc)
      returns (issues: seq<Issue>)
    requires ReducersOf(rt, d.nodes, reducers)
    ensures forall x :: x in issues <==> x in NodeIssues(rt, d, node)
  {
    assert LastReducer(rt, d.nodes, node.id) == (if node.id in reducers then reducers[node.id] else None);
    if node.id !in reducers || reducers[node.id].None? {
      return [Unregistered(node.id)];
    }
    var reducer := reducers[node.id].value;
    issues := [];
    var names := node.inputValues.Keys;
    while names != {}
      invariant names <= node.inputValues.Keys
      invariant forall x :: x in issues <==>
        exists name | name in node.inputValues && name !in names ::
          x in InputIssue(reducer, node.id, name, node.inputValues[name])
      decreases names
    {
      var name :| name in names;
      names := names - {name};
      var input := FindDef(reducer.inputs, name);
      if input.None? {
        issues := issues + [UnknownInput(node.id, name)];
      } else {
        var kind := InferKind(node.inputValues[name]);
        if !SocketAcceptsKind(input.value, kind) {
          issues := issues + [InputMismatch(node.id, name)];
        }
      }
    }
  }

  method ReportEdges(rt: Runtime, d: Document, reducers: map<string, Option<Reducer>>) returns (issues: seq<Issue>)
    requires ReducersOf(rt, d.nodes, reducers)
    ensures forall x :: x in issues <==> exists i | 0 <= i < |d.edges| :: x in EdgeIssues(rt, d, i)
  {
    issues := [];
    var occupied: set<string> := {};
    for k := 0 to |d.edges|
      invariant forall x :: x in issues <==> exists i | 0 <= i < k :: x in EdgeIssues(rt, d, i)
      invariant forall key :: key in occupied <==> exists j | 0 <= j < k ::
        Settles(rt, d, d.edges[j]) && TargetKey(d.edges[j]) == key
    {
      var e := d.edges[k];
      var found: seq<Issue> := [];
      if ':' in e.sourceSocket || ':' in e.targetSocket {
        found := [InvalidSocketName(e.id)];
      } else {
        var ends := FindEnds(rt, d, reducers, e);
        if ends.None? {
          found := [MissingSocket(e.id)];
        } else {
          if !SocketAcceptsKind(ends.value.target, ends.value.source.kind) {
            found := found + [EdgeMismatch(e.id)];
          }
          if !ends.value.target.multiple && TargetKey(e) in occupied {
            found := found + [InputOccupied(e.id)];
          }
          occupied := occupied + {TargetKey(e)};
          assert Settles(rt, d, d.edges[k]);
        }
      }
      assert forall x :: x in found <==> x in EdgeIssues(rt, d, k);
      issues := issues + found;
    }
  }

  method FindEnds(rt: Runtime, d: Document, reducers: map<string, Option<Reducer>>, e: EdgeDoc)
      returns (ends: Option<Ends>)
    requires ReducersOf(rt, d.nodes, reducers)
    ensures ends == EndsOf(rt, d, e)
  {
    var source := if e.sourceNode in reducers then reducers[e.sourceNode] else None;
    var target := if e.targetNode in reducers then reducers[e.targetNode] else None;
    assert source == LastReducer(rt, d.nodes, e.sourceNode) && target == LastReducer(rt, d.nodes, e.targetNode);
    if source.None? || target.None? {
      return None;
    }
    var s, t := FindDef(source.value.outputs, e.sourceSocket), FindDef(target.value.inputs, e.targetSocket);
    if s.None? || t.None? {
      return None;
    }
    return Some(Ends(s.value, t.value));
  }

  /** Reports every issue and nothing else. */
  method ValidateGraphDocument(rt: Runtime, d: Document) returns (issues: seq<Issue>)
    ensures forall x :: x in issues <==> IsIssue(rt, d, x)
    ensures issues == [] <==> NoIssues(rt, d)
  {
    var ids := ReportIds(d);
    var reducers := CollectReducers(rt, d.nodes);
    var nodes := ReportNodes(rt, d, reducers);
    var edges := ReportEdges(rt, d, reducers);
    issues := ids + nodes + edges;
    assert forall x :: x in issues <==> x in ids || x in nodes || x in edges;
    assert forall x :: x in issues <==> IsIssue(rt, d, x);
    if issues != [] {
      assert issues[0] in issues;
    }
  }

  // ----- planGraphCommands ------------------------------------------------

  datatype PlanIssue =
    | CommandIssue(error: GraphError)
    | ValidationIssue(issue: Issue)
    | CycleIssue
    | ConnectionIssue(error: GraphError)
    | ExecutionIssue(resource: string, error: GraphError)

  datatype Plan = Plan(
    expectedRevision: int, proposedRevision: int, valid: bool,
    issues: seq<PlanIssue>, document: Option<Document>, run: Option<Run>)

  function AsPlanIssues(issues: seq<Issue>): (r: seq<PlanIssue>)
    ensures |r| == |issues| && forall i | 0 <= i < |r| :: r[i] == ValidationIssue(issues[i])
  {
    seq(|issues|, i requires 0 <= i < |issues| => ValidationIssue(issues[i]))
  }

  method CheckProposed(rt: Runtime, d: Document) returns (issues: seq<PlanIssue>, run: Option<Run>)
    ensures RegistryOk(rt) ==> (issues == [] <==> DocumentOk(rt, d))
    ensures RegistryOk(rt) ==> (CycleIssue in issues <==>
      NoIssues(rt, d) && Materialized(rt, d).Success? && HasCycle(Materialized(rt, d).value.nodes))
    ensures RegistryOk(rt) && issues == [] ==>
      run.Some? && ReportsSolution(rt, Materialized(rt, d).value.nodes, run.value.outputs)
  {
    var found := ValidateGraphDocument(rt, d);
    if found != [] {
      assert AsPlanIssues(found)[0] == ValidationIssue(found[0]);
      return AsPlanIssues(found), None;
    }
    var materialized := MaterializeGraph(rt, d);
    if materialized.Failure? {
      return [ConnectionIssue(materialized.error)], None;
    }
    var sorted := materialized.value.TopologicalSort();
    if sorted.Failure? {
      return [CycleIssue], None;
    }
    var ran, order := RunGraphDocument(rt, d);
    run := Some(ran.value);
    issues := [];
    var ids := ran.value.errors.Keys;
    while ids != {}
      invariant ids <= ran.value.errors.Keys && CycleIssue !in issues
      invariant issues == [] <==> ids == ran.value.errors.Keys
      decreases ids
    {
      var id :| id in ids;
      ids := ids - {id};
      issues := issues + [ExecutionIssue(id, ran.value.errors[id])];
    }
  }

  method PlanGraphCommands(rt: Runtime, d: Document, cs: seq<Command>) returns (plan: Plan)
    ensures plan.expectedRevision == d.revision
    ensures plan.document.Some? ==> plan.proposedRevision == plan.document.value.revision
    ensures plan.valid <==> plan.issues == []
    ensures plan.document == (if ReducedAll(d, cs).Success? then Some(ReducedAll(d, cs).value) else None)
    ensures RegistryOk(rt) ==> (plan.valid <==> Planned(rt, d, cs).Some?)
    ensures plan.valid ==> plan.document.Some?
    ensures RegistryOk(rt) ==> (CycleIssue in plan.issues <==>
      && plan.document.Some? && (exists c | c in cs :: AffectsComputation(c))
      && NoIssues(rt, plan.document.value) && Materialized(rt, plan.document.value).Success?
      && HasCycle(Materialized(rt, plan.document.value).value.nodes))
    ensures RegistryOk(rt) && plan.valid && (exists c | c in cs :: AffectsComputation(c)) ==>
      && plan.run.Some? && Materialized(rt, plan.document.value).Success?
      && ReportsSolution(rt, Materialized(rt, plan.document.value).value.nodes, plan.run.value.outputs)
  {
    var proposedRevision := if |cs| == 0 then d.revision else d.revision + 1;
    var proposed := ReducedAll(d, cs);
    if proposed.Failure? {
      return Plan(d.revision, proposedRevision, false, [CommandIssue(proposed.error)], None, None);
    }
    var affects := exists c | c in cs :: AffectsComputation(c);
    var issues: seq<PlanIssue>, run: Option<Run> := [], None;
    if affects {
      issues, run := CheckProposed(rt, proposed.value);
    }
    return Plan(d.revision, proposedRevision, issues == [], issues, Some(proposed.value), run);
  }
}
