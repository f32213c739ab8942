/**
 * What the execution engine computes (packages/graph/src/execution.ts): gathering inputs,
 * executing one node, executing a list of dirty nodes, and whole histories of rounds that
 * change defaults, mark nodes dirty and execute.
 */
module Executions {
  import opened Wrappers
  import opened DataKinds
  import opened Graphs
  import opened Traversals

  // ----- one node ---------------------------------------------------------

  /** The values on the sockets connected to `s`, normalised, in connection order. */
  function Delivered(h: Host, nodes: Nodes, s: SocketDef, conns: seq<SocketId>): (r: Result<seq<Value>, GraphError>)
    ensures r.Success? ==> |r.value| == |conns|
  {
    if conns == [] then Success([])
    else
      var source := GetSocket(nodes, conns[0]);
      if source.None? then Failure(UnknownSocket)
      else if source.value.value.None? then Failure(NoValue)
      else
        var first :- NormalizeSocketValue(h, s, source.value.value.value, source.value.def.kind);
        var rest :- Delivered(h, nodes, s, conns[1..]);
        Success([first] + rest)
  }

  /** `flatMap` over arrays and single values. */
  function Flatten(vs: seq<Value>): seq<Value> {
    if vs == [] then [] else (if vs[0].Arr? then vs[0].items else [vs[0]]) + Flatten(vs[1..])
  }

  /** What one input socket contributes; `None` when it is left out of the inputs. */
  function InputValue(h: Host, nodes: Nodes, s: Socket): Result<Option<Value>, GraphError> {
    if s.connections == [] then
      if s.def.defaultValue.Some? then Success(s.def.defaultValue)
      else if s.def.required then Failure(MissingInput)
      else Success(None)
    else
      var vs :- Delivered(h, nodes, s.def, s.connections);
      Success(Some(if s.def.multiple then Arr(Flatten(vs)) else vs[0]))
  }

  /** The inputs of a node; `None` when gathering throws. */
  function Gather(h: Host, nodes: Nodes, inputs: map<string, Socket>): Option<map<string, Value>> {
    if forall name | name in inputs :: InputValue(h, nodes, inputs[name]).Success? then
      Some(map name | name in inputs && InputValue(h, nodes, inputs[name]).value.Some? ::
        InputValue(h, nodes, inputs[name]).value.value)
    else
      None
  }

  /** Output sockets named in the reducer's result take its values. */
  function Published(outputs: map<string, Socket>, result: map<string, Value>): map<string, Socket> {
    map name | name in outputs :: if name in result then outputs[name].(value := Some(result[name])) else outputs[name]
  }

  datatype Outcome = Outcome(ok: bool, nodes: Nodes)

  /** A fault while gathering is thrown before the `try`, so only later faults are recorded. */
  function ExecutedNode(h: Host, nodes: Nodes, id: string): Outcome
    requires id in nodes
  {
    var n := nodes[id];
    var inputs := Gather(h, nodes, n.inputs);
    if inputs.None? then Outcome(false, nodes)
    else if !n.reducer.validate(inputs.value) then Outcome(false, nodes[id := n.(error := Some(ValidationFailed))])
    else
      var result := n.reducer.run(inputs.value);
      if result.Failure? then Outcome(false, nodes[id := n.(error := Some(result.error))])
      else Outcome(true, nodes[id := n.(outputs := Published(n.outputs, result.value), error := None)])
  }

  // ----- the declarative meaning of a node --------------------------------

  /** The node's outputs are what its reducer gives on its current upstream values. */
  ghost predicate Consistent(h: Host, nodes: Nodes, id: string)
    requires id in nodes
  {
    var n := nodes[id];
    var inputs := Gather(h, nodes, n.inputs);
    && inputs.Some?
    && n.reducer.validate(inputs.value)
    && n.reducer.run(inputs.value).Success?
    && forall name | name in n.outputs ::
         name in n.reducer.run(inputs.value).value &&
         n.outputs[name].value == Some(n.reducer.run(inputs.value).value[name])
  }

  /** Reducers return every output they declare. */
  ghost predicate Total(nodes: Nodes) {
    forall id | id in nodes :: CoversOutputs(nodes[id])
  }

  ghost predicate CoversOutputs(n: Node) {
    forall inputs :: n.reducer.run(inputs).Success? ==> n.outputs.Keys <= n.reducer.run(inputs).value.Keys
  }

  /** Equal but for output values and recorded errors. */
  ghost predicate SameShape(a: Nodes, b: Nodes) {
    a.Keys == b.Keys && forall id | id in a :: SameNodeShape(a[id], b[id])
  }

  ghost predicate SameNodeShape(n: Node, m: Node) {
    && n.id == m.id && n.reducer == m.reducer && n.inputs == m.inputs
    && n.outputs.Keys == m.outputs.Keys
    && forall name | name in n.outputs ::
         n.outputs[name].def == m.outputs[name].def && n.outputs[name].connections == m.outputs[name].connections
  }

  ghost predicate Mirrored(nodes: Nodes) {
    forall u, d :: d in Downstream(nodes, u) <==> u in Upstream(nodes, d)
  }

  lemma LinkedIsMirrored(g: GraphState)
    requires Linked(g)
    ensures Mirrored(g.nodes)
  {
    forall u, d ensures d in Downstream(g.nodes, u) <==> u in Upstream(g.nodes, d) {
      UpstreamIsConverse(g, u, d);
    }
  }

  // ----- shape determines the links ---------------------------------------

  lemma ShapeSocket(a: Nodes, b: Nodes, sid: SocketId)
    requires SameShape(a, b)
    ensures GetSocket(a, sid).Some? == GetSocket(b, sid).Some?
    ensures Connections(a, sid) == Connections(b, sid)
    ensures GetSocket(a, sid).Some? ==> GetSocket(a, sid).value.def == GetSocket(b, sid).value.def
    ensures sid.node in a && a[sid.node].outputs == b[sid.node].outputs ==> GetSocket(a, sid) == GetSocket(b, sid)
  {
    if sid.node in a {
      assert SameNodeShape(a[sid.node], b[sid.node]);
    }
  }

  lemma ShapeNeighbours(a: Nodes, b: Nodes, id: string)
    requires SameShape(a, b)
    ensures Upstream(a, id) == Upstream(b, id)
    ensures Downstream(a, id) == Downstream(b, id)
  {
    if id in a {
      assert SameNodeShape(a[id], b[id]);
      forall sid: SocketId { ShapeSocket(a, b, sid); }
    }
  }

  lemma ShapeMirrored(a: Nodes, b: Nodes)
    requires SameShape(a, b) && Mirrored(a)
    ensures Mirrored(b)
  {
    forall u, d ensures d in Downstream(b, u) <==> u in Upstream(b, d) {
      ShapeNeighbours(a, b, u);
      ShapeNeighbours(a, b, d);
    }
  }

  lemma ShapeTotal(a: Nodes, b: Nodes)
    requires SameShape(a, b) && Total(a)
    ensures Total(b)
  {
    forall id | id in b ensures CoversOutputs(b[id]) {
      assert SameNodeShape(a[id], b[id]) && CoversOutputs(a[id]);
    }
  }

  lemma ShapeClosed(a: Nodes, b: Nodes, dirty: set<string>)
    requires SameShape(a, b) && ClosedDownstream(a, dirty)
    ensures ClosedDownstream(b, dirty)
  {
    forall x | x in dirty { ShapeNeighbours(a, b, x); }
  }

  lemma ShapeTransitive(a: Nodes, b: Nodes, c: Nodes)
    requires SameShape(a, b) && SameShape(b, c)
    ensures SameShape(a, c) && SameShape(b, a)
  {
    forall id | id in a ensures SameNodeShape(a[id], c[id]) && SameNodeShape(b[id], a[id]) {
      assert SameNodeShape(a[id], b[id]) && SameNodeShape(b[id], c[id]);
    }
  }

  // ----- what a node reads ------------------------------------------------

  lemma {:induction false} DeliveredFrame(h: Host, a: Nodes, b: Nodes, s: SocketDef, conns: seq<SocketId>)
    requires SameShape(a, b)
    requires forall c | c in conns && GetSocket(a, c).Some? :: a[c.node].outputs == b[c.node].outputs
    ensures Delivered(h, a, s, conns) == Delivered(h, b, s, conns)
  {
    if conns != [] {
      ShapeSocket(a, b, conns[0]);
      DeliveredFrame(h, a, b, s, conns[1..]);
    }
  }

  lemma InputValueFrame(h: Host, a: Nodes, b: Nodes, id: string, name: string)
    requires SameShape(a, b) && id in a && name in a[id].inputs
    requires forall u | u in Upstream(a, id) :: a[u].outputs == b[u].outputs
    ensures InputValue(h, a, a[id].inputs[name]) == InputValue(h, b, a[id].inputs[name])
  {
    var s := a[id].inputs[name];
    forall c | c in s.connections && GetSocket(a, c).Some? ensures a[c.node].outputs == b[c.node].outputs {
      assert c.node in Upstream(a, id);
    }
    DeliveredFrame(h, a, b, s.def, s.connections);
  }

  lemma GatherPointwise(h: Host, a: Nodes, b: Nodes, inputs: map<string, Socket>)
    requires forall name | name in inputs :: InputValue(h, a, inputs[name]) == InputValue(h, b, inputs[name])
    ensures Gather(h, a, inputs) == Gather(h, b, inputs)
  {
    var x, y := Gather(h, a, inputs), Gather(h, b, inputs);
    if x.Some? || y.Some? {
      assert forall name | name in inputs ::
        InputValue(h, a, inputs[name]).Success? && InputValue(h, b, inputs[name]).Success?;
      assert x.value == y.value;
    }
  }

  /** A node reads nothing but its own input sockets and the outputs of its upstream nodes. */
  lemma GatherFrame(h: Host, a: Nodes, b: Nodes, id: string)
    requires SameShape(a, b) && id in a
    requires forall u | u in Upstream(a, id) :: a[u].outputs == b[u].outputs
    ensures Gather(h, a, a[id].inputs) == Gather(h, b, b[id].inputs)
  {
    assert SameNodeShape(a[id], b[id]);
    forall name | name in a[id].inputs {
      InputValueFrame(h, a, b, id, name);
    }
    GatherPointwise(h, a, b, a[id].inputs);
  }

  lemma ConsistentFrame(h: Host, a: Nodes, b: Nodes, id: string)
    requires SameShape(a, b) && id in a && Consistent(h, a, id) && a[id].outputs == b[id].outputs
    requires forall u | u in Upstream(a, id) :: a[u].outputs == b[u].outputs
    ensures Consistent(h, b, id)
  {
    GatherFrame(h, a, b, id);
    assert SameNodeShape(a[id], b[id]);
  }

  lemma ExecutedNodeShape(h: Host, nodes: Nodes, id: string)
    requires id in nodes
    ensures ExecutedNode(h, nodes, id).nodes.Keys == nodes.Keys
    ensures SameNodeShape(nodes[id], ExecutedNode(h, nodes, id).nodes[id])
  {
  }

  lemma ExecutedOther(h: Host, nodes: Nodes, id: string, x: string)
    requires id in nodes && x in nodes && x != id
    ensures x in ExecutedNode(h, nodes, id).nodes && ExecutedNode(h, nodes, id).nodes[x] == nodes[x]
  {
  }

  lemma FailedKeepsOutputs(h: Host, nodes: Nodes, id: string)
    requires id in nodes && !ExecutedNode(h, nodes, id).ok
    ensures id in ExecutedNode(h, nodes, id).nodes && ExecutedNode(h, nodes, id).nodes[id].outputs == nodes[id].outputs
  {
  }

  lemma ExecutedShape(h: Host, nodes: Nodes, id: string)
    requires id in nodes
    ensures SameShape(nodes, ExecutedNode(h, nodes, id).nodes)
    ensures forall x | x in nodes && x != id :: ExecutedNode(h, nodes, id).nodes[x] == nodes[x]
    ensures !ExecutedNode(h, nodes, id).ok ==> ExecutedNode(h, nodes, id).nodes[id].outputs == nodes[id].outputs
  {
    ExecutedNodeShape(h, nodes, id);
    forall x | x in nodes && x != id ensures ExecutedNode(h, nodes, id).nodes[x] == nodes[x] {
      ExecutedOther(h, nodes, id, x);
    }
    if !ExecutedNode(h, nodes, id).ok {
      FailedKeepsOutputs(h, nodes, id);
    }
  }

  lemma ExecutedConsistent(h: Host, nodes: Nodes, id: string)
    requires id in nodes && CoversOutputs(nodes[id]) && id !in Upstream(nodes, id)
    requires ExecutedNode(h, nodes, id).ok
    ensures Consistent(h, ExecutedNode(h, nodes, id).nodes, id)
  {
    ExecutedShape(h, nodes, id);
    UpstreamInGraph(nodes, id);
    GatherFrame(h, nodes, ExecutedNode(h, nodes, id).nodes, id);
  }

  lemma ExecutedElsewhere(h: Host, nodes: Nodes, id: string, m: string)
    requires id in nodes && m in nodes && m != id && Consistent(h, nodes, m)
    requires ExecutedNode(h, nodes, id).ok ==> id !in Upstream(nodes, m)
    ensures Consistent(h, ExecutedNode(h, nodes, id).nodes, m)
  {
    ExecutedShape(h, nodes, id);
    UpstreamInGraph(nodes, m);
    ConsistentFrame(h, nodes, ExecutedNode(h, nodes, id).nodes, m);
  }

  // ----- a list of dirty nodes --------------------------------------------

  datatype EngineState = EngineState(ok: bool, nodes: Nodes, dirty: set<string>)

  /** The loop of `execute`; it stops at the first node that throws and keeps that node dirty. */
  function Executed(h: Host, nodes: Nodes, dirty: set<string>, todo: seq<string>): EngineState
    decreases |todo|
  {
    if todo == [] then EngineState(true, nodes, dirty)
    else if todo[0] !in nodes then EngineState(false, nodes, dirty)
    else
      var r := ExecutedNode(h, nodes, todo[0]);
      if !r.ok then EngineState(false, r.nodes, dirty)
      else Executed(h, r.nodes, dirty - {todo[0]}, todo[1..])
  }

  function DirtyPart(s: seq<string>, dirty: set<string>): seq<string> {
    if s == [] then []
    else if s[0] in dirty then [s[0]] + DirtyPart(s[1..], dirty)
    else DirtyPart(s[1..], dirty)
  }

  /** The engine's invariant: dirt is closed downstream and everything clean is up to date. */
  ghost predicate UpToDate(h: Host, nodes: Nodes, dirty: set<string>) {
    && ClosedDownstream(nodes, dirty)
    && forall id | id in nodes && id !in dirty :: Consistent(h, nodes, id)
  }

  /** `todo` lists the dirty nodes, each after the dirty nodes that feed it. */
  ghost predicate Ready(nodes: Nodes, dirty: set<string>, todo: seq<string>) {
    && NoDuplicates(todo)
    && (forall x :: x in todo <==> x in nodes && x in dirty)
    && forall i, u | 0 <= i < |todo| && u in Upstream(nodes, todo[i]) && u in dirty :: u in todo[..i]
  }

  lemma {:induction false} DirtyPartMembers(s: seq<string>, dirty: set<string>)
    requires NoDuplicates(s)
    ensures NoDuplicates(DirtyPart(s, dirty))
    ensures forall x :: x in DirtyPart(s, dirty) <==> x in s && x in dirty
  {
    if s != [] {
      DirtyPartMembers(s[1..], dirty);
    }
  }

  lemma {:induction false} DirtyPartPosition(s: seq<string>, dirty: set<string>, i: nat) returns (j: nat)
    requires i < |DirtyPart(s, dirty)|
    ensures j < |s| && s[j] == DirtyPart(s, dirty)[i]
    ensures forall x | x in s[..j] && x in dirty :: x in DirtyPart(s, dirty)[..i]
  {
    var d := DirtyPart(s, dirty);
    if s[0] in dirty {
      if i == 0 {
        j := 0;
      } else {
        var k := DirtyPartPosition(s[1..], dirty, i - 1);
        j := k + 1;
        assert s[..j] == [s[0]] + s[1..][..k];
        assert d[..i] == [s[0]] + DirtyPart(s[1..], dirty)[..i - 1];
      }
    } else {
      var k := DirtyPartPosition(s[1..], dirty, i);
      j := k + 1;
      assert s[..j] == [s[0]] + s[1..][..k];
    }
  }

  lemma SortedIsReady(nodes: Nodes, dirty: set<string>, s: seq<string>)
    requires TopoOrder(nodes, s)
    ensures Ready(nodes, dirty, DirtyPart(s, dirty))
  {
    var todo := DirtyPart(s, dirty);
    DirtyPartMembers(s, dirty);
    forall i, u | 0 <= i < |todo| && u in Upstream(nodes, todo[i]) && u in dirty ensures u in todo[..i] {
      var j := DirtyPartPosition(s, dirty, i);
    }
  }

  lemma ReadyStep(nodes: Nodes, dirty: set<string>, todo: seq<string>)
    requires Ready(nodes, dirty, todo) && todo != []
    ensures Upstream(nodes, todo[0]) !! dirty
    ensures Ready(nodes, dirty - {todo[0]}, todo[1..])
  {
    var first, rest := todo[0], todo[1..];
    assert todo == [first] + rest;
    assert todo[..0] == [];
    forall i, u | 0 <= i < |rest| && u in Upstream(nodes, rest[i]) && u in dirty - {first} ensures u in rest[..i] {
      assert rest[i] == todo[i + 1];
      assert todo[..i + 1] == [first] + rest[..i];
    }
    forall x ensures x in rest <==> x in nodes && x in dirty - {first} {
      assert x in todo <==> x == first || x in rest;
    }
  }

  lemma NodeStepKeeps(h: Host, nodes: Nodes, dirty: set<string>, id: string)
    requires UpToDate(h, nodes, dirty) && Mirrored(nodes) && Total(nodes)
    requires id in nodes && id in dirty && Upstream(nodes, id) !! dirty
    ensures var r := ExecutedNode(h, nodes, id);
      UpToDate(h, r.nodes, if r.ok then dirty - {id} else dirty)
  {
    var r := ExecutedNode(h, nodes, id);
    var dirty' := if r.ok then dirty - {id} else dirty;
    ExecutedShape(h, nodes, id);
    forall x | x in dirty' ensures Downstream(nodes, x) <= dirty' {
      assert id in Downstream(nodes, x) ==> x in Upstream(nodes, id);
    }
    ShapeClosed(nodes, r.nodes, dirty');
    if r.ok {
      assert CoversOutputs(nodes[id]);
      ExecutedConsistent(h, nodes, id);
    }
    forall m | m in nodes && m !in dirty ensures Consistent(h, r.nodes, m) {
      if id in Upstream(nodes, m) {
        CleanUpstream(nodes, dirty, id, m);
        assert false;
      }
      ExecutedElsewhere(h, nodes, id, m);
    }
  }

  lemma CleanUpstream(nodes: Nodes, dirty: set<string>, u: string, m: string)
    requires ClosedDownstream(nodes, dirty) && m !in dirty && u in Upstream(nodes, m) && Mirrored(nodes)
    ensures u !in dirty
  {
  }

  /**
   * Executing keeps the invariant whether or not it succeeds, touches no clean node, and on
   * success leaves no node dirty; after a failure the failing node is still dirty.
   */
  lemma {:induction false} ExecutedKeeps(h: Host, nodes: Nodes, dirty: set<string>, todo: seq<string>)
    requires UpToDate(h, nodes, dirty) && Mirrored(nodes) && Total(nodes) && Ready(nodes, dirty, todo)
    ensures var r := Executed(h, nodes, dirty, todo);
      && SameShape(nodes, r.nodes) && UpToDate(h, r.nodes, r.dirty) && r.dirty <= dirty
      && (forall x | x in nodes && x !in dirty :: r.nodes[x] == nodes[x])
      && (r.ok <==> r.dirty !! nodes.Keys)
    decreases |todo|
  {
    if todo == [] {
    } else {
      var first := todo[0];
      ReadyStep(nodes, dirty, todo);
      NodeStepKeeps(h, nodes, dirty, first);
      var r := ExecutedNode(h, nodes, first);
      ExecutedShape(h, nodes, first);
      if r.ok {
        assert Mirrored(r.nodes) && Total(r.nodes) && Ready(r.nodes, dirty - {first}, todo[1..]) by {
          ShapeMirrored(nodes, r.nodes);
          ShapeTotal(nodes, r.nodes);
          ShapeReady(nodes, r.nodes, dirty - {first}, todo[1..]);
        }
        ExecutedKeeps(h, r.nodes, dirty - {first}, todo[1..]);
        ShapeTransitive(nodes, r.nodes, Executed(h, r.nodes, dirty - {first}, todo[1..]).nodes);
      }
    }
  }

  lemma ShapeReady(a: Nodes, b: Nodes, dirty: set<string>, todo: seq<string>)
    requires SameShape(a, b) && Ready(a, dirty, todo)
    ensures Ready(b, dirty, todo)
  {
    forall i, u | 0 <= i < |todo| && u in Upstream(b, todo[i]) && u in dirty ensures u in todo[..i] {
      ShapeNeighbours(a, b, todo[i]);
    }
  }

  // ----- solutions --------------------------------------------------------

  /** An assignment of outputs that every reducer agrees with. */
  ghost predicate Solves(h: Host, nodes: Nodes, sol: Nodes) {
    SameShape(nodes, sol) && forall id | id in sol :: Consistent(h, sol, id)
  }

  ghost predicate Solvable(h: Host, nodes: Nodes) {
    exists sol :: Solves(h, nodes, sol)
  }

  ghost predicate OutputsEqual(a: Nodes, b: Nodes) {
    a.Keys == b.Keys && forall id | id in a :: a[id].outputs == b[id].outputs
  }

  /** Two consistent nodes on equal upstream outputs have equal outputs. */
  lemma SameOutputs(h: Host, a: Nodes, b: Nodes, id: string)
    requires SameShape(a, b) && id in a && Consistent(h, a, id) && Consistent(h, b, id)
    requires forall u | u in Upstream(a, id) :: a[u].outputs == b[u].outputs
    ensures a[id].outputs == b[id].outputs
  {
    GatherFrame(h, a, b, id);
    assert SameNodeShape(a[id], b[id]);
    forall name | name in a[id].outputs ensures a[id].outputs[name] == b[id].outputs[name] {
    }
  }

  ghost predicate AgreesUpTo(nodes: Nodes, dirty: set<string>, sol: Nodes, s: seq<string>, k: nat)
    requires nodes.Keys == sol.Keys
  {
    forall id | id in s[..if k < |s| then k else |s|] && id in nodes && id !in dirty ::
      nodes[id].outputs == sol[id].outputs
  }

  lemma AgreesNext(h: Host, nodes: Nodes, dirty: set<string>, sol: Nodes, s: seq<string>, k: nat)
    requires Solves(h, nodes, sol) && UpToDate(h, nodes, dirty) && Mirrored(nodes)
    requires TopoOrder(nodes, s) && k < |s| && AgreesUpTo(nodes, dirty, sol, s, k)
    ensures AgreesUpTo(nodes, dirty, sol, s, k + 1)
  {
    var id := s[k];
    if id !in dirty {
      forall u | u in Upstream(nodes, id) ensures nodes[u].outputs == sol[u].outputs {
        CleanUpstream(nodes, dirty, u, id);
        assert u in s[..k];
      }
      assert Consistent(h, nodes, id) && Consistent(h, sol, id);
      SameOutputs(h, nodes, sol, id);
    }
    assert s[..k + 1] == s[..k] + [id];
  }

  /** On an acyclic graph, whatever is up to date agrees with the solution. */
  lemma {:induction false} CleanAgrees(h: Host, nodes: Nodes, dirty: set<string>, sol: Nodes, s: seq<string>, k: nat)
    requires Solves(h, nodes, sol) && UpToDate(h, nodes, dirty) && Mirrored(nodes)
    requires TopoOrder(nodes, s) && k <= |s|
    ensures AgreesUpTo(nodes, dirty, sol, s, k)
  {
    if k > 0 {
      CleanAgrees(h, nodes, dirty, sol, s, k - 1);
      AgreesNext(h, nodes, dirty, sol, s, k - 1);
    }
  }

  /** Solutions of an acyclic graph are unique. */
  lemma SolutionIsUnique(h: Host, a: Nodes, b: Nodes, s: seq<string>)
    requires TopoOrder(a, s) && Mirrored(a) && Solves(h, a, a) && Solves(h, a, b)
    ensures OutputsEqual(a, b)
  {
    CleanAgrees(h, a, {}, b, s, |s|);
    forall id | id in a ensures a[id].outputs == b[id].outputs {
      assert id in s;
    }
  }

  ghost predicate AgreesWhenClean(nodes: Nodes, dirty: set<string>, sol: Nodes)
    requires nodes.Keys == sol.Keys
  {
    forall id | id in nodes && id !in dirty :: nodes[id].outputs == sol[id].outputs
  }

  /** Executing a node that gathers what the solution gathers gives the solution's outputs. */
  lemma ExecutesInto(h: Host, nodes: Nodes, sol: Nodes, id: string)
    requires id in nodes && id in sol && SameNodeShape(nodes[id], sol[id]) && CoversOutputs(nodes[id])
    requires Gather(h, nodes, nodes[id].inputs) == Gather(h, sol, sol[id].inputs) && Consistent(h, sol, id)
    ensures ExecutedNode(h, nodes, id).ok
    ensures ExecutedNode(h, nodes, id).nodes[id].outputs == sol[id].outputs
  {
  }

  /** If a solution exists, a dirty node whose upstream agrees with it executes into it. */
  lemma NodeStepFollows(h: Host, nodes: Nodes, dirty: set<string>, sol: Nodes, id: string)
    requires Solves(h, nodes, sol) && AgreesWhenClean(nodes, dirty, sol) && Total(nodes)
    requires id in nodes && id in dirty && Upstream(nodes, id) !! dirty
    ensures ExecutedNode(h, nodes, id).ok
    ensures AgreesWhenClean(ExecutedNode(h, nodes, id).nodes, dirty - {id}, sol)
  {
    UpstreamInGraph(nodes, id);
    GatherFrame(h, nodes, sol, id);
    ExecutesInto(h, nodes, sol, id);
    ExecutedShape(h, nodes, id);
    AgreesOneMore(nodes, ExecutedNode(h, nodes, id).nodes, dirty, sol, id);
  }

  lemma AgreesOneMore(nodes: Nodes, next: Nodes, dirty: set<string>, sol: Nodes, id: string)
    requires nodes.Keys == sol.Keys == next.Keys && AgreesWhenClean(nodes, dirty, sol) && id in nodes
    requires next[id].outputs == sol[id].outputs && forall x | x in nodes && x != id :: next[x] == nodes[x]
    ensures AgreesWhenClean(next, dirty - {id}, sol)
  {
  }

  lemma {:induction false} ExecutedFollows(h: Host, nodes: Nodes, dirty: set<string>, sol: Nodes, todo: seq<string>)
    requires Solves(h, nodes, sol) && AgreesWhenClean(nodes, dirty, sol) && Total(nodes) && Ready(nodes, dirty, todo)
    ensures var r := Executed(h, nodes, dirty, todo);
      r.ok && OutputsEqual(r.nodes, sol)
    decreases |todo|
  {
    if todo == [] {
    } else {
      var first := todo[0];
      ReadyStep(nodes, dirty, todo);
      NodeStepFollows(h, nodes, dirty, sol, first);
      var r := ExecutedNode(h, nodes, first);
      ExecutedShape(h, nodes, first);
      ShapeTransitive(nodes, r.nodes, nodes);
      ShapeTransitive(r.nodes, nodes, sol);
      ShapeTotal(nodes, r.nodes);
      ShapeReady(nodes, r.nodes, dirty - {first}, todo[1..]);
      ExecutedFollows(h, r.nodes, dirty - {first}, sol, todo[1..]);
    }
  }

  /**
   * From any up-to-date engine state and any topological order, `execute` succeeds exactly
   * when the graph has a solution, and then the outputs are that solution.
   */
  lemma ExecuteIffSolvable(h: Host, nodes: Nodes, dirty: set<string>, s: seq<string>)
    requires UpToDate(h, nodes, dirty) && Mirrored(nodes) && Total(nodes) && TopoOrder(nodes, s)
    ensures var r := Executed(h, nodes, dirty, DirtyPart(s, dirty));
      && (r.ok <==> Solvable(h, nodes))
      && (r.ok ==> Solves(h, nodes, r.nodes))
      && (r.ok ==> forall sol: Nodes | Solves(h, nodes, sol) :: OutputsEqual(r.nodes, sol))
  {
    var todo := DirtyPart(s, dirty);
    var r := Executed(h, nodes, dirty, todo);
    SortedIsReady(nodes, dirty, s);
    ExecutedKeeps(h, nodes, dirty, todo);
    forall sol: Nodes | Solves(h, nodes, sol) ensures r.ok && OutputsEqual(r.nodes, sol) {
      CleanAgrees(h, nodes, dirty, sol, s, |s|);
      forall id | id in nodes && id !in dirty ensures nodes[id].outputs == sol[id].outputs {
        assert id in s;
      }
      ExecutedFollows(h, nodes, dirty, sol, todo);
    }
    if r.ok {
      assert Solves(h, nodes, r.nodes);
    }
  }

  // ----- rounds -----------------------------------------------------------

  /** A caller assigns the default of one input socket. */
  datatype Change = Change(node: string, input: string, value: Option<Value>)

  function Changed(nodes: Nodes, c: Change): Nodes {
    var s := GetSocket(nodes, SocketId(c.node, Input, c.input));
    if s.None? then nodes
    else WithSocket(nodes, SocketId(c.node, Input, c.input), s.value.(def := s.value.def.(defaultValue := c.value)))
  }

  function ChangedAll(nodes: Nodes, cs: seq<Change>): Nodes {
    if cs == [] then nodes else ChangedAll(Changed(nodes, cs[0]), cs[1..])
  }

  /** Change defaults, mark nodes dirty, execute in some topological order. */
  datatype Round = Round(changes: seq<Change>, marked: set<string>, order: seq<string>)

  ghost function RoundDone(h: Host, st: EngineState, r: Round): EngineState {
    var nodes := ChangedAll(st.nodes, r.changes);
    var dirty := st.dirty + Reached(nodes, r.marked);
    Executed(h, nodes, dirty, DirtyPart(r.order, dirty))
  }

  ghost function RoundsDone(h: Host, st: EngineState, rounds: seq<Round>): EngineState
    decreases |rounds|
  {
    if rounds == [] then st else RoundsDone(h, RoundDone(h, st, rounds[0]), rounds[1..])
  }

  /** At least the changed nodes are marked, and `order` is what a topological sort may return. */
  ghost predicate RoundAllowed(nodes: Nodes, r: Round) {
    && (forall c | c in r.changes :: c.node in r.marked)
    && TopoOrder(ChangedAll(nodes, r.changes), r.order)
  }

  ghost predicate RoundsAllowed(h: Host, st: EngineState, rounds: seq<Round>)
    decreases |rounds|
  {
    rounds == [] || (RoundAllowed(st.nodes, rounds[0]) && RoundsAllowed(h, RoundDone(h, st, rounds[0]), rounds[1..]))
  }

  /** Same nodes, reducers and links; defaults may differ. */
  ghost predicate SameLinks(a: Nodes, b: Nodes) {
    a.Keys == b.Keys && forall id | id in a :: SameNodeLinks(a[id], b[id])
  }

  ghost predicate SameNodeLinks(n: Node, m: Node) {
    && n.id == m.id && n.reducer == m.reducer && n.outputs == m.outputs
    && n.inputs.Keys == m.inputs.Keys
    && forall name | name in n.inputs :: SameButDefault(n.inputs[name], m.inputs[name])
  }

  predicate SameButDefault(s: Socket, t: Socket) {
    s.connections == t.connections && s.value == t.value && s.def.kind == t.def.kind
  }

  lemma {:induction false} ChangedAllLinks(nodes: Nodes, cs: seq<Change>)
    ensures SameLinks(nodes, ChangedAll(nodes, cs))
    ensures forall id | id in nodes && (forall c | c in cs :: c.node != id) :: ChangedAll(nodes, cs)[id] == nodes[id]
  {
    if cs != [] {
      var next := Changed(nodes, cs[0]);
      assert SameLinks(nodes, next);
      ChangedAllLinks(next, cs[1..]);
      forall id | id in nodes ensures SameNodeLinks(nodes[id], ChangedAll(nodes, cs)[id]) {
        assert SameNodeLinks(nodes[id], next[id]) && SameNodeLinks(next[id], ChangedAll(nodes, cs)[id]);
        forall name | name in nodes[id].inputs
          ensures SameButDefault(nodes[id].inputs[name], ChangedAll(nodes, cs)[id].inputs[name])
        {
          assert SameButDefault(nodes[id].inputs[name], next[id].inputs[name]);
        }
      }
    }
  }

  lemma LinksSocket(a: Nodes, b: Nodes, sid: SocketId)
    requires SameLinks(a, b)
    ensures GetSocket(a, sid).Some? == GetSocket(b, sid).Some?
    ensures GetSocket(a, sid).Some? ==> SameButDefault(GetSocket(a, sid).value, GetSocket(b, sid).value)
  {
    if sid.node in a {
      assert SameNodeLinks(a[sid.node], b[sid.node]);
    }
  }

  lemma LinksNeighbours(a: Nodes, b: Nodes, id: string)
    requires SameLinks(a, b)
    ensures Upstream(a, id) == Upstream(b, id)
    ensures Downstream(a, id) == Downstream(b, id)
  {
    if id in a {
      assert SameNodeLinks(a[id], b[id]);
      forall sid: SocketId { LinksSocket(a, b, sid); }
      assert forall name | name in a[id].inputs :: SameButDefault(a[id].inputs[name], b[id].inputs[name]);
    }
  }

  lemma LinksMirrored(a: Nodes, b: Nodes)
    requires SameLinks(a, b) && Mirrored(a) && Total(a)
    ensures Mirrored(b) && Total(b)
  {
    forall u, d ensures d in Downstream(b, u) <==> u in Upstream(b, d) {
      LinksNeighbours(a, b, u);
      LinksNeighbours(a, b, d);
    }
    forall id | id in b ensures CoversOutputs(b[id]) {
      assert SameNodeLinks(a[id], b[id]) && CoversOutputs(a[id]);
    }
  }

  lemma {:induction false} DeliveredLinks(h: Host, a: Nodes, b: Nodes, s: SocketDef, conns: seq<SocketId>)
    requires SameLinks(a, b)
    ensures Delivered(h, a, s, conns) == Delivered(h, b, s, conns)
  {
    if conns != [] {
      LinksSocket(a, b, conns[0]);
      DeliveredLinks(h, a, b, s, conns[1..]);
    }
  }

  /** A node whose own defaults are untouched stays up to date. */
  lemma UnchangedStaysConsistent(h: Host, a: Nodes, b: Nodes, id: string)
    requires SameLinks(a, b) && id in a && a[id] == b[id] && Consistent(h, a, id)
    ensures Consistent(h, b, id)
  {
    forall name | name in a[id].inputs
      ensures InputValue(h, a, a[id].inputs[name]) == InputValue(h, b, a[id].inputs[name])
    {
      DeliveredLinks(h, a, b, a[id].inputs[name].def, a[id].inputs[name].connections);
    }
    GatherPointwise(h, a, b, a[id].inputs);
  }

  /** Changing defaults and marking a superset of the changed nodes restores the invariant. */
  lemma MarkingRestores(h: Host, nodes: Nodes, dirty: set<string>, changes: seq<Change>, marked: set<string>)
    requires UpToDate(h, nodes, dirty) && forall c | c in changes :: c.node in marked
    ensures var nodes' := ChangedAll(nodes, changes);
      SameLinks(nodes, nodes') && UpToDate(h, nodes', dirty + Reached(nodes', marked))
  {
    var nodes' := ChangedAll(nodes, changes);
    var dirty' := dirty + Reached(nodes', marked);
    ChangedAllLinks(nodes, changes);
    ReachedIsLeast(nodes', marked, {});
    forall x | x in dirty { LinksNeighbours(nodes, nodes', x); }
    UnionClosed(nodes', dirty, Reached(nodes', marked));
    forall id | id in nodes' && id !in dirty' ensures Consistent(h, nodes', id) {
      UnchangedStaysConsistent(h, nodes, nodes', id);
    }
  }

  lemma ShapeSolvable(h: Host, a: Nodes, b: Nodes)
    requires SameShape(a, b)
    ensures Solvable(h, a) <==> Solvable(h, b)
  {
    ShapeTransitive(a, b, b);
    if Solvable(h, a) {
      var sol :| Solves(h, a, sol);
      ShapeTransitive(b, a, sol);
      assert Solves(h, b, sol);
    }
    if Solvable(h, b) {
      var sol :| Solves(h, b, sol);
      ShapeTransitive(a, b, sol);
      assert Solves(h, a, sol);
    }
  }

  /** The links decide whether there is a cycle. */
  lemma SameCycles(a: Nodes, b: Nodes)
    requires forall id :: Upstream(a, id) == Upstream(b, id)
    ensures HasCycle(a) <==> HasCycle(b)
  {
    forall p: seq<string> ensures UpstreamWalk(a, p) <==> UpstreamWalk(b, p) {
    }
  }

  /** Changing defaults and executing make no cycle. */
  lemma RoundKeepsCycles(h: Host, st: EngineState, r: Round)
    requires UpToDate(h, st.nodes, st.dirty) && Mirrored(st.nodes) && Total(st.nodes) && RoundAllowed(st.nodes, r)
    ensures HasCycle(st.nodes) <==> HasCycle(RoundDone(h, st, r).nodes)
  {
    var nodes := ChangedAll(st.nodes, r.changes);
    var dirty := st.dirty + Reached(nodes, r.marked);
    MarkingRestores(h, st.nodes, st.dirty, r.changes, r.marked);
    LinksMirrored(st.nodes, nodes);
    SortedIsReady(nodes, dirty, r.order);
    ExecutedKeeps(h, nodes, dirty, DirtyPart(r.order, dirty));
    forall id ensures Upstream(st.nodes, id) == Upstream(RoundDone(h, st, r).nodes, id) {
      LinksNeighbours(st.nodes, nodes, id);
      ShapeNeighbours(nodes, RoundDone(h, st, r).nodes, id);
    }
    SameCycles(st.nodes, RoundDone(h, st, r).nodes);
  }

  /** One round keeps the engine's invariant, also when its execution fails. */
  lemma RoundKeeps(h: Host, st: EngineState, r: Round)
    requires UpToDate(h, st.nodes, st.dirty) && Mirrored(st.nodes) && Total(st.nodes) && RoundAllowed(st.nodes, r)
    ensures var st' := RoundDone(h, st, r);
      && UpToDate(h, st'.nodes, st'.dirty) && Mirrored(st'.nodes) && Total(st'.nodes)
      && (st'.ok <==> Solvable(h, st'.nodes))
      && (st'.ok ==> Solves(h, st'.nodes, st'.nodes))
  {
    var nodes := ChangedAll(st.nodes, r.changes);
    var dirty := st.dirty + Reached(nodes, r.marked);
    MarkingRestores(h, st.nodes, st.dirty, r.changes, r.marked);
    LinksMirrored(st.nodes, nodes);
    SortedIsReady(nodes, dirty, r.order);
    ExecutedKeeps(h, nodes, dirty, DirtyPart(r.order, dirty));
    ExecuteIffSolvable(h, nodes, dirty, r.order);
    var st' := RoundDone(h, st, r);
    ShapeMirrored(nodes, st'.nodes);
    ShapeTotal(nodes, st'.nodes);
    ShapeSolvable(h, nodes, st'.nodes);
    ShapeTransitive(nodes, st'.nodes, st'.nodes);
  }

  /** Failed executions are resumable: over any rounds the invariant never breaks. */
  lemma {:induction false} RoundsKeep(h: Host, st: EngineState, rounds: seq<Round>)
    requires UpToDate(h, st.nodes, st.dirty) && Mirrored(st.nodes) && Total(st.nodes) && RoundsAllowed(h, st, rounds)
    ensures var end := RoundsDone(h, st, rounds);
      && UpToDate(h, end.nodes, end.dirty) && Mirrored(end.nodes) && Total(end.nodes)
      && (rounds != [] ==> (end.ok <==> Solvable(h, end.nodes)))
      && (rounds != [] && end.ok ==> Solves(h, end.nodes, end.nodes))
    decreases |rounds|
  {
    if rounds != [] {
      RoundKeeps(h, st, rounds[0]);
      RoundsKeep(h, RoundDone(h, st, rounds[0]), rounds[1..]);
    }
  }

  lemma AllDirtyIsUpToDate(h: Host, nodes: Nodes, dirty: set<string>)
    requires nodes.Keys <= dirty
    ensures UpToDate(h, nodes, dirty)
  {
    forall x | x in dirty { UpstreamInGraph(nodes, x); }
  }

  /**
   * Incremental execution equals full recomputation. Start with every node marked; after any
   * rounds, some of which may have failed, the last execution succeeds exactly when a fresh
   * run of the same graph with every node dirty succeeds, and then all outputs are equal.
   */
  lemma IncrementalEqualsFresh(h: Host, st: EngineState, rounds: seq<Round>, anew: Nodes, order: seq<string>)
    requires Mirrored(st.nodes) && Total(st.nodes) && st.nodes.Keys <= st.dirty
    requires rounds != [] && RoundsAllowed(h, st, rounds)
    requires SameShape(RoundsDone(h, st, rounds).nodes, anew) && TopoOrder(anew, order)
    ensures var end := RoundsDone(h, st, rounds);
      var full := Executed(h, anew, anew.Keys, DirtyPart(order, anew.Keys));
      (end.ok <==> full.ok) && (end.ok ==> OutputsEqual(end.nodes, full.nodes))
  {
    var end := RoundsDone(h, st, rounds);
    AllDirtyIsUpToDate(h, st.nodes, st.dirty);
    RoundsKeep(h, st, rounds);
    AllDirtyIsUpToDate(h, anew, anew.Keys);
    ShapeMirrored(end.nodes, anew);
    ShapeTotal(end.nodes, anew);
    ShapeSolvable(h, end.nodes, anew);
    ExecuteIffSolvable(h, anew, anew.Keys, order);
    if end.ok {
      ShapeTransitive(end.nodes, anew, anew);
      ShapeTransitive(anew, end.nodes, end.nodes);
      assert Solves(h, anew, end.nodes);
    }
  }
}
