/** The mutable `ExecutionEngine` class of packages/graph/src/execution.ts. */
module Engines {
  import opened Wrappers
  import opened DataKinds
  import opened Graphs
  import opened Traversals
  import opened GraphObjects
  import opened Executions

  /**
   * The methods write the dirty set and the graph; that dirt is closed downstream and clean
   * nodes are up to date is `UpToDate`, kept by the lemmas of `Executions`.
   */
  class ExecutionEngine {
    const graph: Graph
    const host: Host
    var dirty: set<string>

    constructor (graph: Graph, host: Host)
      ensures this.graph == graph && this.host == host && dirty == {}
    {
      this.graph, this.host, dirty := graph, host, {};
    }

    /**
     * Adds exactly the nodes the argument reaches, and terminates on cyclic graphs too. Nodes that
     * were dirty already are not followed, so this holds when their downstream was dirty too; in any
     * case only reached nodes are added, and each with its whole downstream.
     */
    method MarkDirty(changed: seq<string>)
      modifies this
      ensures old(dirty) + (set x | x in changed) <= dirty <= old(dirty) + Reached(graph.nodes, set x | x in changed)
      ensures forall x | x in dirty && x !in old(dirty) :: Downstream(graph.nodes, x) <= dirty
      ensures ClosedDownstream(graph.nodes, old(dirty)) ==>
        dirty == old(dirty) + Reached(graph.nodes, set x | x in changed) && ClosedDownstream(graph.nodes, dirty)
    {
      ghost var nodes, from := graph.nodes, set x | x in changed;
      ghost var universe := dirty + graph.nodes.Keys + from;
      StartsReached(nodes, from);
      var queue := changed;
      while queue != []
        invariant graph.nodes == nodes
        invariant Marking(nodes, from, old(dirty), dirty, queue)
        decreases universe - dirty, |queue|
      {
        var nodeId := queue[|queue| - 1];
        MarkingBounds(nodes, from, old(dirty), dirty, queue);
        if nodeId in dirty {
          MarkingSkip(nodes, from, old(dirty), dirty, queue);
          queue := queue[..|queue| - 1];
        } else {
          var longer := PushDownstream(queue[..|queue| - 1], nodeId);
          MarkingStep(nodes, from, old(dirty), dirty, queue, nodeId, longer);
          MarkingBounds(nodes, from, old(dirty), dirty + {nodeId}, longer);
          dirty := dirty + {nodeId};
          queue := longer;
        }
      }
      MarkingDone(nodes, from, old(dirty), dirty);
    }

    method PushDownstream(queue: seq<string>, nodeId: string) returns (longer: seq<string>)
      ensures forall x :: x in longer <==> x in queue || x in Downstream(graph.nodes, nodeId)
    {
      longer := queue;
      var rest := graph.GetDownstream(nodeId);
      while rest != {}
        invariant rest <= Downstream(graph.nodes, nodeId)
        invariant forall x :: x in longer <==> x in queue || (x in Downstream(graph.nodes, nodeId) && x !in rest)
        decreases rest
      {
        var downId :| downId in rest;
        rest := rest - {downId};
        longer := longer + [downId];
      }
    }

    /** `order` is the topological order the run used. A thrown error is a failure. */
    method Execute() returns (r: Result<(), GraphError>, ghost order: seq<string>)
      modifies this, graph
      ensures graph.edges == old(graph.edges)
      ensures HasCycle(old(graph.nodes)) ==>
        r == Failure(Cycle) && graph.nodes == old(graph.nodes) && dirty == old(dirty)
      ensures !HasCycle(old(graph.nodes)) ==>
        && TopoOrder(old(graph.nodes), order)
        && EngineState(r.Success?, graph.nodes, dirty) ==
             Executed(host, old(graph.nodes), old(dirty), DirtyPart(order, old(dirty)))
    {
      order := [];
      var sorted := graph.TopologicalSort();
      if sorted.Failure? {
        return Failure(sorted.error), order;
      }
      order := sorted.value;
      var dirtySorted := FilterDirty(sorted.value);
      r := ExecuteAll(dirtySorted);
    }

    method FilterDirty(sorted: seq<string>) returns (dirtySorted: seq<string>)
      ensures dirtySorted == DirtyPart(sorted, dirty)
    {
      dirtySorted := [];
      for k := 0 to |sorted|
        invariant dirtySorted + DirtyPart(sorted[k..], dirty) == DirtyPart(sorted, dirty)
      {
        assert sorted[k..][1..] == sorted[k + 1..];
        if sorted[k] in dirty {
          dirtySorted := dirtySorted + [sorted[k]];
        }
      }
    }

    method ExecuteAll(todo: seq<string>) returns (r: Result<(), GraphError>)
      modifies this, graph
      ensures graph.edges == old(graph.edges)
      ensures EngineState(r.Success?, graph.nodes, dirty) == Executed(host, old(graph.nodes), old(dirty), todo)
    {
      ghost var end := Executed(host, graph.nodes, dirty, todo);
      assert todo[0..] == todo;
      for k := 0 to |todo|
        invariant Executed(host, graph.nodes, dirty, todo[k..]) == end
        invariant graph.edges == old(graph.edges)
      {
        assert todo[k..][0] == todo[k] && todo[k..][1..] == todo[k + 1..];
        var ran := ExecuteNode(todo[k]);
        if ran.Failure? {
          return Failure(ran.error);
        }
        dirty := dirty - {todo[k]};
      }
      return Success(());
    }

    method ExecuteNode(nodeId: string) returns (r: Result<map<string, Value>, GraphError>)
      modifies graph
      ensures graph.edges == old(graph.edges)
      ensures nodeId !in old(graph.nodes) ==> r.Failure? && graph.nodes == old(graph.nodes)
      ensures nodeId in old(graph.nodes) ==>
        Outcome(r.Success?, graph.nodes) == ExecutedNode(host, old(graph.nodes), nodeId)
    {
      if nodeId !in graph.nodes {
        return Failure(UnknownNode);
      }
      var node := graph.nodes[nodeId];
      var gathered := GatherInputs(node);
      if gathered.Failure? {
        return Failure(gathered.error);
      }
      if !node.reducer.validate(gathered.value) {
        graph.nodes := graph.nodes[nodeId := node.(error := Some(ValidationFailed))];
        return Failure(ValidationFailed);
      }
      var result := node.reducer.run(gathered.value);
      if result.Failure? {
        graph.nodes := graph.nodes[nodeId := node.(error := Some(result.error))];
        return Failure(result.error);
      }
      var names := result.value.Keys;
      var outputs := node.outputs;
      while names != {}
        invariant names <= result.value.Keys
        invariant outputs == Published(node.outputs, result.value - names)
        decreases names
      {
        var name :| name in names;
        names := names - {name};
        if name in outputs {
          outputs := outputs[name := outputs[name].(value := Some(result.value[name]))];
        }
      }
      assert result.value - {} == result.value;
      graph.nodes := graph.nodes[nodeId := node.(outputs := outputs, error := None)];
      return Success(result.value);
    }

    method GatherInputs(node: Node) returns (r: Result<map<string, Value>, GraphError>)
      ensures r.Success? <==> Gather(host, graph.nodes, node.inputs).Some?
      ensures r.Success? ==> r.value == Gather(host, graph.nodes, node.inputs).value
    {
      var inputs: map<string, Value> := map[];
      var names := node.inputs.Keys;
      assert node.inputs - names == map[];
      while names != {}
        invariant names <= node.inputs.Keys
        invariant Gather(host, graph.nodes, node.inputs - names) == Some(inputs)
        decreases names
      {
        var name :| name in names;
        var value := InputValue(host, graph.nodes, node.inputs[name]);
        if value.Failure? {
          return Failure(value.error);
        }
        ghost var before, after := node.inputs - names, node.inputs - (names - {name});
        assert after == before[name := node.inputs[name]];
        GatherOneMore(host, graph.nodes, before, name, node.inputs[name]);
        names := names - {name};
        if value.value.Some? {
          inputs := inputs[name := value.value.value];
        }
      }
      assert node.inputs - {} == node.inputs;
      return Success(inputs);
    }
  }

  lemma ReachedStays(nodes: Nodes, from: set<string>, x: string)
    requires Reaches(nodes, from, x)
    ensures x in Reached(nodes, from)
  {
    ReachedIsLeast(nodes, from, {});
    var p: seq<string> :| |p| >= 1 && p[0] in from && p[|p| - 1] == x && DownstreamWalk(nodes, p);
    ClosedHoldsWalk(nodes, Reached(nodes, from), p, |p| - 1);
  }

  /** What the worklist keeps: only reached nodes enter, and nothing owed is forgotten. */
  ghost predicate Marking(nodes: Nodes, from: set<string>, was: set<string>, dirty: set<string>, queue: seq<string>) {
    && was <= dirty
    && (forall x | x in queue :: Reaches(nodes, from, x))
    && (forall x | x in dirty && x !in was :: Reaches(nodes, from, x))
    && (forall x | x in from :: x in dirty || x in queue)
    && (forall x | x in dirty && x !in was :: Owed(nodes, x, dirty, queue))
  }

  ghost predicate Owed(nodes: Nodes, x: string, dirty: set<string>, queue: seq<string>) {
    forall y | y in Downstream(nodes, x) :: y in dirty || y in queue
  }

  lemma MarkingBounds(nodes: Nodes, from: set<string>, was: set<string>, dirty: set<string>, queue: seq<string>)
    requires Marking(nodes, from, was, dirty, queue)
    ensures dirty <= was + nodes.Keys + from
    ensures queue != [] ==> queue[|queue| - 1] in nodes.Keys + from
  {
    forall x | x in dirty && x !in was ensures x in nodes.Keys + from {
      ReachedStays(nodes, from, x);
    }
    if queue != [] {
      ReachedStays(nodes, from, queue[|queue| - 1]);
    }
  }

  lemma MarkingSkip(nodes: Nodes, from: set<string>, was: set<string>, dirty: set<string>, queue: seq<string>)
    requires Marking(nodes, from, was, dirty, queue) && queue != [] && queue[|queue| - 1] in dirty
    ensures Marking(nodes, from, was, dirty, queue[..|queue| - 1])
  {
    var rest := queue[..|queue| - 1];
    assert queue == rest + [queue[|queue| - 1]];
    forall x | x in dirty && x !in was ensures Owed(nodes, x, dirty, rest) {
      assert Owed(nodes, x, dirty, queue);
    }
  }

  lemma MarkingStep(nodes: Nodes, from: set<string>, was: set<string>, dirty: set<string>, queue: seq<string>,
                    id: string, queue': seq<string>)
    requires Marking(nodes, from, was, dirty, queue) && queue != [] && queue[|queue| - 1] == id && id !in dirty
    requires forall x :: x in queue' <==> x in queue[..|queue| - 1] || x in Downstream(nodes, id)
    ensures Marking(nodes, from, was, dirty + {id}, queue')
  {
    assert queue == queue[..|queue| - 1] + [id];
    assert id in queue;
    forall x | x in queue' ensures Reaches(nodes, from, x) {
      if x in Downstream(nodes, id) {
        OneMoreStep(nodes, from, id, x);
      }
    }
    forall x | x in dirty + {id} && x !in was ensures Owed(nodes, x, dirty + {id}, queue') {
      assert x != id ==> Owed(nodes, x, dirty, queue);
    }
  }

  lemma MarkingDone(nodes: Nodes, from: set<string>, was: set<string>, dirty: set<string>)
    requires Marking(nodes, from, was, dirty, [])
    ensures was + from <= dirty <= was + Reached(nodes, from)
    ensures forall x | x in dirty && x !in was :: Downstream(nodes, x) <= dirty
    ensures ClosedDownstream(nodes, was) ==> dirty == was + Reached(nodes, from) && ClosedDownstream(nodes, dirty)
  {
    forall x | x in dirty && x !in was ensures x in Reached(nodes, from) && Downstream(nodes, x) <= dirty {
      ReachedStays(nodes, from, x);
      assert Owed(nodes, x, dirty, []);
    }
    ReachedIsLeast(nodes, from, dirty);
  }

  lemma GatherOneMore(h: Host, nodes: Nodes, before: map<string, Socket>, name: string, s: Socket)
    requires name !in before && Gather(h, nodes, before).Some? && InputValue(h, nodes, s).Success?
    ensures Gather(h, nodes, before[name := s]) == Some(
      var v := InputValue(h, nodes, s).value;
      if v.Some? then Gather(h, nodes, before).value[name := v.value] else Gather(h, nodes, before).value)
  {
    var after, v := before[name := s], InputValue(h, nodes, s).value;
    GatherSucceedsOnMore(h, nodes, before, name, s);
    var was, now := Gather(h, nodes, before).value, Gather(h, nodes, after).value;
    var expected := if v.Some? then was[name := v.value] else was;
    forall x ensures x in now <==> x in expected {
      GatheredAt(h, nodes, before, x);
      GatheredAt(h, nodes, after, x);
    }
    forall x | x in now ensures now[x] == expected[x] {
      GatheredAt(h, nodes, before, x);
      GatheredAt(h, nodes, after, x);
    }
    assert now == expected;
  }

  /** What one socket gives to the gathered inputs. */
  lemma GatheredAt(h: Host, nodes: Nodes, sockets: map<string, Socket>, x: string)
    requires Gather(h, nodes, sockets).Some?
    ensures var r := Gather(h, nodes, sockets).value;
      && (x in sockets ==> InputValue(h, nodes, sockets[x]).Success?)
      && (x in r <==> x in sockets && InputValue(h, nodes, sockets[x]).value.Some?)
      && (x in r ==> r[x] == InputValue(h, nodes, sockets[x]).value.value)
  {
  }

  lemma GatherSucceedsOnMore(h: Host, nodes: Nodes, before: map<string, Socket>, name: string, s: Socket)
    requires name !in before && Gather(h, nodes, before).Some? && InputValue(h, nodes, s).Success?
    ensures Gather(h, nodes, before[name := s]).Some?
  {
    var after := before[name := s];
    forall x | x in after ensures InputValue(h, nodes, after[x]).Success? {
      if x != name {
        assert after[x] == before[x];
      }
    }
  }

  // ----- a client of the engine ----------------------------------------------

  /** What a caller does between two executions: assign defaults, and mark the nodes it touched. */
  datatype Update = Update(changes: seq<Change>, marked: seq<string>)

  ghost predicate Marks(u: Update) {
    forall c | c in u.changes :: c.node in u.marked
  }

  function SetOf(s: seq<string>): set<string> {
    set x | x in s
  }

  method ApplyChanges(graph: Graph, changes: seq<Change>)
    modifies graph
    ensures graph.edges == old(graph.edges) && graph.nodes == ChangedAll(old(graph.nodes), changes)
  {
    assert changes[0..] == changes;
    for k := 0 to |changes|
      invariant graph.edges == old(graph.edges)
      invariant ChangedAll(graph.nodes, changes[k..]) == ChangedAll(old(graph.nodes), changes)
    {
      assert changes[k..][0] == changes[k] && changes[k..][1..] == changes[k + 1..];
      graph.nodes := Changed(graph.nodes, changes[k]);
    }
  }

  ghost predicate IsRoundOf(h: Host, before: EngineState, round: Round, after: EngineState) {
    after == RoundDone(h, before, round)
  }

  /** One update and one execution are one round of the specification. */
  method RunRound(engine: ExecutionEngine, u: Update) returns (r: Result<(), GraphError>, ghost round: Round)
    requires UpToDate(engine.host, engine.graph.nodes, engine.dirty) && Mirrored(engine.graph.nodes)
      && Total(engine.graph.nodes)
    requires Marks(u) && !HasCycle(engine.graph.nodes)
    modifies engine, engine.graph
    ensures round.changes == u.changes && round.marked == SetOf(u.marked)
      && RoundAllowed(old(engine.graph.nodes), round)
    ensures forall ok :: IsRoundOf(engine.host, EngineState(ok, old(engine.graph.nodes), old(engine.dirty)), round,
      EngineState(r.Success?, engine.graph.nodes, engine.dirty))
    ensures UpToDate(engine.host, engine.graph.nodes, engine.dirty) && Mirrored(engine.graph.nodes)
      && Total(engine.graph.nodes)
    ensures !HasCycle(engine.graph.nodes)
  {
    ghost var st := EngineState(true, engine.graph.nodes, engine.dirty);
    ApplyChanges(engine.graph, u.changes);
    ghost var nodes := engine.graph.nodes;
    LinksStay(st.nodes, u.changes, st.dirty);
    engine.MarkDirty(u.marked);
    ghost var order;
    r, order := engine.Execute();
    round := Round(u.changes, SetOf(u.marked), order);
    RoundKeeps(engine.host, st, round);
    RoundKeepsCycles(engine.host, st, round);
  }

  lemma LinksStay(nodes: Nodes, changes: seq<Change>, dirty: set<string>)
    ensures HasCycle(ChangedAll(nodes, changes)) <==> HasCycle(nodes)
    ensures ClosedDownstream(nodes, dirty) ==> ClosedDownstream(ChangedAll(nodes, changes), dirty)
  {
    var nodes' := ChangedAll(nodes, changes);
    ChangedAllLinks(nodes, changes);
    forall id ensures Upstream(nodes, id) == Upstream(nodes', id) && Downstream(nodes, id) == Downstream(nodes', id) {
      LinksNeighbours(nodes, nodes', id);
    }
    SameCycles(nodes, nodes');
  }

  method RunRounds(engine: ExecutionEngine, updates: seq<Update>, was: bool)
      returns (ok: bool, ghost rounds: seq<Round>)
    requires UpToDate(engine.host, engine.graph.nodes, engine.dirty) && Mirrored(engine.graph.nodes)
      && Total(engine.graph.nodes)
    requires (forall u | u in updates :: Marks(u)) && !HasCycle(engine.graph.nodes)
    modifies engine, engine.graph
    ensures var st := EngineState(was, old(engine.graph.nodes), old(engine.dirty));
      && |rounds| == |updates| && RoundsAllowed(engine.host, st, rounds)
      && EngineState(ok, engine.graph.nodes, engine.dirty) == RoundsDone(engine.host, st, rounds)
    decreases |updates|
  {
    if updates == [] {
      return was, [];
    }
    var r, round := RunRound(engine, updates[0]);
    ghost var rest;
    ok, rest := RunRounds(engine, updates[1..], r.Success?);
    rounds := [round] + rest;
    assert rounds[1..] == rest;
  }

  /** What a run of the same graph with every node dirty would give. */
  ghost predicate AgreesWithFresh(h: Host, nodes: Nodes, ok: bool) {
    forall anew: Nodes, order: seq<string> | SameShape(nodes, anew) && TopoOrder(anew, order) ::
      var full := Executed(h, anew, anew.Keys, DirtyPart(order, anew.Keys));
      (ok <==> full.ok) && (ok ==> OutputsEqual(nodes, full.nodes))
  }

  /**
   * The engine on any acyclic graph built by the graph's own operations: mark every node, then update
   * and execute as often as wanted, failures included. The last execution succeeds exactly when a fresh
   * run would, and then all outputs are the same.
   */
  method RunIncrementally(engine: ExecutionEngine, updates: seq<Update>) returns (ok: bool)
    requires Linked(engine.graph.State()) && Total(engine.graph.nodes) && !HasCycle(engine.graph.nodes)
    requires engine.graph.nodes.Keys <= engine.dirty && updates != [] && forall u | u in updates :: Marks(u)
    modifies engine, engine.graph
    ensures AgreesWithFresh(engine.host, engine.graph.nodes, ok)
  {
    ghost var st := EngineState(true, engine.graph.nodes, engine.dirty);
    LinkedIsMirrored(engine.graph.State());
    AllDirtyIsUpToDate(engine.host, st.nodes, st.dirty);
    ghost var rounds;
    ok, rounds := RunRounds(engine, updates, true);
    forall anew: Nodes, order: seq<string> | SameShape(engine.graph.nodes, anew) && TopoOrder(anew, order)
      ensures var full := Executed(engine.host, anew, anew.Keys, DirtyPart(order, anew.Keys));
        (ok <==> full.ok) && (ok ==> OutputsEqual(engine.graph.nodes, full.nodes))
    {
      IncrementalEqualsFresh(engine.host, st, rounds, anew, order);
    }
  }
}
