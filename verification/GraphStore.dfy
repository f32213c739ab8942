/**
 * The graph store itself (packages/graph-store/src/repository.ts): the optimistic protocol with
 * the graph package's planner, and the repository object.
 */
module GraphStore {
  import opened Wrappers
  import opened DataKinds
  import opened Documents
  import opened DocumentRuns
  import opened Validations
  import opened OptimisticStore
  import opened Graphs
  import opened Traversals
  import opened Executions

  ghost function PlannerOf(rt: Runtime): Planner {
    Planner(d => DocumentOk(rt, d), (d, cs) => Planned(rt, d, cs), d => Materialized(rt, d).Success?)
  }

  lemma RevisionIsNotContent(rt: Runtime, d: Document, revision: int)
    ensures DocumentOk(rt, d.(revision := revision)) <==> DocumentOk(rt, d)
  {
    LayoutKeepsOk(rt, d, d.(revision := revision));
  }

  lemma LayoutBatchIsOk(rt: Runtime, d: Document, cs: seq<Command>)
    requires DocumentOk(rt, d) && ReducedAll(d, cs).Success? && forall c | c in cs :: !AffectsComputation(c)
    ensures DocumentOk(rt, ReducedAll(d, cs).value)
  {
    if cs != [] {
      LayoutBatchKeepsKey(d, cs);
      LayoutKeepsOk(rt, d, ReducedAll(d, cs).value);
    }
  }

  /** A planned document is acceptable, although layout-only batches are not validated. */
  lemma PlannedIsOk(rt: Runtime, d: Document, cs: seq<Command>)
    requires DocumentOk(rt, d) && Planned(rt, d, cs).Some?
    ensures DocumentOk(rt, Planned(rt, d, cs).value)
  {
    if !exists c :: c in cs && AffectsComputation(c) {
      LayoutBatchIsOk(rt, d, cs);
    }
  }

  lemma GraphPlannerIsSound(rt: Runtime)
    ensures Sound(PlannerOf(rt))
  {
    var p := PlannerOf(rt);
    forall d, cs | p.ok(d) && p.plan(d, cs).Some? ensures p.ok(p.plan(d, cs).value) {
      PlannedIsOk(rt, d, cs);
    }
    forall d: Document, r: int | p.ok(d) ensures p.ok(d.(revision := r)) && p.restorable(d.(revision := r)) {
      RevisionIsNotContent(rt, d, r);
    }
  }

  /** The empty document is acceptable, whatever the registry, so runs can start. */
  lemma EmptyDocumentIsOk(rt: Runtime, d: Document)
    requires d.nodes == [] && d.edges == []
    ensures DocumentOk(rt, d)
  {
    assert OrderedEdges(d.edges) == [];
    assert Materialized(rt, d) == Success(GraphState(map[], map[]));
    OrderedIsAcyclic(map[], []);
    assert Solves(rt.host, map[], map[]);
  }

  /**
   * Every document the store can reach from a record of valid ones, under any interleaving of batches
   * and undos, has no validation issues, materialises, is acyclic and runs without errors; so do the
   * documents that undo may bring back.
   */
  lemma ReachableDocumentsRun(rt: Runtime, start: Stored, moves: seq<Move>)
    requires DocumentOk(rt, start.current) && forall d | d in start.history :: DocumentOk(rt, d)
    ensures var w := Steps(PlannerOf(rt), World(start, map[], []), moves);
      && DocumentOk(rt, w.record.current) && (forall d | d in w.record.history :: DocumentOk(rt, d))
      && w.record == AppliedAll(PlannerOf(rt), start, OpsOf(w.writes))
      && w.record.current.revision == start.current.revision + |w.writes|
  {
    var p := PlannerOf(rt);
    GraphPlannerIsSound(rt);
    assert StoreOk(p, start);
    Linearizable(p, start, moves);
    ReachableDocumentsOk(p, start, OpsOf(Steps(p, World(start, map[], []), moves).writes));
  }

  // ----- one batch more than undo remembers ---------------------------------

  /** Panning by one unit at a time, from a place where the viewport is not. */
  function Pan(from: real, n: nat): seq<seq<Command>> {
    seq(n, i requires 0 <= i < n => [ViewportUpdate(Viewport(from + i as real, 0.0, 1.0))])
  }

  lemma PanPlanned(rt: Runtime, d: Document, v: Viewport)
    ensures Planned(rt, d, [ViewportUpdate(v)]) == Some(d.(viewport := Some(v), revision := d.revision + 1))
  {
    var cs := [ViewportUpdate(v)];
    assert cs[1..] == [];
    assert ReducedEach(d, cs) == Success(d.(viewport := Some(v), revision := d.revision + 1));
    assert forall c | c in cs :: !AffectsComputation(c);
  }

  /** Every step of the pan commits. */
  lemma PanCommits(rt: Runtime, s: Stored, from: real, n: nat)
    ensures AllCommit(PlannerOf(rt), s, Pan(from, n))
  {
    var p, bs := PlannerOf(rt), Pan(from, n);
    forall i | 0 <= i < n ensures bs[i] != [] && p.plan(RunBatches(p, s, bs[..i]).current, bs[i]).Some? {
      PanPlanned(rt, RunBatches(p, s, bs[..i]).current, Viewport(from + i as real, 0.0, 1.0));
    }
  }

  /** After its first step the viewport is where the pan began. */
  lemma PanStarts(rt: Runtime, s: Stored, from: real, bs: seq<seq<Command>>)
    requires |bs| == 1 && bs[0] == [ViewportUpdate(Viewport(from, 0.0, 1.0))]
    ensures RunBatches(PlannerOf(rt), s, bs).current.viewport == Some(Viewport(from, 0.0, 1.0))
  {
    var p, v := PlannerOf(rt), Viewport(from, 0.0, 1.0);
    PanPlanned(rt, s.current, v);
    assert bs[..0] == [];
    assert RunBatches(p, s, bs) == Applied(p, s, Batch([ViewportUpdate(v)], None));
  }

  /** As many pans as undo remembers, and one more, all undone, end elsewhere than they started. */
  lemma PanIsLost(rt: Runtime, s: Stored, from: real, bs: seq<seq<Command>>)
    requires StoreOk(PlannerOf(rt), s) && |s.history| <= HISTORY_LIMIT
    requires bs == Pan(from, HISTORY_LIMIT + 1) && s.current.viewport != Some(Viewport(from, 0.0, 1.0))
    ensures Content(RunUndos(PlannerOf(rt), RunBatches(PlannerOf(rt), s, bs), |bs|).current) != Content(s.current)
  {
    GraphPlannerIsSound(rt);
    PanCommits(rt, s, from, HISTORY_LIMIT + 1);
    AllUndoneIff(PlannerOf(rt), s, bs);
    PanStarts(rt, s, from, bs[..1]);
  }

  /** One hundred and one batches that move the viewport all commit; undoing them all does not give the start back. */
  lemma StartIsLost(rt: Runtime, start: Document) returns (bs: seq<seq<Command>>)
    requires DocumentOk(rt, start)
    ensures var p, s := PlannerOf(rt), Stored(start, []);
      && |bs| == HISTORY_LIMIT + 1 && AllCommit(p, s, bs)
      && Content(RunUndos(p, RunBatches(p, s, bs), |bs|).current) != Content(start)
  {
    var from := if start.viewport.Some? then start.viewport.value.x + 1.0 else 0.0;
    bs := Pan(from, HISTORY_LIMIT + 1);
    PanCommits(rt, Stored(start, []), from, HISTORY_LIMIT + 1);
    PanIsLost(rt, Stored(start, []), from, bs);
  }

  // ----- the repository object --------------------------------------------

  datatype BatchResult = BatchApplied(document: Document) | BatchRejected

  /** Other clients leave the record alone or raise its revision. */
  ghost predicate Advances(s: Stored, t: Stored) {
    t == s || t.current.revision > s.current.revision
  }

  class GraphRepository {
    const rt: Runtime
    var record: Stored

    constructor (rt: Runtime, record: Stored)
      ensures this.rt == rt && this.record == record
    {
      this.rt, this.record := rt, record;
    }

    /** The commit transaction; `false` reports a revision that has moved. */
    method CommitGraphState(snapshotRevision: int, expected: Option<int>, next: Stored)
        returns (r: Result<bool, GraphError>)
      modifies this
      ensures r.Failure? <==> !RevisionExpected(old(record).current, expected)
      ensures r.Success? ==> (r.value <==> old(record).current.revision == snapshotRevision)
      ensures record == if r == Success(true) then next else old(record)
    {
      var current := record;
      if !RevisionExpected(current.current, expected) {
        return Failure(RevisionConflict);
      }
      if current.current.revision != snapshotRevision {
        return Success(false);
      }
      record := next;
      return Success(true);
    }

    /**
     * The read, plan, commit loop. `others[k]` is what other clients do to the record between
     * the k-th read and the k-th commit; `before` is the record the successful write replaced.
     */
    method ApplyBatch(cs: seq<Command>, expected: Option<int>, others: seq<Stored -> Stored>)
      returns (r: Result<BatchResult, GraphError>, ghost before: Stored)
      requires forall k, s | 0 <= k < |others| :: Advances(s, others[k](s))
      requires RegistryOk(rt)
      modifies this
      ensures r.Success? && r.value.BatchApplied? ==>
        Planned(rt, before.current, cs) == Some(r.value.document) && RevisionExpected(before.current, expected)
      ensures r.Success? && r.value.BatchApplied? && cs != [] ==> record == Committed(before, r.value.document)
      ensures r == Success(BatchRejected) ==> Planned(rt, before.current, cs).None?
      ensures r.Failure? ==> expected.Some? && before.current.revision != expected.value
      ensures others == [] ==>
        before == old(record) && (r.Failure? || r.value.BatchRejected? || cs == [] ==> record == old(record))
    {
      var pending := others;
      while true
        invariant forall k, s | 0 <= k < |pending| :: Advances(s, pending[k](s))
        invariant others == [] ==> pending == [] && record == old(record)
        decreases |pending|
      {
        var state := record;
        before := state;
        if !RevisionExpected(state.current, expected) {
          return Failure(RevisionConflict), before;
        }
        var plan := PlanGraphCommands(rt, state.current, cs);
        if !plan.valid {
          return Success(BatchRejected), before;
        }
        var next := plan.document.value;
        if cs == [] {
          return Success(BatchApplied(next)), before;
        }
        if pending != [] {
          var interfere := pending[0];
          record := interfere(record);
        }
        before := record;
        var result := CommitGraphState(state.current.revision, expected, Committed(state, next));
        if result.Failure? {
          return Failure(result.error), before;
        }
        if result.value {
          return Success(BatchApplied(next)), before;
        }
        pending := pending[1..];
      }
    }

    /** Undo, in one transaction. */
    method UndoLast(expected: Option<int>) returns (r: Result<Document, GraphError>)
      modifies this
      ensures r.Success? <==> Undone(PlannerOf(rt), old(record), expected).Success?
      ensures record == Applied(PlannerOf(rt), old(record), Undo(expected))
      ensures r.Success? ==> r.value == record.current
    {
      if !RevisionExpected(record.current, expected) {
        return Failure(RevisionConflict);
      }
      if record.history == [] {
        return Success(record.current);
      }
      var previous := record.history[|record.history| - 1];
      var next := previous.(revision := record.current.revision + 1);
      var checked := MaterializeGraph(rt, next);
      if checked.Failure? {
        return Failure(checked.error);
      }
      record := Stored(next, record.history[..|record.history| - 1]);
      return Success(next);
    }
  }
}
