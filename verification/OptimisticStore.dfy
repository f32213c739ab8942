/**
 * The optimistic protocol of the graph store (packages/graph-store/src/repository.ts): one
 * stored record that several clients read, plan against outside any transaction, and overwrite
 * only if its revision has not moved; and the bounded undo history.
 *
 * The protocol never looks inside a document, so planning is a parameter here; `GraphStore`
 * supplies the planner of the graph package.
 */
module OptimisticStore {
  import opened Wrappers
  import opened DataKinds
  import opened Documents

  /** What the store asks of documents: acceptability, planning, and whether undo may restore one. */
  datatype Planner = Planner(
    ok: Document -> bool,
    plan: (Document, seq<Command>) -> Option<Document>,
    restorable: Document -> bool)

  /** Plans lead from acceptable to acceptable documents, one revision up; revisions do not matter to acceptability. */
  ghost predicate Sound(p: Planner) {
    && (forall d, cs :: p.ok(d) && p.plan(d, cs).Some? ==> p.ok(p.plan(d, cs).value))
    && (forall d, cs :: cs != [] && p.plan(d, cs).Some? ==> p.plan(d, cs).value.revision == d.revision + 1)
    && (forall d: Document, r: int :: p.ok(d) ==> p.ok(d.(revision := r)) && p.restorable(d.(revision := r)))
  }

  datatype Stored = Stored(current: Document, history: seq<Document>)

  const HISTORY_LIMIT: nat := 100

  /** `s.slice(-n)` for positive n. */
  function LastOf(s: seq<Document>, n: nat): seq<Document> {
    if |s| <= n then s else s[|s| - n..]
  }

  predicate RevisionExpected(d: Document, expected: Option<int>) {
    expected.None? || d.revision == expected.value
  }

  // ----- transactions on the record ---------------------------------------

  function Committed(s: Stored, next: Document): Stored {
    Stored(next, LastOf(s.history + [s.current], HISTORY_LIMIT))
  }

  /** Undo reads and writes in one transaction. With an empty history it writes nothing. */
  function Undone(p: Planner, s: Stored, expected: Option<int>): Result<Stored, GraphError> {
    if !RevisionExpected(s.current, expected) then Failure(RevisionConflict)
    else if s.history == [] then Success(s)
    else
      var next := s.history[|s.history| - 1].(revision := s.current.revision + 1);
      if !p.restorable(next) then Failure(InvalidConnection)
      else Success(Stored(next, s.history[..|s.history| - 1]))
  }

  datatype StoreOp = Batch(commands: seq<Command>, expected: Option<int>) | Undo(expected: Option<int>)

  /** One operation performed alone; an operation that throws or is rejected writes nothing. */
  ghost function Applied(p: Planner, s: Stored, op: StoreOp): Stored {
    match op
    case Batch(cs, expected) =>
      if !RevisionExpected(s.current, expected) || cs == [] then s
      else
        var next := p.plan(s.current, cs);
        if next.None? then s else Committed(s, next.value)
    case Undo(expected) =>
      var next := Undone(p, s, expected);
      if next.Failure? then s else next.value
  }

  ghost function AppliedAll(p: Planner, s: Stored, ops: seq<StoreOp>): Stored
    decreases |ops|
  {
    if ops == [] then s else AppliedAll(p, Applied(p, s, ops[0]), ops[1..])
  }

  // ----- every reachable document runs ------------------------------------

  ghost predicate StoreOk(p: Planner, s: Stored) {
    p.ok(s.current) && forall i | 0 <= i < |s.history| :: p.ok(s.history[i])
  }

  lemma OperationKeepsOk(p: Planner, s: Stored, op: StoreOp)
    requires Sound(p) && StoreOk(p, s)
    ensures StoreOk(p, Applied(p, s, op))
    ensures Applied(p, s, op) == s || Applied(p, s, op).current.revision == s.current.revision + 1
    ensures op.Undo? && RevisionExpected(s.current, op.expected) ==> Undone(p, s, op.expected).Success?
  {
    if op.Undo? && s.history != [] {
      assert p.ok(s.history[|s.history| - 1]);
    }
  }

  /**
   * Every document reachable by any mix of batches and undos is acceptable, and no undo throws
   * on the way.
   */
  lemma {:induction false} ReachableDocumentsOk(p: Planner, s: Stored, ops: seq<StoreOp>)
    requires Sound(p) && StoreOk(p, s)
    ensures StoreOk(p, AppliedAll(p, s, ops))
    ensures s.current.revision <= AppliedAll(p, s, ops).current.revision <= s.current.revision + |ops|
    decreases |ops|
  {
    if ops != [] {
      OperationKeepsOk(p, s, ops[0]);
      ReachableDocumentsOk(p, Applied(p, s, ops[0]), ops[1..]);
    }
  }

  // ----- undo is a bounded stack ------------------------------------------

  /** Well-bracketed histories: each batch is undone by the undo that closes its bracket. */
  datatype Brackets = Done | Nest(commands: seq<Command>, inner: Brackets, rest: Brackets)

  function Depth(w: Brackets): nat {
    match w
    case Done => 0
    case Nest(_, inner, rest) => var a, b := Depth(inner) + 1, Depth(rest); if a < b then b else a
  }

  function Pairs(w: Brackets): nat {
    match w
    case Done => 0
    case Nest(_, inner, rest) => 1 + Pairs(inner) + Pairs(rest)
  }

  /** Runs the word; `None` when some batch does not commit. */
  ghost function RunBrackets(p: Planner, s: Stored, w: Brackets): Option<Stored>
    decreases w
  {
    match w
    case Done => Some(s)
    case Nest(cs, inner, rest) =>
      if cs == [] || p.plan(s.current, cs).None? then None
      else
        var afterInner := RunBrackets(p, Applied(p, s, Batch(cs, None)), inner);
        if afterInner.None? then None
        else RunBrackets(p, Applied(p, afterInner.value, Undo(None)), rest)
  }

  function Content(d: Document): Document {
    d.(revision := 0)
  }

  lemma LastOfTwice(s: seq<Document>, m: nat, n: nat)
    ensures LastOf(LastOf(s, m), n) == LastOf(s, if m < n then m else n)
  {
  }

  lemma LastOfPushed(s: seq<Document>, d: Document, n: nat)
    requires n > 0
    ensures LastOf(s + [d], n) == LastOf(s, n - 1) + [d]
  {
  }

  /** Undoing right above a batch brings back what the batch replaced. */
  lemma BatchThenUndo(p: Planner, s: Stored, cs: seq<Command>, s2: Stored, depth: nat)
    requires Sound(p) && StoreOk(p, s) && StoreOk(p, s2) && |s.history| <= HISTORY_LIMIT && depth < HISTORY_LIMIT
    requires cs != [] && p.plan(s.current, cs).Some?
    requires s2.history == LastOf(Applied(p, s, Batch(cs, None)).history, HISTORY_LIMIT - depth)
    ensures var s3 := Applied(p, s2, Undo(None));
      && Content(s3.current) == Content(s.current) && s3.current.revision == s2.current.revision + 1
      && s3.history == LastOf(s.history, HISTORY_LIMIT - (depth + 1))
  {
    var room := HISTORY_LIMIT - depth;
    LastOfTwice(s.history + [s.current], HISTORY_LIMIT, room);
    LastOfPushed(s.history, s.current, room);
    assert s2.history == LastOf(s.history, room - 1) + [s.current];
    OperationKeepsOk(p, s2, Undo(None));
  }

  lemma BatchGrows(p: Planner, s: Stored, cs: seq<Command>)
    requires Sound(p) && StoreOk(p, s) && cs != [] && p.plan(s.current, cs).Some?
    ensures var s1 := Applied(p, s, Batch(cs, None));
      StoreOk(p, s1) && |s1.history| <= HISTORY_LIMIT && s1.current.revision == s.current.revision + 1
  {
    OperationKeepsOk(p, s, Batch(cs, None));
  }

  /** The three parts of a bracket: the batch, what it encloses, and the undo before the rest. */
  lemma NestParts(p: Planner, s: Stored, cs: seq<Command>, inner: Brackets, rest: Brackets)
    requires RunBrackets(p, s, Nest(cs, inner, rest)).Some?
    ensures cs != [] && p.plan(s.current, cs).Some?
    ensures var afterInner := RunBrackets(p, Applied(p, s, Batch(cs, None)), inner);
      && afterInner.Some?
      && RunBrackets(p, s, Nest(cs, inner, rest)) == RunBrackets(p, Applied(p, afterInner.value, Undo(None)), rest)
  {
  }

  /** What a run of brackets of some depth and size has restored. */
  ghost predicate Restored(p: Planner, s: Stored, t: Stored, depth: nat, pairs: nat)
    requires depth <= HISTORY_LIMIT
  {
    && StoreOk(p, t) && |t.history| <= HISTORY_LIMIT
    && Content(t.current) == Content(s.current)
    && t.current.revision == s.current.revision + 2 * pairs
    && t.history == LastOf(s.history, HISTORY_LIMIT - depth)
  }

  lemma UndoCloses(p: Planner, s: Stored, cs: seq<Command>, s2: Stored, depth: nat, pairs: nat)
    requires Sound(p) && StoreOk(p, s) && |s.history| <= HISTORY_LIMIT && depth < HISTORY_LIMIT
    requires cs != [] && p.plan(s.current, cs).Some?
    requires Restored(p, Applied(p, s, Batch(cs, None)), s2, depth, pairs)
    ensures Restored(p, s, Applied(p, s2, Undo(None)), depth + 1, pairs + 1)
  {
    BatchGrows(p, s, cs);
    BatchThenUndo(p, s, cs, s2, depth);
    OperationKeepsOk(p, s2, Undo(None));
  }

  lemma RestoredTwice(p: Planner, s: Stored, t: Stored, u: Stored, m: nat, n: nat, i: nat, j: nat)
    requires m <= HISTORY_LIMIT && n <= HISTORY_LIMIT && Restored(p, s, t, m, i) && Restored(p, t, u, n, j)
    ensures Restored(p, s, u, if m < n then n else m, i + j)
  {
    LastOfTwice(s.history, HISTORY_LIMIT - m, HISTORY_LIMIT - n);
  }

  /** What a bracket restored and what the rest restored together. */
  lemma NestRestored(p: Planner, s: Stored, w: Brackets, s3: Stored, t: Stored)
    requires w.Nest? && Depth(w) <= HISTORY_LIMIT
    requires Restored(p, s, s3, Depth(w.inner) + 1, Pairs(w.inner) + 1)
    requires Restored(p, s3, t, Depth(w.rest), Pairs(w.rest))
    ensures Restored(p, s, t, Depth(w), Pairs(w))
  {
    RestoredTwice(p, s, s3, t, Depth(w.inner) + 1, Depth(w.rest), Pairs(w.inner) + 1, Pairs(w.rest));
  }

  /**
   * A well-bracketed run whose nesting never exceeds the limit restores the content it
   * started from; every write raised the revision by one; and the history below is intact
   * but for the oldest entries that no longer fit.
   */
  lemma {:induction false} BracketsRestore(p: Planner, s: Stored, w: Brackets)
    requires Sound(p) && StoreOk(p, s) && |s.history| <= HISTORY_LIMIT
    requires Depth(w) <= HISTORY_LIMIT && RunBrackets(p, s, w).Some?
    ensures Restored(p, s, RunBrackets(p, s, w).value, Depth(w), Pairs(w))
    decreases w
  {
    if w.Nest? {
      NestParts(p, s, w.commands, w.inner, w.rest);
      BatchGrows(p, s, w.commands);
      var s1 := Applied(p, s, Batch(w.commands, None));
      BracketsRestore(p, s1, w.inner);
      var s2 := RunBrackets(p, s1, w.inner).value;
      UndoCloses(p, s, w.commands, s2, Depth(w.inner), Pairs(w.inner));
      var s3 := Applied(p, s2, Undo(None));
      BracketsRestore(p, s3, w.rest);
      NestRestored(p, s, w, s3, RunBrackets(p, s, w).value);
    }
  }

  ghost function RunBatches(p: Planner, s: Stored, bs: seq<seq<Command>>): Stored
    decreases |bs|
  {
    if bs == [] then s else Applied(p, RunBatches(p, s, bs[..|bs| - 1]), Batch(bs[|bs| - 1], None))
  }

  ghost function RunUndos(p: Planner, s: Stored, n: nat): Stored
    decreases n
  {
    if n == 0 then s else RunUndos(p, Applied(p, s, Undo(None)), n - 1)
  }

  ghost predicate AllCommit(p: Planner, s: Stored, bs: seq<seq<Command>>) {
    forall i | 0 <= i < |bs| :: bs[i] != [] && p.plan(RunBatches(p, s, bs[..i]).current, bs[i]).Some?
  }

  /** The documents before each batch, oldest first. */
  ghost function Replaced(p: Planner, s: Stored, bs: seq<seq<Command>>): seq<Document>
    decreases |bs|
  {
    if bs == [] then [] else Replaced(p, s, bs[..|bs| - 1]) + [RunBatches(p, s, bs[..|bs| - 1]).current]
  }

  lemma {:induction false} ReplacedAt(p: Planner, s: Stored, bs: seq<seq<Command>>, k: nat)
    requires k < |bs|
    ensures |Replaced(p, s, bs)| == |bs| && Replaced(p, s, bs)[k] == RunBatches(p, s, bs[..k]).current
    decreases |bs|
  {
    var last := |bs| - 1;
    if k < last {
      assert bs[..last][..k] == bs[..k];
      ReplacedAt(p, s, bs[..last], k);
    } else if last > 0 {
      ReplacedAt(p, s, bs[..last], 0);
    }
  }

  lemma PrefixCommits(p: Planner, s: Stored, bs: seq<seq<Command>>)
    requires AllCommit(p, s, bs) && bs != []
    ensures AllCommit(p, s, bs[..|bs| - 1])
    ensures p.plan(RunBatches(p, s, bs[..|bs| - 1]).current, bs[|bs| - 1]).Some? && bs[|bs| - 1] != []
  {
    var front := bs[..|bs| - 1];
    forall i | 0 <= i < |front| ensures front[i] != [] && p.plan(RunBatches(p, s, front[..i]).current, front[i]).Some? {
      assert front[i] == bs[i] && front[..i] == bs[..i];
    }
  }

  /** The history after committed batches: what was there, then the documents before each of them, newest kept. */
  lemma {:induction false} BatchesStack(p: Planner, s: Stored, bs: seq<seq<Command>>)
    requires Sound(p) && StoreOk(p, s) && |s.history| <= HISTORY_LIMIT && AllCommit(p, s, bs)
    ensures StoreOk(p, RunBatches(p, s, bs))
    ensures RunBatches(p, s, bs).history == LastOf(s.history + Replaced(p, s, bs), HISTORY_LIMIT)
    decreases |bs|
  {
    if bs == [] {
      assert s.history + [] == s.history;
    } else {
      var front, last := bs[..|bs| - 1], bs[|bs| - 1];
      PrefixCommits(p, s, bs);
      BatchesStack(p, s, front);
      var before := RunBatches(p, s, front);
      OperationKeepsOk(p, before, Batch(last, None));
      PushedTwice(s.history + Replaced(p, s, front), before.current);
      assert s.history + (Replaced(p, s, front) + [before.current]) ==
        (s.history + Replaced(p, s, front)) + [before.current];
    }
  }

  lemma PushedTwice(s: seq<Document>, d: Document)
    ensures LastOf(LastOf(s, HISTORY_LIMIT) + [d], HISTORY_LIMIT) == LastOf(s + [d], HISTORY_LIMIT)
  {
    LastOfPushed(s, d, HISTORY_LIMIT);
    LastOfPushed(LastOf(s, HISTORY_LIMIT), d, HISTORY_LIMIT);
    LastOfTwice(s, HISTORY_LIMIT, HISTORY_LIMIT - 1);
  }

  lemma {:induction false} UndosUnstack(p: Planner, s: Stored, n: nat)
    requires Sound(p) && StoreOk(p, s)
    ensures Content(RunUndos(p, s, n).current) == Content(
      if n == 0 || s.history == [] then s.current
      else if n <= |s.history| then s.history[|s.history| - n]
      else s.history[0])
    decreases n
  {
    if n > 0 {
      OperationKeepsOk(p, s, Undo(None));
      UndosUnstack(p, Applied(p, s, Undo(None)), n - 1);
    }
  }

  /**
   * How far undo reaches, exactly: n committed batches followed by n undos give the start
   * content when n is within the limit, and otherwise the content after the first n - 100 batches.
   */
  lemma UndoReach(p: Planner, s: Stored, bs: seq<seq<Command>>)
    requires Sound(p) && StoreOk(p, s) && |s.history| <= HISTORY_LIMIT && AllCommit(p, s, bs)
    ensures Content(RunUndos(p, RunBatches(p, s, bs), |bs|).current) ==
      Content(RunBatches(p, s, bs[..if |bs| <= HISTORY_LIMIT then 0 else |bs| - HISTORY_LIMIT]).current)
  {
    if bs == [] {
      assert bs[..0] == bs;
    } else {
      var k: nat := if |bs| <= HISTORY_LIMIT then 0 else |bs| - HISTORY_LIMIT;
      BatchesStack(p, s, bs);
      ReplacedAt(p, s, bs, k);
      PopAll(p, RunBatches(p, s, bs), s.history, Replaced(p, s, bs), k);
    }
  }

  lemma PopAll(p: Planner, t: Stored, before: seq<Document>, pushed: seq<Document>, k: nat)
    requires Sound(p) && StoreOk(p, t) && pushed != [] && t.history == LastOf(before + pushed, HISTORY_LIMIT)
    requires k == if |pushed| <= HISTORY_LIMIT then 0 else |pushed| - HISTORY_LIMIT
    ensures Content(RunUndos(p, t, |pushed|).current) == Content(pushed[k])
  {
    OldestReached(before, pushed);
    UndosUnstack(p, t, |pushed|);
  }

  /** Where as many pops as pushes arrive in the bounded stack. */
  lemma OldestReached(before: seq<Document>, pushed: seq<Document>)
    requires pushed != []
    ensures var stack, n := LastOf(before + pushed, HISTORY_LIMIT), |pushed|;
      if n <= HISTORY_LIMIT then n <= |stack| && stack[|stack| - n] == pushed[0]
      else |stack| == HISTORY_LIMIT && stack[0] == pushed[n - HISTORY_LIMIT]
  {
  }

  /**
   * When all of n committed batches can be undone: exactly when they are within the limit, or the
   * batches beyond it left the content as it was.
   */
  lemma AllUndoneIff(p: Planner, s: Stored, bs: seq<seq<Command>>)
    requires Sound(p) && StoreOk(p, s) && |s.history| <= HISTORY_LIMIT && AllCommit(p, s, bs)
    ensures Content(RunUndos(p, RunBatches(p, s, bs), |bs|).current) == Content(s.current) <==>
      |bs| <= HISTORY_LIMIT || Content(RunBatches(p, s, bs[..|bs| - HISTORY_LIMIT]).current) == Content(s.current)
  {
    UndoReach(p, s, bs);
    if |bs| <= HISTORY_LIMIT {
      assert bs[..0] == [];
    }
  }

  // ----- several clients --------------------------------------------------

  /** Where a client is; `readAt` counts the writes that preceded its read. */
  datatype Client =
    | Idle
    | Reading(commands: seq<Command>, expected: Option<int>)
    | Planning(commands: seq<Command>, expected: Option<int>, snapshot: Stored, readAt: nat)

  datatype Write = Write(client: nat, op: StoreOp, before: Stored, after: Stored)

  datatype World = World(record: Stored, clients: map<nat, Client>, writes: seq<Write>)

  datatype Action =
    | Begin(commands: seq<Command>, expected: Option<int>)
    | Read
    | Commit
    | UndoNow(expected: Option<int>)

  function Phase(w: World, c: nat): Client {
    if c in w.clients then w.clients[c] else Idle
  }

  function Stay(w: World, c: nat, next: Client): World {
    w.(clients := w.clients[c := next])
  }

  function Wrote(w: World, c: nat, op: StoreOp, after: Stored): World {
    World(after, w.clients[c := Idle], w.writes + [Write(c, op, w.record, after)])
  }

  /**
   * One step of one client; steps that do not fit its phase do nothing. Between `Read` and
   * `Commit` any other client may step. A client that finishes or throws is idle again.
   */
  ghost function Step(p: Planner, w: World, c: nat, a: Action): World {
    match (Phase(w, c), a)
    case (Idle, Begin(cs, expected)) => Stay(w, c, Reading(cs, expected))
    case (Idle, UndoNow(expected)) =>
      var next := Undone(p, w.record, expected);
      if next.Failure? || w.record.history == [] then w
      else Wrote(w, c, Undo(expected), next.value)
    case (Reading(cs, expected), Read) =>
      if !RevisionExpected(w.record.current, expected) then Stay(w, c, Idle)
      else Stay(w, c, Planning(cs, expected, w.record, |w.writes|))
    case (Planning(cs, expected, snapshot, _), Commit) =>
      var next := p.plan(snapshot.current, cs);
      if next.None? || cs == [] then Stay(w, c, Idle)
      else if !RevisionExpected(w.record.current, expected) then Stay(w, c, Idle)
      else if w.record.current.revision != snapshot.current.revision then Stay(w, c, Reading(cs, expected))
      else Wrote(w, c, Batch(cs, expected), Committed(snapshot, next.value))
    case _ => w
  }

  datatype Move = Move(client: nat, action: Action)

  ghost function Steps(p: Planner, w: World, moves: seq<Move>): World
    decreases |moves|
  {
    if moves == [] then w else Steps(p, Step(p, w, moves[0].client, moves[0].action), moves[1..])
  }

  function StateAt(start: Stored, w: World, k: nat): Stored
    requires k <= |w.writes|
  {
    if k == 0 then start else w.writes[k - 1].after
  }

  /**
   * The writes form a chain from `start` to the record; each is its operation performed alone
   * on the record it replaced, raising the revision by one; and each planning client holds the
   * record as it was after `readAt` writes, none of the later ones its own.
   */
  ghost predicate Consistent(p: Planner, start: Stored, w: World) {
    && StoreOk(p, w.record)
    && w.record == StateAt(start, w, |w.writes|)
    && (forall k | 0 <= k < |w.writes| :: GoodWrite(p, start, w, k))
    && (forall c | c in w.clients && w.clients[c].Planning? :: GoodSnapshot(start, w, c))
  }

  ghost predicate GoodWrite(p: Planner, start: Stored, w: World, k: nat)
    requires k < |w.writes|
  {
    var x := w.writes[k];
    && x.before == StateAt(start, w, k)
    && x.after == Applied(p, x.before, x.op)
    && x.after.current.revision == x.before.current.revision + 1
    && RevisionExpected(x.before.current, x.op.expected)
  }

  ghost predicate GoodSnapshot(start: Stored, w: World, c: nat)
    requires c in w.clients && w.clients[c].Planning?
  {
    var q := w.clients[c];
    && q.readAt <= |w.writes|
    && q.snapshot == StateAt(start, w, q.readAt)
    && RevisionExpected(q.snapshot.current, q.expected)
    && forall k | q.readAt <= k < |w.writes| :: w.writes[k].client != c
  }

  lemma {:induction false} RevisionCountsWrites(p: Planner, start: Stored, w: World, k: nat)
    requires k <= |w.writes| && forall k | 0 <= k < |w.writes| :: GoodWrite(p, start, w, k)
    ensures StateAt(start, w, k).current.revision == start.current.revision + k
  {
    if k > 0 {
      RevisionCountsWrites(p, start, w, k - 1);
      assert GoodWrite(p, start, w, k - 1);
    }
  }

  lemma WriteKeeps(p: Planner, start: Stored, w: World, c: nat, op: StoreOp, after: Stored)
    requires Sound(p) && Consistent(p, start, w) && StoreOk(p, after)
    requires after == Applied(p, w.record, op) && after.current.revision == w.record.current.revision + 1
    requires RevisionExpected(w.record.current, op.expected)
    ensures Consistent(p, start, Wrote(w, c, op, after))
  {
    var w' := Wrote(w, c, op, after);
    forall k | 0 <= k < |w'.writes| ensures GoodWrite(p, start, w', k) {
      if k < |w.writes| {
        assert GoodWrite(p, start, w, k);
      }
    }
    forall d | d in w'.clients && w'.clients[d].Planning? ensures GoodSnapshot(start, w', d) {
      assert GoodSnapshot(start, w, d);
    }
  }

  lemma StayKeeps(p: Planner, start: Stored, w: World, c: nat, next: Client)
    requires Sound(p) && Consistent(p, start, w)
    requires next.Planning? ==>
      next.snapshot == w.record && next.readAt == |w.writes| && RevisionExpected(w.record.current, next.expected)
    ensures Consistent(p, start, Stay(w, c, next))
  {
    var w' := Stay(w, c, next);
    forall k | 0 <= k < |w'.writes| ensures GoodWrite(p, start, w', k) {
      assert GoodWrite(p, start, w, k);
    }
    forall d | d in w'.clients && w'.clients[d].Planning? ensures GoodSnapshot(start, w', d) {
      assert d != c ==> GoodSnapshot(start, w, d);
    }
  }

  /** A matching revision means nothing was written since the read: the snapshot is the record. */
  lemma MatchingRevision(p: Planner, start: Stored, w: World, c: nat)
    requires Sound(p) && Consistent(p, start, w) && c in w.clients && w.clients[c].Planning?
    ensures w.record.current.revision == w.clients[c].snapshot.current.revision <==> w.clients[c].readAt == |w.writes|
    ensures w.clients[c].readAt == |w.writes| ==> w.record == w.clients[c].snapshot
  {
    assert GoodSnapshot(start, w, c);
    RevisionCountsWrites(p, start, w, w.clients[c].readAt);
    RevisionCountsWrites(p, start, w, |w.writes|);
  }

  lemma StepKeeps(p: Planner, start: Stored, w: World, c: nat, a: Action)
    requires Sound(p) && Consistent(p, start, w)
    ensures Consistent(p, start, Step(p, w, c, a))
  {
    match (Phase(w, c), a) {
      case (Idle, Begin(cs, expected)) => StayKeeps(p, start, w, c, Reading(cs, expected));
      case (Idle, UndoNow(expected)) =>
        OperationKeepsOk(p, w.record, Undo(expected));
        if Undone(p, w.record, expected).Success? && w.record.history != [] {
          WriteKeeps(p, start, w, c, Undo(expected), Undone(p, w.record, expected).value);
        }
      case (Reading(cs, expected), Read) =>
        StayKeeps(p, start, w, c,
          if !RevisionExpected(w.record.current, expected) then Idle else Planning(cs, expected, w.record, |w.writes|));
      case (Planning(cs, expected, snapshot, _), Commit) =>
        MatchingRevision(p, start, w, c);
        StayKeeps(p, start, w, c, Idle);
        StayKeeps(p, start, w, c, Reading(cs, expected));
        var next := p.plan(snapshot.current, cs);
        if next.Some? && cs != [] && RevisionExpected(w.record.current, expected)
          && w.record.current.revision == snapshot.current.revision {
          OperationKeepsOk(p, w.record, Batch(cs, expected));
          WriteKeeps(p, start, w, c, Batch(cs, expected), Committed(snapshot, next.value));
        }
      case _ =>
    }
  }

  lemma {:induction false} StepsKeep(p: Planner, start: Stored, w: World, moves: seq<Move>)
    requires Sound(p) && Consistent(p, start, w)
    ensures Consistent(p, start, Steps(p, w, moves))
    decreases |moves|
  {
    if moves != [] {
      StepKeeps(p, start, w, moves[0].client, moves[0].action);
      StepsKeep(p, start, Step(p, w, moves[0].client, moves[0].action), moves[1..]);
    }
  }

  function OpsOf(writes: seq<Write>): (r: seq<StoreOp>)
    ensures |r| == |writes| && forall i | 0 <= i < |r| :: r[i] == writes[i].op
  {
    seq(|writes|, i requires 0 <= i < |writes| => writes[i].op)
  }

  lemma {:induction false} ChainReplays(p: Planner, start: Stored, w: World, k: nat)
    requires k <= |w.writes| && forall k | 0 <= k < |w.writes| :: GoodWrite(p, start, w, k)
    ensures AppliedAll(p, StateAt(start, w, k), OpsOf(w.writes)[k..]) == StateAt(start, w, |w.writes|)
    decreases |w.writes| - k
  {
    var ops := OpsOf(w.writes);
    if k < |w.writes| {
      assert GoodWrite(p, start, w, k);
      assert ops[k..][0] == ops[k] && ops[k..][1..] == ops[k + 1..];
      ChainReplays(p, start, w, k + 1);
    }
  }

  /**
   * The store is linearizable. Under any interleaving, the record equals the writing operations
   * performed one after another in the order of their writes; each raised the revision by one;
   * each committed document is the plan of exactly the document it replaced; and every document
   * on the way is acceptable.
   */
  lemma Linearizable(p: Planner, start: Stored, moves: seq<Move>)
    requires Sound(p) && StoreOk(p, start)
    ensures var w := Steps(p, World(start, map[], []), moves);
      && w.record == AppliedAll(p, start, OpsOf(w.writes))
      && w.record.current.revision == start.current.revision + |w.writes|
      && StoreOk(p, w.record)
      && forall k | 0 <= k < |w.writes| && w.writes[k].op.Batch? ::
           p.plan(w.writes[k].before.current, w.writes[k].op.commands) == Some(w.writes[k].after.current)
  {
    var w0 := World(start, map[], []);
    StepsKeep(p, start, w0, moves);
    var w := Steps(p, w0, moves);
    ChainReplays(p, start, w, 0);
    RevisionCountsWrites(p, start, w, |w.writes|);
    assert OpsOf(w.writes)[0..] == OpsOf(w.writes);
    forall k | 0 <= k < |w.writes| && w.writes[k].op.Batch?
      ensures p.plan(w.writes[k].before.current, w.writes[k].op.commands) == Some(w.writes[k].after.current)
    {
      assert GoodWrite(p, start, w, k);
    }
  }

  /**
   * A commit step retries exactly when someone else has written since the client's read, and
   * writes only when nobody has; a caller that named a revision is refused instead of retried.
   */
  lemma CommitStep(p: Planner, start: Stored, w: World, c: nat)
    requires Sound(p) && Consistent(p, start, w) && Phase(w, c).Planning?
    requires Phase(w, c).commands != [] && p.plan(Phase(w, c).snapshot.current, Phase(w, c).commands).Some?
    ensures var q, w' := Phase(w, c), Step(p, w, c, Commit);
      && (q.readAt == |w.writes| <==> |w'.writes| == |w.writes| + 1)
      && (q.readAt < |w.writes| <==> w'.writes == w.writes)
      && (Phase(w', c).Reading? <==> q.readAt < |w.writes| && q.expected.None?)
      && forall k | q.readAt <= k < |w.writes| :: w.writes[k].client != c
  {
    var q := Phase(w, c);
    MatchingRevision(p, start, w, c);
    assert GoodSnapshot(start, w, c);
    RevisionCountsWrites(p, start, w, q.readAt);
    RevisionCountsWrites(p, start, w, |w.writes|);
  }

  /**
   * A write under `expectedRevision` replaces the one record that ever had that revision, so no
   * other write came between the revision the caller saw and its own.
   */
  lemma ExpectedRevisionHolds(p: Planner, start: Stored, w: World, k: nat, j: nat)
    requires Sound(p) && Consistent(p, start, w) && k < |w.writes| && j <= |w.writes|
    requires w.writes[k].op.expected == Some(StateAt(start, w, j).current.revision)
    ensures j == k && w.writes[k].before == StateAt(start, w, j)
  {
    assert GoodWrite(p, start, w, k);
    RevisionCountsWrites(p, start, w, k);
    RevisionCountsWrites(p, start, w, j);
  }
}
