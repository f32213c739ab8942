/**
 * Writes to one scope's manifest inside one store instance
 * (packages/artifact-store/src/repository.ts:155-313). Every call chains itself behind the promise
 * stored for its scope; promises settle, fail and are cleaned up in any interleaving the event loop
 * allows. An operation is named by its place in the order of arrival.
 */
module ScopeQueues {
  import opened Wrappers

  type Key = string
  type Place = nat

  datatype Artifact = Artifact(id: string, details: string)

  datatype Request = Put(artifact: Artifact) | Remove(id: string)

  datatype Answer = Unchanged | Changed | Failed(wrote: bool)

  /** How far an operation has come; what it has read so far is its own. */
  datatype Stage =
    | Queued
    | Started
    | Listed(listed: seq<Artifact>)
    | Storing
    | Stored
    | Writing(next: seq<Artifact>)
    | Refreshed(next: seq<Artifact>)
    | Wrote
    | Settled(answer: Answer)

  /** `prev` is the operation whose promise this one was chained behind. */
  datatype Op = Op(key: Key, request: Request, prev: Option<Place>, stage: Stage)

  /** `writes` holds, for a scope, the operation whose promise the next arrival waits for. */
  datatype Store = Store(ops: seq<Op>, writes: map<Key, Place>, manifests: map<Key, seq<Artifact>>)

  function Manifest(manifests: map<Key, seq<Artifact>>, key: Key): seq<Artifact> {
    if key in manifests then manifests[key] else []
  }

  // ----- what one request does to a manifest ------------------------------

  predicate Holds(list: seq<Artifact>, id: string) {
    exists a :: a in list && a.id == id
  }

  function Without(list: seq<Artifact>, id: string): (r: seq<Artifact>)
    ensures forall a :: a in r <==> a in list && a.id != id
    ensures |r| <= |list| && (|r| == |list| <==> !Holds(list, id))
    ensures |r| == |list| ==> r == list
  {
    if list == [] then []
    else
      assert list == [list[0]] + list[1..];
      assert Holds(list, id) <==> list[0].id == id || Holds(list[1..], id);
      if list[0].id == id then Without(list[1..], id) else [list[0]] + Without(list[1..], id)
  }

  predicate Changes(list: seq<Artifact>, request: Request) {
    match request
    case Put(a) => !Holds(list, a.id)
    case Remove(id) => Holds(list, id)
  }

  function Applied(list: seq<Artifact>, request: Request): seq<Artifact> {
    match request
    case Put(a) => if Holds(list, a.id) then list else list + [a]
    case Remove(id) => Without(list, id)
  }

  ghost predicate NoIdTwice(list: seq<Artifact>) {
    forall i, j | 0 <= i < j < |list| :: list[i].id != list[j].id
  }

  lemma {:induction false} WithoutKeepsIdsApart(list: seq<Artifact>, id: string)
    requires NoIdTwice(list)
    ensures NoIdTwice(Without(list, id))
  {
    if list != [] {
      var rest := list[1..];
      WithoutKeepsIdsApart(rest, id);
      if list[0].id != id {
        var r := Without(rest, id);
        forall j | 0 <= j < |r| ensures r[j].id != list[0].id {
          assert r[j] in rest;
        }
      }
    }
  }

  lemma AppliedKeepsIdsApart(list: seq<Artifact>, request: Request)
    requires NoIdTwice(list)
    ensures NoIdTwice(Applied(list, request))
    ensures !Changes(list, request) ==> Applied(list, request) == list
  {
    if request.Remove? {
      WithoutKeepsIdsApart(list, request.id);
    } else if !Holds(list, request.artifact.id) {
      forall i | 0 <= i < |list| ensures list[i].id != request.artifact.id {
        assert list[i] in list;
      }
    }
  }

  // ----- steps ------------------------------------------------------------

  /** What a running operation does on its own. `Fail` may come at any stage. */
  datatype Move = List | Choose | StoreBytes | Relist | Refresh | Settle | Fail

  datatype Step =
    | Arrive(key: Key, request: Request)
    | Start(i: Place)
    | Advance(i: Place, move: Move)
    | Write(i: Place)
    | Tidy(i: Place)

  predicate IsSettled(s: Store, i: Place) {
    i < |s.ops| && s.ops[i].stage.Settled?
  }

  function At(s: Store, i: Place, stage: Stage): Store
    requires i < |s.ops|
  {
    s.(ops := s.ops[i := s.ops[i].(stage := stage)])
  }

  function Arrived(s: Store, key: Key, request: Request): Store {
    var prev := if key in s.writes then Some(s.writes[key]) else None;
    s.(ops := s.ops + [Op(key, request, prev, Queued)], writes := s.writes[key := |s.ops|])
  }

  /** The next stage of a running operation, if the move is its next one. */
  function Advanced(op: Op, move: Move, manifest: seq<Artifact>): Option<Stage> {
    match move
    case List => if op.stage.Started? then Some(Listed(manifest)) else None
    case Choose => if op.stage.Listed? then Some(Chosen(op.stage.listed, op.request)) else None
    case StoreBytes => if op.stage.Storing? then Some(Stored) else None
    case Relist =>
      if op.stage.Stored? && op.request.Put? then Some(Writing(manifest + [op.request.artifact])) else None
    case Refresh => if op.stage.Writing? then Some(Refreshed(op.stage.next)) else None
    case Settle => if op.stage.Wrote? then Some(Settled(Changed)) else None
    case Fail => if op.stage.Queued? || op.stage.Settled? then None else Some(Settled(Failed(op.stage.Wrote?)))
  }

  /** An id that is there already, or already gone, ends the operation without a write. */
  function Chosen(list: seq<Artifact>, request: Request): Stage {
    match request
    case Put(a) => if Holds(list, a.id) then Settled(Unchanged) else Storing
    case Remove(id) =>
      var next := Without(list, id);
      if |next| == |list| then Settled(Unchanged) else Writing(next)
  }

  predicate MayStart(s: Store, i: Place) {
    i < |s.ops| && s.ops[i].stage.Queued? && (s.ops[i].prev.None? || IsSettled(s, s.ops[i].prev.value))
  }

  function Moved(s: Store, i: Place, move: Move): Option<Stage> {
    if i < |s.ops| then Advanced(s.ops[i], move, Manifest(s.manifests, s.ops[i].key)) else None
  }

  predicate MayWrite(s: Store, i: Place) {
    i < |s.ops| && s.ops[i].stage.Refreshed?
  }

  function Written(s: Store, i: Place): Store
    requires MayWrite(s, i)
  {
    At(s, i, Wrote).(manifests := s.manifests[s.ops[i].key := s.ops[i].stage.next])
  }

  predicate MayTidy(s: Store, i: Place) {
    IsSettled(s, i) && s.ops[i].key in s.writes && s.writes[s.ops[i].key] == i
  }

  function Tidied(s: Store, i: Place): Store
    requires MayTidy(s, i)
  {
    s.(writes := s.writes - {s.ops[i].key})
  }

  /** A step that cannot be taken now changes nothing. */
  function Next(s: Store, step: Step): Store {
    match step
    case Arrive(key, request) => Arrived(s, key, request)
    case Start(i) => if MayStart(s, i) then At(s, i, Started) else s
    case Advance(i, move) => if Moved(s, i, move).Some? then At(s, i, Moved(s, i, move).value) else s
    case Write(i) => if MayWrite(s, i) then Written(s, i) else s
    case Tidy(i) => if MayTidy(s, i) then Tidied(s, i) else s
  }

  function Run(s: Store, steps: seq<Step>): Store
    decreases |steps|
  {
    if steps == [] then s else Run(Next(s, steps[0]), steps[1..])
  }

  // ----- the sequential meaning -------------------------------------------

  /** The operation reached the manifest, or found there was nothing to change. */
  predicate Took(op: Op) {
    op.stage.Wrote? || (op.stage.Settled? && op.stage.answer != Failed(false))
  }

  /** One scope's operations run one after the other, in order of arrival, skipping those that never took. */
  function Sequential(initial: seq<Artifact>, ops: seq<Op>, key: Key): seq<Artifact> {
    if ops == [] then initial
    else
      var before := Sequential(initial, ops[..|ops| - 1], key);
      var op := ops[|ops| - 1];
      if op.key == key && Took(op) then Applied(before, op.request) else before
  }

  function Before(initial: map<Key, seq<Artifact>>, ops: seq<Op>, i: Place): seq<Artifact>
    requires i < |ops|
  {
    Sequential(Manifest(initial, ops[i].key), ops[..i], ops[i].key)
  }

  // ----- invariant --------------------------------------------------------

  ghost predicate SettledBefore(s: Store, key: Key, i: Place) {
    forall j: nat | j < i && j < |s.ops| && s.ops[j].key == key :: s.ops[j].stage.Settled?
  }

  ghost predicate NoneBetween(s: Store, key: Key, j: Place, i: Place) {
    forall k: nat | j < k < i && k < |s.ops| :: s.ops[k].key != key
  }

  /** An operation waits for the last earlier one of its scope, or all of those are settled. */
  ghost predicate ChainOk(s: Store, i: Place)
    requires i < |s.ops|
  {
    var op := s.ops[i];
    match op.prev
    case None => SettledBefore(s, op.key, i)
    case Some(j) => j < i && s.ops[j].key == op.key && NoneBetween(s, op.key, j, i)
  }

  ghost predicate MapOk(s: Store, key: Key) {
    if key in s.writes
    then s.writes[key] < |s.ops| && s.ops[s.writes[key]].key == key && NoneBetween(s, key, s.writes[key], |s.ops|)
    else SettledBefore(s, key, |s.ops|)
  }

  /** A running operation has every earlier one of its scope behind it. */
  ghost predicate TurnOk(s: Store, i: Place)
    requires i < |s.ops|
  {
    s.ops[i].stage.Queued? || SettledBefore(s, s.ops[i].key, i)
  }

  ghost predicate QueueOk(s: Store) {
    && (forall i: nat | i < |s.ops| :: ChainOk(s, i) && TurnOk(s, i))
    && (forall key: Key :: MapOk(s, key))
  }

  /** What an operation knows is what the sequential run has at its place. */
  predicate StageOk(before: seq<Artifact>, op: Op) {
    match op.stage
    case Listed(list) => list == before
    case Storing => op.request.Put? && Changes(before, op.request)
    case Stored => op.request.Put? && Changes(before, op.request)
    case Writing(next) => next == Applied(before, op.request) && Changes(before, op.request)
    case Refreshed(next) => next == Applied(before, op.request) && Changes(before, op.request)
    case Wrote => Changes(before, op.request)
    case Settled(answer) => (answer.Unchanged? ==> !Changes(before, op.request))
      && (answer.Changed? || answer == Failed(true) ==> Changes(before, op.request))
    case _ => true
  }

  ghost predicate ContentOk(initial: map<Key, seq<Artifact>>, s: Store) {
    && (forall i: nat | i < |s.ops| :: StageOk(Before(initial, s.ops, i), s.ops[i]))
    && (forall key: Key :: Manifest(s.manifests, key) == Sequential(Manifest(initial, key), s.ops, key))
  }

  // ----- the queue is kept ------------------------------------------------

  lemma ArriveKeepsQueue(s: Store, key: Key, request: Request)
    requires QueueOk(s)
    ensures QueueOk(Arrived(s, key, request))
  {
    var t := Arrived(s, key, request);
    assert MapOk(s, key);
    forall i: nat | i < |t.ops| ensures ChainOk(t, i) && TurnOk(t, i) {
      if i < |s.ops| {
        assert ChainOk(s, i) && TurnOk(s, i) && t.ops[i] == s.ops[i];
      }
    }
    forall k: Key ensures MapOk(t, k) {
      assert MapOk(s, k);
    }
  }

  /** Any operation may move on or settle, so long as a queued one waits for its turn. */
  lemma StageKeepsQueue(s: Store, i: Place, stage: Stage)
    requires QueueOk(s) && i < |s.ops| && !s.ops[i].stage.Settled? && !stage.Queued?
    requires s.ops[i].stage.Queued? ==> SettledBefore(s, s.ops[i].key, i)
    ensures QueueOk(At(s, i, stage))
  {
    var t := At(s, i, stage);
    forall j: nat | j < |t.ops| ensures ChainOk(t, j) && TurnOk(t, j) {
      assert ChainOk(s, j) && TurnOk(s, j) && TurnOk(s, i);
    }
    forall k: Key ensures MapOk(t, k) {
      assert MapOk(s, k);
    }
  }

  /** When the operation it waits for has settled, everything earlier in the scope has. */
  lemma TurnComes(s: Store, i: Place)
    requires QueueOk(s) && MayStart(s, i)
    ensures SettledBefore(s, s.ops[i].key, i)
  {
    assert ChainOk(s, i);
    if s.ops[i].prev.Some? {
      var j := s.ops[i].prev.value;
      assert TurnOk(s, j);
    }
  }

  /** Forgetting the last operation of a scope is safe once it has settled. */
  lemma TidyKeepsQueue(s: Store, i: Place)
    requires QueueOk(s) && MayTidy(s, i)
    ensures QueueOk(Tidied(s, i))
  {
    var t := Tidied(s, i);
    assert MapOk(s, s.ops[i].key) && TurnOk(s, i);
    forall j: nat | j < |t.ops| ensures ChainOk(t, j) && TurnOk(t, j) {
      assert ChainOk(s, j) && TurnOk(s, j);
    }
    forall k: Key ensures MapOk(t, k) {
      assert MapOk(s, k);
    }
  }

  lemma StepKeepsQueue(s: Store, step: Step)
    requires QueueOk(s)
    ensures QueueOk(Next(s, step))
  {
    match step
    case Arrive(key, request) => ArriveKeepsQueue(s, key, request);
    case Start(i) =>
      if MayStart(s, i) {
        TurnComes(s, i);
        StageKeepsQueue(s, i, Started);
      }
    case Advance(i, move) =>
      if Moved(s, i, move).Some? {
        StageKeepsQueue(s, i, Moved(s, i, move).value);
      }
    case Write(i) =>
      if MayWrite(s, i) {
        StageKeepsQueue(s, i, Wrote);
        SameQueue(At(s, i, Wrote), Written(s, i));
      }
    case Tidy(i) =>
      if MayTidy(s, i) {
        TidyKeepsQueue(s, i);
      }
  }

  lemma SameQueue(s: Store, t: Store)
    requires QueueOk(s) && s.ops == t.ops && s.writes == t.writes
    ensures QueueOk(t)
  {
    forall j: nat | j < |t.ops| ensures ChainOk(t, j) && TurnOk(t, j) {
      assert ChainOk(s, j) && TurnOk(s, j);
    }
    forall k: Key ensures MapOk(t, k) {
      assert MapOk(s, k);
    }
  }

  // ----- the contents are kept --------------------------------------------

  /** Operations that never took, or belong elsewhere, add nothing. */
  lemma {:induction false} TailAddsNothing(initial: seq<Artifact>, ops: seq<Op>, key: Key, i: nat)
    requires i <= |ops| && forall j | i <= j < |ops| :: ops[j].key != key || !Took(ops[j])
    ensures Sequential(initial, ops, key) == Sequential(initial, ops[..i], key)
    decreases |ops|
  {
    if i == |ops| {
      assert ops[..i] == ops;
    } else {
      var init := ops[..|ops| - 1];
      assert init[..i] == ops[..i];
      TailAddsNothing(initial, init, key, i);
    }
  }

  lemma {:induction false} OtherScopes(initial: seq<Artifact>, ops: seq<Op>, i: Place, op: Op, key: Key)
    requires i < |ops| && ops[i].key == op.key
    requires op.key != key || ((Took(op) <==> Took(ops[i])) && op.request == ops[i].request)
    ensures Sequential(initial, ops[i := op], key) == Sequential(initial, ops, key)
    decreases |ops|
  {
    var n := |ops| - 1;
    if i < n {
      assert ops[i := op][..n] == ops[..n][i := op];
      OtherScopes(initial, ops[..n], i, op, key);
    } else {
      assert ops[i := op][..n] == ops[..n];
    }
  }

  /** Nothing at or after a started operation of the scope has taken, except perhaps that one. */
  lemma LaterWait(s: Store, i: Place, j: Place)
    requires QueueOk(s) && i < j < |s.ops| && s.ops[i].key == s.ops[j].key && !s.ops[i].stage.Settled?
    ensures s.ops[j].stage.Queued?
  {
    assert TurnOk(s, j);
  }

  lemma AtItsTurn(initial: map<Key, seq<Artifact>>, s: Store, i: Place)
    requires QueueOk(s) && ContentOk(initial, s) && i < |s.ops|
    requires !s.ops[i].stage.Settled?
    ensures Manifest(s.manifests, s.ops[i].key)
         == if Took(s.ops[i]) then Applied(Before(initial, s.ops, i), s.ops[i].request) else Before(initial, s.ops, i)
  {
    var key := s.ops[i].key;
    forall j | i + 1 <= j < |s.ops| ensures s.ops[j].key != key || !Took(s.ops[j]) {
      if s.ops[j].key == key {
        LaterWait(s, i, j);
      }
    }
    TailAddsNothing(Manifest(initial, key), s.ops, key, i + 1);
    assert s.ops[..i + 1][..i] == s.ops[..i];
  }

  /** Changing one running operation leaves what the others know alone. */
  lemma OthersKnow(initial: map<Key, seq<Artifact>>, s: Store, i: Place, stage: Stage, j: Place)
    requires QueueOk(s) && ContentOk(initial, s) && i < |s.ops| && j < |s.ops| && i != j
    requires !s.ops[i].stage.Settled?
    ensures var t := At(s, i, stage); StageOk(Before(initial, t.ops, j), t.ops[j])
  {
    var t := At(s, i, stage);
    assert t.ops[j] == s.ops[j] && StageOk(Before(initial, s.ops, j), s.ops[j]);
    if j < i {
      assert t.ops[..j] == s.ops[..j];
    } else if s.ops[i].key == s.ops[j].key {
      LaterWait(s, i, j);
    } else {
      assert t.ops[..j] == s.ops[..j][i := t.ops[i]];
      OtherScopes(Manifest(initial, s.ops[j].key), s.ops[..j], i, t.ops[i], s.ops[j].key);
    }
  }

  /** A move that neither reaches the manifest nor takes. */
  lemma QuietMove(initial: map<Key, seq<Artifact>>, s: Store, i: Place, stage: Stage)
    requires QueueOk(s) && ContentOk(initial, s) && i < |s.ops| && !s.ops[i].stage.Settled?
    requires StageOk(Before(initial, s.ops, i), s.ops[i].(stage := stage))
    requires (Took(s.ops[i].(stage := stage)) <==> Took(s.ops[i]))
          || (stage == Settled(Unchanged) && !Took(s.ops[i])
              && Applied(Before(initial, s.ops, i), s.ops[i].request) == Before(initial, s.ops, i))
    ensures ContentOk(initial, At(s, i, stage))
  {
    var t := At(s, i, stage);
    assert t.ops[..i] == s.ops[..i];
    forall j: nat | j < |t.ops| ensures StageOk(Before(initial, t.ops, j), t.ops[j]) {
      if j != i {
        OthersKnow(initial, s, i, stage, j);
      }
    }
    forall key: Key ensures Manifest(t.manifests, key) == Sequential(Manifest(initial, key), t.ops, key) {
      if key == s.ops[i].key {
        AtItsTurn(initial, s, i);
        SumUp(initial, s, i, stage);
      } else {
        OtherScopes(Manifest(initial, key), s.ops, i, t.ops[i], key);
      }
    }
  }

  /** The scope's sequential result after operation `i` moves on. */
  lemma SumUp(initial: map<Key, seq<Artifact>>, s: Store, i: Place, stage: Stage)
    requires QueueOk(s) && i < |s.ops| && !s.ops[i].stage.Settled?
    ensures var t := At(s, i, stage); var key := s.ops[i].key;
      Sequential(Manifest(initial, key), t.ops, key)
      == if Took(t.ops[i]) then Applied(Before(initial, s.ops, i), s.ops[i].request) else Before(initial, s.ops, i)
  {
    var t := At(s, i, stage);
    var key := s.ops[i].key;
    forall j | i + 1 <= j < |t.ops| ensures t.ops[j].key != key || !Took(t.ops[j]) {
      if s.ops[j].key == key {
        LaterWait(s, i, j);
      }
    }
    TailAddsNothing(Manifest(initial, key), t.ops, key, i + 1);
    assert t.ops[..i + 1][..i] == s.ops[..i];
  }

  lemma WriteKeepsContent(initial: map<Key, seq<Artifact>>, s: Store, i: Place)
    requires QueueOk(s) && ContentOk(initial, s) && MayWrite(s, i)
    ensures ContentOk(initial, Written(s, i))
  {
    var t := Written(s, i);
    var moved := At(s, i, Wrote);
    assert t.ops == moved.ops && t.ops[..i] == s.ops[..i];
    assert StageOk(Before(initial, s.ops, i), s.ops[i]);
    forall j: nat | j < |t.ops| ensures StageOk(Before(initial, t.ops, j), t.ops[j]) {
      if j != i {
        OthersKnow(initial, s, i, Wrote, j);
      }
    }
    forall key: Key ensures Manifest(t.manifests, key) == Sequential(Manifest(initial, key), t.ops, key) {
      WriteSumsUp(initial, s, i, key);
    }
  }

  lemma WriteSumsUp(initial: map<Key, seq<Artifact>>, s: Store, i: Place, key: Key)
    requires QueueOk(s) && MayWrite(s, i) && StageOk(Before(initial, s.ops, i), s.ops[i])
    requires Manifest(s.manifests, key) == Sequential(Manifest(initial, key), s.ops, key)
    ensures Manifest(Written(s, i).manifests, key) == Sequential(Manifest(initial, key), Written(s, i).ops, key)
  {
    if key == s.ops[i].key {
      SumUp(initial, s, i, Wrote);
    } else {
      OtherScopes(Manifest(initial, key), s.ops, i, At(s, i, Wrote).ops[i], key);
    }
  }

  lemma ArriveKeepsContent(initial: map<Key, seq<Artifact>>, s: Store, key: Key, request: Request)
    requires ContentOk(initial, s)
    ensures ContentOk(initial, Arrived(s, key, request))
  {
    var t := Arrived(s, key, request);
    assert t.ops[..|s.ops|] == s.ops;
    forall j: nat | j < |t.ops| ensures StageOk(Before(initial, t.ops, j), t.ops[j]) {
      if j < |s.ops| {
        assert t.ops[..j] == s.ops[..j] && t.ops[j] == s.ops[j];
        assert StageOk(Before(initial, s.ops, j), s.ops[j]);
      }
    }
  }

  /** What a running operation does next fits its place in the sequential run. */
  lemma AdvanceKeepsContent(initial: map<Key, seq<Artifact>>, s: Store, i: Place, move: Move)
    requires QueueOk(s) && ContentOk(initial, s) && Moved(s, i, move).Some?
    ensures ContentOk(initial, At(s, i, Moved(s, i, move).value))
  {
    var before := Before(initial, s.ops, i);
    assert StageOk(before, s.ops[i]);
    AtItsTurn(initial, s, i);
    AdvanceFits(before, s.ops[i], move, Manifest(s.manifests, s.ops[i].key));
    QuietMove(initial, s, i, Moved(s, i, move).value);
  }

  lemma AdvanceFits(before: seq<Artifact>, op: Op, move: Move, manifest: seq<Artifact>)
    requires StageOk(before, op) && Advanced(op, move, manifest).Some?
    requires manifest == if Took(op) then Applied(before, op.request) else before
    ensures var stage := Advanced(op, move, manifest).value;
      && StageOk(before, op.(stage := stage))
      && ((Took(op.(stage := stage)) <==> Took(op))
          || (stage == Settled(Unchanged) && Applied(before, op.request) == before && !Took(op)))
  {
  }

  lemma StepKeepsContent(initial: map<Key, seq<Artifact>>, s: Store, step: Step)
    requires QueueOk(s) && ContentOk(initial, s)
    ensures ContentOk(initial, Next(s, step))
  {
    match step
    case Arrive(key, request) => ArriveKeepsContent(initial, s, key, request);
    case Start(i) =>
      if MayStart(s, i) {
        QuietMove(initial, s, i, Started);
      }
    case Advance(i, move) =>
      if Moved(s, i, move).Some? {
        AdvanceKeepsContent(initial, s, i, move);
      }
    case Write(i) =>
      if MayWrite(s, i) {
        WriteKeepsContent(initial, s, i);
      }
    case Tidy(i) =>
  }

  // ----- whole runs -------------------------------------------------------

  function Opened(manifests: map<Key, seq<Artifact>>): Store {
    Store([], map[], manifests)
  }

  lemma {:induction false} RunKeeps(initial: map<Key, seq<Artifact>>, s: Store, steps: seq<Step>)
    requires QueueOk(s) && ContentOk(initial, s)
    ensures QueueOk(Run(s, steps)) && ContentOk(initial, Run(s, steps))
    decreases |steps|
  {
    if steps != [] {
      StepKeepsQueue(s, steps[0]);
      StepKeepsContent(initial, s, steps[0]);
      RunKeeps(initial, Next(s, steps[0]), steps[1..]);
    }
  }

  predicate Running(op: Op) {
    !op.stage.Queued? && !op.stage.Settled?
  }

  /**
   * One at a time, in order of arrival: when an operation is under way, every earlier one of its
   * scope is finished and no later one has begun.
   */
  lemma OneAtATime(initial: map<Key, seq<Artifact>>, steps: seq<Step>, i: Place, j: Place)
    requires var s := Run(Opened(initial), steps);
      i < |s.ops| && j < |s.ops| && i != j && s.ops[i].key == s.ops[j].key && Running(s.ops[i])
    ensures var s := Run(Opened(initial), steps);
      if j < i then s.ops[j].stage.Settled? else s.ops[j].stage.Queued?
  {
    RunKeeps(initial, Opened(initial), steps);
    var s := Run(Opened(initial), steps);
    assert TurnOk(s, i);
    if i < j {
      LaterWait(s, i, j);
    }
  }

  /** The operation settled with the answer it would get if all ran one after the other. */
  ghost predicate AnsweredInTurn(initial: map<Key, seq<Artifact>>, s: Store, i: Place)
    requires i < |s.ops|
  {
    var before, op := Before(initial, s.ops, i), s.ops[i];
    && (op.stage == Settled(Changed) ==> Changes(before, op.request))
    && (op.stage == Settled(Unchanged) ==> !Changes(before, op.request))
  }

  /** Every scope's manifest is the sequential result, and every answer is the sequential answer. */
  lemma RunsAreSequential(initial: map<Key, seq<Artifact>>, steps: seq<Step>)
    ensures var s := Run(Opened(initial), steps);
      && (forall key: Key :: Manifest(s.manifests, key) == Sequential(Manifest(initial, key), s.ops, key))
      && (forall i: nat | i < |s.ops| :: AnsweredInTurn(initial, s, i))
  {
    RunKeeps(initial, Opened(initial), steps);
    var s := Run(Opened(initial), steps);
    forall i: nat | i < |s.ops| ensures AnsweredInTurn(initial, s, i) {
      assert StageOk(Before(initial, s.ops, i), s.ops[i]);
    }
  }

  lemma {:induction false} SequentialKeepsIdsApart(initial: seq<Artifact>, ops: seq<Op>, key: Key)
    requires NoIdTwice(initial)
    ensures NoIdTwice(Sequential(initial, ops, key))
    decreases |ops|
  {
    if ops != [] {
      var before := Sequential(initial, ops[..|ops| - 1], key);
      SequentialKeepsIdsApart(initial, ops[..|ops| - 1], key);
      AppliedKeepsIdsApart(before, ops[|ops| - 1].request);
    }
  }

  /** No interleaving, failure or clean-up makes a manifest hold one id twice. */
  lemma NoIdTwiceInAnyRun(initial: map<Key, seq<Artifact>>, steps: seq<Step>, key: Key)
    requires NoIdTwice(Manifest(initial, key))
    ensures NoIdTwice(Manifest(Run(Opened(initial), steps).manifests, key))
  {
    RunsAreSequential(initial, steps);
    SequentialKeepsIdsApart(Manifest(initial, key), Run(Opened(initial), steps).ops, key);
  }
}
