# Verification model of the graph workspace

This project models the stateful core of the repository in Dafny and proves what that core promises.

- **The typed reducer graph** (`packages/graph`). `DataKinds` holds the coercion table and the sockets,
  `Graphs` the specification of the graph operations and their structural invariant, `GraphObjects` the
  mutable `Graph` class and the depth-first sort. `Executions` says what it means that outputs are up to
  date and proves incremental execution equal to a fresh run; `Engines` is the mutable `ExecutionEngine`.
  `Documents`, `Validations` and `DocumentRuns` cover commands, the computation key, validation,
  materialisation, planning and running.
- **The graph store** (`packages/graph-store`). `OptimisticStore` is the read, plan, commit protocol as
  interleaved steps of several clients, with the bounded undo history; `GraphStore` plugs the planner of
  the graph package into it and holds the repository object with its retry loop.
- **The ontology layer** (`packages/graph/src/ontology.ts`): `Ontologies` has deltas and user edits, `OntologyRuns`
  what survives runs of them.
- **Work items** (`packages/work-items-store`): `EditDistances`, `WorkItems`, `Boards`.
- **The artifact store's two locks** (`packages/artifact-store`): `ScopeQueues` is the promise queue in one
  process, `LeaseFencing` the directory lease between processes, each as a state machine over single steps.
- **The passage splitter** (`packages/agent-tools/src/evidence.ts`): `Passages`.

Loops and objects of the source are methods and classes proved against specification functions; what the
source promises is proved about those functions. A JavaScript `Set` of connections is a sequence without
duplicates in insertion order. Where the source iterates over a `Map`, the methods take the entries in an
arbitrary order, so their contracts hold for the source's order too.

Parameters stand for what the source gets from outside: JavaScript's own conversions (`Host`), the reducers
(`Reducer.run`, deterministic functions that may fail), text normalisation (`WorkItems.Text`), stable ids
(`Ontologies.Ids`, injective on canonical identities), the clock, and what other clients do.

## Where the code falls short of a promise

- A self-edge passes validation and then fails to materialise. `Validations.SelfEdgePassesValidation` shows a
  document, `Validations.ValidMaterializesIff` proves that self-edges are the only such case.
- A user edit that empties a claim's subject, or sets a claim's or relation's key to undefined, leaves an edge that no
  key names. `Ontologies.ClearedSubjectKeepsEdge` shows it; `Ontologies.EditEffect` proves that `Detaches` describes
  exactly these edits. User authority, single edges and existing sources survive them too.
- A delta that names a stored claim or relation twice can put two edges into one socket.
  `OntologyRuns.RepeatedKeyDoublesEdge` shows one, `OntologyRuns.DeltaSingleIff` is the exact condition.
- Reusing an edge id or a socket pair leaves a connection without an edge, or with two; overwriting a node with one
  that does not carry its connections leaves edges without connections. `Graphs.ReusingBreaks` and
  `Graphs.OverwritingBreaks` show graphs, `Graphs.EdgeAddedExactIff` and `Graphs.NodeAddedExactIff` give the exact
  conditions.
- More than one hundred batches cannot all be undone. `OptimisticStore.AllUndoneIff` says exactly when undoing them all
  gives the start back, `GraphStore.StartIsLost` shows 101 batches that all commit and whose undos do not.
- The directory lock is not mutually exclusive, in two ways.
  - Two leases can both be refreshable: `LeaseFencing.TwoLeasesCanCoexist` is a run. While no owner file strays from the
    directory its creator made, a step makes a second owner file stand if and only if a creator writes its own although
    its directory has gone from the lock path and an owner stands in the one now there (`LeaseFencing.ExclusionLostIff`).
    Without such a step at most one lease is ever refreshable (`LeaseFencing.ExclusiveWithoutStrays`).
  - Only refreshing is fenced. A holder whose lease was recovered is not stopped until its next refresh, so it and its
    successor can both go on under the lock without any stray (`LeaseFencing.TwoHoldWithoutStrays`). Exactly the
    completion of an owner file beside a held lease, one of the two being evicted, makes a second holder
    (`LeaseFencing.SecondHoldsIff`); the evicted one is never refreshed again (`LeaseFencing.EvictedForGood`).
  - Fencing and single ending hold in every run.
- A passage can be one unit longer than `MAX_PASSAGE_CHARS`: if and only if a sentence ends exactly at the limit and no
  paragraph or line break in the second half goes before it (`Passages.OverlongIff`; `Passages.LongSentence` is a text).

## Model

| member | source | states |
|---|---|---|
| DataKinds.InferredKindFits | packages/graph/src/data-kinds.ts:107-124 | a kind is inferred of a value if and only if the value has that kind's shape, arrays element by element, mixed arrays and objects included |
| DataKinds.CoerceAgreesWithCheck | packages/graph/src/data-kinds.ts:84-104 | on a value of its declared kind, coercion succeeds if and only if `canCoerce` allows the pair of kinds |
| DataKinds.CoercedValueFits | packages/graph/src/data-kinds.ts:42-81 | a table coercion yields a value of the target kind |
| DataKinds.AcceptedDefaultsNormalize | packages/graph/src/socket.ts:54-78 | a default value normalises if and only if the socket accepts its inferred kind, so accepted values never fail coercion |
| DataKinds.AllowedConnectionsDeliver | packages/graph/src/socket.ts:62-78 | along an accepted connection a value of the source's kind is always delivered |
| Graphs.SocketIdRoundTrip | packages/graph/src/graph.ts:59-65 | parsing the text of a socket id gives it back if and only if neither node id nor socket name has a colon |
| Graphs.LinkedIsSymmetric | packages/graph/src/graph.ts:36-47 | connections are symmetric, never within one node, and join an output and an input |
| Graphs.UpstreamIsConverse | packages/graph/src/graph.ts:78-102 | upstream is the converse of downstream and no node is its own neighbour |
| Graphs.NodeAddedExactIff | packages/graph/src/graph.ts:18-20 | adding any node, new or in place of another, keeps edges and connections matched if and only if it carries the connections it overwrites, each once, and still accepts the edges that touch it |
| Graphs.BareNodeExactIff | packages/graph/src/graph.ts:18-20 | a node without connections may overwrite exactly the nodes without connections |
| Graphs.OverwritingBreaks | packages/graph/src/graph.ts:18-20 | a concrete graph on which overwriting a connected node leaves its edge without connections |
| Graphs.ReusingBreaks | packages/graph/src/graph.ts:36-47 | a concrete graph on which reusing an edge id, and reusing a socket pair, breaks the match |
| Graphs.EdgeAddedKeeps | packages/graph/src/graph.ts:36-47 | an allowed edge with a fresh id keeps the structural invariant, single inputs included |
| Graphs.EdgeAddedExactIff | packages/graph/src/graph.ts:36-47 | an allowed edge keeps edges and connections one to one if and only if its id and socket pair are fresh or the same edge is added again |
| Graphs.EdgeRemovedKeeps | packages/graph/src/graph.ts:49-57 | removing an edge keeps connections exactly those of the remaining edges |
| Graphs.NodeRemovedKeeps | packages/graph/src/graph.ts:22-34 | removing a node keeps the invariant and leaves no connection or edge to it anywhere |
| Graphs.RunsKeepExact | packages/graph/src/graph.ts:18-57 | over any run of the four mutations with fresh ids and socket pairs, connections match the edges exactly |
| Graphs.EmptyIsExact | packages/graph/src/graph.ts:14-16 | the empty graph, where every run starts, has the invariant |
| GraphObjects.Graph.AddNode | packages/graph/src/graph.ts:18-20 | the new state is the specified one |
| GraphObjects.Graph.RemoveNode | packages/graph/src/graph.ts:22-34 | exactly the edges with an existing socket on the node go, and from every socket exactly their connections; on a linked graph that prunes every connection toward the node |
| GraphObjects.Graph.AddEdge | packages/graph/src/graph.ts:36-47 | throws exactly when the connection is not allowed, leaving the graph alone; otherwise links both sockets and stores the edge |
| GraphObjects.Graph.RemoveEdge | packages/graph/src/graph.ts:49-57 | unlinks both sockets and forgets the edge; an unknown id changes nothing |
| GraphObjects.Graph.GetDownstream | packages/graph/src/graph.ts:78-89 | exactly the nodes connected to some output |
| GraphObjects.Graph.GetUpstream | packages/graph/src/graph.ts:91-102 | exactly the nodes connected to some input |
| GraphObjects.SortRun.Visit | packages/graph/src/graph.ts:110-118 | the recursion terminates on every graph, sorts each node after all that feed it, and throws only if there is a cycle |
| GraphObjects.Graph.TopologicalSort | packages/graph/src/graph.ts:105-122 | succeeds if and only if the graph has no cycle, and then returns every node once with every upstream node earlier |
| Traversals.OrderedIsAcyclic | packages/graph/src/graph.ts:104-122 | a graph with a topological order has no cycle |
| Traversals.ReachedIsLeast | packages/graph/src/execution.ts:27-38 | the nodes reached downstream are the least closed set that holds the starting nodes |
| Executions.ExecutedKeeps | packages/graph/src/execution.ts:41-50 | any execution, also a failing one, leaves the dirty set closed downstream and every clean node's outputs equal to its reducer on its current inputs |
| Executions.SolutionIsUnique | packages/graph/src/execution.ts:41-84 | on an acyclic graph at most one assignment of outputs agrees with every reducer |
| Executions.ExecuteIffSolvable | packages/graph/src/execution.ts:41-84 | from any up-to-date state and any topological order, `execute` succeeds if and only if such an assignment exists, and then computes it |
| Executions.MarkingRestores | packages/graph/src/execution.ts:27-38 | changing defaults and marking a superset of the changed nodes makes everything not dirty up to date again |
| Executions.RoundKeeps | packages/graph/src/execution.ts:27-50 | one round of changing, marking and executing keeps the invariant even if the execution fails |
| Executions.RoundsKeep | packages/graph/src/execution.ts:27-50 | a failed execution is resumable: over any rounds the invariant never breaks, and the last one succeeds if and only if the graph has a solution |
| Executions.IncrementalEqualsFresh | packages/graph/src/execution.ts:28-119 | after any rounds, the last incremental execution succeeds exactly when a fresh all-dirty run of the same graph does, and then all outputs are equal |
| Engines.RunRound | packages/graph/src/execution.ts:28-50 | assigning defaults, marking and executing on the engine object is one round of the specification, and keeps the invariant |
| Engines.RunRounds | packages/graph/src/execution.ts:28-50 | so is any sequence of them |
| Engines.RunIncrementally | packages/graph/src/execution.ts:28-119 | the engine object on any linked acyclic graph agrees with a fresh run after any updates and executions, failed ones included |
| Engines.ExecutionEngine.MarkDirty | packages/graph/src/execution.ts:28-38 | the worklist terminates on cyclic graphs and adds exactly the nodes its argument reaches |
| Engines.ExecutionEngine.Execute | packages/graph/src/execution.ts:41-50 | throws on a cycle changing nothing; otherwise runs exactly the dirty nodes in topological order and stops at the first failure |
| Engines.ExecutionEngine.ExecuteNode | packages/graph/src/execution.ts:53-84 | publishes the reducer's outputs or records the error; a failure to gather inputs records none |
| Engines.ExecutionEngine.GatherInputs | packages/graph/src/execution.ts:86-119 | connected, default and missing inputs, with multi-inputs flattened in connection order |
| Documents.SortedInOrder | packages/graph/src/document.ts:458-467 | ordering edges permutes them into comparator order |
| Documents.SortIsUnique | packages/graph/src/document.ts:458-467 | the comparator leaves one possible result, so any correct sort gives it |
| Documents.OrderedPositions | packages/graph/src/document.ts:458-467 | every edge appears once, at its own index |
| Documents.KeyIsSound | packages/graph/src/document.ts:124-142 | documents with equal computation keys both materialise or both fail, into the same nodes, defaults and connection order |
| DocumentRuns.SameKeySameOutputs | packages/graph/src/document.ts:124-142 | documents with equal computation keys run clean together and report the same outputs |
| DocumentRuns.SameKeySameRun | packages/graph/src/document.ts:124-142 | they have the same runs, failing ones too, whatever order the sort makes of the nodes as they were added: the same outputs, the same nodes with errors and the same errors on them |
| Documents.LayoutKeepsKey | packages/graph/src/document.ts:110-122 | a command classified as layout-only leaves the computation key unchanged |
| Documents.LayoutBatchKeepsKey | packages/graph/src/document.ts:219-226 | so does a batch of them |
| Validations.ValidMaterializesIff | packages/graph/src/document.ts:287-456 | a document without issues materialises if and only if it has no self-edge; the graph is then structurally sound and each document edge is one graph edge |
| Validations.SelfEdgeNeverMaterializes | packages/graph/src/graph.ts:67-76 | a document with a self-edge never materialises |
| Validations.SelfEdgePassesValidation | packages/graph/src/document.ts:350-397 | a concrete document that validation passes and materialisation rejects |
| Validations.SameKeySameIssues | packages/graph/src/document.ts:287-398 | moving, relabelling and panning neither add nor remove issues |
| DocumentRuns.LayoutKeepsOk | packages/graph/src/document.ts:251-275 | whether a document is acceptable depends only on its computation key and edges |
| DocumentRuns.MaterializedIsMirrored | packages/graph/src/document.ts:412-456 | every materialised graph, even of an unvalidated document, has symmetric connections |
| DocumentRuns.MaterializedIsTotal | packages/graph/src/document.ts:412-456 | every materialised node has the outputs its reducer returns |
| DocumentRuns.MaterializeGraph | packages/graph/src/document.ts:412-456 | the loops build exactly the specified graph, or fail exactly when it does not exist |
| DocumentRuns.RunGraphDocument | packages/graph/src/document.ts:481-511 | throws exactly when materialisation fails; otherwise reports the end of a fresh execution, errors of failing nodes included; reports no errors if and only if the graph is acyclic and its reducers have a common solution, and then reports that solution |
| DocumentRuns.ValidateGraphDocument | packages/graph/src/document.ts:287-398 | reports every issue and nothing else |
| DocumentRuns.CheckProposed | packages/graph/src/document.ts:251-275 | no issues if and only if the document validates, materialises, is acyclic and runs clean; the cycle code appears exactly for a cycle |
| DocumentRuns.PlanGraphCommands | packages/graph/src/document.ts:228-285 | a plan is valid exactly when the batch reduces and, unless it is layout-only, the result is acceptable; its run is the solution |
| OptimisticStore.ReachableDocumentsOk | packages/graph-store/src/repository.ts:87-142 | any mix of batches and undos only reaches acceptable documents and no undo throws |
| OptimisticStore.BatchThenUndo | packages/graph-store/src/repository.ts:121-142 | an undo right above a batch restores what the batch replaced |
| OptimisticStore.BracketsRestore | packages/graph-store/src/repository.ts:105-141 | a well-bracketed run nested at most one hundred deep restores the starting content while every write raises the revision |
| OptimisticStore.BatchesStack | packages/graph-store/src/repository.ts:105-114 | the history holds what it held and then the replaced documents, the newest hundred of them |
| OptimisticStore.UndosUnstack | packages/graph-store/src/repository.ts:121-142 | undos pop the history newest first, and do nothing once it is empty |
| OptimisticStore.UndoReach | packages/graph-store/src/repository.ts:105-141 | from any stored record, after any number of batches as many undos reach the oldest of the last hundred replaced documents, and no further |
| OptimisticStore.AllUndoneIff | packages/graph-store/src/repository.ts:107-142 | undoing all of n committed batches gives the start back if and only if they are at most one hundred or the batches beyond that changed no content |
| OptimisticStore.StepKeeps | packages/graph-store/src/repository.ts:87-142 | every step of every client keeps the chain of writes and the snapshots consistent |
| OptimisticStore.Linearizable | packages/graph-store/src/repository.ts:87-142 | under any interleaving the record is the writing operations performed one after another, each commit the plan of exactly what it replaced, each write one revision up |
| OptimisticStore.CommitStep | packages/graph-store/src/repository.ts:92-118 | a commit writes exactly if nobody wrote since the read, and retries exactly if another client did and no revision was named |
| OptimisticStore.ExpectedRevisionHolds | packages/graph-store/src/repository.ts:181-203 | a write under an expected revision replaces the very record the caller saw |
| OptimisticStore.RevisionCountsWrites | packages/graph-store/src/repository.ts:105-141 | the revision is the starting one plus the number of writes |
| GraphStore.PlannedIsOk | packages/graph/src/document.ts:251-275 | a planned document is acceptable although layout-only batches skip validation |
| GraphStore.GraphPlannerIsSound | packages/graph-store/src/repository.ts:95-101 | the graph planner is one the protocol's theorems apply to |
| GraphStore.EmptyDocumentIsOk | packages/graph/src/document.ts:287-398 | the empty document is acceptable under every registry |
| GraphStore.ReachableDocumentsRun | packages/graph-store/src/repository.ts:87-142 | from a record of valid documents, every document reachable under any interleaving, and every one undo may bring back, has no issues, materialises, is acyclic and runs without errors |
| GraphStore.StartIsLost | packages/graph-store/src/repository.ts:87-142 | from every acceptable document, 101 concrete batches that move the viewport all commit under the graph planner, and undoing them all does not give the content back |
| GraphStore.GraphRepository.CommitGraphState | packages/graph-store/src/repository.ts:181-203 | fails exactly on an unexpected revision, and writes exactly when the revision has not moved |
| GraphStore.GraphRepository.ApplyBatch | packages/graph-store/src/repository.ts:87-119 | whatever other clients do between read and commit, an applied batch is the plan of the record it replaced and a rejected one has no plan |
| GraphStore.GraphRepository.UndoLast | packages/graph-store/src/repository.ts:121-142 | equals the specified undo, alone in its transaction |
| Ontologies.ApplyGraphDelta | packages/graph/src/ontology.ts:124-173 | collecting commands group by group equals compiling all proposals against the document before the delta |
| Ontologies.ProposalStep | packages/graph/src/ontology.ts:124-173 | one proposal keeps keys and reference edges aligned, touches no other node, and does nothing to a node the user owns |
| Ontologies.UpsertEdgeEffect | packages/graph/src/ontology.ts:427-458 | afterwards the socket has exactly the new reference edge and no other socket changed |
| Ontologies.DeltaStep | packages/graph/src/ontology.ts:124-173 | commands compiled against the document before the delta have, one after another, the effect of their proposals |
| Ontologies.DeltaEffect | packages/graph/src/ontology.ts:124-173 | a delta with distinct canonical keys keeps the invariant, changes only the proposals' nodes, and settles every proposal |
| Ontologies.DeltaIdempotent | packages/graph/src/ontology.ts:124-173 | applying a delta again changes nothing but the revision |
| Ontologies.EditEffect | packages/graph/src/ontology.ts:175-254 | a user edit changes one node and makes it the user's; keys and edges stay aligned if and only if it neither empties nor undefines the subject of a claim that has a subject edge, nor undefines a key of a relation |
| Ontologies.ClearedSubjectKeepsEdge | packages/graph/src/ontology.ts:198-204 | a concrete document and the two edits, emptying and undefining, that break the alignment |
| OntologyRuns.AuthorityHolds | packages/graph/src/ontology.ts:124-254 | on any document and over any run of deltas and edits, a node the user owns stays as it is until a user edit names it |
| OntologyRuns.SourcesStay | packages/graph/src/ontology.ts:124-254 | on any document and over any run, no edge comes to dangle: the entity it comes from is in the document |
| OntologyRuns.DeltaSingleIff | packages/graph/src/ontology.ts:427-458 | a delta keeps one edge for each reference socket if and only if no two of its proposals move an edge into the same socket of the same node; distinct canonical keys are enough |
| OntologyRuns.RepeatedKeyDoublesEdge | packages/graph/src/ontology.ts:124-173 | a concrete document and delta, one claim named twice, that leave two edges in one socket |
| OntologyRuns.EditSingle | packages/graph/src/ontology.ts:175-254 | every edit, detaching ones too, keeps one edge for each reference socket |
| OntologyRuns.EdgesStaySingle | packages/graph/src/ontology.ts:403-477 | over any run of deltas that each move at most one edge into a socket, and of any edits, each reference socket has at most one edge |
| OntologyRuns.DistinctKeysMoveApart | packages/graph/src/ontology.ts:124-173 | that covers every run of deltas with distinct canonical keys |
| OntologyRuns.ActionKeeps | packages/graph/src/ontology.ts:124-254 | one delta, or one edit that does not detach, keeps keys and edges aligned |
| OntologyRuns.KeysStayAligned | packages/graph/src/ontology.ts:124-254 | over any run of deltas with distinct canonical keys in which no edit detaches, each reference edge comes from the entity its target's key names, and that entity exists |
| OntologyRuns.EmptyOntologyOk | packages/graph/src/ontology.ts:124-173 | the empty document has these invariants |
| EditDistances.DistanceIsLeast | packages/work-items-store/src/operations.ts:1302-1321 | the edit distance is the least cost of an edit script |
| EditDistances.DistanceSymmetric | packages/work-items-store/src/operations.ts:1302-1321 | it is symmetric |
| EditDistances.DistanceBounds | packages/work-items-store/src/operations.ts:1302-1321 | it is at most the longer length, and zero exactly on equal texts |
| EditDistances.Levenshtein | packages/work-items-store/src/operations.ts:1302-1321 | the two-row loop computes the recursive edit distance of all texts |
| EditDistances.TitleSimilarity | packages/work-items-store/src/operations.ts:1286-1300 | counting shared tokens one by one gives the better of the token and the edit score |
| EditDistances.SimilarityBounds | packages/work-items-store/src/operations.ts:1286-1300 | similarity lies between 0 and 1 |
| EditDistances.SimilaritySymmetric | packages/work-items-store/src/operations.ts:1286-1300 | similarity is symmetric |
| WorkItems.NextIdIsFresh | packages/work-items-store/src/operations.ts:1265-1274 | a generated id differs from every existing id, whatever those look like |
| WorkItems.NoCandidates | packages/work-items-store/src/operations.ts:456-497 | no duplicate candidates means every request of the home scope is apart from the title |
| WorkItems.CreatedIsApart | packages/work-items-store/src/operations.ts:299-407 | a created request is apart from all others and its id is new |
| WorkItems.RefusedIff | packages/work-items-store/src/operations.ts:299-407 | a proposal is refused if and only if some request of its scope is too close to it |
| WorkItems.OperationKeeps | packages/work-items-store/src/operations.ts:175-537 | every mutation keeps requests apart and story ids distinct, and raises the revision by one or changes nothing |
| WorkItems.DuplicatesStayBlocked | packages/work-items-store/src/operations.ts:175-537 | over any run of proposals, transitions, reviews, comments, evidence and sponsorships, requests of one home scope stay apart |
| WorkItems.EvidenceIsFresh | packages/work-items-store/src/operations.ts:409-454 | new evidence gets an id no entry of its request has |
| Boards.OrderedScopeMatches | packages/work-items-store/src/operations.ts:957-994 | the loops find each reached scope under its earliest root, and each unreached root under itself |
| Boards.MatchesAreUnique | packages/work-items-store/src/operations.ts:957-994 | permuting or repeating the resolver's reports gives the same matches |
| Boards.MatchingScopes | packages/work-items-store/src/operations.ts:996-1009 | exactly the matching scopes a story takes part in, each once, home first |
| Boards.ScopeGroup | packages/work-items-store/src/operations.ts:1331-1359 | scope grouping picks the home scope if it matched, and otherwise the earliest root of any matched scope |
| Boards.ItemsOnce | packages/work-items-store/src/operations.ts:135-173 | each story appears at most once |
| Boards.ItemsComplete | packages/work-items-store/src/operations.ts:135-173 | the first story of each id appears if it matches and passes the filters |
| Boards.QueryBoardView | packages/work-items-store/src/operations.ts:135-173 | the loop with its seen set and child map yields the specified items |
| Boards.QueryIgnoresPaths | packages/work-items-store/src/operations.ts:135-173 | the result does not depend on the number or order of paths to a scope |
| ScopeQueues.OneAtATime | packages/artifact-store/src/repository.ts:296-313 | while an operation runs, every earlier one of its scope is settled and no later one has begun, over all arrivals, failures and clean-ups |
| ScopeQueues.TidyKeepsQueue | packages/artifact-store/src/repository.ts:308-312 | forgetting a scope's last promise once it has settled never lets a later operation overtake |
| ScopeQueues.RunsAreSequential | packages/artifact-store/src/repository.ts:155-313 | in every run each manifest equals the sequential result of the puts and removes that reached it, in order of arrival, and every answer is the sequential one |
| ScopeQueues.NoIdTwiceInAnyRun | packages/artifact-store/src/repository.ts:155-204 | no interleaving makes a manifest hold one id twice |
| LeaseFencing.RefreshAdvances | packages/artifact-store/src/repository.ts:482-486 | a refresh always writes a later time than it read, on any clock |
| LeaseFencing.UnchangedMeansUnrefreshed | packages/artifact-store/src/repository.ts:723-734 | finding file, time and size unchanged proves that no refresh came between the two looks |
| LeaseFencing.StepKeeps | packages/artifact-store/src/repository.ts:399-649 | every step of every holder and recoverer keeps the lease invariant |
| LeaseFencing.VerifiedClaimFences | packages/artifact-store/src/repository.ts:536-577 | in every reachable state, a verified claim of a lease's owner file means that no refresh succeeded between the look, the claim and now |
| LeaseFencing.EndedOnce | packages/artifact-store/src/repository.ts:509-577 | each lease is ended at most once, by its own release or by one attempt |
| LeaseFencing.EndedForGood | packages/artifact-store/src/repository.ts:476-527 | after a lease has ended no refresh of it succeeds, in any continuation |
| LeaseFencing.RecoveredForGood | packages/artifact-store/src/repository.ts:476-577 | a recovered lease keeps for ever the refreshes the recoverer had seen |
| LeaseFencing.TwoStandOnlyIfOneStrays | packages/artifact-store/src/repository.ts:411-436 | in every reachable state two owner files stand in the lock directory only if one of them landed in a directory its creator did not make |
| LeaseFencing.StrayArisesIff | packages/artifact-store/src/repository.ts:416-426 | a step makes the first stray if and only if a creator writes its owner file while its directory is no longer at the lock path |
| LeaseFencing.ExclusiveWithoutStrays | packages/artifact-store/src/repository.ts:399-447 | at most one owner file stands, and at most one lease is refreshable, in every run in which each creator finds its own directory when it writes |
| LeaseFencing.ExclusionLostIff | packages/artifact-store/src/repository.ts:411-436 | while none strays, a step makes a second owner file stand if and only if a creator writes its own after its directory has gone from the lock path, and an owner stands in the directory now there |
| LeaseFencing.TwoLeasesCanCoexist | packages/artifact-store/src/repository.ts:411-436 | a run in which a stalled creator and its successor both hold a refreshable lease |
| LeaseFencing.TwoHoldWithoutStrays | packages/artifact-store/src/repository.ts:264-274 | a run without strays in which a holder whose lease was recovered and its successor both hold, neither released nor failed |
| LeaseFencing.OneOfTwoHoldersIsEvicted | packages/artifact-store/src/repository.ts:460-494 | of two leases held at once in a run without strays, the owner file of one is no longer in the directory at the lock path |
| LeaseFencing.EvictedForGood | packages/artifact-store/src/repository.ts:476-494 | in every continuation such a lease stays evicted and is never refreshed again |
| LeaseFencing.SecondHoldsIff | packages/artifact-store/src/repository.ts:411-447 | while none strays and one holds, a step makes a second holder if and only if a creator completes its owner file beside a held lease, one of the two being evicted |
| Passages.PreferredBreak | packages/agent-tools/src/evidence.ts:694-701 | the loop returns the first marker's break in the order of preference |
| Passages.BreakBounds | packages/agent-tools/src/evidence.ts:694-701 | the break leaves at least 600 units and passes the hard end, by one, only for a sentence that ends exactly there |
| Passages.CountNewlines | packages/agent-tools/src/evidence.ts:703-709 | counts the newlines of any text |
| Passages.SplitPassages | packages/agent-tools/src/evidence.ts:651-692 | on every text the passages are ordered, disjoint, non-empty, equal to the text at their offsets, tight, with right line numbers, and leave only white space uncovered; each is at most 1201 units long, and 1201 exactly in the case of `OverlongIff` |
| Passages.OverlongIff | packages/agent-tools/src/evidence.ts:651-701 | a passage is 1201 units long if and only if a sentence ends exactly at the limit and no paragraph or line break in the second half goes before it |
| Passages.LongSentence | packages/agent-tools/src/evidence.ts:651-701 | a concrete text with a passage of 1201 units that every split of it contains |
| Passages.SplitIsUnique | packages/agent-tools/src/evidence.ts:651-692 | that description leaves exactly one way to split a text |

## Left out

- GraphObjects.Graph.RemoveNode: on a graph with an edge from a socket to itself, which `addEdge` never adds, its contract says only that the node is gone.
- DocumentRuns.MaterializeGraph: says that it fails, not with which error; error messages and the first of several errors are not modelled.
- DocumentRuns.CheckProposed: which issue code a plan gets is stated for registries whose reducers keep their word; otherwise the source looks for "cycle" in the message.
- DocumentRuns.RunGraphDocument: when an execution fails without an error on any node, the contract says that one error for the graph is reported, not which.
- GraphStore.GraphRepository.ApplyBatch: what other clients do is a finite list of interferences, since an endless one would never let the source's loop end.
- Boards.QueryBoardView: the status, kind, assignee and sponsor filters are one predicate of the view.
- WorkItems.RefusedIff: candidates keep document order; sorting them by score and locale is not modelled.
- WorkItems.NextIdIsFresh: numbers are unbounded; ids beyond 2^53 lose precision in the source.
- Graphs.SocketIdRoundTrip: elsewhere socket ids are triples, so an unvalidated document whose edge names a node id with a colon is not modelled; validation always reports it.
- Passages.SplitPassages: texts are sequences of UTF-16 code units, so a surrogate pair is two units, as for the source's offsets.
- Aliasing of node and socket objects: they are values inside the graph's maps.
- Labels and positions on graph nodes, `diffGraphDocuments`, `ExecutionEngine.cache` and `clearCache`, marking while `execute` awaits a reducer.
- NaN, rounding and the precision of numbers: numbers are reals, file times too. A `runGraphDocument` result is the sockets' values without the conversion of values JSON cannot hold.
- The JSON text of the computation key: the key is the value that the text denotes, objects being maps. The schema version and an `order` that is not finite are not modelled.
- OntologyRuns.KeysStayAligned: for a delta that names one canonical key twice, only the number of edges is stated, not which key they match.
- A stored property that is undefined counts as absent, as in the JSON that documents are stored as; a user edit that sets one to undefined is modelled.
- `upsertStory`, board view edits and the fields of work items that no modelled rule reads.
- Reducers that break their word: a registry has distinct socket names per reducer and returns every declared output.
- The content of artifact bytes, the `noop` lease, and other processes writing a scope's manifest during one store's run.
- Directory times, so that an ownerless directory may be judged stale at any time; inode reuse; the two steps in which `owner-recovery.json` is created and written.
- SQLite, the creation of the first record, legacy imports, HTTP, authentication, user interface, and the bodies of the built-in reducers.
