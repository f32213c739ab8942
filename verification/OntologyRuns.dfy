/**
 * Runs of agent deltas and user edits over an ontology document (packages/graph/src/ontology.ts):
 * what survives every run, and under which condition keys and edges stay aligned.
 */
module OntologyRuns {
  import opened Wrappers
  import opened DataKinds
  import opened Documents
  import opened Ontologies

  datatype Action = Extract(delta: Delta) | Correct(edit: Edit)

  function Outcome(ids: Ids, d: Document, a: Action): Result<Document, GraphError> {
    match a
    case Extract(delta) => DeltaApplied(ids, d, delta)
    case Correct(edit) => Edited(ids, d, edit)
  }

  /** A step that throws leaves the document as it was. */
  function Acted(ids: Ids, d: Document, a: Action): Document {
    var r := Outcome(ids, d, a);
    if r.Success? then r.value else d
  }

  function ActedAll(ids: Ids, d: Document, actions: seq<Action>): Document
    decreases |actions|
  {
    if actions == [] then d else ActedAll(ids, Acted(ids, d, actions[0]), actions[1..])
  }

  /** The commands an action compiles to. */
  function CommandsOf(ids: Ids, d: Document, a: Action): Result<seq<Command>, GraphError> {
    match a
    case Extract(delta) => DeltaCommands(ids, d, EntityIds(d.nodes), Proposals(delta))
    case Correct(edit) => EditCommands(ids, d, edit)
  }

  /** An action that succeeds has reduced its commands. */
  lemma ActedReduces(ids: Ids, d: Document, a: Action)
    requires Outcome(ids, d, a).Success?
    ensures CommandsOf(ids, d, a).Success? && ReducedEach(d, CommandsOf(ids, d, a).value).Success?
    ensures var r := ReducedEach(d, CommandsOf(ids, d, a).value).value;
      Acted(ids, d, a).nodes == r.nodes && Acted(ids, d, a).edges == r.edges
  {
  }

  // ----- the commands of an action, in parts --------------------------------

  function EdgeCommands(ids: Ids, g: Document, id: string, source: Option<string>, k: string): seq<Command> {
    if source.Some? then UpsertEdge(ids, g, source.value, id, k) else []
  }

  /** The entity a proposal wants in a socket, if any. */
  function SourceOf(ids: Ids, p: Proposal, k: string): Option<string> {
    match p
    case EntityProposal(_, _, _) => None
    case RelationProposal(_, subjectKey, _, objectKey, _) =>
      Some(ids.make(Entity, ids.canonical(if k == "subject" then subjectKey else objectKey)))
    case ClaimProposal(_, subject, _, _, _) =>
      if k == "subject" && subject.Some? && subject.value != ""
      then Some(ids.make(Entity, ids.canonical(subject.value))) else None
  }

  lemma CommandsInParts(ids: Ids, g: Document, available: set<string>, p: Proposal)
    requires ProposalCommands(ids, g, available, p).Success? && (p.EntityProposal? || !UserOwned(g.nodes, IdOf(ids, p)))
    ensures var id := IdOf(ids, p);
      UpsertNode(g, NodeFor(id, p)).Success? &&
      ProposalCommands(ids, g, available, p).value.commands ==
        UpsertNode(g, NodeFor(id, p)).value
        + EdgeCommands(ids, g, id, SourceOf(ids, p, "subject"), "subject")
        + EdgeCommands(ids, g, id, SourceOf(ids, p, "object"), "object")
  {
  }

  /** The sources an edit names, where its commands are compiled. */
  function EditSource(ids: Ids, n: NodeDoc, e: Edit, k: string): Option<string> {
    match e
    case RelationEdit(_, subjectKey, _, objectKey, _) =>
      var key := if k == "subject" then KeyAfter(n, subjectKey, "subjectEntityKey")
        else KeyAfter(n, objectKey, "objectEntityKey");
      if key.Success? then Some(ids.make(Entity, ids.canonical(key.value))) else None
    case ClaimEdit(_, subject, _, _, _) =>
      if k == "subject" && subject.Given? && subject.value != ""
      then Some(ids.make(Entity, ids.canonical(subject.value))) else None
    case _ => None
  }

  lemma EditEdgesInParts(ids: Ids, d: Document, n: NodeDoc, e: Edit)
    requires !e.Removal? && EditEdges(ids, d, n, e).Success?
    ensures EditEdges(ids, d, n, e).value ==
      EdgeCommands(ids, d, e.id, EditSource(ids, n, e, "subject"), "subject")
      + EdgeCommands(ids, d, e.id, EditSource(ids, n, e, "object"), "object")
  {
  }

  lemma EditInParts(ids: Ids, d: Document, e: Edit)
    requires !e.Removal? && EditCommands(ids, d, e).Success?
    ensures FindNode(d.nodes, e.id).Some?
    ensures var n := FindNode(d.nodes, e.id).value;
      EditCommands(ids, d, e).value ==
        [NodeUpdate(e.id, Some(EditTitle(n, e)), Some(EditPatch(n, e)))]
        + EdgeCommands(ids, d, e.id, EditSource(ids, n, e, "subject"), "subject")
        + EdgeCommands(ids, d, e.id, EditSource(ids, n, e, "object"), "object")
  {
    EditEdgesInParts(ids, d, FindNode(d.nodes, e.id).value, e);
  }

  // ----- user authority -----------------------------------------------------

  /** The command leaves node `x` alone. */
  predicate Leaves(c: Command, x: string) {
    match c
    case NodeUpdate(id, _, _) => id != x
    case NodeMove(id, _) => id != x
    case NodeRemove(id) => id != x
    case _ => true
  }

  ghost predicate AllLeave(cs: seq<Command>, x: string) {
    forall c | c in cs :: Leaves(c, x)
  }

  lemma CommandLeaves(d: Document, c: Command, x: string)
    requires Leaves(c, x) && FindNode(d.nodes, x).Some? && Reduced(d, c).Success?
    ensures FindNode(Reduced(d, c).value.nodes, x) == FindNode(d.nodes, x)
  {
    match c
    case NodeAdd(n) => AppendedNode(d.nodes, n, x);
    case NodeUpdate(id, labelText, inputs) => EditedNode(d.nodes, id, n => Patched(n, labelText, inputs), x);
    case NodeMove(id, position) => EditedNode(d.nodes, id, (n: NodeDoc) => n.(position := position), x);
    case NodeRemove(id) => NodesWithoutFinds(d.nodes, id, x);
    case _ =>
  }

  lemma {:induction false} CommandsLeave(d: Document, cs: seq<Command>, x: string)
    requires AllLeave(cs, x) && FindNode(d.nodes, x).Some? && ReducedEach(d, cs).Success?
    ensures FindNode(ReducedEach(d, cs).value.nodes, x) == FindNode(d.nodes, x)
    decreases |cs|
  {
    if cs != [] {
      CommandLeaves(d, cs[0], x);
      CommandsLeave(Reduced(d, cs[0]).value, cs[1..], x);
    }
  }

  lemma UpsertNodeLeaves(d: Document, n: NodeDoc, x: string)
    requires UserOwned(d.nodes, x) && UpsertNode(d, n).Success?
    ensures AllLeave(UpsertNode(d, n).value, x)
  {
  }

  lemma EdgeCommandsLeave(ids: Ids, g: Document, id: string, source: Option<string>, k: string, x: string)
    ensures AllLeave(EdgeCommands(ids, g, id, source, k), x)
  {
  }

  lemma ProposalLeaves(ids: Ids, d: Document, available: set<string>, p: Proposal, x: string)
    requires UserOwned(d.nodes, x) && ProposalCommands(ids, d, available, p).Success?
    ensures AllLeave(ProposalCommands(ids, d, available, p).value.commands, x)
  {
    FoundNode(d.nodes, x);
    if p.EntityProposal? || !UserOwned(d.nodes, IdOf(ids, p)) {
      var id := IdOf(ids, p);
      CommandsInParts(ids, d, available, p);
      UpsertNodeLeaves(d, NodeFor(id, p), x);
      EdgeCommandsLeave(ids, d, id, SourceOf(ids, p, "subject"), "subject", x);
      EdgeCommandsLeave(ids, d, id, SourceOf(ids, p, "object"), "object", x);
    }
  }

  lemma {:induction false} DeltaLeaves(ids: Ids, d: Document, available: set<string>, ps: seq<Proposal>, x: string)
    requires UserOwned(d.nodes, x) && DeltaCommands(ids, d, available, ps).Success?
    ensures AllLeave(DeltaCommands(ids, d, available, ps).value, x)
    decreases |ps|
  {
    if ps != [] {
      ProposalLeaves(ids, d, available, ps[0], x);
      DeltaLeaves(ids, d, ProposalCommands(ids, d, available, ps[0]).value.available, ps[1..], x);
    }
  }

  predicate Edits(a: Action, x: string) {
    a.Correct? && a.edit.id == x
  }

  lemma EditLeaves(ids: Ids, d: Document, e: Edit, x: string)
    requires e.id != x && EditCommands(ids, d, e).Success?
    ensures AllLeave(EditCommands(ids, d, e).value, x)
  {
    if !e.Removal? {
      EditInParts(ids, d, e);
      var n := FindNode(d.nodes, e.id).value;
      EdgeCommandsLeave(ids, d, e.id, EditSource(ids, n, e, "subject"), "subject", x);
      EdgeCommandsLeave(ids, d, e.id, EditSource(ids, n, e, "object"), "object", x);
    }
  }

  lemma CommandsOfLeave(ids: Ids, d: Document, a: Action, x: string)
    requires UserOwned(d.nodes, x) && !Edits(a, x) && CommandsOf(ids, d, a).Success?
    ensures AllLeave(CommandsOf(ids, d, a).value, x)
  {
    match a
    case Extract(delta) => DeltaLeaves(ids, d, EntityIds(d.nodes), Proposals(delta), x);
    case Correct(edit) => EditLeaves(ids, d, edit, x);
  }

  lemma ActionLeaves(ids: Ids, d: Document, a: Action, x: string)
    requires UserOwned(d.nodes, x) && !Edits(a, x)
    ensures FindNode(Acted(ids, d, a).nodes, x) == FindNode(d.nodes, x)
  {
    if Outcome(ids, d, a).Success? {
      ActedReduces(ids, d, a);
      CommandsOfLeave(ids, d, a, x);
      CommandsLeave(d, CommandsOf(ids, d, a).value, x);
    }
  }

  /**
   * User authority: on any document and over any run of deltas and edits, a node the user owns stays
   * exactly as it is until a user edit names it.
   */
  lemma {:induction false} AuthorityHolds(ids: Ids, d: Document, actions: seq<Action>, x: string)
    requires UserOwned(d.nodes, x) && forall i | 0 <= i < |actions| :: !Edits(actions[i], x)
    ensures FindNode(ActedAll(ids, d, actions).nodes, x) == FindNode(d.nodes, x)
    decreases |actions|
  {
    if actions != [] {
      ActionLeaves(ids, d, actions[0], x);
      AuthorityHolds(ids, Acted(ids, d, actions[0]), actions[1..], x);
    }
  }

  // ----- reference edges do not dangle ---------------------------------------

  /** Every edge comes from a node of the document. */
  ghost predicate SourcesExist(d: Document) {
    forall e | e in d.edges :: HasNode(d.nodes, e.sourceNode)
  }

  /** The command removes no node, and an edge it adds comes from a known source. */
  predicate Sourced(c: Command, sources: set<string>) {
    !c.NodeRemove? && (c.EdgeAdd? ==> c.edge.sourceNode in sources)
  }

  ghost predicate AllSourced(cs: seq<Command>, sources: set<string>) {
    forall c | c in cs :: Sourced(c, sources)
  }

  ghost predicate HasNodes(d: Document, xs: set<string>) {
    forall x | x in xs :: HasNode(d.nodes, x)
  }

  lemma EditedStays(nodes: seq<NodeDoc>, id: string, edit: NodeDoc -> NodeDoc, x: string)
    requires HasNode(nodes, x) && forall n :: edit(n).id == n.id
    ensures HasNode(EditFirst(nodes, id, edit), x)
  {
    var i :| 0 <= i < |nodes| && nodes[i].id == x;
    EditedNode(nodes, id, edit, x);
    assert EditFirst(nodes, id, edit)[i].id == x;
  }

  lemma AppendedStays(nodes: seq<NodeDoc>, n: NodeDoc, x: string)
    requires HasNode(nodes, x)
    ensures HasNode(nodes + [n], x)
  {
    var i :| 0 <= i < |nodes| && nodes[i].id == x;
    assert (nodes + [n])[i].id == x;
  }

  lemma NodeStays(d: Document, c: Command, x: string)
    requires !c.NodeRemove? && HasNode(d.nodes, x) && Reduced(d, c).Success?
    ensures HasNode(Reduced(d, c).value.nodes, x)
  {
    match c {
      case NodeUpdate(id, labelText, inputs) => EditedStays(d.nodes, id, n => Patched(n, labelText, inputs), x);
      case NodeMove(id, position) => EditedStays(d.nodes, id, (n: NodeDoc) => n.(position := position), x);
      case NodeAdd(n) => AppendedStays(d.nodes, n, x);
      case _ =>
    }
  }

  lemma SourcedKeeps(d: Document, c: Command, sources: set<string>)
    requires SourcesExist(d) && HasNodes(d, sources) && Sourced(c, sources) && Reduced(d, c).Success?
    ensures SourcesExist(Reduced(d, c).value) && HasNodes(Reduced(d, c).value, sources)
  {
    var d' := Reduced(d, c).value;
    forall x | HasNode(d.nodes, x) ensures HasNode(d'.nodes, x) {
      NodeStays(d, c, x);
    }
    if c.EdgeRemove? {
      EdgesWithoutMembers(d.edges, c.id);
    }
  }

  lemma {:induction false} AllSourcedKeep(d: Document, cs: seq<Command>, sources: set<string>)
    requires SourcesExist(d) && HasNodes(d, sources) && AllSourced(cs, sources) && ReducedEach(d, cs).Success?
    ensures SourcesExist(ReducedEach(d, cs).value) && HasNodes(ReducedEach(d, cs).value, sources)
    decreases |cs|
  {
    if cs != [] {
      SourcedKeeps(d, cs[0], sources);
      AllSourcedKeep(Reduced(d, cs[0]).value, cs[1..], sources);
    }
  }

  lemma EdgeCommandsSourced(ids: Ids, g: Document, id: string, source: Option<string>, k: string, sources: set<string>)
    requires source.Some? ==> source.value in sources
    ensures AllSourced(EdgeCommands(ids, g, id, source, k), sources)
  {
  }

  lemma SourcesAreKnown(ids: Ids, g: Document, available: set<string>, p: Proposal, k: string)
    requires ProposalCommands(ids, g, available, p).Success? && (p.EntityProposal? || !UserOwned(g.nodes, IdOf(ids, p)))
    requires k == "subject" || k == "object"
    ensures SourceOf(ids, p, k).Some? ==> SourceOf(ids, p, k).value in available
  {
  }

  lemma ProposalSourced(ids: Ids, g: Document, available: set<string>, p: Proposal)
    requires ProposalCommands(ids, g, available, p).Success?
    ensures AllSourced(ProposalCommands(ids, g, available, p).value.commands, available)
  {
    if p.EntityProposal? || !UserOwned(g.nodes, IdOf(ids, p)) {
      var id := IdOf(ids, p);
      CommandsInParts(ids, g, available, p);
      SourcesAreKnown(ids, g, available, p, "subject");
      SourcesAreKnown(ids, g, available, p, "object");
      EdgeCommandsSourced(ids, g, id, SourceOf(ids, p, "subject"), "subject", available);
      EdgeCommandsSourced(ids, g, id, SourceOf(ids, p, "object"), "object", available);
    }
  }

  /** An entity that a proposal makes known is in the document afterwards. */
  lemma ProposalMakesKnown(ids: Ids, g: Document, d: Document, available: set<string>, p: Proposal)
    requires ProposalCommands(ids, g, available, p).Success? && SourcesExist(d) && HasNodes(d, available)
    requires forall x | HasNode(g.nodes, x) :: HasNode(d.nodes, x)
    requires ReducedEach(d, ProposalCommands(ids, g, available, p).value.commands).Success?
    ensures var d' := ReducedEach(d, ProposalCommands(ids, g, available, p).value.commands).value;
      && SourcesExist(d') && HasNodes(d', ProposalCommands(ids, g, available, p).value.available)
      && (forall x | HasNode(g.nodes, x) :: HasNode(d'.nodes, x))
  {
    var planned := ProposalCommands(ids, g, available, p).value;
    ProposalSourced(ids, g, available, p);
    AllSourcedKeep(d, planned.commands, available);
    forall x | HasNode(g.nodes, x) ensures HasNode(ReducedEach(d, planned.commands).value.nodes, x) {
      AllSourcedWith(d, planned.commands, available, x);
    }
    if p.EntityProposal? {
      EntityIsThere(ids, g, d, p);
    }
  }

  lemma AllSourcedWith(d: Document, cs: seq<Command>, sources: set<string>, x: string)
    requires SourcesExist(d) && HasNodes(d, sources) && AllSourced(cs, sources) && ReducedEach(d, cs).Success?
    requires HasNode(d.nodes, x)
    ensures HasNode(ReducedEach(d, cs).value.nodes, x)
  {
    AllSourcedKeep(d, cs, sources + {x});
    assert x in sources + {x};
  }

  lemma EntityIsThere(ids: Ids, g: Document, d: Document, p: Proposal)
    requires p.EntityProposal? && StableId(ids, Entity, p.key).Success?
    requires var n := NodeFor(StableId(ids, Entity, p.key).value, p);
      UpsertNode(g, n).Success? && ReducedEach(d, UpsertNode(g, n).value).Success?
    requires forall x | HasNode(g.nodes, x) :: HasNode(d.nodes, x)
    ensures var n := NodeFor(StableId(ids, Entity, p.key).value, p);
      HasNode(ReducedEach(d, UpsertNode(g, n).value).value.nodes, n.id)
  {
    var n := NodeFor(StableId(ids, Entity, p.key).value, p);
    var cs := UpsertNode(g, n).value;
    FoundNode(g.nodes, n.id);
    if cs != [] {
      assert cs == [cs[0]];
      OneCommand(d, cs[0]);
      if cs[0].NodeAdd? {
        assert Reduced(d, cs[0]).value.nodes[|d.nodes|].id == n.id;
      } else {
        NodeStays(d, cs[0], n.id);
      }
    }
  }

  lemma {:induction false} DeltaSources(ids: Ids, g: Document, d: Document, available: set<string>, ps: seq<Proposal>)
    requires DeltaCommands(ids, g, available, ps).Success? && SourcesExist(d) && HasNodes(d, available)
    requires forall x | HasNode(g.nodes, x) :: HasNode(d.nodes, x)
    requires ReducedEach(d, DeltaCommands(ids, g, available, ps).value).Success?
    ensures SourcesExist(ReducedEach(d, DeltaCommands(ids, g, available, ps).value).value)
    decreases |ps|
  {
    if ps != [] {
      var first := ProposalCommands(ids, g, available, ps[0]).value;
      var rest := DeltaCommands(ids, g, first.available, ps[1..]).value;
      ReducedConcat(d, first.commands, rest);
      ProposalMakesKnown(ids, g, d, available, ps[0]);
      DeltaSources(ids, g, ReducedEach(d, first.commands).value, first.available, ps[1..]);
    }
  }

  lemma RemovalSources(d: Document, id: string)
    requires SourcesExist(d) && Reduced(d, NodeRemove(id)).Success?
    ensures SourcesExist(Reduced(d, NodeRemove(id)).value)
  {
    var d' := Reduced(d, NodeRemove(id)).value;
    EdgesOffMembers(d.edges, id);
    NodesWithoutMembers(d.nodes, id);
    forall e | e in d'.edges ensures HasNode(d'.nodes, e.sourceNode) {
      var i :| 0 <= i < |d.nodes| && d.nodes[i].id == e.sourceNode;
      assert d.nodes[i] in d'.nodes;
    }
  }

  lemma EditSourcesAreThere(ids: Ids, d: Document, e: Edit, k: string)
    requires !e.Removal? && FindNode(d.nodes, e.id).Some? && EditCommands(ids, d, e).Success?
      && (k == "subject" || k == "object")
    ensures var source := EditSource(ids, FindNode(d.nodes, e.id).value, e, k);
      source.Some? ==> HasNode(d.nodes, source.value)
  {
  }

  lemma EditSources(ids: Ids, d: Document, e: Edit)
    requires SourcesExist(d) && EditCommands(ids, d, e).Success?
      && ReducedEach(d, EditCommands(ids, d, e).value).Success?
    ensures SourcesExist(ReducedEach(d, EditCommands(ids, d, e).value).value)
  {
    var cs := EditCommands(ids, d, e).value;
    if e.Removal? {
      OneCommand(d, NodeRemove(e.id));
      RemovalSources(d, e.id);
    } else {
      var sources := set n | n in d.nodes :: n.id;
      EditInParts(ids, d, e);
      var n := FindNode(d.nodes, e.id).value;
      var s, o := EditSource(ids, n, e, "subject"), EditSource(ids, n, e, "object");
      EditSourcesAreThere(ids, d, e, "subject");
      EditSourcesAreThere(ids, d, e, "object");
      EdgeCommandsSourced(ids, d, e.id, s, "subject", sources);
      EdgeCommandsSourced(ids, d, e.id, o, "object", sources);
      AllSourcedKeep(d, cs, sources);
    }
  }

  lemma ActionSources(ids: Ids, d: Document, a: Action)
    requires SourcesExist(d)
    ensures SourcesExist(Acted(ids, d, a))
  {
    if Outcome(ids, d, a).Success? {
      ActedReduces(ids, d, a);
      match a
      case Extract(delta) => DeltaSources(ids, d, d, EntityIds(d.nodes), Proposals(delta));
      case Correct(edit) => EditSources(ids, d, edit);
    }
  }

  /** On any document and over any run, no reference edge comes to dangle: its entity is in the document. */
  lemma {:induction false} SourcesStay(ids: Ids, d: Document, actions: seq<Action>)
    requires SourcesExist(d)
    ensures SourcesExist(ActedAll(ids, d, actions))
    decreases |actions|
  {
    if actions != [] {
      ActionSources(ids, d, actions[0]);
      SourcesStay(ids, Acted(ids, d, actions[0]), actions[1..]);
    }
  }

  // ----- one edge for each socket ---------------------------------------------

  ghost predicate Apart(es: seq<EdgeDoc>) {
    forall i, j | 0 <= i < j < |es| :: !SameTarget(es[i], es[j])
  }

  ghost predicate Cross(a: seq<EdgeDoc>, b: seq<EdgeDoc>) {
    forall e, f | e in a && f in b :: !SameTarget(e, f)
  }

  lemma ApartConcat(a: seq<EdgeDoc>, b: seq<EdgeDoc>)
    ensures Apart(a + b) <==> Apart(a) && Apart(b) && Cross(a, b)
  {
    var c := a + b;
    if Apart(c) {
      forall i, j | 0 <= i < j < |a| ensures !SameTarget(a[i], a[j]) {
        assert c[i] == a[i] && c[j] == a[j];
      }
      forall i, j | 0 <= i < j < |b| ensures !SameTarget(b[i], b[j]) {
        assert c[|a| + i] == b[i] && c[|a| + j] == b[j];
      }
      forall e, f | e in a && f in b ensures !SameTarget(e, f) {
        var i :| 0 <= i < |a| && a[i] == e;
        var j :| 0 <= j < |b| && b[j] == f;
        assert c[i] == e && c[|a| + j] == f;
      }
    }
  }

  /** The edges a list of commands adds, in order, and the edge ids it removes. */
  function Adds(cs: seq<Command>): seq<EdgeDoc> {
    if cs == [] then [] else (if cs[0].EdgeAdd? then [cs[0].edge] else []) + Adds(cs[1..])
  }

  function Removed(cs: seq<Command>): set<string> {
    set c | c in cs && c.EdgeRemove? :: c.id
  }

  lemma {:induction false} AddsConcat(a: seq<Command>, b: seq<Command>)
    ensures Adds(a + b) == Adds(a) + Adds(b) && Removed(a + b) == Removed(a) + Removed(b)
  {
    RemovedConcat(a, b);
    if a == [] {
      assert a + b == b;
    } else {
      assert (a + b)[0] == a[0] && (a + b)[1..] == a[1..] + b;
      AddsConcat(a[1..], b);
      assert Adds(a) == (if a[0].EdgeAdd? then [a[0].edge] else []) + Adds(a[1..]);
    }
  }

  lemma RemovedConcat(a: seq<Command>, b: seq<Command>)
    ensures Removed(a + b) == Removed(a) + Removed(b)
  {
    assert forall c :: c in a + b <==> c in a || c in b;
  }

  lemma OneOf(c: Command)
    ensures Removed([c]) == if c.EdgeRemove? then {c.id} else {}
    ensures Adds([c]) == if c.EdgeAdd? then [c.edge] else []
  {
    assert forall x | x in [c] :: x == c;
    if c.EdgeRemove? {
      assert c in [c];
    }
  }

  function Kept(edges: seq<EdgeDoc>, gone: set<string>): seq<EdgeDoc> {
    if edges == [] then [] else (if edges[0].id in gone then [] else [edges[0]]) + Kept(edges[1..], gone)
  }

  lemma {:induction false} KeptMembers(edges: seq<EdgeDoc>, gone: set<string>)
    ensures forall e :: e in Kept(edges, gone) <==> e in edges && e.id !in gone
    ensures Apart(edges) ==> Apart(Kept(edges, gone))
  {
    if edges != [] {
      var head, tail := [edges[0]], edges[1..];
      assert edges == head + tail;
      KeptMembers(tail, gone);
      ApartConcat(head, tail);
      ApartConcat(if edges[0].id in gone then [] else head, Kept(tail, gone));
    }
  }

  lemma {:induction false} KeptAppended(edges: seq<EdgeDoc>, e: EdgeDoc, gone: set<string>)
    requires e.id !in gone
    ensures Kept(edges + [e], gone) == Kept(edges, gone) + [e]
  {
    if edges != [] {
      assert (edges + [e])[1..] == edges[1..] + [e];
      KeptAppended(edges[1..], e, gone);
    }
  }

  lemma {:induction false} KeptWithout(edges: seq<EdgeDoc>, id: string, gone: set<string>)
    ensures Kept(EdgesWithout(edges, id), gone) == Kept(edges, {id} + gone)
  {
    if edges != [] {
      KeptWithout(edges[1..], id, gone);
      var rest := EdgesWithout(edges[1..], id);
      if edges[0].id == id {
        assert [] + rest == rest;
      } else {
        assert ([edges[0]] + rest)[1..] == rest;
      }
    }
  }

  lemma {:induction false} KeptAll(edges: seq<EdgeDoc>)
    ensures Kept(edges, {}) == edges
  {
    if edges != [] {
      KeptAll(edges[1..]);
    }
  }

  /** No node goes, and no edge that is added is removed again. */
  ghost predicate Tidy(cs: seq<Command>) {
    (forall c | c in cs :: !c.NodeRemove?) && forall e | e in Adds(cs) :: e.id !in Removed(cs)
  }

  lemma TidyRest(cs: seq<Command>)
    requires Tidy(cs) && cs != []
    ensures Tidy(cs[1..]) && (cs[0].EdgeAdd? ==> cs[0].edge.id !in Removed(cs[1..]))
    ensures Removed(cs) == if cs[0].EdgeRemove? then {cs[0].id} + Removed(cs[1..]) else Removed(cs[1..])
    ensures Adds(cs) == if cs[0].EdgeAdd? then [cs[0].edge] + Adds(cs[1..]) else Adds(cs[1..])
  {
    assert cs == [cs[0]] + cs[1..];
    AddsConcat([cs[0]], cs[1..]);
    OneOf(cs[0]);
  }

  /** One command on the edges; `gone` and `adds` are what the rest of the commands removes and adds. */
  lemma OneCommandsEdges(before: seq<EdgeDoc>, c: Command, gone: set<string>, adds: seq<EdgeDoc>)
    requires c.EdgeAdd? ==> c.edge.id !in gone
    ensures c.EdgeAdd? ==> Kept(before + [c.edge], gone) + adds == Kept(before, gone) + ([c.edge] + adds)
    ensures c.EdgeRemove? ==> Kept(EdgesWithout(before, c.id), gone) + adds == Kept(before, {c.id} + gone) + adds
  {
    if c.EdgeAdd? {
      KeptAppended(before, c.edge, gone);
      assert Kept(before, gone) + [c.edge] + adds == Kept(before, gone) + ([c.edge] + adds);
    } else if c.EdgeRemove? {
      KeptWithout(before, c.id, gone);
    }
  }

  lemma ReducedEdges(d: Document, c: Command)
    requires !c.NodeRemove? && Reduced(d, c).Success?
    ensures Reduced(d, c).value.edges ==
      if c.EdgeAdd? then d.edges + [c.edge] else if c.EdgeRemove? then EdgesWithout(d.edges, c.id) else d.edges
  {
  }

  /** The edges afterwards: the old ones that were not removed, and then the added ones. */
  lemma {:induction false} EdgesAfter(d: Document, cs: seq<Command>)
    requires Tidy(cs) && ReducedEach(d, cs).Success?
    ensures ReducedEach(d, cs).value.edges == Kept(d.edges, Removed(cs)) + Adds(cs)
    decreases |cs|
  {
    if cs == [] {
      assert Removed(cs) == {};
      KeptAll(d.edges);
    } else {
      var d1 := Reduced(d, cs[0]).value;
      TidyRest(cs);
      EdgesAfter(d1, cs[1..]);
      assert cs[0] in cs;
      ReducedEdges(d, cs[0]);
      OneCommandsEdges(d.edges, cs[0], Removed(cs[1..]), Adds(cs[1..]));
    }
  }

  /** How edge commands are compiled against `g`: an added edge replaces the one its socket has. */
  ghost predicate Compiled(ids: Ids, g: Document, cs: seq<Command>) {
    && (forall c | c in cs :: !c.NodeRemove?)
    && (forall id | id in Removed(cs) :: exists f :: f in g.edges && f.id == id)
    && (forall e | e in Adds(cs) :: Replaces(ids, g, cs, e))
  }

  ghost predicate Replaces(ids: Ids, g: Document, cs: seq<Command>, e: EdgeDoc) {
    var current := FindInto(g.edges, e.targetNode, e.targetSocket);
    IsReference(ids, e) && (current.Some? ==> current.value.id in Removed(cs) && current.value.id != e.id)
  }

  lemma CompiledConcat(ids: Ids, g: Document, a: seq<Command>, b: seq<Command>)
    requires Compiled(ids, g, a) && Compiled(ids, g, b)
    ensures Compiled(ids, g, a + b)
  {
    AddsConcat(a, b);
    forall e | e in Adds(a + b) ensures Replaces(ids, g, a + b, e) {
      assert if e in Adds(a) then Replaces(ids, g, a, e) else Replaces(ids, g, b, e);
    }
  }

  lemma NodeCommandCompiled(ids: Ids, g: Document, cs: seq<Command>)
    requires cs == [] || (|cs| == 1 && (cs[0].NodeAdd? || cs[0].NodeUpdate?))
    ensures Compiled(ids, g, cs) && Adds(cs) == []
  {
    if cs != [] {
      assert cs == [cs[0]];
      OneOf(cs[0]);
    }
  }

  /** The edge an upsert adds, unless its socket has it already. */
  function Moved(ids: Ids, g: Document, id: string, source: Option<string>, k: string): Option<EdgeDoc> {
    if source.None? then None
    else
      var edge := ReferenceEdge(ids, source.value, id, k);
      var current := FindInto(g.edges, id, k);
      if current.Some? && current.value.id == edge.id then None else Some(edge)
  }

  function AsSeq(e: Option<EdgeDoc>): seq<EdgeDoc> {
    if e.Some? then [e.value] else []
  }

  lemma EdgeCommandsCompiled(ids: Ids, g: Document, id: string, source: Option<string>, k: string)
    requires k == "subject" || k == "object"
    ensures Adds(EdgeCommands(ids, g, id, source, k)) == AsSeq(Moved(ids, g, id, source, k))
    ensures Compiled(ids, g, EdgeCommands(ids, g, id, source, k))
  {
    var cs := EdgeCommands(ids, g, id, source, k);
    FoundInto(g.edges, id, k);
    if source.Some? && cs != [] {
      var add := [EdgeAdd(ReferenceEdge(ids, source.value, id, k))];
      var current := FindInto(g.edges, id, k);
      OneOf(add[0]);
      if current.Some? {
        var remove := [EdgeRemove(current.value.id)];
        assert cs == remove + add;
        AddsConcat(remove, add);
        OneOf(remove[0]);
      } else {
        assert cs == [] + add == add;
      }
    }
  }

  lemma CompiledTidy(ids: Ids, g: Document, cs: seq<Command>)
    requires GoodIds(ids) && References(ids, g.edges) && Compiled(ids, g, cs)
    ensures Tidy(cs)
  {
    forall e | e in Adds(cs) ensures e.id !in Removed(cs) {
      assert Replaces(ids, g, cs, e);
      if e.id in Removed(cs) {
        var f :| f in g.edges && f.id == e.id;
        SameIdSameTarget(ids, g.edges, e, f);
        FoundReference(ids, g.edges, f);
      }
    }
  }

  /** What is kept shares no socket with what is added. */
  lemma KeptCrossesAdded(ids: Ids, g: Document, cs: seq<Command>)
    requires References(ids, g.edges) && Compiled(ids, g, cs)
    ensures Cross(Kept(g.edges, Removed(cs)), Adds(cs))
  {
    KeptMembers(g.edges, Removed(cs));
    forall f, e | f in Kept(g.edges, Removed(cs)) && e in Adds(cs) ensures !SameTarget(f, e) {
      assert Replaces(ids, g, cs, e);
      FoundReference(ids, g.edges, f);
    }
  }

  lemma KeptAndAddedRefer(ids: Ids, g: Document, cs: seq<Command>)
    requires References(ids, g.edges) && Compiled(ids, g, cs)
    ensures forall e | e in Kept(g.edges, Removed(cs)) + Adds(cs) :: IsReference(ids, e)
  {
    KeptMembers(g.edges, Removed(cs));
    forall e | e in Kept(g.edges, Removed(cs)) + Adds(cs) ensures IsReference(ids, e) {
      if e in g.edges {
        var i :| 0 <= i < |g.edges| && g.edges[i] == e;
      } else {
        assert Replaces(ids, g, cs, e);
      }
    }
  }

  lemma ReferencesIff(ids: Ids, es: seq<EdgeDoc>)
    requires forall e | e in es :: IsReference(ids, e)
    ensures References(ids, es) <==> Apart(es)
  {
    forall i | 0 <= i < |es| ensures IsReference(ids, es[i]) {
      assert es[i] in es;
    }
  }

  /** Reducing compiled commands keeps one edge for each socket if and only if they add no two edges into one. */
  lemma SingleIff(ids: Ids, g: Document, cs: seq<Command>)
    requires GoodIds(ids) && References(ids, g.edges) && Compiled(ids, g, cs) && ReducedEach(g, cs).Success?
    ensures References(ids, ReducedEach(g, cs).value.edges) <==> Apart(Adds(cs))
  {
    var kept, added := Kept(g.edges, Removed(cs)), Adds(cs);
    CompiledTidy(ids, g, cs);
    EdgesAfter(g, cs);
    assert Apart(kept) by {
      KeptMembers(g.edges, Removed(cs));
    }
    ApartConcat(kept, added);
    KeptCrossesAdded(ids, g, cs);
    KeptAndAddedRefer(ids, g, cs);
    ReferencesIff(ids, kept + added);
  }

  // What deltas and edits add.

  /** The edge a proposal moves into a socket, if it does. */
  function MovedBy(ids: Ids, g: Document, p: Proposal, k: string): Option<EdgeDoc> {
    if UserOwned(g.nodes, IdOf(ids, p)) then None else Moved(ids, g, IdOf(ids, p), SourceOf(ids, p, k), k)
  }

  function AddedBy(ids: Ids, g: Document, p: Proposal): seq<EdgeDoc> {
    AsSeq(MovedBy(ids, g, p, "subject")) + AsSeq(MovedBy(ids, g, p, "object"))
  }

  lemma ProposalAdds(ids: Ids, g: Document, available: set<string>, p: Proposal)
    requires ProposalCommands(ids, g, available, p).Success?
    ensures Compiled(ids, g, ProposalCommands(ids, g, available, p).value.commands)
    ensures Adds(ProposalCommands(ids, g, available, p).value.commands) == AddedBy(ids, g, p)
  {
    var id, cs := IdOf(ids, p), ProposalCommands(ids, g, available, p).value.commands;
    if UserOwned(g.nodes, id) {
      NodeCommandCompiled(ids, g, []);
      OwnedCommands(ids, g, available, p);
    } else {
      var s, o := SourceOf(ids, p, "subject"), SourceOf(ids, p, "object");
      CommandsInParts(ids, g, available, p);
      var c1, c2, c3 := UpsertNode(g, NodeFor(id, p)).value, EdgeCommands(ids, g, id, s, "subject"),
        EdgeCommands(ids, g, id, o, "object");
      NodeCommandCompiled(ids, g, c1);
      InPartsAdd(ids, g, id, c1, s, o);
    }
  }

  lemma OwnedCommands(ids: Ids, g: Document, available: set<string>, p: Proposal)
    requires ProposalCommands(ids, g, available, p).Success? && UserOwned(g.nodes, IdOf(ids, p))
    ensures ProposalCommands(ids, g, available, p).value.commands == []
  {
  }

  lemma InPartsAdd(ids: Ids, g: Document, id: string, c1: seq<Command>, s: Option<string>, o: Option<string>)
    requires Compiled(ids, g, c1) && Adds(c1) == []
    ensures var cs := c1 + EdgeCommands(ids, g, id, s, "subject") + EdgeCommands(ids, g, id, o, "object");
      Compiled(ids, g, cs)
      && Adds(cs) == AsSeq(Moved(ids, g, id, s, "subject")) + AsSeq(Moved(ids, g, id, o, "object"))
  {
    var c2, c3 := EdgeCommands(ids, g, id, s, "subject"), EdgeCommands(ids, g, id, o, "object");
    EdgeCommandsCompiled(ids, g, id, s, "subject");
    EdgeCommandsCompiled(ids, g, id, o, "object");
    CompiledConcat(ids, g, c1, c2);
    CompiledConcat(ids, g, c1 + c2, c3);
    AddsConcat(c1, c2);
    AddsConcat(c1 + c2, c3);
  }

  /** No two proposals of the delta move an edge into the same socket of the same node. */
  ghost predicate MovesApart(ids: Ids, g: Document, ps: seq<Proposal>) {
    forall i, j | 0 <= i < j < |ps| :: !BothMove(ids, g, ps[i], ps[j])
  }

  ghost predicate BothMove(ids: Ids, g: Document, p: Proposal, q: Proposal) {
    IdOf(ids, p) == IdOf(ids, q) &&
    exists k | k in {"subject", "object"} :: MovedBy(ids, g, p, k).Some? && MovedBy(ids, g, q, k).Some?
  }

  lemma AddedByOne(ids: Ids, g: Document, p: Proposal)
    ensures Apart(AddedBy(ids, g, p))
  {
  }

  lemma AddedIsMoved(ids: Ids, g: Document, p: Proposal, e: EdgeDoc)
    requires e in AddedBy(ids, g, p)
    ensures e.targetSocket in {"subject", "object"} && MovedBy(ids, g, p, e.targetSocket) == Some(e)
  {
  }

  lemma CrossBoth(ids: Ids, g: Document, p: Proposal, q: Proposal)
    ensures Cross(AddedBy(ids, g, p), AddedBy(ids, g, q)) <==> !BothMove(ids, g, p, q)
  {
    if BothMove(ids, g, p, q) {
      var k :| k in {"subject", "object"} && MovedBy(ids, g, p, k).Some? && MovedBy(ids, g, q, k).Some?;
      var e, f := MovedBy(ids, g, p, k).value, MovedBy(ids, g, q, k).value;
      assert e in AddedBy(ids, g, p) && f in AddedBy(ids, g, q) && SameTarget(e, f);
    } else {
      forall e, f | e in AddedBy(ids, g, p) && f in AddedBy(ids, g, q) ensures !SameTarget(e, f) {
        AddedIsMoved(ids, g, p, e);
        AddedIsMoved(ids, g, q, f);
      }
    }
  }

  lemma {:induction false} DeltaAdds(ids: Ids, g: Document, available: set<string>, ps: seq<Proposal>)
    requires DeltaCommands(ids, g, available, ps).Success?
    ensures var cs := DeltaCommands(ids, g, available, ps).value;
      && Compiled(ids, g, cs)
      && (forall e :: e in Adds(cs) <==> exists i :: 0 <= i < |ps| && e in AddedBy(ids, g, ps[i]))
      && (Apart(Adds(cs)) <==> MovesApart(ids, g, ps))
    decreases |ps|
  {
    if ps == [] {
      NodeCommandCompiled(ids, g, []);
    } else {
      var first := ProposalCommands(ids, g, available, ps[0]).value;
      var rest := DeltaCommands(ids, g, first.available, ps[1..]).value;
      ProposalAdds(ids, g, available, ps[0]);
      DeltaAdds(ids, g, first.available, ps[1..]);
      CompiledConcat(ids, g, first.commands, rest);
      AddsConcat(first.commands, rest);
      ApartConcat(Adds(first.commands), Adds(rest));
      AddedByOne(ids, g, ps[0]);
      AddsOfAll(ids, g, ps, Adds(first.commands), Adds(rest));
    }
  }

  lemma AddsOfAll(ids: Ids, g: Document, ps: seq<Proposal>, first: seq<EdgeDoc>, rest: seq<EdgeDoc>)
    requires ps != [] && first == AddedBy(ids, g, ps[0])
    requires forall e :: e in rest <==> exists i :: 0 <= i < |ps[1..]| && e in AddedBy(ids, g, ps[1..][i])
    ensures forall e :: e in first + rest <==> exists i :: 0 <= i < |ps| && e in AddedBy(ids, g, ps[i])
    ensures Cross(first, rest) && MovesApart(ids, g, ps[1..]) <==> MovesApart(ids, g, ps)
  {
    forall e ensures e in first + rest <==> exists i :: 0 <= i < |ps| && e in AddedBy(ids, g, ps[i]) {
      if e in rest {
        var i :| 0 <= i < |ps[1..]| && e in AddedBy(ids, g, ps[1..][i]);
        assert e in AddedBy(ids, g, ps[i + 1]);
      }
      if i :| 0 <= i < |ps| && e in AddedBy(ids, g, ps[i]) {
        assert i > 0 ==> ps[i] == ps[1..][i - 1];
      }
    }
    if Cross(first, rest) && MovesApart(ids, g, ps[1..]) {
      forall i, j | 0 <= i < j < |ps| ensures !BothMove(ids, g, ps[i], ps[j]) {
        assert ps[j] == ps[1..][j - 1];
        if i == 0 {
          CrossBoth(ids, g, ps[0], ps[j]);
        } else {
          assert ps[i] == ps[1..][i - 1];
        }
      }
    }
    if MovesApart(ids, g, ps) {
      forall e, f | e in first && f in rest ensures !SameTarget(e, f) {
        var j :| 0 <= j < |ps[1..]| && f in AddedBy(ids, g, ps[1..][j]);
        assert ps[1..][j] == ps[j + 1];
        CrossBoth(ids, g, ps[0], ps[j + 1]);
      }
      forall i, j | 0 <= i < j < |ps[1..]| ensures !BothMove(ids, g, ps[1..][i], ps[1..][j]) {
        assert ps[1..][i] == ps[i + 1] && ps[1..][j] == ps[j + 1];
      }
    }
  }

  /**
   * The exact condition for a delta: it keeps one edge for each socket if and only if no two of its
   * proposals move an edge into the same socket of the same node. Distinct keys are enough for that.
   */
  lemma DeltaSingleIff(ids: Ids, d: Document, delta: Delta)
    requires GoodIds(ids) && References(ids, d.edges) && DeltaApplied(ids, d, delta).Success?
    ensures References(ids, DeltaApplied(ids, d, delta).value.edges) <==> MovesApart(ids, d, Proposals(delta))
    ensures DistinctIds(ids, Proposals(delta)) ==> MovesApart(ids, d, Proposals(delta))
  {
    ActedReduces(ids, d, Extract(delta));
    DeltaAdds(ids, d, EntityIds(d.nodes), Proposals(delta));
    SingleIff(ids, d, DeltaCommands(ids, d, EntityIds(d.nodes), Proposals(delta)).value);
  }

  /** The commands of an edit that removes nothing add at most one edge to each socket. */
  lemma EditAddsApart(ids: Ids, d: Document, e: Edit)
    requires GoodIds(ids) && !e.Removal? && EditCommands(ids, d, e).Success?
    ensures var cs := EditCommands(ids, d, e).value; Compiled(ids, d, cs) && Apart(Adds(cs))
  {
    EditInParts(ids, d, e);
    var n := FindNode(d.nodes, e.id).value;
    var update := NodeUpdate(e.id, Some(EditTitle(n, e)), Some(EditPatch(n, e)));
    NodeCommandCompiled(ids, d, [update]);
    InPartsAdd(ids, d, e.id, [update], EditSource(ids, n, e, "subject"), EditSource(ids, n, e, "object"));
  }

  /** Any edit, detaching or not, keeps one edge for each socket. */
  lemma EditSingle(ids: Ids, d: Document, e: Edit)
    requires GoodIds(ids) && References(ids, d.edges)
    requires EditCommands(ids, d, e).Success? && ReducedEach(d, EditCommands(ids, d, e).value).Success?
    ensures References(ids, ReducedEach(d, EditCommands(ids, d, e).value).value.edges)
  {
    if e.Removal? {
      OneCommand(d, NodeRemove(e.id));
      ReferencesOff(ids, d.edges, e.id);
    } else {
      EditAddsApart(ids, d, e);
      SingleIff(ids, d, EditCommands(ids, d, e).value);
    }
  }

  /** No delta of the run moves two edges into one socket. */
  ghost predicate AllMoveApart(ids: Ids, d: Document, actions: seq<Action>)
    decreases |actions|
  {
    actions == [] ||
    ((actions[0].Extract? ==> MovesApart(ids, d, Proposals(actions[0].delta)))
      && AllMoveApart(ids, Acted(ids, d, actions[0]), actions[1..]))
  }

  lemma ActionSingle(ids: Ids, d: Document, a: Action)
    requires GoodIds(ids) && References(ids, d.edges) && (a.Extract? ==> MovesApart(ids, d, Proposals(a.delta)))
    ensures References(ids, Acted(ids, d, a).edges)
  {
    if Outcome(ids, d, a).Success? {
      match a
      case Extract(delta) => DeltaSingleIff(ids, d, delta);
      case Correct(edit) =>
        ActedReduces(ids, d, a);
        EditSingle(ids, d, edit);
    }
  }

  /**
   * Over any run of deltas that each move at most one edge into a socket, in particular deltas with
   * distinct canonical keys, and of any user edits, detaching ones too, each subject and object socket
   * has at most one edge and all edges are reference edges.
   */
  lemma {:induction false} EdgesStaySingle(ids: Ids, d: Document, actions: seq<Action>)
    requires GoodIds(ids) && References(ids, d.edges) && AllMoveApart(ids, d, actions)
    ensures References(ids, ActedAll(ids, d, actions).edges)
    decreases |actions|
  {
    if actions != [] {
      ActionSingle(ids, d, actions[0]);
      EdgesStaySingle(ids, Acted(ids, d, actions[0]), actions[1..]);
    }
  }

  ghost predicate KeysDistinct(ids: Ids, a: Action) {
    a.Extract? ==> DistinctIds(ids, Proposals(a.delta))
  }

  lemma DistinctMoveApart(ids: Ids, g: Document, ps: seq<Proposal>)
    requires DistinctIds(ids, ps)
    ensures MovesApart(ids, g, ps)
  {
  }

  lemma {:induction false} DistinctKeysMoveApart(ids: Ids, d: Document, actions: seq<Action>)
    requires forall a | a in actions :: KeysDistinct(ids, a)
    ensures AllMoveApart(ids, d, actions)
    decreases |actions|
  {
    if actions != [] {
      assert KeysDistinct(ids, actions[0]);
      if actions[0].Extract? {
        DistinctMoveApart(ids, d, Proposals(actions[0].delta));
      }
      DistinctKeysMoveApart(ids, Acted(ids, d, actions[0]), actions[1..]);
    }
  }

  // The delta that gives one socket two edges.

  /** A stored claim "c" about nothing yet, and two entities. */
  function OpenClaim(ids: Ids): Document {
    var entity := (key: string) =>
      NodeDoc(ids.make(Entity, key), ReducerOf(Entity), key, Position(0.0, 0.0), map[]);
    Document("d", "t", 0,
      [entity("a"), entity("b"), NodeDoc(ids.make(Claim, "c"), ReducerOf(Claim), "c", Position(0.0, 0.0), map[])],
      [], None)
  }

  function ClaimOf(subject: string): Proposal {
    ClaimProposal("c", Some(subject), "c", None, None)
  }

  /** One delta that names the claim twice, with two subjects, leaves two edges in its subject socket. */
  lemma RepeatedKeyDoublesEdge(ids: Ids)
    requires GoodIds(ids) && forall key | key in {"a", "b", "c"} :: ids.canonical(key) == key
    ensures var d, delta := OpenClaim(ids), Delta([], [], [ClaimOf("a"), ClaimOf("b")]);
      && OntologyOk(ids, d) && DeltaApplied(ids, d, delta).Success?
      && !References(ids, DeltaApplied(ids, d, delta).value.edges)
  {
    var d, delta := OpenClaim(ids), Delta([], [], [ClaimOf("a"), ClaimOf("b")]);
    RepeatedKeyApplies(ids);
    OpenClaimFinds(ids);
    var p, q := ClaimOf("a"), ClaimOf("b");
    assert Proposals(delta) == [p, q];
    assert MovedBy(ids, d, p, "subject").Some? && MovedBy(ids, d, q, "subject").Some?;
    assert BothMove(ids, d, Proposals(delta)[0], Proposals(delta)[1]);
    DeltaSingleIff(ids, d, delta);
  }

  lemma OpenClaimFinds(ids: Ids)
    requires GoodIds(ids)
    ensures var d, c := OpenClaim(ids), ids.make(Claim, "c");
      && FindNode(d.nodes, c) == Some(d.nodes[2]) && HasNode(d.nodes, c) && !UserOwned(d.nodes, c)
      && ids.make(Entity, "a") in EntityIds(d.nodes) && ids.make(Entity, "b") in EntityIds(d.nodes)
      && OntologyOk(ids, d)
  {
    var d := OpenClaim(ids);
    assert ids.make(Claim, "c") != ids.make(Entity, "a") && ids.make(Claim, "c") != ids.make(Entity, "b");
    assert ids.make(Entity, "a") != ids.make(Entity, "b");
    FoundNode(d.nodes, ids.make(Claim, "c"));
    assert d.nodes[0].reducerId == ReducerOf(Entity) && d.nodes[1].reducerId == ReducerOf(Entity);
    assert d.nodes[2].id == ids.make(Claim, "c");
  }

  lemma ClaimCommands(ids: Ids, subject: string, available: set<string>)
    requires GoodIds(ids) && ids.canonical("c") == "c" && ids.canonical(subject) == subject && subject != ""
    requires ids.make(Entity, subject) in available
    ensures var c, p := ids.make(Claim, "c"), ClaimOf(subject);
      ProposalCommands(ids, OpenClaim(ids), available, p) == Success(Planned(
        [NodeUpdate(c, Some("c"), Some(Plain(FieldsOf(p)))),
         EdgeAdd(ReferenceEdge(ids, ids.make(Entity, subject), c, "subject"))],
        available))
  {
    var c, p := ids.make(Claim, "c"), ClaimOf(subject);
    OpenClaimFinds(ids);
    var update, add := NodeUpdate(c, Some("c"), Some(Plain(FieldsOf(p)))),
      EdgeAdd(ReferenceEdge(ids, ids.make(Entity, subject), c, "subject"));
    assert UpsertNode(OpenClaim(ids), NodeFor(c, p)) == Success([update]);
    assert UpsertEdge(ids, OpenClaim(ids), ids.make(Entity, subject), c, "subject") == [add];
    assert [update] + [add] == [update, add];
  }

  lemma RepeatedKeyCommands(ids: Ids)
    requires GoodIds(ids) && forall key | key in {"a", "b", "c"} :: ids.canonical(key) == key
    ensures var d, p, q := OpenClaim(ids), ClaimOf("a"), ClaimOf("b");
      var first := ProposalCommands(ids, d, EntityIds(d.nodes), p);
      var second := ProposalCommands(ids, d, EntityIds(d.nodes), q);
      && first.Success? && second.Success?
      && DeltaCommands(ids, d, EntityIds(d.nodes), [p, q]) == Success(first.value.commands + second.value.commands)
  {
    var d, p, q := OpenClaim(ids), ClaimOf("a"), ClaimOf("b");
    var known := EntityIds(d.nodes);
    OpenClaimFinds(ids);
    ClaimCommands(ids, "a", known);
    ClaimCommands(ids, "b", known);
    var cs2 := ProposalCommands(ids, d, known, q).value.commands;
    assert [p, q][1..] == [q] && [q][1..] == [];
    assert DeltaCommands(ids, d, known, [q]) == Success(cs2 + []);
    assert cs2 + [] == cs2;
  }

  lemma RepeatedKeyApplies(ids: Ids)
    requires GoodIds(ids) && forall key | key in {"a", "b", "c"} :: ids.canonical(key) == key
    ensures var d := OpenClaim(ids);
      OntologyOk(ids, d) && DeltaApplied(ids, d, Delta([], [], [ClaimOf("a"), ClaimOf("b")])).Success?
  {
    var d, p, q := OpenClaim(ids), ClaimOf("a"), ClaimOf("b");
    var known := EntityIds(d.nodes);
    OpenClaimFinds(ids);
    ClaimCommands(ids, "a", known);
    ClaimCommands(ids, "b", known);
    RepeatedKeyCommands(ids);
    var cs1 := ProposalCommands(ids, d, known, p).value.commands;
    var cs2 := ProposalCommands(ids, d, known, q).value.commands;
    assert Proposals(Delta([], [], [p, q])) == [p, q];
    ReducedConcat(d, cs1, cs2);
    ClaimUpdateApplies(d, cs1);
    ClaimUpdateApplies(ReducedEach(d, cs1).value, cs2);
  }

  /** An update of a node that is there, and an edge with a new id. */
  lemma ClaimUpdateApplies(d: Document, cs: seq<Command>)
    requires |cs| == 2 && cs[0].NodeUpdate? && cs[1].EdgeAdd? && cs[0].labelText.Some?
    requires ':' !in cs[0].id && HasNode(d.nodes, cs[0].id) && !HasEdgeId(d.edges, cs[1].edge.id)
    ensures ReducedEach(d, cs).Success?
    ensures var d' := ReducedEach(d, cs).value;
      d'.edges == d.edges + [cs[1].edge] && HasNode(d'.nodes, cs[0].id)
  {
    var d1 := Reduced(d, cs[0]).value;
    NodeStays(d, cs[0], cs[0].id);
    assert cs == [cs[0]] + [cs[1]];
    ReducedConcat(d, [cs[0]], [cs[1]]);
    OneCommand(d, cs[0]);
    OneCommand(d1, cs[1]);
  }

  // ----- keys and edges stay aligned -------------------------------------------

  /** No edit of the run detaches. */
  ghost predicate NoneDetaches(ids: Ids, d: Document, actions: seq<Action>)
    decreases |actions|
  {
    actions == [] ||
    ((actions[0].Correct? ==> !Detaches(d, actions[0].edit))
      && NoneDetaches(ids, Acted(ids, d, actions[0]), actions[1..]))
  }

  lemma ActionKeeps(ids: Ids, d: Document, a: Action)
    requires GoodIds(ids) && OntologyOk(ids, d) && KeysDistinct(ids, a) && (a.Correct? ==> !Detaches(d, a.edit))
    ensures OntologyOk(ids, Acted(ids, d, a))
  {
    if Outcome(ids, d, a).Success? {
      match a
      case Extract(delta) => DeltaEffect(ids, d, delta);
      case Correct(edit) => EditEffect(ids, d, edit);
    }
  }

  /**
   * Over any run of deltas with distinct canonical keys in which no edit detaches, every subject and
   * object edge comes from the entity its target's stored key names, and that entity is in the document.
   */
  lemma {:induction false} KeysStayAligned(ids: Ids, d: Document, actions: seq<Action>)
    requires GoodIds(ids) && OntologyOk(ids, d) && SourcesExist(d)
    requires (forall a | a in actions :: KeysDistinct(ids, a)) && NoneDetaches(ids, d, actions)
    ensures OntologyOk(ids, ActedAll(ids, d, actions)) && SourcesExist(ActedAll(ids, d, actions))
    decreases |actions|
  {
    if actions != [] {
      ActionKeeps(ids, d, actions[0]);
      ActionSources(ids, d, actions[0]);
      KeysStayAligned(ids, Acted(ids, d, actions[0]), actions[1..]);
    }
  }

  /** The empty document, where a conversation starts, has every invariant. */
  lemma EmptyOntologyOk(ids: Ids, d: Document)
    requires d.nodes == [] && d.edges == []
    ensures OntologyOk(ids, d) && SourcesExist(d)
  {
  }
}
