/**
 * The ontology layer (packages/graph/src/ontology.ts): agent deltas and user edits compiled to
 * graph commands. User authority and reference edges survive every run.
 */
module Ontologies {
  import opened Wrappers
  import opened DataKinds
  import opened Documents

  datatype Kind = Entity | Relation | Claim

  /** Stable ids: `make` hashes a canonical identity, `edge` the identity of a reference edge. */
  datatype Ids = Ids(
    canonical: string -> string,
    make: (Kind, string) -> string,
    edge: (string, string, string) -> string)

  /** Ids are injective on canonical identities and usable as node ids. */
  ghost predicate GoodIds(ids: Ids) {
    && (forall k, c, k', c' :: ids.make(k, c) == ids.make(k', c') ==> k == k' && c == c')
    && (forall s, t, k, s', t', k' :: ids.edge(s, t, k) == ids.edge(s', t', k') ==> s == s' && t == t' && k == k')
    && ids.canonical("") == ""
    && (forall k, c :: ':' !in ids.make(k, c))
  }

  function StableId(ids: Ids, k: Kind, identity: string): Result<string, GraphError> {
    var c := ids.canonical(identity);
    if c == "" then Failure(EmptyIdentity) else Success(ids.make(k, c))
  }

  function ReducerOf(k: Kind): string {
    match k
    case Entity => "ontology.entity"
    case Relation => "ontology.relation"
    case Claim => "ontology.claim"
  }

  type Fields = map<string, Value>

  datatype Proposal =
    | EntityProposal(key: string, name: string, properties: Option<Fields>)
    | RelationProposal(key: string, subjectKey: string, predicateText: string, objectKey: string,
      properties: Option<Fields>)
    | ClaimProposal(key: string, claimSubject: Option<string>, text: string, status: Option<string>,
      properties: Option<Fields>)

  function KindOf(p: Proposal): Kind {
    match p
    case EntityProposal(_, _, _) => Entity
    case RelationProposal(_, _, _, _, _) => Relation
    case ClaimProposal(_, _, _, _, _) => Claim
  }

  datatype Delta = Delta(entities: seq<Proposal>, relations: seq<Proposal>, claims: seq<Proposal>)

  // ----- reading documents ------------------------------------------------

  function FindNode(nodes: seq<NodeDoc>, id: string): Option<NodeDoc> {
    if nodes == [] then None
    else if nodes[0].id == id then Some(nodes[0])
    else FindNode(nodes[1..], id)
  }

  /** The first edge into one socket of a node. */
  function FindInto(edges: seq<EdgeDoc>, target: string, socket: string): Option<EdgeDoc> {
    if edges == [] then None
    else if edges[0].targetNode == target && edges[0].targetSocket == socket then Some(edges[0])
    else FindInto(edges[1..], target, socket)
  }

  function Into(edges: seq<EdgeDoc>, target: string): seq<EdgeDoc> {
    if edges == [] then []
    else (if edges[0].targetNode == target then [edges[0]] else []) + Into(edges[1..], target)
  }

  predicate OwnedByUser(n: NodeDoc) {
    "authority" in n.inputValues && n.inputValues["authority"] == Str("user")
  }

  predicate UserOwned(nodes: seq<NodeDoc>, id: string) {
    var n := FindNode(nodes, id);
    n.Some? && OwnedByUser(n.value)
  }

  function EntityIds(nodes: seq<NodeDoc>): set<string> {
    set i | 0 <= i < |nodes| && nodes[i].reducerId == ReducerOf(Entity) :: nodes[i].id
  }

  // ----- command builders -------------------------------------------------

  function FieldsOf(p: Proposal): Fields {
    var props := Obj(if p.properties.Some? then p.properties.value else map[]);
    match p
    case EntityProposal(key, name, _) =>
      map["key" := Str(key), "label" := Str(name), "properties" := props, "authority" := Str("agent")]
    case RelationProposal(key, subjectKey, predicateText, objectKey, _) =>
      map["key" := Str(key), "subjectEntityKey" := Str(subjectKey), "predicate" := Str(predicateText),
          "objectEntityKey" := Str(objectKey), "properties" := props, "authority" := Str("agent")]
    case ClaimProposal(key, subject, text, status, _) =>
      (if subject.Some? && subject.value != "" then map["subjectEntityKey" := Str(subject.value)] else map[]) +
      map["key" := Str(key), "text" := Str(text), "status" := Str(if status.Some? then status.value else "asserted"),
          "properties" := props, "authority" := Str("agent")]
  }

  function TitleOf(p: Proposal): string {
    match p
    case EntityProposal(_, name, _) => name
    case RelationProposal(_, _, predicateText, _, _) => predicateText
    case ClaimProposal(_, _, text, _, _) => text
  }

  function NodeFor(id: string, p: Proposal): NodeDoc {
    NodeDoc(id, ReducerOf(KindOf(p)), TitleOf(p), Position(0.0, 0.0), FieldsOf(p))
  }

  function UpsertNode(d: Document, proposed: NodeDoc): Result<seq<Command>, GraphError> {
    var current := FindNode(d.nodes, proposed.id);
    if current.None? then Success([NodeAdd(proposed)])
    else if current.value.reducerId != proposed.reducerId then Failure(KindChanged)
    else if OwnedByUser(current.value) then Success([])
    else Success([NodeUpdate(proposed.id, Some(proposed.labelText), Some(Plain(proposed.inputValues)))])
  }

  function ReferenceEdge(ids: Ids, source: string, target: string, socket: string): EdgeDoc {
    EdgeDoc(ids.edge(source, target, socket), source, "reference", target, socket, None)
  }

  function UpsertEdge(ids: Ids, d: Document, source: string, target: string, socket: string): seq<Command> {
    var edge := ReferenceEdge(ids, source, target, socket);
    var current := FindInto(d.edges, target, socket);
    if current.Some? && current.value.id == edge.id then []
    else (if current.Some? then [EdgeRemove(current.value.id)] else []) + [EdgeAdd(edge)]
  }

  datatype Planned = Planned(commands: seq<Command>, available: set<string>)

  /** The commands of one proposal, read against `d`; `available` are the entity ids known so far. */
  function ProposalCommands(ids: Ids, d: Document, available: set<string>, p: Proposal): Result<Planned, GraphError> {
    match p
    case EntityProposal(key, _, _) =>
      var id :- StableId(ids, Entity, key);
      var node :- UpsertNode(d, NodeFor(id, p));
      Success(Planned(node, available + {id}))
    case RelationProposal(key, subjectKey, _, objectKey, _) =>
      var subjectId :- StableId(ids, Entity, subjectKey);
      var objectId :- StableId(ids, Entity, objectKey);
      if subjectId !in available || objectId !in available then Failure(UnknownEntity)
      else
        var id :- StableId(ids, Relation, key);
        if UserOwned(d.nodes, id) then Success(Planned([], available))
        else
          var node :- UpsertNode(d, NodeFor(id, p));
          Success(Planned(
            node + UpsertEdge(ids, d, subjectId, id, "subject") + UpsertEdge(ids, d, objectId, id, "object"),
            available))
    case ClaimProposal(key, subject, _, _, _) =>
      var id :- StableId(ids, Claim, key);
      if UserOwned(d.nodes, id) then Success(Planned([], available))
      else
        var node :- UpsertNode(d, NodeFor(id, p));
        if subject.None? || subject.value == "" then Success(Planned(node, available))
        else
          var subjectId :- StableId(ids, Entity, subject.value);
          if subjectId !in available then Failure(UnknownEntity)
          else Success(Planned(node + UpsertEdge(ids, d, subjectId, id, "subject"), available))
  }

  function DeltaCommands(ids: Ids, d: Document, available: set<string>, ps: seq<Proposal>)
    : Result<seq<Command>, GraphError>
    decreases |ps|
  {
    if ps == [] then Success([])
    else
      var first :- ProposalCommands(ids, d, available, ps[0]);
      var rest :- DeltaCommands(ids, d, first.available, ps[1..]);
      Success(first.commands + rest)
  }

  function Proposals(delta: Delta): seq<Proposal> {
    delta.entities + delta.relations + delta.claims
  }

  /** All commands are read against the document before the delta and reduced as one batch. */
  function DeltaApplied(ids: Ids, d: Document, delta: Delta): Result<Document, GraphError> {
    var commands :- DeltaCommands(ids, d, EntityIds(d.nodes), Proposals(delta));
    ReducedAll(d, commands)
  }

  function Prefixed(commands: seq<Command>, rest: Result<seq<Command>, GraphError>): Result<seq<Command>, GraphError> {
    if rest.Success? then Success(commands + rest.value) else rest
  }

  /** `rest` stands for the proposals the caller turns to next. */
  method CollectCommands(ids: Ids, d: Document, available: set<string>, ps: seq<Proposal>, ghost rest: seq<Proposal>)
    returns (r: Result<Planned, GraphError>)
    ensures r.Failure? ==> DeltaCommands(ids, d, available, ps + rest).Failure?
    ensures r.Success? ==>
      DeltaCommands(ids, d, available, ps + rest) ==
      Prefixed(r.value.commands, DeltaCommands(ids, d, r.value.available, rest))
  {
    var commands: seq<Command>, known := [], available;
    ghost var total := DeltaCommands(ids, d, available, ps + rest);
    assert ps[0..] + rest == ps + rest;
    assert total.Success? ==> [] + total.value == total.value;
    for k := 0 to |ps|
      invariant total == Prefixed(commands, DeltaCommands(ids, d, known, ps[k..] + rest))
    {
      assert (ps[k..] + rest)[0] == ps[k] && (ps[k..] + rest)[1..] == ps[k + 1..] + rest;
      var step := ProposalCommands(ids, d, known, ps[k]);
      if step.Failure? {
        return Failure(step.error);
      }
      PrefixedTwice(commands, step.value.commands, DeltaCommands(ids, d, step.value.available, ps[k + 1..] + rest));
      commands := commands + step.value.commands;
      known := step.value.available;
    }
    assert ps[|ps|..] + rest == rest;
    return Success(Planned(commands, known));
  }

  lemma PrefixedTwice(a: seq<Command>, b: seq<Command>, rest: Result<seq<Command>, GraphError>)
    ensures Prefixed(a, Prefixed(b, rest)) == Prefixed(a + b, rest)
  {
    if rest.Success? {
      assert a + (b + rest.value) == a + b + rest.value;
    }
  }

  method ApplyGraphDelta(ids: Ids, d: Document, delta: Delta) returns (r: Result<Document, GraphError>)
    ensures r.Success? == DeltaApplied(ids, d, delta).Success?
    ensures r.Success? ==> r == DeltaApplied(ids, d, delta)
  {
    ghost var later := delta.relations + delta.claims;
    assert Proposals(delta) == delta.entities + later;
    var entities := CollectCommands(ids, d, EntityIds(d.nodes), delta.entities, later);
    if entities.Failure? {
      return Failure(entities.error);
    }
    var relations := CollectCommands(ids, d, entities.value.available, delta.relations, delta.claims);
    if relations.Failure? {
      return Failure(relations.error);
    }
    var claims := CollectCommands(ids, d, relations.value.available, delta.claims, []);
    assert delta.claims + [] == delta.claims;
    if claims.Failure? {
      return Failure(claims.error);
    }
    var all := entities.value.commands + (relations.value.commands + claims.value.commands);
    assert claims.value.commands + [] == claims.value.commands;
    return ReducedAll(d, all);
  }

  // ----- the invariant ----------------------------------------------------

  /** The stored field that names the entity a reference socket must come from. */
  function KeyField(socket: string): string {
    if socket == "subject" then "subjectEntityKey" else "objectEntityKey"
  }

  ghost predicate NodesDistinct(nodes: seq<NodeDoc>) {
    forall i, j | 0 <= i < j < |nodes| :: nodes[i].id != nodes[j].id
  }

  ghost predicate IsReference(ids: Ids, e: EdgeDoc) {
    && (e.targetSocket == "subject" || e.targetSocket == "object")
    && e == ReferenceEdge(ids, e.sourceNode, e.targetNode, e.targetSocket)
  }

  predicate SameTarget(e: EdgeDoc, f: EdgeDoc) {
    e.targetNode == f.targetNode && e.targetSocket == f.targetSocket
  }

  /** Edges are reference edges and each socket has at most one. */
  ghost predicate References(ids: Ids, edges: seq<EdgeDoc>) {
    && (forall i | 0 <= i < |edges| :: IsReference(ids, edges[i]))
    && (forall i, j | 0 <= i < j < |edges| :: !SameTarget(edges[i], edges[j]))
  }

  /** The edge comes from the entity that the key stored in its target names. */
  ghost predicate Named(ids: Ids, nodes: seq<NodeDoc>, e: EdgeDoc) {
    var n := FindNode(nodes, e.targetNode);
    && n.Some?
    && KeyField(e.targetSocket) in n.value.inputValues
    && n.value.inputValues[KeyField(e.targetSocket)].Str?
    && StableId(ids, Entity, n.value.inputValues[KeyField(e.targetSocket)].s) == Success(e.sourceNode)
  }

  ghost predicate AllNamed(ids: Ids, nodes: seq<NodeDoc>, edges: seq<EdgeDoc>) {
    forall i | 0 <= i < |edges| :: Named(ids, nodes, edges[i])
  }

  ghost predicate OntologyOk(ids: Ids, d: Document) {
    NodesDistinct(d.nodes) && References(ids, d.edges) && AllNamed(ids, d.nodes, d.edges)
  }

  // ----- lookups after edits ----------------------------------------------

  lemma {:induction false} FoundNode(nodes: seq<NodeDoc>, id: string)
    ensures FindNode(nodes, id).Some? <==> HasNode(nodes, id)
    ensures FindNode(nodes, id).Some? ==> FindNode(nodes, id).value.id == id && FindNode(nodes, id).value in nodes
    ensures NodesDistinct(nodes) ==> forall i | 0 <= i < |nodes| && nodes[i].id == id ::
      FindNode(nodes, id) == Some(nodes[i])
  {
    if nodes != [] {
      FoundNode(nodes[1..], id);
      if nodes[0].id != id && HasNode(nodes, id) {
        var i :| 0 <= i < |nodes| && nodes[i].id == id;
        assert nodes[1..][i - 1].id == id;
      }
    }
  }

  lemma {:induction false} AppendedNode(nodes: seq<NodeDoc>, n: NodeDoc, x: string)
    ensures FindNode(nodes + [n], x) ==
      if FindNode(nodes, x).Some? then FindNode(nodes, x) else if x == n.id then Some(n) else None
  {
    if nodes != [] {
      assert (nodes + [n])[1..] == nodes[1..] + [n];
      AppendedNode(nodes[1..], n, x);
    }
  }

  lemma {:induction false} EditedNode(nodes: seq<NodeDoc>, id: string, edit: NodeDoc -> NodeDoc, x: string)
    requires forall n :: edit(n).id == n.id
    ensures |EditFirst(nodes, id, edit)| == |nodes|
    ensures forall i | 0 <= i < |nodes| :: EditFirst(nodes, id, edit)[i].id == nodes[i].id
    ensures FindNode(EditFirst(nodes, id, edit), x) ==
      if x == id && FindNode(nodes, id).Some? then Some(edit(FindNode(nodes, id).value)) else FindNode(nodes, x)
  {
    if nodes != [] && nodes[0].id != id {
      EditedNode(nodes[1..], id, edit, x);
      assert EditFirst(nodes, id, edit)[1..] == EditFirst(nodes[1..], id, edit);
    }
  }

  lemma {:induction false} EditedSame(nodes: seq<NodeDoc>, id: string, edit: NodeDoc -> NodeDoc)
    requires FindNode(nodes, id).Some? && edit(FindNode(nodes, id).value) == FindNode(nodes, id).value
    ensures EditFirst(nodes, id, edit) == nodes
  {
    if nodes[0].id != id {
      EditedSame(nodes[1..], id, edit);
    }
  }

  lemma {:induction false} FoundInto(edges: seq<EdgeDoc>, target: string, socket: string)
    ensures FindInto(edges, target, socket) == FindInto(Into(edges, target), target, socket)
    ensures FindInto(edges, target, socket).Some? ==>
      var e := FindInto(edges, target, socket).value; e in edges && e.targetNode == target && e.targetSocket == socket
    ensures FindInto(edges, target, socket).None? ==>
      forall i | 0 <= i < |edges| :: !(edges[i].targetNode == target && edges[i].targetSocket == socket)
  {
    if edges != [] {
      FoundInto(edges[1..], target, socket);
      if edges[0].targetNode == target {
        assert Into(edges, target)[0] == edges[0] && Into(edges, target)[1..] == Into(edges[1..], target);
      } else {
        assert Into(edges, target) == Into(edges[1..], target);
      }
      assert edges == [edges[0]] + edges[1..];
    }
  }

  lemma {:induction false} IntoAppended(edges: seq<EdgeDoc>, e: EdgeDoc, x: string)
    ensures Into(edges + [e], x) == Into(edges, x) + (if e.targetNode == x then [e] else [])
  {
    if edges != [] {
      assert (edges + [e])[1..] == edges[1..] + [e];
      IntoAppended(edges[1..], e, x);
    }
  }

  lemma {:induction false} EdgesWithoutMembers(edges: seq<EdgeDoc>, id: string)
    ensures forall e :: e in EdgesWithout(edges, id) <==> e in edges && e.id != id
  {
    if edges != [] {
      EdgesWithoutMembers(edges[1..], id);
      assert edges == [edges[0]] + edges[1..];
    }
  }

  lemma {:induction false} IntoWithout(edges: seq<EdgeDoc>, id: string, x: string)
    requires forall e | e in edges && e.id == id :: e.targetNode != x
    ensures Into(EdgesWithout(edges, id), x) == Into(edges, x)
  {
    if edges != [] {
      assert edges == [edges[0]] + edges[1..];
      IntoWithout(edges[1..], id, x);
      if edges[0].id != id {
        assert EdgesWithout(edges, id)[0] == edges[0] && EdgesWithout(edges, id)[1..] == EdgesWithout(edges[1..], id);
      } else {
        assert EdgesWithout(edges, id) == EdgesWithout(edges[1..], id);
      }
    }
  }

  lemma {:induction false} ReferencesWithout(ids: Ids, edges: seq<EdgeDoc>, id: string)
    requires References(ids, edges)
    ensures References(ids, EdgesWithout(edges, id))
  {
    if edges != [] {
      ReferencesWithout(ids, edges[1..], id);
      EdgesWithoutMembers(edges[1..], id);
      var rest := EdgesWithout(edges[1..], id);
      forall j | 0 <= j < |rest| ensures !SameTarget(edges[0], rest[j]) {
        assert rest[j] in edges[1..];
        var k :| 0 <= k < |edges[1..]| && edges[1..][k] == rest[j];
        assert edges[k + 1] == rest[j];
      }
    }
  }

  // ----- one upsert -------------------------------------------------------

  /** `d` and `e` hold the same node `x` and the same edges into it. */
  ghost predicate Agree(d: Document, e: Document, x: string) {
    FindNode(d.nodes, x) == FindNode(e.nodes, x) && Into(d.edges, x) == Into(e.edges, x)
  }

  lemma {:induction false} IntoMembers(edges: seq<EdgeDoc>, x: string)
    ensures forall e :: e in Into(edges, x) <==> e in edges && e.targetNode == x
  {
    if edges != [] {
      IntoMembers(edges[1..], x);
      assert edges == [edges[0]] + edges[1..];
    }
  }

  lemma {:induction false} ReducedConcat(d: Document, a: seq<Command>, b: seq<Command>)
    ensures ReducedEach(d, a + b) == (if ReducedEach(d, a).Failure? then ReducedEach(d, a)
      else ReducedEach(ReducedEach(d, a).value, b))
    decreases |a|
  {
    if a == [] {
      assert a + b == b;
    } else {
      assert (a + b)[0] == a[0] && (a + b)[1..] == a[1..] + b;
      if Reduced(d, a[0]).Success? {
        ReducedConcat(Reduced(d, a[0]).value, a[1..], b);
      }
    }
  }

  lemma OneCommand(d: Document, c: Command)
    ensures ReducedEach(d, [c]) == Reduced(d, c)
  {
    assert [c][1..] == [];
    if Reduced(d, c).Success? {
      assert ReducedEach(Reduced(d, c).value, []) == Reduced(d, c);
    }
  }

  /** What the one command of an upsert leaves. */
  lemma UpsertNodeReduces(d: Document, n: NodeDoc)
    requires UpsertNode(d, n).Success? && !UserOwned(d.nodes, n.id)
    requires ReducedEach(d, UpsertNode(d, n).value).Success?
    ensures var d' := ReducedEach(d, UpsertNode(d, n).value).value;
      && d'.edges == d.edges
      && d'.nodes == (if FindNode(d.nodes, n.id).None? then d.nodes + [n]
                      else EditFirst(d.nodes, n.id, m => Patched(m, Some(n.labelText), Some(Plain(n.inputValues)))))
      && (FindNode(d.nodes, n.id).None? ==> !HasNode(d.nodes, n.id))
      && (FindNode(d.nodes, n.id).Some? ==> FindNode(d.nodes, n.id).value.reducerId == n.reducerId)
  {
    var cs := UpsertNode(d, n).value;
    FoundNode(d.nodes, n.id);
    assert cs == [cs[0]];
    OneCommand(d, cs[0]);
  }

  /** An upsert leaves every other node. */
  lemma UpsertNodeOthers(d: Document, n: NodeDoc, x: string)
    requires UpsertNode(d, n).Success? && !UserOwned(d.nodes, n.id) && x != n.id
    requires ReducedEach(d, UpsertNode(d, n).value).Success?
    ensures FindNode(ReducedEach(d, UpsertNode(d, n).value).value.nodes, x) == FindNode(d.nodes, x)
  {
    UpsertNodeReduces(d, n);
    AppendedNode(d.nodes, n, x);
    EditedNode(d.nodes, n.id, m => Patched(m, Some(n.labelText), Some(Plain(n.inputValues))), x);
  }

  /** It stores the node, and no id twice. */
  lemma UpsertNodeStores(d: Document, n: NodeDoc)
    requires NodesDistinct(d.nodes) && UpsertNode(d, n).Success? && !UserOwned(d.nodes, n.id)
    requires ReducedEach(d, UpsertNode(d, n).value).Success?
    ensures var d' := ReducedEach(d, UpsertNode(d, n).value).value;
      && NodesDistinct(d'.nodes) && FindNode(d'.nodes, n.id).Some?
      && var was, now := FindNode(d.nodes, n.id), FindNode(d'.nodes, n.id).value;
      && now.reducerId == n.reducerId && now.labelText == n.labelText
      && now.inputValues == (if was.Some? then was.value.inputValues + n.inputValues else n.inputValues)
  {
    UpsertNodeReduces(d, n);
    if FindNode(d.nodes, n.id).None? {
      AppendedNode(d.nodes, n, n.id);
    } else {
      EditedNode(d.nodes, n.id, m => Patched(m, Some(n.labelText), Some(Plain(n.inputValues))), n.id);
    }
  }

  /** Upserting a node that the user does not own stores its fields and disturbs nothing else. */
  lemma UpsertNodeEffect(d: Document, n: NodeDoc)
    requires NodesDistinct(d.nodes) && UpsertNode(d, n).Success? && !UserOwned(d.nodes, n.id)
    requires ReducedEach(d, UpsertNode(d, n).value).Success?
    ensures var d' := ReducedEach(d, UpsertNode(d, n).value).value;
      && d'.edges == d.edges && NodesDistinct(d'.nodes)
      && (forall x | x != n.id :: FindNode(d'.nodes, x) == FindNode(d.nodes, x))
      && FindNode(d'.nodes, n.id).Some?
      && var was, now := FindNode(d.nodes, n.id), FindNode(d'.nodes, n.id).value;
      && now.reducerId == n.reducerId && now.labelText == n.labelText
      && now.inputValues == (if was.Some? then was.value.inputValues + n.inputValues else n.inputValues)
  {
    UpsertNodeReduces(d, n);
    UpsertNodeStores(d, n);
    var d' := ReducedEach(d, UpsertNode(d, n).value).value;
    forall x | x != n.id ensures FindNode(d'.nodes, x) == FindNode(d.nodes, x) {
      UpsertNodeOthers(d, n, x);
    }
  }

  /** An edge with a reference edge's id is an edge into the same socket. */
  lemma SameIdSameTarget(ids: Ids, edges: seq<EdgeDoc>, e: EdgeDoc, f: EdgeDoc)
    requires GoodIds(ids) && IsReference(ids, e) && IsReference(ids, f) && e.id == f.id
    ensures e == f
  {
  }

  /** The edges of a document whose socket gets a new edge. */
  lemma ReplacingReduces(d: Document, current: Option<EdgeDoc>, edge: EdgeDoc)
    requires var cs := (if current.Some? then [EdgeRemove(current.value.id)] else []) + [EdgeAdd(edge)];
      ReducedEach(d, cs).Success?
    ensures var cs := (if current.Some? then [EdgeRemove(current.value.id)] else []) + [EdgeAdd(edge)];
      var kept := if current.Some? then EdgesWithout(d.edges, current.value.id) else d.edges;
      ReducedEach(d, cs).value.edges == kept + [edge] && ReducedEach(d, cs).value.nodes == d.nodes
  {
    if current.Some? {
      var remove := EdgeRemove(current.value.id);
      ReducedConcat(d, [remove], [EdgeAdd(edge)]);
      OneCommand(d, remove);
      OneCommand(Reduced(d, remove).value, EdgeAdd(edge));
    } else {
      assert [] + [EdgeAdd(edge)] == [EdgeAdd(edge)];
      OneCommand(d, EdgeAdd(edge));
    }
  }

  /** Edges into other nodes stay where they are. */
  lemma ReplacedInto(ids: Ids, edges: seq<EdgeDoc>, current: Option<EdgeDoc>, edge: EdgeDoc, x: string)
    requires GoodIds(ids) && References(ids, edges) && x != edge.targetNode
    requires current == FindInto(edges, edge.targetNode, edge.targetSocket)
    ensures var kept := if current.Some? then EdgesWithout(edges, current.value.id) else edges;
      Into(kept + [edge], x) == Into(edges, x)
  {
    var kept := if current.Some? then EdgesWithout(edges, current.value.id) else edges;
    IntoAppended(kept, edge, x);
    FoundInto(edges, edge.targetNode, edge.targetSocket);
    if current.Some? {
      forall e | e in edges && e.id == current.value.id ensures e.targetNode != x {
        assert IsReference(ids, e) && IsReference(ids, current.value);
        SameIdSameTarget(ids, edges, e, current.value);
      }
      IntoWithout(edges, current.value.id, x);
    }
  }

  /** Upserting a reference edge leaves exactly that edge in its socket and moves no other. */
  lemma UpsertEdgeEffect(ids: Ids, d: Document, source: string, target: string, socket: string)
    requires GoodIds(ids) && References(ids, d.edges) && (socket == "subject" || socket == "object")
    requires ReducedEach(d, UpsertEdge(ids, d, source, target, socket)).Success?
    ensures var d' := ReducedEach(d, UpsertEdge(ids, d, source, target, socket)).value;
      var edge := ReferenceEdge(ids, source, target, socket);
      && d'.nodes == d.nodes && References(ids, d'.edges)
      && (forall e :: e in d'.edges <==> e == edge || (e in d.edges && !SameTarget(e, edge)))
      && (forall x | x != target :: Into(d'.edges, x) == Into(d.edges, x))
  {
    var edge := ReferenceEdge(ids, source, target, socket);
    var current := FindInto(d.edges, target, socket);
    FoundInto(d.edges, target, socket);
    if current.Some? && current.value.id == edge.id {
      KeptEdge(ids, d.edges, current.value, edge);
    } else {
      var kept := if current.Some? then EdgesWithout(d.edges, current.value.id) else d.edges;
      ReplacedEdge(ids, d.edges, current, edge);
      ReplacingReduces(d, current, edge);
      AppendedReference(ids, kept, edge);
      forall x | x != target ensures Into(kept + [edge], x) == Into(d.edges, x) {
        ReplacedInto(ids, d.edges, current, edge, x);
      }
    }
  }

  lemma KeptEdge(ids: Ids, edges: seq<EdgeDoc>, current: EdgeDoc, edge: EdgeDoc)
    requires GoodIds(ids) && References(ids, edges) && IsReference(ids, edge) && current in edges
      && current.id == edge.id
    ensures forall e :: e in edges <==> e == edge || (e in edges && !SameTarget(e, edge))
  {
    SameIdSameTarget(ids, edges, current, edge);
    forall e | e in edges && SameTarget(e, edge) ensures e == edge {
      var i :| 0 <= i < |edges| && edges[i] == e;
      var j :| 0 <= j < |edges| && edges[j] == current;
      assert !(i < j) && !(j < i);
    }
  }

  /** What is left after the old edge of the socket, if any, is removed. */
  lemma ReplacedEdge(ids: Ids, edges: seq<EdgeDoc>, current: Option<EdgeDoc>, edge: EdgeDoc)
    requires GoodIds(ids) && References(ids, edges) && IsReference(ids, edge)
    requires current == FindInto(edges, edge.targetNode, edge.targetSocket)
    ensures var kept := if current.Some? then EdgesWithout(edges, current.value.id) else edges;
      References(ids, kept) && forall e :: e in kept <==> e in edges && !SameTarget(e, edge)
  {
    FoundInto(edges, edge.targetNode, edge.targetSocket);
    if current.Some? {
      var c := current.value;
      ReferencesWithout(ids, edges, c.id);
      EdgesWithoutMembers(edges, c.id);
      forall e | e in edges ensures e.id != c.id <==> !SameTarget(e, edge) {
        if SameTarget(e, edge) {
          var i :| 0 <= i < |edges| && edges[i] == e;
          var j :| 0 <= j < |edges| && edges[j] == c;
          assert SameTarget(e, c);
          assert !(i < j) && !(j < i);
        }
      }
    }
  }

  lemma AppendedReference(ids: Ids, kept: seq<EdgeDoc>, edge: EdgeDoc)
    requires References(ids, kept) && IsReference(ids, edge) && forall e | e in kept :: !SameTarget(e, edge)
    ensures References(ids, kept + [edge])
  {
    var es := kept + [edge];
    forall i, j | 0 <= i < j < |es| ensures !SameTarget(es[i], es[j]) {
      assert es[i] in kept;
    }
  }

  // ----- one proposal -----------------------------------------------------

  function IdOf(ids: Ids, p: Proposal): string {
    ids.make(KindOf(p), ids.canonical(p.key))
  }

  /** All edges are named but possibly those into the sockets `ks` of node `x`. */
  ghost predicate NamedBut(ids: Ids, d: Document, x: string, ks: set<string>) {
    forall e | e in d.edges && !(e.targetNode == x && e.targetSocket in ks) :: Named(ids, d.nodes, e)
  }

  lemma NodeUpsertNames(ids: Ids, d: Document, n: NodeDoc, ks: set<string>)
    requires OntologyOk(ids, d) && UpsertNode(d, n).Success? && !UserOwned(d.nodes, n.id)
    requires ReducedEach(d, UpsertNode(d, n).value).Success?
    requires forall k | k in {"subject", "object"} && k !in ks :: KeyField(k) !in n.inputValues
    ensures NamedBut(ids, ReducedEach(d, UpsertNode(d, n).value).value, n.id, ks)
  {
    UpsertNodeEffect(d, n);
    var d' := ReducedEach(d, UpsertNode(d, n).value).value;
    forall e | e in d'.edges && !(e.targetNode == n.id && e.targetSocket in ks) ensures Named(ids, d'.nodes, e) {
      assert Named(ids, d.nodes, e) && IsReference(ids, e);
    }
  }

  lemma EdgeUpsertNames(ids: Ids, d: Document, source: string, target: string, socket: string, ks: set<string>)
    requires GoodIds(ids) && References(ids, d.edges) && (socket == "subject" || socket == "object")
    requires NamedBut(ids, d, target, ks) && ReducedEach(d, UpsertEdge(ids, d, source, target, socket)).Success?
    requires Named(ids, d.nodes, ReferenceEdge(ids, source, target, socket))
    ensures var d' := ReducedEach(d, UpsertEdge(ids, d, source, target, socket)).value;
      NamedBut(ids, d', target, ks - {socket})
  {
    UpsertEdgeEffect(ids, d, source, target, socket);
  }

  lemma NamedButNone(ids: Ids, d: Document, x: string)
    requires NodesDistinct(d.nodes) && References(ids, d.edges) && NamedBut(ids, d, x, {})
    ensures OntologyOk(ids, d)
  {
  }

  /** The one edge of a socket is what a lookup finds. */
  lemma FoundReference(ids: Ids, edges: seq<EdgeDoc>, edge: EdgeDoc)
    requires References(ids, edges) && edge in edges
    ensures FindInto(edges, edge.targetNode, edge.targetSocket) == Some(edge)
  {
    FoundInto(edges, edge.targetNode, edge.targetSocket);
    var i :| 0 <= i < |edges| && edges[i] == edge;
    var found := FindInto(edges, edge.targetNode, edge.targetSocket);
    var j :| 0 <= j < |edges| && edges[j] == found.value;
    assert SameTarget(edges[i], edges[j]);
    assert !(i < j) && !(j < i);
  }

  ghost predicate HasReference(ids: Ids, d: Document, entityKey: string, id: string, socket: string) {
    var source := ids.make(Entity, ids.canonical(entityKey));
    FindInto(d.edges, id, socket) == Some(ReferenceEdge(ids, source, id, socket))
  }

  predicate SubMap(a: Fields, b: Fields) {
    forall k | k in a :: k in b && b[k] == a[k]
  }

  /** Everything the proposal asks for is already there, or the user owns the node. */
  ghost predicate Settled(ids: Ids, d: Document, p: Proposal) {
    var id := IdOf(ids, p);
    var n := FindNode(d.nodes, id);
    && n.Some? && (p.EntityProposal? ==> n.value.reducerId == ReducerOf(Entity))
    && (OwnedByUser(n.value) ||
        (n.value.reducerId == ReducerOf(KindOf(p)) && n.value.labelText == TitleOf(p)
         && SubMap(FieldsOf(p), n.value.inputValues) && ReferencesSettled(ids, d, p)))
  }

  ghost predicate ReferencesSettled(ids: Ids, d: Document, p: Proposal) {
    match p
    case EntityProposal(_, _, _) => true
    case RelationProposal(_, subjectKey, _, objectKey, _) =>
      HasReference(ids, d, subjectKey, IdOf(ids, p), "subject")
        && HasReference(ids, d, objectKey, IdOf(ids, p), "object")
    case ClaimProposal(_, subject, _, _, _) =>
      subject.None? || subject.value == "" || HasReference(ids, d, subject.value, IdOf(ids, p), "subject")
  }

  ghost predicate StepFacts(ids: Ids, d: Document, d': Document, p: Proposal) {
    && OntologyOk(ids, d') && Settled(ids, d', p)
    && (forall x | x != IdOf(ids, p) :: Agree(d, d', x))
    && KindsKept(d, d')
  }

  /** Nodes stay and keep their reducers. */
  ghost predicate KindsKept(d: Document, d': Document) {
    forall x | FindNode(d.nodes, x).Some? ::
      FindNode(d'.nodes, x).Some? && FindNode(d'.nodes, x).value.reducerId == FindNode(d.nodes, x).value.reducerId
  }

  /** Part-way through a proposal's commands: node `n` is stored, the sockets `ks` are still to be connected. */
  ghost predicate Midway(ids: Ids, d: Document, d': Document, n: NodeDoc, ks: set<string>) {
    && NodesDistinct(d'.nodes) && References(ids, d'.edges) && NamedBut(ids, d', n.id, ks)
    && (forall x | x != n.id :: Agree(d, d', x))
    && Stored(d'.nodes, n)
  }

  predicate Stored(nodes: seq<NodeDoc>, n: NodeDoc) {
    var found := FindNode(nodes, n.id);
    && found.Some? && found.value.reducerId == n.reducerId && found.value.labelText == n.labelText
    && SubMap(n.inputValues, found.value.inputValues)
  }

  lemma NodePart(ids: Ids, d: Document, n: NodeDoc, ks: set<string>)
    requires OntologyOk(ids, d) && UpsertNode(d, n).Success? && !UserOwned(d.nodes, n.id)
    requires ReducedEach(d, UpsertNode(d, n).value).Success?
    requires forall k | k in {"subject", "object"} && k !in ks :: KeyField(k) !in n.inputValues
    ensures Midway(ids, d, ReducedEach(d, UpsertNode(d, n).value).value, n, ks)
    ensures ReducedEach(d, UpsertNode(d, n).value).value.edges == d.edges
  {
    UpsertNodeEffect(d, n);
    NodeUpsertNames(ids, d, n, ks);
  }

  lemma EdgePart(ids: Ids, d: Document, d1: Document, n: NodeDoc, ks: set<string>, s: string, k: string)
    requires GoodIds(ids) && Midway(ids, d, d1, n, ks) && (k == "subject" || k == "object")
    requires KeyField(k) in n.inputValues && n.inputValues[KeyField(k)].Str?
    requires StableId(ids, Entity, n.inputValues[KeyField(k)].s) == Success(s)
    requires ReducedEach(d1, UpsertEdge(ids, d1, s, n.id, k)).Success?
    ensures var d2 := ReducedEach(d1, UpsertEdge(ids, d1, s, n.id, k)).value;
      && Midway(ids, d, d2, n, ks - {k})
      && FindInto(d2.edges, n.id, k) == Some(ReferenceEdge(ids, s, n.id, k))
      && forall k' | k' != k :: FindInto(d2.edges, n.id, k') == FindInto(d1.edges, n.id, k')
  {
    UpsertEdgeEffect(ids, d1, s, n.id, k);
    EdgeUpsertNames(ids, d1, s, n.id, k, ks);
    var d2 := ReducedEach(d1, UpsertEdge(ids, d1, s, n.id, k)).value;
    FoundReference(ids, d2.edges, ReferenceEdge(ids, s, n.id, k));
    forall x | x != n.id ensures Agree(d, d2, x) {
      assert Agree(d, d1, x);
    }
    forall k' | k' != k ensures FindInto(d2.edges, n.id, k') == FindInto(d1.edges, n.id, k') {
      OtherSocketUntouched(ids, d1, d2, s, n.id, k, k');
    }
  }

  /** Replacing the edge of one socket does not change which edge another socket has. */
  lemma OtherSocketUntouched(ids: Ids, d1: Document, d2: Document, s: string, id: string, k: string, k': string)
    requires References(ids, d1.edges) && References(ids, d2.edges) && k != k'
    requires forall e :: e in d2.edges <==>
      e == ReferenceEdge(ids, s, id, k) || (e in d1.edges && !SameTarget(e, ReferenceEdge(ids, s, id, k)))
    ensures FindInto(d1.edges, id, k') == FindInto(d2.edges, id, k')
  {
    FoundInto(d1.edges, id, k');
    FoundInto(d2.edges, id, k');
    var f1, f2 := FindInto(d1.edges, id, k'), FindInto(d2.edges, id, k');
    if f1.Some? {
      FoundReference(ids, d2.edges, f1.value);
    } else if f2.Some? {
      FoundReference(ids, d1.edges, f2.value);
    }
  }

  lemma MidwayDone(ids: Ids, d: Document, d': Document, p: Proposal)
    requires Midway(ids, d, d', NodeFor(IdOf(ids, p), p), {}) && ReferencesSettled(ids, d', p)
    requires UpsertNode(d, NodeFor(IdOf(ids, p), p)).Success?
    ensures StepFacts(ids, d, d', p)
  {
    NamedButNone(ids, d', IdOf(ids, p));
    forall x | FindNode(d.nodes, x).Some?
      ensures FindNode(d'.nodes, x).Some?
        && FindNode(d'.nodes, x).value.reducerId == FindNode(d.nodes, x).value.reducerId
    {
      assert x != IdOf(ids, p) ==> Agree(d, d', x);
    }
  }

  lemma EntityStep(ids: Ids, d: Document, available: set<string>, p: Proposal)
    requires GoodIds(ids) && OntologyOk(ids, d) && p.EntityProposal? && ProposalCommands(ids, d, available, p).Success?
    requires ReducedEach(d, ProposalCommands(ids, d, available, p).value.commands).Success?
    ensures StepFacts(ids, d, ReducedEach(d, ProposalCommands(ids, d, available, p).value.commands).value, p)
  {
    var n := NodeFor(IdOf(ids, p), p);
    if !UserOwned(d.nodes, n.id) {
      NodePart(ids, d, n, {});
      MidwayDone(ids, d, ReducedEach(d, UpsertNode(d, n).value).value, p);
    }
  }

  /** The node of a proposal, stored, and its sockets `ks` connected one after the other. */
  lemma ReferencePart(ids: Ids, d: Document, d1: Document, p: Proposal, ks: set<string>, key: string, k: string,
      c: seq<Command>)
    requires GoodIds(ids) && Midway(ids, d, d1, NodeFor(IdOf(ids, p), p), ks) && (k == "subject" || k == "object")
    requires KeyField(k) in FieldsOf(p) && FieldsOf(p)[KeyField(k)] == Str(key) && ids.canonical(key) != ""
    requires c == UpsertEdge(ids, d, ids.make(Entity, ids.canonical(key)), IdOf(ids, p), k)
    requires FindInto(d1.edges, IdOf(ids, p), k) == FindInto(d.edges, IdOf(ids, p), k)
    requires ReducedEach(d1, c).Success?
    ensures var d2 := ReducedEach(d1, c).value;
      && Midway(ids, d, d2, NodeFor(IdOf(ids, p), p), ks - {k})
      && HasReference(ids, d2, key, IdOf(ids, p), k)
      && forall k' | k' != k :: FindInto(d2.edges, IdOf(ids, p), k') == FindInto(d1.edges, IdOf(ids, p), k')
  {
    var s := ids.make(Entity, ids.canonical(key));
    assert c == UpsertEdge(ids, d1, s, IdOf(ids, p), k);
    EdgePart(ids, d, d1, NodeFor(IdOf(ids, p), p), ks, s, k);
  }

  lemma RelationFields(p: Proposal)
    requires p.RelationProposal?
    ensures KeyField("subject") in FieldsOf(p) && FieldsOf(p)[KeyField("subject")] == Str(p.subjectKey)
    ensures KeyField("object") in FieldsOf(p) && FieldsOf(p)[KeyField("object")] == Str(p.objectKey)
  {
  }

  lemma RelationStep(ids: Ids, d: Document, available: set<string>, p: Proposal)
    requires GoodIds(ids) && OntologyOk(ids, d) && p.RelationProposal?
      && ProposalCommands(ids, d, available, p).Success?
    requires ReducedEach(d, ProposalCommands(ids, d, available, p).value.commands).Success?
    requires !UserOwned(d.nodes, IdOf(ids, p))
    ensures StepFacts(ids, d, ReducedEach(d, ProposalCommands(ids, d, available, p).value.commands).value, p)
  {
    var id := IdOf(ids, p);
    var s, o := ids.make(Entity, ids.canonical(p.subjectKey)), ids.make(Entity, ids.canonical(p.objectKey));
    var c1, c2, c3 := UpsertNode(d, NodeFor(id, p)).value, UpsertEdge(ids, d, s, id, "subject"),
      UpsertEdge(ids, d, o, id, "object");
    ReducedConcat(d, c1 + c2, c3);
    ReducedConcat(d, c1, c2);
    RelationConnects(ids, d, p, c1, c2, c3);
  }

  lemma RelationConnects(ids: Ids, d: Document, p: Proposal, c1: seq<Command>, c2: seq<Command>, c3: seq<Command>)
    requires GoodIds(ids) && OntologyOk(ids, d) && p.RelationProposal? && !UserOwned(d.nodes, IdOf(ids, p))
    requires ids.canonical(p.subjectKey) != "" && ids.canonical(p.objectKey) != ""
    requires UpsertNode(d, NodeFor(IdOf(ids, p), p)) == Success(c1)
    requires c2 == UpsertEdge(ids, d, ids.make(Entity, ids.canonical(p.subjectKey)), IdOf(ids, p), "subject")
    requires c3 == UpsertEdge(ids, d, ids.make(Entity, ids.canonical(p.objectKey)), IdOf(ids, p), "object")
    requires ReducedEach(d, c1).Success? && ReducedEach(ReducedEach(d, c1).value, c2).Success?
    requires ReducedEach(ReducedEach(ReducedEach(d, c1).value, c2).value, c3).Success?
    ensures StepFacts(ids, d, ReducedEach(ReducedEach(ReducedEach(d, c1).value, c2).value, c3).value, p)
  {
    var ks := {"subject", "object"};
    RelationFields(p);
    NodePart(ids, d, NodeFor(IdOf(ids, p), p), ks);
    var d1 := ReducedEach(d, c1).value;
    ReferencePart(ids, d, d1, p, ks, p.subjectKey, "subject", c2);
    var d2 := ReducedEach(d1, c2).value;
    ReferencePart(ids, d, d2, p, ks - {"subject"}, p.objectKey, "object", c3);
    assert ks - {"subject"} - {"object"} == {};
    MidwayDone(ids, d, ReducedEach(d2, c3).value, p);
  }

  lemma ClaimStep(ids: Ids, d: Document, available: set<string>, p: Proposal)
    requires GoodIds(ids) && OntologyOk(ids, d) && p.ClaimProposal? && ProposalCommands(ids, d, available, p).Success?
    requires ReducedEach(d, ProposalCommands(ids, d, available, p).value.commands).Success?
    requires !UserOwned(d.nodes, IdOf(ids, p))
    ensures StepFacts(ids, d, ReducedEach(d, ProposalCommands(ids, d, available, p).value.commands).value, p)
  {
    if p.claimSubject.None? || p.claimSubject.value == "" {
      var n := NodeFor(IdOf(ids, p), p);
      NodePart(ids, d, n, {});
      MidwayDone(ids, d, ReducedEach(d, UpsertNode(d, n).value).value, p);
    } else {
      ClaimWithSubject(ids, d, available, p);
    }
  }

  lemma ClaimWithSubject(ids: Ids, d: Document, available: set<string>, p: Proposal)
    requires GoodIds(ids) && OntologyOk(ids, d) && p.ClaimProposal? && ProposalCommands(ids, d, available, p).Success?
    requires ReducedEach(d, ProposalCommands(ids, d, available, p).value.commands).Success?
    requires !UserOwned(d.nodes, IdOf(ids, p)) && p.claimSubject.Some? && p.claimSubject.value != ""
    ensures StepFacts(ids, d, ReducedEach(d, ProposalCommands(ids, d, available, p).value.commands).value, p)
  {
    var id := IdOf(ids, p);
    var s := ids.make(Entity, ids.canonical(p.claimSubject.value));
    var c1, c2 := UpsertNode(d, NodeFor(id, p)).value, UpsertEdge(ids, d, s, id, "subject");
    ReducedConcat(d, c1, c2);
    ClaimConnects(ids, d, p, c1, c2);
  }

  lemma ClaimFields(p: Proposal)
    requires p.ClaimProposal? && p.claimSubject.Some? && p.claimSubject.value != ""
    ensures KeyField("subject") in FieldsOf(p) && FieldsOf(p)[KeyField("subject")] == Str(p.claimSubject.value)
    ensures KeyField("object") !in FieldsOf(p)
  {
  }

  lemma ClaimConnects(ids: Ids, d: Document, p: Proposal, c1: seq<Command>, c2: seq<Command>)
    requires GoodIds(ids) && OntologyOk(ids, d) && p.ClaimProposal? && !UserOwned(d.nodes, IdOf(ids, p))
    requires p.claimSubject.Some? && p.claimSubject.value != "" && ids.canonical(p.claimSubject.value) != ""
    requires UpsertNode(d, NodeFor(IdOf(ids, p), p)) == Success(c1)
    requires c2 == UpsertEdge(ids, d, ids.make(Entity, ids.canonical(p.claimSubject.value)), IdOf(ids, p), "subject")
    requires ReducedEach(d, c1).Success? && ReducedEach(ReducedEach(d, c1).value, c2).Success?
    ensures StepFacts(ids, d, ReducedEach(ReducedEach(d, c1).value, c2).value, p)
  {
    ClaimFields(p);
    NodePart(ids, d, NodeFor(IdOf(ids, p), p), {"subject"});
    var d1 := ReducedEach(d, c1).value;
    ReferencePart(ids, d, d1, p, {"subject"}, p.claimSubject.value, "subject", c2);
    assert {"subject"} - {"subject"} == {};
    MidwayDone(ids, d, ReducedEach(d1, c2).value, p);
  }

  /**
   * One proposal keeps the invariant, touches no node but its own, leaves a node the user owns
   * exactly as it was, and is settled afterwards.
   */
  lemma ProposalStep(ids: Ids, d: Document, available: set<string>, p: Proposal)
    requires GoodIds(ids) && OntologyOk(ids, d) && ProposalCommands(ids, d, available, p).Success?
    requires ReducedEach(d, ProposalCommands(ids, d, available, p).value.commands).Success?
    ensures StepFacts(ids, d, ReducedEach(d, ProposalCommands(ids, d, available, p).value.commands).value, p)
    ensures UserOwned(d.nodes, IdOf(ids, p)) ==> ProposalCommands(ids, d, available, p).value.commands == []
  {
    if p.EntityProposal? {
      EntityStep(ids, d, available, p);
    } else if !UserOwned(d.nodes, IdOf(ids, p)) {
      if p.RelationProposal? {
        RelationStep(ids, d, available, p);
      } else {
        ClaimStep(ids, d, available, p);
      }
    }
  }

  // ----- a whole delta ----------------------------------------------------

  /** Proposals of one delta have distinct canonical keys. */
  ghost predicate DistinctIds(ids: Ids, ps: seq<Proposal>) {
    forall i, j | 0 <= i < j < |ps| :: IdOf(ids, ps[i]) != IdOf(ids, ps[j])
  }

  ghost predicate Among(ids: Ids, ps: seq<Proposal>, x: string) {
    exists i | 0 <= i < |ps| :: IdOf(ids, ps[i]) == x
  }

  lemma SameInto(a: seq<EdgeDoc>, b: seq<EdgeDoc>, x: string, k: string)
    requires Into(a, x) == Into(b, x)
    ensures FindInto(a, x, k) == FindInto(b, x, k)
  {
    FoundInto(a, x, k);
    FoundInto(b, x, k);
  }

  /** Commands read against the old document are those read against the current one. */
  lemma CommandsAgree(ids: Ids, g: Document, d: Document, available: set<string>, p: Proposal)
    requires Agree(g, d, IdOf(ids, p))
    ensures ProposalCommands(ids, g, available, p) == ProposalCommands(ids, d, available, p)
  {
    SameInto(g.edges, d.edges, IdOf(ids, p), "subject");
    SameInto(g.edges, d.edges, IdOf(ids, p), "object");
  }

  ghost predicate DeltaFacts(ids: Ids, d: Document, d': Document, ps: seq<Proposal>) {
    && OntologyOk(ids, d') && KindsKept(d, d')
    && (forall i | 0 <= i < |ps| :: Settled(ids, d', ps[i]))
    && (forall x | !Among(ids, ps, x) || UserOwned(d.nodes, x) :: Agree(d, d', x))
  }

  lemma SettledStays(ids: Ids, d: Document, d': Document, p: Proposal)
    requires Settled(ids, d, p) && Agree(d, d', IdOf(ids, p))
    ensures Settled(ids, d', p)
  {
    SameInto(d.edges, d'.edges, IdOf(ids, p), "subject");
    SameInto(d.edges, d'.edges, IdOf(ids, p), "object");
  }

  /**
   * The batch of a delta acts proposal by proposal: it keeps the invariant, leaves every node
   * the user owns and everything the delta does not mention as it was, and is settled afterwards.
   */
  lemma {:induction false} DeltaStep(ids: Ids, g: Document, d: Document, available: set<string>, ps: seq<Proposal>)
    requires GoodIds(ids) && OntologyOk(ids, d) && DistinctIds(ids, ps)
    requires forall i | 0 <= i < |ps| :: Agree(g, d, IdOf(ids, ps[i]))
    requires DeltaCommands(ids, g, available, ps).Success?
    requires ReducedEach(d, DeltaCommands(ids, g, available, ps).value).Success?
    ensures DeltaFacts(ids, d, ReducedEach(d, DeltaCommands(ids, g, available, ps).value).value, ps)
    decreases |ps|
  {
    if ps != [] {
      var p, id := ps[0], IdOf(ids, ps[0]);
      CommandsAgree(ids, g, d, available, p);
      var first := ProposalCommands(ids, g, available, p).value;
      var rest := DeltaCommands(ids, g, first.available, ps[1..]).value;
      ReducedConcat(d, first.commands, rest);
      var d1 := ReducedEach(d, first.commands).value;
      ProposalStep(ids, d, available, p);
      forall i | 0 <= i < |ps[1..]| ensures Agree(g, d1, IdOf(ids, ps[1..][i])) {
        assert ps[1..][i] == ps[i + 1];
        assert Agree(d, d1, IdOf(ids, ps[i + 1]));
      }
      DeltaStep(ids, g, d1, first.available, ps[1..]);
      FirstThenRest(ids, d, d1, ReducedEach(d1, rest).value, ps);
    }
  }

  lemma FirstThenRest(ids: Ids, d: Document, d1: Document, d2: Document, ps: seq<Proposal>)
    requires ps != [] && DistinctIds(ids, ps) && StepFacts(ids, d, d1, ps[0]) && DeltaFacts(ids, d1, d2, ps[1..])
    requires UserOwned(d.nodes, IdOf(ids, ps[0])) ==> Agree(d, d1, IdOf(ids, ps[0]))
    ensures DeltaFacts(ids, d, d2, ps)
  {
    assert forall i | 0 <= i < |ps[1..]| :: ps[1..][i] == ps[i + 1];
    assert !Among(ids, ps[1..], IdOf(ids, ps[0]));
    assert Agree(d1, d2, IdOf(ids, ps[0]));
    SettledStays(ids, d1, d2, ps[0]);
    forall i | 0 <= i < |ps| ensures Settled(ids, d2, ps[i]) {
      assert i > 0 ==> Settled(ids, d2, ps[1..][i - 1]);
    }
    forall x | !Among(ids, ps, x) || UserOwned(d.nodes, x) ensures Agree(d, d2, x) {
      assert Agree(d, d1, x);
      assert !Among(ids, ps, x) ==> !Among(ids, ps[1..], x);
      assert Agree(d1, d2, x);
    }
    forall x | FindNode(d.nodes, x).Some?
      ensures FindNode(d2.nodes, x).Some?
        && FindNode(d2.nodes, x).value.reducerId == FindNode(d.nodes, x).value.reducerId
    {
      assert FindNode(d1.nodes, x).Some?;
    }
  }

  // ----- applying a delta again -------------------------------------------

  lemma SettledCommands(ids: Ids, d: Document, available: set<string>, p: Proposal)
    requires Settled(ids, d, p) && ProposalCommands(ids, d, available, p).Success?
    ensures var n := NodeFor(IdOf(ids, p), p);
      ProposalCommands(ids, d, available, p).value.commands ==
        if UserOwned(d.nodes, n.id) then [] else [NodeUpdate(n.id, Some(n.labelText), Some(Plain(n.inputValues)))]
    ensures UserOwned(d.nodes, IdOf(ids, p)) || Stored(d.nodes, NodeFor(IdOf(ids, p), p))
  {
    match p {
      case EntityProposal(_, _, _) =>
      case RelationProposal(_, _, _, _, _) =>
      case ClaimProposal(_, _, _, _, _) =>
    }
  }

  lemma StoredPatch(current: NodeDoc, n: NodeDoc)
    requires current.labelText == n.labelText && SubMap(n.inputValues, current.inputValues)
    ensures Patched(current, Some(n.labelText), Some(Plain(n.inputValues))) == current
  {
    assert current.inputValues + n.inputValues - {} == current.inputValues;
  }

  lemma StoredUpdateIsNoOp(d: Document, n: NodeDoc)
    requires Stored(d.nodes, n) && ':' !in n.id
    ensures Reduced(d, NodeUpdate(n.id, Some(n.labelText), Some(Plain(n.inputValues)))) ==
      Success(d.(revision := d.revision + 1))
  {
    FoundNode(d.nodes, n.id);
    StoredPatch(FindNode(d.nodes, n.id).value, n);
    EditedSame(d.nodes, n.id, m => Patched(m, Some(n.labelText), Some(Plain(n.inputValues))));
  }

  ghost predicate NoOp(d: Document, cs: seq<Command>) {
    ReducedEach(d, cs) == Success(d.(revision := d.revision + |cs|))
  }

  lemma UpdateIsNoOp(d: Document, n: NodeDoc, cs: seq<Command>)
    requires ':' !in n.id
    requires cs == [] ||
      (Stored(d.nodes, n) && cs == [NodeUpdate(n.id, Some(n.labelText), Some(Plain(n.inputValues)))])
    ensures NoOp(d, cs)
  {
    if cs != [] {
      StoredUpdateIsNoOp(d, n);
      OneCommand(d, NodeUpdate(n.id, Some(n.labelText), Some(Plain(n.inputValues))));
    }
  }

  lemma SettledIsNoOp(ids: Ids, d: Document, available: set<string>, p: Proposal)
    requires GoodIds(ids) && Settled(ids, d, p) && ProposalCommands(ids, d, available, p).Success?
    ensures NoOp(d, ProposalCommands(ids, d, available, p).value.commands)
  {
    SettledCommands(ids, d, available, p);
    UpdateIsNoOp(d, NodeFor(IdOf(ids, p), p), ProposalCommands(ids, d, available, p).value.commands);
  }

  /** The revision plays no part in reducing commands. */
  lemma {:induction false} ReducedElsewhere(d: Document, r: int, cs: seq<Command>)
    ensures ReducedEach(d.(revision := r), cs).Success? == ReducedEach(d, cs).Success?
    ensures ReducedEach(d, cs).Success? ==>
      ReducedEach(d.(revision := r), cs).value == ReducedEach(d, cs).value.(revision := r + |cs|)
    decreases |cs|
  {
    if cs != [] && Reduced(d, cs[0]).Success? {
      assert Reduced(d.(revision := r), cs[0]).value == Reduced(d, cs[0]).value.(revision := r + 1);
      ReducedElsewhere(Reduced(d, cs[0]).value, r + 1, cs[1..]);
    }
  }

  lemma NoOpsChain(d: Document, a: seq<Command>, b: seq<Command>)
    requires NoOp(d, a) && NoOp(d, b)
    ensures NoOp(d, a + b)
  {
    ReducedConcat(d, a, b);
    ReducedElsewhere(d, d.revision + |a|, b);
  }

  predicate StaysOwned(ids: Ids, g: Document, d: Document, p: Proposal) {
    UserOwned(g.nodes, IdOf(ids, p)) ==> UserOwned(d.nodes, IdOf(ids, p))
  }

  lemma ReapplyOne(ids: Ids, g: Document, d: Document, av1: set<string>, av2: set<string>, p: Proposal)
    requires Settled(ids, d, p) && av1 <= av2 && ProposalCommands(ids, g, av1, p).Success?
    requires StaysOwned(ids, g, d, p)
    ensures ProposalCommands(ids, d, av2, p).Success?
    ensures ProposalCommands(ids, g, av1, p).value.available <= ProposalCommands(ids, d, av2, p).value.available
  {
  }

  lemma {:induction false} Reapply(ids: Ids, g: Document, d: Document, av1: set<string>, av2: set<string>,
      ps: seq<Proposal>)
    requires GoodIds(ids) && av1 <= av2 && DeltaCommands(ids, g, av1, ps).Success?
    requires forall p | p in ps :: Settled(ids, d, p) && StaysOwned(ids, g, d, p)
    ensures DeltaCommands(ids, d, av2, ps).Success?
    ensures NoOp(d, DeltaCommands(ids, d, av2, ps).value)
    decreases |ps|
  {
    if ps != [] {
      ReapplyOne(ids, g, d, av1, av2, ps[0]);
      SettledIsNoOp(ids, d, av2, ps[0]);
      var first := ProposalCommands(ids, d, av2, ps[0]).value;
      Reapply(ids, g, d, ProposalCommands(ids, g, av1, ps[0]).value.available, first.available, ps[1..]);
      NoOpsChain(d, first.commands, DeltaCommands(ids, d, first.available, ps[1..]).value);
    }
  }

  lemma EntitiesStay(d: Document, d': Document)
    requires NodesDistinct(d.nodes) && KindsKept(d, d')
    ensures EntityIds(d.nodes) <= EntityIds(d'.nodes)
  {
    forall id | id in EntityIds(d.nodes) ensures id in EntityIds(d'.nodes) {
      FoundNode(d.nodes, id);
      FoundNode(d'.nodes, id);
      var i :| 0 <= i < |d.nodes| && d.nodes[i].reducerId == ReducerOf(Entity) && d.nodes[i].id == id;
      assert FindNode(d.nodes, id) == Some(d.nodes[i]);
      var n := FindNode(d'.nodes, id).value;
      var j :| 0 <= j < |d'.nodes| && d'.nodes[j] == n;
    }
  }

  lemma DeltaEffect(ids: Ids, g: Document, delta: Delta)
    requires GoodIds(ids) && OntologyOk(ids, g) && DistinctIds(ids, Proposals(delta))
      && DeltaApplied(ids, g, delta).Success?
    ensures DeltaFacts(ids, g, DeltaApplied(ids, g, delta).value, Proposals(delta))
  {
    var cs := DeltaCommands(ids, g, EntityIds(g.nodes), Proposals(delta)).value;
    DeltaStep(ids, g, g, EntityIds(g.nodes), Proposals(delta));
    var d := ReducedEach(g, cs).value;
    var d' := DeltaApplied(ids, g, delta).value;
    assert d'.nodes == d.nodes && d'.edges == d.edges;
    SameBodySameFacts(ids, g, d, d', Proposals(delta));
  }

  lemma SameBodySameFacts(ids: Ids, g: Document, d: Document, d': Document, ps: seq<Proposal>)
    requires d.nodes == d'.nodes && d.edges == d'.edges && DeltaFacts(ids, g, d, ps)
    ensures DeltaFacts(ids, g, d', ps)
  {
    forall i | 0 <= i < |ps| ensures Settled(ids, d', ps[i]) {
      SettledStays(ids, d, d', ps[i]);
    }
    forall x | !Among(ids, ps, x) || UserOwned(g.nodes, x) ensures Agree(g, d', x) {
      assert Agree(g, d, x);
    }
  }

  /** Re-applying a delta changes nothing but the revision, and never throws. */
  lemma DeltaIdempotent(ids: Ids, g: Document, delta: Delta)
    requires GoodIds(ids) && OntologyOk(ids, g) && DistinctIds(ids, Proposals(delta))
      && DeltaApplied(ids, g, delta).Success?
    ensures var once := DeltaApplied(ids, g, delta).value;
      var twice := DeltaApplied(ids, once, delta);
      twice.Success? && twice.value.(revision := once.revision) == once
  {
    var once, ps := DeltaApplied(ids, g, delta).value, Proposals(delta);
    DeltaEffect(ids, g, delta);
    EntitiesStay(g, once);
    forall p | p in ps ensures Settled(ids, once, p) && StaysOwned(ids, g, once, p) {
      assert UserOwned(g.nodes, IdOf(ids, p)) ==> Agree(g, once, IdOf(ids, p));
    }
    Reapply(ids, g, once, EntityIds(g.nodes), EntityIds(once.nodes), ps);
  }

  // ----- user edits -------------------------------------------------------

  /** A field of an edit's patch; setting it to undefined is not the same as leaving it out. */
  datatype Patch = Absent | Undefined | Given(value: string)

  datatype Edit =
    | EntityEdit(id: string, name: Patch, properties: Option<Fields>)
    | RelationEdit(id: string, subjectKey: Patch, predicateText: Patch, objectKey: Patch, properties: Option<Fields>)
    | ClaimEdit(id: string, claimSubject: Patch, text: Patch, status: Patch, properties: Option<Fields>)
    | Removal(id: string)

  function GivenField(name: string, patch: Patch): Fields {
    if patch.Given? then map[name := Str(patch.value)] else map[]
  }

  function UndefinedField(name: string, patch: Patch): set<string> {
    if patch.Undefined? then {name} else {}
  }

  function PropertiesOf(n: NodeDoc): Fields {
    if "properties" in n.inputValues && n.inputValues["properties"].Obj? then n.inputValues["properties"].fields
      else map[]
  }

  function EditKind(e: Edit): Kind
    requires !e.Removal?
  {
    match e
    case EntityEdit(_, _, _) => Entity
    case RelationEdit(_, _, _, _, _) => Relation
    case ClaimEdit(_, _, _, _, _) => Claim
  }

  function EditFields(n: NodeDoc, e: Edit): Fields
    requires !e.Removal?
  {
    var properties := if e.properties.Some? then PropertiesOf(n) + e.properties.value else PropertiesOf(n);
    var given := match e
      case EntityEdit(_, name, _) => GivenField("label", name)
      case RelationEdit(_, subjectKey, predicateText, objectKey, _) =>
        GivenField("subjectEntityKey", subjectKey) + GivenField("predicate", predicateText)
        + GivenField("objectEntityKey", objectKey)
      case ClaimEdit(_, subject, text, status, _) =>
        GivenField("subjectEntityKey", subject) + GivenField("text", text) + GivenField("status", status);
    given + map["properties" := Obj(properties), "authority" := Str("user")]
  }

  function EditUndefineds(e: Edit): set<string>
    requires !e.Removal?
  {
    match e
    case EntityEdit(_, name, _) => UndefinedField("label", name)
    case RelationEdit(_, subjectKey, predicateText, objectKey, _) =>
      UndefinedField("subjectEntityKey", subjectKey) + UndefinedField("predicate", predicateText)
      + UndefinedField("objectEntityKey", objectKey)
    case ClaimEdit(_, subject, text, status, _) =>
      UndefinedField("subjectEntityKey", subject) + UndefinedField("text", text) + UndefinedField("status", status)
  }

  /** `{ ...edit.patch, properties, authority: "user" }` */
  function EditPatch(n: NodeDoc, e: Edit): InputPatch
    requires !e.Removal?
  {
    InputPatch(EditFields(n, e), EditUndefineds(e))
  }

  function EditTitle(n: NodeDoc, e: Edit): string
    requires !e.Removal?
  {
    var title := match e
      case EntityEdit(_, name, _) => name
      case RelationEdit(_, _, predicateText, _, _) => predicateText
      case ClaimEdit(_, _, text, _, _) => text;
    if title.Given? then title.value else n.labelText
  }

  function ReadString(n: NodeDoc, key: string): Result<string, GraphError> {
    if key in n.inputValues && n.inputValues[key].Str? then Success(n.inputValues[key].s) else Failure(InvalidField)
  }

  function ReplaceEdge(ids: Ids, d: Document, entityKey: string, target: string, socket: string)
    : Result<seq<Command>, GraphError>
  {
    var source :- StableId(ids, Entity, entityKey);
    if !HasNode(d.nodes, source) then Failure(UnknownEntity)
    else Success(UpsertEdge(ids, d, source, target, socket))
  }

  /** `patch.key ?? readString(node, key)`: a key set to undefined falls back on the stored one. */
  function KeyAfter(n: NodeDoc, patched: Patch, field: string): Result<string, GraphError> {
    if patched.Given? then Success(patched.value) else ReadString(n, field)
  }

  function EditEdges(ids: Ids, d: Document, n: NodeDoc, e: Edit): Result<seq<Command>, GraphError> {
    match e
    case RelationEdit(id, subjectKey, _, objectKey, _) =>
      var s :- KeyAfter(n, subjectKey, "subjectEntityKey");
      var o :- KeyAfter(n, objectKey, "objectEntityKey");
      var subjectEdge :- ReplaceEdge(ids, d, s, id, "subject");
      var objectEdge :- ReplaceEdge(ids, d, o, id, "object");
      Success(subjectEdge + objectEdge)
    case ClaimEdit(id, subject, _, _, _) =>
      if subject.Given? && subject.value != "" then ReplaceEdge(ids, d, subject.value, id, "subject") else Success([])
    case _ => Success([])
  }

  function EditCommands(ids: Ids, d: Document, e: Edit): Result<seq<Command>, GraphError> {
    var found := FindNode(d.nodes, e.id);
    if found.None? then Failure(UnknownNode)
    else if e.Removal? then Success([NodeRemove(e.id)])
    else if found.value.reducerId != ReducerOf(EditKind(e)) then Failure(KindChanged)
    else
      var edges :- EditEdges(ids, d, found.value, e);
      Success([NodeUpdate(e.id, Some(EditTitle(found.value, e)), Some(EditPatch(found.value, e)))] + edges)
  }

  function Edited(ids: Ids, d: Document, e: Edit): Result<Document, GraphError> {
    var commands :- EditCommands(ids, d, e);
    ReducedAll(d, commands)
  }

  /**
   * The edits that tear key and edge apart: an empty or undefined subject key is stored in a claim
   * whose old edge stays, or a relation's key is set to undefined while its edge is kept.
   */
  predicate Detaches(d: Document, e: Edit) {
    match e
    case ClaimEdit(id, subject, _, _, _) =>
      (subject.Undefined? || subject == Given("")) && FindInto(d.edges, id, "subject").Some?
    case RelationEdit(_, subjectKey, _, objectKey, _) => subjectKey.Undefined? || objectKey.Undefined?
    case _ => false
  }

  // ----- what an edit does ------------------------------------------------

  lemma {:induction false} NodesWithoutMembers(nodes: seq<NodeDoc>, id: string)
    ensures forall n :: n in NodesWithout(nodes, id) <==> n in nodes && n.id != id
  {
    if nodes != [] {
      NodesWithoutMembers(nodes[1..], id);
      assert nodes == [nodes[0]] + nodes[1..];
    }
  }

  lemma {:induction false} NodesWithoutDistinct(nodes: seq<NodeDoc>, id: string)
    requires NodesDistinct(nodes)
    ensures NodesDistinct(NodesWithout(nodes, id))
  {
    if nodes != [] {
      NodesWithoutDistinct(nodes[1..], id);
      NodesWithoutMembers(nodes[1..], id);
      var rest := NodesWithout(nodes[1..], id);
      forall j | 0 <= j < |rest| ensures rest[j].id != nodes[0].id {
        assert rest[j] in nodes[1..];
      }
    }
  }

  lemma {:induction false} NodesWithoutFinds(nodes: seq<NodeDoc>, id: string, x: string)
    ensures FindNode(NodesWithout(nodes, id), x) == (if x == id then None else FindNode(nodes, x))
  {
    if nodes != [] {
      NodesWithoutFinds(nodes[1..], id, x);
      var rest := NodesWithout(nodes[1..], id);
      if nodes[0].id == id {
        assert [] + rest == rest;
      } else {
        assert ([nodes[0]] + rest)[1..] == rest;
      }
    }
  }

  lemma {:induction false} EdgesOffMembers(edges: seq<EdgeDoc>, x: string)
    ensures forall e :: e in EdgesOff(edges, x) <==> e in edges && e.sourceNode != x && e.targetNode != x
  {
    if edges != [] {
      EdgesOffMembers(edges[1..], x);
      assert edges == [edges[0]] + edges[1..];
    }
  }

  lemma {:induction false} ReferencesOff(ids: Ids, edges: seq<EdgeDoc>, x: string)
    requires References(ids, edges)
    ensures References(ids, EdgesOff(edges, x))
  {
    if edges != [] {
      ReferencesOff(ids, edges[1..], x);
      EdgesOffMembers(edges[1..], x);
      var rest := EdgesOff(edges[1..], x);
      forall j | 0 <= j < |rest| ensures !SameTarget(edges[0], rest[j]) {
        assert rest[j] in edges[1..];
        var k :| 0 <= k < |edges[1..]| && edges[1..][k] == rest[j];
        assert edges[k + 1] == rest[j];
      }
    }
  }

  ghost predicate OnlyNodeChanged(d: Document, d': Document, id: string) {
    forall x | x != id :: FindNode(d'.nodes, x) == FindNode(d.nodes, x)
  }

  lemma RemovalEffect(ids: Ids, d: Document, id: string)
    requires OntologyOk(ids, d) && Reduced(d, NodeRemove(id)).Success?
    ensures var d' := Reduced(d, NodeRemove(id)).value;
      OntologyOk(ids, d') && OnlyNodeChanged(d, d', id) && FindNode(d'.nodes, id).None?
  {
    var d' := Reduced(d, NodeRemove(id)).value;
    forall x ensures FindNode(d'.nodes, x) == (if x == id then None else FindNode(d.nodes, x)) {
      NodesWithoutFinds(d.nodes, id, x);
    }
    NodesWithoutFinds(d.nodes, id, id);
    NodesWithoutMembers(d.nodes, id);
    NodesWithoutDistinct(d.nodes, id);
    EdgesOffMembers(d.edges, id);
    ReferencesOff(ids, d.edges, id);
    forall i | 0 <= i < |d'.edges| ensures Named(ids, d'.nodes, d'.edges[i]) {
      assert d'.edges[i] in d.edges;
      assert Named(ids, d.nodes, d'.edges[i]);
    }
  }

  function UpdatedNode(n: NodeDoc, e: Edit): NodeDoc
    requires !e.Removal?
  {
    Patched(n, Some(EditTitle(n, e)), Some(EditPatch(n, e)))
  }

  predicate KeyUntouched(n: NodeDoc, e: Edit, socket: string)
    requires !e.Removal?
  {
    KeyField(socket) !in EditFields(n, e) && KeyField(socket) !in EditUndefineds(e)
  }

  /** The node update of an edit, with the sockets whose keys it may change left open. */
  lemma UpdatePart(ids: Ids, d: Document, e: Edit, ks: set<string>)
    requires OntologyOk(ids, d) && !e.Removal? && FindNode(d.nodes, e.id).Some? && ':' !in e.id
    requires forall k | k in {"subject", "object"} && k !in ks :: KeyUntouched(FindNode(d.nodes, e.id).value, e, k)
    ensures var n := FindNode(d.nodes, e.id).value;
      var r := Reduced(d, NodeUpdate(e.id, Some(EditTitle(n, e)), Some(EditPatch(n, e))));
      && r.Success? && r.value.edges == d.edges
      && Midway(ids, d, r.value, UpdatedNode(n, e), ks)
      && FindNode(r.value.nodes, e.id) == Some(UpdatedNode(n, e))
  {
    var n := FindNode(d.nodes, e.id).value;
    FoundNode(d.nodes, e.id);
    var edit := m => Patched(m, Some(EditTitle(n, e)), Some(EditPatch(n, e)));
    var d' := d.(revision := d.revision + 1, nodes := EditFirst(d.nodes, e.id, edit));
    forall x ensures FindNode(d'.nodes, x) == (if x == e.id then Some(UpdatedNode(n, e)) else FindNode(d.nodes, x)) {
      EditedNode(d.nodes, e.id, edit, x);
    }
    EditedNode(d.nodes, e.id, edit, e.id);
    forall f | f in d'.edges && !(f.targetNode == e.id && f.targetSocket in ks) ensures Named(ids, d'.nodes, f) {
      assert Named(ids, d.nodes, f) && IsReference(ids, f);
    }
  }

  lemma MidwayOk(ids: Ids, d: Document, d': Document, n: NodeDoc)
    requires Midway(ids, d, d', n, {})
    ensures OntologyOk(ids, d') && OnlyNodeChanged(d, d', n.id)
  {
    NamedButNone(ids, d', n.id);
    MidwayOnlyNode(ids, d, d', n, {});
  }

  ghost predicate EditFacts(ids: Ids, d: Document, d': Document, e: Edit) {
    && (OntologyOk(ids, d') <==> !Detaches(d, e))
    && OnlyNodeChanged(d, d', e.id)
    && (if e.Removal? then FindNode(d'.nodes, e.id).None? else UserOwned(d'.nodes, e.id))
  }

  /** The node holds a key for the socket that names the entity `source`. */
  predicate Keyed(ids: Ids, m: NodeDoc, socket: string, source: string) {
    && KeyField(socket) in m.inputValues && m.inputValues[KeyField(socket)].Str?
    && StableId(ids, Entity, m.inputValues[KeyField(socket)].s) == Success(source)
  }

  lemma RelationEditEffect(ids: Ids, d: Document, e: Edit, m: NodeDoc, s: string, o: string, d1: Document,
      d2: Document, d3: Document)
    requires GoodIds(ids) && e.RelationEdit? && !Detaches(d, e) && m.id == e.id && OwnedByUser(m)
    requires Midway(ids, d, d1, m, {"subject", "object"}) && d1.edges == d.edges
    requires Keyed(ids, m, "subject", s) && Keyed(ids, m, "object", o)
    requires ReducedEach(d1, UpsertEdge(ids, d, s, e.id, "subject")) == Success(d2)
    requires ReducedEach(d2, UpsertEdge(ids, d, o, e.id, "object")) == Success(d3)
    ensures EditFacts(ids, d, d3, e)
  {
    EdgePart(ids, d, d1, m, {"subject", "object"}, s, "subject");
    EdgePart(ids, d, d2, m, {"subject", "object"} - {"subject"}, o, "object");
    assert {"subject", "object"} - {"subject"} - {"object"} == {};
    MidwayOk(ids, d, d3, m);
    StoredOwned(d3.nodes, m);
  }

  /** Both edges are there after a relation edit, so a key set to undefined leaves one of them unnamed. */
  lemma RelationEditBreaks(ids: Ids, d: Document, e: Edit, m: NodeDoc, s: string, o: string, d1: Document,
      d2: Document, d3: Document)
    requires GoodIds(ids) && e.RelationEdit? && Detaches(d, e) && m.id == e.id && OwnedByUser(m)
      && References(ids, d.edges)
    requires FindNode(d1.nodes, e.id) == Some(m) && OnlyNodeChanged(d, d1, e.id) && d1.edges == d.edges
    requires Keyless(m, "subject") || Keyless(m, "object")
    requires ReducedEach(d1, UpsertEdge(ids, d, s, e.id, "subject")) == Success(d2)
    requires ReducedEach(d2, UpsertEdge(ids, d, o, e.id, "object")) == Success(d3)
    ensures EditFacts(ids, d, d3, e)
  {
    var se, oe := ReferenceEdge(ids, s, e.id, "subject"), ReferenceEdge(ids, o, e.id, "object");
    UpsertEdgeEffect(ids, d1, s, e.id, "subject");
    OtherSocketUntouched(ids, d1, d2, s, e.id, "subject", "object");
    UpsertEdgeEffect(ids, d2, o, e.id, "object");
    assert se in d3.edges && oe in d3.edges;
    KeylessBreaks(ids, d3, m, if Keyless(m, "subject") then se else oe);
  }

  lemma KeylessBreaks(ids: Ids, d: Document, m: NodeDoc, e: EdgeDoc)
    requires GoodIds(ids) && FindNode(d.nodes, e.targetNode) == Some(m) && Keyless(m, e.targetSocket) && e in d.edges
    ensures !OntologyOk(ids, d)
  {
    var i :| 0 <= i < |d.edges| && d.edges[i] == e;
    assert !Named(ids, d.nodes, d.edges[i]);
  }

  lemma StoredOwned(nodes: seq<NodeDoc>, m: NodeDoc)
    requires Stored(nodes, m) && OwnedByUser(m)
    ensures UserOwned(nodes, m.id)
  {
  }

  lemma ClaimEditEffect(ids: Ids, d: Document, e: Edit, m: NodeDoc, s: string, d1: Document, d2: Document)
    requires GoodIds(ids) && e.ClaimEdit? && e.claimSubject.Given? && e.claimSubject.value != "" && m.id == e.id
      && OwnedByUser(m)
    requires Midway(ids, d, d1, m, {"subject"}) && d1.edges == d.edges && Keyed(ids, m, "subject", s)
    requires ReducedEach(d1, UpsertEdge(ids, d, s, e.id, "subject")) == Success(d2)
    ensures EditFacts(ids, d, d2, e)
  {
    EdgePart(ids, d, d1, m, {"subject"}, s, "subject");
    assert {"subject"} - {"subject"} == {};
    MidwayOk(ids, d, d2, m);
    StoredOwned(d2.nodes, m);
  }

  /** Edits that replace no edge: alignment breaks exactly when an empty subject key meets a subject edge. */
  lemma PlainEditEffect(ids: Ids, d: Document, e: Edit, d1: Document)
    requires GoodIds(ids) && OntologyOk(ids, d) && (e.EntityEdit? || e.ClaimEdit?) && FindNode(d.nodes, e.id).Some?
      && ':' !in e.id
    requires e.ClaimEdit? ==> e.claimSubject.Given? ==> e.claimSubject.value == ""
    requires var n := FindNode(d.nodes, e.id).value;
      Reduced(d, NodeUpdate(e.id, Some(EditTitle(n, e)), Some(EditPatch(n, e)))) == Success(d1)
    ensures EditFacts(ids, d, d1, e)
  {
    if ClearsSubject(e) {
      ClearedEditEffect(ids, d, e, d1);
    } else {
      var n := FindNode(d.nodes, e.id).value;
      FoundNode(d.nodes, e.id);
      KeysNotGiven(n, e);
      UpdatePart(ids, d, e, {});
      MidwayOk(ids, d, d1, UpdatedNode(n, e));
      UpdatedIsOwned(n, e);
    }
  }

  lemma KeysNotGiven(n: NodeDoc, e: Edit)
    requires e.EntityEdit? || (e.ClaimEdit? && e.claimSubject.Absent?)
    ensures KeyUntouched(n, e, "subject") && KeyUntouched(n, e, "object")
  {
  }

  lemma UpdatedIsOwned(n: NodeDoc, e: Edit)
    requires !e.Removal?
    ensures OwnedByUser(UpdatedNode(n, e))
  {
  }

  predicate ClearsSubject(e: Edit) {
    e.ClaimEdit? && (e.claimSubject.Undefined? || e.claimSubject == Given(""))
  }

  /** The node names no entity for the socket. */
  predicate Keyless(m: NodeDoc, socket: string) {
    KeyField(socket) in m.inputValues ==> m.inputValues[KeyField(socket)] == Str("")
  }

  lemma ClearedFields(n: NodeDoc, e: Edit)
    requires ClearsSubject(e)
    ensures Keyless(UpdatedNode(n, e), "subject") && KeyUntouched(n, e, "object")
  {
    SubjectPatched(n, e);
    ObjectPatched(n, e);
  }

  lemma ClearedEditEffect(ids: Ids, d: Document, e: Edit, d1: Document)
    requires GoodIds(ids) && OntologyOk(ids, d) && ClearsSubject(e)
    requires FindNode(d.nodes, e.id).Some? && ':' !in e.id
    requires var n := FindNode(d.nodes, e.id).value;
      Reduced(d, NodeUpdate(e.id, Some(EditTitle(n, e)), Some(EditPatch(n, e)))) == Success(d1)
    ensures EditFacts(ids, d, d1, e)
  {
    var n := FindNode(d.nodes, e.id).value;
    FoundNode(d.nodes, e.id);
    ClearedFields(n, e);
    UpdatePart(ids, d, e, {"subject"});
    EmptySubject(ids, d, d1, UpdatedNode(n, e));
    UpdatedIsOwned(n, e);
  }

  lemma EmptySubject(ids: Ids, d: Document, d1: Document, m: NodeDoc)
    requires GoodIds(ids) && Midway(ids, d, d1, m, {"subject"}) && d1.edges == d.edges
    requires FindNode(d1.nodes, m.id) == Some(m) && Keyless(m, "subject")
    ensures OntologyOk(ids, d1) <==> FindInto(d.edges, m.id, "subject").None?
    ensures OnlyNodeChanged(d, d1, m.id)
  {
    FoundInto(d1.edges, m.id, "subject");
    var found := FindInto(d1.edges, m.id, "subject");
    forall x | x != m.id ensures FindNode(d1.nodes, x) == FindNode(d.nodes, x) {
      assert Agree(d, d1, x);
    }
    if found.Some? {
      KeylessBreaks(ids, d1, m, found.value);
    } else {
      assert NamedBut(ids, d1, m.id, {});
      NamedButNone(ids, d1, m.id);
    }
  }

  /**
   * A user edit changes no other node and makes the edited node the user's. It keeps keys and
   * edges aligned if and only if it does not detach.
   */
  lemma EditEffect(ids: Ids, d: Document, e: Edit)
    requires GoodIds(ids) && OntologyOk(ids, d) && Edited(ids, d, e).Success?
    ensures EditFacts(ids, d, Edited(ids, d, e).value, e)
  {
    var cs := EditCommands(ids, d, e).value;
    var d' := ReducedEach(d, cs).value;
    FoundNode(d.nodes, e.id);
    if e.Removal? {
      OneCommand(d, NodeRemove(e.id));
      RemovalEffect(ids, d, e.id);
    } else {
      var n := FindNode(d.nodes, e.id).value;
      var update, edges := NodeUpdate(e.id, Some(EditTitle(n, e)), Some(EditPatch(n, e))),
        EditEdges(ids, d, n, e).value;
      ReducedConcat(d, [update], edges);
      OneCommand(d, update);
      EditCases(ids, d, e, Reduced(d, update).value, edges);
    }
    SameBodyEditFacts(ids, d, d', Edited(ids, d, e).value, e);
  }

  lemma EditCases(ids: Ids, d: Document, e: Edit, d1: Document, edges: seq<Command>)
    requires GoodIds(ids) && OntologyOk(ids, d) && !e.Removal? && FindNode(d.nodes, e.id).Some?
    requires EditCommands(ids, d, e).Success?
    requires var n := FindNode(d.nodes, e.id).value;
      && Reduced(d, NodeUpdate(e.id, Some(EditTitle(n, e)), Some(EditPatch(n, e)))) == Success(d1)
      && EditEdges(ids, d, n, e) == Success(edges)
    requires ReducedEach(d1, edges).Success?
    ensures EditFacts(ids, d, ReducedEach(d1, edges).value, e)
  {
    var n := FindNode(d.nodes, e.id).value;
    match e {
      case EntityEdit(_, _, _) => PlainEditEffect(ids, d, e, d1);
      case ClaimEdit(_, subject, _, _, _) =>
        if subject.Given? && subject.value != "" {
          ClaimEditCase(ids, d, e, d1, edges);
        } else {
          PlainEditEffect(ids, d, e, d1);
        }
      case RelationEdit(_, subjectKey, _, objectKey, _) =>
        RelationEditCase(ids, d, e, d1, edges);
    }
  }

  lemma ClaimEditCase(ids: Ids, d: Document, e: Edit, d1: Document, edges: seq<Command>)
    requires GoodIds(ids) && OntologyOk(ids, d) && e.ClaimEdit? && FindNode(d.nodes, e.id).Some? && ':' !in e.id
    requires e.claimSubject.Given? && e.claimSubject.value != ""
    requires var n := FindNode(d.nodes, e.id).value;
      && Reduced(d, NodeUpdate(e.id, Some(EditTitle(n, e)), Some(EditPatch(n, e)))) == Success(d1)
      && EditEdges(ids, d, n, e) == Success(edges)
    requires ReducedEach(d1, edges).Success?
    ensures EditFacts(ids, d, ReducedEach(d1, edges).value, e)
  {
    var n := FindNode(d.nodes, e.id).value;
    var source := StableId(ids, Entity, e.claimSubject.value).value;
    FoundNode(d.nodes, e.id);
    UpdatedSubject(ids, n, e, source);
    UpdatePart(ids, d, e, {"subject"});
    ClaimEditEffect(ids, d, e, UpdatedNode(n, e), source, d1, ReducedEach(d1, edges).value);
  }

  lemma SubjectPatched(n: NodeDoc, e: Edit)
    requires e.RelationEdit? || e.ClaimEdit?
    ensures var patch := if e.RelationEdit? then e.subjectKey else e.claimSubject;
      && ("subjectEntityKey" in EditUndefineds(e) <==> patch.Undefined?)
      && ("subjectEntityKey" in EditFields(n, e) <==> patch.Given?)
      && (patch.Given? ==> EditFields(n, e)["subjectEntityKey"] == Str(patch.value))
  {
  }

  lemma ObjectPatched(n: NodeDoc, e: Edit)
    requires e.RelationEdit? || e.ClaimEdit?
    ensures e.ClaimEdit? ==> KeyUntouched(n, e, "object")
    ensures e.RelationEdit? ==>
      && ("objectEntityKey" in EditUndefineds(e) <==> e.objectKey.Undefined?)
      && ("objectEntityKey" in EditFields(n, e) <==> e.objectKey.Given?)
      && (e.objectKey.Given? ==> EditFields(n, e)["objectEntityKey"] == Str(e.objectKey.value))
  {
  }

  /** A key field after a patch: nothing if it was set to undefined, and otherwise the key the edges use. */
  lemma KeyPatched(ids: Ids, n: NodeDoc, m: NodeDoc, inputs: InputPatch, patch: Patch, socket: string, source: string)
    requires m.inputValues == n.inputValues + inputs.values - inputs.undefineds
    requires KeyField(socket) in inputs.undefineds <==> patch.Undefined?
    requires KeyField(socket) in inputs.values <==> patch.Given?
    requires patch.Given? ==> inputs.values[KeyField(socket)] == Str(patch.value)
    requires KeyAfter(n, patch, KeyField(socket)).Success?
    requires StableId(ids, Entity, KeyAfter(n, patch, KeyField(socket)).value) == Success(source)
    ensures if patch.Undefined? then Keyless(m, socket) else Keyed(ids, m, socket, source)
  {
  }

  lemma UpdatedSubject(ids: Ids, n: NodeDoc, e: Edit, source: string)
    requires e.ClaimEdit? && e.claimSubject.Given? && StableId(ids, Entity, e.claimSubject.value) == Success(source)
    ensures OwnedByUser(UpdatedNode(n, e)) && Keyed(ids, UpdatedNode(n, e), "subject", source)
    ensures KeyUntouched(n, e, "object")
  {
    SubjectPatched(n, e);
    ObjectPatched(n, e);
    KeyPatched(ids, n, UpdatedNode(n, e), EditPatch(n, e), e.claimSubject, "subject", source);
    UpdatedIsOwned(n, e);
  }

  lemma RelationEditCase(ids: Ids, d: Document, e: Edit, d1: Document, edges: seq<Command>)
    requires GoodIds(ids) && OntologyOk(ids, d) && e.RelationEdit? && FindNode(d.nodes, e.id).Some? && ':' !in e.id
    requires var n := FindNode(d.nodes, e.id).value;
      && Reduced(d, NodeUpdate(e.id, Some(EditTitle(n, e)), Some(EditPatch(n, e)))) == Success(d1)
      && EditEdges(ids, d, n, e) == Success(edges)
    requires ReducedEach(d1, edges).Success?
    ensures EditFacts(ids, d, ReducedEach(d1, edges).value, e)
  {
    var n := FindNode(d.nodes, e.id).value;
    var s := StableId(ids, Entity, KeyAfter(n, e.subjectKey, "subjectEntityKey").value).value;
    var o := StableId(ids, Entity, KeyAfter(n, e.objectKey, "objectEntityKey").value).value;
    var c2, c3 := UpsertEdge(ids, d, s, e.id, "subject"), UpsertEdge(ids, d, o, e.id, "object");
    assert edges == c2 + c3;
    ReducedConcat(d1, c2, c3);
    FoundNode(d.nodes, e.id);
    UpdatePart(ids, d, e, {"subject", "object"});
    UpdatedKeys(ids, n, e, s, o);
    RelationOutcome(ids, d, e, UpdatedNode(n, e), s, o, d1, ReducedEach(d1, c2).value, ReducedEach(d1, edges).value);
  }

  lemma RelationOutcome(ids: Ids, d: Document, e: Edit, m: NodeDoc, s: string, o: string, d1: Document, d2: Document,
      d3: Document)
    requires GoodIds(ids) && References(ids, d.edges) && e.RelationEdit? && m.id == e.id && OwnedByUser(m)
    requires Midway(ids, d, d1, m, {"subject", "object"}) && d1.edges == d.edges && FindNode(d1.nodes, e.id) == Some(m)
    requires if e.subjectKey.Undefined? then Keyless(m, "subject") else Keyed(ids, m, "subject", s)
    requires if e.objectKey.Undefined? then Keyless(m, "object") else Keyed(ids, m, "object", o)
    requires ReducedEach(d1, UpsertEdge(ids, d, s, e.id, "subject")) == Success(d2)
    requires ReducedEach(d2, UpsertEdge(ids, d, o, e.id, "object")) == Success(d3)
    ensures EditFacts(ids, d, d3, e)
  {
    if Detaches(d, e) {
      MidwayOnlyNode(ids, d, d1, m, {"subject", "object"});
      RelationEditBreaks(ids, d, e, m, s, o, d1, d2, d3);
    } else {
      RelationEditEffect(ids, d, e, m, s, o, d1, d2, d3);
    }
  }

  lemma MidwayOnlyNode(ids: Ids, d: Document, d': Document, n: NodeDoc, ks: set<string>)
    requires Midway(ids, d, d', n, ks)
    ensures OnlyNodeChanged(d, d', n.id)
  {
    forall x | x != n.id ensures FindNode(d'.nodes, x) == FindNode(d.nodes, x) {
      assert Agree(d, d', x);
    }
  }

  lemma UpdatedKeys(ids: Ids, n: NodeDoc, e: Edit, s: string, o: string)
    requires e.RelationEdit?
    requires KeyAfter(n, e.subjectKey, "subjectEntityKey").Success?
      && KeyAfter(n, e.objectKey, "objectEntityKey").Success?
    requires StableId(ids, Entity, KeyAfter(n, e.subjectKey, "subjectEntityKey").value) == Success(s)
    requires StableId(ids, Entity, KeyAfter(n, e.objectKey, "objectEntityKey").value) == Success(o)
    ensures var m := UpdatedNode(n, e);
      && OwnedByUser(m)
      && (if e.subjectKey.Undefined? then Keyless(m, "subject") else Keyed(ids, m, "subject", s))
      && (if e.objectKey.Undefined? then Keyless(m, "object") else Keyed(ids, m, "object", o))
  {
    SubjectPatched(n, e);
    KeyPatched(ids, n, UpdatedNode(n, e), EditPatch(n, e), e.subjectKey, "subject", s);
    ObjectPatched(n, e);
    KeyPatched(ids, n, UpdatedNode(n, e), EditPatch(n, e), e.objectKey, "object", o);
    UpdatedIsOwned(n, e);
  }

  lemma SameBodyEditFacts(ids: Ids, d: Document, a: Document, b: Document, e: Edit)
    requires a.nodes == b.nodes && a.edges == b.edges && EditFacts(ids, d, a, e)
    ensures EditFacts(ids, d, b, e)
  {
  }

  // ----- the edit that breaks the invariant ---------------------------------

  /** An entity "a" and a claim "c" about it. */
  function ClaimAbout(ids: Ids): Document {
    var a, c := ids.make(Entity, "a"), ids.make(Claim, "c");
    Document("d", "t", 0,
      [NodeDoc(a, ReducerOf(Entity), "a", Position(0.0, 0.0), map[]),
       NodeDoc(c, ReducerOf(Claim), "c", Position(0.0, 0.0), map["subjectEntityKey" := Str("a")])],
      [ReferenceEdge(ids, a, c, "subject")], None)
  }

  /**
   * An aligned document and the edit that leaves a stale edge behind: the user clears the subject,
   * with an empty text or with undefined.
   */
  lemma ClearedSubjectKeepsEdge(ids: Ids, cleared: Patch)
    requires GoodIds(ids) && ids.canonical("a") == "a" && (cleared == Given("") || cleared.Undefined?)
    ensures var d := ClaimAbout(ids); var e := ClaimEdit(ids.make(Claim, "c"), cleared, Absent, Absent, None);
      OntologyOk(ids, d) && Edited(ids, d, e).Success? && !OntologyOk(ids, Edited(ids, d, e).value)
  {
    var d := ClaimAbout(ids);
    var a, c := ids.make(Entity, "a"), ids.make(Claim, "c");
    var e := ClaimEdit(c, cleared, Absent, Absent, None);
    assert a != c && ':' !in c;
    assert d.nodes[1..][0] == d.nodes[1];
    assert FindNode(d.nodes, c) == Some(d.nodes[1]);
    assert OntologyOk(ids, d);
    assert d.nodes[1].id == c;
    assert FindInto(d.edges, c, "subject") == Some(d.edges[0]);
    OneCommand(d, NodeUpdate(c, Some(EditTitle(d.nodes[1], e)), Some(EditPatch(d.nodes[1], e))));
    assert EditCommands(ids, d, e).Success?;
    EditEffect(ids, d, e);
  }
}
