/**
 * Work items (packages/work-items-store/src/operations.ts): document mutations with a bounded
 * history, duplicate blocking of feature requests, and generated ids.
 */
module WorkItems {
  import opened Wrappers
  import opened EditDistances

  const MAX_HISTORY_ENTRIES: nat := 100
  const DUPLICATE_THRESHOLD: real := 0.82
  const FEATURE_REQUEST: string := "feature-request"

  /** Unicode normalisation and trimming, which belong to the JavaScript runtime. */
  datatype Text = Text(trim: string -> string, normalize: string -> string)

  datatype Binding = Binding(scope: string, rollsUp: bool)
  datatype Evidence = Evidence(id: string, note: string)

  datatype Story = Story(
    id: string, kind: string, home: string, bindings: seq<Binding>, parent: Option<string>,
    title: string, status: string, revision: int, updatedAt: string,
    assignee: Option<string>, assigneePrincipal: Option<string>,
    reviewDecision: Option<string>, decidedBy: Option<string>, evidence: seq<Evidence>)

  datatype Review = Review(id: string, storyId: string, assignee: string, completed: bool, decision: Option<string>)
  datatype Comment = Comment(id: string, storyId: string, parent: Option<string>, body: string)
  datatype Sponsorship = Sponsorship(id: string, storyId: string, sponsor: string, confirmed: bool)

  datatype Items = Items(
    revision: int, stories: seq<Story>, reviews: seq<Review>, comments: seq<Comment>, sponsorships: seq<Sponsorship>)

  /** The current items and snapshots of earlier ones, newest first. */
  datatype Document = Document(items: Items, history: seq<Items>)

  datatype WorkError = RevisionConflict | UnknownStory | UnknownReview | UnknownParent | ReviewCompleted
    | DuplicateId | InvalidProposal | NotARequest

  // ----- generated ids ----------------------------------------------------

  predicate IsDigit(c: char) {
    '0' <= c <= '9'
  }

  function DigitValue(c: char): nat
    requires IsDigit(c)
  {
    c as nat - '0' as nat
  }

  predicate AllDigits(s: string) {
    forall i | 0 <= i < |s| :: IsDigit(s[i])
  }

  function ParseDigits(s: string): nat
    requires AllDigits(s)
  {
    if s == "" then 0 else 10 * ParseDigits(s[..|s| - 1]) + DigitValue(s[|s| - 1])
  }

  /** The number in an id made of the prefix and one or more digits. */
  function NumberIn(prefix: string, id: string): Option<nat> {
    if prefix <= id && |id| > |prefix| && AllDigits(id[|prefix|..]) then Some(ParseDigits(id[|prefix|..])) else None
  }

  function LargestNumber(prefix: string, ids: seq<string>): nat {
    if ids == [] then 0
    else
      var rest, n := LargestNumber(prefix, ids[1..]), NumberIn(prefix, ids[0]);
      if n.Some? && n.value > rest then n.value else rest
  }

  function NatText(n: nat): string {
    var last := [('0' as nat + n % 10) as char];
    if n < 10 then last else NatText(n / 10) + last
  }

  function NextId(prefix: string, ids: seq<string>): string {
    prefix + NatText(LargestNumber(prefix, ids) + 1)
  }

  lemma {:induction false} NatTextParses(n: nat)
    ensures NatText(n) != "" && AllDigits(NatText(n)) && ParseDigits(NatText(n)) == n
  {
    var t := NatText(n);
    if n >= 10 {
      NatTextParses(n / 10);
      assert t[..|t| - 1] == NatText(n / 10);
    } else {
      assert t[..|t| - 1] == "";
    }
  }

  lemma {:induction false} LargestIsLargest(prefix: string, ids: seq<string>)
    ensures forall id | id in ids && NumberIn(prefix, id).Some? ::
      NumberIn(prefix, id).value <= LargestNumber(prefix, ids)
  {
    if ids != [] {
      LargestIsLargest(prefix, ids[1..]);
      assert ids == [ids[0]] + ids[1..];
    }
  }

  /** A generated id is new, whatever ids are already there. */
  lemma NextIdIsFresh(prefix: string, ids: seq<string>)
    ensures NextId(prefix, ids) !in ids
  {
    var n := LargestNumber(prefix, ids) + 1;
    NatTextParses(n);
    LargestIsLargest(prefix, ids);
    var id := NextId(prefix, ids);
    assert id[|prefix|..] == NatText(n);
    assert NumberIn(prefix, id) == Some(n);
  }

  function StoryIds(stories: seq<Story>): (r: seq<string>)
    ensures |r| == |stories| && forall i | 0 <= i < |r| :: r[i] == stories[i].id
  {
    seq(|stories|, i requires 0 <= i < |stories| => stories[i].id)
  }

  function EvidenceIds(evidence: seq<Evidence>): (r: seq<string>)
    ensures |r| == |evidence| && forall i | 0 <= i < |r| :: r[i] == evidence[i].id
  {
    seq(|evidence|, i requires 0 <= i < |evidence| => evidence[i].id)
  }

  // ----- duplicate decisions ----------------------------------------------

  predicate SameQueue(s: Story, home: string) {
    s.kind == FEATURE_REQUEST && s.home == home
  }

  predicate ExactTitle(t: Text, s: Story, title: string) {
    t.normalize(s.title) == t.normalize(title)
  }

  function Score(t: Text, s: Story, title: string): real {
    Similarity(t.normalize(title), t.normalize(s.title))
  }

  datatype Candidate = Candidate(story: Story, exact: bool, score: real)

  /** The requests in the same home scope that are too close to a title, in document order. */
  function Candidates(t: Text, stories: seq<Story>, title: string, home: string): seq<Candidate> {
    if stories == [] then []
    else
      var s := stories[0];
      (if SameQueue(s, home) && (ExactTitle(t, s, title) || Score(t, s, title) >= DUPLICATE_THRESHOLD)
       then [Candidate(s, ExactTitle(t, s, title), Score(t, s, title))] else [])
      + Candidates(t, stories[1..], title, home)
  }

  lemma {:induction false} NoCandidates(t: Text, stories: seq<Story>, title: string, home: string)
    ensures Candidates(t, stories, title, home) == [] <==>
      forall s | s in stories && SameQueue(s, home) :: !ExactTitle(t, s, title)
        && Score(t, s, title) < DUPLICATE_THRESHOLD
  {
    if stories != [] {
      NoCandidates(t, stories[1..], title, home);
      assert stories == [stories[0]] + stories[1..];
    }
  }

  // ----- mutations --------------------------------------------------------

  function Committed(d: Document, items: Items): Document {
    var history := [d.items] + d.history;
    Document(items.(revision := d.items.revision + 1),
      if |history| <= MAX_HISTORY_ENTRIES then history else history[..MAX_HISTORY_ENTRIES])
  }

  predicate RevisionExpected(d: Document, expected: Option<int>) {
    expected.None? || expected.value == d.items.revision
  }

  function FindStory(stories: seq<Story>, id: string): Option<Story> {
    if stories == [] then None else if stories[0].id == id then Some(stories[0]) else FindStory(stories[1..], id)
  }

  function FindReview(reviews: seq<Review>, id: string): Option<Review> {
    if reviews == [] then None else if reviews[0].id == id then Some(reviews[0]) else FindReview(reviews[1..], id)
  }

  /** `stories.map(item => item.id === id ? edit(item) : item)` */
  function EditStories(stories: seq<Story>, id: string, edit: Story -> Story): (r: seq<Story>)
    ensures |r| == |stories|
    ensures forall i | 0 <= i < |r| :: r[i] == if stories[i].id == id then edit(stories[i]) else stories[i]
  {
    seq(|stories|, i requires 0 <= i < |stories| => if stories[i].id == id then edit(stories[i]) else stories[i])
  }

  function CompletedReviews(reviews: seq<Review>, id: string, decision: string): (r: seq<Review>)
    ensures |r| == |reviews|
  {
    seq(|reviews|, i requires 0 <= i < |reviews| =>
      if reviews[i].id == id then reviews[i].(completed := true, decision := Some(decision)) else reviews[i])
  }

  datatype Proposal = Proposal(title: string, intendedScope: Option<string>, relatedScopes: seq<string>,
    otherFieldsValid: bool)

  datatype Operation =
    | Transition(id: string, status: string, expected: Option<int>)
    | AssignReview(id: string, assignee: string, expected: Option<int>)
    | DecideReview(reviewId: string, decision: string, decidedBy: string, expected: Option<int>)
    | AddComment(comment: Comment, expected: Option<int>)
    | Propose(proposal: Proposal, currentScope: string, expected: Option<int>)
    | AddEvidence(id: string, note: string, expected: Option<int>)
    | Sponsor(sponsorship: Sponsorship, expected: Option<int>)

  /** Trimmed, non-empty, first occurrences only. */
  function UniqueStrings(t: Text, values: seq<string>): seq<string> {
    if values == [] then []
    else
      var before, v := UniqueStrings(t, values[..|values| - 1]), t.trim(values[|values| - 1]);
      if v == "" || v in before then before else before + [v]
  }

  function RelatedBindings(scopes: seq<string>, home: string): seq<Binding> {
    if scopes == [] then []
    else (if scopes[0] == home then [] else [Binding(scopes[0], true)]) + RelatedBindings(scopes[1..], home)
  }

  function HomeOf(t: Text, p: Proposal, currentScope: string): string {
    if p.intendedScope.Some? && t.trim(p.intendedScope.value) != "" then t.trim(p.intendedScope.value) else currentScope
  }

  predicate ProposalValid(t: Text, p: Proposal) {
    p.otherFieldsValid && t.trim(p.title) != "" && (p.intendedScope.Some? ==> t.trim(p.intendedScope.value) != "")
  }

  function RequestFor(t: Text, d: Document, p: Proposal, currentScope: string, now: string): Story {
    var home := HomeOf(t, p, currentScope);
    Story(NextId("FR.", StoryIds(d.items.stories)), FEATURE_REQUEST, home,
      RelatedBindings(UniqueStrings(t, p.relatedScopes), home), None,
      t.trim(p.title), "idea", 1, now, None, None, None, None, [])
  }

  datatype Proposed = Created(document: Document, story: Story) | Duplicate(candidates: seq<Candidate>)

  function ProposeFeatureRequest(t: Text, d: Document, p: Proposal, currentScope: string, now: string)
    : Result<Proposed, WorkError>
  {
    if !ProposalValid(t, p) then Failure(InvalidProposal)
    else
      var candidates := Candidates(t, d.items.stories, t.trim(p.title), HomeOf(t, p, currentScope));
      if candidates != [] then Success(Duplicate(candidates))
      else
        var story := RequestFor(t, d, p, currentScope, now);
        Success(Created(Committed(d, d.items.(stories := d.items.stories + [story])), story))
  }

  function Operated(t: Text, d: Document, op: Operation, now: string): Result<Document, WorkError> {
    var items := d.items;
    if !RevisionExpected(d, op.expected) then Failure(RevisionConflict)
    else match op
      case Transition(id, status, _) =>
        var story := FindStory(items.stories, id);
        if story.None? then Failure(UnknownStory)
        else if story.value.status == status then Success(d)
        else Success(Committed(d, items.(stories := EditStories(items.stories, id,
          (s: Story) => s.(status := status, updatedAt := now, revision := s.revision + 1)))))
      case AssignReview(id, assignee, _) =>
        var story := FindStory(items.stories, id);
        if story.None? then Failure(UnknownStory)
        else
          var review := Review("review-" + id + "-" + NatText(|items.reviews| + 1), id, assignee, false, None);
          Success(Committed(d, items.(
            stories := EditStories(items.stories, id, (s: Story) =>
              s.(assignee := Some(assignee), reviewDecision := Some("proposed"), updatedAt := now,
                revision := s.revision + 1)),
            reviews := items.reviews + [review])))
      case DecideReview(reviewId, decision, decidedBy, _) =>
        var review := FindReview(items.reviews, reviewId);
        if review.None? then Failure(UnknownReview)
        else if review.value.completed then
          if review.value.decision == Some(decision) then Success(d) else Failure(ReviewCompleted)
        else if FindStory(items.stories, review.value.storyId).None? then Failure(UnknownStory)
        else Success(Committed(d, items.(
          stories := EditStories(items.stories, review.value.storyId, (s: Story) =>
            s.(reviewDecision := Some(decision), decidedBy := Some(decidedBy), updatedAt := now,
              revision := s.revision + 1)),
          reviews := CompletedReviews(items.reviews, reviewId, decision))))
      case AddComment(comment, _) =>
        if FindStory(items.stories, comment.storyId).None? then Failure(UnknownStory)
        else if exists c | c in items.comments :: c.id == comment.id then Failure(DuplicateId)
        else if comment.parent.Some? &&
                !(exists c | c in items.comments :: c.id == comment.parent.value && c.storyId == comment.storyId)
        then Failure(UnknownParent)
        else Success(Committed(d, items.(comments := items.comments + [comment])))
      case Propose(proposal, currentScope, _) =>
        var proposed :- ProposeFeatureRequest(t, d, proposal, currentScope, now);
        Success(if proposed.Created? then proposed.document else d)
      case AddEvidence(id, note, _) =>
        var story := FindStory(items.stories, id);
        if story.None? then Failure(UnknownStory)
        else if story.value.kind != FEATURE_REQUEST then Failure(NotARequest)
        else
          var entry := Evidence(NextId("evidence-", EvidenceIds(story.value.evidence)), note);
          Success(Committed(d, items.(stories := EditStories(items.stories, id, (s: Story) =>
            s.(evidence := story.value.evidence + [entry], updatedAt := now, revision := s.revision + 1)))))
      case Sponsor(sponsorship, _) =>
        if FindStory(items.stories, sponsorship.storyId).None? then Failure(UnknownStory)
        else if exists s | s in items.sponsorships :: s.id == sponsorship.id then Failure(DuplicateId)
        else Success(Committed(d, items.(sponsorships := items.sponsorships + [sponsorship])))
  }

  /** An operation that throws changes nothing. `clock(k)` is the time at the k-th operation. */
  function OperatedAll(t: Text, d: Document, ops: seq<Operation>, clock: nat -> string): Document {
    if ops == [] then d
    else
      var before := OperatedAll(t, d, ops[..|ops| - 1], clock);
      var r := Operated(t, before, ops[|ops| - 1], clock(|ops| - 1));
      if r.Success? then r.value else before
  }

  // ----- duplicate blocking over runs -------------------------------------

  /** Two feature requests of one home scope have different normalised titles, less than 0.82 similar. */
  predicate Apart(t: Text, s: Story, u: Story) {
    s.kind == FEATURE_REQUEST && u.kind == FEATURE_REQUEST && s.home == u.home ==>
      && t.normalize(s.title) != t.normalize(u.title)
      && Similarity(t.normalize(s.title), t.normalize(u.title)) < DUPLICATE_THRESHOLD
  }

  ghost predicate AllApart(t: Text, stories: seq<Story>) {
    forall i, j | 0 <= i < j < |stories| :: Apart(t, stories[i], stories[j])
  }

  ghost predicate DistinctStories(stories: seq<Story>) {
    forall i, j | 0 <= i < j < |stories| :: stories[i].id != stories[j].id
  }

  predicate KeepsIdentity(s: Story, u: Story) {
    s.id == u.id && s.kind == u.kind && s.home == u.home && s.title == u.title
  }

  /** `now` extends `before`: same stories as far as identity goes, and at most new ones after them. */
  ghost predicate SameStories(before: seq<Story>, now: seq<Story>) {
    |before| == |now| && forall i | 0 <= i < |before| :: KeepsIdentity(before[i], now[i])
  }

  lemma ApartSymmetric(t: Text, s: Story, u: Story)
    ensures Apart(t, s, u) <==> Apart(t, u, s)
  {
    SimilaritySymmetric(t.normalize(s.title), t.normalize(u.title));
  }

  lemma SameStoriesKeep(t: Text, before: seq<Story>, now: seq<Story>)
    requires SameStories(before, now) && AllApart(t, before) && DistinctStories(before)
    ensures AllApart(t, now) && DistinctStories(now)
  {
    forall i, j | 0 <= i < j < |now| ensures Apart(t, now[i], now[j]) && now[i].id != now[j].id {
      assert KeepsIdentity(before[i], now[i]) && KeepsIdentity(before[j], now[j]);
      assert Apart(t, before[i], before[j]);
    }
  }

  /** A created request is apart from all others and has an id nothing else has. */
  lemma CreatedIsApart(t: Text, d: Document, p: Proposal, currentScope: string, now: string)
    requires AllApart(t, d.items.stories) && DistinctStories(d.items.stories)
    requires ProposeFeatureRequest(t, d, p, currentScope, now).Success?
      && ProposeFeatureRequest(t, d, p, currentScope, now).value.Created?
    ensures var r := ProposeFeatureRequest(t, d, p, currentScope, now).value;
      && AllApart(t, r.document.items.stories) && DistinctStories(r.document.items.stories)
      && r.story.id !in StoryIds(d.items.stories)
      && r.document.items.stories == d.items.stories + [r.story]
  {
    var stories, story := d.items.stories, RequestFor(t, d, p, currentScope, now);
    NextIdIsFresh("FR.", StoryIds(stories));
    NoCandidates(t, stories, t.trim(p.title), HomeOf(t, p, currentScope));
    var all := stories + [story];
    forall i, j | 0 <= i < j < |all| ensures Apart(t, all[i], all[j]) && all[i].id != all[j].id {
      if j < |stories| {
        assert Apart(t, stories[i], stories[j]);
      } else {
        assert stories[i] in stories;
        assert stories[i].id == StoryIds(stories)[i];
        ApartSymmetric(t, story, stories[i]);
      }
    }
  }

  ghost predicate Kept(t: Text, d: Document) {
    AllApart(t, d.items.stories) && DistinctStories(d.items.stories) && |d.history| <= MAX_HISTORY_ENTRIES
  }

  lemma OperationKeeps(t: Text, d: Document, op: Operation, now: string)
    requires Kept(t, d) && Operated(t, d, op, now).Success?
    ensures Kept(t, Operated(t, d, op, now).value)
    ensures Operated(t, d, op, now).value == d || Operated(t, d, op, now).value.items.revision == d.items.revision + 1
  {
    if op.Propose? {
      if ProposeFeatureRequest(t, d, op.proposal, op.currentScope, now).value.Created? {
        CreatedIsApart(t, d, op.proposal, op.currentScope, now);
      }
    } else {
      OperationKeepsStories(t, d, op, now);
      SameStoriesKeep(t, d.items.stories, Operated(t, d, op, now).value.items.stories);
    }
  }

  /** Everything but a proposal leaves the stories' identities. */
  lemma OperationKeepsStories(t: Text, d: Document, op: Operation, now: string)
    requires !op.Propose? && Operated(t, d, op, now).Success?
    ensures SameStories(d.items.stories, Operated(t, d, op, now).value.items.stories)
  {
  }

  /**
   * Duplicate blocking holds over whole runs: any two feature requests of one home scope stay
   * apart, all story ids stay distinct, and the history stays bounded.
   */
  lemma {:induction false} DuplicatesStayBlocked(t: Text, d: Document, ops: seq<Operation>, clock: nat -> string)
    requires Kept(t, d)
    ensures Kept(t, OperatedAll(t, d, ops, clock))
    ensures d.items.revision <= OperatedAll(t, d, ops, clock).items.revision <= d.items.revision + |ops|
    decreases |ops|
  {
    if ops != [] {
      DuplicatesStayBlocked(t, d, ops[..|ops| - 1], clock);
      var before := OperatedAll(t, d, ops[..|ops| - 1], clock);
      if Operated(t, before, ops[|ops| - 1], clock(|ops| - 1)).Success? {
        OperationKeeps(t, before, ops[|ops| - 1], clock(|ops| - 1));
      }
    }
  }

  /**
   * A proposal is refused exactly when it would come too close to an existing request, so
   * proposing the same title twice in one scope is always refused the second time.
   */
  lemma RefusedIff(t: Text, d: Document, p: Proposal, currentScope: string, now: string)
    requires ProposalValid(t, p)
    ensures ProposeFeatureRequest(t, d, p, currentScope, now).value.Duplicate? <==>
      !(forall s | s in d.items.stories :: Apart(t, s, RequestFor(t, d, p, currentScope, now)))
  {
    var request := RequestFor(t, d, p, currentScope, now);
    NoCandidates(t, d.items.stories, request.title, request.home);
    forall s | s in d.items.stories && SameQueue(s, request.home)
      ensures Apart(t, s, request) <==>
        !ExactTitle(t, s, request.title) && Score(t, s, request.title) < DUPLICATE_THRESHOLD
    {
      ApartSymmetric(t, s, request);
    }
  }

  /** New evidence gets an id none of the request's entries has. */
  lemma EvidenceIsFresh(t: Text, d: Document, id: string, note: string, expected: Option<int>, now: string)
    requires Operated(t, d, AddEvidence(id, note, expected), now).Success? && DistinctStories(d.items.stories)
    ensures var d' := Operated(t, d, AddEvidence(id, note, expected), now).value;
      exists i :: 0 <= i < |d.items.stories| && d.items.stories[i].id == id &&
        (exists entry: Evidence :: d'.items.stories[i].evidence == d.items.stories[i].evidence + [entry] &&
          entry.note == note && entry.id !in EvidenceIds(d.items.stories[i].evidence))
  {
    FoundStory(d.items.stories, id);
    var i :| 0 <= i < |d.items.stories| && d.items.stories[i] == FindStory(d.items.stories, id).value;
    var evidence := d.items.stories[i].evidence;
    NextIdIsFresh("evidence-", EvidenceIds(evidence));
    var entry := Evidence(NextId("evidence-", EvidenceIds(evidence)), note);
    var d' := Operated(t, d, AddEvidence(id, note, expected), now).value;
    assert d'.items.stories[i].evidence == evidence + [entry];
  }

  lemma {:induction false} FoundStory(stories: seq<Story>, id: string)
    requires FindStory(stories, id).Some?
    ensures FindStory(stories, id).value.id == id && FindStory(stories, id).value in stories
  {
    if stories[0].id != id {
      FoundStory(stories[1..], id);
    }
  }
}
