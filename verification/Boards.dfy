/**
 * Board queries (packages/work-items-store/src/operations.ts:135-173, 957-1009, 1331-1359):
 * which scopes match, which stories appear, and how they are grouped. The result does not
 * depend on how many paths reach a scope or in which order they were found.
 */
module Boards {
  import opened Wrappers
  import opened WorkItems

  /** One way of reaching a scope from a root, as the traversal resolver reports it. */
  datatype Match = Match(scope: string, root: string)

  datatype GroupBy = ByStatus | ByScope | ByAssignee | ByKind

  /** `admits` stands for the status, kind, assignee and sponsor filters. */
  datatype View = View(roots: seq<string>, groupBy: GroupBy, admits: Story -> bool)

  datatype Progress = Progress(total: nat, shipped: nat)

  datatype Item = Item(story: Story, group: string, matched: seq<string>, progress: Option<Progress>)

  // ----- which scopes match -----------------------------------------------

  /** `new Map(roots.map((root, index) => [root, index]))`: the last index of a root. */
  function RootOrder(roots: seq<string>, root: string): nat
    requires root in roots
  {
    if roots[|roots| - 1] == root then |roots| - 1 else RootOrder(roots[..|roots| - 1], root)
  }

  lemma {:induction false} RootOrderInjective(roots: seq<string>, a: string, b: string)
    requires a in roots && b in roots && RootOrder(roots, a) == RootOrder(roots, b)
    ensures a == b
  {
    RootOrderIndex(roots, a);
    RootOrderIndex(roots, b);
  }

  lemma {:induction false} RootOrderIndex(roots: seq<string>, a: string)
    requires a in roots
    ensures RootOrder(roots, a) < |roots| && roots[RootOrder(roots, a)] == a
  {
    if roots[|roots| - 1] != a {
      RootOrderIndex(roots[..|roots| - 1], a);
    }
  }

  /** Scope `s` is reached from root `r`. */
  predicate Reached(raw: seq<Match>, roots: seq<string>, s: string, r: string) {
    Match(s, r) in raw && r in roots
  }

  ghost predicate ReachedAtAll(raw: seq<Match>, roots: seq<string>, s: string) {
    exists r :: r in roots && Reached(raw, roots, s, r)
  }

  /** `r` is the earliest root from which `s` is reached. */
  ghost predicate EarliestRoot(raw: seq<Match>, roots: seq<string>, s: string, r: string) {
    && Reached(raw, roots, s, r)
    && forall q | q in roots && Reached(raw, roots, s, q) :: RootOrder(roots, r) <= RootOrder(roots, q)
  }

  /** Every scope is matched under one of the roots. */
  ghost predicate Rooted(roots: seq<string>, m: map<string, string>) {
    forall s | s in m :: m[s] in roots
  }

  ghost predicate IsMatched(raw: seq<Match>, roots: seq<string>, s: string) {
    ReachedAtAll(raw, roots, s) || s in roots
  }

  /** The scope matches of a view: reached scopes under their earliest root, unreached roots under themselves. */
  ghost predicate ScopeMatches(raw: seq<Match>, roots: seq<string>, m: map<string, string>) {
    && (forall s :: s in m <==> IsMatched(raw, roots, s))
    && Rooted(roots, m)
    && (forall s | s in m :: if ReachedAtAll(raw, roots, s) then EarliestRoot(raw, roots, s, m[s]) else m[s] == s)
  }

  method OrderedScopeMatches(raw: seq<Match>, roots: seq<string>) returns (m: map<string, string>)
    ensures ScopeMatches(raw, roots, m)
  {
    m := map[];
    for k := 0 to |raw|
      invariant forall s :: s in m <==> ReachedAtAll(raw[..k], roots, s)
      invariant forall s | s in m :: EarliestRoot(raw[..k], roots, s, m[s])
    {
      var match_ := raw[k];
      ghost var before := m;
      assert raw[..k + 1] == raw[..k] + [match_];
      assert forall s, r :: Reached(raw[..k + 1], roots, s, r) <==>
        Reached(raw[..k], roots, s, r) || (match_ == Match(s, r) && r in roots);
      if match_.root in roots {
        if match_.scope !in m || RootOrder(roots, match_.root) < RootOrder(roots, m[match_.scope]) {
          m := m[match_.scope := match_.root];
        }
        assert Reached(raw[..k + 1], roots, match_.scope, match_.root);
      }
      forall s ensures s in m <==> ReachedAtAll(raw[..k + 1], roots, s) {
        if s in before {
          assert Reached(raw[..k + 1], roots, s, before[s]);
        }
      }
    }
    assert raw[..|raw|] == raw;
    ghost var reached := m;
    for k := 0 to |roots|
      invariant forall s :: s in m <==> s in reached || s in roots[..k]
      invariant forall s | s in m :: m[s] == if s in reached then reached[s] else s
    {
      if roots[k] !in m {
        m := m[roots[k] := roots[k]];
      }
      assert roots[..k + 1] == roots[..k] + [roots[k]];
    }
    assert roots[..|roots|] == roots;
  }

  ghost predicate SamePaths(raw: seq<Match>, raw': seq<Match>) {
    forall x :: x in raw <==> x in raw'
  }

  lemma SamePathsReach(raw: seq<Match>, raw': seq<Match>, roots: seq<string>, s: string)
    requires SamePaths(raw, raw')
    ensures ReachedAtAll(raw, roots, s) <==> ReachedAtAll(raw', roots, s)
    ensures forall r :: EarliestRoot(raw, roots, s, r) <==> EarliestRoot(raw', roots, s, r)
  {
    assert forall r :: Reached(raw, roots, s, r) <==> Reached(raw', roots, s, r);
  }

  /** The matches are determined by the set of reported paths. */
  lemma MatchesAreUnique(raw: seq<Match>, raw': seq<Match>, roots: seq<string>, m: map<string, string>,
      m': map<string, string>)
    requires SamePaths(raw, raw') && ScopeMatches(raw, roots, m) && ScopeMatches(raw', roots, m')
    ensures m == m'
  {
    forall s ensures s in m <==> s in m' {
      SamePathsReach(raw, raw', roots, s);
    }
    forall s | s in m && s in m' ensures m[s] == m'[s] {
      SamePathsReach(raw, raw', roots, s);
      if ReachedAtAll(raw, roots, s) {
        SameEarliest(raw, roots, s, m[s], m'[s]);
      }
    }
  }

  lemma SameEarliest(raw: seq<Match>, roots: seq<string>, s: string, r: string, q: string)
    requires EarliestRoot(raw, roots, s, r) && EarliestRoot(raw, roots, s, q)
    ensures r == q
  {
    RootOrderInjective(roots, r, q);
  }

  // ----- one story --------------------------------------------------------

  /** The matched scopes of a story: its home first, then its roll-up bindings in order. */
  function BoundScopes(bindings: seq<Binding>, scopes: set<string>, matched: seq<string>): seq<string>
    decreases |bindings|
  {
    if bindings == [] then matched
    else
      var b := bindings[0];
      BoundScopes(bindings[1..], scopes,
        if b.rollsUp && b.scope in scopes && b.scope !in matched then matched + [b.scope] else matched)
  }

  function MatchingScopeIds(s: Story, scopes: set<string>): seq<string> {
    BoundScopes(s.bindings, scopes, if s.home in scopes then [s.home] else [])
  }

  predicate Participates(s: Story, scope: string) {
    s.home == scope || exists b | b in s.bindings :: b.rollsUp && b.scope == scope
  }

  predicate Distinct(s: seq<string>) {
    forall i, j | 0 <= i < j < |s| :: s[i] != s[j]
  }

  lemma {:induction false} BoundScopesMembers(bindings: seq<Binding>, scopes: set<string>, matched: seq<string>)
    requires Distinct(matched)
    ensures Distinct(BoundScopes(bindings, scopes, matched)) && matched <= BoundScopes(bindings, scopes, matched)
    ensures forall x :: x in BoundScopes(bindings, scopes, matched) <==>
      x in matched || (x in scopes && exists b | b in bindings :: b.rollsUp && b.scope == x)
    decreases |bindings|
  {
    if bindings != [] {
      var b := bindings[0];
      assert bindings == [b] + bindings[1..];
      BoundScopesMembers(bindings[1..], scopes, if b.rollsUp && b.scope in scopes && b.scope !in matched
        then matched + [b.scope] else matched);
    }
  }

  /** Exactly the matching scopes the story takes part in, each once, home first. */
  lemma MatchingScopes(s: Story, scopes: set<string>)
    ensures var ids := MatchingScopeIds(s, scopes);
      && Distinct(ids)
      && (forall x :: x in ids <==> x in scopes && Participates(s, x))
      && (s.home in scopes ==> ids != [] && ids[0] == s.home)
  {
    BoundScopesMembers(s.bindings, scopes, if s.home in scopes then [s.home] else []);
  }

  method CollectScopeIds(s: Story, scopes: set<string>) returns (matched: seq<string>)
    ensures matched == MatchingScopeIds(s, scopes)
  {
    matched := [];
    if s.home in scopes {
      matched := [s.home];
    }
    for k := 0 to |s.bindings|
      invariant BoundScopes(s.bindings[k..], scopes, matched) == MatchingScopeIds(s, scopes)
    {
      var b := s.bindings[k];
      assert s.bindings[k..][0] == b && s.bindings[k..][1..] == s.bindings[k + 1..];
      if b.rollsUp && b.scope in scopes && b.scope !in matched {
        matched := matched + [b.scope];
      }
    }
  }

  /** The root of the earliest order among the matched scopes, as the sort by root order puts it first. */
  function FirstRoot(roots: seq<string>, m: map<string, string>, matched: seq<string>): Option<string>
    requires Rooted(roots, m)
  {
    if matched == [] then None
    else
      var rest := FirstRoot(roots, m, matched[1..]);
      if matched[0] !in m then rest
      else if rest.Some? && rest.value in roots && RootOrder(roots, rest.value) < RootOrder(roots, m[matched[0]])
      then rest
      else Some(m[matched[0]])
  }

  function GroupOf(s: Story, v: View, m: map<string, string>, matched: seq<string>): string
    requires Rooted(v.roots, m)
  {
    match v.groupBy
    case ByStatus => s.status
    case ByAssignee =>
      if s.assigneePrincipal.Some? then s.assigneePrincipal.value
      else if s.assignee.Some? then s.assignee.value
      else "unassigned"
    case ByKind => s.kind
    case ByScope =>
      if s.home != "" && s.home in matched then s.home
      else
        var first := FirstRoot(v.roots, m, matched);
        if first.Some? then first.value else if v.roots != [] then v.roots[0] else ""
  }

  lemma {:induction false} FirstRootIsEarliest(roots: seq<string>, m: map<string, string>, matched: seq<string>)
    requires Rooted(roots, m) && matched != [] && forall s | s in matched :: s in m
    ensures var r := FirstRoot(roots, m, matched);
      && r.Some? && r.value in roots
      && (exists s :: s in matched && m[s] == r.value)
      && forall s | s in matched :: RootOrder(roots, r.value) <= RootOrder(roots, m[s])
  {
    assert matched == [matched[0]] + matched[1..];
    if |matched| > 1 {
      FirstRootIsEarliest(roots, m, matched[1..]);
    } else {
      assert matched[0] in matched;
    }
  }

  ghost predicate EarliestOfAll(s: Story, roots: seq<string>, m: map<string, string>, g: string)
    requires Rooted(roots, m)
  {
    && g in roots
    && (exists x :: x in m && Participates(s, x) && m[x] == g)
    && forall x | x in m && Participates(s, x) :: RootOrder(roots, g) <= RootOrder(roots, m[x])
  }

  /** Grouping by scope picks the home scope if it matched, and otherwise the earliest root of any matched scope. */
  lemma ScopeGroup(s: Story, v: View, m: map<string, string>)
    requires v.groupBy == ByScope && Rooted(v.roots, m) && MatchingScopeIds(s, m.Keys) != []
    ensures var g := GroupOf(s, v, m, MatchingScopeIds(s, m.Keys));
      if s.home != "" && s.home in m then g == s.home else EarliestOfAll(s, v.roots, m, g)
  {
    MatchingScopes(s, m.Keys);
    FirstRootIsEarliest(v.roots, m, MatchingScopeIds(s, m.Keys));
  }

  // ----- the query --------------------------------------------------------

  function ChildrenOf(stories: seq<Story>, id: string): seq<Story> {
    if stories == [] then []
    else
      (if stories[0].parent.Some? && stories[0].parent.value != "" && stories[0].parent.value == id
       then [stories[0]] else [])
      + ChildrenOf(stories[1..], id)
  }

  function Shipped(stories: seq<Story>): nat {
    if stories == [] then 0 else (if stories[0].status == "shipped" then 1 else 0) + Shipped(stories[1..])
  }

  function ProgressFor(children: seq<Story>): Option<Progress> {
    if children == [] then None else Some(Progress(|children|, Shipped(children)))
  }

  function ItemFor(stories: seq<Story>, s: Story, v: View, m: map<string, string>): Item
    requires Rooted(v.roots, m)
  {
    var matched := MatchingScopeIds(s, m.Keys);
    Item(s, GroupOf(s, v, m, matched), matched, ProgressFor(ChildrenOf(stories, s.id)))
  }

  predicate Shows(s: Story, v: View, m: map<string, string>) {
    MatchingScopeIds(s, m.Keys) != [] && v.admits(s)
  }

  /** The item of the k-th story, unless its id came before or it does not show. */
  function NewItems(stories: seq<Story>, v: View, m: map<string, string>, k: nat): seq<Item>
    requires k < |stories| && Rooted(v.roots, m)
  {
    var s := stories[k];
    if s.id !in StoryIds(stories[..k]) && Shows(s, v, m) then [ItemFor(stories, s, v, m)] else []
  }

  /** Items for the first story of each id, in order. */
  function ItemsFrom(stories: seq<Story>, v: View, m: map<string, string>, k: nat): seq<Item>
    requires k <= |stories| && Rooted(v.roots, m)
  {
    if k == 0 then [] else ItemsFrom(stories, v, m, k - 1) + NewItems(stories, v, m, k - 1)
  }

  lemma {:induction false} ItemsShow(stories: seq<Story>, v: View, m: map<string, string>, k: nat)
    requires k <= |stories| && Rooted(v.roots, m)
    ensures forall x | x in ItemsFrom(stories, v, m, k) :: x.story.id in StoryIds(stories[..k]) && Shows(x.story, v, m)
  {
    if k > 0 {
      ItemsShow(stories, v, m, k - 1);
      assert StoryIds(stories[..k]) == StoryIds(stories[..k - 1]) + [stories[k - 1].id];
    }
  }

  predicate OneEach(items: seq<Item>) {
    forall i, j | 0 <= i < j < |items| :: items[i].story.id != items[j].story.id
  }

  /** Each story id appears at most once. */
  lemma {:induction false} ItemsOnce(stories: seq<Story>, v: View, m: map<string, string>, k: nat)
    requires k <= |stories| && Rooted(v.roots, m)
    ensures OneEach(ItemsFrom(stories, v, m, k))
  {
    if k > 0 {
      ItemsOnce(stories, v, m, k - 1);
      ItemsShow(stories, v, m, k - 1);
      var before, items := ItemsFrom(stories, v, m, k - 1), ItemsFrom(stories, v, m, k);
      forall i, j | 0 <= i < j < |items| ensures items[i].story.id != items[j].story.id {
        assert before[i] in before;
      }
    }
  }

  /** Nothing is left out: the first story of every id appears if it shows. */
  lemma {:induction false} ItemsComplete(stories: seq<Story>, v: View, m: map<string, string>, k: nat, i: nat)
    requires i < k <= |stories| && Rooted(v.roots, m)
    requires stories[i].id !in StoryIds(stories[..i]) && Shows(stories[i], v, m)
    ensures ItemFor(stories, stories[i], v, m) in ItemsFrom(stories, v, m, k)
  {
    if i < k - 1 {
      ItemsComplete(stories, v, m, k - 1, i);
    }
  }

  ghost predicate ChildMap(stories: seq<Story>, children: map<string, seq<Story>>) {
    forall id {:trigger ChildrenOf(stories, id)} :: ChildrenOf(stories, id) == Listed(children, id)
  }

  method BuildItem(stories: seq<Story>, k: nat, v: View, m: map<string, string>, children: map<string, seq<Story>>)
    returns (item: Option<Item>)
    requires Rooted(v.roots, m) && ChildMap(stories, children) && k < |stories|
      && stories[k].id !in StoryIds(stories[..k])
    ensures NewItems(stories, v, m, k) == if item.Some? then [item.value] else []
  {
    var s := stories[k];
    var matched := CollectScopeIds(s, m.Keys);
    if matched == [] || !v.admits(s) {
      return None;
    }
    assert ChildrenOf(stories, s.id) == Listed(children, s.id);
    var progress := ProgressFor(Listed(children, s.id));
    return Some(Item(s, GroupOf(s, v, m, matched), matched, progress));
  }

  method QueryBoardView(stories: seq<Story>, v: View, raw: seq<Match>) returns (items: seq<Item>)
    ensures exists m :: ScopeMatches(raw, v.roots, m)
    ensures forall m | ScopeMatches(raw, v.roots, m) :: items == ItemsFrom(stories, v, m, |stories|)
  {
    var matches := OrderedScopeMatches(raw, v.roots);
    var children := CollectChildren(stories);
    items := CollectItems(stories, v, matches, children);
    forall m | ScopeMatches(raw, v.roots, m) ensures m == matches {
      MatchesAreUnique(raw, raw, v.roots, m, matches);
    }
  }

  ghost predicate SeenIds(seen: set<string>, stories: seq<Story>, k: nat)
    requires k <= |stories|
  {
    forall id {:trigger id in seen} :: id in seen <==> id in StoryIds(stories[..k])
  }

  lemma SeenOneMore(seen: set<string>, stories: seq<Story>, k: nat)
    requires k < |stories| && SeenIds(seen, stories, k)
    ensures SeenIds(seen + {stories[k].id}, stories, k + 1)
  {
    assert StoryIds(stories[..k + 1]) == StoryIds(stories[..k]) + [stories[k].id];
  }

  lemma SeenAddsNothing(stories: seq<Story>, v: View, m: map<string, string>, k: nat)
    requires k < |stories| && Rooted(v.roots, m) && stories[k].id in StoryIds(stories[..k])
    ensures NewItems(stories, v, m, k) == []
  {
  }

  /** One turn of the loop: nothing for an id seen before, and at most one item otherwise. */
  method VisitStory(stories: seq<Story>, k: nat, v: View, m: map<string, string>, children: map<string, seq<Story>>,
      seen: set<string>)
    returns (added: seq<Item>)
    requires k < |stories| && Rooted(v.roots, m) && ChildMap(stories, children) && SeenIds(seen, stories, k)
    ensures added == NewItems(stories, v, m, k)
  {
    if stories[k].id in seen {
      SeenAddsNothing(stories, v, m, k);
      return [];
    }
    var item := BuildItem(stories, k, v, m, children);
    return if item.Some? then [item.value] else [];
  }

  method CollectItems(stories: seq<Story>, v: View, m: map<string, string>, children: map<string, seq<Story>>)
    returns (items: seq<Item>)
    requires Rooted(v.roots, m) && ChildMap(stories, children)
    ensures items == ItemsFrom(stories, v, m, |stories|)
  {
    items := [];
    var seen: set<string> := {};
    for k := 0 to |stories|
      invariant items == ItemsFrom(stories, v, m, k) && SeenIds(seen, stories, k)
    {
      var added := VisitStory(stories, k, v, m, children, seen);
      SeenOneMore(seen, stories, k);
      items := items + added;
      seen := seen + {stories[k].id};
    }
  }

  function Listed(children: map<string, seq<Story>>, id: string): seq<Story> {
    if id in children then children[id] else []
  }

  method CollectChildren(stories: seq<Story>) returns (children: map<string, seq<Story>>)
    ensures ChildMap(stories, children)
  {
    children := map[];
    assert stories[..0] == [];
    for k := 0 to |stories|
      invariant ChildMap(stories[..k], children)
    {
      var s := stories[k];
      ghost var before := children;
      if s.parent.Some? && s.parent.value != "" {
        children := children[s.parent.value := Listed(children, s.parent.value) + [s]];
      }
      ChildMapGrows(stories[..k], s, before, children);
      assert stories[..k + 1] == stories[..k] + [s];
    }
    assert stories[..|stories|] == stories;
  }

  lemma ChildMapGrows(stories: seq<Story>, s: Story, before: map<string, seq<Story>>, after: map<string, seq<Story>>)
    requires ChildMap(stories, before)
    requires after == if s.parent.Some? && s.parent.value != ""
                      then before[s.parent.value := Listed(before, s.parent.value) + [s]] else before
    ensures ChildMap(stories + [s], after)
  {
    forall id ensures ChildrenOf(stories + [s], id) == Listed(after, id) {
      ChildrenAppended(stories, s, id);
    }
  }

  lemma {:induction false} ChildrenAppended(stories: seq<Story>, s: Story, id: string)
    ensures ChildrenOf(stories + [s], id) ==
      ChildrenOf(stories, id) + if s.parent.Some? && s.parent.value != "" && s.parent.value == id then [s] else []
  {
    if stories != [] {
      assert (stories + [s])[1..] == stories[1..] + [s];
      ChildrenAppended(stories[1..], s, id);
    }
  }

  /**
   * A board query does not depend on paths: reports with the same matches, whatever their order
   * and repetitions, give the same items; each story appears once.
   */
  lemma QueryIgnoresPaths(stories: seq<Story>, v: View, raw: seq<Match>, raw': seq<Match>, m: map<string, string>,
      m': map<string, string>)
    requires SamePaths(raw, raw') && ScopeMatches(raw, v.roots, m) && ScopeMatches(raw', v.roots, m')
    ensures ItemsFrom(stories, v, m, |stories|) == ItemsFrom(stories, v, m', |stories|)
    ensures OneEach(ItemsFrom(stories, v, m, |stories|))
  {
    MatchesAreUnique(raw, raw', v.roots, m, m');
    ItemsOnce(stories, v, m, |stories|);
  }
}
