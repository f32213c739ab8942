/**
 * Walks in a graph: what a topological order and a cycle are, and which nodes a set of
 * changed nodes reaches downstream.
 */
module Traversals {
  import opened Graphs

  /** Each node is fed by the next one. */
  ghost predicate UpstreamWalk(nodes: Nodes, p: seq<string>) {
    forall i | 0 <= i < |p| - 1 :: p[i + 1] in Upstream(nodes, p[i])
  }

  ghost predicate HasCycle(nodes: Nodes) {
    exists p: seq<string> {:trigger UpstreamWalk(nodes, p)} :: |p| >= 2 && p[0] == p[|p| - 1] && UpstreamWalk(nodes, p)
  }

  /** Every node once, each after all nodes that feed it. */
  ghost predicate TopoOrder(nodes: Nodes, s: seq<string>) {
    && NoDuplicates(s)
    && (forall x :: x in s <==> x in nodes)
    && FedFromBefore(nodes, s)
  }

  ghost predicate FedFromBefore(nodes: Nodes, s: seq<string>) {
    forall i, u | 0 <= i < |s| && u in Upstream(nodes, s[i]) :: u in s[..i]
  }

  lemma {:induction false} WalkDescends(nodes: Nodes, s: seq<string>, p: seq<string>, k: nat)
    requires TopoOrder(nodes, s) && UpstreamWalk(nodes, p) && k < |p| && p[0] in nodes
    ensures exists i, j :: 0 <= j <= i < |s| && s[i] == p[0] && s[j] == p[k] && (k > 0 ==> j < i)
  {
    if k == 0 {
      assert p[0] in s;
    } else {
      WalkDescends(nodes, s, p, k - 1);
      var i, j :| 0 <= j <= i < |s| && s[i] == p[0] && s[j] == p[k - 1];
      assert p[k] in s[..j];
    }
  }

  lemma OrderedIsAcyclic(nodes: Nodes, s: seq<string>)
    requires TopoOrder(nodes, s)
    ensures !HasCycle(nodes)
  {
    if HasCycle(nodes) {
      var p: seq<string> :| |p| >= 2 && p[0] == p[|p| - 1] && UpstreamWalk(nodes, p);
      assert p[1] in Upstream(nodes, p[0]);
      WalkDescends(nodes, s, p, |p| - 1);
    }
  }

  // ----- downstream reachability ------------------------------------------

  ghost predicate DownstreamWalk(nodes: Nodes, p: seq<string>) {
    forall i | 0 <= i < |p| - 1 :: p[i + 1] in Downstream(nodes, p[i])
  }

  ghost predicate Reaches(nodes: Nodes, from: set<string>, x: string) {
    exists p: seq<string> {:trigger DownstreamWalk(nodes, p)} ::
      |p| >= 1 && p[0] in from && p[|p| - 1] == x && DownstreamWalk(nodes, p)
  }

  ghost function Reached(nodes: Nodes, from: set<string>): set<string> {
    set x | x in nodes.Keys + from && Reaches(nodes, from, x)
  }

  ghost predicate ClosedDownstream(nodes: Nodes, s: set<string>) {
    forall x | x in s :: Downstream(nodes, x) <= s
  }

  lemma StartsReached(nodes: Nodes, from: set<string>)
    ensures forall x | x in from :: Reaches(nodes, from, x)
  {
    forall x | x in from ensures Reaches(nodes, from, x) {
      assert DownstreamWalk(nodes, [x]);
    }
  }

  lemma OneMoreStep(nodes: Nodes, from: set<string>, x: string, y: string)
    requires Reaches(nodes, from, x) && y in Downstream(nodes, x)
    ensures Reaches(nodes, from, y)
  {
    var p: seq<string> :| |p| >= 1 && p[0] in from && p[|p| - 1] == x && DownstreamWalk(nodes, p);
    assert DownstreamWalk(nodes, p + [y]);
  }

  lemma {:induction false} ClosedHoldsWalk(nodes: Nodes, s: set<string>, p: seq<string>, k: nat)
    requires ClosedDownstream(nodes, s) && k < |p| && p[0] in s && DownstreamWalk(nodes, p)
    ensures p[k] in s
  {
    if k > 0 {
      ClosedHoldsWalk(nodes, s, p, k - 1);
    }
  }

  /** The reached nodes are the least closed set that holds the starting nodes. */
  lemma ReachedIsLeast(nodes: Nodes, from: set<string>, s: set<string>)
    ensures from <= Reached(nodes, from) && ClosedDownstream(nodes, Reached(nodes, from))
    ensures from <= s && ClosedDownstream(nodes, s) ==> Reached(nodes, from) <= s
  {
    StartsReached(nodes, from);
    forall x, y | x in Reached(nodes, from) && y in Downstream(nodes, x) ensures y in Reached(nodes, from) {
      OneMoreStep(nodes, from, x, y);
      UpstreamInGraph(nodes, x);
    }
    if from <= s && ClosedDownstream(nodes, s) {
      forall x | x in Reached(nodes, from) ensures x in s {
        var p: seq<string> :| |p| >= 1 && p[0] in from && p[|p| - 1] == x && DownstreamWalk(nodes, p);
        ClosedHoldsWalk(nodes, s, p, |p| - 1);
      }
    }
  }

  lemma UnionClosed(nodes: Nodes, s: set<string>, t: set<string>)
    requires ClosedDownstream(nodes, s) && ClosedDownstream(nodes, t)
    ensures ClosedDownstream(nodes, s + t)
  {
  }
}
