/** Walks and cycles in a directed graph, independent of any search that looks for them. */
module Graphs {
  import opened Base

  /** The children of each node that has any, in the order they were added. */
  type Edges = map<int, seq<int>>

  predicate HasEdge(e: Edges, a: int, b: int) {
    a in e && b in e[a]
  }

  /** A non-empty sequence of nodes, each joined to the next by an edge. */
  ghost predicate IsWalk(e: Edges, w: seq<int>) {
    |w| >= 1 && forall i :: 0 <= i < |w| - 1 ==> HasEdge(e, w[i], w[i + 1])
  }

  ghost predicate IsWalkBetween(e: Edges, w: seq<int>, a: int, b: int) {
    IsWalk(e, w) && w[0] == a && w[|w| - 1] == b
  }

  ghost predicate Disjoint<T>(s: seq<T>, t: seq<T>) {
    forall x :: x in s ==> x !in t
  }

  /** A walk of one or more edges from `t` to `q` none of whose intermediate nodes is in `avoid`. */
  ghost predicate IsPathAvoiding(e: Edges, avoid: set<int>, t: int, q: int, p: seq<int>) {
    |p| >= 2 && IsWalkBetween(e, p, t, q) && forall i :: 1 <= i < |p| - 1 ==> p[i] !in avoid
  }

  ghost predicate HasPathAvoiding(e: Edges, avoid: set<int>, t: int, q: int) {
    exists p :: IsPathAvoiding(e, avoid, t, q, p)
  }

  /** A walk of one or more edges that returns to where it started. */
  ghost predicate IsCycle(e: Edges, c: seq<int>) {
    |c| >= 2 && IsWalk(e, c) && c[0] == c[|c| - 1]
  }

  ghost predicate Acyclic(e: Edges) {
    forall c :: !IsCycle(e, c)
  }

  /** Some cycle starts at a node that a walk of zero or more edges from `id` reaches. */
  ghost predicate CycleReachable(e: Edges, id: int) {
    exists p, c :: IsWalk(e, p) && p[0] == id && IsCycle(e, c) && c[0] == p[|p| - 1]
  }

  /** Some walk from `id` meets a node twice after leaving `id`. */
  ghost predicate HasRepeatingWalk(e: Edges, id: int) {
    exists w :: IsWalk(e, [id] + w) && !Distinct(w)
  }

  /** Every node that occurs as a child. */
  function Children(e: Edges): set<int> {
    set a, b | a in e && b in e[a] :: b
  }

  lemma JoinWalks(e: Edges, u: seq<int>, v: seq<int>)
    requires IsWalk(e, u) && IsWalk(e, v) && u[|u| - 1] == v[0]
    ensures IsWalk(e, u + v[1..])
  {
    var w := u + v[1..];
    forall i | 0 <= i < |w| - 1
      ensures HasEdge(e, w[i], w[i + 1])
    {
      if i >= |u| - 1 {
        assert w[i] == v[i - (|u| - 1)] && w[i + 1] == v[i + 1 - (|u| - 1)];
      }
    }
  }

  lemma SubWalk(e: Edges, w: seq<int>, i: nat, j: nat)
    requires IsWalk(e, w) && i < j <= |w|
    ensures IsWalk(e, w[i..j])
  {
    forall k | 0 <= k < |w[i..j]| - 1
      ensures HasEdge(e, w[i..j][k], w[i..j][k + 1])
    {
      assert w[i..j][k] == w[i + k] && w[i..j][k + 1] == w[i + k + 1];
    }
  }

  lemma RepetitionReachesCycle(e: Edges, id: int, w: seq<int>, i: nat, j: nat)
    requires IsWalk(e, [id] + w) && i < j < |w| && w[i] == w[j]
    ensures CycleReachable(e, id)
  {
    var full := [id] + w;
    SubWalk(e, full, 0, i + 2);
    SubWalk(e, full, i + 1, j + 2);
    var p, c := full[0..i + 2], full[i + 1..j + 2];
    assert p[0] == id && c[0] == w[i] == p[|p| - 1] && c[|c| - 1] == w[j];
  }

  /** Going round twice repeats the cycle's last node even when the walk to it has no edge. */
  lemma CycleGivesRepetition(e: Edges, id: int, p: seq<int>, c: seq<int>)
    requires IsWalk(e, p) && p[0] == id && IsCycle(e, c) && c[0] == p[|p| - 1]
    ensures HasRepeatingWalk(e, id)
  {
    JoinWalks(e, p, c);
    var once := p + c[1..];
    JoinWalks(e, once, c);
    var twice := once + c[1..];
    var w := twice[1..];
    assert twice == [id] + w;
    var i := |once| - 2;
    assert w[i] == twice[i + 1] == once[i + 1] == c[|c| - 1];
    assert w[|w| - 1] == twice[|twice| - 1] == c[|c| - 1];
  }

  /** A reachable cycle and a walk that repeats a node are the same thing. */
  lemma RepetitionIsReachableCycle(e: Edges, id: int)
    ensures HasRepeatingWalk(e, id) <==> CycleReachable(e, id)
  {
    if HasRepeatingWalk(e, id) {
      var w :| IsWalk(e, [id] + w) && !Distinct(w);
      var i, j :| 0 <= i < j < |w| && w[i] == w[j];
      RepetitionReachesCycle(e, id, w, i, j);
    }
    if CycleReachable(e, id) {
      var p, c :| IsWalk(e, p) && p[0] == id && IsCycle(e, c) && c[0] == p[|p| - 1];
      CycleGivesRepetition(e, id, p, c);
    }
  }
}
