/** Finite directed graphs as adjacency maps, their walks, and reachability.
    A node may be the target of an edge without being a key of the map. */
module Graphs {

  type Graph<T(==)> = map<T, set<T>>

  function Successors<T(==)>(g: Graph<T>, v: T): set<T> {
    if v in g then g[v] else {}
  }

  function AddNode<T(==)>(g: Graph<T>, v: T): Graph<T> {
    if v in g then g else g[v := {}]
  }

  function AddEdge<T(==)>(g: Graph<T>, src: T, target: T): Graph<T> {
    g[src := Successors(g, src) + {target}]
  }

  ghost function Nodes<T>(g: Graph<T>): set<T> {
    g.Keys + (set v, w | v in g && w in g[v] :: w)
  }

  ghost predicate Edge<T>(g: Graph<T>, a: T, b: T) {
    b in Successors(g, a)
  }

  ghost predicate IsWalk<T>(g: Graph<T>, p: seq<T>) {
    |p| > 0 && forall i :: 0 < i < |p| ==> Edge(g, p[i - 1], p[i])
  }

  ghost predicate WalkBetween<T>(g: Graph<T>, p: seq<T>, a: T, b: T) {
    IsWalk(g, p) && p[0] == a && p[|p| - 1] == b
  }

  ghost predicate Reaches<T(!new)>(g: Graph<T>, a: T, b: T) {
    exists p: seq<T> :: WalkBetween(g, p, a, b)
  }

  /** Each of the two nodes reaches the other. */
  ghost predicate Mutual<T(!new)>(g: Graph<T>, a: T, b: T) {
    Reaches(g, a, b) && Reaches(g, b, a)
  }

  /** A walk with at least one edge that returns to its start. */
  ghost predicate IsCycle<T>(g: Graph<T>, p: seq<T>) {
    IsWalk(g, p) && |p| > 1 && p[0] == p[|p| - 1]
  }

  ghost predicate Closed<T>(g: Graph<T>, s: set<T>) {
    forall v :: v in s ==> Successors(g, v) <= s
  }

  lemma ReachesRefl<T(!new)>(g: Graph<T>, a: T)
    ensures Reaches(g, a, a)
  {
    assert WalkBetween(g, [a], a, a);
  }

  lemma ReachesEdge<T(!new)>(g: Graph<T>, a: T, b: T)
    requires Edge(g, a, b)
    ensures Reaches(g, a, b)
  {
    assert WalkBetween(g, [a, b], a, b);
  }

  lemma WalkConcat<T>(g: Graph<T>, p: seq<T>, q: seq<T>, a: T, b: T, c: T)
    requires WalkBetween(g, p, a, b) && WalkBetween(g, q, b, c)
    ensures WalkBetween(g, p + q[1..], a, c)
  {
    var r := p + q[1..];
    forall i | 0 < i < |r|
      ensures Edge(g, r[i - 1], r[i])
    {
      if i >= |p| {
        assert r[i] == q[i - |p| + 1];
        assert r[i - 1] == q[i - |p|];
      }
    }
  }

  lemma ReachesTrans<T(!new)>(g: Graph<T>, a: T, b: T, c: T)
    requires Reaches(g, a, b) && Reaches(g, b, c)
    ensures Reaches(g, a, c)
  {
    var p :| WalkBetween(g, p, a, b);
    var q :| WalkBetween(g, q, b, c);
    WalkConcat(g, p, q, a, b, c);
  }

  lemma SubWalk<T>(g: Graph<T>, p: seq<T>, i: nat, j: nat)
    requires IsWalk(g, p) && i <= j < |p|
    ensures WalkBetween(g, p[i..j + 1], p[i], p[j])
  {
    var q := p[i..j + 1];
    forall k | 0 < k < |q|
      ensures Edge(g, q[k - 1], q[k])
    {
      assert q[k] == p[i + k] && q[k - 1] == p[i + k - 1];
    }
  }

  lemma WalkReaches<T(!new)>(g: Graph<T>, p: seq<T>, i: nat, j: nat)
    requires IsWalk(g, p) && i <= j < |p|
    ensures Reaches(g, p[i], p[j])
  {
    SubWalk(g, p, i, j);
  }

  /** A walk that leaves a set crosses its border along some edge. */
  lemma ExitPoint<T(!new)>(g: Graph<T>, s: set<T>, a: T, b: T) returns (x: T, y: T)
    requires Reaches(g, a, b) && a in s && b !in s
    ensures x in s && y !in s && Edge(g, x, y) && Reaches(g, a, x) && Reaches(g, y, b)
  {
    var p :| WalkBetween(g, p, a, b);
    var i := 0;
    while p[i + 1] in s
      invariant 0 <= i < |p| - 1 && p[i] in s
      decreases |p| - i
    {
      i := i + 1;
    }
    x, y := p[i], p[i + 1];
    WalkReaches(g, p, 0, i);
    WalkReaches(g, p, i + 1, |p| - 1);
    assert Edge(g, p[(i + 1) - 1], p[i + 1]);
  }

  lemma ClosedContainsReach<T(!new)>(g: Graph<T>, s: set<T>, a: T, b: T)
    requires Closed(g, s) && a in s && Reaches(g, a, b)
    ensures b in s
  {
    if b !in s {
      var _, _ := ExitPoint(g, s, a, b);
    }
  }

  /** Every node on a cycle reaches every other node on it. */
  lemma CycleMutual<T(!new)>(g: Graph<T>, p: seq<T>, i: nat, j: nat)
    requires IsCycle(g, p) && i < |p| && j < |p|
    ensures Reaches(g, p[i], p[j])
  {
    if i <= j {
      WalkReaches(g, p, i, j);
    } else {
      WalkReaches(g, p, i, |p| - 1);
      WalkReaches(g, p, 0, j);
      ReachesTrans(g, p[i], p[0], p[j]);
    }
  }

  /** Mutually reachable ends of an edge lie on a cycle through that edge. */
  lemma {:induction false} EdgeOnCycle<T(!new)>(g: Graph<T>, a: T, b: T) returns (p: seq<T>)
    requires Edge(g, a, b) && Reaches(g, b, a)
    ensures IsCycle(g, p) && p[0] == a && p[1] == b
  {
    var q :| WalkBetween(g, q, b, a);
    p := [a, b] + q[1..];
    assert WalkBetween(g, [a, b], a, b);
    WalkConcat(g, [a, b], q, a, b, a);
  }

  // ----- finite sets closed under predecessors contain cycles -----

  lemma ProperSubsetSmaller<T>(a: set<T>, b: set<T>)
    requires a < b
    ensures |a| < |b|
  {
    assert b == a + (b - a);
  }

  lemma {:induction false} DistinctBound<T>(p: seq<T>, s: set<T>)
    requires forall i :: 0 <= i < |p| ==> p[i] in s
    requires forall i, j :: 0 <= i < j < |p| ==> p[i] != p[j]
    ensures |p| <= |s|
  {
    if p != [] {
      var x := p[0];
      forall i | 0 <= i < |p[1..]| ensures p[1..][i] in s - {x} {
        assert p[1..][i] == p[i + 1];
      }
      DistinctBound(p[1..], s - {x});
    }
  }

  ghost predicate HasPredecessorIn<T>(g: Graph<T>, s: set<T>, v: T) {
    exists u :: u in s && Edge(g, u, v)
  }

  ghost predicate PredecessorsWithin<T>(g: Graph<T>, s: set<T>) {
    forall v {:trigger HasPredecessorIn(g, s, v)} :: v in s ==> HasPredecessorIn(g, s, v)
  }

  lemma {:induction false} BackWalk<T>(g: Graph<T>, s: set<T>, n: nat) returns (p: seq<T>)
    requires s != {}
    requires PredecessorsWithin(g, s)
    ensures IsWalk(g, p) && |p| == n + 1 && forall i :: 0 <= i < |p| ==> p[i] in s
  {
    if n == 0 {
      var v :| v in s;
      p := [v];
    } else {
      var q := BackWalk(g, s, n - 1);
      assert HasPredecessorIn(g, s, q[0]);
      var u :| u in s && Edge(g, u, q[0]);
      p := [u] + q;
      forall i | 0 < i < |p| ensures Edge(g, p[i - 1], p[i]) {
        if i > 1 {
          assert p[i - 1] == q[i - 2] && p[i] == q[i - 1];
          assert Edge(g, q[(i - 1) - 1], q[i - 1]);
        }
      }
    }
  }

  /** A non-empty finite set in which every node has a predecessor in the set contains a cycle. */
  lemma PredecessorsGiveCycle<T>(g: Graph<T>, s: set<T>) returns (c: seq<T>)
    requires s != {}
    requires PredecessorsWithin(g, s)
    ensures IsCycle(g, c) && forall i :: 0 <= i < |c| ==> c[i] in s
  {
    var p := BackWalk(g, s, |s|);
    if forall i, j :: 0 <= i < j < |p| ==> p[i] != p[j] {
      DistinctBound(p, s);
      assert false;
    }
    var i, j :| 0 <= i < j < |p| && p[i] == p[j];
    c := p[i..j + 1];
    SubWalk(g, p, i, j);
  }

  ghost predicate FromRoots<T(!new)>(g: Graph<T>, roots: set<T>, a: T) {
    exists r :: r in roots && Reaches(g, r, a)
  }

  lemma FromSome<T(!new)>(g: Graph<T>, roots: set<T>, a: T) returns (r: T)
    requires FromRoots(g, roots, a)
    ensures r in roots && Reaches(g, r, a)
  {
    r :| r in roots && Reaches(g, r, a);
  }

  lemma FromRootsStep<T(!new)>(g: Graph<T>, roots: set<T>, a: T, b: T)
    requires FromRoots(g, roots, a) && Reaches(g, a, b)
    ensures FromRoots(g, roots, b)
  {
    var r :| r in roots && Reaches(g, r, a);
    ReachesTrans(g, r, a, b);
  }

  /** A set whose members are roots or have predecessors in the set contains
      a cycle beyond the roots' reach, or lies within their reach. */
  lemma SupportedOrCyclic<T(!new)>(g: Graph<T>, roots: set<T>, s: set<T>, a: T) returns (c: seq<T>)
    requires forall v {:trigger HasPredecessorIn(g, s, v)} :: v in s ==> v in roots || HasPredecessorIn(g, s, v)
    requires a in s && !FromRoots(g, roots, a)
    ensures IsCycle(g, c) && forall i :: 0 <= i < |c| ==> c[i] in s && !FromRoots(g, roots, c[i])
  {
    var u := set v | v in s && !FromRoots(g, roots, v);
    forall v | v in u ensures HasPredecessorIn(g, u, v) {
      if v in roots {
        ReachesRefl(g, v);
        assert FromRoots(g, roots, v);
      }
      assert HasPredecessorIn(g, s, v);
      var w :| w in s && Edge(g, w, v);
      ReachesEdge(g, w, v);
      if FromRoots(g, roots, w) {
        FromRootsStep(g, roots, w, v);
      }
      assert w in u;
    }
    assert a in u;
    c := PredecessorsGiveCycle(g, u);
  }

  // ----- the reversed graph -----

  ghost predicate IsReverse<T(!new)>(g: Graph<T>, r: Graph<T>) {
    forall a, b :: Edge(r, a, b) <==> Edge(g, b, a)
  }

  lemma {:induction false} ReverseWalk<T(!new)>(g: Graph<T>, r: Graph<T>, p: seq<T>, a: T, b: T)
    requires IsReverse(g, r) && WalkBetween(g, p, a, b)
    ensures Reaches(r, b, a)
    decreases |p|
  {
    if |p| == 1 {
      ReachesRefl(r, a);
    } else {
      var q := p[1..];
      SubWalk(g, p, 1, |p| - 1);
      assert p[1..|p|] == q;
      ReverseWalk(g, r, q, p[1], b);
      assert Edge(g, p[1 - 1], p[1]);
      assert Edge(r, p[1], p[0]);
      ReachesEdge(r, p[1], a);
      ReachesTrans(r, b, p[1], a);
    }
  }

  lemma ReverseReaches<T(!new)>(g: Graph<T>, r: Graph<T>, a: T, b: T)
    requires IsReverse(g, r)
    ensures Reaches(g, a, b) <==> Reaches(r, b, a)
  {
    if Reaches(g, a, b) {
      var p :| WalkBetween(g, p, a, b);
      ReverseWalk(g, r, p, a, b);
    }
    if Reaches(r, b, a) {
      var p :| WalkBetween(r, p, b, a);
      ReverseWalk(r, g, p, b, a);
    }
  }
}
