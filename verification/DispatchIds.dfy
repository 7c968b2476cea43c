/** Ball-Larus numbering of the closure graph: every edge gets an offset so that
    the offsets along a path sum to the path's rank among those of its start. */
module DispatchIds {
  import opened Graphs

  datatype DispatchGraph = DispatchGraph(roots: seq<int>, edges: map<int, seq<int>>)

  type Counts = map<int, nat>
  type Offsets = map<(int, int), nat>

  function Children(g: DispatchGraph, v: int): seq<int> {
    if v in g.edges then g.edges[v] else []
  }

  ghost function EdgesOf(g: DispatchGraph): Graph<int> {
    map v | v in g.edges :: set c | c in g.edges[v]
  }

  ghost predicate Acyclic(g: DispatchGraph) {
    forall p :: !IsCycle(EdgesOf(g), p)
  }

  /** The nodes `v` reaches; along an edge of an acyclic graph there are ever fewer. */
  ghost function Below(g: DispatchGraph, v: int): set<int> {
    set w | w in Nodes(EdgesOf(g)) && Reaches(EdgesOf(g), v, w)
  }

  lemma ChildBelow(g: DispatchGraph, v: int, c: int)
    requires Acyclic(g) && c in Children(g, v)
    ensures |Below(g, c)| < |Below(g, v)|
  {
    var e := EdgesOf(g);
    assert Edge(e, v, c);
    ReachesEdge(e, v, c);
    ReachesRefl(e, v);
    forall w | w in Below(g, c) ensures w in Below(g, v) {
      ReachesTrans(e, v, c, w);
    }
    if v in Below(g, c) {
      var p := EdgeOnCycle(e, v, c);
      assert false;
    }
    assert v in Below(g, v);
    ProperSubsetSmaller(Below(g, c), Below(g, v));
  }

  // ----- path counts -----

  /** The number of paths from `v` to a leaf, counted with repeated edges. */
  ghost function N(g: DispatchGraph, v: int): nat
    requires Acyclic(g)
    decreases |Below(g, v)|, |Children(g, v)| + 1
  {
    if Children(g, v) == [] then 1 else Prefix(g, v, |Children(g, v)|)
  }

  /** The counts of the first `k` children together. */
  ghost function Prefix(g: DispatchGraph, v: int, k: nat): nat
    requires Acyclic(g) && k <= |Children(g, v)|
    decreases |Below(g, v)|, k
  {
    if k == 0 then 0
    else
      ChildBelow(g, v, Children(g, v)[k - 1]);
      Prefix(g, v, k - 1) + N(g, Children(g, v)[k - 1])
  }

  lemma {:induction false} CountPositive(g: DispatchGraph, v: int)
    requires Acyclic(g)
    ensures N(g, v) > 0
    decreases |Below(g, v)|
  {
    var n := |Children(g, v)|;
    if n > 0 {
      ChildBelow(g, v, Children(g, v)[n - 1]);
      CountPositive(g, Children(g, v)[n - 1]);
    }
  }

  /** The memoised count: the result and the extended memo. */
  function CountNode(g: DispatchGraph, memo: Counts, v: int): (nat, Counts)
    requires Acyclic(g)
    decreases |Below(g, v)|, |Children(g, v)| + 1
  {
    if v in memo then (memo[v], memo)
    else if Children(g, v) == [] then (1, memo[v := 1])
    else
      var (count, memo1) := CountChildren(g, memo, v, |Children(g, v)|);
      (count, memo1[v := count])
  }

  function CountChildren(g: DispatchGraph, memo: Counts, v: int, k: nat): (nat, Counts)
    requires Acyclic(g) && k <= |Children(g, v)|
    decreases |Below(g, v)|, k
  {
    if k == 0 then (0, memo)
    else
      var (acc, memo1) := CountChildren(g, memo, v, k - 1);
      ChildBelow(g, v, Children(g, v)[k - 1]);
      var (count, memo2) := CountNode(g, memo1, Children(g, v)[k - 1]);
      (acc + count, memo2)
  }

  function CountRoots(g: DispatchGraph, memo: Counts, roots: seq<int>): Counts
    requires Acyclic(g)
    decreases |roots|
  {
    if roots == [] then memo else CountRoots(g, CountNode(g, memo, roots[0]).1, roots[1..])
  }

  function ComputeN(g: DispatchGraph): Counts
    requires Acyclic(g)
  {
    CountRoots(g, map[], g.roots)
  }

  /** A memo holds true counts, and with a node all its descendants. */
  ghost predicate MemoOk(g: DispatchGraph, memo: Counts)
    requires Acyclic(g)
  {
    forall v {:trigger MemoAt(g, memo, v)} :: v in memo ==> MemoAt(g, memo, v)
  }

  ghost predicate MemoAt(g: DispatchGraph, memo: Counts, v: int)
    requires Acyclic(g) && v in memo
  {
    memo[v] == N(g, v) && forall c :: c in Children(g, v) ==> c in memo
  }

  lemma {:induction false} CountNodeExact(g: DispatchGraph, memo: Counts, v: int)
    requires Acyclic(g) && MemoOk(g, memo)
    ensures var (count, memo') := CountNode(g, memo, v);
      count == N(g, v) && MemoOk(g, memo') && memo.Keys <= memo'.Keys && v in memo'
    decreases |Below(g, v)|, |Children(g, v)| + 1
  {
    if v in memo {
      assert MemoAt(g, memo, v);
    } else {
      var n := |Children(g, v)|;
      CountChildrenExact(g, memo, v, n);
      var memo' := CountNode(g, memo, v).1;
      forall w | w in memo' ensures MemoAt(g, memo', w) {
        if w != v {
          assert MemoAt(g, if n == 0 then memo else CountChildren(g, memo, v, n).1, w);
        }
      }
    }
  }

  lemma {:induction false} CountChildrenExact(g: DispatchGraph, memo: Counts, v: int, k: nat)
    requires Acyclic(g) && MemoOk(g, memo) && k <= |Children(g, v)|
    ensures var (count, memo') := CountChildren(g, memo, v, k);
      && count == Prefix(g, v, k) && MemoOk(g, memo') && memo.Keys <= memo'.Keys
      && forall j :: 0 <= j < k ==> Children(g, v)[j] in memo'
    decreases |Below(g, v)|, k
  {
    if k > 0 {
      CountChildrenExact(g, memo, v, k - 1);
      ChildBelow(g, v, Children(g, v)[k - 1]);
      CountNodeExact(g, CountChildren(g, memo, v, k - 1).1, Children(g, v)[k - 1]);
    }
  }

  lemma {:induction false} CountRootsExact(g: DispatchGraph, memo: Counts, roots: seq<int>)
    requires Acyclic(g) && MemoOk(g, memo)
    ensures var memo' := CountRoots(g, memo, roots);
      MemoOk(g, memo') && memo.Keys <= memo'.Keys && forall r :: r in roots ==> r in memo'
    decreases |roots|
  {
    if roots != [] {
      CountNodeExact(g, memo, roots[0]);
      CountRootsExact(g, CountNode(g, memo, roots[0]).1, roots[1..]);
      assert roots == [roots[0]] + roots[1..];
    }
  }

  /** `v` is a root or a descendant of one. */
  ghost predicate Rooted(g: DispatchGraph, v: int) {
    exists r :: r in g.roots && Reaches(EdgesOf(g), r, v)
  }

  /** The memo that `ComputeN` returns maps every rooted node to its true path count. */
  lemma ComputeNExact(g: DispatchGraph, v: int)
    requires Acyclic(g) && Rooted(g, v)
    ensures v in ComputeN(g) && ComputeN(g)[v] == N(g, v)
  {
    CountRootsExact(g, map[], g.roots);
    var memo := ComputeN(g);
    var r :| r in g.roots && Reaches(EdgesOf(g), r, v);
    forall x | x in memo.Keys ensures Successors(EdgesOf(g), x) <= memo.Keys {
      assert MemoAt(g, memo, x);
      forall y | y in Successors(EdgesOf(g), x) ensures y in memo {
        assert y in Children(g, x);
      }
    }
    ClosedContainsReach(EdgesOf(g), memo.Keys, r, v);
    assert MemoAt(g, memo, v);
  }

  // ----- edge offsets -----

  /** The offsets of one node's children: each child's is the sum of the counts before
      its last occurrence. Children without a count add nothing. */
  function ChildOffsets(children: seq<int>, npaths: Counts, k: nat): (nat, map<int, nat>)
    requires k <= |children|
  {
    if k == 0 then (0, map[])
    else
      var (prefix, offsets) := ChildOffsets(children, npaths, k - 1);
      var child := children[k - 1];
      (prefix + (if child in npaths then npaths[child] else 0), offsets[child := prefix])
  }

  function ComputeOffsets(g: DispatchGraph, npaths: Counts): Offsets {
    map v, c | v in g.edges && c in ChildOffsets(g.edges[v], npaths, |g.edges[v]|).1 ::
      (v, c) := ChildOffsets(g.edges[v], npaths, |g.edges[v]|).1[c]
  }

  function ComputeDispatchIds(g: DispatchGraph): Offsets
    requires Acyclic(g)
  {
    ComputeOffsets(g, ComputeN(g))
  }

  function EdgeWeight(t: Offsets, src: int, target: int): nat {
    if (src, target) in t then t[(src, target)] else 0
  }

  /** Index of the last occurrence among the first `k` children. */
  ghost function LastIndex(s: seq<int>, k: nat, c: int): (j: nat)
    requires k <= |s| && c in s[..k]
    ensures j < k && s[j] == c && forall i :: j < i < k ==> s[i] != c
  {
    if s[k - 1] == c then k - 1 else LastIndex(s, k - 1, c)
  }

  /** The offset an edge of a rooted node gets, stated by true path counts. */
  ghost function Offset(g: DispatchGraph, v: int, c: int): nat
    requires Acyclic(g) && c in Children(g, v)
  {
    Prefix(g, v, LastIndex(Children(g, v), |Children(g, v)|, c))
  }

  lemma {:induction false} ChildOffsetsExact(g: DispatchGraph, v: int, npaths: Counts, k: nat)
    requires Acyclic(g) && k <= |Children(g, v)|
    requires forall c :: c in Children(g, v) ==> c in npaths && npaths[c] == N(g, c)
    ensures var (prefix, offsets) := ChildOffsets(Children(g, v), npaths, k);
      && prefix == Prefix(g, v, k)
      && (forall c :: c in offsets <==> c in Children(g, v)[..k])
      && (forall c :: c in offsets ==> offsets[c] == Prefix(g, v, LastIndex(Children(g, v), k, c)))
  {
    if k > 0 {
      ChildOffsetsExact(g, v, npaths, k - 1);
      var s := Children(g, v);
      assert s[..k] == s[..k - 1] + [s[k - 1]];
    }
  }

  lemma RootedChild(g: DispatchGraph, v: int, c: int)
    requires Rooted(g, v) && c in Children(g, v)
    ensures Rooted(g, c)
  {
    var r :| r in g.roots && Reaches(EdgesOf(g), r, v);
    assert Edge(EdgesOf(g), v, c);
    ReachesEdge(EdgesOf(g), v, c);
    ReachesTrans(EdgesOf(g), r, v, c);
  }

  /** The computed weight of an edge below a root is its offset. */
  lemma EdgeWeightExact(g: DispatchGraph, v: int, c: int)
    requires Acyclic(g) && Rooted(g, v) && c in Children(g, v)
    ensures EdgeWeight(ComputeDispatchIds(g), v, c) == Offset(g, v, c)
  {
    var npaths, s := ComputeN(g), Children(g, v);
    forall d | d in s ensures d in npaths && npaths[d] == N(g, d) {
      RootedChild(g, v, d);
      ComputeNExact(g, d);
    }
    ChildOffsetsExact(g, v, npaths, |s|);
    assert s[..|s|] == s;
    assert (v, c) in ComputeOffsets(g, npaths);
  }

  // ----- ranks -----

  /** A path from `v` to a leaf, as its nodes. */
  ghost predicate LeafPath(g: DispatchGraph, p: seq<int>, v: int) {
    && p != [] && p[0] == v
    && (if |p| == 1 then Children(g, v) == [] else p[1] in Children(g, v) && LeafPath(g, p[1..], p[1]))
  }

  ghost function Rank(t: Offsets, p: seq<int>): nat {
    if |p| < 2 then 0 else EdgeWeight(t, p[0], p[1]) + Rank(t, p[1..])
  }

  lemma {:induction false} PrefixMonotone(g: DispatchGraph, v: int, i: nat, j: nat)
    requires Acyclic(g) && i <= j <= |Children(g, v)|
    ensures Prefix(g, v, i) <= Prefix(g, v, j)
    ensures i < j ==> Prefix(g, v, i) + N(g, Children(g, v)[i]) <= Prefix(g, v, j)
    decreases j - i
  {
    if i < j {
      PrefixMonotone(g, v, i, j - 1);
    }
  }

  /** Ranks stay below the count, and on the first edge they fall into that edge's interval. */
  lemma {:induction false} RankInRange(g: DispatchGraph, p: seq<int>, v: int)
    requires Acyclic(g) && Rooted(g, v) && LeafPath(g, p, v)
    ensures Rank(ComputeDispatchIds(g), p) < N(g, v)
    ensures |p| > 1 ==> var r := Rank(ComputeDispatchIds(g), p);
      Offset(g, v, p[1]) <= r < Offset(g, v, p[1]) + N(g, p[1])
    decreases |p|
  {
    if |p| > 1 {
      var s := Children(g, v);
      RootedChild(g, v, p[1]);
      RankInRange(g, p[1..], p[1]);
      EdgeWeightExact(g, v, p[1]);
      assert s[..|s|] == s;
      PrefixMonotone(g, v, LastIndex(s, |s|, p[1]), |s|);
    }
  }

  /** Two children whose intervals share a number are the same child. */
  lemma IntervalsDisjoint(g: DispatchGraph, v: int, i: nat, j: nat, r: nat)
    requires Acyclic(g) && i < |Children(g, v)| && j < |Children(g, v)|
    requires Prefix(g, v, i) <= r < Prefix(g, v, i) + N(g, Children(g, v)[i])
    requires Prefix(g, v, j) <= r < Prefix(g, v, j) + N(g, Children(g, v)[j])
    ensures i == j
  {
    if i < j {
      PrefixMonotone(g, v, i, j);
    } else if j < i {
      PrefixMonotone(g, v, j, i);
    }
  }

  /** Paths with equal ranks are equal, repeated children or not. */
  lemma {:induction false} RankInjective(g: DispatchGraph, p: seq<int>, q: seq<int>, v: int)
    requires Acyclic(g) && Rooted(g, v) && LeafPath(g, p, v) && LeafPath(g, q, v)
    requires Rank(ComputeDispatchIds(g), p) == Rank(ComputeDispatchIds(g), q)
    ensures p == q
    decreases |p|
  {
    if |p| > 1 {
      var s := Children(g, v);
      assert s[..|s|] == s;
      RankInRange(g, p, v);
      RankInRange(g, q, v);
      IntervalsDisjoint(g, v, LastIndex(s, |s|, p[1]), LastIndex(s, |s|, q[1]), Rank(ComputeDispatchIds(g), p));
      RootedChild(g, v, p[1]);
      RankInjective(g, p[1..], q[1..], p[1]);
      assert p == [v] + p[1..] && q == [v] + q[1..];
    }
  }

  ghost predicate Distinct(s: seq<int>) {
    forall i, j :: 0 <= i < j < |s| ==> s[i] != s[j]
  }

  /** Every node that `v` reaches has distinct children. */
  ghost predicate DistinctBelow(g: DispatchGraph, v: int) {
    forall w :: Reaches(EdgesOf(g), v, w) ==> Distinct(Children(g, w))
  }

  /** The child whose interval holds `r`. */
  lemma {:induction false} FindChild(g: DispatchGraph, v: int, k: nat, r: nat) returns (j: nat)
    requires Acyclic(g) && k <= |Children(g, v)| && r < Prefix(g, v, k)
    ensures j < k && Prefix(g, v, j) <= r < Prefix(g, v, j) + N(g, Children(g, v)[j])
  {
    if r >= Prefix(g, v, k - 1) {
      j := k - 1;
    } else {
      j := FindChild(g, v, k - 1, r);
    }
  }

  lemma DistinctBelowChild(g: DispatchGraph, v: int, c: int)
    requires DistinctBelow(g, v) && c in Children(g, v)
    ensures DistinctBelow(g, c)
  {
    assert Edge(EdgesOf(g), v, c);
    forall w | Reaches(EdgesOf(g), c, w) ensures Distinct(Children(g, w)) {
      ReachesEdge(EdgesOf(g), v, c);
      ReachesTrans(EdgesOf(g), v, c, w);
    }
  }

  /** With distinct children every number below the count is a rank. */
  lemma {:induction false} Unrank(g: DispatchGraph, v: int, r: nat) returns (p: seq<int>)
    requires Acyclic(g) && Rooted(g, v) && DistinctBelow(g, v) && r < N(g, v)
    ensures LeafPath(g, p, v) && Rank(ComputeDispatchIds(g), p) == r
    decreases |Below(g, v)|
  {
    var s := Children(g, v);
    if s == [] {
      p := [v];
    } else {
      var j := FindChild(g, v, |s|, r);
      ReachesRefl(EdgesOf(g), v);
      ChildBelow(g, v, s[j]);
      RootedChild(g, v, s[j]);
      DistinctBelowChild(g, v, s[j]);
      var q := Unrank(g, s[j], r - Prefix(g, v, j));
      p := [v] + q;
      RankCons(g, ComputeDispatchIds(g), q, v, s[j]);
      EdgeWeightExact(g, v, s[j]);
      LastOfDistinct(s, j);
    }
  }

  lemma RankCons(g: DispatchGraph, t: Offsets, q: seq<int>, v: int, c: int)
    requires LeafPath(g, q, c) && c in Children(g, v)
    ensures LeafPath(g, [v] + q, v) && Rank(t, [v] + q) == EdgeWeight(t, v, c) + Rank(t, q)
  {
    assert ([v] + q)[1..] == q;
  }

  lemma LastOfDistinct(s: seq<int>, j: nat)
    requires Distinct(s) && j < |s|
    ensures s[..|s|] == s && LastIndex(s, |s|, s[j]) == j
  {
  }

  /** Ranks are a bijection onto 0..N(v)-1. */
  ghost predicate RanksOnto(g: DispatchGraph, v: int)
    requires Acyclic(g)
  {
    forall r: nat :: r < N(g, v) ==> HasRank(g, v, r)
  }

  ghost predicate HasRank(g: DispatchGraph, v: int, r: nat)
    requires Acyclic(g)
  {
    exists p :: LeafPath(g, p, v) && Rank(ComputeDispatchIds(g), p) == r
  }

  /** A number inside a child's interval is a rank exactly if it is one of the child's own. */
  lemma RankThroughChild(g: DispatchGraph, v: int, c: int, r: nat)
    requires Acyclic(g) && Rooted(g, v) && c in Children(g, v) && r < N(g, c)
    ensures HasRank(g, v, Offset(g, v, c) + r) ==> HasRank(g, c, r)
  {
    var s := Children(g, v);
    assert s[..|s|] == s;
    if p :| LeafPath(g, p, v) && Rank(ComputeDispatchIds(g), p) == Offset(g, v, c) + r {
      RankInRange(g, p, v);
      if |p| > 1 {
        IntervalsDisjoint(g, v, LastIndex(s, |s|, p[1]), LastIndex(s, |s|, c), Offset(g, v, c) + r);
        EdgeWeightExact(g, v, c);
        assert LeafPath(g, p[1..], c);
      }
    }
  }

  /** A repeated child leaves the interval of its earlier occurrence without ranks. */
  lemma RepeatLeavesGap(g: DispatchGraph, v: int, i: nat, j: nat)
    requires Acyclic(g) && Rooted(g, v) && i < j < |Children(g, v)| && Children(g, v)[i] == Children(g, v)[j]
    ensures !RanksOnto(g, v)
  {
    var s := Children(g, v);
    var r := Prefix(g, v, i);
    CountPositive(g, s[i]);
    PrefixMonotone(g, v, i, |s|);
    if p :| LeafPath(g, p, v) && Rank(ComputeDispatchIds(g), p) == r {
      RankInRange(g, p, v);
      assert s[..|s|] == s;
      IntervalsDisjoint(g, v, LastIndex(s, |s|, p[1]), i, r);
    }
    assert !HasRank(g, v, r);
  }

  /** A gap below a node is a gap at every node above it. */
  lemma {:induction false} GapSpreads(g: DispatchGraph, p: seq<int>, v: int, w: int)
    requires Acyclic(g) && Rooted(g, v) && WalkBetween(EdgesOf(g), p, v, w) && !RanksOnto(g, w)
    ensures !RanksOnto(g, v)
    decreases |p|
  {
    if |p| > 1 {
      var c := p[1];
      assert Edge(EdgesOf(g), p[1 - 1], p[1]);
      assert c in Children(g, v);
      SubWalk(EdgesOf(g), p, 1, |p| - 1);
      assert p[1..|p|] == p[1..];
      RootedChild(g, v, c);
      GapSpreads(g, p[1..], c, w);
      var r: nat :| r < N(g, c) && !HasRank(g, c, r);
      RankThroughChild(g, v, c, r);
      var s := Children(g, v);
      assert s[..|s|] == s;
      PrefixMonotone(g, v, LastIndex(s, |s|, c), |s|);
      assert !HasRank(g, v, Offset(g, v, c) + r);
    }
  }

  /** Ranks fill 0..N(v)-1 if and only if no node below `v` repeats a child. */
  lemma RanksOntoIff(g: DispatchGraph, v: int)
    requires Acyclic(g) && Rooted(g, v)
    ensures RanksOnto(g, v) <==> DistinctBelow(g, v)
  {
    if DistinctBelow(g, v) {
      forall r: nat | r < N(g, v) ensures HasRank(g, v, r) {
        var p := Unrank(g, v, r);
      }
    } else {
      var w :| Reaches(EdgesOf(g), v, w) && !Distinct(Children(g, w));
      var i, j :| 0 <= i < j < |Children(g, w)| && Children(g, w)[i] == Children(g, w)[j];
      var r :| r in g.roots && Reaches(EdgesOf(g), r, v);
      ReachesTrans(EdgesOf(g), r, v, w);
      RepeatLeavesGap(g, w, i, j);
      var p :| WalkBetween(EdgesOf(g), p, v, w);
      GapSpreads(g, p, v, w);
    }
  }
}
