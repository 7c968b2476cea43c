/** When the accumulators along a chain of closures return what its application asks for, with the return types that
    the analysis computes. */
module ChainTypes {
  import opened Graphs
  import opened DispatchIds
  import opened ClosureGraph
  import opened Oir
  import opened Options
  import opened Trampolines
  import opened ClosureDispatch
  import opened Application
  import opened ReturnTypes

  /** The analysis knows what the node's closures return: an odd number of paths lead through it to leaves. */
  predicate Found(m: Module, v: int) {
    v !in m.generic && LeafCount(m.graph, m.leaves, v) % 2 == 1
  }

  /** A path from a closure to a leaf. */
  ghost predicate Whole(m: Module, p: seq<int>) {
    p != [] && p[0] in m.graph.roots && LeafPath(Dispatch(m.graph), p, p[0])
  }

  lemma {:induction false} ReversedHas(p: seq<int>, x: int)
    ensures x in Reversed(p) <==> x in p
  {
    if p != [] {
      ReversedHas(p[1..], x);
      assert p == [p[0]] + p[1..];
    }
  }

  lemma WholeIsPath(m: Module, p: seq<int>)
    requires Analysed(m) && Whole(m, p)
    ensures var d := p[|p| - 1];
      PathIn(m.graph, p, p[0], d) && d !in m.graph.edges && Summarised(m.graph, p, p[0], d)
  {
    forall c | c in m.graph.edges ensures m.graph.edges[c] != [] {
      GraphIsStmts(m.stmts, c, c);
    }
    LeafPathIsPath(m.graph, p, p[0]);
    SummariesArePaths(m.stmts);
  }

  /** The summary of a path. */
  lemma PathSummary(m: Module, p: seq<int>) returns (s: Summary)
    requires Analysed(m) && Whole(m, p)
    ensures LeafSummary(m, p[|p| - 1], s) && s.root.FromMake? && s.root.id == p[0]
    ensures p[|p| - 1] in m.graph.nodes && forall v :: v in p ==> v in s.nodes
  {
    WholeIsPath(m, p);
    var g, d := m.graph, p[|p| - 1];
    s :| d in g.summaries && s in g.summaries[d] && SummaryOf(g, s, p, p[0], d);
    assert IsLeaf(g, d);
    forall v | v in p ensures v in s.nodes {
      ReversedHas(p, v);
    }
  }

  /** From a node of the path to the leaf of any summary through it. */
  lemma Detour(m: Module, p: seq<int>, i: nat, d: int, s: Summary) returns (q: seq<int>)
    requires Analysed(m) && Whole(m, p) && i < |p| && LeafSummary(m, d, s) && s.root.FromMake? && p[i] in s.nodes
    ensures Whole(m, q) && q[0] == p[0] && q[|q| - 1] == d && d in m.graph.nodes && s.ret == m.graph.nodes[d].ret
  {
    var g := m.graph;
    WholeIsPath(m, p);
    SummariesArePaths(m.stmts);
    assert SummaryOk(g, d, s);
    var w := Reversed(s.nodes);
    ReversedHas(s.nodes, p[i]);
    var j :| 0 <= j < |w| && w[j] == p[i];
    q := Joined(g, p, i, w, j, d);
    assert IsLeaf(g, d);
    forall c | c in g.edges ensures g.edges[c] != [] {
      GraphIsStmts(m.stmts, c, c);
    }
    LeafPathIsPath(g, q, p[0]);
  }

  lemma Joined(g: ClosureGraph, p: seq<int>, i: nat, w: seq<int>, j: nat, d: int) returns (q: seq<int>)
    requires IsWalk(EdgesOf(Dispatch(g)), p) && IsWalk(EdgesOf(Dispatch(g)), w)
    requires i < |p| && j < |w| && p[i] == w[j] && w[|w| - 1] == d
    ensures PathIn(g, q, p[0], d)
  {
    var e := EdgesOf(Dispatch(g));
    SubWalk(e, p, 0, i);
    SubWalk(e, w, j, |w| - 1);
    WalkConcat(e, p[0..i + 1], w[j..|w| - 1 + 1], p[0], p[i], d);
    q := p[0..i + 1] + w[j..|w| - 1 + 1][1..];
  }

  /** Leaves of one root that is not generic return one type. */
  lemma SameRet(m: Module, p: seq<int>, q: seq<int>)
    requires Analysed(m) && Whole(m, p) && Whole(m, q) && q[0] == p[0] && !RetsDiffer(Specs(m, p[0]))
    ensures p[|p| - 1] in m.graph.nodes && q[|q| - 1] in m.graph.nodes
    ensures m.graph.nodes[p[|p| - 1]].ret == m.graph.nodes[q[|q| - 1]].ret
  {
    LeafPathIsSpecialised(m, p, p[0]);
    LeafPathIsSpecialised(m, q, p[0]);
    var xs := Specs(m, p[0]);
    assert PathSpec(m, p).ret == xs[0].ret && PathSpec(m, q).ret == xs[0].ret;
  }

  /** Behind a node that is not generic all leaves return one type. */
  lemma LeavesBehind(m: Module, asArg: set<int>, p: seq<int>, i: nat, d: int, s: Summary)
    requires Analysed(m) && ReturnsAnalysed(m, asArg) && Whole(m, p) && i < |p| && p[i] !in m.generic
    requires LeafSummary(m, d, s) && p[i] in s.nodes
    ensures p[|p| - 1] in m.graph.nodes && s.ret == m.graph.nodes[p[|p| - 1]].ret
  {
    var own := PathSummary(m, p);
    assert !OnGenericPath(m, asArg, p[i]);
    assert !GenericRoot(m, asArg, own.root) && !GenericRoot(m, asArg, s.root);
    var q := Detour(m, p, i, d, s);
    SameRet(m, p, q);
  }

  /** A closure on a path returns the leaf's type if the analysis has found it, and a word otherwise. */
  lemma RetOnPath(m: Module, asArg: set<int>, p: seq<int>, i: nat)
    requires Analysed(m) && ReturnsAnalysed(m, asArg) && Whole(m, p) && i < |p|
    ensures p[|p| - 1] in m.graph.nodes
    ensures RetOf(m, p[i]) == if Found(m, p[i]) then LowerTy(m.graph.nodes[p[|p| - 1]].ret) else I64
  {
    var own := PathSummary(m, p);
    if p[i] !in m.generic {
      var t := m.graph.nodes[p[|p| - 1]].ret;
      forall d, s | LeafSummary(m, d, s) && p[i] in s.nodes ensures s.ret == t {
        LeavesBehind(m, asArg, p, i, d, s);
      }
      ConcreteRetIff(m, p[i], t);
    }
  }

  /** The application calls at its result's type rather than at that of a word. */
  predicate AsksForType(m: Module, c: int, d: int)
    requires d in m.graph.nodes
  {
    ResultTy(m, d) == VOID || c !in m.generic
  }

  /** The accumulator of node `i` of the path, if it has one, returns what the application asks for. */
  ghost predicate FoundAsAsked(m: Module, path: seq<int>, i: nat, d: int)
    requires path != [] && d in m.graph.nodes
  {
    i < |path| ==> IsMove(m, path[i]) || (Found(m, path[i]) <==> AsksForType(m, path[|path| - 1], d))
  }

  lemma AgreesIff(m: Module, asArg: set<int>, path: seq<int>, d: int, i: nat)
    requires Analysed(m) && ReturnsAnalysed(m, asArg) && Whole(m, path + [d]) && i < |path| && d in m.graph.nodes
    requires m.graph.nodes[d].remaining == []
    ensures Agrees(m, path, i, SiteTy(m, path[|path| - 1], d)) <==>
      Repr(ResultTy(m, d)) == I64 || FoundAsAsked(m, path, i, d)
  {
    RetOnPath(m, asArg, path + [d], i);
    assert (path + [d])[i] == path[i];
  }

  lemma ApplicationIsWhole(m: Module, h: Heap, k: Chain, d: int, args: seq<Value>)
    requires Analysed(m) && ApplyOk(m, h, k, d, args) && IsLeaf(m.graph, d)
    ensures Whole(m, k.path + [d])
  {
    PathIsSpecialised(m, h, k, d, args);
  }

  /** With the return types that the analysis computes, the accumulators of a chain return what its application asks
      for if and only if the result is a machine word, or each of them has its type found exactly when the
      application asks for it. */
  lemma SiteAgreesIff(m: Module, asArg: set<int>, h: Heap, k: Chain, d: int, args: seq<Value>)
    requires Analysed(m) && ReturnsAnalysed(m, asArg)
    requires ApplyOk(m, h, k, d, args) && IsLeaf(m.graph, d) && m.graph.nodes[d].remaining == []
    ensures SiteAgrees(m, k.path, d) <==>
      Repr(ResultTy(m, d)) == I64
      || forall i {:trigger FoundAsAsked(m, k.path, i, d)} :: 0 <= i < |k.path| ==> FoundAsAsked(m, k.path, i, d)
  {
    var ty := SiteTy(m, k.path[|k.path| - 1], d);
    ApplicationIsWhole(m, h, k, d, args);
    forall i: nat | i < |k.path|
      ensures Agrees(m, k.path, i, ty) <==> Repr(ResultTy(m, d)) == I64 || FoundAsAsked(m, k.path, i, d)
    {
      AgreesIff(m, asArg, k.path, d, i);
    }
    if SiteAgrees(m, k.path, d) {
      forall i {:trigger FoundAsAsked(m, k.path, i, d)} | 0 <= i < |k.path|
        ensures Repr(ResultTy(m, d)) == I64 || FoundAsAsked(m, k.path, i, d)
      {
        assert Agrees(m, k.path, i, ty);
      }
    } else {
      var i :| 0 <= i < |k.path| && !Agrees(m, k.path, i, ty);
      assert !FoundAsAsked(m, k.path, i, d);
    }
  }

  /** So, if a root that is not generic has an odd number of specialisations and they return no word, the chain and
      the application agree if and only if every link is not generic and has an odd number of paths to leaves, and
      the last closure is not generic unless nothing is returned. */
  lemma OddRootAgreesIff(m: Module, asArg: set<int>, h: Heap, k: Chain, d: int, args: seq<Value>)
    requires Analysed(m) && ReturnsAnalysed(m, asArg)
    requires ApplyOk(m, h, k, d, args) && IsLeaf(m.graph, d) && m.graph.nodes[d].remaining == []
    requires k.path[0] !in m.generic && |Specs(m, k.path[0])| % 2 == 1 && Repr(ResultTy(m, d)) != I64
    ensures SiteAgrees(m, k.path, d) <==>
      AsksForType(m, k.path[|k.path| - 1], d)
      && forall i {:trigger k.path[i]} :: 0 < i < |k.path| ==> IsMove(m, k.path[i]) || Found(m, k.path[i])
  {
    SiteAgreesIff(m, asArg, h, k, d, args);
    RootCount(m, k.path[0]);
    assert Found(m, k.path[0]) && !IsMove(m, k.path[0]);
    if SiteAgrees(m, k.path, d) {
      assert FoundAsAsked(m, k.path, 0, d);
      forall i {:trigger k.path[i]} | 0 < i < |k.path| ensures IsMove(m, k.path[i]) || Found(m, k.path[i]) {
        assert FoundAsAsked(m, k.path, i, d);
      }
    } else {
      var i :| 0 <= i < |k.path| && !FoundAsAsked(m, k.path, i, d);
      assert i > 0 ==> !IsMove(m, k.path[i]);
    }
  }
}
