/** The closure graph of a module and the summaries of its paths. Nodes are the
    variables that hold closures; an edge leads from a closure to what is built from it. */
module ClosureGraph {
  import opened Graphs
  import opened DispatchIds

  datatype Ty = Base(name: string, boxed: bool) | Arrow(params: seq<Ty>, ret: Ty)

  datatype Var = Var(id: int, ty: Ty)

  /** The statements that touch closures; `args` are the types of the new operands. */
  datatype Stmt =
    | MakeClosure(dst: Var, fn: string, freeVars: seq<Ty>, captured: seq<Ty>)
    | PartialApply(dst: Var, closure: int, args: seq<Ty>)
    | Apply(dst: Var, closure: int, args: seq<Ty>)
    | Cast(dst: Var, closure: int)
    | Move(dst: Var, closure: int)
    | Other

  datatype Kind = KMake | KPartial | KApply | KCast | KMove

  datatype Node = Node(id: int, args: seq<Ty>, remaining: seq<Ty>, ret: Ty, kind: Kind)

  datatype Root = FromMake(fn: string, id: int) | FromArg(id: int)

  /** `nodes` lists a path from its end back to its root. */
  datatype Summary = Summary(root: Root, nodes: seq<int>, remaining: seq<Ty>, ret: Ty, freeVarCount: nat)

  datatype ClosureGraph = ClosureGraph(
    nodes: map<int, Node>,
    summaries: map<int, seq<Summary>>,
    edges: map<int, seq<int>>,
    roots: seq<int>)

  const EMPTY_GRAPH := ClosureGraph(map[], map[], map[], [])

  function RemainingOf(t: Ty): seq<Ty> {
    if t.Arrow? then t.params else []
  }

  function ReturnOf(t: Ty): Ty {
    if t.Arrow? then t.ret else t
  }

  function NodeOf(dst: Var, args: seq<Ty>, kind: Kind): Node {
    Node(dst.id, args, RemainingOf(dst.ty), ReturnOf(dst.ty), kind)
  }

  /** The newest child comes first, as often as it is added. */
  function AddChild(g: ClosureGraph, parent: int, child: int): ClosureGraph {
    g.(edges := g.edges[parent := [child] + (if parent in g.edges then g.edges[parent] else [])])
  }

  function Extend(s: Summary, n: Node): Summary {
    s.(nodes := [n.id] + s.nodes, remaining := n.remaining, ret := n.ret)
  }

  /** The paths of a node are those of the closure it is built from, one node longer. */
  function ExtendedSummaries(g: ClosureGraph, closure: int, n: Node): seq<Summary> {
    if closure in g.summaries then
      var ss := g.summaries[closure];
      seq(|ss|, i requires 0 <= i < |ss| => Extend(ss[i], n))
    else [Summary(FromArg(n.id), [n.id], n.remaining, n.ret, 0)]
  }

  function AddStep(g: ClosureGraph, dst: Var, closure: int, args: seq<Ty>, kind: Kind,
          keep: seq<Summary>): ClosureGraph {
    var n := NodeOf(dst, args, kind);
    var g1 := AddChild(g, closure, dst.id);
    var g2 := g1.(nodes := g1.nodes[dst.id := n]);
    g2.(summaries := g2.summaries[dst.id := keep + ExtendedSummaries(g2, closure, n)])
  }

  function Process(g: ClosureGraph, s: Stmt): ClosureGraph {
    match s
    case MakeClosure(dst, fn, freeVars, captured) =>
      var n := NodeOf(dst, freeVars + captured, KMake);
      g.(nodes := g.nodes[dst.id := n],
         roots := if dst.id in g.roots then g.roots else g.roots + [dst.id],
         summaries := g.summaries[dst.id :=
           [Summary(FromMake(fn, dst.id), [dst.id], n.remaining, n.ret, |freeVars|)]])
    case PartialApply(dst, closure, args) => AddStep(g, dst, closure, args, KPartial, [])
    case Apply(dst, closure, args) => AddStep(g, dst, closure, args, KApply, [])
    case Cast(dst, closure) => if dst.ty.Arrow? then AddStep(g, dst, closure, [], KCast, []) else g
    case Move(dst, closure) =>
      // a variable may be moved into more than once
      if dst.ty.Arrow? then
        AddStep(g, dst, closure, [], KMove, if dst.id in g.summaries then g.summaries[dst.id] else [])
      else g
    case Other => g
  }

  function BuildGraph(stmts: seq<Stmt>): ClosureGraph
    decreases |stmts|
  {
    if stmts == [] then EMPTY_GRAPH else Process(BuildGraph(stmts[..|stmts| - 1]), stmts[|stmts| - 1])
  }

  // ----- order of definitions -----

  /** The closure node a statement defines, if any. */
  predicate Defines(s: Stmt, d: int) {
    match s
    case MakeClosure(dst, _, _, _) => dst.id == d
    case PartialApply(dst, _, _) => dst.id == d
    case Apply(dst, _, _) => dst.id == d
    case Cast(dst, _) => dst.ty.Arrow? && dst.id == d
    case Move(dst, _) => dst.ty.Arrow? && dst.id == d
    case Other => false
  }

  /** The statement builds `d` from `c`. */
  predicate Builds(s: Stmt, c: int, d: int) {
    Defines(s, d) && !s.MakeClosure? && s.closure == c
  }

  /** A node is complete before anything is built from it, and only moves define a node twice
      (then it is the same variable, with the same type). */
  ghost predicate WellOrdered(stmts: seq<Stmt>) {
    && (forall i, j, c, d :: 0 <= i <= j < |stmts| && Builds(stmts[i], c, d) ==> !Defines(stmts[j], c))
    && (forall i, j, d :: 0 <= i < j < |stmts| && Defines(stmts[i], d) && Defines(stmts[j], d) ==>
          stmts[i].Move? && stmts[j].Move? && stmts[i].dst == stmts[j].dst)
  }

  function Dispatch(g: ClosureGraph): DispatchGraph {
    DispatchGraph(g.roots, g.edges)
  }

  lemma WellOrderedPrefix(stmts: seq<Stmt>, n: nat)
    requires WellOrdered(stmts) && n <= |stmts|
    ensures WellOrdered(stmts[..n])
  {
  }

  predicate IsRoot(s: Stmt, r: int) {
    s.MakeClosure? && s.dst.id == r
  }

  lemma ProcessFacts(g: ClosureGraph, s: Stmt, c: int, d: int)
    ensures var g' := Process(g, s);
      && (d in Children(Dispatch(g'), c) <==> d in Children(Dispatch(g), c) || Builds(s, c, d))
      && ((c in g.edges ==> g.edges[c] != []) ==> (c in g'.edges ==> g'.edges[c] != []))
      && (d in g'.nodes <==> d in g.nodes || Defines(s, d))
      && (d in g'.roots <==> d in g.roots || IsRoot(s, d))
  {
  }

  ghost predicate SomeBuilds(stmts: seq<Stmt>, c: int, d: int) {
    exists i :: 0 <= i < |stmts| && Builds(stmts[i], c, d)
  }

  ghost predicate SomeDefines(stmts: seq<Stmt>, d: int) {
    exists i :: 0 <= i < |stmts| && Defines(stmts[i], d)
  }

  ghost predicate SomeRoot(stmts: seq<Stmt>, r: int) {
    exists i :: 0 <= i < |stmts| && IsRoot(stmts[i], r)
  }

  lemma LastStmt(stmts: seq<Stmt>, c: int, d: int)
    requires stmts != []
    ensures var n := |stmts| - 1;
      && (SomeBuilds(stmts, c, d) <==> SomeBuilds(stmts[..n], c, d) || Builds(stmts[n], c, d))
      && (SomeDefines(stmts, d) <==> SomeDefines(stmts[..n], d) || Defines(stmts[n], d))
      && (SomeRoot(stmts, d) <==> SomeRoot(stmts[..n], d) || IsRoot(stmts[n], d))
  {
    var n := |stmts| - 1;
    if i :| 0 <= i < |stmts| && Builds(stmts[i], c, d) {
      assert i < n ==> Builds(stmts[..n][i], c, d);
    }
    if i :| 0 <= i < |stmts| && Defines(stmts[i], d) {
      assert i < n ==> Defines(stmts[..n][i], d);
    }
    if i :| 0 <= i < |stmts| && IsRoot(stmts[i], d) {
      assert i < n ==> IsRoot(stmts[..n][i], d);
    }
    if i :| 0 <= i < n && Builds(stmts[..n][i], c, d) {
      assert Builds(stmts[i], c, d);
    }
    if i :| 0 <= i < n && Defines(stmts[..n][i], d) {
      assert Defines(stmts[i], d);
    }
    if i :| 0 <= i < n && IsRoot(stmts[..n][i], d) {
      assert IsRoot(stmts[i], d);
    }
  }

  /** Edges, nodes and roots are exactly the statements' steps, definitions and closures. */
  lemma {:induction false} GraphIsStmts(stmts: seq<Stmt>, c: int, d: int)
    ensures var g := BuildGraph(stmts);
      && (d in Children(Dispatch(g), c) <==> SomeBuilds(stmts, c, d))
      && (c in g.edges ==> g.edges[c] != [])
      && (d in g.nodes <==> SomeDefines(stmts, d))
      && (d in g.roots <==> SomeRoot(stmts, d))
    decreases |stmts|
  {
    if stmts != [] {
      var n := |stmts| - 1;
      GraphIsStmts(stmts[..n], c, d);
      ProcessFacts(BuildGraph(stmts[..n]), stmts[n], c, d);
      LastStmt(stmts, c, d);
    }
  }

  // ----- the graph is acyclic -----

  /** One past the last statement that defines `d`, or 0. */
  ghost function LastDef(stmts: seq<Stmt>, d: int): (n: nat)
    ensures n <= |stmts|
    ensures forall j :: n <= j < |stmts| ==> !Defines(stmts[j], d)
    ensures n > 0 ==> Defines(stmts[n - 1], d)
    decreases |stmts|
  {
    if stmts == [] then 0
    else if Defines(stmts[|stmts| - 1], d) then |stmts|
    else LastDef(stmts[..|stmts| - 1], d)
  }

  lemma EdgeMovesOn(stmts: seq<Stmt>, c: int, d: int)
    requires WellOrdered(stmts) && d in Children(Dispatch(BuildGraph(stmts)), c)
    ensures LastDef(stmts, c) < LastDef(stmts, d)
  {
    GraphIsStmts(stmts, c, d);
    var i :| 0 <= i < |stmts| && Builds(stmts[i], c, d);
  }

  lemma {:induction false} WalkMovesOn(stmts: seq<Stmt>, p: seq<int>, n: nat)
    requires WellOrdered(stmts) && IsWalk(EdgesOf(Dispatch(BuildGraph(stmts))), p) && 0 < n < |p|
    ensures LastDef(stmts, p[0]) < LastDef(stmts, p[n])
  {
    assert Edge(EdgesOf(Dispatch(BuildGraph(stmts))), p[n - 1], p[n]);
    EdgeMovesOn(stmts, p[n - 1], p[n]);
    if n > 1 {
      WalkMovesOn(stmts, p, n - 1);
    }
  }

  /** Statements in definition order give an acyclic graph. */
  lemma OrderedIsAcyclic(stmts: seq<Stmt>)
    requires WellOrdered(stmts)
    ensures Acyclic(Dispatch(BuildGraph(stmts)))
  {
    forall p ensures !IsCycle(EdgesOf(Dispatch(BuildGraph(stmts))), p) {
      if IsCycle(EdgesOf(Dispatch(BuildGraph(stmts))), p) {
        WalkMovesOn(stmts, p, |p| - 1);
      }
    }
  }

  /** The edge offsets of a module's statements. */
  function OffsetsOf(stmts: seq<Stmt>): Offsets
    requires WellOrdered(stmts)
  {
    OrderedIsAcyclic(stmts);
    ComputeDispatchIds(Dispatch(BuildGraph(stmts)))
  }

  // ----- summaries are paths -----

  function Reversed(s: seq<int>): (r: seq<int>) {
    if s == [] then [] else Reversed(s[1..]) + [s[0]]
  }

  /** A path from `r` to `d` along edges. */
  ghost predicate PathIn(g: ClosureGraph, p: seq<int>, r: int, d: int) {
    WalkBetween(EdgesOf(Dispatch(g)), p, r, d)
  }

  /** Some summary of `d`, rooted at closure `r`, lists `p` backwards and carries `d`'s types. */
  ghost predicate Summarised(g: ClosureGraph, p: seq<int>, r: int, d: int) {
    exists s :: d in g.summaries && s in g.summaries[d] && SummaryOf(g, s, p, r, d)
  }

  ghost predicate SummaryOf(g: ClosureGraph, s: Summary, p: seq<int>, r: int, d: int) {
    && s.root.FromMake? && s.root.id == r && s.nodes == Reversed(p)
    && r in g.summaries && g.summaries[r] != [] && g.summaries[r][0].root == s.root
    && d in g.nodes && s.remaining == g.nodes[d].remaining && s.ret == g.nodes[d].ret
  }

  /** The summaries rooted at closures are exactly the paths from closures. */
  ghost predicate SummariesOk(g: ClosureGraph) {
    && (forall p, r, d {:trigger PathIn(g, p, r, d)} :: r in g.roots && PathIn(g, p, r, d) ==> Summarised(g, p, r, d))
    && (forall d, s {:trigger SummaryOk(g, d, s)} :: SummaryOk(g, d, s))
  }

  ghost predicate SummaryOk(g: ClosureGraph, d: int, s: Summary) {
    d in g.summaries && s in g.summaries[d] && s.root.FromMake? ==>
      s.root.id in g.roots && PathIn(g, Reversed(s.nodes), s.root.id, d)
          && SummaryOf(g, s, Reversed(s.nodes), s.root.id, d)
  }

  lemma {:induction false} ReversedAppend(p: seq<int>, d: int)
    ensures Reversed(p + [d]) == [d] + Reversed(p)
  {
    if p != [] {
      ReversedAppend(p[1..], d);
      assert (p + [d])[1..] == p[1..] + [d];
    }
  }

  lemma {:induction false} ReversedTwice(p: seq<int>)
    ensures Reversed(Reversed(p)) == p
  {
    if p != [] {
      ReversedTwice(p[1..]);
      ReversedAppend(Reversed(p[1..]), p[0]);
    }
  }

  lemma StepEdges(g: ClosureGraph, s: Stmt, a: int, b: int)
    ensures Edge(EdgesOf(Dispatch(Process(g, s))), a, b) <==> Edge(EdgesOf(Dispatch(g)), a, b) || Builds(s, a, b)
  {
    ProcessFacts(g, s, a, b);
  }

  lemma PathGrows(g: ClosureGraph, s: Stmt, p: seq<int>, r: int, d: int)
    requires PathIn(g, p, r, d)
    ensures PathIn(Process(g, s), p, r, d)
  {
    forall i | 0 < i < |p| ensures Edge(EdgesOf(Dispatch(Process(g, s))), p[i - 1], p[i]) {
      StepEdges(g, s, p[i - 1], p[i]);
    }
  }

  /** A new edge into a node without successors only lengthens paths that end there. */
  lemma NewPaths(g: ClosureGraph, s: Stmt, c: int, d: int, p: seq<int>, r: int, x: int)
    requires Builds(s, c, d) && c != d && Children(Dispatch(g), d) == []
    requires PathIn(Process(g, s), p, r, x)
    ensures PathIn(g, p, r, x) || (x == d && |p| > 1 && p[|p| - 2] == c && PathIn(g, p[..|p| - 1], r, c))
  {
    var n := |p| - 1;
    forall i | 0 < i < |p| ensures Edge(EdgesOf(Dispatch(g)), p[i - 1], p[i])
        || (i == n && p[n - 1] == c && p[n] == d) {
      StepEdges(g, s, p[i - 1], p[i]);
      if i < n && p[i] == d {
        StepEdges(g, s, p[i], p[i + 1]);
        assert Edge(EdgesOf(Dispatch(Process(g, s))), p[(i + 1) - 1], p[i + 1]);
      }
    }
    if !PathIn(g, p, r, x) {
      var q := p[..n];
      forall i | 0 < i < |q| ensures Edge(EdgesOf(Dispatch(g)), q[i - 1], q[i]) {
        assert q[i] == p[i] && q[i - 1] == p[i - 1];
      }
    }
  }

  /** What the order of definitions says about the last statement. */
  lemma LastIsFresh(stmts: seq<Stmt>, d: int)
    requires stmts != [] && WellOrdered(stmts) && Defines(stmts[|stmts| - 1], d)
    ensures var g := BuildGraph(stmts[..|stmts| - 1]);
      && Children(Dispatch(g), d) == [] && d !in g.roots
      && (!stmts[|stmts| - 1].Move? ==> d !in g.nodes && forall c :: d !in Children(Dispatch(g), c))
  {
    var n := |stmts| - 1;
    var t := stmts[..n];
    forall i, x | 0 <= i < n ensures !Builds(t[i], d, x) {
      assert t[i] == stmts[i];
    }
    forall i | 0 <= i < n && Defines(t[i], d) ensures stmts[n].Move? && t[i].Move? {
      assert t[i] == stmts[i];
    }
    forall i | 0 <= i < n ensures !IsRoot(t[i], d) {
      assert Defines(t[i], d) ==> t[i].Move?;
    }
    GraphIsStmts(t, d, d);
    if Children(Dispatch(BuildGraph(t)), d) != [] {
      var x := Children(Dispatch(BuildGraph(t)), d)[0];
      GraphIsStmts(t, d, x);
    }
    forall c | d in Children(Dispatch(BuildGraph(t)), c) ensures stmts[n].Move? {
      GraphIsStmts(t, c, d);
      var i :| 0 <= i < n && Builds(t[i], c, d);
      assert Defines(t[i], d);
    }
  }

  /** A step leaves every other node's summaries alone, and its own node keeps what it had to keep. */
  lemma StepFrame(g: ClosureGraph, dst: Var, c: int, args: seq<Ty>, kind: Kind, keep: seq<Summary>, x: int)
    ensures var g' := AddStep(g, dst, c, args, kind, keep);
      && g'.roots == g.roots && dst.id in g'.nodes && g'.nodes[dst.id] == NodeOf(dst, args, kind)
      && (x != dst.id ==> (x in g'.summaries <==> x in g.summaries) && (x in g'.nodes <==> x in g.nodes))
      && (x != dst.id && x in g.summaries ==> g'.summaries[x] == g.summaries[x])
      && (x != dst.id && x in g.nodes ==> g'.nodes[x] == g.nodes[x])
      && dst.id in g'.summaries && forall u :: u in keep ==> u in g'.summaries[dst.id]
  {
  }

  /** A path the graph had before the step is still summarised. */
  lemma OldPathKept(g: ClosureGraph, dst: Var, c: int, args: seq<Ty>, kind: Kind, keep: seq<Summary>, p: seq<int>,
          r: int, x: int)
    requires r != dst.id && Summarised(g, p, r, x)
    requires x == dst.id ==> dst.id in g.summaries && keep == g.summaries[dst.id]
    requires x == dst.id ==> g.nodes[x].remaining == RemainingOf(dst.ty) && g.nodes[x].ret == ReturnOf(dst.ty)
    ensures Summarised(AddStep(g, dst, c, args, kind, keep), p, r, x)
  {
    var u :| x in g.summaries && u in g.summaries[x] && SummaryOf(g, u, p, r, x);
    StepFrame(g, dst, c, args, kind, keep, x);
    StepFrame(g, dst, c, args, kind, keep, r);
    assert SummaryOf(AddStep(g, dst, c, args, kind, keep), u, p, r, x);
  }

  /** A path lengthened by the step is summarised at its new end. */
  lemma NewPathSummarised(g: ClosureGraph, dst: Var, c: int, args: seq<Ty>, kind: Kind, keep: seq<Summary>,
          q: seq<int>, r: int)
    requires r != dst.id && c != dst.id && Summarised(g, q, r, c)
    ensures Summarised(AddStep(g, dst, c, args, kind, keep), q + [dst.id], r, dst.id)
  {
    var u :| c in g.summaries && u in g.summaries[c] && SummaryOf(g, u, q, r, c);
    var k :| 0 <= k < |g.summaries[c]| && g.summaries[c][k] == u;
    ReversedAppend(q, dst.id);
    ExtendedIn(g, dst, c, args, kind, keep, k);
    StepFrame(g, dst, c, args, kind, keep, r);
    assert SummaryOf(AddStep(g, dst, c, args, kind, keep), Extend(u, NodeOf(dst, args, kind)), q + [dst.id], r, dst.id);
  }

  lemma StepSummarises(g: ClosureGraph, s: Stmt, c: int, d: int, args: seq<Ty>, kind: Kind, keep: seq<Summary>,
          p: seq<int>, r: int, x: int)
    requires SummariesOk(g) && Builds(s, c, d) && c != d
    requires Process(g, s) == AddStep(g, s.dst, c, args, kind, keep)
    requires Children(Dispatch(g), d) == [] && d !in g.roots
    requires keep == (if s.Move? && d in g.summaries then g.summaries[d] else [])
    requires !s.Move? ==> forall b :: d !in Children(Dispatch(g), b)
    requires d in g.nodes ==> g.nodes[d].remaining == RemainingOf(s.dst.ty) && g.nodes[d].ret == ReturnOf(s.dst.ty)
    requires r in Process(g, s).roots && PathIn(Process(g, s), p, r, x)
    ensures Summarised(Process(g, s), p, r, x)
  {
    NewPaths(g, s, c, d, p, r, x);
    if PathIn(g, p, r, x) {
      assert Summarised(g, p, r, x);
      if x == d && !s.Move? {
        LastEdgeInto(g, p, r, d);
      }
      OldPathKept(g, s.dst, c, args, kind, keep, p, r, x);
    } else {
      var q := p[..|p| - 1];
      assert p == q + [d];
      assert Summarised(g, q, r, c);
      NewPathSummarised(g, s.dst, c, args, kind, keep, q, r);
    }
  }

  lemma LastEdgeInto(g: ClosureGraph, p: seq<int>, r: int, d: int)
    requires PathIn(g, p, r, d) && r != d
    ensures exists b :: d in Children(Dispatch(g), b)
  {
    var n := |p| - 1;
    assert Edge(EdgesOf(Dispatch(g)), p[n - 1], p[n]);
    assert d in Children(Dispatch(g), p[n - 1]);
  }

  lemma ExtendedIn(g: ClosureGraph, dst: Var, c: int, args: seq<Ty>, kind: Kind, keep: seq<Summary>, k: nat)
    requires c in g.summaries && k < |g.summaries[c]|
    ensures var g' := AddStep(g, dst, c, args, kind, keep);
      dst.id in g'.summaries && Extend(g.summaries[c][k], NodeOf(dst, args, kind)) in g'.summaries[dst.id]
  {
    var n := NodeOf(dst, args, kind);
    var g1 := AddChild(g, c, dst.id);
    var more := ExtendedSummaries(g1.(nodes := g1.nodes[dst.id := n]), c, n);
    assert more[k] == Extend(g.summaries[c][k], n);
    assert (keep + more)[|keep| + k] == more[k];
  }

  /** Every summary the step leaves behind is right. */
  lemma StepSummariesRight(g: ClosureGraph, s: Stmt, c: int, d: int, args: seq<Ty>, kind: Kind, keep: seq<Summary>,
          x: int, u: Summary)
    requires SummariesOk(g) && Builds(s, c, d) && c != d && d !in g.roots
    requires Process(g, s) == AddStep(g, s.dst, c, args, kind, keep)
    requires keep == (if s.Move? && d in g.summaries then g.summaries[d] else [])
    requires d in g.nodes ==> g.nodes[d].remaining == RemainingOf(s.dst.ty) && g.nodes[d].ret == ReturnOf(s.dst.ty)
    ensures SummaryOk(Process(g, s), x, u)
  {
    var g' := Process(g, s);
    var n := NodeOf(s.dst, args, kind);
    if x in g'.summaries && u in g'.summaries[x] && u.root.FromMake? {
      if x != d || u in keep {
        assert SummaryOk(g, x, u);
        PathGrows(g, s, Reversed(u.nodes), u.root.id, x);
      } else {
        var v := LastExtended(g, s, c, args, kind, keep, u);
        assert SummaryOk(g, c, v);
        ReversedTwice(u.nodes);
        PathGrows(g, s, Reversed(v.nodes), u.root.id, c);
        LongerPath(g, s, c, d, Reversed(v.nodes), u.root.id);
        assert u.nodes[1..] == v.nodes;
        assert Reversed(u.nodes) == Reversed(v.nodes) + [d];
      }
    }
  }

  lemma LongerPath(g: ClosureGraph, s: Stmt, c: int, d: int, q: seq<int>, r: int)
    requires Builds(s, c, d) && PathIn(Process(g, s), q, r, c)
    ensures PathIn(Process(g, s), q + [d], r, d)
  {
    StepEdges(g, s, c, d);
    var p := q + [d];
    forall i | 0 < i < |p| ensures Edge(EdgesOf(Dispatch(Process(g, s))), p[i - 1], p[i]) {
      if i < |q| {
        assert p[i] == q[i] && p[i - 1] == q[i - 1];
      }
    }
  }

  /** A new summary rooted at a closure extends one of the closure it is built from. */
  lemma LastExtended(g: ClosureGraph, s: Stmt, c: int, args: seq<Ty>, kind: Kind, keep: seq<Summary>, u: Summary)
          returns (v: Summary)
    requires !s.Other? && c != s.dst.id && u.root.FromMake? && u !in keep
    requires var g' := AddStep(g, s.dst, c, args, kind, keep);
      u in g'.summaries[s.dst.id]
    ensures c in g.summaries && v in g.summaries[c] && u == Extend(v, NodeOf(s.dst, args, kind))
  {
    var n := NodeOf(s.dst, args, kind);
    var g1 := AddChild(g, c, s.dst.id);
    var more := ExtendedSummaries(g1.(nodes := g1.nodes[s.dst.id := n]), c, n);
    var k :| 0 <= k < |keep + more| && (keep + more)[k] == u;
    assert k >= |keep|;
    v := g.summaries[c][k - |keep|];
  }

  lemma MakeSummaries(g: ClosureGraph, s: Stmt, r: int)
    requires SummariesOk(g) && IsRoot(s, r)
    requires Children(Dispatch(g), r) == [] && r !in g.roots && r !in g.nodes
        && forall b :: r !in Children(Dispatch(g), b)
    ensures SummariesOk(Process(g, s))
  {
    var g' := Process(g, s);
    forall p, r', x | r' in g'.roots && PathIn(g', p, r', x) ensures Summarised(g', p, r', x) {
      forall i | 0 < i < |p| ensures Edge(EdgesOf(Dispatch(g)), p[i - 1], p[i]) {
        StepEdges(g, s, p[i - 1], p[i]);
      }
      assert PathIn(g, p, r', x);
      if x == r {
        if r' != r {
          LastEdgeInto(g, p, r', r);
        }
        MakePathTrivial(g, p, r);
        var u := g'.summaries[r][0];
        assert p == [r] && Reversed(p[1..]) == [];
        assert SummaryOf(g', u, p, r, r);
      } else {
        if r' == r {
          FirstEdgeFrom(g, p, r, x);
        }
        assert Summarised(g, p, r', x);
        var u :| x in g.summaries && u in g.summaries[x] && SummaryOf(g, u, p, r', x);
        assert SummaryOf(g', u, p, r', x);
      }
    }
    forall x, u ensures SummaryOk(g', x, u) {
      assert SummaryOk(g, x, u);
      if x == r && u in g'.summaries[x] {
        assert u.nodes == [r] && Reversed([r]) == [r];
      } else if x in g'.summaries && u in g'.summaries[x] && u.root.FromMake? {
        PathGrows(g, s, Reversed(u.nodes), u.root.id, x);
      }
    }
  }

  lemma MakePathTrivial(g: ClosureGraph, p: seq<int>, r: int)
    requires PathIn(g, p, r, r) && Children(Dispatch(g), r) == []
    ensures p == [r]
  {
    assert |p| > 1 ==> Edge(EdgesOf(Dispatch(g)), p[1 - 1], p[1]);
  }

  lemma FirstEdgeFrom(g: ClosureGraph, p: seq<int>, r: int, x: int)
    requires PathIn(g, p, r, x) && r != x
    ensures Children(Dispatch(g), r) != []
  {
    assert Edge(EdgesOf(Dispatch(g)), p[1 - 1], p[1]);
  }

  /** A node's recorded types are those of the variable its statements define. */
  lemma {:induction false} NodeTypes(stmts: seq<Stmt>, d: int, v: Var)
    requires d in BuildGraph(stmts).nodes
    requires forall i :: 0 <= i < |stmts| && Defines(stmts[i], d) ==> stmts[i].dst == v
    ensures BuildGraph(stmts).nodes[d].remaining == RemainingOf(v.ty)
        && BuildGraph(stmts).nodes[d].ret == ReturnOf(v.ty)
    decreases |stmts|
  {
    if stmts != [] {
      var n := |stmts| - 1;
      if !Defines(stmts[n], d) {
        ProcessFacts(BuildGraph(stmts[..n]), stmts[n], d, d);
        forall i | 0 <= i < n && Defines(stmts[..n][i], d) ensures stmts[..n][i].dst == v {
          assert stmts[..n][i] == stmts[i];
        }
        NodeTypes(stmts[..n], d, v);
      } else {
        assert stmts[n].dst == v;
      }
    }
  }

  /** The arguments of the graph step a non-root statement takes. */
  function ArgsOf(s: Stmt): seq<Ty> {
    if s.PartialApply? || s.Apply? then s.args else []
  }

  function KindOf(s: Stmt): Kind {
    match s
    case MakeClosure(_, _, _, _) => KMake
    case PartialApply(_, _, _) => KPartial
    case Apply(_, _, _) => KApply
    case Cast(_, _) => KCast
    case _ => KMove
  }

  lemma StepKeepsSummaries(stmts: seq<Stmt>, c: int, d: int)
    requires stmts != [] && WellOrdered(stmts) && Builds(stmts[|stmts| - 1], c, d)
    requires SummariesOk(BuildGraph(stmts[..|stmts| - 1]))
    ensures SummariesOk(BuildGraph(stmts))
  {
    var n := |stmts| - 1;
    var s, g, g' := stmts[n], BuildGraph(stmts[..n]), BuildGraph(stmts);
    var keep := if s.Move? && d in g.summaries then g.summaries[d] else [];
    assert g' == AddStep(g, s.dst, c, ArgsOf(s), KindOf(s), keep);
    LastIsFresh(stmts, d);
    if d in g.nodes {
      forall i | 0 <= i < n && Defines(stmts[..n][i], d) ensures stmts[..n][i].dst == s.dst {
        assert stmts[..n][i] == stmts[i];
      }
      NodeTypes(stmts[..n], d, s.dst);
    }
    forall p, r, x | r in g'.roots && PathIn(g', p, r, x) ensures Summarised(g', p, r, x) {
      StepSummarises(g, s, c, d, ArgsOf(s), KindOf(s), keep, p, r, x);
    }
    forall x, u ensures SummaryOk(g', x, u) {
      StepSummariesRight(g, s, c, d, ArgsOf(s), KindOf(s), keep, x, u);
    }
  }

  /** In definition order, the summaries rooted at closures are exactly the paths from closures. */
  lemma {:induction false} SummariesArePaths(stmts: seq<Stmt>)
    requires WellOrdered(stmts)
    ensures SummariesOk(BuildGraph(stmts))
    decreases |stmts|
  {
    if stmts != [] {
      var n := |stmts| - 1;
      var s, g := stmts[n], BuildGraph(stmts[..n]);
      WellOrderedPrefix(stmts, n);
      SummariesArePaths(stmts[..n]);
      if s.MakeClosure? {
        LastIsFresh(stmts, s.dst.id);
        MakeSummaries(g, s, s.dst.id);
      } else if !s.Other? && Defines(s, s.dst.id) {
        StepKeepsSummaries(stmts, s.closure, s.dst.id);
      } else {
        assert BuildGraph(stmts) == g;
      }
    }
  }

  // ----- specialisations -----

  datatype Specialisation = Specialisation(fn: string, args: seq<Ty>, ret: Ty, tag: nat)

  predicate IsLeaf(g: ClosureGraph, d: int) {
    d in g.nodes && d !in g.edges
  }

  /** Walks the backward node list, adding up edge weights. */
  function Cumul(t: Offsets, nodes: seq<int>, acc: nat): nat
    decreases |nodes|
  {
    if |nodes| < 2 then acc else Cumul(t, nodes[1..], acc + EdgeWeight(t, nodes[1], nodes[0]))
  }

  function ArgsAlong(g: ClosureGraph, path: seq<int>): seq<Ty>
    decreases |path|
  {
    if path == [] then []
    else (if path[0] in g.nodes then g.nodes[path[0]].args else []) + ArgsAlong(g, path[1..])
  }

  function SpecialisationOf(g: ClosureGraph, t: Offsets, s: Summary): Specialisation
    requires s.root.FromMake?
  {
    Specialisation(s.root.fn, ArgsAlong(g, Reversed(s.nodes)) + s.remaining, s.ret, Cumul(t, s.nodes, 0))
  }

  /** The specialisations of root `r` found among the summaries, the latest first. */
  function CollectSummaries(g: ClosureGraph, t: Offsets, r: int, ss: seq<Summary>,
          acc: seq<Specialisation>): seq<Specialisation>
    decreases |ss|
  {
    if ss == [] then acc
    else if ss[0].root.FromMake? && ss[0].root.id == r then
      CollectSummaries(g, t, r, ss[1..], [SpecialisationOf(g, t, ss[0])] + acc)
    else CollectSummaries(g, t, r, ss[1..], acc)
  }

  function CollectLeaves(g: ClosureGraph, t: Offsets, r: int, leaves: seq<int>,
          acc: seq<Specialisation>): seq<Specialisation>
    decreases |leaves|
  {
    if leaves == [] then acc
    else CollectLeaves(g, t, r, leaves[1..],
      CollectSummaries(g, t, r, if leaves[0] in g.summaries then g.summaries[leaves[0]] else [], acc))
  }

  lemma {:induction false} CollectSummariesHas(g: ClosureGraph, t: Offsets, r: int, ss: seq<Summary>,
          acc: seq<Specialisation>, x: Specialisation)
    ensures x in CollectSummaries(g, t, r, ss, acc)
       <==> x in acc || exists s :: s in ss && s.root.FromMake? && s.root.id == r && x == SpecialisationOf(g, t, s)
    decreases |ss|
  {
    if ss != [] {
      assert ss == [ss[0]] + ss[1..];
      var acc' := if ss[0].root.FromMake? && ss[0].root.id == r then [SpecialisationOf(g, t, ss[0])] + acc else acc;
      CollectSummariesHas(g, t, r, ss[1..], acc', x);
    }
  }

  ghost predicate LeafSpecialisation(g: ClosureGraph, t: Offsets, r: int, d: int, x: Specialisation) {
    exists s :: d in g.summaries && s in g.summaries[d] && s.root.FromMake? && s.root.id == r
        && x == SpecialisationOf(g, t, s)
  }

  lemma {:induction false} CollectLeavesHas(g: ClosureGraph, t: Offsets, r: int, leaves: seq<int>,
          acc: seq<Specialisation>, x: Specialisation)
    ensures x in CollectLeaves(g, t, r, leaves, acc)
       <==> x in acc || exists d :: d in leaves && LeafSpecialisation(g, t, r, d, x)
    decreases |leaves|
  {
    if leaves != [] {
      var l := leaves[0];
      var ss := if l in g.summaries then g.summaries[l] else [];
      CollectSummariesHas(g, t, r, ss, acc, x);
      assert LeafSpecialisation(g, t, r, l, x) <==>
          exists s :: s in ss && s.root.FromMake? && s.root.id == r && x == SpecialisationOf(g, t, s);
      forall d ensures d in leaves <==> d == l || d in leaves[1..] {
        assert leaves == [l] + leaves[1..];
      }
      CollectLeavesHas(g, t, r, leaves[1..], CollectSummaries(g, t, r, ss, acc), x);
    }
  }

  lemma {:induction false} CumulAppend(t: Offsets, nodes: seq<int>, d: int, acc: nat)
    requires nodes != []
    ensures Cumul(t, nodes + [d], acc) == Cumul(t, nodes, acc) + EdgeWeight(t, d, nodes[|nodes| - 1])
    decreases |nodes|
  {
    if |nodes| > 1 {
      assert (nodes + [d])[1..] == nodes[1..] + [d];
      CumulAppend(t, nodes[1..], d, acc + EdgeWeight(t, nodes[1], nodes[0]));
    }
  }

  lemma {:induction false} ReversedEnds(p: seq<int>)
    requires p != []
    ensures |Reversed(p)| == |p| && Reversed(p)[|p| - 1] == p[0]
  {
    if |p| > 1 {
      ReversedEnds(p[1..]);
    }
  }

  /** The cumulated tag of a path is its rank. */
  lemma {:induction false} CumulIsRank(t: Offsets, p: seq<int>)
    requires p != []
    ensures Cumul(t, Reversed(p), 0) == Rank(t, p)
    decreases |p|
  {
    if |p| > 1 {
      CumulIsRank(t, p[1..]);
      ReversedEnds(p[1..]);
      CumulAppend(t, Reversed(p[1..]), p[0], 0);
    } else {
      assert Reversed(p[1..]) == [];
    }
  }

  lemma {:induction false} LeafPathIsPath(g: ClosureGraph, p: seq<int>, r: int)
    requires forall c :: c in g.edges ==> g.edges[c] != []
    ensures LeafPath(Dispatch(g), p, r) <==>
      p != [] && PathIn(g, p, r, p[|p| - 1]) && p[|p| - 1] !in g.edges
    decreases |p|
  {
    if |p| > 1 {
      LeafPathIsPath(g, p[1..], p[1]);
      if PathIn(g, p, r, p[|p| - 1]) {
        SubWalk(EdgesOf(Dispatch(g)), p, 1, |p| - 1);
        assert p[1..|p|] == p[1..];
        assert Edge(EdgesOf(Dispatch(g)), p[1 - 1], p[1]);
      }
      if LeafPath(Dispatch(g), p, r) {
        assert WalkBetween(EdgesOf(Dispatch(g)), [p[0], p[1]], p[0], p[1]);
        WalkConcat(EdgesOf(Dispatch(g)), [p[0], p[1]], p[1..], p[0], p[1], p[|p| - 1]);
        assert [p[0], p[1]] + p[1..][1..] == p;
      }
    }
  }

  /** What a path's specialisation must be: the root's function, the argument types
      gathered along the path, and the path's rank as its tag. */
  ghost predicate SpecialisedAlong(g: ClosureGraph, t: Offsets, r: int, p: seq<int>, x: Specialisation) {
    && LeafPath(Dispatch(g), p, r)
    && p[|p| - 1] in g.nodes && r in g.summaries && g.summaries[r] != [] && g.summaries[r][0].root.FromMake?
    && x == Specialisation(
         g.summaries[r][0].root.fn,
         ArgsAlong(g, p) + g.nodes[p[|p| - 1]].remaining,
         g.nodes[p[|p| - 1]].ret,
         Rank(t, p))
  }

  ghost predicate AreLeaves(g: ClosureGraph, leaves: seq<int>) {
    forall d :: d in leaves <==> IsLeaf(g, d)
  }

  /** A root's specialisations are exactly those of its paths to leaves. */
  lemma SpecialisationsArePaths(stmts: seq<Stmt>, leaves: seq<int>, t: Offsets, r: int, x: Specialisation)
    requires WellOrdered(stmts)
    requires var g := BuildGraph(stmts); AreLeaves(g, leaves) && r in g.roots
    ensures var g := BuildGraph(stmts);
      x in CollectLeaves(g, t, r, leaves, []) <==> exists p :: SpecialisedAlong(g, t, r, p, x)
  {
    var g := BuildGraph(stmts);
    SummariesArePaths(stmts);
    CollectLeavesHas(g, t, r, leaves, [], x);
    forall c | c in g.edges ensures g.edges[c] != [] {
      GraphIsStmts(stmts, c, c);
    }
    if d :| d in leaves && LeafSpecialisation(g, t, r, d, x) {
      var s :| s in g.summaries[d] && s.root.FromMake? && s.root.id == r && x == SpecialisationOf(g, t, s);
      assert SummaryOk(g, d, s);
      var p := Reversed(s.nodes);
      ReversedTwice(s.nodes);
      LeafPathIsPath(g, p, r);
      CumulIsRank(t, p);
      assert SpecialisedAlong(g, t, r, p, x);
    }
    if p :| SpecialisedAlong(g, t, r, p, x) {
      var d := p[|p| - 1];
      LeafPathIsPath(g, p, r);
      assert Summarised(g, p, r, d);
      var s :| d in g.summaries && s in g.summaries[d] && SummaryOf(g, s, p, r, d);
      ReversedTwice(p);
      CumulIsRank(t, p);
      assert LeafSpecialisation(g, t, r, d, x);
      assert d in leaves;
    }
  }

  lemma SameTagSamePath(g: ClosureGraph, t: Offsets, r: int, x: Specialisation, y: Specialisation)
    requires Acyclic(Dispatch(g)) && t == ComputeDispatchIds(Dispatch(g)) && r in g.roots && x.tag == y.tag
    requires exists p :: SpecialisedAlong(g, t, r, p, x)
    requires exists q :: SpecialisedAlong(g, t, r, q, y)
    ensures x == y
  {
    var p :| SpecialisedAlong(g, t, r, p, x);
    var q :| SpecialisedAlong(g, t, r, q, y);
    ReachesRefl(EdgesOf(Dispatch(g)), r);
    RankInjective(Dispatch(g), p, q, r);
  }

  /** One tag, one path: two specialisations of a root with the same tag are the same. */
  lemma TagsAreUnique(stmts: seq<Stmt>, leaves: seq<int>, r: int, x: Specialisation, y: Specialisation)
    requires WellOrdered(stmts)
    requires var g := BuildGraph(stmts); AreLeaves(g, leaves) && r in g.roots
    requires var g, t := BuildGraph(stmts), OffsetsOf(stmts);
      x in CollectLeaves(g, t, r, leaves, []) && y in CollectLeaves(g, t, r, leaves, []) && x.tag == y.tag
    ensures x == y
  {
    var g, t := BuildGraph(stmts), OffsetsOf(stmts);
    OrderedIsAcyclic(stmts);
    SpecialisationsArePaths(stmts, leaves, t, r, x);
    SpecialisationsArePaths(stmts, leaves, t, r, y);
    SameTagSamePath(g, t, r, x, y);
  }
}
