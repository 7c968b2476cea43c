/** The return types that closure analysis carries back from the leaves, and when the wrapper that a root's
    accumulator calls is the one generated for the specialisation. */
module ReturnTypes {
  import opened Graphs
  import opened DispatchIds
  import opened ClosureGraph
  import opened Oir
  import opened Options
  import opened ClosureDispatch
  import opened Application

  /** A node's return type so far, and whether another has been met. */
  type Noted = map<int, (Ty, bool)>

  /** Meeting the same type again forgets it. */
  function Note(tys: Noted, d: int, t: Ty): Noted {
    if d !in tys then tys[d := (t, false)]
    else if tys[d].0 != t then tys[d := (tys[d].0, true)]
    else tys - {d}
  }

  function NoteAll(tys: Noted, nodes: seq<int>, t: Ty): Noted
    decreases |nodes|
  {
    if nodes == [] then tys else NoteAll(Note(tys, nodes[0], t), nodes[1..], t)
  }

  function NoteSummaries(tys: Noted, ss: seq<Summary>): Noted
    decreases |ss|
  {
    if ss == [] then tys else NoteSummaries(NoteAll(tys, ss[0].nodes, ss[0].ret), ss[1..])
  }

  function NoteLeaves(g: ClosureGraph, leaves: seq<int>, tys: Noted): Noted
    decreases |leaves|
  {
    if leaves == [] then tys
    else NoteLeaves(g, leaves[1..], NoteSummaries(tys, if leaves[0] in g.summaries then g.summaries[leaves[0]] else []))
  }

  function ConcreteRets(g: ClosureGraph, leaves: seq<int>): map<int, Ty> {
    var tys := NoteLeaves(g, leaves, map[]);
    map d | d in tys && !tys[d].1 :: tys[d].0
  }

  ghost predicate LeafSummary(m: Module, d: int, s: Summary) {
    d in m.leaves && d in m.graph.summaries && s in m.graph.summaries[d]
  }

  predicate RetsDiffer(xs: seq<Specialisation>) {
    exists i :: 0 < i < |xs| && xs[i].ret != xs[0].ret
  }

  /** A root is generic if its specialisations return different types, if a node on the way to one of its leaves
      is handed to a function, or if it is not made in this module. `asArg` holds the closures handed over. */
  ghost predicate GenericRoot(m: Module, asArg: set<int>, root: Root) {
    match root
    case FromArg(_) => true
    case FromMake(_, r) => RetsDiffer(Specs(m, r)) || exists d, s :: LeafSummary(m, d, s) && HandedOver(s, r, asArg)
  }

  predicate HandedOver(s: Summary, r: int, asArg: set<int>) {
    s.root.FromMake? && s.root.id == r && exists n :: n in s.nodes && n in asArg
  }

  ghost predicate OnGenericPath(m: Module, asArg: set<int>, n: int) {
    exists d, s :: LeafSummary(m, d, s) && n in s.nodes && GenericRoot(m, asArg, s.root)
  }

  /** The module's return types are those the analysis computes. */
  ghost predicate ReturnsAnalysed(m: Module, asArg: set<int>) {
    && m.ret.Keys == ConcreteRets(m.graph, m.leaves).Keys
    && (forall d :: d in m.ret ==> m.ret[d] == LowerTy(ConcreteRets(m.graph, m.leaves)[d]))
    && (forall n {:trigger n in m.generic} :: n in m.generic <==> OnGenericPath(m, asArg, n))
  }

  /** The analysis of a module's statements. */
  lemma AnalysedModule(stmts: seq<Stmt>, leaves: seq<int>, asArg: set<int>,
          available: map<string, Signature>)
    returns (m: Module)
    requires WellOrdered(stmts) && AreLeaves(BuildGraph(stmts), leaves)
    ensures m.stmts == stmts && m.leaves == leaves && m.available == available
    ensures Analysed(m) && ReturnsAnalysed(m, asArg)
  {
    var g := BuildGraph(stmts);
    var c := ConcreteRets(g, leaves);
    var m0 := Module(stmts, g, OffsetsOf(stmts), leaves, map d | d in c :: LowerTy(c[d]), {}, available);
    m := m0.(generic := set d, s, n | d in leaves && d in g.summaries && s in g.summaries[d] && n in s.nodes
                                        && GenericRoot(m0, asArg, s.root) :: n);
    forall root ensures GenericRoot(m, asArg, root) <==> GenericRoot(m0, asArg, root) {
      SameRoot(m, m0, asArg, root);
    }
    forall n ensures n in m.generic <==> OnGenericPath(m, asArg, n) {
      if d, s :| LeafSummary(m, d, s) && n in s.nodes && GenericRoot(m, asArg, s.root) {
        assert d in leaves && d in g.summaries && s in g.summaries[d] && n in s.nodes
            && GenericRoot(m0, asArg, s.root);
      }
      if n in m.generic {
        var d, s :| d in leaves && d in g.summaries && s in g.summaries[d] && n in s.nodes
                    && GenericRoot(m0, asArg, s.root);
        assert LeafSummary(m, d, s);
      }
    }
  }

  lemma SameRoot(m: Module, m': Module, asArg: set<int>, root: Root)
    requires m.graph == m'.graph && m.offsets == m'.offsets && m.leaves == m'.leaves
    ensures GenericRoot(m, asArg, root) <==> GenericRoot(m', asArg, root)
  {
    forall d, s ensures LeafSummary(m, d, s) <==> LeafSummary(m', d, s) {
    }
  }

  // ----- a root occurs only in its own summaries -----

  ghost predicate Built(stmts: seq<Stmt>, d: int) {
    exists i :: 0 <= i < |stmts| && Defines(stmts[i], d) && !stmts[i].MakeClosure?
  }

  /** All nodes but the root's are built from others. */
  ghost predicate SummaryBuilt(stmts: seq<Stmt>, s: Summary) {
    var k := |s.nodes| - 1;
    && k >= 0
    && (forall i {:trigger s.nodes[i]} :: 0 <= i < k ==> Built(stmts, s.nodes[i]))
    && match s.root
       case FromMake(_, r) => s.nodes[k] == r
       case FromArg(_) => Built(stmts, s.nodes[k])
  }

  lemma BuiltGrows(stmts: seq<Stmt>, d: int)
    requires stmts != [] && Built(stmts[..|stmts| - 1], d)
    ensures Built(stmts, d)
  {
    var i :| 0 <= i < |stmts| - 1 && Defines(stmts[i], d) && !stmts[i].MakeClosure?;
    assert stmts[..|stmts| - 1][i] == stmts[i];
  }

  lemma SummaryBuiltGrows(stmts: seq<Stmt>, s: Summary)
    requires stmts != [] && SummaryBuilt(stmts[..|stmts| - 1], s)
    ensures SummaryBuilt(stmts, s)
  {
    forall d | Built(stmts[..|stmts| - 1], d) ensures Built(stmts, d) {
      BuiltGrows(stmts, d);
    }
  }

  lemma ExtendedIsBuilt(stmts: seq<Stmt>, s: Summary, n: Node)
    requires SummaryBuilt(stmts, s) && Built(stmts, n.id)
    ensures SummaryBuilt(stmts, Extend(s, n))
  {
    var e := Extend(s, n);
    forall i {:trigger e.nodes[i]} | 0 <= i < |e.nodes| - 1 ensures Built(stmts, e.nodes[i]) {
      assert i > 0 ==> e.nodes[i] == s.nodes[i - 1];
    }
  }

  lemma {:induction false} SummariesBuilt(stmts: seq<Stmt>, d: int, s: Summary)
    requires d in BuildGraph(stmts).summaries && s in BuildGraph(stmts).summaries[d]
    ensures SummaryBuilt(stmts, s)
    decreases |stmts|
  {
    var k := |stmts| - 1;
    var g, last := BuildGraph(stmts[..k]), stmts[k];
    if d in g.summaries && s in g.summaries[d] {
      SummariesBuilt(stmts[..k], d, s);
      SummaryBuiltGrows(stmts, s);
    } else if !last.MakeClosure? {
      assert Defines(stmts[k], last.dst.id) && Built(stmts, last.dst.id);
      var n := NodeOf(last.dst, ArgsOf(last), KindOf(last));
      assert s in ExtendedSummaries(g, last.closure, n);
      if last.closure in g.summaries {
        var u :| u in g.summaries[last.closure] && s == Extend(u, n);
        SummariesBuilt(stmts[..k], last.closure, u);
        SummaryBuiltGrows(stmts, u);
        ExtendedIsBuilt(stmts, u, n);
      }
    }
  }

  lemma RootIsNotBuilt(stmts: seq<Stmt>, r: int)
    requires WellOrdered(stmts) && r in BuildGraph(stmts).roots
    ensures !Built(stmts, r)
  {
    GraphIsStmts(stmts, r, r);
    var i :| 0 <= i < |stmts| && IsRoot(stmts[i], r);
    if j :| 0 <= j < |stmts| && Defines(stmts[j], r) && !stmts[j].MakeClosure? {
      assert Defines(stmts[i], r) && i != j;
    }
  }

  /** A root is at the end of its own summaries and in no others. */
  ghost predicate EndsAt(s: Summary, r: int) {
    var k := |s.nodes| - 1;
    && k >= 0 && r !in s.nodes[..k]
    && (s.nodes[k] == r <==> s.root.FromMake? && s.root.id == r)
  }

  ghost predicate AllEndAt(ss: seq<Summary>, r: int) {
    forall i {:trigger ss[i]} :: 0 <= i < |ss| ==> EndsAt(ss[i], r)
  }

  lemma RootEnds(stmts: seq<Stmt>, r: int, d: int, s: Summary)
    requires WellOrdered(stmts) && r in BuildGraph(stmts).roots
    requires d in BuildGraph(stmts).summaries && s in BuildGraph(stmts).summaries[d]
    ensures EndsAt(s, r)
  {
    SummariesBuilt(stmts, d, s);
    RootIsNotBuilt(stmts, r);
  }

  // ----- a summary lists a path, and so no node twice -----

  predicate Distinct(nodes: seq<int>) {
    forall i, j :: 0 <= i < j < |nodes| ==> nodes[i] != nodes[j]
  }

  /** The nodes lead backwards from `d` along edges. */
  ghost predicate LeadsBack(g: ClosureGraph, d: int, nodes: seq<int>) {
    && nodes != [] && nodes[0] == d
    && forall i {:trigger nodes[i]} :: 0 < i < |nodes| ==> nodes[i - 1] in Children(Dispatch(g), nodes[i])
  }

  lemma LeadsBackGrows(g: ClosureGraph, s: Stmt, d: int, nodes: seq<int>)
    requires LeadsBack(g, d, nodes)
    ensures LeadsBack(Process(g, s), d, nodes)
  {
    forall i {:trigger nodes[i]} | 0 < i < |nodes|
      ensures nodes[i - 1] in Children(Dispatch(Process(g, s)), nodes[i])
    {
      ProcessFacts(g, s, nodes[i], nodes[i - 1]);
    }
  }

  lemma StepLeadsBack(g: ClosureGraph, s: Stmt, d: int, nodes: seq<int>)
    requires Defines(s, d) && !s.MakeClosure? && LeadsBack(g, s.closure, nodes)
    ensures LeadsBack(Process(g, s), d, [d] + nodes)
  {
    LeadsBackGrows(g, s, s.closure, nodes);
    ProcessFacts(g, s, s.closure, d);
    OneFurtherBack(Process(g, s), s.closure, d, nodes);
  }

  lemma {:induction false} SummaryLeadsBack(stmts: seq<Stmt>, d: int, s: Summary)
    requires d in BuildGraph(stmts).summaries && s in BuildGraph(stmts).summaries[d]
    ensures LeadsBack(BuildGraph(stmts), d, s.nodes)
    decreases |stmts|
  {
    var k := |stmts| - 1;
    var g, last := BuildGraph(stmts[..k]), stmts[k];
    if d in g.summaries && s in g.summaries[d] {
      SummaryLeadsBack(stmts[..k], d, s);
      LeadsBackGrows(g, last, d, s.nodes);
    } else if !last.MakeClosure? {
      var n := NodeOf(last.dst, ArgsOf(last), KindOf(last));
      assert s in ExtendedSummaries(g, last.closure, n) && d == n.id;
      if last.closure in g.summaries {
        var u :| u in g.summaries[last.closure] && s == Extend(u, n);
        SummaryLeadsBack(stmts[..k], last.closure, u);
        StepLeadsBack(g, last, d, u.nodes);
      }
    }
  }

  lemma OneFurtherBack(g: ClosureGraph, c: int, d: int, nodes: seq<int>)
    requires LeadsBack(g, c, nodes) && d in Children(Dispatch(g), c)
    ensures LeadsBack(g, d, [d] + nodes)
  {
    var all := [d] + nodes;
    forall i {:trigger all[i]} | 0 < i < |all| ensures all[i - 1] in Children(Dispatch(g), all[i]) {
      assert all[i] == nodes[i - 1];
    }
  }

  lemma OneBack(g: ClosureGraph, d: int, nodes: seq<int>, j: nat)
    requires LeadsBack(g, d, nodes) && 0 < j < |nodes|
    ensures nodes[j - 1] in Children(Dispatch(g), nodes[j])
  {
  }

  ghost predicate Ranked(g: ClosureGraph, rank: int -> int) {
    forall a, b {:trigger b in Children(Dispatch(g), a)} :: b in Children(Dispatch(g), a) ==> rank(a) < rank(b)
  }

  lemma DefinedLater(stmts: seq<Stmt>, rank: int -> int)
    requires WellOrdered(stmts) && forall x :: rank(x) == LastDef(stmts, x)
    ensures Ranked(BuildGraph(stmts), rank)
  {
    forall a, b {:trigger b in Children(Dispatch(BuildGraph(stmts)), a)}
      | b in Children(Dispatch(BuildGraph(stmts)), a)
      ensures rank(a) < rank(b)
    {
      EdgeMovesOn(stmts, a, b);
    }
  }

  lemma {:induction false} EarlierBack(g: ClosureGraph, rank: int -> int, d: int, nodes: seq<int>, i: nat, j: nat)
    requires Ranked(g, rank) && LeadsBack(g, d, nodes) && i < j < |nodes|
    ensures rank(nodes[j]) < rank(nodes[i])
    decreases j
  {
    OneBack(g, d, nodes, j);
    if i < j - 1 {
      EarlierBack(g, rank, d, nodes, i, j - 1);
    }
  }

  lemma SummaryDistinct(stmts: seq<Stmt>, d: int, s: Summary)
    requires WellOrdered(stmts) && d in BuildGraph(stmts).summaries && s in BuildGraph(stmts).summaries[d]
    ensures Distinct(s.nodes)
  {
    var g := BuildGraph(stmts);
    var rank := x => LastDef(stmts, x);
    SummaryLeadsBack(stmts, d, s);
    DefinedLater(stmts, rank);
    forall i, j | 0 <= i < j < |s.nodes| ensures s.nodes[i] != s.nodes[j] {
      EarlierBack(g, rank, d, s.nodes, i, j);
    }
  }

  // ----- the parity of the leaves behind a node -----

  /** The type is there after an odd number of leaves that return it. */
  predicate Toggled(tys: Noted, v: int, n: nat, t: Ty) {
    if n % 2 == 1 then v in tys && tys[v] == (t, false) else v !in tys
  }

  function Through(ss: seq<Summary>, v: int): nat {
    if ss == [] then 0 else (if v in ss[0].nodes then 1 else 0) + Through(ss[1..], v)
  }

  function SummariesOf(g: ClosureGraph, d: int): seq<Summary> {
    if d in g.summaries then g.summaries[d] else []
  }

  /** The number of leaf summaries that pass through a node. */
  function LeafCount(g: ClosureGraph, leaves: seq<int>, v: int): nat {
    if leaves == [] then 0 else Through(SummariesOf(g, leaves[0]), v) + LeafCount(g, leaves[1..], v)
  }

  lemma {:induction false} NoteAllAt(tys: Noted, nodes: seq<int>, t: Ty, v: int)
    requires Distinct(nodes)
    ensures var tys' := if v in nodes then Note(tys, v, t) else tys;
      && (v in NoteAll(tys, nodes, t) <==> v in tys')
      && (v in tys' ==> NoteAll(tys, nodes, t)[v] == tys'[v])
    decreases |nodes|
  {
    if nodes != [] {
      assert nodes == [nodes[0]] + nodes[1..];
      NoteAllAt(Note(tys, nodes[0], t), nodes[1..], t, v);
    }
  }

  /** Summaries through `v` return `t`, and none lists a node twice. */
  ghost predicate AllReturn(ss: seq<Summary>, v: int, t: Ty) {
    forall i {:trigger ss[i]} :: 0 <= i < |ss| ==> Distinct(ss[i].nodes) && (v in ss[i].nodes ==> ss[i].ret == t)
  }

  lemma {:induction false} SummariesToggle(tys: Noted, ss: seq<Summary>, v: int, n: nat, t: Ty)
    requires AllReturn(ss, v, t) && Toggled(tys, v, n, t)
    ensures Toggled(NoteSummaries(tys, ss), v, n + Through(ss, v), t)
    decreases |ss|
  {
    if ss != [] {
      var s := ss[0];
      NoteAllAt(tys, s.nodes, s.ret, v);
      SummariesToggle(NoteAll(tys, s.nodes, s.ret), ss[1..], v, n + (if v in s.nodes then 1 else 0), t);
    }
  }

  lemma {:induction false} LeavesToggle(g: ClosureGraph, leaves: seq<int>, tys: Noted, v: int, n: nat, t: Ty)
    requires forall d {:trigger SummariesOf(g, d)} :: d in leaves ==> AllReturn(SummariesOf(g, d), v, t)
    requires Toggled(tys, v, n, t)
    ensures Toggled(NoteLeaves(g, leaves, tys), v, n + LeafCount(g, leaves, v), t)
    decreases |leaves|
  {
    if leaves != [] {
      var ss := SummariesOf(g, leaves[0]);
      SummariesToggle(tys, ss, v, n, t);
      LeavesToggle(g, leaves[1..], NoteSummaries(tys, ss), v, n + Through(ss, v), t);
    }
  }

  lemma ConcreteRetOf(g: ClosureGraph, leaves: seq<int>, v: int, t: Ty)
    requires forall d {:trigger SummariesOf(g, d)} :: d in leaves ==> AllReturn(SummariesOf(g, d), v, t)
    ensures var c := ConcreteRets(g, leaves);
      && (v in c <==> LeafCount(g, leaves, v) % 2 == 1) && (v in c ==> c[v] == t)
  {
    LeavesToggle(g, leaves, map[], v, 0, t);
  }

  lemma LeafReturns(m: Module, d: int, v: int, t: Ty)
    requires Analysed(m) && d in m.leaves && forall s :: LeafSummary(m, d, s) && v in s.nodes ==> s.ret == t
    ensures AllReturn(SummariesOf(m.graph, d), v, t)
  {
    var ss := SummariesOf(m.graph, d);
    forall i {:trigger ss[i]} | 0 <= i < |ss| ensures Distinct(ss[i].nodes) && (v in ss[i].nodes ==> ss[i].ret == t) {
      SummaryDistinct(m.stmts, d, ss[i]);
      assert LeafSummary(m, d, ss[i]);
    }
  }

  /** If all leaves behind a node return one type, the analysis finds it there exactly when the number of paths
      to them through the node is odd. */
  lemma ConcreteRetIff(m: Module, v: int, t: Ty)
    requires Analysed(m) && forall d, s :: LeafSummary(m, d, s) && v in s.nodes ==> s.ret == t
    ensures var c := ConcreteRets(m.graph, m.leaves);
      && (v in c <==> LeafCount(m.graph, m.leaves, v) % 2 == 1) && (v in c ==> c[v] == t)
  {
    forall d {:trigger SummariesOf(m.graph, d)} | d in m.leaves ensures AllReturn(SummariesOf(m.graph, d), v, t) {
      LeafReturns(m, d, v, t);
    }
    ConcreteRetOf(m.graph, m.leaves, v, t);
  }

  // ----- the specialisations of a root -----

  lemma {:induction false} RootThrough(g: ClosureGraph, off: Offsets, r: int, ss: seq<Summary>,
          acc: seq<Specialisation>)
    requires AllEndAt(ss, r)
    ensures |CollectSummaries(g, off, r, ss, acc)| == |acc| + Through(ss, r)
    decreases |ss|
  {
    if ss != [] {
      var s := ss[0];
      assert s.nodes == s.nodes[..|s.nodes| - 1] + [s.nodes[|s.nodes| - 1]];
      var own := s.root.FromMake? && s.root.id == r;
      RootThrough(g, off, r, ss[1..], if own then [SpecialisationOf(g, off, s)] + acc else acc);
    }
  }

  lemma {:induction false} RootLeaves(g: ClosureGraph, off: Offsets, r: int, leaves: seq<int>,
          acc: seq<Specialisation>)
    requires forall d {:trigger SummariesOf(g, d)} :: AllEndAt(SummariesOf(g, d), r)
    ensures |CollectLeaves(g, off, r, leaves, acc)| == |acc| + LeafCount(g, leaves, r)
    decreases |leaves|
  {
    if leaves != [] {
      var ss := SummariesOf(g, leaves[0]);
      RootThrough(g, off, r, ss, acc);
      RootLeaves(g, off, r, leaves[1..], CollectSummaries(g, off, r, ss, acc));
    }
  }

  /** A root has as many specialisations as there are paths from it to leaves. */
  lemma RootCount(m: Module, r: int)
    requires Analysed(m) && r in m.graph.roots
    ensures LeafCount(m.graph, m.leaves, r) == |Specs(m, r)|
  {
    forall d ensures AllEndAt(SummariesOf(m.graph, d), r) {
      var ss := SummariesOf(m.graph, d);
      forall i {:trigger ss[i]} | 0 <= i < |ss| ensures EndsAt(ss[i], r) {
        RootEnds(m.stmts, r, d, ss[i]);
      }
    }
    RootLeaves(m.graph, m.offsets, r, m.leaves, []);
  }

  lemma SummaryOfRoot(m: Module, r: int, d: int, s: Summary)
    requires Analysed(m) && r in m.graph.roots && LeafSummary(m, d, s) && r in s.nodes
    ensures s.root.FromMake? && s.root.id == r
  {
    RootEnds(m.stmts, r, d, s);
    assert s.nodes == s.nodes[..|s.nodes| - 1] + [s.nodes[|s.nodes| - 1]];
  }

  lemma SummaryIsSpec(m: Module, r: int, d: int, s: Summary) returns (x: Specialisation)
    requires LeafSummary(m, d, s) && s.root.FromMake? && s.root.id == r
    ensures x in Specs(m, r) && x.ret == s.ret
  {
    x := SpecialisationOf(m.graph, m.offsets, s);
    assert LeafSpecialisation(m.graph, m.offsets, r, d, x);
    CollectLeavesHas(m.graph, m.offsets, r, m.leaves, [], x);
  }

  /** If all specialisations of a root return one type, the analysis finds it exactly when their number is odd. */
  lemma RootRetIff(m: Module, r: int, t: Ty)
    requires Analysed(m) && r in m.graph.roots && forall x :: x in Specs(m, r) ==> x.ret == t
    ensures var c := ConcreteRets(m.graph, m.leaves);
      && (r in c <==> |Specs(m, r)| % 2 == 1) && (r in c ==> c[r] == t)
  {
    forall d, s | LeafSummary(m, d, s) && r in s.nodes ensures s.ret == t {
      SummaryOfRoot(m, r, d, s);
      var _ := SummaryIsSpec(m, r, d, s);
    }
    ConcreteRetIff(m, r, t);
    RootCount(m, r);
  }

  lemma DifferentRetsAreGeneric(m: Module, asArg: set<int>, r: int)
    requires Analysed(m) && ReturnsAnalysed(m, asArg) && r in m.graph.roots && RetsDiffer(Specs(m, r))
    ensures r in m.generic
  {
    var x := Specs(m, r)[0];
    CollectLeavesHas(m.graph, m.offsets, r, m.leaves, [], x);
    var d :| d in m.leaves && LeafSpecialisation(m.graph, m.offsets, r, d, x);
    var s :| d in m.graph.summaries && s in m.graph.summaries[d] && s.root.FromMake? && s.root.id == r;
    RootEnds(m.stmts, r, d, s);
    assert LeafSummary(m, d, s) && r in s.nodes && GenericRoot(m, asArg, s.root);
  }

  /** With the return types the analysis computes, a root's accumulator calls the wrapper generated for a
      specialisation if and only if it returns a word, or the root is generic and has several specialisations, or
      it is not generic and has an odd number of them. */
  lemma CalledIsGeneratedIff(m: Module, asArg: set<int>, r: int, x: Specialisation)
    requires Analysed(m) && ReturnsAnalysed(m, asArg) && r in m.graph.roots && x in Specs(m, r)
    ensures CalledWrapper(m, r, x) == GeneratedWrapper(m, r, x)
       <==>
         LowerTy(x.ret) == I64 || (if r in m.generic then |Specs(m, r)| != 1 else |Specs(m, r)| % 2 == 1)
  {
    WrapperNamesIff(m, r, x);
    if r !in m.generic {
      var xs := Specs(m, r);
      if RetsDiffer(xs) {
        DifferentRetsAreGeneric(m, asArg, r);
      }
      forall y | y in xs ensures y.ret == x.ret {
        assert y.ret == xs[0].ret && x.ret == xs[0].ret;
      }
      RootRetIff(m, r, x.ret);
    }
  }
}
