/** A link of a chain that returns another type than the chain's root. */
module LinkExamples {
  import opened Graphs
  import opened DispatchIds
  import opened ClosureGraph
  import opened Oir
  import opened Options
  import opened Trampolines
  import opened ClosureDispatch
  import opened Application
  import opened ReturnTypes
  import opened ChainTypes
  import opened ApplicationExamples
  import opened DispatchExamples

  const BINARY := MakeClosure(Var(1, Arrow([WORD, WORD], FLOAT)), "f", [], [])
  const LINK := PartialApply(Var(2, Arrow([WORD], FLOAT)), 1, [WORD])
  const FIRST := Apply(Var(3, FLOAT), 2, [WORD])
  const SECOND := Apply(Var(4, FLOAT), 2, [WORD])
  const DIRECT := Apply(Var(5, FLOAT), 1, [WORD, WORD])

  /** A function of two words that returns a float, applied to one word and then twice to another, and once to both. */
  const LINKED := [BINARY, LINK, FIRST, SECOND, DIRECT]

  const BINARY_NODE := Node(1, [], [WORD, WORD], FLOAT, KMake)
  const LINK_NODE := Node(2, [WORD], [WORD], FLOAT, KPartial)
  const LEAVES := [3, 4, 5]

  function LeafOf(d: int): Node {
    Node(d, if d == 5 then [WORD, WORD] else [WORD], [], FLOAT, KApply)
  }

  function LeafSummaryOf(d: int): Summary {
    Summary(FromMake("f", 1), if d == 5 then [5, 1] else [d, 2, 1], [], FLOAT, 0)
  }

  const BINARY_SUMMARY := Summary(FromMake("f", 1), [1], [WORD, WORD], FLOAT, 0)
  const LINK_SUMMARY := Summary(FromMake("f", 1), [2, 1], [WORD], FLOAT, 0)

  // ----- its graph -----

  lemma BinaryGraph()
    ensures BuildGraph([BINARY])
         == ClosureGraph(map[1 := BINARY_NODE], map[1 := [BINARY_SUMMARY]], map[], [1])
  {
    BuildAppend([], BINARY);
    assert [] + [BINARY] == [BINARY] && [] + [1] == [1];
    var none: seq<Ty> := [];
    assert none + none == none;
    assert NodeOf(BINARY.dst, none + none, KMake) == BINARY_NODE;
  }

  /** A step from a closure with one summary. */
  lemma StepGraph(g: ClosureGraph, dst: Var, c: int, args: seq<Ty>, kind: Kind, s: Summary)
    requires c in g.summaries && g.summaries[c] == [s]
    ensures var g', n := AddStep(g, dst, c, args, kind, []), NodeOf(dst, args, kind);
      && g'.nodes == g.nodes[dst.id := n] && g'.roots == g.roots
      && g'.edges == g.edges[c := [dst.id] + (if c in g.edges then g.edges[c] else [])]
      && g'.summaries == g.summaries[dst.id := [Extend(s, n)]]
  {
    var n := NodeOf(dst, args, kind);
    var ss := ExtendedSummaries(g, c, n);
    assert ss == [Extend(s, n)] && [] + ss == ss;
  }

  lemma LinkGraph()
    ensures BuildGraph([BINARY, LINK]) == ClosureGraph(
      map[1 := BINARY_NODE, 2 := LINK_NODE], map[1 := [BINARY_SUMMARY], 2 := [LINK_SUMMARY]], map[1 := [2]], [1])
  {
    BinaryGraph();
    BuildAppend([BINARY], LINK);
    assert [BINARY] + [LINK] == [BINARY, LINK] && [2] + [] == [2];
    StepGraph(BuildGraph([BINARY]), LINK.dst, 1, [WORD], KPartial, BINARY_SUMMARY);
    assert NodeOf(LINK.dst, [WORD], KPartial) == LINK_NODE;
    assert Extend(BINARY_SUMMARY, LINK_NODE) == LINK_SUMMARY by {
      assert [2] + [1] == [2, 1];
    }
  }

  ghost predicate FirstApplied(g: ClosureGraph) {
    && g.nodes == map[1 := BINARY_NODE, 2 := LINK_NODE, 3 := LeafOf(3)]
    && g.summaries == map[1 := [BINARY_SUMMARY], 2 := [LINK_SUMMARY], 3 := [LeafSummaryOf(3)]]
    && g.edges == map[1 := [2], 2 := [3]] && g.roots == [1]
  }

  ghost predicate BothApplied(g: ClosureGraph) {
    && g.nodes == map[1 := BINARY_NODE, 2 := LINK_NODE, 3 := LeafOf(3), 4 := LeafOf(4)]
    && g.summaries ==
      map[1 := [BINARY_SUMMARY], 2 := [LINK_SUMMARY], 3 := [LeafSummaryOf(3)], 4 := [LeafSummaryOf(4)]]
    && g.edges == map[1 := [2], 2 := [4, 3]] && g.roots == [1]
  }

  ghost predicate IsLinkedGraph(g: ClosureGraph) {
    && g.nodes == map[1 := BINARY_NODE, 2 := LINK_NODE, 3 := LeafOf(3), 4 := LeafOf(4), 5 := LeafOf(5)]
    && g.summaries == map[1 := [BINARY_SUMMARY], 2 := [LINK_SUMMARY],
                          3 := [LeafSummaryOf(3)], 4 := [LeafSummaryOf(4)], 5 := [LeafSummaryOf(5)]]
    && g.edges == map[1 := [5, 2], 2 := [4, 3]] && g.roots == [1]
  }

  lemma FirstGraph()
    ensures FirstApplied(BuildGraph([BINARY, LINK, FIRST]))
  {
    LinkGraph();
    BuildAppend([BINARY, LINK], FIRST);
    assert [BINARY, LINK] + [FIRST] == [BINARY, LINK, FIRST] && [3] + [] == [3];
    StepGraph(BuildGraph([BINARY, LINK]), FIRST.dst, 2, [WORD], KApply, LINK_SUMMARY);
    assert NodeOf(FIRST.dst, [WORD], KApply) == LeafOf(3) && [3] + [2, 1] == [3, 2, 1];
  }

  lemma SecondGraph()
    ensures BothApplied(BuildGraph([BINARY, LINK, FIRST, SECOND]))
  {
    FirstGraph();
    BuildAppend([BINARY, LINK, FIRST], SECOND);
    assert [BINARY, LINK, FIRST] + [SECOND] == [BINARY, LINK, FIRST, SECOND] && [4] + [3] == [4, 3];
    StepGraph(BuildGraph([BINARY, LINK, FIRST]), SECOND.dst, 2, [WORD], KApply, LINK_SUMMARY);
    assert NodeOf(SECOND.dst, [WORD], KApply) == LeafOf(4) && [4] + [2, 1] == [4, 2, 1];
  }

  lemma LinkedGraph()
    ensures IsLinkedGraph(BuildGraph(LINKED))
  {
    SecondGraph();
    BuildAppend([BINARY, LINK, FIRST, SECOND], DIRECT);
    assert [BINARY, LINK, FIRST, SECOND] + [DIRECT] == LINKED;
    DirectGraph(BuildGraph([BINARY, LINK, FIRST, SECOND]));
  }

  lemma DirectGraph(g: ClosureGraph)
    requires BothApplied(g)
    ensures IsLinkedGraph(Process(g, DIRECT))
  {
    StepGraph(g, DIRECT.dst, 1, [WORD, WORD], KApply, BINARY_SUMMARY);
    assert [5] + [2] == [5, 2] && [5] + [1] == [5, 1] && NodeOf(DIRECT.dst, [WORD, WORD], KApply) == LeafOf(5);
  }

  lemma LinkedIsOrdered()
    ensures WellOrdered(LINKED)
  {
  }

  // ----- its specialisations -----

  ghost predicate IsLinked(m: Module) {
    && Analysed(m) && ReturnsAnalysed(m, {}) && IsLinkedGraph(m.graph) && m.leaves == LEAVES && m.available == map[]
    && OnlyRoot(m.stmts)
  }

  lemma LinkedLeaves(g: ClosureGraph)
    requires IsLinkedGraph(g)
    ensures AreLeaves(g, LEAVES)
  {
  }

  lemma LinkedRoot()
    ensures OnlyRoot(LINKED)
  {
  }

  lemma LinkedModule() returns (m: Module)
    ensures m.stmts == LINKED && IsLinked(m)
  {
    LinkedIsOrdered();
    LinkedGraph();
    LinkedLeaves(BuildGraph(LINKED));
    LinkedRoot();
    m := AnalysedModule(LINKED, LEAVES, {}, map[]);
  }

  predicate TwoWords(x: Specialisation) {
    x.fn == "f" && x.args == [WORD, WORD] && x.ret == FLOAT
  }

  lemma ReversedThree(a: int, b: int, c: int)
    ensures Reversed([c, b, a]) == [a, b, c]
  {
    ReversedTwo(a, b);
    assert [c, b, a][1..] == [b, a] && [a, b] + [c] == [a, b, c];
  }

  lemma ReversedTwo(a: int, b: int)
    ensures Reversed([b, a]) == [a, b]
  {
    assert [b, a][1..] == [a] && [a][1..] == [];
    assert Reversed([a]) == [] + [a] && [a] + [b] == [a, b];
  }

  lemma ArgsOfTwo(g: ClosureGraph, b: int, c: int, x: seq<Ty>, y: seq<Ty>)
    requires b in g.nodes && c in g.nodes && g.nodes[b].args == x && g.nodes[c].args == y
    ensures ArgsAlong(g, [b, c]) == x + y
  {
    assert [b, c][1..] == [c] && [c][1..] == [];
    assert ArgsAlong(g, [c]) == y + [];
  }

  lemma ArgsOfThree(g: ClosureGraph, a: int, b: int, c: int, x: seq<Ty>, y: seq<Ty>)
    requires {a, b, c} <= g.nodes.Keys
    requires g.nodes[a].args == [] && g.nodes[b].args == x && g.nodes[c].args == y
    ensures ArgsAlong(g, [a, b, c]) == x + y
  {
    assert [a, b, c][1..] == [b, c];
    ArgsOfTwo(g, b, c, x, y);
  }

  lemma LinkedArgs(g: ClosureGraph, off: Offsets, d: int)
    requires {1, 2, d} <= g.nodes.Keys && g.nodes[1].args == [] && g.nodes[2].args == [WORD]
    requires d != 5 && g.nodes[d].args == [WORD]
    ensures TwoWords(SpecialisationOf(g, off, LeafSummaryOf(d)))
  {
    ReversedThree(1, 2, d);
    ArgsOfThree(g, 1, 2, d, [WORD], [WORD]);
    assert [WORD] + [WORD] + [] == [WORD, WORD];
  }

  lemma DirectArgs(g: ClosureGraph, off: Offsets)
    requires {1, 5} <= g.nodes.Keys && g.nodes[1].args == [] && g.nodes[5].args == [WORD, WORD]
    ensures TwoWords(SpecialisationOf(g, off, LeafSummaryOf(5)))
  {
    ReversedTwo(1, 5);
    ArgsOfTwo(g, 1, 5, [], [WORD, WORD]);
    assert [] + [WORD, WORD] + [] == [WORD, WORD];
  }

  lemma OneLeaf(g: ClosureGraph, off: Offsets, d: int, acc: seq<Specialisation>)
    requires IsLinkedGraph(g) && d in {3, 4, 5}
    ensures CollectSummaries(g, off, 1, g.summaries[d], acc) == [SpecialisationOf(g, off, LeafSummaryOf(d))] + acc
  {
    assert [LeafSummaryOf(d)][1..] == [];
  }

  /** Three specialisations, which differ in their tags alone. */
  lemma LinkedSpecs(g: ClosureGraph, off: Offsets)
    requires IsLinkedGraph(g)
    ensures var xs := CollectLeaves(g, off, 1, LEAVES, []); |xs| == 3 && forall x :: x in xs ==> TwoWords(x)
  {
    var x3, x4 := SpecialisationOf(g, off, LeafSummaryOf(3)), SpecialisationOf(g, off, LeafSummaryOf(4));
    var x5 := SpecialisationOf(g, off, LeafSummaryOf(5));
    LinkedArgs(g, off, 3);
    LinkedArgs(g, off, 4);
    DirectArgs(g, off);
    OneLeaf(g, off, 3, []);
    OneLeaf(g, off, 4, [x3]);
    OneLeaf(g, off, 5, [x4, x3]);
    assert [3, 4, 5][1..] == [4, 5] && [4, 5][1..] == [5] && [5][1..] == [];
    assert [x3] + [] == [x3] && [x4] + [x3] == [x4, x3] && [x5] + [x4, x3] == [x5, x4, x3];
    assert CollectLeaves(g, off, 1, [5], [x4, x3]) == [x5, x4, x3];
    assert CollectLeaves(g, off, 1, [4, 5], [x3]) == [x5, x4, x3];
  }

  // ----- what its closures return -----

  lemma LeafRoots(m: Module, d: int, s: Summary)
    requires IsLinkedGraph(m.graph) && m.leaves == LEAVES && LeafSummary(m, d, s)
    ensures s.root == FromMake("f", 1)
  {
  }

  lemma AgreeingRoot(m: Module)
    requires forall x :: x in Specs(m, 1) ==> TwoWords(x)
    ensures !GenericRoot(m, {}, FromMake("f", 1))
  {
    var xs := Specs(m, 1);
    forall i | 0 < i < |xs| ensures xs[i].ret == xs[0].ret {
      assert TwoWords(xs[i]) && TwoWords(xs[0]);
    }
  }

  lemma NothingGeneric(m: Module)
    requires IsLinked(m)
    ensures m.generic == {}
  {
    LinkedSpecs(m.graph, m.offsets);
    AgreeingRoot(m);
    forall n ensures !OnGenericPath(m, {}, n) {
      forall d, s | LeafSummary(m, d, s) ensures s.root == FromMake("f", 1) {
        LeafRoots(m, d, s);
      }
    }
    forall n ensures n !in m.generic {
      assert !OnGenericPath(m, {}, n);
    }
  }

  /** Two paths lead through the link to leaves. */
  lemma TwoThroughLink(g: ClosureGraph)
    requires {3, 4, 5} <= g.summaries.Keys
    requires forall d :: d in {3, 4, 5} ==> g.summaries[d] == [LeafSummaryOf(d)]
    ensures LeafCount(g, LEAVES, 2) == 2
  {
    assert [3, 4, 5][1..] == [4, 5] && [4, 5][1..] == [5] && [5][1..] == [];
    assert [3, 2, 1][1] == 2 && [4, 2, 1][1] == 2 && 2 !in [5, 1];
    OneThrough(LeafSummaryOf(3));
    OneThrough(LeafSummaryOf(4));
    OneThrough(LeafSummaryOf(5));
    assert LeafCount(g, [5], 2) == 0 && LeafCount(g, [4, 5], 2) == 1;
  }

  lemma OneThrough(s: Summary)
    ensures Through([s], 2) == if 2 in s.nodes then 1 else 0
  {
    assert [s][1..] == [];
  }

  lemma LinkedSteps(g: ClosureGraph)
    requires IsLinkedGraph(g)
    ensures 2 in Children(Dispatch(g), 1) && 3 in Children(Dispatch(g), 2) && Children(Dispatch(g), 3) == []
    ensures 1 in g.roots
  {
    assert Children(Dispatch(g), 1) == [5, 2] && Children(Dispatch(g), 2) == [4, 3];
    assert [5, 2][1] == 2 && [4, 3][1] == 3 && [1][0] == 1;
  }

  lemma LinkedPath(m: Module)
    requires IsLinked(m)
    ensures Whole(m, [1, 2, 3])
  {
    LinkedSteps(m.graph);
    TwoStepLeafPath(Dispatch(m.graph), 1, 2, 3);
  }

  /** The root returns floats and the link words. */
  lemma LinkedRets(m: Module)
    requires IsLinked(m)
    ensures RetOf(m, 1) == Scalar("f64") && RetOf(m, 2) == I64
  {
    NothingGeneric(m);
    LinkedSpecs(m.graph, m.offsets);
    RootCount(m, 1);
    LinkedPath(m);
    RetOnPath(m, {}, [1, 2, 3], 0);
    LinkRet(m);
  }

  lemma LinkRet(m: Module)
    requires IsLinked(m)
    ensures RetOf(m, 2) == I64
  {
    LinkIsEven(m);
    LinkedPath(m);
    RetOnPath(m, {}, [1, 2, 3], 1);
  }

  lemma LinkIsEven(m: Module)
    requires IsLinked(m)
    ensures LeafCount(m.graph, m.leaves, 2) == 2
  {
    LinkedSpecs(m.graph, m.offsets);
    TwoThroughLink(m.graph);
  }

  // ----- an application of its link -----

  function LinkedHeap(m: Module): Heap
    requires Specs(m, 1) != []
  {
    map[10 := RootFields(m, 1, []), 11 := LinkFields(m, 1, LINK_NODE, 10, [SEVEN])]
  }

  const LINKED_CHAIN := Chain([1, 2], [[], [SEVEN]], [10, 11])

  lemma LinkedChainOk(m: Module)
    requires m.graph.roots == [1] && {1, 2} <= m.graph.nodes.Keys && Specs(m, 1) != []
    requires m.graph.nodes[1] == BINARY_NODE && m.graph.nodes[2] == LINK_NODE && 2 in Children(Dispatch(m.graph), 1)
    ensures ChainOk(m, LinkedHeap(m), LINKED_CHAIN)
  {
    assert [1][0] == 1;
    assert LinkOk(m, LinkedHeap(m), LINKED_CHAIN, 1);
  }

  lemma LinkedApplies(m: Module)
    requires IsLinked(m)
    ensures Specs(m, 1) != [] && ApplyOk(m, LinkedHeap(m), LINKED_CHAIN, 3, [SEVEN])
    ensures IsLeaf(m.graph, 3) && m.graph.nodes[3] == LeafOf(3)
  {
    LinkedSpecs(m.graph, m.offsets);
    LinkedSteps(m.graph);
    LinkedChainOk(m);
  }

  /** The application asks for a float, and the link returns a word. */
  lemma LinkDisagrees(m: Module)
    requires m.generic == {} && 3 in m.graph.nodes && m.graph.nodes[3] == LeafOf(3) && RetOf(m, 2) == I64
    requires !IsMove(m, 2)
    ensures !SiteAgrees(m, [1, 2], 3)
  {
    FloatRepr();
    assert SiteTy(m, 2, 3) == Scalar("f64");
    assert !Agrees(m, [1, 2], 1, Scalar("f64"));
  }

  lemma FloatRepr()
    ensures LowerTy(FLOAT) == Scalar("f64") != VOID && Repr(Scalar("f64")) == Scalar("f64")
  {
    assert "f64"[0] != "i64"[0] && "f64"[0] != "u64"[0] && "f64"[0] != "v"[0];
    assert "f64"[0] != "char"[0] && "u32"[0] != "f"[0] && "u16"[0] != "f"[0] && "u8"[0] != "f"[0];
  }

  lemma RootsAlone(m: Module, r: int, x: Specialisation)
    requires OnlyRoot(m.stmts) && (r, x) in AllSpecs(m, m.stmts)
    ensures r == 1 && x in Specs(m, 1)
  {
    AllSpecsOnly(m, m.stmts, (r, x));
  }

  lemma LinkedCallsOwn(m: Module, x: Specialisation)
    requires IsLinked(m) && x in Specs(m, 1)
    ensures (1, x) in AllSpecs(m, m.stmts) && CallsOwn(m, 1, x)
  {
    LinkedSpecs(m.graph, m.offsets);
    var i := NodeStmt(m.stmts, 1);
    AllSpecsHas(m, m.stmts, i, x);
    TwoWordsCallOwn(m, x);
  }

  lemma TwoWordsCallOwn(m: Module, x: Specialisation)
    requires OnlyRoot(m.stmts) && m.available == map[] && (1, x) in AllSpecs(m, m.stmts)
    requires TwoWords(x) && forall y :: y in Specs(m, 1) ==> TwoWords(y)
    ensures CallsOwn(m, 1, x)
  {
    OwnerSharesName(m, 1, x);
    var y := Owner(m, 1, x).value;
    assert y == (y.0, y.1);
    RootsAlone(m, y.0, y.1);
  }

  lemma NoReferences()
    ensures forall i {:trigger LowerTys([WORD, WORD])[i]} :: 0 <= i < 2 ==> LowerTys([WORD, WORD])[i] == I64
  {
  }

  lemma LinkedFits(m: Module, x: Specialisation)
    requires Analysed(m) && 1 in m.graph.roots && x in Specs(m, 1) && x.args == [WORD, WORD]
    requires CalledWrapper(m, 1, x) == GeneratedWrapper(m, 1, x) && Owner(m, 1, x).Some?
    ensures WrapperFits(m, CalledWrapper(m, 1, x), PassedOn(m, 1, [SEVEN, SEVEN]))
  {
    NoReferences();
    StoredAlike(m, 1, Owner(m, 1, x).value.0, LowerTys(x.args));
    WrapperFitsIff(m, 1, x, [SEVEN, SEVEN]);
  }

  lemma StoredAlike(m: Module, r: int, r': int, tys: seq<OTy>)
    requires forall i :: 0 <= i < |tys| ==> tys[i] == I64
    ensures StoreAlike(m, r, r', tys)
  {
  }

  /** The wrapper is generated under the name it is called by, and calls the function that is meant. */
  lemma LinkedServes(m: Module, x: Specialisation, id: int)
    requires IsLinked(m) && x in Specs(m, 1) && Choose(Specs(m, 1), id) == Some(x)
    ensures |x.args| == 2 && Serves(m, 1, id, x, [SEVEN, SEVEN])
  {
    LinkedSpecs(m.graph, m.offsets);
    LinkedRets(m);
    FloatRepr();
    WrapperNamesIff(m, 1, x);
    LinkedCallsOwn(m, x);
    LinkedFits(m, x);
    OwnWrapperServes(m, 1, id, x, [SEVEN, SEVEN]);
  }

  lemma LinkedChoice(m: Module)
    requires IsLinked(m)
    ensures ServesItsPath(m)
  {
    LinkedChooses(m);
    LinkedServes(m, PathSpec(m, [1, 2, 3]), RunId(m, [1, 2, 3]));
  }

  lemma LinkedChooses(m: Module)
    requires IsLinked(m)
    ensures FromClosure(m, 1) && 3 in m.graph.nodes && PathSpec(m, [1, 2, 3]) in Specs(m, 1)
    ensures Choose(Specs(m, 1), RunId(m, [1, 2, 3])) == Some(PathSpec(m, [1, 2, 3]))
  {
    LinkedApplies(m);
    NoMoves(m);
    ChoosesWithoutMoves(m, LinkedHeap(m));
  }

  lemma ChoosesWithoutMoves(m: Module, h: Heap)
    requires Analysed(m) && ApplyOk(m, h, LINKED_CHAIN, 3, [SEVEN]) && IsLeaf(m.graph, 3)
    requires MoveWeight(m, [1, 2, 3]) == 0
    ensures FromClosure(m, 1) && PathSpec(m, [1, 2, 3]) in Specs(m, 1)
    ensures Choose(Specs(m, 1), RunId(m, [1, 2, 3])) == Some(PathSpec(m, [1, 2, 3]))
  {
    assert LINKED_CHAIN.path + [3] == [1, 2, 3];
    PathIsSpecialised(m, h, LINKED_CHAIN, 3, [SEVEN]);
    ChoosesPathIff(m, h, LINKED_CHAIN, 3, [SEVEN]);
  }

  /** The id of the path through the link leads to a wrapper that calls the path's function. */
  ghost predicate ServesItsPath(m: Module) {
    && FromClosure(m, 1) && 3 in m.graph.nodes && |PathSpec(m, [1, 2, 3]).args| == 2
    && Serves(m, 1, RunId(m, [1, 2, 3]), PathSpec(m, [1, 2, 3]), [SEVEN, SEVEN])
  }

  lemma NoMoves(m: Module)
    requires IsLinkedGraph(m.graph)
    ensures MoveWeight(m, [1, 2, 3]) == 0
  {
    assert [1, 2, 3][..2] == [1, 2] && [1, 2][..1] == [1];
    assert !IsMove(m, 2) && !IsMove(m, 3);
    assert MoveWeight(m, [1, 2]) == 0;
  }

  /** Everything about names, callees and arguments is right, but the application of the link has no meaning: two
      paths lead through the link and three from the root, so only the root knows that floats are returned. */
  lemma LinkReturnsWord(ext: Callees, more: nat) returns (m: Module)
    ensures m.stmts == LINKED && Analysed(m) && ReturnsAnalysed(m, {})
    ensures RetOf(m, 1) == Scalar("f64") && RetOf(m, 2) == I64
    ensures HasTrampolines(m, Lower(m, m.stmts)) && NodeIds(m.graph)
    ensures ServesItsPath(m) && Specs(m, 1) != [] && ApplyOk(m, LinkedHeap(m), LINKED_CHAIN, 3, [SEVEN])
    ensures Applied(m, Lower(m, m.stmts), LinkedHeap(m), ext, more, LINKED_CHAIN, 3, [SEVEN]) == None
  {
    m := LinkedModule();
    LoweringHasTrampolines(m);
    LinkedRets(m);
    LinkedChoice(m);
    LinkIsStuck(m, Lower(m, m.stmts), ext, more);
  }

  lemma LinkIsStuck(m: Module, p: Program, ext: Callees, more: nat)
    requires IsLinked(m) && HasTrampolines(m, p) && NodeIds(m.graph)
    ensures Specs(m, 1) != [] && ApplyOk(m, LinkedHeap(m), LINKED_CHAIN, 3, [SEVEN])
    ensures Applied(m, p, LinkedHeap(m), ext, more, LINKED_CHAIN, 3, [SEVEN]) == None
  {
    LinkedApplies(m);
    LinkedRets(m);
    NothingGeneric(m);
    LinkDisagrees(m);
  }
}
