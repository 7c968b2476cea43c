/** Two closures of one function that have stored different arguments share a wrapper. */
module StoredExamples {
  import opened Graphs
  import opened DispatchIds
  import opened ClosureGraph
  import opened Oir
  import opened Options
  import opened ClosureDispatch
  import opened Application
  import opened ReturnTypes
  import opened ApplicationExamples
  import opened DispatchExamples
  import opened LinkExamples

  const BOX := Base("box", true)
  const STORING := MakeClosure(Var(1, Arrow([WORD], WORD)), "f", [], [BOX])
  const BARE := MakeClosure(Var(2, Arrow([BOX, WORD], WORD)), "f", [], [])
  const ON_ONE := Apply(Var(3, WORD), 1, [WORD])
  const ON_BOTH := Apply(Var(4, WORD), 2, [BOX, WORD])

  /** A function of a reference and a word: one closure has captured the reference, the other is given both. */
  const SHARED := [STORING, BARE, ON_ONE, ON_BOTH]

  const STORING_NODE := Node(1, [BOX], [WORD], WORD, KMake)
  const BARE_NODE := Node(2, [], [BOX, WORD], WORD, KMake)
  const STORING_SUMMARY := Summary(FromMake("f", 1), [1], [WORD], WORD, 0)
  const BARE_SUMMARY := Summary(FromMake("f", 2), [2], [BOX, WORD], WORD, 0)
  const ONE_SUMMARY := Summary(FromMake("f", 1), [3, 1], [], WORD, 0)
  const BOTH_SUMMARY := Summary(FromMake("f", 2), [4, 2], [], WORD, 0)

  // ----- its graph -----

  lemma ClosuresGraph()
    ensures BuildGraph([STORING, BARE])
         == ClosureGraph(map[1 := STORING_NODE, 2 := BARE_NODE],
                         map[1 := [STORING_SUMMARY], 2 := [BARE_SUMMARY]], map[], [1, 2])
  {
    BuildAppend([], STORING);
    BuildAppend([STORING], BARE);
    assert [] + [STORING] == [STORING] && [STORING] + [BARE] == [STORING, BARE];
    assert [] + [1] == [1] && [1] + [2] == [1, 2];
    var none: seq<Ty> := [];
    assert none + none == none && none + [BOX] == [BOX];
    assert NodeOf(STORING.dst, none + [BOX], KMake) == STORING_NODE;
    assert NodeOf(BARE.dst, none + none, KMake) == BARE_NODE;
  }

  ghost predicate IsSharedGraph(g: ClosureGraph) {
    && g.nodes == map[1 := STORING_NODE, 2 := BARE_NODE,
                      3 := Node(3, [WORD], [], WORD, KApply), 4 := Node(4, [BOX, WORD], [], WORD, KApply)]
    && g.summaries == map[1 := [STORING_SUMMARY], 2 := [BARE_SUMMARY], 3 := [ONE_SUMMARY], 4 := [BOTH_SUMMARY]]
    && g.edges == map[1 := [3], 2 := [4]] && g.roots == [1, 2]
  }

  lemma SharedGraph()
    ensures IsSharedGraph(BuildGraph(SHARED))
  {
    ClosuresGraph();
    var g := BuildGraph([STORING, BARE]);
    BuildAppend([STORING, BARE], ON_ONE);
    BuildAppend([STORING, BARE, ON_ONE], ON_BOTH);
    assert [STORING, BARE] + [ON_ONE] == [STORING, BARE, ON_ONE] && [STORING, BARE, ON_ONE] + [ON_BOTH] == SHARED;
    StepGraph(g, ON_ONE.dst, 1, [WORD], KApply, STORING_SUMMARY);
    StepGraph(Process(g, ON_ONE), ON_BOTH.dst, 2, [BOX, WORD], KApply, BARE_SUMMARY);
    assert [3] + [] == [3] && [4] + [] == [4] && [3] + [1] == [3, 1] && [4] + [2] == [4, 2];
  }

  lemma SharedIsOrdered()
    ensures WellOrdered(SHARED)
  {
  }

  lemma SharedLeaves(g: ClosureGraph)
    requires IsSharedGraph(g)
    ensures AreLeaves(g, [3, 4])
  {
  }

  lemma SharedModule() returns (m: Module)
    ensures m.stmts == SHARED && Analysed(m) && ReturnsAnalysed(m, {}) && IsSharedGraph(m.graph) && m.leaves == [3, 4]
    ensures m.available == map[]
  {
    SharedIsOrdered();
    SharedGraph();
    SharedLeaves(BuildGraph(SHARED));
    m := AnalysedModule(SHARED, [3, 4], {}, map[]);
  }

  // ----- its specialisations -----

  predicate BoxAndWord(x: Specialisation) {
    x.fn == "f" && x.args == [BOX, WORD] && x.ret == WORD
  }

  /** A summary of two nodes stands for the function on both nodes' arguments. */
  lemma TwoNodes(g: ClosureGraph, off: Offsets, a: int, b: int, s: Summary)
    requires a in g.nodes && b in g.nodes && g.nodes[a].args + g.nodes[b].args == [BOX, WORD]
    requires s == Summary(FromMake("f", a), [b, a], [], WORD, 0)
    ensures BoxAndWord(SpecialisationOf(g, off, s))
  {
    ReversedTwo(a, b);
    ArgsOfTwo(g, a, b, g.nodes[a].args, g.nodes[b].args);
    assert [BOX, WORD] + [] == [BOX, WORD];
  }

  lemma SharedSpecs(g: ClosureGraph, off: Offsets)
    requires IsSharedGraph(g)
    ensures var xs := CollectLeaves(g, off, 1, [3, 4], []); |xs| == 1 && BoxAndWord(xs[0])
    ensures var xs := CollectLeaves(g, off, 2, [3, 4], []); |xs| == 1 && BoxAndWord(xs[0])
  {
    assert [BOX] + [WORD] == [BOX, WORD] && [] + [BOX, WORD] == [BOX, WORD];
    TwoNodes(g, off, 1, 3, ONE_SUMMARY);
    TwoNodes(g, off, 2, 4, BOTH_SUMMARY);
    var x1, x2 := SpecialisationOf(g, off, ONE_SUMMARY), SpecialisationOf(g, off, BOTH_SUMMARY);
    assert [ONE_SUMMARY][1..] == [] && [BOTH_SUMMARY][1..] == [] && [3, 4][1..] == [4] && [4][1..] == [];
    assert CollectSummaries(g, off, 1, [ONE_SUMMARY], []) == [x1] + [] == [x1];
    assert CollectSummaries(g, off, 1, [BOTH_SUMMARY], [x1]) == [x1];
    assert CollectSummaries(g, off, 2, [ONE_SUMMARY], []) == [];
    assert CollectSummaries(g, off, 2, [BOTH_SUMMARY], []) == [x2] + [] == [x2];
    assert CollectLeaves(g, off, 1, [4], [x1]) == [x1] && CollectLeaves(g, off, 2, [4], []) == [x2];
  }

  lemma RootReturnsWord(m: Module, r: int)
    requires Analysed(m) && ReturnsAnalysed(m, {}) && r in m.graph.roots
    requires |Specs(m, r)| == 1 && BoxAndWord(Specs(m, r)[0])
    ensures RetOf(m, r) == I64
  {
    forall x | x in Specs(m, r) ensures x.ret == WORD {
      assert x == Specs(m, r)[0];
    }
    RootRetIff(m, r, WORD);
  }

  // ----- its wrapper -----

  function SharedWrapper(): FnName {
    Wrapper("f", LowerTys([BOX, WORD]), I64, None)
  }

  lemma OneName(m: Module, r: int, x: Specialisation)
    requires BoxAndWord(x) && RetOf(m, r) == I64
    ensures CalledWrapper(m, r, x) == GeneratedWrapper(m, r, x) == SharedWrapper()
  {
  }

  lemma SharedOrder(m: Module)
    requires m.stmts == SHARED && 1 in m.graph.nodes && 2 in m.graph.nodes
    requires |Specs(m, 1)| == 1 && |Specs(m, 2)| == 1
    ensures AllSpecs(m, m.stmts) == [(1, Specs(m, 1)[0]), (2, Specs(m, 2)[0])]
  {
    var x1, x2 := Specs(m, 1)[0], Specs(m, 2)[0];
    assert SHARED[..3] == [STORING, BARE, ON_ONE] && [STORING, BARE, ON_ONE][..2] == [STORING, BARE];
    assert [STORING, BARE][..1] == [STORING] && [STORING][..0] == [];
    assert Specs(m, 1)[1..] == [] && Specs(m, 2)[1..] == [];
    assert RootSpecs(1, Specs(m, 1)) == [(1, x1)] + [] && RootSpecs(2, Specs(m, 2)) == [(2, x2)] + [];
    assert AllSpecs(m, [STORING]) == [] + [(1, x1)];
    assert AllSpecs(m, [STORING, BARE]) == [(1, x1)] + [(2, x2)];
    assert AllSpecs(m, [STORING, BARE, ON_ONE]) == AllSpecs(m, [STORING, BARE]) + [];
  }

  /** The first closure's wrapper takes a reference where the second passes on a carried word. */
  lemma BareDoesNotFit(m: Module, x: Specialisation, box: int, word: int)
    requires Analysed(m) && 2 in m.graph.roots && x in Specs(m, 2) && BoxAndWord(x)
    requires CalledWrapper(m, 2, x) == SharedWrapper() && |StoredTys(m, 1)| == 1 && StoredTys(m, 2) == []
    requires var z := FirstWith(m, AllSpecs(m, m.stmts), SharedWrapper()); z.Some? && z.value.0 == 1
    ensures !WrapperFits(m, SharedWrapper(), PassedOn(m, 2, [Word(ObjPtr, box), Word(I64, word)]))
  {
    var vals := [Word(ObjPtr, box), Word(I64, word)];
    WrapperFitsIff(m, 2, x, vals);
    StoredDiffers(m);
  }

  lemma StoredDiffers(m: Module)
    requires |StoredTys(m, 1)| == 1 && StoredTys(m, 2) == []
    ensures !StoreAlike(m, 2, 1, SharedWrapper().params)
  {
    assert IsRef(SharedWrapper().params[0]);
  }

  /** Both closures' wrapper is generated under the name they call, and calls their function; yet the application
      of the second closure has no meaning. */
  lemma StoredElsewhereIsStuck(ext: Callees, id: int, box: int, word: int) returns (m: Module)
    ensures m.stmts == SHARED && Analysed(m) && ReturnsAnalysed(m, {}) && m.available == map[]
    ensures |Specs(m, 1)| == 1 && |Specs(m, 2)| == 1
    ensures var x := Specs(m, 2)[0];
      CalledWrapper(m, 2, x) == GeneratedWrapper(m, 2, x) && CallsOwn(m, 2, x) && |x.args| == 2
    ensures Outcome(m, ext, 2, id, [Word(ObjPtr, box), Word(I64, word)]) == None
  {
    m := SharedModule();
    SharedSpecs(m.graph, m.offsets);
    SharedRoots(m.graph);
    RootReturnsWord(m, 1);
    RootReturnsWord(m, 2);
    OneName(m, 1, Specs(m, 1)[0]);
    OneName(m, 2, Specs(m, 2)[0]);
    SharedOrder(m);
    BareDoesNotFit(m, Specs(m, 2)[0], box, word);
  }

  lemma SharedRoots(g: ClosureGraph)
    requires IsSharedGraph(g)
    ensures 1 in g.roots && 2 in g.roots
  {
    assert [1, 2][0] == 1 && [1, 2][1] == 2;
  }
}
