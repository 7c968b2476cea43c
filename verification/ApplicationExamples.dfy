/** Concrete modules whose applications do not mean what they should. */
module ApplicationExamples {
  import opened Graphs
  import opened DispatchIds
  import opened ClosureGraph
  import opened Oir
  import opened Options
  import opened Trampolines
  import opened ClosureDispatch
  import opened Application
  import opened ReturnTypes

  const WORD := Base("i64", false)
  const FLOAT := Base("f64", false)
  const GENERIC := Base("'a", false)
  const UNARY := Arrow([GENERIC], GENERIC)
  const MADE := MakeClosure(Var(1, UNARY), "f", [], [])

  lemma BuildAppend(t: seq<Stmt>, s: Stmt)
    ensures BuildGraph(t + [s]) == Process(BuildGraph(t), s)
  {
    assert (t + [s])[..|t|] == t;
  }

  const MADE_NODE := Node(1, [], [GENERIC], GENERIC, KMake)
  const MADE_SUMMARY := Summary(FromMake("f", 1), [1], [GENERIC], GENERIC, 0)

  lemma MadeGraph()
    ensures var g := BuildGraph([MADE]);
      && g.nodes == map[1 := MADE_NODE] && g.edges == map[] && g.roots == [1]
      && g.summaries == map[1 := [MADE_SUMMARY]]
  {
    BuildAppend([], MADE);
    assert [] + [MADE] == [MADE] && [] + [1] == [1];
    var none: seq<Ty> := [];
    assert none + none == none;
    assert NodeOf(MADE.dst, none + none, KMake) == MADE_NODE;
  }

  // ----- a move that misdirects -----

  const MOVED := Move(Var(2, UNARY), 1)
  const MOVED_AGAIN := Move(Var(3, UNARY), 1)
  const ON_WORD := Apply(Var(4, WORD), 2, [WORD])
  const ON_FLOAT := Apply(Var(5, FLOAT), 3, [FLOAT])

  /** One closure moved into two variables; each is applied, to arguments of different types. */
  const MOVED_TWICE := [MADE, MOVED, MOVED_AGAIN, ON_WORD, ON_FLOAT]

  lemma MovesGraph(g: ClosureGraph)
    requires g.nodes == map[1 := MADE_NODE] && g.edges == map[] && g.roots == [1] && 1 in g.summaries
    ensures var g' := Process(Process(g, MOVED), MOVED_AGAIN);
      && g'.edges == map[1 := [3, 2]] && g'.roots == [1] && 1 in g'.summaries && g'.summaries[1] == g.summaries[1]
      && g'.nodes == map[1 := MADE_NODE, 2 := Node(2, [], [GENERIC], GENERIC, KMove),
                         3 := Node(3, [], [GENERIC], GENERIC, KMove)]
  {
    var g2 := Process(g, MOVED);
    assert [2] + [] == [2] && [3] + [2] == [3, 2];
    assert g2.edges[1] == [2] && g2.edges == map[1 := [2]];
    assert Process(g2, MOVED_AGAIN).edges[1] == [3, 2];
  }

  lemma AppliesGraph(g: ClosureGraph)
    requires g.edges == map[1 := [3, 2]] && g.roots == [1] && 1 in g.summaries
    requires g.nodes == map[1 := MADE_NODE, 2 := Node(2, [], [GENERIC], GENERIC, KMove),
                            3 := Node(3, [], [GENERIC], GENERIC, KMove)]
    ensures var g' := Process(Process(g, ON_WORD), ON_FLOAT);
      && g'.edges == map[1 := [3, 2], 2 := [4], 3 := [5]] && g'.roots == [1]
      && 1 in g'.summaries && g'.summaries[1] == g.summaries[1]
      && g'.nodes == map[1 := MADE_NODE, 2 := Node(2, [], [GENERIC], GENERIC, KMove),
                         3 := Node(3, [], [GENERIC], GENERIC, KMove),
                         4 := Node(4, [WORD], [], WORD, KApply), 5 := Node(5, [FLOAT], [], FLOAT, KApply)]
  {
    var g1 := Process(g, ON_WORD);
    assert [4] + [] == [4] && [5] + [] == [5];
    assert g1.edges[2] == [4] && g1.edges == map[1 := [3, 2], 2 := [4]];
    assert Process(g1, ON_FLOAT).edges[3] == [5];
  }

  ghost predicate IsMovedGraph(g: ClosureGraph) {
    && g.edges == map[1 := [3, 2], 2 := [4], 3 := [5]] && g.roots == [1]
    && 1 in g.summaries && g.summaries[1] == [MADE_SUMMARY]
    && g.nodes == map[1 := MADE_NODE, 2 := Node(2, [], [GENERIC], GENERIC, KMove),
                      3 := Node(3, [], [GENERIC], GENERIC, KMove),
                      4 := Node(4, [WORD], [], WORD, KApply), 5 := Node(5, [FLOAT], [], FLOAT, KApply)]
  }

  lemma MovedTwiceGraph()
    ensures IsMovedGraph(BuildGraph(MOVED_TWICE))
  {
    MadeGraph();
    BuildAppend([MADE], MOVED);
    BuildAppend([MADE, MOVED], MOVED_AGAIN);
    BuildAppend([MADE, MOVED, MOVED_AGAIN], ON_WORD);
    BuildAppend([MADE, MOVED, MOVED_AGAIN, ON_WORD], ON_FLOAT);
    assert [MADE] + [MOVED] == [MADE, MOVED];
    assert [MADE, MOVED] + [MOVED_AGAIN] == [MADE, MOVED, MOVED_AGAIN];
    assert [MADE, MOVED, MOVED_AGAIN] + [ON_WORD] == [MADE, MOVED, MOVED_AGAIN, ON_WORD];
    assert [MADE, MOVED, MOVED_AGAIN, ON_WORD] + [ON_FLOAT] == MOVED_TWICE;
    MovesGraph(BuildGraph([MADE]));
    AppliesGraph(BuildGraph([MADE, MOVED, MOVED_AGAIN]));
  }

  lemma MovedTwiceIsOrdered()
    ensures WellOrdered(MOVED_TWICE)
  {
  }

  /** The module's analysis, with nothing compiled beforehand. */
  ghost predicate IsMoved(m: Module) {
    Analysed(m) && IsMovedGraph(m.graph) && m.available == map[]
  }

  lemma MovedModule() returns (m: Module)
    ensures m.stmts == MOVED_TWICE && IsMoved(m) && ReturnsAnalysed(m, {})
  {
    MovedTwiceIsOrdered();
    MovedTwiceGraph();
    assert AreLeaves(BuildGraph(MOVED_TWICE), [4, 5]);
    m := AnalysedModule(MOVED_TWICE, [4, 5], {}, map[]);
  }

  lemma TwoStepLeafPath(g: DispatchGraph, a: int, b: int, c: int)
    requires b in Children(g, a) && c in Children(g, b) && Children(g, c) == []
    ensures LeafPath(g, [a, b, c], a)
  {
    assert [a, b, c][1..] == [b, c] && [b, c][1..] == [c];
    assert LeafPath(g, [c], c);
    assert LeafPath(g, [b, c], b);
  }

  lemma TwoStepRank(t: Offsets, a: int, b: int, c: int)
    ensures Rank(t, [a, b, c]) == EdgeWeight(t, a, b) + EdgeWeight(t, b, c)
  {
    assert [a, b, c][1..] == [b, c] && [b, c][1..] == [c];
    assert Rank(t, [b, c]) == EdgeWeight(t, b, c);
  }

  lemma TwoStepArgs(g: ClosureGraph, a: int, b: int, c: int, na: Node, nb: Node, nc: Node)
    requires a in g.nodes && b in g.nodes && c in g.nodes
    requires g.nodes[a] == na && g.nodes[b] == nb && g.nodes[c] == nc
    requires na.args == [] && nb.args == []
    ensures ArgsAlong(g, [a, b, c]) == nc.args
  {
    assert [a, b, c][1..] == [b, c] && [b, c][1..] == [c] && [c][1..] == [];
    assert ArgsAlong(g, [c]) == nc.args + [];
    assert ArgsAlong(g, [b, c]) == [] + nc.args;
  }

  /** The first of two different children has weight 0, and so has an only child. */
  lemma FirstChildIsFree(g: DispatchGraph, v: int, c: int)
    requires Acyclic(g) && Rooted(g, v)
    requires Children(g, v) == [c] || (|Children(g, v)| == 2 && Children(g, v)[0] == c && Children(g, v)[1] != c)
    ensures EdgeWeight(ComputeDispatchIds(g), v, c) == 0
  {
    var s := Children(g, v);
    assert s[0] == c && c in s;
    EdgeWeightExact(g, v, c);
    assert LastIndex(s, |s|, c) == 0;
  }

  lemma MovedWeights(g: DispatchGraph)
    requires Acyclic(g) && g.roots == [1] && g.edges == map[1 := [3, 2], 2 := [4], 3 := [5]]
    ensures var t := ComputeDispatchIds(g); EdgeWeight(t, 1, 3) == EdgeWeight(t, 3, 5) == EdgeWeight(t, 2, 4) == 0
  {
    assert Children(g, 1) == [3, 2] && Children(g, 2) == [4] && Children(g, 3) == [5];
    ReachesRefl(EdgesOf(g), 1);
    RootedChild(g, 1, 3);
    RootedChild(g, 1, 2);
    FirstChildIsFree(g, 1, 3);
    FirstChildIsFree(g, 3, 5);
    FirstChildIsFree(g, 2, 4);
  }

  lemma TwoStepRunId(m: Module, a: int, b: int, c: int)
    requires IsMove(m, b) && !IsMove(m, c)
    ensures RunId(m, [a, b, c]) == EdgeWeight(m.offsets, b, c)
  {
    assert [a, b, c][..2] == [a, b] && [a, b][..1] == [a];
    assert RunId(m, [a, b]) == RunId(m, [a]) == 0;
  }

  lemma MovedEdges(m: Module)
    requires IsMoved(m)
    ensures EdgeWeight(m.offsets, 1, 3) == EdgeWeight(m.offsets, 3, 5) == EdgeWeight(m.offsets, 2, 4) == 0
    ensures IsMove(m, 2) && !IsMove(m, 4)
  {
    OrderedIsAcyclic(m.stmts);
    MovedWeights(Dispatch(m.graph));
  }

  lemma MovedOffsets(m: Module)
    requires IsMoved(m)
    ensures Rank(m.offsets, [1, 3, 5]) == 0 && RunId(m, [1, 2, 4]) == 0
  {
    MovedEdges(m);
    TwoStepRank(m.offsets, 1, 3, 5);
    TwoStepRunId(m, 1, 2, 4);
  }

  /** The closure is moved to `b`, which is applied at `c`. */
  ghost predicate TwoSteps(g: ClosureGraph, b: int, c: int, t: Ty) {
    && 1 in g.roots && {1, b, c} <= g.nodes.Keys && 1 in g.summaries && g.summaries[1] == [MADE_SUMMARY]
    && b in Children(Dispatch(g), 1) && c in Children(Dispatch(g), b) && Children(Dispatch(g), c) == []
    && g.nodes[1].args == [] && g.nodes[b].args == [] && g.nodes[c] == Node(c, [t], [], t, KApply)
  }

  /** What an application stands for that is two steps from the closure. */
  lemma TwoStepSpec(m: Module, b: int, c: int, t: Ty)
    requires Analysed(m) && TwoSteps(m.graph, b, c, t)
    ensures FromClosure(m, 1)
    ensures PathSpec(m, [1, b, c]) == Specialisation("f", [t], t, Rank(m.offsets, [1, b, c]))
    ensures PathSpec(m, [1, b, c]) in Specs(m, 1)
  {
    var g := m.graph;
    TwoStepArgs(g, 1, b, c, g.nodes[1], g.nodes[b], g.nodes[c]);
    assert ArgsAlong(g, [1, b, c]) + [] == [t];
    TwoStepLeafPath(Dispatch(g), 1, b, c);
    LeafPathIsSpecialised(m, [1, b, c], 1);
  }

  lemma FirstPath(m: Module)
    requires IsMoved(m)
    ensures FromClosure(m, 1) && 4 in m.graph.nodes
    ensures PathSpec(m, [1, 2, 4]) == Specialisation("f", [WORD], WORD, Rank(m.offsets, [1, 2, 4]))
    ensures PathSpec(m, [1, 2, 4]) in Specs(m, 1)
  {
    MovedSteps(m.graph);
    TwoStepSpec(m, 2, 4, WORD);
  }

  lemma SecondPath(m: Module)
    requires IsMoved(m)
    ensures FromClosure(m, 1) && 5 in m.graph.nodes
    ensures PathSpec(m, [1, 3, 5]) == Specialisation("f", [FLOAT], FLOAT, 0)
    ensures PathSpec(m, [1, 3, 5]) in Specs(m, 1)
  {
    MovedSteps(m.graph);
    MovedOffsets(m);
    TwoStepSpec(m, 3, 5, FLOAT);
  }

  lemma MovedSteps(g: ClosureGraph)
    requires IsMovedGraph(g)
    ensures 2 in Children(Dispatch(g), 1) && 4 in Children(Dispatch(g), 2) && Children(Dispatch(g), 4) == []
    ensures 3 in Children(Dispatch(g), 1) && 5 in Children(Dispatch(g), 3) && Children(Dispatch(g), 5) == []
    ensures {1, 2, 3, 4, 5} <= g.nodes.Keys && TwoSteps(g, 2, 4, WORD) && TwoSteps(g, 3, 5, FLOAT)
  {
    assert Children(Dispatch(g), 1) == [3, 2] && Children(Dispatch(g), 2) == [4] && Children(Dispatch(g), 3) == [5];
    assert [3, 2][0] == 3 && [3, 2][1] == 2 && [4][0] == 4 && [5][0] == 5;
  }

  lemma ChoiceIsTagged(m: Module, r: int, x: Specialisation, y: Specialisation)
    requires Analysed(m) && r in m.graph.roots && x in Specs(m, r) && y in Specs(m, r) && x != y
    ensures Choose(Specs(m, r), y.tag) == Some(y)
  {
    var xs := Specs(m, r);
    ByTagPicks(xs, y.tag);
    var z := ByTag(xs, y.tag);
    TagsAreUnique(m.stmts, m.leaves, r, y, z.value);
  }

  /** The id that the application of variable 2 sums up leads to the path through variable 3. */
  lemma MovedChoice(m: Module)
    requires IsMoved(m)
    ensures FromClosure(m, 1) && 5 in m.graph.nodes
    ensures Choose(Specs(m, 1), RunId(m, [1, 2, 4])) == Some(PathSpec(m, [1, 3, 5]))
  {
    MovedOffsets(m);
    FirstPath(m);
    SecondPath(m);
    assert WORD != FLOAT && [WORD][0] != [FLOAT][0];
    ChoiceIsTagged(m, 1, PathSpec(m, [1, 2, 4]), PathSpec(m, [1, 3, 5]));
  }

  /** A heap in which the closure lives at address 10; the moves have copied the reference. */
  function MovedHeap(m: Module): Heap
    requires Specs(m, 1) != []
  {
    map[10 := RootFields(m, 1, [])]
  }

  const MOVED_CHAIN := Chain([1, 2], [[], []], [10, 10])
  const SEVEN := Word(I64, 7)

  lemma MovedChainOk(m: Module)
    requires m.graph.roots == [1] && 1 in m.graph.nodes && 2 in m.graph.nodes && Specs(m, 1) != []
    requires m.graph.nodes[1] == MADE_NODE && m.graph.nodes[2] == Node(2, [], [GENERIC], GENERIC, KMove)
    requires 2 in Children(Dispatch(m.graph), 1)
    ensures ChainOk(m, MovedHeap(m), MOVED_CHAIN)
  {
    assert [1][0] == 1;
    assert LinkOk(m, MovedHeap(m), MOVED_CHAIN, 1);
  }

  lemma MovedApplies(m: Module)
    requires IsMoved(m)
    ensures Specs(m, 1) != [] && ApplyOk(m, MovedHeap(m), MOVED_CHAIN, 4, [SEVEN])
    ensures IsLeaf(m.graph, 4) && m.graph.nodes[4].remaining == []
  {
    FirstPath(m);
    MovedSteps(m.graph);
    MovedChainOk(m);
  }

  /** The wrapper for a float hands a word over at another type. */
  lemma FloatIsNotWord(m: Module, x: Specialisation, y: Specialisation)
    requires x.args == [WORD] && y.args == [FLOAT]
    ensures !WrapperServes(m, 1, CalledWrapper(m, 1, y), x, [SEVEN])
  {
    assert LowerTys([FLOAT])[0] == Scalar("f64") && LowerTys([WORD])[0] == I64;
    assert Typed([SEVEN], LowerTys([FLOAT]))[0] == Word(Scalar("f64"), 7);
    assert Typed([SEVEN], LowerTys([WORD]))[0] == SEVEN;
  }

  lemma NothingStored(v: Value)
    ensures Concat([[], []]) + [v] == [v]
  {
    var vals: seq<seq<Value>> := [[], []];
    var one: seq<seq<Value>> := [[]];
    assert vals[..1] == one && one[..0] == [];
    assert Concat(one) == Concat([]) + [];
    assert Concat(vals) == Concat(one) + [];
  }

  lemma WrongChoice(m: Module, id: int, x: Specialisation, y: Specialisation)
    requires x.args == [WORD] && y.args == [FLOAT] && Choose(Specs(m, 1), id) == Some(y)
    ensures !Serves(m, 1, id, x, [SEVEN])
  {
    FloatIsNotWord(m, x, y);
  }

  lemma MovedDoesNotServe(m: Module)
    requires IsMoved(m)
    ensures FromClosure(m, 1) && 4 in m.graph.nodes && |PathSpec(m, [1, 2, 4]).args| == 1
    ensures !Serves(m, 1, RunId(m, [1, 2, 4]), PathSpec(m, [1, 2, 4]), [SEVEN])
  {
    FirstPath(m);
    SecondPath(m);
    MovedChoice(m);
    WrongChoice(m, RunId(m, [1, 2, 4]), PathSpec(m, [1, 2, 4]), PathSpec(m, [1, 3, 5]));
  }

  /** Whatever the source functions mean, applying variable 2 to 7 returns what its own function would. */
  ghost predicate MeansItsOwn(m: Module, p: Program, more: nat)
    requires Analysed(m) && HasTrampolines(m, p) && NodeIds(m.graph) && Specs(m, 1) != []
    requires ApplyOk(m, MovedHeap(m), MOVED_CHAIN, 4, [SEVEN]) && IsLeaf(m.graph, 4)
    requires m.graph.nodes[4].remaining == []
  {
    forall ext {:trigger AppliesAsIntended(m, p, MovedHeap(m), ext, more, MOVED_CHAIN, 4, [SEVEN])} ::
      AppliesAsIntended(m, p, MovedHeap(m), ext, more, MOVED_CHAIN, 4, [SEVEN])
  }

  lemma UnservedIsNotOwn(m: Module, p: Program, more: nat)
    requires Analysed(m) && HasTrampolines(m, p) && NodeIds(m.graph) && Specs(m, 1) != []
    requires ApplyOk(m, MovedHeap(m), MOVED_CHAIN, 4, [SEVEN]) && IsLeaf(m.graph, 4)
    requires m.graph.nodes[4].remaining == []
    requires FromClosure(m, 1) && |PathSpec(m, [1, 2, 4]).args| == 1
    requires !Serves(m, 1, RunId(m, [1, 2, 4]), PathSpec(m, [1, 2, 4]), [SEVEN])
    ensures !MeansItsOwn(m, p, more)
  {
    NothingStored(SEVEN);
    assert MOVED_CHAIN.path + [4] == [1, 2, 4];
    MeaningIff(m, p, MovedHeap(m), more, MOVED_CHAIN, 4, [SEVEN]);
  }

  lemma MovedIsNotOwn(m: Module, p: Program, more: nat)
    requires IsMoved(m) && HasTrampolines(m, p) && NodeIds(m.graph)
    ensures Specs(m, 1) != [] && ApplyOk(m, MovedHeap(m), MOVED_CHAIN, 4, [SEVEN]) && IsLeaf(m.graph, 4)
    ensures m.graph.nodes[4].remaining == [] && !MeansItsOwn(m, p, more)
  {
    MovedApplies(m);
    MovedDoesNotServe(m);
    UnservedIsNotOwn(m, p, more);
  }

  /** The path through variable 2 stands for the function at words, but its id leads to the one at floats. */
  ghost predicate LeadsAstray(m: Module) {
    && FromClosure(m, 1) && 4 in m.graph.nodes && 5 in m.graph.nodes
    && CalleeOf(m, PathSpec(m, [1, 2, 4])) == Specialised("f", [WORD], WORD)
    && Choose(Specs(m, 1), RunId(m, [1, 2, 4])) == Some(PathSpec(m, [1, 3, 5]))
    && CalleeOf(m, PathSpec(m, [1, 3, 5])) == Specialised("f", [FLOAT], FLOAT)
  }

  lemma MovedLeadsAstray(m: Module)
    requires IsMoved(m)
    ensures LeadsAstray(m)
  {
    FirstPath(m);
    SecondPath(m);
    MovedChoice(m);
  }

  /** Variable 2 is applied to a word, but the root runs the function specialised for floats: the application
      of a moved closure does not return what its own function would. */
  lemma MovedTwiceMisdirects(more: nat) returns (m: Module)
    ensures m.stmts == MOVED_TWICE && Analysed(m) && ReturnsAnalysed(m, {})
    ensures HasTrampolines(m, Lower(m, m.stmts)) && NodeIds(m.graph) && LeadsAstray(m)
    ensures Specs(m, 1) != [] && ApplyOk(m, MovedHeap(m), MOVED_CHAIN, 4, [SEVEN]) && IsLeaf(m.graph, 4)
    ensures m.graph.nodes[4].remaining == [] && !MeansItsOwn(m, Lower(m, m.stmts), more)
  {
    m := MovedModule();
    LoweringHasTrampolines(m);
    MovedLeadsAstray(m);
    MovedIsNotOwn(m, Lower(m, m.stmts), more);
  }
}
