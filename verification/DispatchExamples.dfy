/** Applications that get stuck, or call a function specialised for other types. */
module DispatchExamples {
  import opened Graphs
  import opened DispatchIds
  import opened ClosureGraph
  import opened Oir
  import opened Options
  import opened ClosureDispatch
  import opened Application
  import opened ReturnTypes
  import opened ApplicationExamples

  // ----- one closure, applied once or twice -----

  function MadeAt(ret: Ty): Stmt {
    MakeClosure(Var(1, Arrow([GENERIC], ret)), "f", [], [])
  }

  /** A unary closure applied to an argument of type `a`, as a function with result type `t`. */
  function Once(ret: Ty, a: Ty, t: Ty): seq<Stmt> {
    [MadeAt(ret), Apply(Var(4, t), 1, [a])]
  }

  function Twice(ret: Ty, a: Ty, b: Ty, t: Ty): seq<Stmt> {
    [MadeAt(ret), Apply(Var(4, t), 1, [a]), Apply(Var(5, t), 1, [b])]
  }

  function LeafNode(d: int, a: Ty, t: Ty): Node {
    Node(d, [a], RemainingOf(t), ReturnOf(t), KApply)
  }

  function LeafPathOf(d: int, t: Ty): Summary {
    Summary(FromMake("f", 1), [d, 1], RemainingOf(t), ReturnOf(t), 0)
  }

  lemma MadeAtGraph(ret: Ty)
    ensures var g := BuildGraph([MadeAt(ret)]); var s := Summary(FromMake("f", 1), [1], [GENERIC], ret, 0);
      g == ClosureGraph(map[1 := Node(1, [], [GENERIC], ret, KMake)], map[1 := [s]], map[], [1])
  {
    BuildAppend([], MadeAt(ret));
    assert [] + [MadeAt(ret)] == [MadeAt(ret)] && [] + [1] == [1];
    var none: seq<Ty> := [];
    assert none + none == none;
    assert NodeOf(MadeAt(ret).dst, none + none, KMake) == Node(1, [], [GENERIC], ret, KMake);
  }

  lemma ApplyGraph(g: ClosureGraph, d: int, a: Ty, t: Ty, s: Summary)
    requires 1 in g.summaries && g.summaries[1] == [s] && s.nodes == [1] && s.root == FromMake("f", 1)
    requires s.freeVarCount == 0
    ensures var g' := Process(g, Apply(Var(d, t), 1, [a]));
      && g'.nodes == g.nodes[d := LeafNode(d, a, t)] && g'.roots == g.roots
      && g'.edges == g.edges[1 := [d] + (if 1 in g.edges then g.edges[1] else [])]
      && g'.summaries == g.summaries[d := [LeafPathOf(d, t)]]
  {
    var n := LeafNode(d, a, t);
    assert n == NodeOf(Var(d, t), [a], KApply);
    assert Extend(s, n).nodes == [d, 1];
    var ss := ExtendedSummaries(g, 1, n);
    assert ss == [LeafPathOf(d, t)] && [] + ss == ss;
  }

  lemma OnceGraph(ret: Ty, a: Ty, t: Ty)
    ensures var g := BuildGraph(Once(ret, a, t));
      && g.nodes == map[1 := Node(1, [], [GENERIC], ret, KMake), 4 := LeafNode(4, a, t)] && g.roots == [1]
      && g.edges == map[1 := [4]] && 1 in g.summaries && 4 in g.summaries && g.summaries[4] == [LeafPathOf(4, t)]
      && g.summaries[1] == [Summary(FromMake("f", 1), [1], [GENERIC], ret, 0)]
  {
    MadeAtGraph(ret);
    var s := Apply(Var(4, t), 1, [a]);
    BuildAppend([MadeAt(ret)], s);
    assert [MadeAt(ret)] + [s] == Once(ret, a, t);
    ApplyGraph(BuildGraph([MadeAt(ret)]), 4, a, t, Summary(FromMake("f", 1), [1], [GENERIC], ret, 0));
    assert [4] + [] == [4];
  }

  lemma TwiceGraph(ret: Ty, a: Ty, b: Ty, t: Ty)
    ensures var g := BuildGraph(Twice(ret, a, b, t));
      && g.nodes == map[1 := Node(1, [], [GENERIC], ret, KMake), 4 := LeafNode(4, a, t), 5 := LeafNode(5, b, t)]
      && g.roots == [1] && g.edges == map[1 := [5, 4]] && 1 in g.summaries
      && 4 in g.summaries && g.summaries[4] == [LeafPathOf(4, t)]
      && 5 in g.summaries && g.summaries[5] == [LeafPathOf(5, t)]
  {
    OnceGraph(ret, a, t);
    var s := Apply(Var(5, t), 1, [b]);
    BuildAppend(Once(ret, a, t), s);
    assert Once(ret, a, t) + [s] == Twice(ret, a, b, t);
    ApplyGraph(BuildGraph(Once(ret, a, t)), 5, b, t, Summary(FromMake("f", 1), [1], [GENERIC], ret, 0));
    assert [5] + [4] == [5, 4];
  }

  lemma OnceIsOrdered(ret: Ty, a: Ty, t: Ty)
    ensures WellOrdered(Once(ret, a, t))
  {
  }

  lemma TwiceIsOrdered(ret: Ty, a: Ty, b: Ty, t: Ty)
    ensures WellOrdered(Twice(ret, a, b, t))
  {
  }

  /** What a leaf stands for, up to its tag. */
  predicate StandsFor(x: Specialisation, a: Ty, t: Ty) {
    x.fn == "f" && x.args == [a] + RemainingOf(t) && x.ret == ReturnOf(t)
  }

  lemma LeafStandsFor(g: ClosureGraph, off: Offsets, d: int, a: Ty, t: Ty)
    requires 1 in g.nodes && g.nodes[1].args == [] && d in g.nodes && g.nodes[d] == LeafNode(d, a, t)
    ensures StandsFor(SpecialisationOf(g, off, LeafPathOf(d, t)), a, t)
  {
    assert [d, 1][1..] == [1] && [1][1..] == [];
    assert Reversed([1]) == [] + [1];
    assert Reversed([d, 1]) == [1] + [d] == [1, d];
    assert [1, d][1..] == [d] && [d][1..] == [];
    assert ArgsAlong(g, [d]) == [a] + [];
    assert ArgsAlong(g, [1, d]) == [] + [a];
  }

  lemma OneSummary(g: ClosureGraph, off: Offsets, d: int, t: Ty, acc: seq<Specialisation>)
    ensures CollectSummaries(g, off, 1, [LeafPathOf(d, t)], acc) == [SpecialisationOf(g, off, LeafPathOf(d, t))] + acc
  {
    assert [LeafPathOf(d, t)][1..] == [];
  }

  /** Variable 1 holds the module's only closure. */
  ghost predicate OnlyRoot(stmts: seq<Stmt>) {
    forall i, r :: 0 <= i < |stmts| && IsRoot(stmts[i], r) ==> r == 1
  }

  lemma OnceLeaves(ret: Ty, a: Ty, t: Ty)
    ensures AreLeaves(BuildGraph(Once(ret, a, t)), [4]) && OnlyRoot(Once(ret, a, t))
  {
    OnceGraph(ret, a, t);
  }

  lemma OnceModule(ret: Ty, a: Ty, t: Ty, asArg: set<int>) returns (m: Module)
    ensures m.stmts == Once(ret, a, t) && Analysed(m) && ReturnsAnalysed(m, asArg) && 1 in m.graph.roots
    ensures m.available == map[] && OnlyRoot(m.stmts) && LeafSummary(m, 4, LeafPathOf(4, t))
    ensures |Specs(m, 1)| == 1 && StandsFor(Specs(m, 1)[0], a, t)
  {
    OnceLeaves(ret, a, t);
    OnceIsOrdered(ret, a, t);
    m := AnalysedModule(Once(ret, a, t), [4], asArg, map[]);
    OnceGraph(ret, a, t);
    OneSpec(m.graph, m.offsets, a, t);
    assert [4][0] == 4 && m.graph.summaries[4][0] == LeafPathOf(4, t);
  }

  lemma TwiceLeaves(ret: Ty, a: Ty, b: Ty, t: Ty)
    ensures AreLeaves(BuildGraph(Twice(ret, a, b, t)), [4, 5]) && OnlyRoot(Twice(ret, a, b, t))
  {
    TwiceGraph(ret, a, b, t);
  }

  lemma TwiceModule(ret: Ty, a: Ty, b: Ty, t: Ty) returns (m: Module)
    ensures m.stmts == Twice(ret, a, b, t) && Analysed(m) && ReturnsAnalysed(m, {}) && 1 in m.graph.roots
    ensures m.available == map[] && OnlyRoot(m.stmts)
    ensures |Specs(m, 1)| == 2 && StandsFor(Specs(m, 1)[0], b, t) && StandsFor(Specs(m, 1)[1], a, t)
  {
    TwiceLeaves(ret, a, b, t);
    TwiceIsOrdered(ret, a, b, t);
    m := AnalysedModule(Twice(ret, a, b, t), [4, 5], {}, map[]);
    TwiceGraph(ret, a, b, t);
    TwoSpecs(m.graph, m.offsets, a, b, t);
  }

  lemma OneSpec(g: ClosureGraph, off: Offsets, a: Ty, t: Ty)
    requires 1 in g.nodes && g.nodes[1].args == [] && 4 in g.nodes && g.nodes[4] == LeafNode(4, a, t)
    requires 4 in g.summaries && g.summaries[4] == [LeafPathOf(4, t)]
    ensures var xs := CollectLeaves(g, off, 1, [4], []); |xs| == 1 && StandsFor(xs[0], a, t)
  {
    LeafStandsFor(g, off, 4, a, t);
    OneSummary(g, off, 4, t, []);
    assert [4][1..] == [];
  }

  lemma TwoSpecs(g: ClosureGraph, off: Offsets, a: Ty, b: Ty, t: Ty)
    requires 1 in g.nodes && g.nodes[1].args == [] && 4 in g.nodes && g.nodes[4] == LeafNode(4, a, t)
    requires 5 in g.nodes && g.nodes[5] == LeafNode(5, b, t) && 4 in g.summaries && 5 in g.summaries
    requires g.summaries[4] == [LeafPathOf(4, t)] && g.summaries[5] == [LeafPathOf(5, t)]
    ensures var xs := CollectLeaves(g, off, 1, [4, 5], []);
      |xs| == 2 && StandsFor(xs[0], b, t) && StandsFor(xs[1], a, t)
  {
    LeafStandsFor(g, off, 4, a, t);
    LeafStandsFor(g, off, 5, b, t);
    var x := SpecialisationOf(g, off, LeafPathOf(4, t));
    OneSummary(g, off, 4, t, []);
    OneSummary(g, off, 5, t, [x]);
    assert [4, 5][1..] == [5] && [5][1..] == [] && [x] + [] == [x];
    assert CollectLeaves(g, off, 1, [5], [x]) == [SpecialisationOf(g, off, LeafPathOf(5, t)), x];
  }

  // ----- a wrapper that is called and never generated -----

  lemma {:induction false} RootSpecsOnly(r: int, xs: seq<Specialisation>, y: (int, Specialisation))
    requires y in RootSpecs(r, xs)
    ensures y.0 == r && y.1 in xs
    decreases |xs|
  {
    if y != (r, xs[0]) {
      RootSpecsOnly(r, xs[1..], y);
    }
  }

  lemma {:induction false} AllSpecsOnly(m: Module, stmts: seq<Stmt>, y: (int, Specialisation))
    requires y in AllSpecs(m, stmts)
    ensures (exists i :: 0 <= i < |stmts| && IsRoot(stmts[i], y.0)) && y.1 in Specs(m, y.0)
    decreases |stmts|
  {
    var k := |stmts| - 1;
    if y in AllSpecs(m, stmts[..k]) {
      AllSpecsOnly(m, stmts[..k], y);
      var i :| 0 <= i < k && IsRoot(stmts[..k][i], y.0);
      assert IsRoot(stmts[i], y.0);
    } else {
      RootSpecsOnly(stmts[k].dst.id, Specs(m, stmts[k].dst.id), y);
      assert IsRoot(stmts[k], y.0);
    }
  }

  lemma {:induction false} FirstWithNone(m: Module, xs: seq<(int, Specialisation)>, name: FnName)
    requires forall y :: y in xs ==> GeneratedWrapper(m, y.0, y.1) != name
    ensures FirstWith(m, xs, name) == None
    decreases |xs|
  {
    if xs != [] {
      assert GeneratedWrapper(m, xs[0].0, xs[0].1) != name;
      FirstWithNone(m, xs[1..], name);
    }
  }

  /** No application returns, whatever the id, the arguments and the source functions. */
  ghost predicate AlwaysStuck(m: Module) {
    forall ext, id, vals :: Outcome(m, ext, 1, id, vals) == None
  }

  lemma UngeneratedIsStuck(m: Module)
    requires OnlyRoot(m.stmts)
    requires forall x, y :: x in Specs(m, 1) && y in Specs(m, 1) ==> CalledWrapper(m, 1, x) != GeneratedWrapper(m, 1, y)
    ensures AlwaysStuck(m)
  {
    forall ext, id, vals ensures Outcome(m, ext, 1, id, vals) == None {
      var x := Choose(Specs(m, 1), id);
      if x.Some? {
        ByTagPicks(Specs(m, 1), id);
        var all, name := AllSpecs(m, m.stmts), CalledWrapper(m, 1, x.value);
        forall y | y in all ensures GeneratedWrapper(m, y.0, y.1) != name {
          AllSpecsOnly(m, m.stmts, y);
        }
        FirstWithNone(m, all, name);
      }
    }
  }

  /** The accumulator calls casting wrappers, and only plain ones are generated. */
  lemma CastingIsStuck(m: Module)
    requires OnlyRoot(m.stmts) && 1 !in m.generic && |Specs(m, 1)| != 1
    requires forall x :: x in Specs(m, 1) ==> LowerTy(x.ret) != RetOf(m, 1)
    ensures AlwaysStuck(m)
  {
    var xs := Specs(m, 1);
    forall x, y | x in xs && y in xs ensures CalledWrapper(m, 1, x) != GeneratedWrapper(m, 1, y) {
      assert CalledWrapper(m, 1, x).cast.Some?;
    }
    UngeneratedIsStuck(m);
  }

  /** The accumulator calls a plain wrapper, and only casting ones are generated. */
  lemma PlainIsStuck(m: Module)
    requires OnlyRoot(m.stmts) && 1 in m.generic && |Specs(m, 1)| == 1
    requires forall x :: x in Specs(m, 1) ==> LowerTy(x.ret) != I64
    ensures AlwaysStuck(m)
  {
    var xs := Specs(m, 1);
    forall x, y | x in xs && y in xs ensures CalledWrapper(m, 1, x) != GeneratedWrapper(m, 1, y) {
      assert GeneratedWrapper(m, 1, y).cast.Some?;
    }
    UngeneratedIsStuck(m);
  }

  /** A root is not generic if its specialisations agree and nothing is handed over. */
  lemma NotHandedOver(m: Module)
    requires Analysed(m) && ReturnsAnalysed(m, {}) && 1 in m.graph.roots
    requires !RetsDiffer(Specs(m, 1))
    ensures 1 !in m.generic
  {
    if 1 in m.generic {
      var d, s :| LeafSummary(m, d, s) && 1 in s.nodes && GenericRoot(m, {}, s.root);
      RootEnds(m.stmts, 1, d, s);
    }
  }

  lemma BothReturn(xs: seq<Specialisation>, t: Ty)
    requires 0 < |xs| <= 2 && xs[0].ret == t && xs[|xs| - 1].ret == t
    ensures !RetsDiffer(xs) && forall x :: x in xs ==> x.ret == t
  {
  }

  lemma FloatIsScalar()
    ensures ReturnOf(FLOAT) == FLOAT && LowerTy(FLOAT) != I64
  {
    assert "f64"[0] != "i64"[0];
  }

  /** Two specialisations return the same type, so the analysis forgets it. */
  lemma EvenIsStuck(m: Module, t: Ty)
    requires Analysed(m) && ReturnsAnalysed(m, {}) && 1 in m.graph.roots && OnlyRoot(m.stmts)
    requires |Specs(m, 1)| == 2 && Specs(m, 1)[0].ret == t && Specs(m, 1)[1].ret == t && LowerTy(t) != I64
    ensures 1 !in m.generic && AlwaysStuck(m)
  {
    BothReturn(Specs(m, 1), t);
    NotHandedOver(m);
    Forgotten(m, t);
    CastingIsStuck(m);
  }

  lemma Forgotten(m: Module, t: Ty)
    requires Analysed(m) && ReturnsAnalysed(m, {}) && 1 in m.graph.roots && 1 !in m.generic
    requires |Specs(m, 1)| == 2 && forall x :: x in Specs(m, 1) ==> x.ret == t
    ensures RetOf(m, 1) == I64
  {
    RootRetIff(m, 1, t);
  }

  lemma TwoFloatsAreStuck() returns (m: Module)
    ensures m.stmts == Twice(GENERIC, FLOAT, FLOAT, FLOAT) && Analysed(m) && ReturnsAnalysed(m, {})
    ensures 1 !in m.generic && AlwaysStuck(m)
  {
    FloatIsScalar();
    m := TwiceModule(GENERIC, FLOAT, FLOAT, FLOAT);
    EvenIsStuck(m, FLOAT);
  }

  lemma HandedOverIsGeneric(m: Module, d: int, s: Summary)
    requires ReturnsAnalysed(m, {1}) && LeafSummary(m, d, s) && s.root == FromMake("f", 1) && 1 in s.nodes
    ensures 1 in m.generic
  {
    assert HandedOver(s, 1, {1});
    assert GenericRoot(m, {1}, s.root);
  }

  lemma OneHandedOverIsStuck(m: Module, t: Ty)
    requires ReturnsAnalysed(m, {1}) && OnlyRoot(m.stmts) && LeafSummary(m, 4, LeafPathOf(4, t))
    requires |Specs(m, 1)| == 1 && Specs(m, 1)[0].ret == t && LowerTy(t) != I64
    ensures 1 in m.generic && AlwaysStuck(m)
  {
    var s := LeafPathOf(4, t);
    assert s.nodes[1] == 1;
    HandedOverIsGeneric(m, 4, s);
    BothReturn(Specs(m, 1), t);
    PlainIsStuck(m);
  }

  /** The closure is also handed to a function, which makes its only specialisation generic. */
  lemma HandedOverIsStuck() returns (m: Module)
    ensures m.stmts == Once(GENERIC, FLOAT, FLOAT) && Analysed(m) && ReturnsAnalysed(m, {1})
    ensures 1 in m.generic && AlwaysStuck(m)
  {
    FloatIsScalar();
    m := OnceModule(GENERIC, FLOAT, FLOAT, {1});
    OneHandedOverIsStuck(m, FLOAT);
  }

  // ----- a wrapper that two specialisations share -----

  const ON_WORDS := Arrow([WORD], WORD)
  const ON_FLOATS := Arrow([FLOAT], FLOAT)

  /** Specialisations that differ in the type of a closure argument share a wrapper. */
  lemma SharedWrapper(m: Module, x: Specialisation, y: Specialisation)
    requires x.fn == y.fn && x.args == [ON_FLOATS] && y.args == [ON_WORDS] && x.ret == y.ret && m.available == map[]
    ensures GeneratedWrapper(m, 1, x) == GeneratedWrapper(m, 1, y)
    ensures CalleeOf(m, x) != CalleeOf(m, y) && Owner(m, 1, x) == Owner(m, 1, y)
  {
    assert LowerTys(x.args) == [ObjPtr] == LowerTys(y.args);
    assert [ON_FLOATS][0] != [ON_WORDS][0];
  }

  /** Applied to two closures of different types, which lower to one, a function runs the same specialisation. */
  lemma SharedWrapperCallsOther() returns (m: Module)
    ensures m.stmts == Twice(WORD, ON_WORDS, ON_FLOATS, WORD) && Analysed(m) && ReturnsAnalysed(m, {})
    ensures |Specs(m, 1)| == 2
    ensures var x, y := Specs(m, 1)[0], Specs(m, 1)[1];
      && CalledWrapper(m, 1, x) == GeneratedWrapper(m, 1, x) == GeneratedWrapper(m, 1, y) == CalledWrapper(m, 1, y)
      && CalleeOf(m, x) != CalleeOf(m, y) && (!CallsOwn(m, 1, x) || !CallsOwn(m, 1, y))
  {
    m := TwiceModule(WORD, ON_WORDS, ON_FLOATS, WORD);
    var x, y := Specs(m, 1)[0], Specs(m, 1)[1];
    assert [ON_FLOATS] + [] == [ON_FLOATS] && [ON_WORDS] + [] == [ON_WORDS];
    CalledIsGeneratedIff(m, {}, 1, x);
    CalledIsGeneratedIff(m, {}, 1, y);
    SharedWrapper(m, x, y);
  }

  // ----- an application that returns a closure -----

  lemma TooFewArguments(m: Module, ext: Callees, id: int, v: Value)
    requires |Specs(m, 1)| == 1 && |Specs(m, 1)[0].args| == 2
    ensures Outcome(m, ext, 1, id, [v]) == None
  {
  }

  /** A polymorphic function applied where its type variable stands for a closure: the wrapper expects the returned
      closure's argument as well, which no application passes. */
  lemma ReturnedClosureIsStuck(ext: Callees, id: int, v: Value) returns (m: Module)
    ensures m.stmts == Once(GENERIC, ON_WORDS, ON_WORDS) && Analysed(m) && ReturnsAnalysed(m, {})
    ensures |Specs(m, 1)| == 1 && |Specs(m, 1)[0].args| == 2
    ensures CalledWrapper(m, 1, Specs(m, 1)[0]) == GeneratedWrapper(m, 1, Specs(m, 1)[0])
    ensures Outcome(m, ext, 1, id, [v]) == None
  {
    m := OnceModule(GENERIC, ON_WORDS, ON_WORDS, {});
    CalledIsGeneratedIff(m, {}, 1, Specs(m, 1)[0]);
    TooFewArguments(m, ext, id, v);
  }
}
