/** What the classification of types is good for: without closures, the only cycles it misses are those
    closed through array elements. The two kinds that it misses are shown on concrete heaps. */
module CyclicPrograms {
  import opened Graphs
  import opened Heap
  import Collector
  import Releasing
  import ReclaimResult
  import opened CyclicAnalysis
  import opened TypeReferences
  import opened CyclicHeap

  // ----- from shapes to nodes of the type graph -----

  /** The analysis of these declarations. */
  ghost predicate Analysed(defs: Decls, keys: seq<string>, props: map<Node, Prop>) {
    && AliasesAcyclic(defs) && (forall k :: k in keys <==> k in defs)
    && props.Keys == Nodes(BuildCtx(defs, keys).graph)
    && forall n :: n in props ==> Classified(BuildCtx(defs, keys), n, props[n])
  }

  /** All edges that the mention calls for are in the graph. */
  ghost predicate InGraph(c: Ctx, defs: Decls, u: Use) {
    forall a, b, m {:trigger Refers(defs, u, a, b, m)} :: Refers(defs, u, a, b, m) ==> HasEdge(c, a, b, m)
  }

  lemma InGraphThrough(c: Ctx, defs: Decls, u: Use, w: Use)
    requires InGraph(c, defs, u) && Unfolds(defs, u, w)
    ensures InGraph(c, defs, w)
  {
    forall a, b, m | Refers(defs, w, a, b, m) ensures HasEdge(c, a, b, m) {
      RefersThrough(defs, u, w, a, b, m);
    }
  }

  lemma {:induction false} InGraphChain(c: Ctx, defs: Decls, u: Use, p: seq<Ty>)
    requires InGraph(c, defs, u) && AliasChain(defs, p, u.ty)
    ensures InGraph(c, defs, u.(ty := p[|p| - 1]))
    decreases |p|
  {
    if |p| == 1 {
      assert u.(ty := p[0]) == u;
    } else {
      var w, q := u.(ty := p[1]), p[1..];
      assert AliasStep(defs, p, 1);
      InGraphThrough(c, defs, u, w);
      forall i | 0 < i < |q| ensures AliasStep(defs, q, i) {
        assert AliasStep(defs, p, i + 1);
      }
      InGraphChain(c, defs, w, q);
    }
  }

  lemma DeclaredInGraph(defs: Decls, keys: seq<string>, key: string, src: Node, fields: seq<Field>, f: Field)
    requires AliasesAcyclic(defs) && (forall k :: k in keys <==> k in defs) && key in defs && f in fields
    requires forall a, b, m :: BodyWants(defs, src, fields, a, b, m) ==> DeclWants(defs, key, a, b, m)
    ensures InGraph(BuildCtx(defs, keys), defs, Use(src, f.mut, f.ty))
  {
    var u := Use(src, f.mut, f.ty);
    forall a, b, m | Refers(defs, u, a, b, m) ensures HasEdge(BuildCtx(defs, keys), a, b, m) {
      AcyclicRefersOnce(defs, u, a, b, m);
      assert Wants(defs, {}, u, a, b, m) && BodyWants(defs, src, fields, a, b, m) && key in keys;
      BuildCtxExact(defs, keys, a, b, m);
    }
  }

  /** The shape's node in the type graph; tuples and closures have none. */
  ghost predicate IsNodeOf(s: Shape, n: Node) {
    match s
    case Rec(key) => n == RecordNode(key)
    case Con(key, tag) => n == CtorNode(key, tag)
    case Arr(elem) => n == ArrayNode(elem)
    case _ => false
  }

  /** A mutable edge out of `u` starts a walk to `n`. */
  ghost predicate Led(c: Ctx, u: Node, n: Node) {
    exists t :: (u, t) in c.mutableEdges && Edge(c.graph, u, t) && Reaches(c.graph, t, n)
  }

  lemma LedFurther(c: Ctx, u: Node, n: Node, m: Node)
    requires Led(c, u, n) && Edge(c.graph, n, m)
    ensures Led(c, u, m)
  {
    var t :| (u, t) in c.mutableEdges && Edge(c.graph, u, t) && Reaches(c.graph, t, n);
    ReachesEdge(c.graph, n, m);
    ReachesTrans(c.graph, t, n, m);
  }

  /** Where a walk stands that left `u` by a mutable field: in a field of a node it was led to, or still
      in that field of `u`, within tuples. */
  ghost predicate InField(c: Ctx, defs: Decls, u: Node, x: Use) {
    InGraph(c, defs, x) && (Led(c, u, x.src) || (x.src == u && x.mut))
  }

  ghost predicate StandsAt(c: Ctx, defs: Decls, u: Node, s: Shape) {
    match s
    case Tup(ts) => exists x: Use :: x.ty == Tuple(ts) && InField(c, defs, u, x)
    case Arr(elem) => Led(c, u, ArrayNode(elem)) && InGraph(c, defs, Use(ArrayNode(elem), false, elem))
    case Rec(key) => Led(c, u, RecordNode(key))
    case Con(key, tag) => Led(c, u, CtorNode(key, tag))
    case Clo => false
  }

  lemma LedByField(c: Ctx, defs: Decls, u: Node, x: Use, b: Node)
    requires InField(c, defs, u, x) && PointsTo(defs, x, x.src, b, x.mut)
    ensures Led(c, u, b)
  {
    RefersHere(defs, x, x.src, b, x.mut);
    assert HasEdge(c, x.src, b, x.mut);
    if Led(c, u, x.src) {
      LedFurther(c, u, x.src, b);
    } else {
      ReachesRefl(c.graph, b);
    }
  }

  lemma TypeNodeLeads(defs: Decls, keys: seq<string>, key: string, n: Node)
    requires (forall k :: k in keys <==> k in defs) && DeclWants(defs, key, TypeNode(key), n, false)
    ensures Edge(BuildCtx(defs, keys).graph, TypeNode(key), n)
  {
    BuildCtxExact(defs, keys, TypeNode(key), n, false);
  }

  /** A field that the walk stands in leads to the objects its type allows. */
  lemma FieldLeads(defs: Decls, keys: seq<string>, u: Node, x: Use, s: Shape)
    requires AliasesAcyclic(defs) && (forall k :: k in keys <==> k in defs)
    requires InField(BuildCtx(defs, keys), defs, u, x) && Inhabits(defs, s, x.ty) && s != Clo
    ensures StandsAt(BuildCtx(defs, keys), defs, u, s)
  {
    var c := BuildCtx(defs, keys);
    var p :| AliasChain(defs, p, x.ty) && HasShape(defs, s, p[|p| - 1]);
    InGraphChain(c, defs, x, p);
    var y := x.(ty := p[|p| - 1]);
    assert InField(c, defs, u, y);
    match y.ty
    case Tuple(ts) =>
    case Array(elem) =>
      LedByField(c, defs, u, y, ArrayNode(elem));
      InGraphThrough(c, defs, y, Use(ArrayNode(elem), false, elem));
    case Defined(key) =>
      LedByField(c, defs, u, y, TypeNode(key));
      var n := if s.Rec? then RecordNode(key) else CtorNode(key, s.tag);
      assert DeclWants(defs, key, TypeNode(key), n, false);
      TypeNodeLeads(defs, keys, key, n);
      LedFurther(c, u, TypeNode(key), n);
  }

  /** Fields of records and constructors are mentions that the graph has seen. */
  lemma SlotInGraph(defs: Decls, keys: seq<string>, s: Shape, i: nat, t: Ty, mut: bool, n: Node)
    requires AliasesAcyclic(defs) && (forall k :: k in keys <==> k in defs)
    requires SlotHas(defs, s, i, t, mut) && (s.Rec? || s.Con?) && IsNodeOf(s, n)
    ensures InGraph(BuildCtx(defs, keys), defs, Use(n, mut, t))
  {
    match s
    case Rec(key) => DeclaredInGraph(defs, keys, key, n, defs[key].fields, Field(t, mut));
    case Con(key, tag) =>
      var k :| k in defs[key].ctors && k.tag == tag && i < |CtorFields(k.arg)| && CtorFields(k.arg)[i] == Field(t, mut);
      forall a, b, m | BodyWants(defs, n, CtorFields(k.arg), a, b, m) ensures DeclWants(defs, key, a, b, m) {
        assert CtorWants(defs, key, k, a, b, m);
      }
      DeclaredInGraph(defs, keys, key, n, CtorFields(k.arg), Field(t, mut));
  }

  /** One step of a walk through shapes, without closures. */
  lemma StepStands(defs: Decls, keys: seq<string>, u: Node, s: Shape, to: Shape, mut: bool)
    requires AliasesAcyclic(defs) && (forall k :: k in keys <==> k in defs) && to != Clo
    requires StandsAt(BuildCtx(defs, keys), defs, u, s) && ShapeEdge(defs, s, to, mut)
    ensures StandsAt(BuildCtx(defs, keys), defs, u, to)
  {
    var c := BuildCtx(defs, keys);
    var i :| SlotLeads(defs, s, i, to, mut);
    var t :| SlotHas(defs, s, i, t, mut) && Inhabits(defs, to, t);
    match s
    case Rec(key) =>
      SlotInGraph(defs, keys, s, i, t, mut, RecordNode(key));
      FieldLeads(defs, keys, u, Use(RecordNode(key), mut, t), to);
    case Con(key, tag) =>
      SlotInGraph(defs, keys, s, i, t, mut, CtorNode(key, tag));
      FieldLeads(defs, keys, u, Use(CtorNode(key, tag), mut, t), to);
    case Arr(elem) => FieldLeads(defs, keys, u, Use(ArrayNode(elem), false, elem), to);
    case Tup(ts) =>
      var x: Use :| x.ty == Tuple(ts) && InField(c, defs, u, x);
      InGraphThrough(c, defs, x, x.(ty := t));
      FieldLeads(defs, keys, u, x.(ty := t), to);
  }

  lemma {:induction false} WalkStands(defs: Decls, keys: seq<string>, u: Node, w: seq<Shape>, i: nat, j: nat)
    requires AliasesAcyclic(defs) && (forall k :: k in keys <==> k in defs) && i <= j < |w| && Clo !in w
    requires forall k {:trigger ShapeStep(defs, w, k)} :: 0 < k < |w| ==> ShapeStep(defs, w, k)
    requires StandsAt(BuildCtx(defs, keys), defs, u, w[i])
    ensures StandsAt(BuildCtx(defs, keys), defs, u, w[j])
    decreases j - i
  {
    if i < j {
      WalkStands(defs, keys, u, w, i, j - 1);
      assert ShapeStep(defs, w, j) && w[j] in w;
      if ShapeEdge(defs, w[j - 1], w[j], true) {
        StepStands(defs, keys, u, w[j - 1], w[j], true);
      } else {
        StepStands(defs, keys, u, w[j - 1], w[j], false);
      }
    }
  }

  lemma LedHome(c: Ctx, u: Node)
    requires CtxOk(c) && Led(c, u, u)
    ensures OnMutableCycle(c, u) && IsMutableSource(c, u)
  {
    var t :| (u, t) in c.mutableEdges && Edge(c.graph, u, t) && Reaches(c.graph, t, u);
    ReachesRefl(c.graph, u);
    MutableCycleThrough(c, u, u, t);
    var j :| 0 <= j < |c.mutableEdges| && c.mutableEdges[j] == (u, t);
    assert c.mutableEdges[j].0 == u;
  }

  /** After a field that can be assigned, the walk stands at something its node has led to. */
  lemma FirstStands(defs: Decls, keys: seq<string>, s: Shape, to: Shape, u: Node)
    requires AliasesAcyclic(defs) && (forall k :: k in keys <==> k in defs)
    requires ShapeEdge(defs, s, to, true) && (s.Rec? || s.Con?) && IsNodeOf(s, u) && to != Clo
    ensures StandsAt(BuildCtx(defs, keys), defs, u, to)
  {
    var i :| SlotLeads(defs, s, i, to, true);
    var t :| SlotHas(defs, s, i, t, true) && Inhabits(defs, to, t);
    SlotInGraph(defs, keys, s, i, t, true, u);
    FieldLeads(defs, keys, u, Use(u, true, t), to);
  }

  lemma AssignedFromDeclared(defs: Decls, s: Shape, to: Shape)
    requires ShapeEdge(defs, s, to, true) && !s.Arr?
    ensures s.Rec? || s.Con?
  {
  }

  lemma WalkLeadsHome(defs: Decls, keys: seq<string>, u: Node, w: seq<Shape>, k: nat)
    requires AliasesAcyclic(defs) && (forall n :: n in keys <==> n in defs)
    requires 0 < k < |w| && w[0] == w[|w| - 1] && Clo !in w && IsNodeOf(w[k - 1], u) && (w[k - 1].Rec? || w[k - 1].Con?)
    requires forall i {:trigger ShapeStep(defs, w, i)} :: 0 < i < |w| ==> ShapeStep(defs, w, i)
    requires ShapeEdge(defs, w[k - 1], w[k], true)
    ensures Led(BuildCtx(defs, keys), u, u)
  {
    assert w[k] in w;
    FirstStands(defs, keys, w[k - 1], w[k], u);
    WalkStands(defs, keys, u, w, k, |w| - 1);
    WalkStands(defs, keys, u, w, 0, k - 1);
  }

  /** The classification misses no closed walk that a declared mutable field closes without closures. */
  lemma BlindWalkIsClosureOrArray(defs: Decls, keys: seq<string>, used: set<Shape>, props: map<Node, Prop>,
          w: seq<Shape>, k: nat)
    requires Analysed(defs, keys, props) && BlindWalk(defs, used, props, w, k)
    ensures Clo in w || w[k - 1].Arr?
  {
    if Clo !in w && !w[k - 1].Arr? {
      var s := w[k - 1];
      assert s in w && !CandidateShape(props, s);
      AssignedFromDeclared(defs, s, w[k]);
      var u := if s.Rec? then RecordNode(s.key) else CtorNode(s.key, s.tag);
      WalkLeadsHome(defs, keys, u, w, k);
      BuildCtxOk(defs, keys);
      LedHome(BuildCtx(defs, keys), u);
      MutableNodeClassified(BuildCtx(defs, keys), u, props);
    }
  }

  /** In a well-typed heap every cycle of own references holds a candidate, unless it passes through a closure
      or an array on it refers to something not older than itself. */
  lemma CycleHasCandidate(defs: Decls, keys: seq<string>, used: set<Shape>, props: map<Node, Prop>, h: Store,
          ty: Typing, p: seq<Addr>)
    requires Analysed(defs, keys, props) && WellTyped(defs, used, h, ty) && Registered(h, props, ty)
    requires IsCycle(OwnGraph(h), p)
    requires forall i :: 0 <= i < |p| && p[i] in ty.shape ==> ty.shape[p[i]] != Clo
    requires forall i :: 0 < i < |p| && p[i - 1] in ty.shape && ty.shape[p[i - 1]].Arr? ==> GoesOlder(ty, p, i)
    ensures HasCandidate(h, p)
  {
    if !HasCandidate(h, p) {
      var w, k := UncoveredGivesWalk(defs, used, props, h, ty, p);
      BlindWalkIsClosureOrArray(defs, keys, used, props, w, k);
    }
  }

  /** A program without closures and without arrays of objects that are assigned has candidates on all cycles. */
  lemma PlainProgramsAreCovered(defs: Decls, keys: seq<string>, used: set<Shape>, props: map<Node, Prop>)
    requires Analysed(defs, keys, props) && forall s :: s in used ==> s != Clo && !s.Arr?
    ensures forall w, k :: !BlindWalk(defs, used, props, w, k)
  {
    forall w, k ensures !BlindWalk(defs, used, props, w, k) {
      if BlindWalk(defs, used, props, w, k) {
        assert forall s :: s in w ==> s in used;
        BlindWalkIsClosureOrArray(defs, keys, used, props, w, k);
      }
    }
  }

  /** So, for a program without blind walks, a finished undisturbed collection leaves exactly what owners and
      release lists held, if the lists held no candidate that the owners did not reach. */
  lemma TypesMakeCollectionComplete(defs: Decls, used: set<Shape>, props: map<Node, Prop>, s: Rt, ext: Owners,
          base: Rt, traced: Rt, ty: Typing)
    requires forall w, k :: !BlindWalk(defs, used, props, w, k)
    requires WellTyped(defs, used, base.heap, ty) && Registered(base.heap, props, ty)
    requires Collector.CycleOk(s, ext, base, traced) && s.tracingState == TracingIdle
    ensures s.heap.Keys == ReclaimResult.HeldSet(base, ext) && Releasing.NoneReleased(s.heap) <==>
        Collector.ListsHoldNone(base, ext)
  {
    CandidatesCoverIff(defs, used, props);
    forall p ensures !Collector.UnregisteredCycle(base, ext, p) {
      if Collector.UnregisteredCycle(base, ext, p) {
        assert Uncovered(defs, used, props, base.heap, ty, p);
      }
    }
    Collector.CycleResult(s, ext, base, traced);
  }

  // ----- a cycle through a closure -----

  /** A record with a function in a field that can be assigned. */
  const PAIRS: Decls := map["pair" := Record([Field(Arrow, true), Field(Constant, false)])]

  /** The record owns the closure in its field, which has captured the record. */
  const PAIR := Obj(Header(MixedOrder(1), false, false, false, true), false, 1, false, 0, false, false, false,
                    [Own(1), Word(10)])
  const CAPTURE := Obj(Header(MixedBitmap([false, true]), true, false, true, true), false, 1, false, 0, false, false,
                       false, [Word(0), Own(0)])
  const CLOSURE_HEAP: Store := map[0 := PAIR, 1 := CAPTURE]
  const CLOSURE_TYPING := Typing(map[0 := Rec("pair"), 1 := Clo], map[0 := 0, 1 := 1])

  lemma PairNotMutableCyclic(props: map<Node, Prop>)
    requires var c := BuildCtx(PAIRS, ["pair"]);
      props.Keys == Nodes(c.graph) && forall n :: n in props ==> Classified(c, n, props[n])
    ensures !CandidateShape(props, Rec("pair"))
  {
    var rec, c := RecordNode("pair"), BuildCtx(PAIRS, ["pair"]);
    var c0 := WithEdge(WithNode(WithNode(EMPTY_CTX, TypeNode("pair")), rec), TypeNode("pair"), rec, false);
    var fields := [Field(Arrow, true), Field(Constant, false)];
    assert fields[1..] == [Field(Constant, false)] && [Field(Constant, false)][1..] == [];
    assert AddBody(PAIRS, rec, [Field(Constant, false)], c0) == c0;
    assert AddBody(PAIRS, rec, fields, c0) == c0;
    assert ["pair"][..0] == [] && c == c0;
    assert !IsMutableSource(c, rec);
    assert rec in props ==> Classified(c, rec, props[rec]);
  }

  lemma PairSlots()
    ensures SlotLeads(PAIRS, Rec("pair"), 0, Clo, true) && SlotLeads(PAIRS, Clo, 1, Rec("pair"), false)
  {
    assert SlotHas(PAIRS, Rec("pair"), 0, Arrow, true) && AliasChain(PAIRS, [Arrow], Arrow);
    assert HasShape(PAIRS, Clo, [Arrow][0]);
    assert SlotHas(PAIRS, Clo, 1, Defined("pair"), false);
    assert AliasChain(PAIRS, [Defined("pair")], Defined("pair")) && HasShape(PAIRS, Rec("pair"), [Defined("pair")][0]);
  }

  lemma ClosureEdges(a: Addr)
    ensures EdgesTo(CLOSURE_HEAP, {}, a) == if a == 0 then {(1, 1)} else if a == 1 then {(0, 0)} else {}
  {
    forall e: (Addr, nat)
      ensures e in EdgesTo(CLOSURE_HEAP, {}, a) <==> (a == 0 && e == (1, 1)) || (a == 1 && e == (0, 0))
    {
      assert e == (e.0, e.1);
    }
  }

  lemma ClosureHeapTyped()
    ensures WellTyped(PAIRS, {Rec("pair"), Clo}, CLOSURE_HEAP, CLOSURE_TYPING)
  {
    PairSlots();
    forall q: Addr, i: nat, a: Addr | HoldsEdge(CLOSURE_HEAP, q, i, a)
      ensures a in CLOSURE_HEAP && RefFits(PAIRS, {Rec("pair"), Clo}, CLOSURE_TYPING, q, i, a)
    {
      ClosureEdges(a);
      assert (q, i) in EdgesTo(CLOSURE_HEAP, {}, a);
    }
  }

  lemma ClosureHeapExact()
    ensures Exact(CLOSURE_HEAP, map[])
  {
    forall a | a in CLOSURE_HEAP ensures ExactAt(CLOSURE_HEAP, map[], a) {
      ClosureEdges(a);
    }
  }

  lemma ClosureHeapCycle()
    ensures IsCycle(OwnGraph(CLOSURE_HEAP), [0, 1, 0]) && !HasCandidate(CLOSURE_HEAP, [0, 1, 0])
  {
    var h, p := CLOSURE_HEAP, [0, 1, 0];
    assert HoldsEdge(h, 0, 0, 1) && HoldsEdge(h, 1, 1, 0);
    OwnEdge(h, 0, 0, 1);
    OwnEdge(h, 1, 1, 0);
    forall i | 0 < i < |p| ensures Edge(OwnGraph(h), p[i - 1], p[i]) {
      assert i == 1 || i == 2;
    }
  }

  /** A closure stored into the record that it has captured: however the record's type is classified, a lost
      cycle of own references that holds no candidate. */
  lemma ClosureCycleIsMissed(props: map<Node, Prop>)
    requires var c := BuildCtx(PAIRS, ["pair"]);
      props.Keys == Nodes(c.graph) && forall n :: n in props ==> Classified(c, n, props[n])
    ensures Uncovered(PAIRS, {Rec("pair"), Clo}, props, CLOSURE_HEAP, CLOSURE_TYPING, [0, 1, 0])
    ensures Exact(CLOSURE_HEAP, map[])
  {
    PairNotMutableCyclic(props);
    ClosureHeapTyped();
    ClosureHeapExact();
    ClosureHeapCycle();
  }

  // ----- a cycle through an array -----

  /** The record's field was filled with an older array, into which the record is put afterwards. */
  const TREE_OBJECT := Obj(Header(MonoRef, false, false, false, true), false, 1, false, 0, false, false, false,
                           [Own(1)])
  const TREE_ARRAY := Obj(Header(MonoRef, true, false, true, true), false, 1, false, 0, false, false, false, [Own(0)])
  const ARRAY_HEAP: Store := map[0 := TREE_OBJECT, 1 := TREE_ARRAY]
  const ARRAY_TYPING := Typing(map[0 := Rec("tree"), 1 := Arr(Defined("tree"))], map[0 := 1, 1 := 0])

  lemma TreeSlots()
    ensures SlotLeads(TREES, Rec("tree"), 0, Arr(Defined("tree")), false)
    ensures SlotLeads(TREES, Arr(Defined("tree")), 0, Rec("tree"), true)
  {
    assert SlotHas(TREES, Rec("tree"), 0, TREE, false) && AliasChain(TREES, [TREE], TREE);
    assert HasShape(TREES, Arr(Defined("tree")), [TREE][0]);
    assert SlotHas(TREES, Arr(Defined("tree")), 0, Defined("tree"), true);
    assert AliasChain(TREES, [Defined("tree")], Defined("tree")) && HasShape(TREES, Rec("tree"), [Defined("tree")][0]);
  }

  lemma ArrayEdges(a: Addr)
    ensures EdgesTo(ARRAY_HEAP, {}, a) == if a == 0 then {(1, 0)} else if a == 1 then {(0, 0)} else {}
  {
    forall e: (Addr, nat)
      ensures e in EdgesTo(ARRAY_HEAP, {}, a) <==> (a == 0 && e == (1, 0)) || (a == 1 && e == (0, 0))
    {
      assert e == (e.0, e.1);
    }
  }

  lemma ArrayHeapTyped()
    ensures WellTyped(TREES, {Rec("tree"), Arr(Defined("tree"))}, ARRAY_HEAP, ARRAY_TYPING)
  {
    TreeSlots();
    forall q: Addr, i: nat, a: Addr | HoldsEdge(ARRAY_HEAP, q, i, a)
      ensures a in ARRAY_HEAP && RefFits(TREES, {Rec("tree"), Arr(Defined("tree"))}, ARRAY_TYPING, q, i, a)
    {
      ArrayEdges(a);
      assert (q, i) in EdgesTo(ARRAY_HEAP, {}, a);
    }
  }

  lemma ArrayHeapExact()
    ensures Exact(ARRAY_HEAP, map[])
  {
    forall a | a in ARRAY_HEAP ensures ExactAt(ARRAY_HEAP, map[], a) {
      ArrayEdges(a);
    }
  }

  lemma ArrayHeapCycle()
    ensures IsCycle(OwnGraph(ARRAY_HEAP), [0, 1, 0]) && !HasCandidate(ARRAY_HEAP, [0, 1, 0])
  {
    var h, p := ARRAY_HEAP, [0, 1, 0];
    assert HoldsEdge(h, 0, 0, 1) && HoldsEdge(h, 1, 0, 0);
    OwnEdge(h, 0, 0, 1);
    OwnEdge(h, 1, 0, 0);
    forall i | 0 < i < |p| ensures Edge(OwnGraph(h), p[i - 1], p[i]) {
      assert i == 1 || i == 2;
    }
  }

  /** A record put into the array that it holds in an immutable field: a lost cycle without a candidate, too. */
  lemma ArrayCycleIsMissed(props: map<Node, Prop>)
    requires var c := BuildCtx(TREES, ["tree"]);
      props.Keys == Nodes(c.graph) && forall n :: n in props ==> Classified(c, n, props[n])
    ensures Uncovered(TREES, {Rec("tree"), Arr(Defined("tree"))}, props, ARRAY_HEAP, ARRAY_TYPING, [0, 1, 0])
    ensures Exact(ARRAY_HEAP, map[])
  {
    ArrayElementsCountAsImmutable();
    assert RecordNode("tree") in props ==>
        Classified(BuildCtx(TREES, ["tree"]), RecordNode("tree"), props[RecordNode("tree")]);
    ArrayHeapTyped();
    ArrayHeapExact();
    ArrayHeapCycle();
  }
}
