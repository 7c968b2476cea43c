/** Which types can take part in a reference cycle: a graph of types, record bodies,
    constructors and arrays, and the classification of its nodes. */
module CyclicAnalysis {
  import opened Graphs
  import opened CyclicComponents

  datatype Ty =
    | Var
    | Constant
    | Arrow
    | Tuple(elems: seq<Ty>)
    | Array(elem: Ty)
    | Defined(key: string)  // the materialised name

  datatype Field = Field(ty: Ty, mut: bool)

  datatype CtorArg = NoArg | OneTy(ty: Ty) | Inline(fields: seq<Field>)

  datatype Ctor = Ctor(tag: nat, arg: CtorArg)

  datatype Decl = Record(fields: seq<Field>) | Variant(ctors: seq<Ctor>) | Alias(inner: Ty) | Abstract

  type Decls = map<string, Decl>

  /** Distinct constructors stand for the distinct shapes of the printed node names. */
  datatype Node =
    | TypeNode(key: string)
    | RecordNode(key: string)
    | CtorNode(key: string, tag: nat)
    | ArrayNode(elem: Ty)

  datatype Ctx = Ctx(graph: Graph<Node>, mutableEdges: seq<(Node, Node)>)

  const EMPTY_CTX := Ctx(map[], [])

  function WithNode(c: Ctx, n: Node): Ctx {
    c.(graph := AddNode(c.graph, n))
  }

  function WithEdge(c: Ctx, src: Node, target: Node, mut: bool): Ctx {
    Ctx(AddEdge(AddNode(AddNode(c.graph, src), target), src, target),
        if mut then [(src, target)] + c.mutableEdges else c.mutableEdges)
  }

  /** References of a type; aliases are looked through, each at most once. */
  function AddRefs(defs: Decls, visited: set<string>, src: Node, mut: bool, t: Ty, c: Ctx): Ctx
    decreases defs.Keys - visited, t
  {
    match t
    case Var => c
    case Constant => c
    case Arrow => c
    case Tuple(ts) => AddRefsAll(defs, visited, src, mut, ts, c)
    case Array(elem) => AddRefs(defs, visited, ArrayNode(elem), false, elem, WithEdge(c, src, ArrayNode(elem), mut))
    case Defined(key) =>
      if key in visited then c
      else if key in defs && defs[key].Alias? then AddRefs(defs, visited + {key}, src, mut, defs[key].inner, c)
      else WithEdge(c, src, TypeNode(key), mut)
  }

  function AddRefsAll(defs: Decls, visited: set<string>, src: Node, mut: bool, ts: seq<Ty>, c: Ctx): Ctx
    decreases defs.Keys - visited, ts
  {
    if ts == [] then c else AddRefsAll(defs, visited, src, mut, ts[1..], AddRefs(defs, visited, src, mut, ts[0], c))
  }

  function CtorFields(arg: CtorArg): seq<Field> {
    match arg
    case NoArg => []
    case OneTy(t) =>
      if t.Tuple? then seq(|t.elems|, i requires 0 <= i < |t.elems| => Field(t.elems[i], false)) else [Field(t, false)]
    case Inline(fields) => fields
  }

  function AddBody(defs: Decls, src: Node, fields: seq<Field>, c: Ctx): Ctx
    decreases |fields|
  {
    if fields == [] then c
    else AddBody(defs, src, fields[1..], AddRefs(defs, {}, src, fields[0].mut, fields[0].ty, c))
  }

  function AddCtors(defs: Decls, key: string, ctors: seq<Ctor>, c: Ctx): Ctx
    decreases |ctors|
  {
    if ctors == [] then c
    else
      var n := CtorNode(key, ctors[0].tag);
      AddCtors(defs, key, ctors[1..], AddBody(defs, n, CtorFields(ctors[0].arg),
          WithEdge(WithNode(c, n), TypeNode(key), n, false)))
  }

  function AddDecl(defs: Decls, key: string, d: Decl, c: Ctx): Ctx {
    var c1 := WithNode(c, TypeNode(key));
    match d
    case Record(fields) =>
      var n := RecordNode(key);
      AddBody(defs, n, fields, WithEdge(WithNode(c1, n), TypeNode(key), n, false))
    case Variant(ctors) => AddCtors(defs, key, ctors, c1)
    case Alias(_) => c1
    case Abstract => c1
  }

  /** `keys` lists the declarations in the order of the fold. */
  function BuildCtx(defs: Decls, keys: seq<string>): Ctx
    requires forall k :: k in keys ==> k in defs
  {
    if keys == [] then EMPTY_CTX
    else
      var n := |keys| - 1;
      AddDecl(defs, keys[n], defs[keys[n]], BuildCtx(defs, keys[..n]))
  }

  // ----- what building keeps -----

  /** Every edge joins two nodes, and mutable edges are edges. */
  ghost predicate CtxOk(c: Ctx) {
    Nodes(c.graph) <= c.graph.Keys && forall e :: e in c.mutableEdges ==> Edge(c.graph, e.0, e.1)
  }

  lemma WithEdgeOk(c: Ctx, src: Node, target: Node, mut: bool)
    requires CtxOk(c)
    ensures CtxOk(WithEdge(c, src, target, mut))
    ensures forall a, b :: Edge(WithEdge(c, src, target, mut).graph, a, b) <==>
        Edge(c.graph, a, b) || (a == src && b == target)
  {
  }

  lemma WithNodeOk(c: Ctx, n: Node)
    requires CtxOk(c)
    ensures CtxOk(WithNode(c, n))
  {
  }

  lemma {:induction false} AddRefsOk(defs: Decls, visited: set<string>, src: Node, mut: bool, t: Ty, c: Ctx)
    requires CtxOk(c)
    ensures CtxOk(AddRefs(defs, visited, src, mut, t, c))
    decreases defs.Keys - visited, t
  {
    match t
    case Var =>
    case Constant =>
    case Arrow =>
    case Tuple(ts) => AddRefsAllOk(defs, visited, src, mut, ts, c);
    case Array(elem) =>
      WithEdgeOk(c, src, ArrayNode(elem), mut);
      AddRefsOk(defs, visited, ArrayNode(elem), false, elem, WithEdge(c, src, ArrayNode(elem), mut));
    case Defined(key) =>
      if key !in visited {
        if key in defs && defs[key].Alias? {
          AddRefsOk(defs, visited + {key}, src, mut, defs[key].inner, c);
        } else {
          WithEdgeOk(c, src, TypeNode(key), mut);
        }
      }
  }

  lemma {:induction false} AddRefsAllOk(defs: Decls, visited: set<string>, src: Node, mut: bool, ts: seq<Ty>, c: Ctx)
    requires CtxOk(c)
    ensures CtxOk(AddRefsAll(defs, visited, src, mut, ts, c))
    decreases defs.Keys - visited, ts
  {
    if ts != [] {
      AddRefsOk(defs, visited, src, mut, ts[0], c);
      AddRefsAllOk(defs, visited, src, mut, ts[1..], AddRefs(defs, visited, src, mut, ts[0], c));
    }
  }

  lemma {:induction false} AddBodyOk(defs: Decls, src: Node, fields: seq<Field>, c: Ctx)
    requires CtxOk(c)
    ensures CtxOk(AddBody(defs, src, fields, c))
    decreases |fields|
  {
    if fields != [] {
      AddRefsOk(defs, {}, src, fields[0].mut, fields[0].ty, c);
      AddBodyOk(defs, src, fields[1..], AddRefs(defs, {}, src, fields[0].mut, fields[0].ty, c));
    }
  }

  lemma {:induction false} AddCtorsOk(defs: Decls, key: string, ctors: seq<Ctor>, c: Ctx)
    requires CtxOk(c)
    ensures CtxOk(AddCtors(defs, key, ctors, c))
    decreases |ctors|
  {
    if ctors != [] {
      var n := CtorNode(key, ctors[0].tag);
      WithNodeOk(c, n);
      WithEdgeOk(WithNode(c, n), TypeNode(key), n, false);
      var c1 := WithEdge(WithNode(c, n), TypeNode(key), n, false);
      AddBodyOk(defs, n, CtorFields(ctors[0].arg), c1);
      AddCtorsOk(defs, key, ctors[1..], AddBody(defs, n, CtorFields(ctors[0].arg), c1));
    }
  }

  lemma {:induction false} BuildCtxOk(defs: Decls, keys: seq<string>)
    requires forall k :: k in keys ==> k in defs
    ensures CtxOk(BuildCtx(defs, keys))
    decreases |keys|
  {
    if keys != [] {
      var n := |keys| - 1;
      BuildCtxOk(defs, keys[..n]);
      var key := keys[n];
      var c := WithNode(BuildCtx(defs, keys[..n]), TypeNode(key));
      WithNodeOk(BuildCtx(defs, keys[..n]), TypeNode(key));
      match defs[key]
      case Record(fields) =>
        var r := RecordNode(key);
        WithNodeOk(c, r);
        WithEdgeOk(WithNode(c, r), TypeNode(key), r, false);
        AddBodyOk(defs, r, fields, WithEdge(WithNode(c, r), TypeNode(key), r, false));
      case Variant(ctors) => AddCtorsOk(defs, key, ctors, c);
      case Alias(_) =>
      case Abstract =>
    }
  }

  // ----- classification -----

  datatype Prop = MutableCyclic | ImmutableCyclic | AcyclicTrackable | Acyclic

  predicate HasMutableEdge(c: Ctx, comp: seq<Node>) {
    exists i :: 0 <= i < |c.mutableEdges| && c.mutableEdges[i].0 in comp && c.mutableEdges[i].1 in comp
  }

  function CyclicNodes(c: Ctx, comps: seq<seq<Node>>): set<Node> {
    if comps == [] then {}
    else
      var comp := comps[|comps| - 1];
      CyclicNodes(c, comps[..|comps| - 1]) + (if HasMutableEdge(c, comp) then set n | n in comp else {})
  }

  predicate IsMutableSource(c: Ctx, n: Node) {
    exists i :: 0 <= i < |c.mutableEdges| && c.mutableEdges[i].0 == n
  }

  function PropOf(c: Ctx, cyclic: set<Node>, reaching: set<Node>, n: Node): Prop {
    if n in cyclic then (if IsMutableSource(c, n) then MutableCyclic else ImmutableCyclic)
    else if n in reaching then AcyclicTrackable
    else Acyclic
  }

  /** A closed walk that uses a mutable edge. */
  ghost predicate IsMutableCycle(c: Ctx, p: seq<Node>) {
    IsCycle(c.graph, p) && exists i {:trigger MutableStep(c, p, i)} :: MutableStep(c, p, i)
  }

  ghost predicate MutableStep(c: Ctx, p: seq<Node>, i: nat) {
    0 < i < |p| && (p[i - 1], p[i]) in c.mutableEdges
  }

  ghost predicate OnMutableCycle(c: Ctx, n: Node) {
    exists p :: IsMutableCycle(c, p) && n in p
  }

  /** A mutable edge with its ends mutually reachable closes a mutable cycle through any third
      node of their component. */
  lemma MutableCycleThrough(c: Ctx, n: Node, u: Node, v: Node)
    requires (u, v) in c.mutableEdges && Edge(c.graph, u, v) && Reaches(c.graph, n, u) && Reaches(c.graph, v, n)
    ensures OnMutableCycle(c, n)
  {
    var g := c.graph;
    var p :| WalkBetween(g, p, n, u);
    var q :| WalkBetween(g, q, v, n);
    assert WalkBetween(g, [u, v], u, v);
    WalkConcat(g, p, [u, v], n, u, v);
    var r := p + [u, v][1..];
    WalkConcat(g, r, q, n, v, n);
    var w := r + q[1..];
    assert w[|p| - 1] == u && w[|p|] == v;
    assert MutableStep(c, w, |p|);
    assert IsMutableCycle(c, w) && w[0] == n;
  }

  /** A component has a mutable edge inside exactly if its nodes lie on mutable cycles. */
  lemma ComponentIff(c: Ctx, comp: seq<Node>, n: Node)
    requires CtxOk(c) && IsComponent(c.graph, comp) && n in comp
    ensures HasMutableEdge(c, comp) <==> OnMutableCycle(c, n)
  {
    if HasMutableEdge(c, comp) {
      var i :| 0 <= i < |c.mutableEdges| && c.mutableEdges[i].0 in comp && c.mutableEdges[i].1 in comp;
      var e := c.mutableEdges[i];
      assert (e.0, e.1) == e;
      assert Mutual(c.graph, n, e.0) && Mutual(c.graph, n, e.1);
      MutableCycleThrough(c, n, e.0, e.1);
    }
    if OnMutableCycle(c, n) {
      var p :| IsMutableCycle(c, p) && n in p;
      var i: nat :| MutableStep(c, p, i);
      var k :| 0 <= k < |p| && p[k] == n;
      CycleMutual(c.graph, p, k, i - 1);
      CycleMutual(c.graph, p, i - 1, k);
      CycleMutual(c.graph, p, k, i);
      CycleMutual(c.graph, p, i, k);
      var j :| 0 <= j < |c.mutableEdges| && c.mutableEdges[j] == (p[i - 1], p[i]);
      assert c.mutableEdges[j].0 in comp && c.mutableEdges[j].1 in comp;
    }
  }

  lemma {:induction false} CyclicNodesHas(c: Ctx, comps: seq<seq<Node>>, n: Node)
    ensures n in CyclicNodes(c, comps) <==> exists comp :: comp in comps && n in comp && HasMutableEdge(c, comp)
    decreases |comps|
  {
    if comps != [] {
      var k := |comps| - 1;
      CyclicNodesHas(c, comps[..k], n);
      assert comps == comps[..k] + [comps[k]];
    }
  }

  lemma OnMutableIsOnCycle(c: Ctx, n: Node)
    requires OnMutableCycle(c, n)
    ensures OnCycle(c.graph, n)
  {
    var p :| IsMutableCycle(c, p) && n in p;
    var k :| 0 <= k < |p| && p[k] == n;
    if k == 0 {
      assert p[0] == n;
    } else if k == |p| - 1 {
      assert p[0] == n;
    } else {
      SubWalk(c.graph, p, k, |p| - 1);
      SubWalk(c.graph, p, 0, k);
      WalkConcat(c.graph, p[k..|p|], p[0..k + 1], n, p[0], n);
      var q := p[k..|p|] + p[0..k + 1][1..];
      assert IsCycle(c.graph, q) && q[0] == n;
    }
  }

  lemma CyclicNodesExact(c: Ctx, comps: seq<seq<Node>>, n: Node)
    requires CtxOk(c)
    requires forall comp :: comp in comps ==> IsComponent(c.graph, comp)
    requires forall x :: InSome(comps, x) <==> OnCycle(c.graph, x)
    ensures n in CyclicNodes(c, comps) <==> OnMutableCycle(c, n)
  {
    CyclicNodesHas(c, comps, n);
    if n in CyclicNodes(c, comps) {
      var comp :| comp in comps && n in comp && HasMutableEdge(c, comp);
      ComponentIff(c, comp, n);
    }
    if OnMutableCycle(c, n) {
      OnMutableIsOnCycle(c, n);
      assert InSome(comps, n);
      var comp :| comp in comps && n in comp;
      ComponentIff(c, comp, n);
    }
  }

  /** Everything found or queued reaches a seed, and nothing a found node leads to is lost. */
  ghost predicate SearchInv(rev: Graph<Node>, all: set<Node>, seeds: set<Node>, visited: set<Node>, queue: seq<Node>) {
    && visited <= all
    && (forall n {:trigger FoundOk(rev, all, seeds, n)} :: n in visited || n in queue ==> FoundOk(rev, all, seeds, n))
    && (forall n {:trigger KeptIn(visited, queue, n)} :: n in seeds ==> KeptIn(visited, queue, n))
    && (forall n, p {:trigger PredKept(rev, visited, queue, n, p)} :: PredKept(rev, visited, queue, n, p))
  }

  ghost predicate FoundOk(rev: Graph<Node>, all: set<Node>, seeds: set<Node>, n: Node) {
    n in all && FromRoots(rev, seeds, n)
  }

  ghost predicate KeptIn(visited: set<Node>, queue: seq<Node>, n: Node) {
    n in visited || n in queue
  }

  ghost predicate PredKept(rev: Graph<Node>, visited: set<Node>, queue: seq<Node>, n: Node, p: Node) {
    n in visited && p in Successors(rev, n) ==> KeptIn(visited, queue, p)
  }

  /** Append the nodes of a set that are not visited, in any order. */
  method PushUnvisited(queue: seq<Node>, nodes: set<Node>, visited: set<Node>) returns (r: seq<Node>)
    ensures forall n :: n in r <==> n in queue || (n in nodes && n !in visited)
  {
    r := queue;
    var todo := nodes;
    while todo != {}
      invariant todo <= nodes
      invariant forall n :: n in r <==> n in queue || (n in nodes && n !in visited && n !in todo)
      decreases todo
    {
      var n :| n in todo;
      todo := todo - {n};
      if n !in visited {
        r := r + [n];
      }
    }
  }

  lemma SearchStep(rev: Graph<Node>, all: set<Node>, seeds: set<Node>, visited: set<Node>, queue: seq<Node>,
          rest: seq<Node>)
    requires queue != [] && SearchInv(rev, all, seeds, visited, queue) && Closed(rev, all) && queue[0] !in visited
    requires forall p :: p in rest <==>
        p in queue[1..] || (p in Successors(rev, queue[0]) && p !in visited + {queue[0]})
    ensures SearchInv(rev, all, seeds, visited + {queue[0]}, rest)
  {
    var v := queue[0];
    assert queue == [v] + queue[1..];
    assert FoundOk(rev, all, seeds, v);
    forall n | n in visited + {v} || n in rest ensures FoundOk(rev, all, seeds, n) {
      if n in visited || n in queue {
        assert FoundOk(rev, all, seeds, n);
      } else {
        assert Edge(rev, v, n);
        ReachesEdge(rev, v, n);
        FromRootsStep(rev, seeds, v, n);
      }
    }
    forall n | n in seeds ensures KeptIn(visited + {v}, rest, n) {
      assert KeptIn(visited, queue, n);
    }
    forall n, p ensures PredKept(rev, visited + {v}, rest, n, p) {
      assert PredKept(rev, visited, queue, n, p);
    }
  }

  lemma SkipStep(rev: Graph<Node>, all: set<Node>, seeds: set<Node>, visited: set<Node>, queue: seq<Node>)
    requires queue != [] && SearchInv(rev, all, seeds, visited, queue) && queue[0] in visited
    ensures SearchInv(rev, all, seeds, visited, queue[1..])
  {
    var rest := queue[1..];
    assert queue == [queue[0]] + rest;
    forall n | n in visited || n in rest ensures FoundOk(rev, all, seeds, n) {
    }
    forall n | n in seeds ensures KeptIn(visited, rest, n) {
      assert KeptIn(visited, queue, n);
    }
    forall n, p ensures PredKept(rev, visited, rest, n, p) {
      assert PredKept(rev, visited, queue, n, p);
    }
  }

  lemma SearchDone(g: Graph<Node>, rev: Graph<Node>, seeds: set<Node>, visited: set<Node>, n: Node)
    requires IsReverse(g, rev) && SearchInv(rev, Nodes(g), seeds, visited, [])
    ensures n in visited <==> exists s :: s in seeds && Reaches(g, n, s)
  {
    if n in visited {
      assert FoundOk(rev, Nodes(g), seeds, n);
      var s := FromSome(rev, seeds, n);
      ReverseReaches(g, rev, n, s);
    }
    if s :| s in seeds && Reaches(g, n, s) {
      ReverseReaches(g, rev, n, s);
      assert KeptIn(visited, [], s);
      forall a | a in visited ensures Successors(rev, a) <= visited {
        forall b | b in Successors(rev, a) ensures b in visited {
          assert PredKept(rev, visited, [], a, b);
        }
      }
      ClosedContainsReach(rev, visited, s, n);
    }
  }

  /** The nodes from which some seed is reached, by a queue over the reversed graph. */
  method ReachableFrom(g: Graph<Node>, seeds: set<Node>) returns (visited: set<Node>)
    requires seeds <= Nodes(g)
    ensures forall n :: n in visited <==> exists s :: s in seeds && Reaches(g, n, s)
  {
    var rev := Reverse(g);
    ReverseIsReverse(g);
    ReverseStaysInside(g, rev);
    visited := {};
    var queue := PushUnvisited([], seeds, {});
    forall s | s in seeds ensures FoundOk(rev, Nodes(g), seeds, s) && KeptIn(visited, queue, s) {
      ReachesRefl(rev, s);
    }
    while queue != []
      invariant SearchInv(rev, Nodes(g), seeds, visited, queue)
      decreases Nodes(g) - visited, |queue|
    {
      var n := queue[0];
      if n in visited {
        SkipStep(rev, Nodes(g), seeds, visited, queue);
        queue := queue[1..];
      } else {
        assert FoundOk(rev, Nodes(g), seeds, n);
        var rest := PushUnvisited(queue[1..], Successors(rev, n), visited + {n});
        SearchStep(rev, Nodes(g), seeds, visited, queue, rest);
        visited := visited + {n};
        queue := rest;
      }
    }
    forall n ensures n in visited <==> exists s :: s in seeds && Reaches(g, n, s) {
      SearchDone(g, rev, seeds, visited, n);
    }
  }

  /** The classification in terms of walks. */
  ghost predicate Classified(c: Ctx, n: Node, p: Prop) {
    && (p == MutableCyclic <==> OnMutableCycle(c, n) && IsMutableSource(c, n))
    && (p == ImmutableCyclic <==> OnMutableCycle(c, n) && !IsMutableSource(c, n))
    && (p == AcyclicTrackable <==> !OnMutableCycle(c, n) && exists m :: OnMutableCycle(c, m) && Reaches(c.graph, n, m))
  }

  lemma OnMutableIsNode(c: Ctx, n: Node)
    requires OnMutableCycle(c, n)
    ensures n in Nodes(c.graph)
  {
    OnMutableIsOnCycle(c, n);
    var p :| IsCycle(c.graph, p) && p[0] == n;
    assert Edge(c.graph, p[1 - 1], p[1]);
  }

  method Classify(c: Ctx) returns (props: map<Node, Prop>)
    requires CtxOk(c)
    ensures props.Keys == Nodes(c.graph)
    ensures forall n :: n in props ==> Classified(c, n, props[n])
  {
    var comps := CyclicComponents.CyclicComponents(c.graph);
    var cyclic := CyclicNodes(c, comps);
    forall n ensures n in cyclic <==> OnMutableCycle(c, n) {
      CyclicNodesExact(c, comps, n);
    }
    forall n | n in cyclic ensures n in Nodes(c.graph) {
      OnMutableIsNode(c, n);
    }
    var reaching := ReachableFrom(c.graph, cyclic);
    props := map n | n in c.graph.Keys :: PropOf(c, cyclic, reaching, n);
    forall n | n in props ensures Classified(c, n, props[n]) {
    }
  }

  /** Every mutable cycle passes through a mutable-cyclic node. */
  lemma MutableCycleHasSource(c: Ctx, p: seq<Node>, props: map<Node, Prop>) returns (n: Node)
    requires CtxOk(c) && IsMutableCycle(c, p)
    requires props.Keys == Nodes(c.graph) && forall m :: m in props ==> Classified(c, m, props[m])
    ensures n in p && n in props && props[n] == MutableCyclic
  {
    var k: nat :| MutableStep(c, p, k);
    n := p[k - 1];
    SourceIsMutableCyclic(c, p, k);
    MutableNodeClassified(c, n, props);
  }

  lemma MutableNodeClassified(c: Ctx, n: Node, props: map<Node, Prop>)
    requires OnMutableCycle(c, n) && IsMutableSource(c, n)
    requires props.Keys == Nodes(c.graph) && forall m :: m in props ==> Classified(c, m, props[m])
    ensures n in props && props[n] == MutableCyclic
  {
    OnMutableIsNode(c, n);
    assert Classified(c, n, props[n]);
  }

  lemma SourceIsMutableCyclic(c: Ctx, p: seq<Node>, k: nat)
    requires IsMutableCycle(c, p) && MutableStep(c, p, k)
    ensures OnMutableCycle(c, p[k - 1]) && IsMutableSource(c, p[k - 1])
  {
    assert p[k - 1] in p;
    var j :| 0 <= j < |c.mutableEdges| && c.mutableEdges[j] == (p[k - 1], p[k]);
    assert c.mutableEdges[j].0 == p[k - 1];
  }

  method Analyze(defs: Decls, keys: seq<string>) returns (props: map<Node, Prop>)
    requires forall k :: k in keys <==> k in defs
    ensures var c := BuildCtx(defs, keys);
      props.Keys == Nodes(c.graph) && forall n :: n in props ==> Classified(c, n, props[n])
  {
    BuildCtxOk(defs, keys);
    props := Classify(BuildCtx(defs, keys));
  }
}
