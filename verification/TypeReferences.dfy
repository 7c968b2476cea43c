/** What the graph of the cyclic analysis means: which edges the declarations call for. */
module TypeReferences {
  import opened Graphs
  import opened CyclicAnalysis

  /** A type mentioned in a field of `src`. */
  datatype Use = Use(src: Node, mut: bool, ty: Ty)

  predicate IsAlias(defs: Decls, key: string) {
    key in defs && defs[key].Alias?
  }

  /** Parts of tuples, elements of arrays and expansions of aliases are mentioned in turn. */
  predicate Unfolds(defs: Decls, u: Use, w: Use) {
    match u.ty
    case Tuple(ts) => w.src == u.src && w.mut == u.mut && w.ty in ts
    case Array(elem) => w == Use(ArrayNode(elem), false, elem)
    case Defined(key) => IsAlias(defs, key) && w == Use(u.src, u.mut, defs[key].inner)
    case _ => false
  }

  /** The edge that a mentioned array or defined type calls for. */
  predicate PointsTo(defs: Decls, u: Use, a: Node, b: Node, mut: bool) {
    match u.ty
    case Array(elem) => a == u.src && b == ArrayNode(elem) && mut == u.mut
    case Defined(key) => !IsAlias(defs, key) && a == u.src && b == TypeNode(key) && mut == u.mut
    case _ => false
  }

  ghost predicate Unfolding(defs: Decls, p: seq<Use>, u: Use) {
    |p| > 0 && p[0] == u && forall i {:trigger p[i]} :: 0 < i < |p| ==> Unfolds(defs, p[i - 1], p[i])
  }

  /** Some chain of mentions that starts at `u` calls for the edge. */
  ghost predicate Refers(defs: Decls, u: Use, a: Node, b: Node, mut: bool) {
    exists p :: Unfolding(defs, p, u) && PointsTo(defs, p[|p| - 1], a, b, mut)
  }

  lemma RefersHere(defs: Decls, u: Use, a: Node, b: Node, mut: bool)
    requires PointsTo(defs, u, a, b, mut)
    ensures Refers(defs, u, a, b, mut)
  {
    assert Unfolding(defs, [u], u);
  }

  lemma RefersThrough(defs: Decls, u: Use, w: Use, a: Node, b: Node, mut: bool)
    requires Unfolds(defs, u, w) && Refers(defs, w, a, b, mut)
    ensures Refers(defs, u, a, b, mut)
  {
    var p :| Unfolding(defs, p, w) && PointsTo(defs, p[|p| - 1], a, b, mut);
    var q := [u] + p;
    forall i {:trigger q[i]} | 0 < i < |q| ensures Unfolds(defs, q[i - 1], q[i]) {
      assert q[i] == p[i - 1];
      assert i > 1 ==> q[i - 1] == p[i - 2];
    }
    assert q[|q| - 1] == p[|p| - 1];
  }

  // ----- each alias is looked through at most once -----

  ghost predicate IsAliasUse(defs: Decls, u: Use) {
    u.ty.Defined? && IsAlias(defs, u.ty.key)
  }

  ghost function AliasKeys(defs: Decls, u: Use): set<string> {
    if IsAliasUse(defs, u) then {u.ty.key} else {}
  }

  /** The chain expands no alias twice, and none that was expanded before. */
  ghost predicate ExpandsOnce(defs: Decls, visited: set<string>, p: seq<Use>) {
    forall i {:trigger p[i]} :: 0 <= i < |p| && IsAliasUse(defs, p[i]) ==>
      p[i].ty.key !in visited
      && forall j {:trigger p[j]} :: i < j < |p| && IsAliasUse(defs, p[j]) ==> p[j].ty.key != p[i].ty.key
  }

  /** Some chain of mentions calls for the edge that expands no alias twice. */
  ghost predicate RefersOnce(defs: Decls, visited: set<string>, u: Use, a: Node, b: Node, mut: bool) {
    exists p :: Unfolding(defs, p, u) && ExpandsOnce(defs, visited, p) && PointsTo(defs, p[|p| - 1], a, b, mut)
  }

  lemma OnceHere(defs: Decls, visited: set<string>, u: Use, a: Node, b: Node, mut: bool)
    requires PointsTo(defs, u, a, b, mut)
    ensures RefersOnce(defs, visited, u, a, b, mut)
  {
    assert Unfolding(defs, [u], u) && ExpandsOnce(defs, visited, [u]);
  }

  lemma OnceThrough(defs: Decls, visited: set<string>, u: Use, w: Use, a: Node, b: Node, mut: bool)
    requires Unfolds(defs, u, w) && AliasKeys(defs, u) !! visited
    requires RefersOnce(defs, visited + AliasKeys(defs, u), w, a, b, mut)
    ensures RefersOnce(defs, visited, u, a, b, mut)
  {
    var p :| Unfolding(defs, p, w) && ExpandsOnce(defs, visited + AliasKeys(defs, u), p)
        && PointsTo(defs, p[|p| - 1], a, b, mut);
    var q := [u] + p;
    forall i {:trigger q[i]} | 0 < i < |q| ensures Unfolds(defs, q[i - 1], q[i]) {
      assert q[i] == p[i - 1];
      assert i > 1 ==> q[i - 1] == p[i - 2];
    }
    forall i | 0 <= i < |q| && IsAliasUse(defs, q[i])
      ensures q[i].ty.key !in visited
      ensures forall j {:trigger q[j]} :: i < j < |q| && IsAliasUse(defs, q[j]) ==> q[j].ty.key != q[i].ty.key
    {
      assert i > 0 ==> q[i] == p[i - 1];
      forall j | i < j < |q| && IsAliasUse(defs, q[j]) ensures q[j].ty.key != q[i].ty.key {
        assert q[j] == p[j - 1];
      }
    }
    assert q[|q| - 1] == p[|p| - 1];
  }

  lemma OnceSplit(defs: Decls, visited: set<string>, u: Use, a: Node, b: Node, mut: bool) returns (w: Use)
    requires RefersOnce(defs, visited, u, a, b, mut) && !PointsTo(defs, u, a, b, mut)
    ensures Unfolds(defs, u, w) && AliasKeys(defs, u) !! visited
    ensures RefersOnce(defs, visited + AliasKeys(defs, u), w, a, b, mut)
  {
    var p :| Unfolding(defs, p, u) && ExpandsOnce(defs, visited, p) && PointsTo(defs, p[|p| - 1], a, b, mut);
    w := p[1];
    var q := p[1..];
    assert p[0] == u;
    forall i {:trigger q[i]} | 0 < i < |q| ensures Unfolds(defs, q[i - 1], q[i]) {
      assert q[i] == p[i + 1] && q[i - 1] == p[i];
    }
    forall i | 0 <= i < |q| && IsAliasUse(defs, q[i])
      ensures q[i].ty.key !in visited + AliasKeys(defs, u)
      ensures forall j {:trigger q[j]} :: i < j < |q| && IsAliasUse(defs, q[j]) ==> q[j].ty.key != q[i].ty.key
    {
      assert q[i] == p[i + 1];
      forall j | i < j < |q| && IsAliasUse(defs, q[j]) ensures q[j].ty.key != q[i].ty.key {
        assert q[j] == p[j + 1];
      }
    }
    assert q[|q| - 1] == p[|p| - 1] && Unfolding(defs, q, w);
  }

  // ----- the edges that are built -----

  /** The graph has the edge, as a mutable one if asked. */
  predicate HasEdge(c: Ctx, a: Node, b: Node, mut: bool) {
    b in Successors(c.graph, a) && (mut ==> (a, b) in c.mutableEdges)
  }

  /** An edge that is called for mutably is there in both ways. */
  ghost predicate Wants(defs: Decls, visited: set<string>, u: Use, a: Node, b: Node, mut: bool) {
    RefersOnce(defs, visited, u, a, b, true) || (!mut && RefersOnce(defs, visited, u, a, b, false))
  }

  lemma WithEdgeHas(c: Ctx, src: Node, target: Node, m: bool, a: Node, b: Node, mut: bool)
    requires CtxOk(c)
    ensures HasEdge(WithEdge(c, src, target, m), a, b, mut) <==>
        HasEdge(c, a, b, mut) || (a == src && b == target && (mut ==> m))
  {
    if mut && m && HasEdge(WithEdge(c, src, target, m), a, b, mut) && !(a == src && b == target) {
      assert (a, b) in c.mutableEdges && Edge(c.graph, a, b);
    }
    if mut && (a, b) in c.mutableEdges {
      assert Edge(c.graph, (a, b).0, (a, b).1);
    }
  }

  lemma WithNodeHas(c: Ctx, n: Node, a: Node, b: Node, mut: bool)
    ensures HasEdge(WithNode(c, n), a, b, mut) <==> HasEdge(c, a, b, mut)
  {
  }

  /** A type mention adds exactly the edges that its unfolding calls for, expanding no alias twice. */
  lemma {:induction false} AddRefsExact(defs: Decls, visited: set<string>, src: Node, m: bool, t: Ty, c: Ctx, a: Node,
          b: Node, mut: bool)
    requires CtxOk(c) && forall k :: k in visited ==> IsAlias(defs, k)
    ensures HasEdge(AddRefs(defs, visited, src, m, t, c), a, b, mut) <==>
        HasEdge(c, a, b, mut) || Wants(defs, visited, Use(src, m, t), a, b, mut)
    decreases defs.Keys - visited, t
  {
    var u := Use(src, m, t);
    match t
    case Tuple(ts) =>
      AddRefsAllExact(defs, visited, src, m, ts, c, a, b, mut);
      TupleWants(defs, visited, src, m, ts, a, b, mut);
    case Array(elem) =>
      WithEdgeOk(c, src, ArrayNode(elem), m);
      WithEdgeHas(c, src, ArrayNode(elem), m, a, b, mut);
      AddRefsExact(defs, visited, ArrayNode(elem), false, elem, WithEdge(c, src, ArrayNode(elem), m), a, b, mut);
      ArrayWants(defs, visited, src, m, elem, a, b, mut);
    case Defined(key) =>
      if key in visited {
        ExpandedWantsNone(defs, visited, u, a, b, mut);
      } else if IsAlias(defs, key) {
        AddRefsExact(defs, visited + {key}, src, m, defs[key].inner, c, a, b, mut);
        AliasWants(defs, visited, u, a, b, mut);
      } else {
        WithEdgeHas(c, src, TypeNode(key), m, a, b, mut);
        LeafWants(defs, visited, u, a, b, mut);
      }
    case _ => LeafWants(defs, visited, u, a, b, mut);
  }

  lemma ExpandedWantsNone(defs: Decls, visited: set<string>, u: Use, a: Node, b: Node, mut: bool)
    requires IsAliasUse(defs, u) && u.ty.key in visited
    ensures !Wants(defs, visited, u, a, b, mut)
  {
    forall n ensures !RefersOnce(defs, visited, u, a, b, n) {
      forall p | Unfolding(defs, p, u) ensures !ExpandsOnce(defs, visited, p) {
        assert p[0] == u;
      }
    }
  }

  lemma AliasWants(defs: Decls, visited: set<string>, u: Use, a: Node, b: Node, mut: bool)
    requires IsAliasUse(defs, u) && u.ty.key !in visited
    ensures Wants(defs, visited, u, a, b, mut) <==>
        Wants(defs, visited + {u.ty.key}, Use(u.src, u.mut, defs[u.ty.key].inner), a, b, mut)
  {
    var w := Use(u.src, u.mut, defs[u.ty.key].inner);
    forall n
      ensures RefersOnce(defs, visited, u, a, b, n) <==> RefersOnce(defs, visited + {u.ty.key}, w, a, b, n)
    {
      if RefersOnce(defs, visited, u, a, b, n) {
        var x := OnceSplit(defs, visited, u, a, b, n);
      }
      if RefersOnce(defs, visited + {u.ty.key}, w, a, b, n) {
        OnceThrough(defs, visited, u, w, a, b, n);
      }
    }
  }

  lemma LeafWants(defs: Decls, visited: set<string>, u: Use, a: Node, b: Node, mut: bool)
    requires forall x :: !Unfolds(defs, u, x)
    ensures Wants(defs, visited, u, a, b, mut) <==>
        PointsTo(defs, u, a, b, true) || (!mut && PointsTo(defs, u, a, b, false))
  {
    forall n ensures RefersOnce(defs, visited, u, a, b, n) <==> PointsTo(defs, u, a, b, n) {
      if RefersOnce(defs, visited, u, a, b, n) && !PointsTo(defs, u, a, b, n) {
        var x := OnceSplit(defs, visited, u, a, b, n);
      }
      if PointsTo(defs, u, a, b, n) {
        OnceHere(defs, visited, u, a, b, n);
      }
    }
  }

  lemma ArrayWants(defs: Decls, visited: set<string>, src: Node, m: bool, elem: Ty, a: Node, b: Node, mut: bool)
    ensures Wants(defs, visited, Use(src, m, Array(elem)), a, b, mut) <==>
        (a == src && b == ArrayNode(elem) && (mut ==> m))
        || Wants(defs, visited, Use(ArrayNode(elem), false, elem), a, b, mut)
  {
    var u, w := Use(src, m, Array(elem)), Use(ArrayNode(elem), false, elem);
    assert visited + AliasKeys(defs, u) == visited;
    forall n
      ensures RefersOnce(defs, visited, u, a, b, n) <==>
          PointsTo(defs, u, a, b, n) || RefersOnce(defs, visited, w, a, b, n)
    {
      if PointsTo(defs, u, a, b, n) {
        OnceHere(defs, visited, u, a, b, n);
      } else if RefersOnce(defs, visited, u, a, b, n) {
        var x := OnceSplit(defs, visited, u, a, b, n);
      }
      if RefersOnce(defs, visited, w, a, b, n) {
        OnceThrough(defs, visited, u, w, a, b, n);
      }
    }
  }

  ghost predicate SomeWants(defs: Decls, visited: set<string>, src: Node, m: bool, ts: seq<Ty>, a: Node, b: Node,
          mut: bool) {
    exists t :: t in ts && Wants(defs, visited, Use(src, m, t), a, b, mut)
  }

  lemma TupleRefers(defs: Decls, visited: set<string>, src: Node, m: bool, ts: seq<Ty>, a: Node, b: Node, n: bool)
    ensures RefersOnce(defs, visited, Use(src, m, Tuple(ts)), a, b, n) <==>
        exists t :: t in ts && RefersOnce(defs, visited, Use(src, m, t), a, b, n)
  {
    var u := Use(src, m, Tuple(ts));
    assert visited + AliasKeys(defs, u) == visited;
    if RefersOnce(defs, visited, u, a, b, n) {
      var x := OnceSplit(defs, visited, u, a, b, n);
      assert x == Use(src, m, x.ty) && x.ty in ts;
    }
    if t :| t in ts && RefersOnce(defs, visited, Use(src, m, t), a, b, n) {
      OnceThrough(defs, visited, u, Use(src, m, t), a, b, n);
    }
  }

  lemma TupleWants(defs: Decls, visited: set<string>, src: Node, m: bool, ts: seq<Ty>, a: Node, b: Node, mut: bool)
    ensures Wants(defs, visited, Use(src, m, Tuple(ts)), a, b, mut) <==> SomeWants(defs, visited, src, m, ts, a, b, mut)
  {
    TupleRefers(defs, visited, src, m, ts, a, b, true);
    TupleRefers(defs, visited, src, m, ts, a, b, false);
  }

  lemma {:induction false} AddRefsAllExact(defs: Decls, visited: set<string>, src: Node, m: bool, ts: seq<Ty>, c: Ctx,
          a: Node, b: Node, mut: bool)
    requires CtxOk(c) && forall k :: k in visited ==> IsAlias(defs, k)
    ensures HasEdge(AddRefsAll(defs, visited, src, m, ts, c), a, b, mut) <==>
        HasEdge(c, a, b, mut) || SomeWants(defs, visited, src, m, ts, a, b, mut)
    decreases defs.Keys - visited, ts
  {
    if ts != [] {
      assert ts == [ts[0]] + ts[1..];
      AddRefsOk(defs, visited, src, m, ts[0], c);
      AddRefsExact(defs, visited, src, m, ts[0], c, a, b, mut);
      AddRefsAllExact(defs, visited, src, m, ts[1..], AddRefs(defs, visited, src, m, ts[0], c), a, b, mut);
    }
  }

  // ----- declarations -----

  ghost predicate BodyWants(defs: Decls, src: Node, fields: seq<Field>, a: Node, b: Node, mut: bool) {
    exists f :: f in fields && Wants(defs, {}, Use(src, f.mut, f.ty), a, b, mut)
  }

  ghost predicate CtorWants(defs: Decls, key: string, k: Ctor, a: Node, b: Node, mut: bool) {
    var n := CtorNode(key, k.tag);
    (a == TypeNode(key) && b == n && !mut) || BodyWants(defs, n, CtorFields(k.arg), a, b, mut)
  }

  /** The edges a declaration calls for: from the type to its body or constructors, and from
      those to what their fields mention. */
  ghost predicate DeclWants(defs: Decls, key: string, a: Node, b: Node, mut: bool) {
    key in defs &&
    match defs[key]
    case Record(fields) => (a == TypeNode(key) && b == RecordNode(key) && !mut)
        || BodyWants(defs, RecordNode(key), fields, a, b, mut)
    case Variant(ctors) => SomeCtorWants(defs, key, ctors, a, b, mut)
    case _ => false
  }

  lemma {:induction false} AddBodyExact(defs: Decls, src: Node, fields: seq<Field>, c: Ctx, a: Node, b: Node, mut: bool)
    requires CtxOk(c)
    ensures HasEdge(AddBody(defs, src, fields, c), a, b, mut) <==>
        HasEdge(c, a, b, mut) || BodyWants(defs, src, fields, a, b, mut)
    decreases |fields|
  {
    if fields != [] {
      var f := fields[0];
      AddRefsOk(defs, {}, src, f.mut, f.ty, c);
      AddRefsExact(defs, {}, src, f.mut, f.ty, c, a, b, mut);
      AddBodyExact(defs, src, fields[1..], AddRefs(defs, {}, src, f.mut, f.ty, c), a, b, mut);
      BodyWantsSplit(defs, src, fields, a, b, mut);
    }
  }

  lemma BodyWantsSplit(defs: Decls, src: Node, fields: seq<Field>, a: Node, b: Node, mut: bool)
    requires fields != []
    ensures BodyWants(defs, src, fields, a, b, mut) <==>
        Wants(defs, {}, Use(src, fields[0].mut, fields[0].ty), a, b, mut)
        || BodyWants(defs, src, fields[1..], a, b, mut)
  {
    assert fields == [fields[0]] + fields[1..];
  }

  function AddCtor(defs: Decls, key: string, k: Ctor, c: Ctx): Ctx {
    var n := CtorNode(key, k.tag);
    AddBody(defs, n, CtorFields(k.arg), WithEdge(WithNode(c, n), TypeNode(key), n, false))
  }

  lemma AddCtorExact(defs: Decls, key: string, k: Ctor, c: Ctx, a: Node, b: Node, mut: bool)
    requires CtxOk(c)
    ensures CtxOk(AddCtor(defs, key, k, c))
    ensures HasEdge(AddCtor(defs, key, k, c), a, b, mut) <==>
        HasEdge(c, a, b, mut) || CtorWants(defs, key, k, a, b, mut)
  {
    var n, fields := CtorNode(key, k.tag), CtorFields(k.arg);
    var c1 := WithEdge(WithNode(c, n), TypeNode(key), n, false);
    WithNodeOk(c, n);
    WithNodeHas(c, n, a, b, mut);
    WithEdgeOk(WithNode(c, n), TypeNode(key), n, false);
    WithEdgeHas(WithNode(c, n), TypeNode(key), n, false, a, b, mut);
    AddBodyOk(defs, n, fields, c1);
    AddBodyExact(defs, n, fields, c1, a, b, mut);
  }

  ghost predicate SomeCtorWants(defs: Decls, key: string, ctors: seq<Ctor>, a: Node, b: Node, mut: bool) {
    exists k :: k in ctors && CtorWants(defs, key, k, a, b, mut)
  }

  lemma {:induction false} AddCtorsExact(defs: Decls, key: string, ctors: seq<Ctor>, c: Ctx, a: Node, b: Node,
          mut: bool)
    requires CtxOk(c)
    ensures HasEdge(AddCtors(defs, key, ctors, c), a, b, mut) <==>
        HasEdge(c, a, b, mut) || SomeCtorWants(defs, key, ctors, a, b, mut)
    decreases |ctors|
  {
    if ctors != [] {
      var k, rest := ctors[0], ctors[1..];
      var c1 := AddCtor(defs, key, k, c);
      AddCtorExact(defs, key, k, c, a, b, mut);
      assert AddCtors(defs, key, ctors, c) == AddCtors(defs, key, rest, c1);
      AddCtorsExact(defs, key, rest, c1, a, b, mut);
      CtorWantsSplit(defs, key, ctors, a, b, mut);
    }
  }

  lemma CtorWantsSplit(defs: Decls, key: string, ctors: seq<Ctor>, a: Node, b: Node, mut: bool)
    requires ctors != []
    ensures SomeCtorWants(defs, key, ctors, a, b, mut)
       <==> CtorWants(defs, key, ctors[0], a, b, mut) || SomeCtorWants(defs, key, ctors[1..], a, b, mut)
  {
    assert ctors == [ctors[0]] + ctors[1..];
  }

  lemma AddDeclExact(defs: Decls, key: string, c: Ctx, a: Node, b: Node, mut: bool)
    requires CtxOk(c) && key in defs
    ensures HasEdge(AddDecl(defs, key, defs[key], c), a, b, mut) <==>
        HasEdge(c, a, b, mut) || DeclWants(defs, key, a, b, mut)
  {
    var c1 := WithNode(c, TypeNode(key));
    WithNodeOk(c, TypeNode(key));
    WithNodeHas(c, TypeNode(key), a, b, mut);
    match defs[key]
    case Record(fields) =>
      var n := RecordNode(key);
      var c2 := WithNode(c1, n);
      WithNodeOk(c1, n);
      WithNodeHas(c1, n, a, b, mut);
      WithEdgeOk(c2, TypeNode(key), n, false);
      WithEdgeHas(c2, TypeNode(key), n, false, a, b, mut);
      AddBodyExact(defs, n, fields, WithEdge(c2, TypeNode(key), n, false), a, b, mut);
    case Variant(ctors) => AddCtorsExact(defs, key, ctors, c1, a, b, mut);
    case _ =>
  }

  /** The graph has exactly the edges the declarations call for, in whatever order they are visited. */
  lemma {:induction false} BuildCtxExact(defs: Decls, keys: seq<string>, a: Node, b: Node, mut: bool)
    requires forall k :: k in keys ==> k in defs
    ensures HasEdge(BuildCtx(defs, keys), a, b, mut) <==> exists k :: k in keys && DeclWants(defs, k, a, b, mut)
    decreases |keys|
  {
    if keys != [] {
      var n := |keys| - 1;
      assert keys == keys[..n] + [keys[n]];
      BuildCtxOk(defs, keys[..n]);
      BuildCtxExact(defs, keys[..n], a, b, mut);
      AddDeclExact(defs, keys[n], BuildCtx(defs, keys[..n]), a, b, mut);
    }
  }

  // ----- acyclic aliases: no chain expands an alias twice -----

  function KeysOf(t: Ty): set<string>
    decreases t
  {
    match t
    case Tuple(ts) => KeysOfAll(ts)
    case Array(elem) => KeysOf(elem)
    case Defined(key) => {key}
    case _ => {}
  }

  function KeysOfAll(ts: seq<Ty>): set<string>
    decreases ts
  {
    if ts == [] then {} else KeysOf(ts[0]) + KeysOfAll(ts[1..])
  }

  lemma {:induction false} KeysOfMember(ts: seq<Ty>, t: Ty)
    requires t in ts
    ensures KeysOf(t) <= KeysOfAll(ts)
    decreases ts
  {
    if t != ts[0] {
      assert ts == [ts[0]] + ts[1..];
      KeysOfMember(ts[1..], t);
    }
  }

  ghost function AliasGraph(defs: Decls): Graph<string> {
    map k | k in defs && defs[k].Alias? :: KeysOf(defs[k].inner)
  }

  /** No alias expands, through others, to a type that mentions it. */
  ghost predicate AliasesAcyclic(defs: Decls) {
    forall p :: !IsCycle(AliasGraph(defs), p)
  }

  /** `k` is an alias whose expansion has led to a mention of `m`. */
  ghost predicate ExpandsTo(defs: Decls, k: string, m: string) {
    exists n :: Edge(AliasGraph(defs), k, n) && Reaches(AliasGraph(defs), n, m)
  }

  ghost predicate LeadsHere(defs: Decls, visited: set<string>, keys: set<string>) {
    forall k, m {:trigger ExpandsTo(defs, k, m)} :: k in visited && m in keys ==> ExpandsTo(defs, k, m)
  }

  lemma VisitedIsNotMentioned(defs: Decls, visited: set<string>, key: string)
    requires AliasesAcyclic(defs) && LeadsHere(defs, visited, {key})
    ensures key !in visited
  {
    if key in visited {
      assert ExpandsTo(defs, key, key);
      var n :| Edge(AliasGraph(defs), key, n) && Reaches(AliasGraph(defs), n, key);
      var p := EdgeOnCycle(AliasGraph(defs), key, n);
      assert false;
    }
  }

  lemma LeadsFurther(defs: Decls, visited: set<string>, key: string)
    requires LeadsHere(defs, visited, {key}) && IsAlias(defs, key)
    ensures LeadsHere(defs, visited + {key}, KeysOf(defs[key].inner))
  {
    var g := AliasGraph(defs);
    forall k, m | k in visited + {key} && m in KeysOf(defs[key].inner) ensures ExpandsTo(defs, k, m) {
      assert Edge(g, key, m);
      ReachesRefl(g, m);
      if k in visited {
        assert ExpandsTo(defs, k, key);
        var n :| Edge(g, k, n) && Reaches(g, n, key);
        ReachesEdge(g, key, m);
        ReachesTrans(g, n, key, m);
      }
    }
  }

  lemma LeadsFewer(defs: Decls, visited: set<string>, keys: set<string>, fewer: set<string>)
    requires LeadsHere(defs, visited, keys) && fewer <= keys
    ensures LeadsHere(defs, visited, fewer)
  {
  }

  lemma {:induction false} ChainExpandsOnce(defs: Decls, visited: set<string>, p: seq<Use>)
    requires AliasesAcyclic(defs) && p != [] && Unfolding(defs, p, p[0])
    requires LeadsHere(defs, visited, KeysOf(p[0].ty))
    ensures ExpandsOnce(defs, visited, p)
    decreases |p|
  {
    var u, q := p[0], p[1..];
    if IsAliasUse(defs, u) {
      VisitedIsNotMentioned(defs, visited, u.ty.key);
    }
    if |p| > 1 {
      assert Unfolds(defs, p[1 - 1], p[1]);
      forall i {:trigger q[i]} | 0 < i < |q| ensures Unfolds(defs, q[i - 1], q[i]) {
        assert q[i] == p[i + 1] && q[i - 1] == p[i];
      }
      MentionsLead(defs, visited, u, q[0]);
      ChainExpandsOnce(defs, visited + AliasKeys(defs, u), q);
      forall i | 0 <= i < |p| && IsAliasUse(defs, p[i])
        ensures p[i].ty.key !in visited
        ensures forall j {:trigger p[j]} :: i < j < |p| && IsAliasUse(defs, p[j]) ==> p[j].ty.key != p[i].ty.key
      {
        assert i > 0 ==> p[i] == q[i - 1];
        forall j | i < j < |p| && IsAliasUse(defs, p[j]) ensures p[j].ty.key != p[i].ty.key {
          assert p[j] == q[j - 1];
        }
      }
    }
  }

  lemma MentionsLead(defs: Decls, visited: set<string>, u: Use, w: Use)
    requires Unfolds(defs, u, w) && LeadsHere(defs, visited, KeysOf(u.ty))
    ensures LeadsHere(defs, visited + AliasKeys(defs, u), KeysOf(w.ty))
  {
    match u.ty
    case Tuple(ts) =>
      KeysOfMember(ts, w.ty);
      LeadsFewer(defs, visited, KeysOf(u.ty), KeysOf(w.ty));
      assert visited + AliasKeys(defs, u) == visited;
    case Array(elem) => assert visited + AliasKeys(defs, u) == visited;
    case Defined(key) => LeadsFurther(defs, visited, key);
  }

  /** With acyclic aliases every chain counts. */
  lemma AcyclicRefersOnce(defs: Decls, u: Use, a: Node, b: Node, mut: bool)
    requires AliasesAcyclic(defs)
    ensures RefersOnce(defs, {}, u, a, b, mut) <==> Refers(defs, u, a, b, mut)
  {
    if Refers(defs, u, a, b, mut) {
      var p :| Unfolding(defs, p, u) && PointsTo(defs, p[|p| - 1], a, b, mut);
      ChainExpandsOnce(defs, {}, p);
    }
  }

  // ----- a cycle the classification does not see -----

  const TREE := Array(Defined("tree"))
  const TREES: Decls := map["tree" := Record([Field(TREE, false)])]

  /** A record whose immutable field is an array of such records: its graph is cyclic, but the
      edge from the array to its elements is never mutable. */
  lemma ArrayElementsCountAsImmutable()
    ensures var c := BuildCtx(TREES, ["tree"]);
      && c.mutableEdges == []
      && IsCycle(c.graph,
          [ArrayNode(Defined("tree")), TypeNode("tree"), RecordNode("tree"), ArrayNode(Defined("tree"))])
      && forall n :: !OnMutableCycle(c, n)
  {
    var ty, rec, arr := TypeNode("tree"), RecordNode("tree"), ArrayNode(Defined("tree"));
    var c0 := WithEdge(WithNode(WithNode(EMPTY_CTX, ty), rec), ty, rec, false);
    var c1 := WithEdge(c0, rec, arr, false);
    var c2 := WithEdge(c1, arr, ty, false);
    assert ["tree"][..0] == [];
    assert AddRefs(TREES, {}, arr, false, Defined("tree"), c1) == c2;
    assert AddRefs(TREES, {}, rec, false, TREE, c0) == c2;
    assert [Field(TREE, false)][1..] == [];
    assert AddBody(TREES, rec, [Field(TREE, false)], c0) == c2;
    assert BuildCtx(TREES, ["tree"][..0]) == EMPTY_CTX;
    assert BuildCtx(TREES, ["tree"]) == c2;
  }

  // ----- an edge that a second expansion would call for -----

  /** Each of two aliases expands to a type that mentions the other, through an array. */
  const LOOPED: Decls := map[
    "a" := Alias(Array(Defined("b"))),
    "b" := Alias(Tuple([Defined("a")])),
    "r" := Record([Field(Defined("a"), false)])]

  /** The parts of `b` hold arrays of `b`, but `a` has been expanded when the walk comes to them, and the edge
      from the array to itself is not added. */
  lemma LoopedAliasMissesEdge()
    ensures var c, arr := BuildCtx(LOOPED, ["r"]), ArrayNode(Defined("b"));
      && Refers(LOOPED, Use(RecordNode("r"), false, Defined("a")), arr, arr, false) && !Edge(c.graph, arr, arr)
  {
    var ty, rec, arr := TypeNode("r"), RecordNode("r"), ArrayNode(Defined("b"));
    var c0 := WithEdge(WithNode(WithNode(EMPTY_CTX, ty), rec), ty, rec, false);
    var c1 := WithEdge(c0, rec, arr, false);
    var va, vb := {"a"}, {"a"} + {"b"};
    assert AddRefs(LOOPED, vb, arr, false, Defined("a"), c1) == c1;
    assert [Defined("a")][1..] == [];
    assert AddRefsAll(LOOPED, vb, arr, false, [], c1) == c1;
    assert AddRefsAll(LOOPED, vb, arr, false, [Defined("a")], c1) == c1;
    assert AddRefs(LOOPED, vb, arr, false, Tuple([Defined("a")]), c1) == c1;
    assert AddRefs(LOOPED, va, arr, false, Defined("b"), c1) == c1;
    assert {} + {"a"} == va;
    assert AddRefs(LOOPED, {}, rec, false, Defined("a"), c0) == c1;
    assert [Field(Defined("a"), false)][1..] == [];
    assert AddBody(LOOPED, rec, [Field(Defined("a"), false)], c0) == c1;
    assert ["r"][..0] == [] && BuildCtx(LOOPED, ["r"]) == c1;
    LoopedAliasRefers();
  }

  lemma LoopedAliasRefers()
    ensures var arr := ArrayNode(Defined("b"));
      Refers(LOOPED, Use(RecordNode("r"), false, Defined("a")), arr, arr, false)
  {
    var rec, arr := RecordNode("r"), ArrayNode(Defined("b"));
    var p := [Use(rec, false, Defined("a")), Use(rec, false, Array(Defined("b"))), Use(arr, false, Defined("b")),
      Use(arr, false, Tuple([Defined("a")])), Use(arr, false, Defined("a")), Use(arr, false, Array(Defined("b")))];
    assert Defined("a") in [Defined("a")];
    forall i {:trigger p[i]} | 0 < i < |p| ensures Unfolds(LOOPED, p[i - 1], p[i]) {
      assert i in {1, 2, 3, 4, 5};
    }
    assert Unfolding(LOOPED, p, p[0]) && PointsTo(LOOPED, p[|p| - 1], arr, arr, false);
  }
}
