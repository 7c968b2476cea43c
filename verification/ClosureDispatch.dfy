/** Closures at run time: what lowering builds for a module's closure statements,
    and which function an application of a chain of closures ends up calling. */
module ClosureDispatch {
  import opened Graphs
  import opened DispatchIds
  import opened ClosureGraph
  import opened Oir
  import opened Options
  import opened Trampolines

  /** A module with its closure analysis. `ret` and `generic` are the analysis' return types; `available`
      are the functions compiled under their own names, with their declared types. */
  datatype Module = Module(
    stmts: seq<Stmt>,
    graph: ClosureGraph,
    offsets: Offsets,
    leaves: seq<int>,
    ret: map<int, OTy>,
    generic: set<int>,
    available: map<string, Signature>)

  ghost predicate Analysed(m: Module) {
    && WellOrdered(m.stmts) && m.graph == BuildGraph(m.stmts)
    && m.offsets == OffsetsOf(m.stmts) && AreLeaves(m.graph, m.leaves)
  }

  // ----- names and bodies -----

  function Specs(m: Module, r: int): seq<Specialisation> {
    CollectLeaves(m.graph, m.offsets, r, m.leaves, [])
  }

  function RetOf(m: Module, d: int): OTy {
    if d in m.generic then I64 else if d in m.ret then m.ret[d] else I64
  }

  /** The wrapper name the root's accumulator calls. */
  function CalledWrapper(m: Module, r: int, x: Specialisation): FnName {
    var ret, spec := RetOf(m, r), LowerTy(x.ret);
    Wrapper(x.fn, LowerTys(x.args), ret, if |Specs(m, r)| == 1 || spec == ret then None else Some(spec))
  }

  /** The wrapper name generated for the specialisation. */
  function GeneratedWrapper(m: Module, r: int, x: Specialisation): FnName {
    var ret, spec := RetOf(m, r), LowerTy(x.ret);
    if r in m.generic && spec != ret then Wrapper(x.fn, LowerTys(x.args), ret, Some(spec))
    else Wrapper(x.fn, LowerTys(x.args), spec, None)
  }

  function CalleeOf(m: Module, x: Specialisation): (f: FnName)
    ensures Compiled(f)
  {
    if x.fn in m.available then Named(x.fn, m.available[x.fn]) else Specialised(x.fn, x.args, x.ret)
  }

  function SignatureOf(tys: seq<OTy>): seq<bool> {
    if forall t :: t in tys ==> !IsRef(t) then [] else seq(|tys|, i requires 0 <= i < |tys| => IsRef(tys[i]))
  }

  /** Some edge into the node has a positive weight. */
  predicate IsDispatch(m: Module, d: int) {
    exists c :: c in m.graph.edges && d in m.graph.edges[c] && EdgeWeight(m.offsets, c, d) > 0
  }

  function LinkName(m: Module, n: Node): FnName {
    var tys := LowerTys(n.args);
    if IsDispatch(m, n.id) then PartialDispatch(|tys|, SignatureOf(tys), |n.remaining|, RetOf(m, n.id))
    else PartialPlain(|tys|, SignatureOf(tys), |n.remaining|, RetOf(m, n.id))
  }

  function LinkBody(m: Module, n: Node): Fn {
    if IsDispatch(m, n.id) then BuildPartialDispatch(|n.args|, |n.remaining|, RetOf(m, n.id))
    else BuildPartial(|n.args|, |n.remaining|, RetOf(m, n.id))
  }

  function CasesOf(m: Module, r: int, xs: seq<Specialisation>): seq<(int, FnName)> {
    if xs == [] then [] else [(xs[0].tag, CalledWrapper(m, r, xs[0]))] + CasesOf(m, r, xs[1..])
  }

  function AccumName(m: Module, r: int): FnName
    requires Specs(m, r) != []
  {
    if |Specs(m, r)| == 1 then RootSingle(Specs(m, r)[0].fn, r, RetOf(m, r)) else RootDispatch(r, RetOf(m, r))
  }

  function AccumBody(m: Module, r: int): Fn
    requires r in m.graph.nodes && Specs(m, r) != []
  {
    var n, xs := m.graph.nodes[r], Specs(m, r);
    if |xs| == 1 then BuildRootSingle(LowerTys(n.args), |n.remaining|, CalledWrapper(m, r, xs[0]), RetOf(m, r))
    else BuildRootDispatch(LowerTys(n.args), |n.remaining|, CasesOf(m, r, xs), RetOf(m, r))
  }

  function WrapperBody(m: Module, name: FnName, r: int, x: Specialisation): Fn
    requires name.Wrapper?
  {
    BuildWrapper(if r in m.graph.nodes then |m.graph.nodes[r].args| else 0, name.params, name.ret, name.cast,
        CalleeOf(m, x))
  }

  // ----- lowering -----

  /** A function is generated once per name. */
  function Insert(p: Program, name: FnName, f: Fn): Program {
    if name in p then p else p[name := f]
  }

  function AddWrappers(m: Module, r: int, xs: seq<Specialisation>, p: Program): Program
    decreases |xs|
  {
    if xs == [] then p
    else
      var name := GeneratedWrapper(m, r, xs[0]);
      AddWrappers(m, r, xs[1..], Insert(p, name, WrapperBody(m, name, r, xs[0])))
  }

  /** The trampolines a statement asks for. A root without specialisations would stop the compiler. */
  function LowerStmt(m: Module, s: Stmt, p: Program): Program {
    if s.MakeClosure? && s.dst.id in m.graph.nodes then
      var r := s.dst.id;
      var p1 := AddWrappers(m, r, Specs(m, r), p);
      if Specs(m, r) == [] then p1 else Insert(p1, AccumName(m, r), AccumBody(m, r))
    else if (s.PartialApply? || (s.Cast? && s.dst.ty.Arrow?)) && s.dst.id in m.graph.nodes then
      var n := m.graph.nodes[s.dst.id];
      Insert(p, LinkName(m, n), LinkBody(m, n))
    else p
  }

  function Lower(m: Module, stmts: seq<Stmt>): Program
    decreases |stmts|
  {
    if stmts == [] then map[] else LowerStmt(m, stmts[|stmts| - 1], Lower(m, stmts[..|stmts| - 1]))
  }

  /** All specialisations in the order their wrappers are asked for. */
  function RootSpecs(r: int, xs: seq<Specialisation>): seq<(int, Specialisation)> {
    if xs == [] then [] else [(r, xs[0])] + RootSpecs(r, xs[1..])
  }

  function AllSpecs(m: Module, stmts: seq<Stmt>): seq<(int, Specialisation)>
    decreases |stmts|
  {
    if stmts == [] then []
    else
      var s := stmts[|stmts| - 1];
      AllSpecs(m, stmts[..|stmts| - 1])
      + (if s.MakeClosure? && s.dst.id in m.graph.nodes then RootSpecs(s.dst.id, Specs(m, s.dst.id)) else [])
  }

  /** The specialisation that gets a wrapper name first. */
  function FirstWith(m: Module, xs: seq<(int, Specialisation)>, name: FnName): Option<(int, Specialisation)> {
    if xs == [] then None
    else if GeneratedWrapper(m, xs[0].0, xs[0].1) == name then Some(xs[0])
    else FirstWith(m, xs[1..], name)
  }

  lemma {:induction false} FirstWithAppend(m: Module, a: seq<(int, Specialisation)>, b: seq<(int, Specialisation)>,
          name: FnName)
    ensures FirstWith(m, a + b, name) ==
      if FirstWith(m, a, name).Some? then FirstWith(m, a, name) else FirstWith(m, b, name)
  {
    if a == [] {
      assert a + b == b;
    } else {
      assert (a + b)[1..] == a[1..] + b;
      FirstWithAppend(m, a[1..], b, name);
    }
  }

  /** What the program says under a name, after wrappers for `xs` have been asked for. */
  ghost predicate NameOk(m: Module, xs: seq<(int, Specialisation)>, p: Program, name: FnName) {
    match name
    case PartialDispatch(count, _, args, ret) => name in p ==> p[name] == BuildPartialDispatch(count, args, ret)
    case PartialPlain(count, _, args, ret) => name in p ==> p[name] == BuildPartial(count, args, ret)
    case RootDispatch(r, _) => RootOk(m, p, name, r)
    case RootSingle(_, r, _) => RootOk(m, p, name, r)
    case Wrapper(_, _, _, _) =>
      var x := FirstWith(m, xs, name);
      (name in p <==> x.Some?) && (x.Some? ==> p[name] == WrapperBody(m, name, x.value.0, x.value.1))
    case _ => name !in p
  }

  ghost predicate RootOk(m: Module, p: Program, name: FnName, r: int) {
    name in p ==> r in m.graph.nodes && Specs(m, r) != [] && name == AccumName(m, r) && p[name] == AccumBody(m, r)
  }

  /** Nodes are filed under their own identifiers, and moves bring no arguments. */
  ghost predicate NodeIds(g: ClosureGraph) {
    forall d :: d in g.nodes ==> g.nodes[d].id == d && (g.nodes[d].kind == KMove ==> g.nodes[d].args == [])
  }

  lemma ProcessNodeIds(g: ClosureGraph, s: Stmt)
    requires NodeIds(g)
    ensures NodeIds(Process(g, s))
  {
  }

  lemma {:induction false} GraphNodeIds(stmts: seq<Stmt>)
    ensures NodeIds(BuildGraph(stmts))
    decreases |stmts|
  {
    if stmts != [] {
      var n := |stmts| - 1;
      GraphNodeIds(stmts[..n]);
      ProcessNodeIds(BuildGraph(stmts[..n]), stmts[n]);
    }
  }

  lemma {:induction false} AddWrappersOk(m: Module, r: int, xs: seq<Specialisation>,
          before: seq<(int, Specialisation)>, p: Program, name: FnName)
    requires NameOk(m, before, p, name)
    ensures NameOk(m, before + RootSpecs(r, xs), AddWrappers(m, r, xs, p), name)
    ensures name in p ==> name in AddWrappers(m, r, xs, p)
    decreases |xs|
  {
    if xs == [] {
      assert before + [] == before;
    } else {
      var w := GeneratedWrapper(m, r, xs[0]);
      var p1 := Insert(p, w, WrapperBody(m, w, r, xs[0]));
      FirstWithAppend(m, before, [(r, xs[0])], name);
      assert [(r, xs[0])][1..] == [];
      assert NameOk(m, before + [(r, xs[0])], p1, name);
      AddWrappersOk(m, r, xs[1..], before + [(r, xs[0])], p1, name);
      assert before + [(r, xs[0])] + RootSpecs(r, xs[1..]) == before + RootSpecs(r, xs);
    }
  }

  lemma InsertLinkOk(m: Module, xs: seq<(int, Specialisation)>, p: Program, n: Node, name: FnName)
    requires NameOk(m, xs, p, name)
    ensures NameOk(m, xs, Insert(p, LinkName(m, n), LinkBody(m, n)), name)
  {
    if IsDispatch(m, n.id) {
      assert LinkName(m, n).PartialDispatch?;
    } else {
      assert LinkName(m, n).PartialPlain?;
    }
  }

  lemma InsertAccumOk(m: Module, xs: seq<(int, Specialisation)>, p: Program, r: int, name: FnName)
    requires NameOk(m, xs, p, name) && r in m.graph.nodes && Specs(m, r) != []
    ensures NameOk(m, xs, Insert(p, AccumName(m, r), AccumBody(m, r)), name)
  {
    if |Specs(m, r)| == 1 {
      assert AccumName(m, r).RootSingle?;
    } else {
      assert AccumName(m, r).RootDispatch?;
    }
  }

  /** Every generated function is the one its name stands for. */
  lemma {:induction false} LoweredOk(m: Module, stmts: seq<Stmt>, name: FnName)
    requires NodeIds(m.graph)
    ensures NameOk(m, AllSpecs(m, stmts), Lower(m, stmts), name)
    decreases |stmts|
  {
    if stmts != [] {
      var k := |stmts| - 1;
      var s := stmts[k];
      LoweredOk(m, stmts[..k], name);
      if s.MakeClosure? && s.dst.id in m.graph.nodes {
        var r, p := s.dst.id, Lower(m, stmts[..k]);
        AddWrappersOk(m, r, Specs(m, r), AllSpecs(m, stmts[..k]), p, name);
        if Specs(m, r) != [] {
          InsertAccumOk(m, AllSpecs(m, stmts), AddWrappers(m, r, Specs(m, r), p), r, name);
        }
      } else {
        assert AllSpecs(m, stmts[..k]) + [] == AllSpecs(m, stmts[..k]);
        if (s.PartialApply? || (s.Cast? && s.dst.ty.Arrow?)) && s.dst.id in m.graph.nodes {
          InsertLinkOk(m, AllSpecs(m, stmts), Lower(m, stmts[..k]), m.graph.nodes[s.dst.id], name);
        }
      }
    }
  }

  /** A statement that builds a closure object. */
  predicate BuildsObject(s: Stmt) {
    s.MakeClosure? || s.PartialApply? || (s.Cast? && s.dst.ty.Arrow?)
  }

  function ObjectAccum(m: Module, n: Node): FnName
    requires n.kind == KMake ==> Specs(m, n.id) != []
  {
    if n.kind == KMake then AccumName(m, n.id) else LinkName(m, n)
  }

  /** Every closure object's accumulator has been generated. */
  lemma {:induction false} AccumGenerated(m: Module, stmts: seq<Stmt>, i: nat)
    requires i < |stmts| && BuildsObject(stmts[i]) && stmts[i].dst.id in m.graph.nodes && NodeIds(m.graph)
    requires (m.graph.nodes[stmts[i].dst.id].kind == KMake) == stmts[i].MakeClosure?
    requires stmts[i].MakeClosure? ==> Specs(m, stmts[i].dst.id) != []
    ensures ObjectAccum(m, m.graph.nodes[stmts[i].dst.id]) in Lower(m, stmts)
    decreases |stmts|
  {
    var k := |stmts| - 1;
    if i < k {
      AccumGenerated(m, stmts[..k], i);
      var s, name := stmts[k], ObjectAccum(m, m.graph.nodes[stmts[i].dst.id]);
      LoweredOk(m, stmts[..k], name);
      if s.MakeClosure? && s.dst.id in m.graph.nodes {
        AddWrappersOk(m, s.dst.id, Specs(m, s.dst.id), AllSpecs(m, stmts[..k]), Lower(m, stmts[..k]), name);
      }
    }
  }

  // ----- chains of closure objects -----

  /** What a closure statement stores, given the stored operands and the parent's address. */
  function RootFields(m: Module, r: int, vals: seq<Value>): seq<Value>
    requires Specs(m, r) != []
  {
    [Code(AccumName(m, r))] + vals
  }

  function LinkFields(m: Module, c: int, n: Node, parent: int, vals: seq<Value>): seq<Value> {
    if IsDispatch(m, n.id)
    then [Code(LinkName(m, n)), Word(I64, EdgeWeight(m.offsets, c, n.id)), Word(ObjPtr, parent)] + vals
    else [Code(LinkName(m, n)), Word(ObjPtr, parent)] + vals
  }

  /** Objects built along a path of the closure graph: node `path[i]` stores `vals[i]` at
      `addrs[i]`. A move copies the reference and builds nothing. */
  datatype Chain = Chain(path: seq<int>, vals: seq<seq<Value>>, addrs: seq<int>)

  ghost predicate LinkOk(m: Module, h: Heap, k: Chain, i: nat)
    requires 0 < i < |k.path| == |k.vals| == |k.addrs|
  {
    var c, d := k.path[i - 1], k.path[i];
    && d in Children(Dispatch(m.graph), c) && c in m.graph.nodes && d in m.graph.nodes
    && (var n := m.graph.nodes[d];
        && |k.vals[i]| == |n.args| && |m.graph.nodes[c].remaining| == |n.args| + |n.remaining|
        && match n.kind
           case KMove => k.addrs[i] == k.addrs[i - 1]
           case KPartial => k.addrs[i] in h && h[k.addrs[i]] == LinkFields(m, c, n, k.addrs[i - 1], k.vals[i])
           case KCast => k.addrs[i] in h && h[k.addrs[i]] == LinkFields(m, c, n, k.addrs[i - 1], k.vals[i])
           case _ => false)
  }

  ghost predicate ChainOk(m: Module, h: Heap, k: Chain) {
    && 0 < |k.path| == |k.vals| == |k.addrs|
    && k.path[0] in m.graph.roots && k.path[0] in m.graph.nodes && m.graph.nodes[k.path[0]].kind == KMake
    && Specs(m, k.path[0]) != []
    && |k.vals[0]| == |m.graph.nodes[k.path[0]].args|
    && k.addrs[0] in h && h[k.addrs[0]] == RootFields(m, k.path[0], k.vals[0])
    && forall i {:trigger LinkOk(m, h, k, i)} :: 0 < i < |k.path| ==> LinkOk(m, h, k, i)
  }

  function Front(k: Chain): Chain
    requires 0 < |k.path| == |k.vals| == |k.addrs|
  {
    var n := |k.path| - 1;
    Chain(k.path[..n], k.vals[..n], k.addrs[..n])
  }

  function Concat(vals: seq<seq<Value>>): seq<Value> {
    if vals == [] then [] else Concat(vals[..|vals| - 1]) + vals[|vals| - 1]
  }

  predicate IsMove(m: Module, d: int) {
    d in m.graph.nodes && m.graph.nodes[d].kind == KMove
  }

  /** The sum of the weights that run-time objects and call sites add along a path. */
  function RunId(m: Module, path: seq<int>): nat {
    if |path| < 2 then 0
    else
      var k := |path| - 1;
      RunId(m, path[..k]) + if IsMove(m, path[k]) then 0 else EdgeWeight(m.offsets, path[k - 1], path[k])
  }

  /** The weight of the edges that are moves. */
  function MoveWeight(m: Module, path: seq<int>): nat {
    if |path| < 2 then 0
    else
      var k := |path| - 1;
      MoveWeight(m, path[..k]) + if IsMove(m, path[k]) then EdgeWeight(m.offsets, path[k - 1], path[k]) else 0
  }

  function Steps(m: Module, path: seq<int>): nat {
    if |path| < 2 then 0
    else
      var k := |path| - 1;
      Steps(m, path[..k]) + if IsMove(m, path[k]) then 0 else 1
  }

  lemma FrontOk(m: Module, h: Heap, k: Chain)
    requires ChainOk(m, h, k) && |k.path| > 1
    ensures ChainOk(m, h, Front(k))
  {
    var f := Front(k);
    forall i {:trigger LinkOk(m, h, f, i)} | 0 < i < |f.path| ensures LinkOk(m, h, f, i) {
      assert LinkOk(m, h, k, i);
    }
  }

  /** The last object of a chain starts with some accumulator. */
  ghost predicate Starts(h: Heap, addr: int) {
    addr in h && h[addr] != [] && h[addr][0].Code?
  }

  lemma {:induction false} ChainStarts(m: Module, h: Heap, k: Chain)
    requires ChainOk(m, h, k)
    ensures Starts(h, k.addrs[|k.addrs| - 1])
    decreases |k.path|
  {
    if |k.path| > 1 {
      FrontOk(m, h, k);
      ChainStarts(m, h, Front(k));
      assert LinkOk(m, h, k, |k.path| - 1);
    }
  }

  /** What applying the chain's last closure runs. */
  function AccumOf(h: Heap, k: Chain): FnName
    requires 0 < |k.addrs| && Starts(h, k.addrs[|k.addrs| - 1])
  {
    h[k.addrs[|k.addrs| - 1]][0].fn
  }

  /** A node's object statement generated its accumulator with the right body. */
  ghost predicate NodeLowered(m: Module, p: Program, n: Node) {
    LinkName(m, n) in p && p[LinkName(m, n)] == LinkBody(m, n)
  }

  /** A value that is handed on at a machine type arrives at the same type as if it were asked for at once. */
  lemma HandedOn(p: Program, h: Heap, ext: Callees, fuel: nat, f: FnName, args: seq<Value>, t: OTy, u: OTy)
    requires Repr(t) == Repr(u)
    ensures At(RunCall(p, h, ext, fuel, f, args, t), u) == RunCall(p, h, ext, fuel, f, args, u)
  {
  }

  lemma LinkReturns(m: Module, p: Program, h: Heap, ext: Callees, fuel: nat, c: int, n: Node, vals: seq<Value>,
          args: seq<Value>, addr: int, parent: int, id: int, accum: FnName)
    requires NodeLowered(m, p, n) && |vals| == |n.args| && |args| == |n.remaining| && Carry(args) == args
    requires n.id in Children(Dispatch(m.graph), c)
    requires addr in h && h[addr] == LinkFields(m, c, n, parent, vals) && LinksTo(h, parent, accum)
    ensures RunFn(p, h, ext, fuel + 1, LinkName(m, n), AccumArgs(args, addr, id))
         == RunCall(p, h, ext, fuel, accum,
              AccumArgs(Carry(vals) + args, parent, id + EdgeWeight(m.offsets, c, n.id)), RetOf(m, n.id))
  {
    var f, ret := LinkName(m, n), RetOf(m, n.id);
    if IsDispatch(m, n.id) {
      PartialDispatchRuns(p, h, ext, fuel, f, args, addr, id, EdgeWeight(m.offsets, c, n.id), parent, accum, vals, ret);
    } else {
      assert EdgeWeight(m.offsets, c, n.id) == 0;
      PartialRuns(p, h, ext, fuel, f, args, addr, id, parent, accum, vals, ret);
    }
  }

  /** A link takes whatever carried arguments it is called with. */
  lemma LinkTakes(m: Module, p: Program, n: Node, args: seq<Value>, addr: int, id: int, ty: OTy)
    requires NodeLowered(m, p, n) && |args| == |n.remaining| && Carry(args) == args
    ensures Fits(ParamTys(p, LinkName(m, n)), AccumArgs(args, addr, id))
    ensures Returns(p, LinkName(m, n), ty) <==> Repr(RetOf(m, n.id)) == Repr(ty)
  {
    AccumFits(p, LinkName(m, n), args, addr, id);
  }

  /** A call of `f` comes to nothing unless `agrees`, and then, after some steps, to the call of `g`. */
  ghost predicate HandsOver(p: Program, h: Heap, ext: Callees, fuel: nat, steps: nat, f: FnName, args: seq<Value>,
          agrees: bool, g: FnName, more: seq<Value>, ty: OTy) {
    RunCall(p, h, ext, fuel + steps, f, args, ty) == if agrees then RunCall(p, h, ext, fuel, g, more, ty) else None
  }

  /** One link: its own accumulator hands over to the parent's, if it returns what it is asked for. */
  lemma LinkRuns(m: Module, p: Program, h: Heap, ext: Callees, fuel: nat, c: int, n: Node, vals: seq<Value>,
          args: seq<Value>, addr: int, parent: int, id: int, accum: FnName, ty: OTy)
    requires NodeLowered(m, p, n) && |vals| == |n.args| && |args| == |n.remaining| && Carry(args) == args
    requires n.id in Children(Dispatch(m.graph), c)
    requires addr in h && h[addr] == LinkFields(m, c, n, parent, vals) && LinksTo(h, parent, accum)
    ensures HandsOver(p, h, ext, fuel, 1, LinkName(m, n), AccumArgs(args, addr, id),
              Repr(RetOf(m, n.id)) == Repr(ty), accum,
              AccumArgs(Carry(vals) + args, parent, id + EdgeWeight(m.offsets, c, n.id)), ty)
  {
    LinkTakes(m, p, n, args, addr, id, ty);
    if Repr(RetOf(m, n.id)) == Repr(ty) {
      LinkReturns(m, p, h, ext, fuel, c, n, vals, args, addr, parent, id, accum);
      HandedOn(p, h, ext, fuel, accum, AccumArgs(Carry(vals) + args, parent, id + EdgeWeight(m.offsets, c, n.id)),
          RetOf(m, n.id), ty);
    }
  }

  /** Node `i` of the path builds no object, or its accumulator returns this machine type. */
  ghost predicate Agrees(m: Module, path: seq<int>, i: nat, ty: OTy) {
    i < |path| ==> IsMove(m, path[i]) || Repr(RetOf(m, path[i])) == Repr(ty)
  }

  ghost predicate LinksAgree(m: Module, path: seq<int>, ty: OTy) {
    forall i {:trigger Agrees(m, path, i, ty)} :: 0 < i < |path| ==> Agrees(m, path, i, ty)
  }

  lemma LinksAgreeFront(m: Module, path: seq<int>, ty: OTy)
    requires |path| > 1
    ensures var e := |path| - 1;
      LinksAgree(m, path, ty) <==> LinksAgree(m, path[..e], ty) && Agrees(m, path, e, ty)
  {
    var e := |path| - 1;
    if LinksAgree(m, path, ty) {
      forall i {:trigger Agrees(m, path[..e], i, ty)} | 0 < i < e ensures Agrees(m, path[..e], i, ty) {
        assert Agrees(m, path, i, ty);
      }
    } else if LinksAgree(m, path[..e], ty) {
      var i :| 0 < i < |path| && !Agrees(m, path, i, ty);
      assert i < e ==> Agrees(m, path[..e], i, ty);
    }
  }

  lemma CarryConcat(a: seq<Value>, b: seq<Value>)
    ensures Carry(a + b) == Carry(a) + Carry(b) && Carry(Carry(a)) == Carry(a)
  {
  }

  lemma CarryPrepends(vals: seq<seq<Value>>, last: seq<Value>, args: seq<Value>)
    requires Carry(args) == args
    ensures Carry(Carry(last) + args) == Carry(last) + args
    ensures Carry(Concat(vals)) + (Carry(last) + args) == Carry(Concat(vals + [last])) + args
  {
    CarryConcat(last, args);
    CarryConcat(Carry(last), args);
    assert (vals + [last])[..|vals|] == vals;
    CarryConcat(Concat(vals), last);
  }

  /** Every link object along the chain finds its accumulator in the program. */
  ghost predicate Linked(m: Module, p: Program, path: seq<int>) {
    forall i {:trigger path[i]} ::
      0 < i < |path| && path[i] in m.graph.nodes && m.graph.nodes[path[i]].kind in {KPartial, KCast} ==>
        m.graph.nodes[path[i]].id == path[i] && NodeLowered(m, p, m.graph.nodes[path[i]])
  }

  /** Typing along a chain: stored and remaining arguments make up the root's. */
  lemma {:induction false} ChainCounts(m: Module, h: Heap, k: Chain)
    requires ChainOk(m, h, k)
    ensures k.path[|k.path| - 1] in m.graph.nodes
    ensures var last := m.graph.nodes[k.path[|k.path| - 1]];
      |Concat(k.vals[1..])| + |last.remaining| == |m.graph.nodes[k.path[0]].remaining|
    decreases |k.path|
  {
    var e := |k.path| - 1;
    if e > 0 {
      FrontOk(m, h, k);
      ChainCounts(m, h, Front(k));
      assert LinkOk(m, h, k, e);
      assert k.vals[1..] == Front(k).vals[1..] + [k.vals[e]];
      assert k.vals[1..][..e - 1] == Front(k).vals[1..];
    } else {
      assert k.vals[1..] == [];
    }
  }

  function LastWeight(m: Module, path: seq<int>): nat
    requires |path| > 1
  {
    if IsMove(m, path[|path| - 1]) then 0 else EdgeWeight(m.offsets, path[|path| - 2], path[|path| - 1])
  }

  function LastStep(m: Module, path: seq<int>): nat
    requires |path| > 1
  {
    if IsMove(m, path[|path| - 1]) then 0 else 1
  }

  /** What the last node's object holds. */
  lemma LastObject(m: Module, h: Heap, k: Chain)
    requires ChainOk(m, h, k) && |k.path| > 1 && NodeIds(m.graph)
    ensures var e := |k.path| - 1;
      && ChainOk(m, h, Front(k)) && Starts(h, k.addrs[e]) && Starts(h, k.addrs[e - 1])
      && k.path[e] in m.graph.nodes && k.path[e] in Children(Dispatch(m.graph), k.path[e - 1])
      && (var n := m.graph.nodes[k.path[e]];
          && n.id == k.path[e] && |k.vals[e]| == |n.args| && n.kind in {KMove, KPartial, KCast}
          && (n.kind == KMove ==> n.args == [] && k.addrs[e] == k.addrs[e - 1])
          && (n.kind != KMove ==> AccumOf(h, k) == LinkName(m, n))
          && (n.kind != KMove ==> LinksTo(h, k.addrs[e - 1], AccumOf(h, Front(k))))
          && (n.kind != KMove ==> h[k.addrs[e]] == LinkFields(m, k.path[e - 1], n, k.addrs[e - 1], k.vals[e])))
  {
    FrontOk(m, h, k);
    ChainStarts(m, h, k);
    ChainStarts(m, h, Front(k));
    assert LinkOk(m, h, k, |k.path| - 1);
  }

  /** The last object of the chain is `n`'s, runs `n`'s accumulator and names the one before, which runs `accum`. */
  ghost predicate LastIs(m: Module, p: Program, h: Heap, k: Chain, n: Node, accum: FnName) {
    && 1 < |k.path| == |k.vals| == |k.addrs|
    && var e := |k.path| - 1;
      && Starts(h, k.addrs[e]) && Starts(h, k.addrs[e - 1])
      && k.path[e] in m.graph.nodes && n == m.graph.nodes[k.path[e]] && n.id == k.path[e] && n.kind != KMove
      && accum == AccumOf(h, Front(k))
      && NodeLowered(m, p, n) && n.id in Children(Dispatch(m.graph), k.path[e - 1])
      && |k.vals[e]| == |n.args| && AccumOf(h, k) == LinkName(m, n) && LinksTo(h, k.addrs[e - 1], accum)
      && h[k.addrs[e]] == LinkFields(m, k.path[e - 1], n, k.addrs[e - 1], k.vals[e])
  }

  lemma LastAccum(m: Module, p: Program, h: Heap, k: Chain) returns (n: Node, accum: FnName)
    requires ChainOk(m, h, k) && |k.path| > 1 && NodeIds(m.graph) && Linked(m, p, k.path)
    requires k.path[|k.path| - 1] in m.graph.nodes && !IsMove(m, k.path[|k.path| - 1])
    ensures LastIs(m, p, h, k, n, accum) && ChainOk(m, h, Front(k))
  {
    LastObject(m, h, k);
    n, accum := m.graph.nodes[k.path[|k.path| - 1]], AccumOf(h, Front(k));
  }

  lemma LastRuns(m: Module, p: Program, h: Heap, ext: Callees, fuel: nat, k: Chain, n: Node, accum: FnName,
          args: seq<Value>, id: int, ty: OTy)
    requires LastIs(m, p, h, k, n, accum) && Carry(args) == args && |args| == |n.remaining|
    ensures var e := |k.path| - 1;
      HandsOver(p, h, ext, fuel, 1, AccumOf(h, k), AccumArgs(args, k.addrs[e], id), Agrees(m, k.path, e, ty),
          AccumOf(h, Front(k)), AccumArgs(Carry(k.vals[e]) + args, k.addrs[e - 1], id + LastWeight(m, k.path)), ty)
  {
    var e := |k.path| - 1;
    LinkRuns(m, p, h, ext, fuel, k.path[e - 1], n, k.vals[e], args, k.addrs[e], k.addrs[e - 1], id, accum, ty);
  }

  /** A move has no object, so that of the node before runs. */
  lemma LastMoveRuns(m: Module, h: Heap, k: Chain, args: seq<Value>)
    requires ChainOk(m, h, k) && |k.path| > 1 && NodeIds(m.graph) && Carry(args) == args
    requires IsMove(m, k.path[|k.path| - 1])
    ensures var e := |k.path| - 1;
      && ChainOk(m, h, Front(k)) && Starts(h, k.addrs[e]) && Starts(h, k.addrs[e - 1])
      && k.addrs[e] == k.addrs[e - 1] && AccumOf(h, k) == AccumOf(h, Front(k)) && Carry(k.vals[e]) + args == args
  {
    LastObject(m, h, k);
    assert k.vals[|k.path| - 1] == [] && Carry([]) + args == args;
  }

  /** The chain's last node hands over to the one before. */
  lemma LastLinkRuns(m: Module, p: Program, h: Heap, ext: Callees, fuel: nat, k: Chain, args: seq<Value>, id: int,
          ty: OTy)
    requires ChainOk(m, h, k) && |k.path| > 1 && NodeIds(m.graph) && Linked(m, p, k.path) && Carry(args) == args
    requires k.path[|k.path| - 1] in m.graph.nodes && |args| == |m.graph.nodes[k.path[|k.path| - 1]].remaining|
    ensures var e := |k.path| - 1;
      && ChainOk(m, h, Front(k)) && Starts(h, k.addrs[e]) && Starts(h, k.addrs[e - 1])
      && HandsOver(p, h, ext, fuel, LastStep(m, k.path), AccumOf(h, k), AccumArgs(args, k.addrs[e], id),
          Agrees(m, k.path, e, ty), AccumOf(h, Front(k)),
          AccumArgs(Carry(k.vals[e]) + args, k.addrs[e - 1], id + LastWeight(m, k.path)), ty)
  {
    if IsMove(m, k.path[|k.path| - 1]) {
      LastMoveRuns(m, h, k, args);
    } else {
      var n, accum := LastAccum(m, p, h, k);
      LastRuns(m, p, h, ext, fuel, k, n, accum, args, id, ty);
    }
  }

  /** Called with `args` and `id` at type `ty`, the chain's last closure does what its root's accumulator does
      with the stored arguments in front, oldest first, and the weights along the way added, unless some link
      returns another type. */
  ghost predicate Arrives(m: Module, p: Program, h: Heap, ext: Callees, fuel: nat, k: Chain, args: seq<Value>,
          id: int, ty: OTy) {
    && ChainOk(m, h, k) && Starts(h, k.addrs[|k.addrs| - 1])
    && HandsOver(p, h, ext, fuel, Steps(m, k.path), AccumOf(h, k), AccumArgs(args, k.addrs[|k.addrs| - 1], id),
        LinksAgree(m, k.path, ty), AccumName(m, k.path[0]),
        AccumArgs(Carry(Concat(k.vals[1..])) + args, k.addrs[0], id + RunId(m, k.path)), ty)
  }

  lemma ChainOfOne(m: Module, p: Program, h: Heap, ext: Callees, fuel: nat, k: Chain, args: seq<Value>, id: int,
          ty: OTy)
    requires ChainOk(m, h, k) && |k.path| == 1 && Carry(args) == args
    ensures Arrives(m, p, h, ext, fuel, k, args, id, ty)
  {
    ChainStarts(m, h, k);
    assert k.vals[1..] == [] && Carry([]) + args == args;
  }

  /** Any chain, however long, arrives at its root. */
  lemma {:induction false} ChainRuns(m: Module, p: Program, h: Heap, ext: Callees, fuel: nat, k: Chain,
          args: seq<Value>, id: int, ty: OTy)
    requires ChainOk(m, h, k) && NodeIds(m.graph) && Linked(m, p, k.path) && Carry(args) == args
    requires k.path[|k.path| - 1] in m.graph.nodes && |args| == |m.graph.nodes[k.path[|k.path| - 1]].remaining|
    ensures Arrives(m, p, h, ext, fuel, k, args, id, ty)
    decreases |k.path|
  {
    var e := |k.path| - 1;
    if e == 0 {
      ChainOfOne(m, p, h, ext, fuel, k, args, id, ty);
    } else {
      FrontOk(m, h, k);
      FrontArgs(m, h, k, args);
      LinkedFront(m, p, k.path);
      ChainRuns(m, p, h, ext, fuel, Front(k), Carry(k.vals[e]) + args, id + LastWeight(m, k.path), ty);
      OneMoreLink(m, p, h, ext, fuel, k, args, id, ty);
    }
  }

  lemma OneMoreLink(m: Module, p: Program, h: Heap, ext: Callees, fuel: nat, k: Chain, args: seq<Value>, id: int,
          ty: OTy)
    requires ChainOk(m, h, k) && |k.path| > 1 && NodeIds(m.graph) && Linked(m, p, k.path) && Carry(args) == args
    requires k.path[|k.path| - 1] in m.graph.nodes && |args| == |m.graph.nodes[k.path[|k.path| - 1]].remaining|
    requires Arrives(m, p, h, ext, fuel, Front(k), Carry(k.vals[|k.path| - 1]) + args, id + LastWeight(m, k.path), ty)
    ensures Arrives(m, p, h, ext, fuel, k, args, id, ty)
  {
    FrontOk(m, h, k);
    FrontArgs(m, h, k, args);
    LastAdds(m, k.path);
    LinksAgreeFront(m, k.path, ty);
    LinkThenChain(m, p, h, ext, fuel, k, args, Carry(k.vals[|k.path| - 1]) + args, id, ty);
  }

  lemma LinkThenChain(m: Module, p: Program, h: Heap, ext: Callees, fuel: nat, k: Chain, args: seq<Value>,
          more: seq<Value>, id: int, ty: OTy)
    requires ChainOk(m, h, k) && |k.path| > 1 && NodeIds(m.graph) && Linked(m, p, k.path) && Carry(args) == args
    requires k.path[|k.path| - 1] in m.graph.nodes && |args| == |m.graph.nodes[k.path[|k.path| - 1]].remaining|
    requires more == Carry(k.vals[|k.path| - 1]) + args
    requires Carry(Concat(Front(k).vals[1..])) + more == Carry(Concat(k.vals[1..])) + args
    requires Steps(m, k.path) == Steps(m, Front(k).path) + LastStep(m, k.path)
    requires RunId(m, k.path) == RunId(m, Front(k).path) + LastWeight(m, k.path)
    requires LinksAgree(m, k.path, ty) <==> LinksAgree(m, Front(k).path, ty) && Agrees(m, k.path, |k.path| - 1, ty)
    requires Arrives(m, p, h, ext, fuel, Front(k), more, id + LastWeight(m, k.path), ty)
    ensures Arrives(m, p, h, ext, fuel, k, args, id, ty)
  {
    var f := Front(k);
    LastLinkRuns(m, p, h, ext, fuel + Steps(m, f.path), k, args, id, ty);
    assert fuel + Steps(m, f.path) + LastStep(m, k.path) == fuel + Steps(m, k.path);
    assert id + LastWeight(m, k.path) + RunId(m, f.path) == id + RunId(m, k.path);
    assert f.path[0] == k.path[0] && f.addrs[0] == k.addrs[0] && f.addrs[|f.addrs| - 1] == k.addrs[|k.path| - 2];
  }

  /** With the last node's stored arguments in front, the chain before it takes the rest. */
  lemma FrontArgs(m: Module, h: Heap, k: Chain, args: seq<Value>)
    requires ChainOk(m, h, k) && |k.path| > 1 && Carry(args) == args
    requires k.path[|k.path| - 1] in m.graph.nodes && |args| == |m.graph.nodes[k.path[|k.path| - 1]].remaining|
    ensures var e := |k.path| - 1; var more := Carry(k.vals[e]) + args;
      && Carry(more) == more
      && Front(k).path[e - 1] in m.graph.nodes && |more| == |m.graph.nodes[Front(k).path[e - 1]].remaining|
      && Carry(Concat(Front(k).vals[1..])) + more == Carry(Concat(k.vals[1..])) + args
  {
    var e := |k.path| - 1;
    var more := Carry(k.vals[e]) + args;
    assert Front(k).path[e - 1] == k.path[e - 1];
    assert |more| == |m.graph.nodes[k.path[e - 1]].remaining| by {
      assert LinkOk(m, h, k, e);
    }
    CarryPrepends(k.vals[1..e], k.vals[e], args);
    FrontVals(k);
  }

  lemma FrontVals(k: Chain)
    requires 1 < |k.path| == |k.vals| == |k.addrs|
    ensures var e := |k.path| - 1;
      Front(k).vals[1..] == k.vals[1..e] && k.vals[1..] == k.vals[1..e] + [k.vals[e]]
  {
  }

  lemma LastAdds(m: Module, path: seq<int>)
    requires |path| > 1
    ensures Steps(m, path) == Steps(m, path[..|path| - 1]) + LastStep(m, path)
    ensures RunId(m, path) == RunId(m, path[..|path| - 1]) + LastWeight(m, path)
  {
  }

  lemma LinkedFront(m: Module, p: Program, path: seq<int>)
    requires path != [] && Linked(m, p, path)
    ensures Linked(m, p, path[..|path| - 1])
  {
    var f := path[..|path| - 1];
    forall i {:trigger f[i]} | 0 < i < |f| && f[i] in m.graph.nodes && m.graph.nodes[f[i]].kind in {KPartial, KCast}
      ensures m.graph.nodes[f[i]].id == f[i] && NodeLowered(m, p, m.graph.nodes[f[i]])
    {
      assert f[i] == path[i];
    }
  }
}
