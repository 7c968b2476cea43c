/** What applying a closure means: which specialisation runs, and on which arguments. */
module Application {
  import opened Graphs
  import opened DispatchIds
  import opened ClosureGraph
  import opened Oir
  import opened Options
  import opened Trampolines
  import opened ClosureDispatch

  // ----- every node was lowered -----

  lemma {:induction false} NodeStmt(stmts: seq<Stmt>, d: int) returns (i: nat)
    requires d in BuildGraph(stmts).nodes
    ensures i < |stmts| && Defines(stmts[i], d) && BuildGraph(stmts).nodes[d].kind == KindOf(stmts[i])
    decreases |stmts|
  {
    var n := |stmts| - 1;
    if Defines(stmts[n], d) {
      i := n;
    } else {
      ProcessFacts(BuildGraph(stmts[..n]), stmts[n], d, d);
      i := NodeStmt(stmts[..n], d);
    }
  }

  ghost predicate LinkLowered(m: Module, p: Program, d: int) {
    d in m.graph.nodes && m.graph.nodes[d].kind in {KPartial, KCast} ==>
      m.graph.nodes[d].id == d && NodeLowered(m, p, m.graph.nodes[d])
  }

  ghost predicate RootLowered(m: Module, p: Program, r: int) {
    r in m.graph.nodes && m.graph.nodes[r].kind == KMake && Specs(m, r) != [] ==>
      AccumName(m, r) in p && p[AccumName(m, r)] == AccumBody(m, r)
  }

  ghost predicate WrapperLowered(m: Module, p: Program, name: FnName) {
    name.Wrapper? ==> NameOk(m, AllSpecs(m, m.stmts), p, name)
  }

  /** The program holds a trampoline for every closure object, and the wrappers asked for. */
  ghost predicate HasTrampolines(m: Module, p: Program) {
    && (forall d {:trigger LinkLowered(m, p, d)} :: LinkLowered(m, p, d))
    && (forall r {:trigger RootLowered(m, p, r)} :: RootLowered(m, p, r))
    && (forall name {:trigger WrapperLowered(m, p, name)} :: WrapperLowered(m, p, name))
  }

  lemma NodeIsLowered(m: Module, d: int)
    requires m.graph == BuildGraph(m.stmts) && d in m.graph.nodes && m.graph.nodes[d].kind in {KPartial, KCast}
    ensures LinkLowered(m, Lower(m, m.stmts), d)
  {
    GraphNodeIds(m.stmts);
    var i := NodeStmt(m.stmts, d);
    AccumGenerated(m, m.stmts, i);
    LoweredOk(m, m.stmts, LinkName(m, m.graph.nodes[d]));
  }

  lemma RootIsLowered(m: Module, r: int)
    requires m.graph == BuildGraph(m.stmts) && r in m.graph.nodes && m.graph.nodes[r].kind == KMake && Specs(m, r) != []
    ensures RootLowered(m, Lower(m, m.stmts), r)
  {
    GraphNodeIds(m.stmts);
    var i := NodeStmt(m.stmts, r);
    AccumGenerated(m, m.stmts, i);
    LoweredOk(m, m.stmts, AccumName(m, r));
  }

  /** Lowering a module generates all of its trampolines. */
  lemma LoweringHasTrampolines(m: Module)
    requires m.graph == BuildGraph(m.stmts)
    ensures HasTrampolines(m, Lower(m, m.stmts)) && NodeIds(m.graph)
  {
    var p := Lower(m, m.stmts);
    GraphNodeIds(m.stmts);
    forall d ensures LinkLowered(m, p, d) {
      if d in m.graph.nodes && m.graph.nodes[d].kind in {KPartial, KCast} {
        NodeIsLowered(m, d);
      }
    }
    forall r ensures RootLowered(m, p, r) {
      if r in m.graph.nodes && m.graph.nodes[r].kind == KMake && Specs(m, r) != [] {
        RootIsLowered(m, r);
      }
    }
    forall name ensures WrapperLowered(m, p, name) {
      LoweredOk(m, m.stmts, name);
    }
  }

  // ----- the root's choice -----

  function ByTag(xs: seq<Specialisation>, id: int): Option<Specialisation> {
    if xs == [] then None else if xs[0].tag == id then Some(xs[0]) else ByTag(xs[1..], id)
  }

  /** A single specialisation needs no id. */
  function Choose(xs: seq<Specialisation>, id: int): Option<Specialisation> {
    if |xs| == 1 then Some(xs[0]) else ByTag(xs, id)
  }

  lemma {:induction false} SelectIsByTag(m: Module, r: int, xs: seq<Specialisation>, id: int)
    ensures Select(CasesOf(m, r, xs), id) ==
      match ByTag(xs, id)
      case None => None
      case Some(x) => Some(CalledWrapper(m, r, x))
    decreases |xs|
  {
    if xs != [] {
      assert CasesOf(m, r, xs)[1..] == CasesOf(m, r, xs[1..]);
      SelectIsByTag(m, r, xs[1..], id);
    }
  }

  lemma {:induction false} ByTagPicks(xs: seq<Specialisation>, id: int)
    ensures ByTag(xs, id).Some? ==> ByTag(xs, id).value in xs && ByTag(xs, id).value.tag == id
    ensures ByTag(xs, id).None? ==> forall x :: x in xs ==> x.tag != id
    decreases |xs|
  {
    if xs != [] {
      ByTagPicks(xs[1..], id);
      assert xs == [xs[0]] + xs[1..];
    }
  }

  /** The type at which a wrapper calls: the result's before it is cast. */
  function Asked(name: FnName): OTy
    requires name.Wrapper?
  {
    if name.cast.None? then name.ret else name.cast.value
  }

  /** A wrapper's callee returns what the wrapper asks for and takes what it passes. */
  predicate CalleeTakes(m: Module, x: Specialisation, name: FnName, vals: seq<Value>)
    requires name.Wrapper? && |vals| == |name.params|
  {
    && Repr(DeclaredTy(CalleeOf(m, x))) == Repr(Asked(name))
    && Fits(ParamTys(map[], CalleeOf(m, x)), Typed(vals, name.params))
  }

  /** What the wrapper generated under the name returns. */
  function WrapperOutcome(m: Module, ext: Callees, name: FnName, vals: seq<Value>): Option<Value>
    requires name.Wrapper?
  {
    match FirstWith(m, AllSpecs(m, m.stmts), name)
    case None => None
    case Some(x) =>
      if |vals| != |name.params| || !CalleeTakes(m, x.1, name, vals) then None
      else Some(As(ext(CalleeOf(m, x.1), Typed(vals, name.params)), name.ret))
  }

  function StoredTys(m: Module, r: int): seq<OTy> {
    if r in m.graph.nodes then LowerTys(m.graph.nodes[r].args) else []
  }

  /** The arguments as a root's accumulator passes them on: stored ones as loaded, and carried ones. */
  function PassedOn(m: Module, r: int, vals: seq<Value>): seq<Value> {
    var n := |StoredTys(m, r)|;
    if n <= |vals| then Typed(vals[..n], SlotTys(StoredTys(m, r))) + Carry(vals[n..]) else vals
  }

  /** A wrapper's parameters have the types that the root it was generated for passes on. */
  function WrapperTys(m: Module, r: int, name: FnName): seq<OTy>
    requires name.Wrapper?
  {
    seq(|name.params|, i requires 0 <= i < |name.params| => InputTy(|StoredTys(m, r)|, name.params, i))
  }

  /** The wrapper was generated, and takes these arguments. */
  predicate WrapperFits(m: Module, name: FnName, vs: seq<Value>)
    requires name.Wrapper?
  {
    var z := FirstWith(m, AllSpecs(m, m.stmts), name);
    z.Some? && Fits(WrapperTys(m, z.value.0, name), vs)
  }

  function Outcome(m: Module, ext: Callees, r: int, id: int, vals: seq<Value>): Option<Value> {
    match Choose(Specs(m, r), id)
    case None => None
    case Some(x) =>
      var name := CalledWrapper(m, r, x);
      if WrapperFits(m, name, PassedOn(m, r, vals)) then WrapperOutcome(m, ext, name, vals) else None
  }

  lemma WrapperParamTys(loads: nat, p: Program, name: FnName)
    requires name.Wrapper? && name in p && p[name].params == WrapperParams(loads, name.params)
    ensures ParamTys(p, name)
         == seq(|name.params|, i requires 0 <= i < |name.params| => InputTy(loads, name.params, i))
  {
  }

  lemma WrapperMeans(m: Module, p: Program, h: Heap, ext: Callees, fuel: nat, name: FnName, vals: seq<Value>)
    requires HasTrampolines(m, p) && name.Wrapper? && fuel > 0
    ensures RunCall(p, h, ext, fuel + 1, name, vals, name.ret)
         == if WrapperFits(m, name, vals) then WrapperOutcome(m, ext, name, vals) else None
  {
    assert WrapperLowered(m, p, name);
    match FirstWith(m, AllSpecs(m, m.stmts), name)
    case None =>
    case Some(x) =>
      var loads := |StoredTys(m, x.0)|;
      WrapperParamTys(loads, p, name);
      WrapperRuns(p, h, ext, fuel, name, loads, name.params, name.ret, name.cast, CalleeOf(m, x.1), vals);
  }

  /** Loading a word at its slot's type and casting it later is casting it once. */
  lemma TypedTwice(a: seq<Value>, slots: seq<OTy>, b: seq<Value>, tys: seq<OTy>)
    requires |a| == |slots| && |a| + |b| == |tys|
    ensures Typed(Typed(a, slots) + Carry(b), tys) == Typed(a + b, tys)
  {
    forall i | 0 <= i < |tys| ensures Typed(Typed(a, slots) + Carry(b), tys)[i] == Typed(a + b, tys)[i] {
    }
  }

  lemma OutcomeIgnoresCarriers(m: Module, ext: Callees, name: FnName, a: seq<Value>, slots: seq<OTy>, b: seq<Value>)
    requires name.Wrapper? && |a| == |slots|
    ensures WrapperOutcome(m, ext, name, Typed(a, slots) + Carry(b)) == WrapperOutcome(m, ext, name, a + b)
  {
    if |a| + |b| == |name.params| {
      TypedTwice(a, slots, b, name.params);
    }
  }

  lemma CallMeans(m: Module, p: Program, h: Heap, ext: Callees, fuel: nat, r: int, x: Specialisation,
          stored: seq<Value>, later: seq<Value>)
    requires HasTrampolines(m, p) && r in m.graph.nodes && |stored| == |m.graph.nodes[r].args| && fuel > 0
    ensures var name := CalledWrapper(m, r, x);
      RunCall(p, h, ext, fuel + 1, name, Typed(stored, SlotTys(LowerTys(m.graph.nodes[r].args))) + Carry(later),
        name.ret)
      == if WrapperFits(m, name, PassedOn(m, r, stored + later)) then WrapperOutcome(m, ext, name, stored + later)
         else None
  {
    var slots := SlotTys(StoredTys(m, r));
    assert (stored + later)[..|slots|] == stored && (stored + later)[|slots|..] == later;
    WrapperMeans(m, p, h, ext, fuel, CalledWrapper(m, r, x), Typed(stored, slots) + Carry(later));
    OutcomeIgnoresCarriers(m, ext, CalledWrapper(m, r, x), stored, slots, later);
  }

  /** The root's accumulator returns what its wrapper returns for the chosen specialisation. */
  lemma RootReturns(m: Module, p: Program, h: Heap, ext: Callees, fuel: nat, r: int, addr: int, id: int,
          stored: seq<Value>, later: seq<Value>)
    requires HasTrampolines(m, p) && r in m.graph.nodes && m.graph.nodes[r].kind == KMake && Specs(m, r) != []
    requires |stored| == |m.graph.nodes[r].args| && |later| == |m.graph.nodes[r].remaining| && fuel > 0
    requires addr in h && h[addr] == RootFields(m, r, stored)
    ensures RunFn(p, h, ext, fuel + 2, AccumName(m, r), AccumArgs(Carry(later), addr, id))
         == Outcome(m, ext, r, id, stored + later)
  {
    var xs, f := Specs(m, r), AccumName(m, r);
    assert RootLowered(m, p, r);
    var tys, args := LowerTys(m.graph.nodes[r].args), Carry(later);
    assert Carry(args) == args;
    if |xs| == 1 {
      RootSingleRuns(p, h, ext, fuel + 1, f, args, addr, id, tys, stored, CalledWrapper(m, r, xs[0]), RetOf(m, r));
      CallMeans(m, p, h, ext, fuel, r, xs[0], stored, later);
    } else {
      RootDispatchRuns(p, h, ext, fuel + 1, f, args, addr, id, tys, stored, CasesOf(m, r, xs), RetOf(m, r));
      SelectIsByTag(m, r, xs, id);
      if ByTag(xs, id).Some? {
        CallMeans(m, p, h, ext, fuel, r, ByTag(xs, id).value, stored, later);
      }
    }
  }

  /** It is called at its own types if it returns what it is asked for. */
  lemma RootRuns(m: Module, p: Program, h: Heap, ext: Callees, fuel: nat, r: int, addr: int, id: int,
          stored: seq<Value>, later: seq<Value>, ty: OTy)
    requires HasTrampolines(m, p) && r in m.graph.nodes && m.graph.nodes[r].kind == KMake && Specs(m, r) != []
    requires |stored| == |m.graph.nodes[r].args| && |later| == |m.graph.nodes[r].remaining| && fuel > 0
    requires addr in h && h[addr] == RootFields(m, r, stored)
    ensures RunCall(p, h, ext, fuel + 2, AccumName(m, r), AccumArgs(Carry(later), addr, id), ty)
         == if Repr(RetOf(m, r)) == Repr(ty) then At(Outcome(m, ext, r, id, stored + later), ty) else None
  {
    assert RootLowered(m, p, r);
    assert Carry(Carry(later)) == Carry(later);
    AccumFits(p, AccumName(m, r), Carry(later), addr, id);
    RootReturns(m, p, h, ext, fuel, r, addr, id, stored, later);
  }

  // ----- applications -----

  /** The application `d` of a chain's last closure to enough arguments. */
  ghost predicate ApplyOk(m: Module, h: Heap, k: Chain, d: int, args: seq<Value>) {
    && ChainOk(m, h, k)
    && (var c := k.path[|k.path| - 1];
        && c in m.graph.nodes && d in m.graph.nodes && d in Children(Dispatch(m.graph), c)
        && m.graph.nodes[d].kind == KApply
        && |args| == |m.graph.nodes[d].args| == |m.graph.nodes[c].remaining|)
  }

  /** The type of the variable an application is assigned to. Arrows have parameters. */
  function ResultTy(m: Module, d: int): OTy
    requires d in m.graph.nodes
  {
    if m.graph.nodes[d].remaining == [] then LowerTy(m.graph.nodes[d].ret) else ObjPtr
  }

  /** The type at which an application of the closure `c` calls: generic closures return carried words. */
  function SiteTy(m: Module, c: int, d: int): OTy
    requires d in m.graph.nodes
  {
    if ResultTy(m, d) == VOID then VOID else if c in m.generic then I64 else ResultTy(m, d)
  }

  /** The call an application is lowered to: the closure's accumulator on the carried
      arguments, the closure and the weight of the edge into `d`. */
  function RunApply(m: Module, p: Program, h: Heap, ext: Callees, fuel: nat, k: Chain, d: int,
          args: seq<Value>): Option<Value>
    requires 0 < |k.addrs| == |k.path| && Starts(h, k.addrs[|k.addrs| - 1]) && d in m.graph.nodes
  {
    var e := |k.path| - 1;
    At(RunCall(p, h, ext, fuel, AccumOf(h, k),
      AccumArgs(Carry(args), k.addrs[e], EdgeWeight(m.offsets, k.path[e], d)), SiteTy(m, k.path[e], d)), ResultTy(m, d))
  }

  /** Every accumulator on the path returns this machine type. */
  ghost predicate TypesAgree(m: Module, path: seq<int>, ty: OTy) {
    forall i {:trigger Agrees(m, path, i, ty)} :: 0 <= i < |path| ==> Agrees(m, path, i, ty)
  }

  lemma {:induction false} ConcatFront(vals: seq<seq<Value>>)
    requires vals != []
    ensures Concat(vals) == vals[0] + Concat(vals[1..])
    decreases |vals|
  {
    var n := |vals| - 1;
    if n == 0 {
      assert vals[..0] == [] && vals[1..] == [] && [] + vals[0] == vals[0];
    } else {
      ConcatFront(vals[..n]);
      assert vals[..n][1..] == vals[1..][..n - 1];
      assert vals[0] + Concat(vals[1..][..n - 1]) + vals[n] == vals[0] + (Concat(vals[1..][..n - 1]) + vals[n]);
    }
  }

  lemma ChainIsLinked(m: Module, p: Program, path: seq<int>)
    requires HasTrampolines(m, p)
    ensures Linked(m, p, path)
  {
    forall i {:trigger path[i]} | 0 < i < |path| && path[i] in m.graph.nodes
        && m.graph.nodes[path[i]].kind in {KPartial, KCast}
      ensures m.graph.nodes[path[i]].id == path[i] && NodeLowered(m, p, m.graph.nodes[path[i]])
    {
      assert LinkLowered(m, p, path[i]);
    }
  }

  lemma ArgumentsInOrder(vals: seq<seq<Value>>, args: seq<Value>)
    requires vals != []
    ensures Carry(Concat(vals[1..])) + Carry(args) == Carry(Concat(vals[1..]) + args)
        && Carry(Carry(args)) == Carry(args)
    ensures vals[0] + (Concat(vals[1..]) + args) == Concat(vals) + args
  {
    CarryConcat(Concat(vals[1..]), args);
    CarryConcat(args, []);
    ConcatFront(vals);
  }

  lemma RunIdAppend(m: Module, path: seq<int>, d: int)
    requires path != [] && !IsMove(m, d)
    ensures RunId(m, path + [d]) == EdgeWeight(m.offsets, path[|path| - 1], d) + RunId(m, path)
  {
    assert (path + [d])[..|path|] == path;
  }

  lemma ReachesRoot(m: Module, p: Program, h: Heap, ext: Callees, fuel: nat, k: Chain, d: int, args: seq<Value>,
          ty: OTy)
    requires HasTrampolines(m, p) && NodeIds(m.graph) && ApplyOk(m, h, k, d, args)
    ensures var e := |k.path| - 1; var w := EdgeWeight(m.offsets, k.path[e], d);
      && Starts(h, k.addrs[e])
      && HandsOver(p, h, ext, fuel, Steps(m, k.path), AccumOf(h, k), AccumArgs(Carry(args), k.addrs[e], w),
          LinksAgree(m, k.path, ty), AccumName(m, k.path[0]),
          AccumArgs(Carry(Concat(k.vals[1..]) + args), k.addrs[0], w + RunId(m, k.path)), ty)
  {
    ChainIsLinked(m, p, k.path);
    ArgumentsInOrder(k.vals, args);
    ChainRuns(m, p, h, ext, fuel, k, Carry(args), EdgeWeight(m.offsets, k.path[|k.path| - 1], d), ty);
  }

  lemma AgreeAtRoot(m: Module, path: seq<int>, ty: OTy)
    requires path != [] && !IsMove(m, path[0])
    ensures TypesAgree(m, path, ty) <==> LinksAgree(m, path, ty) && Repr(RetOf(m, path[0])) == Repr(ty)
  {
    if TypesAgree(m, path, ty) {
      assert Agrees(m, path, 0, ty);
    } else if LinksAgree(m, path, ty) {
      var i :| 0 <= i < |path| && !Agrees(m, path, i, ty);
    }
  }

  lemma RootAnswers(m: Module, p: Program, h: Heap, ext: Callees, more: nat, k: Chain, d: int, args: seq<Value>,
          id: int, ty: OTy)
    requires HasTrampolines(m, p) && ApplyOk(m, h, k, d, args)
    ensures RunCall(p, h, ext, more + 3, AccumName(m, k.path[0]),
              AccumArgs(Carry(Concat(k.vals[1..]) + args), k.addrs[0], id), ty)
         == if Repr(RetOf(m, k.path[0])) == Repr(ty) then At(Outcome(m, ext, k.path[0], id, Concat(k.vals) + args), ty)
            else None
  {
    ArgumentsInOrder(k.vals, args);
    ChainCounts(m, h, k);
    RootRuns(m, p, h, ext, more + 1, k.path[0], k.addrs[0], id, k.vals[0], Concat(k.vals[1..]) + args, ty);
  }

  /** Whatever the root's accumulator answers is the answer of the call, if the links agree. */
  lemma CallRuns(m: Module, p: Program, h: Heap, ext: Callees, fuel: nat, k: Chain, d: int, args: seq<Value>, ty: OTy,
          v: Option<Value>)
    requires HasTrampolines(m, p) && NodeIds(m.graph) && ApplyOk(m, h, k, d, args)
    requires RunCall(p, h, ext, fuel, AccumName(m, k.path[0]),
        AccumArgs(Carry(Concat(k.vals[1..]) + args), k.addrs[0], RunId(m, k.path + [d])), ty)
      == if Repr(RetOf(m, k.path[0])) == Repr(ty) then v else None
    ensures var e := |k.path| - 1;
      && Starts(h, k.addrs[e])
      && RunCall(p, h, ext, fuel + Steps(m, k.path), AccumOf(h, k),
           AccumArgs(Carry(args), k.addrs[e], EdgeWeight(m.offsets, k.path[e], d)), ty)
         == if TypesAgree(m, k.path, ty) then v else None
  {
    ReachesRoot(m, p, h, ext, fuel, k, d, args, ty);
    AgreeAtRoot(m, k.path, ty);
    RunIdAppend(m, k.path, d);
  }

  lemma AtTwice(v: Option<Value>, t: OTy, u: OTy)
    ensures At(At(v, t), u) == At(v, u)
  {
  }

  /** Every application of every chain whose accumulators return what the application asks for ends as its root's
      choice for the id summed at run time, on all stored arguments, oldest first, and then the applied ones. All
      other applications have no meaning. */
  lemma ApplyRuns(m: Module, p: Program, h: Heap, ext: Callees, more: nat, k: Chain, d: int, args: seq<Value>)
    requires HasTrampolines(m, p) && NodeIds(m.graph) && ApplyOk(m, h, k, d, args)
    ensures Starts(h, k.addrs[|k.addrs| - 1])
    ensures RunApply(m, p, h, ext, more + 3 + Steps(m, k.path), k, d, args)
         == if TypesAgree(m, k.path, SiteTy(m, k.path[|k.path| - 1], d))
            then At(Outcome(m, ext, k.path[0], RunId(m, k.path + [d]), Concat(k.vals) + args), ResultTy(m, d))
            else None
  {
    var id, ty := RunId(m, k.path + [d]), SiteTy(m, k.path[|k.path| - 1], d);
    RootAnswers(m, p, h, ext, more, k, d, args, id, ty);
    var v := Outcome(m, ext, k.path[0], id, Concat(k.vals) + args);
    CallRuns(m, p, h, ext, more + 3, k, d, args, ty, At(v, ty));
    AtTwice(v, ty, ResultTy(m, d));
  }

  // ----- the id and the path -----

  lemma {:induction false} RankAppend(t: Offsets, p: seq<int>, d: int)
    requires p != []
    ensures Rank(t, p + [d]) == Rank(t, p) + EdgeWeight(t, p[|p| - 1], d)
    decreases |p|
  {
    if |p| > 1 {
      assert (p + [d])[1..] == p[1..] + [d];
      RankAppend(t, p[1..], d);
    } else {
      assert (p + [d])[1..] == [d];
    }
  }

  /** What the run time sums up is the rank of the path less the weight of its moves. */
  lemma {:induction false} RunIdIsRankLessMoves(m: Module, path: seq<int>)
    ensures RunId(m, path) + MoveWeight(m, path) == Rank(m.offsets, path)
    decreases |path|
  {
    if |path| > 1 {
      var k := |path| - 1;
      RunIdIsRankLessMoves(m, path[..k]);
      RankAppend(m.offsets, path[..k], path[k]);
      assert path[..k] + [path[k]] == path;
    }
  }

  lemma {:induction false} ChainIsPath(m: Module, h: Heap, k: Chain)
    requires ChainOk(m, h, k)
    ensures PathIn(m.graph, k.path, k.path[0], k.path[|k.path| - 1])
  {
    forall i | 0 < i < |k.path| ensures Edge(EdgesOf(Dispatch(m.graph)), k.path[i - 1], k.path[i]) {
      assert LinkOk(m, h, k, i);
    }
  }

  ghost predicate FromClosure(m: Module, r: int) {
    r in m.graph.summaries && m.graph.summaries[r] != [] && m.graph.summaries[r][0].root.FromMake?
  }

  /** The specialisation that belongs to a path. */
  ghost function PathSpec(m: Module, path: seq<int>): Specialisation
    requires path != [] && FromClosure(m, path[0]) && path[|path| - 1] in m.graph.nodes
  {
    var n := m.graph.nodes[path[|path| - 1]];
    Specialisation(m.graph.summaries[path[0]][0].root.fn, ArgsAlong(m.graph, path) + n.remaining, n.ret,
        Rank(m.offsets, path))
  }

  /** An application that nothing is built from has its path's specialisation at the root. */
  lemma PathIsSpecialised(m: Module, h: Heap, k: Chain, d: int, args: seq<Value>)
    requires Analysed(m) && ApplyOk(m, h, k, d, args) && IsLeaf(m.graph, d)
    ensures FromClosure(m, k.path[0])
    ensures LeafPath(Dispatch(m.graph), k.path + [d], k.path[0])
    ensures PathSpec(m, k.path + [d]) in Specs(m, k.path[0])
  {
    var g, r, path := m.graph, k.path[0], k.path + [d];
    ChainIsPath(m, h, k);
    assert IsWalk(EdgesOf(Dispatch(g)), path) by {
      forall i | 0 < i < |path| ensures Edge(EdgesOf(Dispatch(g)), path[i - 1], path[i]) {
        if i < |k.path| {
          assert path[i] == k.path[i] && path[i - 1] == k.path[i - 1];
        }
      }
    }
    assert PathIn(g, path, r, d);
    forall c | c in g.edges ensures g.edges[c] != [] {
      GraphIsStmts(m.stmts, c, c);
    }
    LeafPathIsPath(g, path, r);
    SummariesArePaths(m.stmts);
    assert Summarised(g, path, r, d);
    SpecialisationsArePaths(m.stmts, m.leaves, m.offsets, r, PathSpec(m, path));
    assert SpecialisedAlong(g, m.offsets, r, path, PathSpec(m, path));
  }

  lemma ChooseIff(xs: seq<Specialisation>, id: int, x: Specialisation, moves: nat)
    requires x in xs && id + moves == x.tag && forall y :: y in xs && y.tag == x.tag ==> y == x
    ensures Choose(xs, id) == Some(x) <==> |xs| == 1 || moves == 0
  {
    ByTagPicks(xs, id);
  }

  /** The root chooses the path's own specialisation if and only if it has no other,
      or the moves along the path weigh nothing. */
  lemma ChoosesPathIff(m: Module, h: Heap, k: Chain, d: int, args: seq<Value>)
    requires Analysed(m) && ApplyOk(m, h, k, d, args) && IsLeaf(m.graph, d)
    ensures FromClosure(m, k.path[0])
    ensures var path := k.path + [d]; var xs := Specs(m, k.path[0]);
      Choose(xs, RunId(m, path)) == Some(PathSpec(m, path)) <==> |xs| == 1 || MoveWeight(m, path) == 0
  {
    var path, r := k.path + [d], k.path[0];
    PathIsSpecialised(m, h, k, d, args);
    RunIdIsRankLessMoves(m, path);
    var x := PathSpec(m, path);
    forall y | y in Specs(m, r) && y.tag == x.tag ensures y == x {
      TagsAreUnique(m.stmts, m.leaves, r, x, y);
    }
    ChooseIff(Specs(m, r), RunId(m, path), x, MoveWeight(m, path));
  }

  // ----- the wrapper and the callee -----

  /** The accumulator calls the wrapper generated for a specialisation if and only if the return
      types agree, or a root with several specialisations returns carried words. */
  lemma WrapperNamesIff(m: Module, r: int, x: Specialisation)
    ensures CalledWrapper(m, r, x) == GeneratedWrapper(m, r, x)
       <==> LowerTy(x.ret) == RetOf(m, r) || (|Specs(m, r)| != 1 && r in m.generic)
  {
  }

  lemma {:induction false} RootSpecsHas(r: int, xs: seq<Specialisation>, x: Specialisation)
    requires x in xs
    ensures (r, x) in RootSpecs(r, xs)
    decreases |xs|
  {
    if x != xs[0] {
      assert xs == [xs[0]] + xs[1..];
      RootSpecsHas(r, xs[1..], x);
    }
  }

  lemma {:induction false} AllSpecsHas(m: Module, stmts: seq<Stmt>, i: nat, x: Specialisation)
    requires i < |stmts| && stmts[i].MakeClosure? && stmts[i].dst.id in m.graph.nodes && x in Specs(m, stmts[i].dst.id)
    ensures (stmts[i].dst.id, x) in AllSpecs(m, stmts)
    decreases |stmts|
  {
    var k := |stmts| - 1;
    if i < k {
      AllSpecsHas(m, stmts[..k], i, x);
    } else {
      RootSpecsHas(stmts[i].dst.id, Specs(m, stmts[i].dst.id), x);
    }
  }

  lemma {:induction false} FirstWithFinds(m: Module, xs: seq<(int, Specialisation)>, r: int, x: Specialisation)
    requires (r, x) in xs
    ensures var y := FirstWith(m, xs, GeneratedWrapper(m, r, x));
      y.Some? && y.value in xs && GeneratedWrapper(m, y.value.0, y.value.1) == GeneratedWrapper(m, r, x)
    decreases |xs|
  {
    if GeneratedWrapper(m, xs[0].0, xs[0].1) != GeneratedWrapper(m, r, x) {
      assert xs == [xs[0]] + xs[1..];
      FirstWithFinds(m, xs[1..], r, x);
    }
  }

  /** The specialisation whose wrapper is called in place of `x`'s: the first with the same name. */
  function Owner(m: Module, r: int, x: Specialisation): Option<(int, Specialisation)> {
    FirstWith(m, AllSpecs(m, m.stmts), GeneratedWrapper(m, r, x))
  }

  lemma OwnerSharesName(m: Module, r: int, x: Specialisation)
    requires (r, x) in AllSpecs(m, m.stmts)
    ensures var y := Owner(m, r, x);
      y.Some? && y.value in AllSpecs(m, m.stmts) && y.value.1.fn == x.fn
      && GeneratedWrapper(m, y.value.0, y.value.1) == GeneratedWrapper(m, r, x)
  {
    FirstWithFinds(m, AllSpecs(m, m.stmts), r, x);
  }

  /** The same function for the same source types, or a function that is not specialised by type. */
  predicate SameSource(m: Module, x: Specialisation, y: Specialisation) {
    x.fn in m.available || (x.args == y.args && x.ret == y.ret)
  }

  ghost predicate CallsOwn(m: Module, r: int, x: Specialisation) {
    var y := Owner(m, r, x);
    y.Some? && CalleeOf(m, y.value.1) == CalleeOf(m, x)
  }

  ghost predicate ShareWrapper(m: Module, r: int, x: Specialisation, r': int, x': Specialisation) {
    && (r, x) in AllSpecs(m, m.stmts) && (r', x') in AllSpecs(m, m.stmts)
    && GeneratedWrapper(m, r, x) == GeneratedWrapper(m, r', x')
  }

  /** Every generated wrapper calls its specialisation's own function if and only if all specialisations whose
      wrappers have one name have the same source types, where the function is specialised by type. */
  lemma CalleesIff(m: Module)
    ensures (forall r, x {:trigger CallsOwn(m, r, x)} :: (r, x) in AllSpecs(m, m.stmts) ==> CallsOwn(m, r, x))
       <==> (forall r, x, r', x' {:trigger ShareWrapper(m, r, x, r', x')} ::
               ShareWrapper(m, r, x, r', x') ==> SameSource(m, x, x'))
  {
    if forall r, x {:trigger CallsOwn(m, r, x)} :: (r, x) in AllSpecs(m, m.stmts) ==> CallsOwn(m, r, x) {
      forall r, x, r', x' | ShareWrapper(m, r, x, r', x') ensures SameSource(m, x, x') {
        assert CallsOwn(m, r, x) && CallsOwn(m, r', x');
        OwnerSharesName(m, r, x);
      }
    } else {
      var r, x :| (r, x) in AllSpecs(m, m.stmts) && !CallsOwn(m, r, x);
      OwnerSharesName(m, r, x);
      var y := Owner(m, r, x).value;
      assert (y.0, y.1) == y && ShareWrapper(m, r, x, y.0, y.1) && !SameSource(m, x, y.1);
    }
  }

  lemma {:induction false} ArgsAlongAppend(g: ClosureGraph, p: seq<int>, d: int)
    ensures ArgsAlong(g, p + [d]) == ArgsAlong(g, p) + (if d in g.nodes then g.nodes[d].args else [])
    decreases |p|
  {
    if p != [] {
      assert (p + [d])[1..] == p[1..] + [d];
      ArgsAlongAppend(g, p[1..], d);
      var a := if p[0] in g.nodes then g.nodes[p[0]].args else [];
      assert a + (ArgsAlong(g, p[1..]) + (if d in g.nodes then g.nodes[d].args else []))
          == a + ArgsAlong(g, p[1..]) + (if d in g.nodes then g.nodes[d].args else []);
    } else {
      assert (p + [d])[1..] == [];
    }
  }

  lemma {:induction false} StoredCount(m: Module, h: Heap, k: Chain)
    requires ChainOk(m, h, k)
    ensures |Concat(k.vals)| == |ArgsAlong(m.graph, k.path)|
    decreases |k.path|
  {
    var e := |k.path| - 1;
    if e > 0 {
      FrontOk(m, h, k);
      StoredCount(m, h, Front(k));
      assert LinkOk(m, h, k, e);
      ArgsAlongAppend(m.graph, k.path[..e], k.path[e]);
      assert k.path[..e] + [k.path[e]] == k.path;
    } else {
      assert k.vals[..0] == [] && k.path[1..] == [];
    }
  }

  /** The path's specialisation takes exactly the arguments at hand if and only if
      the application does not itself return a closure. */
  lemma ArityIff(m: Module, h: Heap, k: Chain, d: int, args: seq<Value>)
    requires Analysed(m) && ApplyOk(m, h, k, d, args) && IsLeaf(m.graph, d)
    ensures FromClosure(m, k.path[0])
    ensures |Concat(k.vals) + args| == |PathSpec(m, k.path + [d]).args| <==> m.graph.nodes[d].remaining == []
  {
    PathIsSpecialised(m, h, k, d, args);
    StoredCount(m, h, k);
    ArgsAlongAppend(m.graph, k.path, d);
  }

  /** What the specialisation itself returns, at its own type. */
  function Intended(m: Module, ext: Callees, x: Specialisation, vals: seq<Value>): Value
    requires |vals| == |x.args|
  {
    As(ext(CalleeOf(m, x), Typed(vals, LowerTys(x.args))), LowerTy(x.ret))
  }

  /** The wrapper was generated, takes what root `r` passes on, and calls `x`'s own function at its declared types,
      on arguments at `x`'s types. */
  ghost predicate WrapperServes(m: Module, r: int, name: FnName, x: Specialisation, vals: seq<Value>)
    requires name.Wrapper? && |vals| == |x.args|
  {
    var z := FirstWith(m, AllSpecs(m, m.stmts), name);
    && z.Some? && CalleeOf(m, z.value.1) == CalleeOf(m, x) && WrapperFits(m, name, PassedOn(m, r, vals))
    && |name.params| == |vals| && Typed(vals, name.params) == Typed(vals, LowerTys(x.args))
    && CalleeTakes(m, x, name, vals)
  }

  /** The id leads to a specialisation whose wrapper was generated and serves `x`. */
  ghost predicate Serves(m: Module, r: int, id: int, x: Specialisation, vals: seq<Value>)
    requires |vals| == |x.args|
  {
    var y := Choose(Specs(m, r), id);
    y.Some? && WrapperServes(m, r, CalledWrapper(m, r, y.value), x, vals)
  }

  ghost predicate ReturnsIntended(m: Module, ext: Callees, r: int, id: int, x: Specialisation, vals: seq<Value>)
    requires |vals| == |x.args|
  {
    At(Outcome(m, ext, r, id, vals), LowerTy(x.ret)) == Some(Intended(m, ext, x, vals))
  }

  /** Source functions that tell one call from all others. */
  function OnlyCall(f: FnName, vs: seq<Value>): Callees {
    (g, ws) => if g == f && ws == vs then Word(I64, 1) else Word(I64, 0)
  }

  /** The root's choice returns what `x` itself would return, whatever the source functions mean, if and only
      if the choice exists, its called wrapper was generated, and that wrapper serves `x`. */
  lemma OutcomeIff(m: Module, r: int, id: int, x: Specialisation, vals: seq<Value>)
    requires |vals| == |x.args|
    ensures (forall ext {:trigger ReturnsIntended(m, ext, r, id, x, vals)} :: ReturnsIntended(m, ext, r, id, x, vals))
       <==> Serves(m, r, id, x, vals)
  {
    if forall ext {:trigger ReturnsIntended(m, ext, r, id, x, vals)} :: ReturnsIntended(m, ext, r, id, x, vals) {
      assert ReturnsIntended(m, OnlyCall(CalleeOf(m, x), Typed(vals, LowerTys(x.args))), r, id, x, vals);
    }
  }

  /** What the application returns in a program that holds the module's trampolines. */
  ghost function Applied(m: Module, p: Program, h: Heap, ext: Callees, more: nat, k: Chain, d: int, args: seq<Value>)
    : (r: Option<Value>)
    requires HasTrampolines(m, p) && NodeIds(m.graph) && ApplyOk(m, h, k, d, args)
    ensures r == if TypesAgree(m, k.path, SiteTy(m, k.path[|k.path| - 1], d))
                 then At(Outcome(m, ext, k.path[0], RunId(m, k.path + [d]), Concat(k.vals) + args), ResultTy(m, d))
                 else None
  {
    ApplyRuns(m, p, h, ext, more, k, d, args);
    RunApply(m, p, h, ext, more + 3 + Steps(m, k.path), k, d, args)
  }

  ghost predicate AppliesAsIntended(m: Module, p: Program, h: Heap, ext: Callees, more: nat, k: Chain, d: int,
          args: seq<Value>)
    requires Analysed(m) && HasTrampolines(m, p) && NodeIds(m.graph)
    requires ApplyOk(m, h, k, d, args) && IsLeaf(m.graph, d) && m.graph.nodes[d].remaining == []
  {
    ArityIff(m, h, k, d, args);
    Applied(m, p, h, ext, more, k, d, args)
    == Some(Intended(m, ext, PathSpec(m, k.path + [d]), Concat(k.vals) + args))
  }

  /** The application asks for what all accumulators on the chain return. */
  ghost predicate SiteAgrees(m: Module, path: seq<int>, d: int)
    requires path != [] && d in m.graph.nodes
  {
    TypesAgree(m, path, SiteTy(m, path[|path| - 1], d))
  }

  lemma AppliesIff(m: Module, p: Program, h: Heap, ext: Callees, more: nat, k: Chain, d: int, args: seq<Value>)
    requires Analysed(m) && HasTrampolines(m, p) && NodeIds(m.graph)
    requires ApplyOk(m, h, k, d, args) && IsLeaf(m.graph, d) && m.graph.nodes[d].remaining == []
    ensures FromClosure(m, k.path[0]) && |Concat(k.vals) + args| == |PathSpec(m, k.path + [d]).args|
    ensures AppliesAsIntended(m, p, h, ext, more, k, d, args) <==>
      (SiteAgrees(m, k.path, d) &&
       ReturnsIntended(m, ext, k.path[0], RunId(m, k.path + [d]), PathSpec(m, k.path + [d]), Concat(k.vals) + args))
  {
    ArityIff(m, h, k, d, args);
  }

  /** Dispatch preserves meaning, exactly when: an application of a chain of closure objects returns what its
      path's own function returns on the stored and applied arguments at their own types, whatever the source
      functions mean, if and only if all accumulators on the chain return the type that the application asks for,
      and the id summed at run time leads to a specialisation whose called wrapper was generated and has the
      parameter types and the callee of the path's own, called at the type it returns. */
  lemma MeaningIff(m: Module, p: Program, h: Heap, more: nat, k: Chain, d: int, args: seq<Value>)
    requires Analysed(m) && HasTrampolines(m, p) && NodeIds(m.graph)
    requires ApplyOk(m, h, k, d, args) && IsLeaf(m.graph, d) && m.graph.nodes[d].remaining == []
    ensures FromClosure(m, k.path[0]) && |Concat(k.vals) + args| == |PathSpec(m, k.path + [d]).args|
    ensures (forall ext {:trigger AppliesAsIntended(m, p, h, ext, more, k, d, args)} ::
               AppliesAsIntended(m, p, h, ext, more, k, d, args))
       <==> (SiteAgrees(m, k.path, d)
             && Serves(m, k.path[0], RunId(m, k.path + [d]), PathSpec(m, k.path + [d]), Concat(k.vals) + args))
  {
    ArityIff(m, h, k, d, args);
    var r, id, x, vals := k.path[0], RunId(m, k.path + [d]), PathSpec(m, k.path + [d]), Concat(k.vals) + args;
    forall ext
      ensures AppliesAsIntended(m, p, h, ext, more, k, d, args) <==>
        (SiteAgrees(m, k.path, d) && ReturnsIntended(m, ext, r, id, x, vals))
    {
      AppliesIff(m, p, h, ext, more, k, d, args);
    }
    OutcomeIff(m, r, id, x, vals);
    if !SiteAgrees(m, k.path, d) {
      assert !AppliesAsIntended(m, p, h, OnlyCall(CalleeOf(m, x), []), more, k, d, args);
    } else if Serves(m, r, id, x, vals) {
      assert forall ext {:trigger ReturnsIntended(m, ext, r, id, x, vals)} :: ReturnsIntended(m, ext, r, id, x, vals);
    } else {
      var ext :| !ReturnsIntended(m, ext, r, id, x, vals);
      assert !AppliesAsIntended(m, p, h, ext, more, k, d, args);
    }
  }

  lemma OwnWrapperServes(m: Module, r: int, id: int, x: Specialisation, vals: seq<Value>)
    requires (r, x) in AllSpecs(m, m.stmts) && Choose(Specs(m, r), id) == Some(x) && |vals| == |x.args|
    requires CalledWrapper(m, r, x) == GeneratedWrapper(m, r, x) && CallsOwn(m, r, x)
    requires WrapperFits(m, CalledWrapper(m, r, x), PassedOn(m, r, vals)) && DeclaredAs(m, x)
    ensures Serves(m, r, id, x, vals)
  {
    OwnerSharesName(m, r, x);
    WrapperNamesIff(m, r, x);
    OwnCalleeTakes(m, r, x, vals);
  }

  /** A function that is compiled under its own name has the types of its specialisation. */
  predicate DeclaredAs(m: Module, x: Specialisation) {
    x.fn in m.available ==>
      && Repr(m.available[x.fn].ret) == Repr(LowerTy(x.ret)) && |m.available[x.fn].params| == |x.args|
      && forall i :: 0 <= i < |x.args| ==> Repr(m.available[x.fn].params[i]) == Repr(LowerTy(x.args[i]))
  }

  lemma OwnCalleeTakes(m: Module, r: int, x: Specialisation, vals: seq<Value>)
    requires DeclaredAs(m, x) && |vals| == |x.args|
    ensures CalleeTakes(m, x, GeneratedWrapper(m, r, x), vals)
  {
    var tys, vs := ParamTys(map[], CalleeOf(m, x)), Typed(vals, LowerTys(x.args));
    forall i | 0 <= i < |vs| && vs[i].Word? ensures Repr(vs[i].ty) == Repr(tys[i]) {
      assert vs[i].ty == LowerTy(x.args[i]);
    }
  }

  /** Where two roots that share a wrapper store a reference argument, both or neither do. */
  predicate StoreAlike(m: Module, r: int, r': int, tys: seq<OTy>) {
    forall i :: 0 <= i < |tys| && IsRef(tys[i]) ==> (i < |StoredTys(m, r)| <==> i < |StoredTys(m, r')|)
  }

  /** A root's stored arguments are the first of each of its specialisations. */
  lemma StoredFirst(m: Module, r: int, x: Specialisation)
    requires Analysed(m) && r in m.graph.roots && x in Specs(m, r)
    ensures StoredTys(m, r) <= LowerTys(x.args)
  {
    SpecialisationsArePaths(m.stmts, m.leaves, m.offsets, r, x);
    var p :| SpecialisedAlong(m.graph, m.offsets, r, p, x);
    if r in m.graph.nodes {
      assert m.graph.nodes[r].args <= x.args;
    }
  }

  /** Argument `i` arrives at the type of the wrapper's parameter unless one root stores it as a reference. */
  ghost predicate PassedAt(m: Module, r: int, r': int, name: FnName, vals: seq<Value>, i: nat)
    requires name.Wrapper? && |vals| == |name.params| && |StoredTys(m, r)| <= |vals| && i < |vals|
  {
    var v := PassedOn(m, r, vals)[i];
    && v.Word?
    && (Repr(v.ty) == Repr(WrapperTys(m, r', name)[i]) <==>
          (IsRef(name.params[i]) ==> (i < |StoredTys(m, r)| <==> i < |StoredTys(m, r')|)))
  }

  lemma IsPassedAt(m: Module, r: int, r': int, name: FnName, vals: seq<Value>, i: nat)
    requires name.Wrapper? && |vals| == |name.params| && StoredTys(m, r) <= name.params && i < |vals| && vals[i].Word?
    ensures PassedAt(m, r, r', name, vals, i)
  {
    var n := |StoredTys(m, r)|;
    if i < n {
      assert PassedOn(m, r, vals)[i] == As(vals[i], SlotTy(StoredTys(m, r)[i])) && StoredTys(m, r)[i] == name.params[i];
    } else {
      assert PassedOn(m, r, vals)[i] == As(vals[n..][i - n], I64);
    }
  }

  lemma AllPassed(m: Module, r: int, r': int, name: FnName, vals: seq<Value>)
    requires name.Wrapper? && |vals| == |name.params| && StoredTys(m, r) <= name.params
    requires forall v :: v in vals ==> v.Word?
    ensures Fits(WrapperTys(m, r', name), PassedOn(m, r, vals)) <==> StoreAlike(m, r, r', name.params)
  {
    forall i | 0 <= i < |vals| ensures PassedAt(m, r, r', name, vals, i) {
      assert vals[i] in vals;
      IsPassedAt(m, r, r', name, vals, i);
    }
    var tys, vs := WrapperTys(m, r', name), PassedOn(m, r, vals);
    if StoreAlike(m, r, r', name.params) {
      forall i: nat | i < |vs| ensures FitsAt(tys, vs, i) {
        assert PassedAt(m, r, r', name, vals, i);
      }
    } else {
      var i: nat :| i < |vals| && IsRef(name.params[i])
                    && !(i < |StoredTys(m, r)| <==> i < |StoredTys(m, r')|);
      assert PassedAt(m, r, r', name, vals, i) && !FitsAt(tys, vs, i);
    }
  }

  /** A root may call a wrapper that was generated for another: it passes on what the wrapper takes if and only if
      both have stored the same reference arguments. */
  lemma WrapperFitsIff(m: Module, r: int, x: Specialisation, vals: seq<Value>)
    requires Analysed(m) && r in m.graph.roots && x in Specs(m, r) && |vals| == |x.args|
    requires forall v :: v in vals ==> v.Word?
    ensures var name := CalledWrapper(m, r, x); var z := FirstWith(m, AllSpecs(m, m.stmts), name);
      WrapperFits(m, name, PassedOn(m, r, vals)) <==> z.Some? && StoreAlike(m, r, z.value.0, name.params)
  {
    var name := CalledWrapper(m, r, x);
    var z := FirstWith(m, AllSpecs(m, m.stmts), name);
    StoredFirst(m, r, x);
    if z.Some? {
      AllPassed(m, r, z.value.0, name, vals);
    }
  }

  /** In particular an application means what it should if its accumulators return what it asks for, no other
      specialisation is there or the moves weigh nothing, and the wrapper is called by the name it was generated
      under and calls the path's own function. */
  lemma ApplyCallsItsOwn(m: Module, p: Program, h: Heap, ext: Callees, more: nat, k: Chain, d: int, args: seq<Value>)
    requires Analysed(m) && HasTrampolines(m, p) && NodeIds(m.graph)
    requires ApplyOk(m, h, k, d, args) && IsLeaf(m.graph, d) && m.graph.nodes[d].remaining == []
    requires SiteAgrees(m, k.path, d)
    requires |Specs(m, k.path[0])| == 1 || MoveWeight(m, k.path + [d]) == 0
    requires LowerTy(m.graph.nodes[d].ret) == RetOf(m, k.path[0])
        || (|Specs(m, k.path[0])| != 1 && k.path[0] in m.generic)
    requires FromClosure(m, k.path[0]) && CallsOwn(m, k.path[0], PathSpec(m, k.path + [d]))
    requires var x := PathSpec(m, k.path + [d]);
      DeclaredAs(m, x)
      && WrapperFits(m, CalledWrapper(m, k.path[0], x), PassedOn(m, k.path[0], Concat(k.vals) + args))
    ensures AppliesAsIntended(m, p, h, ext, more, k, d, args)
  {
    var r, x := k.path[0], PathSpec(m, k.path + [d]);
    PathIsSpecialised(m, h, k, d, args);
    ChoosesPathIff(m, h, k, d, args);
    ArityIff(m, h, k, d, args);
    WrapperNamesIff(m, r, x);
    var i := NodeStmt(m.stmts, r);
    AllSpecsHas(m, m.stmts, i, x);
    OwnWrapperServes(m, r, RunId(m, k.path + [d]), x, Concat(k.vals) + args);
    MeaningIff(m, p, h, more, k, d, args);
  }

  lemma LeafPathIsSpecialised(m: Module, p: seq<int>, r: int)
    requires Analysed(m) && r in m.graph.roots && LeafPath(Dispatch(m.graph), p, r)
    ensures FromClosure(m, r) && p[|p| - 1] in m.graph.nodes && PathSpec(m, p) in Specs(m, r)
  {
    forall c | c in m.graph.edges ensures m.graph.edges[c] != [] {
      GraphIsStmts(m.stmts, c, c);
    }
    LeafPathIsPath(m.graph, p, r);
    SummariesArePaths(m.stmts);
    assert Summarised(m.graph, p, r, p[|p| - 1]);
    SpecialisationsArePaths(m.stmts, m.leaves, m.offsets, r, PathSpec(m, p));
    assert SpecialisedAlong(m.graph, m.offsets, r, p, PathSpec(m, p));
  }

  /** Each root has a specialisation, so lowering a closure never runs out of cases. */
  lemma RootsAreSpecialised(m: Module, r: int)
    requires Analysed(m) && r in m.graph.roots
    ensures Specs(m, r) != []
  {
    OrderedIsAcyclic(m.stmts);
    var p := SomeLeafPath(Dispatch(m.graph), r);
    LeafPathIsSpecialised(m, p, r);
  }

  lemma {:induction false} SomeLeafPath(g: DispatchGraph, v: int) returns (p: seq<int>)
    requires Acyclic(g)
    ensures LeafPath(g, p, v)
    decreases |Below(g, v)|
  {
    if Children(g, v) == [] {
      p := [v];
    } else {
      var c := Children(g, v)[0];
      ChildBelow(g, v, c);
      var q := SomeLeafPath(g, c);
      p := [v] + q;
      assert p[1..] == q;
    }
  }
}
