/** The generated functions of closures, and what one call of each does. */
module Trampolines {
  import opened ClosureGraph
  import opened Oir
  import opened Options

  // ----- the generators -----

  function Xs(n: nat): (r: seq<Local>)
    ensures |r| == n
  {
    seq(n, i requires 0 <= i < n => X(i))
  }

  function Slots(n: nat): (r: seq<Local>)
    ensures |r| == n
  {
    seq(n, i requires 0 <= i < n => Slot(i))
  }

  /** Carried arguments, the closure itself and the dispatch id so far. */
  function AccumParams(n: nat): (r: seq<Param>)
    ensures |r| == n + 2
  {
    seq(n, i requires 0 <= i < n => Param(X(i), I64)) + [Param(Clos, ObjPtr), Param(DispatchId, I64)]
  }

  /** References are loaded as references, all else as a 64-bit word. */
  function SlotTy(t: OTy): OTy {
    if IsRef(t) then ObjPtr else I64
  }

  function SlotTys(ts: seq<OTy>): (r: seq<OTy>)
    ensures |r| == |ts|
  {
    seq(|ts|, i requires 0 <= i < |ts| => SlotTy(ts[i]))
  }

  function Words(n: nat): (r: seq<OTy>)
    ensures |r| == n
  {
    seq(n, i requires 0 <= i < n => I64)
  }

  function SlotLoads(base: nat, tys: seq<OTy>, i: nat): seq<Instr>
    requires i <= |tys|
    decreases |tys| - i
  {
    if i == |tys| then [] else [Load(Slot(i), Clos, base + i, tys[i])] + SlotLoads(base, tys, i + 1)
  }

  /** Layout: accumulator, edge weight, parent, then the stored arguments. */
  function BuildPartialDispatch(count: nat, args: nat, ret: OTy): Fn {
    Fn(AccumParams(args), ret, Block(
      [Load(StoredDispatch, Clos, 1, I64), Add(AccumId, DispatchId, StoredDispatch),
       Load(Parent, Clos, 2, ObjPtr), Load(ParentAccum, Parent, 0, I64)]
      + SlotLoads(3, Words(count), 0)
      + [CallPtr(Result, ParentAccum, Slots(count) + Xs(args) + [Parent, AccumId], ret)],
      Return(Result)))
  }

  /** Layout: accumulator, parent, then the stored arguments. */
  function BuildPartial(count: nat, args: nat, ret: OTy): Fn {
    Fn(AccumParams(args), ret, Block(
      [Load(Parent, Clos, 1, ObjPtr), Load(ParentAccum, Parent, 0, I64)]
      + SlotLoads(2, Words(count), 0)
      + [CallPtr(Result, ParentAccum, Slots(count) + Xs(args) + [Parent, DispatchId], ret)],
      Return(Result)))
  }

  function CallBlock(f: FnName, count: nat, args: nat, ret: OTy): Block {
    Block([CallFn(Result, f, Slots(count) + Xs(args), ret)], Return(Result))
  }

  function Cases(cases: seq<(int, FnName)>, count: nat, args: nat, ret: OTy): (r: seq<(int, Block)>)
    ensures |r| == |cases|
  {
    if cases == [] then []
    else [(cases[0].0, CallBlock(cases[0].1, count, args, ret))] + Cases(cases[1..], count, args, ret)
  }

  /** Layout: accumulator, then the stored arguments. */
  function BuildRootDispatch(stored: seq<OTy>, args: nat, cases: seq<(int, FnName)>, ret: OTy): Fn {
    Fn(AccumParams(args), ret, Block(
      SlotLoads(1, SlotTys(stored), 0), Switch(DispatchId, Cases(cases, |stored|, args, ret))))
  }

  function BuildRootSingle(stored: seq<OTy>, args: nat, wrapper: FnName, ret: OTy): Fn {
    Fn(AccumParams(args), ret, Block(
      SlotLoads(1, SlotTys(stored), 0) + [CallFn(Result, wrapper, Slots(|stored|) + Xs(args), ret)],
      Return(Result)))
  }

  function InputTy(loads: nat, tys: seq<OTy>, i: nat): OTy
    requires i < |tys|
  {
    if i < loads && IsRef(tys[i]) then ObjPtr else I64
  }

  function WrapperParams(loads: nat, tys: seq<OTy>): (r: seq<Param>)
    ensures |r| == |tys|
  {
    seq(|tys|, i requires 0 <= i < |tys| => Param(X(i), InputTy(loads, tys, i)))
  }

  function CalleeArg(loads: nat, tys: seq<OTy>, i: nat): Local
    requires i < |tys|
  {
    if InputTy(loads, tys, i) == tys[i] then X(i) else Casted(i)
  }

  function CalleeArgs(loads: nat, tys: seq<OTy>): (r: seq<Local>)
    ensures |r| == |tys|
  {
    seq(|tys|, i requires 0 <= i < |tys| => CalleeArg(loads, tys, i))
  }

  /** One cast for every input whose type is not yet its parameter's. */
  function ArgCasts(loads: nat, tys: seq<OTy>, i: nat): seq<Instr>
    requires i <= |tys|
    decreases |tys| - i
  {
    if i == |tys| then []
    else
      (if InputTy(loads, tys, i) == tys[i] then [] else [Retag(Casted(i), X(i), tys[i])])
      + ArgCasts(loads, tys, i + 1)
  }

  function BuildWrapper(loads: nat, tys: seq<OTy>, ret: OTy, cast: Option<OTy>, callee: FnName): Fn {
    Fn(WrapperParams(loads, tys), ret, Block(
      ArgCasts(loads, tys, 0)
      + [CallFn(Result, callee, CalleeArgs(loads, tys), if cast.None? then ret else cast.value)]
      + (if cast.None? then [] else [Retag(CastResult, Result, ret)]),
      Return(if cast.None? then Result else CastResult)))
  }

  // ----- what the calls do -----

  /** Every value as a 64-bit word, or at its own type. */
  function Typed(vs: seq<Value>, tys: seq<OTy>): (r: seq<Value>)
    requires |vs| == |tys|
    ensures |r| == |vs|
  {
    seq(|vs|, i requires 0 <= i < |vs| => As(vs[i], tys[i]))
  }

  function Carry(vs: seq<Value>): (r: seq<Value>)
    ensures |r| == |vs|
  {
    seq(|vs|, i requires 0 <= i < |vs| => As(vs[i], I64))
  }

  ghost predicate ArgHolds(env: Env, l: Local, v: Value) {
    l in env && env[l] == v
  }

  ghost predicate XsHold(env: Env, args: seq<Value>) {
    forall i {:trigger X(i)} :: 0 <= i < |args| ==> X(i) in env && env[X(i)] == args[i]
  }

  ghost predicate SlotsHold(env: Env, vs: seq<Value>, from: nat) {
    forall i {:trigger Slot(i)} :: from <= i < |vs| ==> Slot(i) in env && env[Slot(i)] == vs[i]
  }

  /** What an accumulator is called with. */
  function AccumArgs(args: seq<Value>, addr: int, id: int): (r: seq<Value>)
    ensures |r| == |args| + 2
  {
    args + [Word(ObjPtr, addr), Word(I64, id)]
  }

  function AccumEnv(args: seq<Value>, addr: int, id: int): Env {
    Bind(AccumParams(|args|), AccumArgs(args, addr, id))
  }

  lemma AccumEnvHolds(args: seq<Value>, addr: int, id: int)
    ensures var env := AccumEnv(args, addr, id);
      && XsHold(env, Carry(args))
      && Clos in env && env[Clos] == Word(ObjPtr, addr)
      && DispatchId in env && env[DispatchId] == Word(I64, id)
  {
    var ps, vs := AccumParams(|args|), AccumArgs(args, addr, id);
    forall i {:trigger X(i)} | 0 <= i < |args|
      ensures X(i) in Bind(ps, vs) && Bind(ps, vs)[X(i)] == Carry(args)[i]
    {
      BindAt(ps, vs, i);
    }
    BindAt(ps, vs, |args|);
    BindAt(ps, vs, |args| + 1);
  }

  /** Carried arguments, a closure and an id are what an accumulator takes. */
  lemma AccumFits(p: Program, f: FnName, args: seq<Value>, addr: int, id: int)
    requires !Compiled(f) && f in p && p[f].params == AccumParams(|args|) && Carry(args) == args
    ensures Fits(ParamTys(p, f), AccumArgs(args, addr, id))
  {
    var tys, vs := ParamTys(p, f), AccumArgs(args, addr, id);
    forall i: nat | i < |vs| ensures FitsAt(tys, vs, i) {
      assert i < |args| ==> vs[i] == Carry(args)[i];
    }
  }

  /** The local survives loads from slot `i` on. */
  ghost predicate Kept(env: Env, env1: Env, l: Local, i: nat) {
    l in env && (l.Slot? ==> l.i < i) ==> ArgHolds(env1, l, env[l])
  }

  lemma XsKept(env: Env, env1: Env, args: seq<Value>)
    requires XsHold(env, args) && forall l {:trigger Kept(env, env1, l, 0)} :: Kept(env, env1, l, 0)
    ensures XsHold(env1, args)
  {
    forall i {:trigger X(i)} | 0 <= i < |args| ensures X(i) in env1 && env1[X(i)] == args[i] {
      assert Kept(env, env1, X(i), 0);
    }
  }

  /** The loads fetch the slots and touch nothing else. */
  lemma {:induction false} SlotLoadsRun(p: Program, h: Heap, ext: Callees, fuel: nat, base: nat, tys: seq<OTy>, i: nat,
          env: Env, vs: seq<Value>)
    requires i <= |tys| == |vs| && Clos in env && env[Clos].Word? && env[Clos].bits in h
    requires base <= |h[env[Clos].bits]| && h[env[Clos].bits][base..] == vs
    ensures var r := RunInstrs(p, h, ext, fuel, SlotLoads(base, tys, i), env);
      && r.Some? && SlotsHold(r.value, Typed(vs, tys), i)
      && forall l {:trigger Kept(env, r.value, l, i)} :: Kept(env, r.value, l, i)
    decreases |tys| - i
  {
    if i < |tys| {
      assert h[env[Clos].bits][base + i] == h[env[Clos].bits][base..][i];
      var env1 := env[Slot(i) := As(vs[i], tys[i])];
      var code := SlotLoads(base, tys, i);
      assert code[0] == Load(Slot(i), Clos, base + i, tys[i]) && code[1..] == SlotLoads(base, tys, i + 1);
      SlotLoadsRun(p, h, ext, fuel, base, tys, i + 1, env1, vs);
      var r := RunInstrs(p, h, ext, fuel, SlotLoads(base, tys, i + 1), env1);
      assert Kept(env1, r.value, Slot(i), i + 1);
      forall l ensures Kept(env, r.value, l, i) {
        assert Kept(env1, r.value, l, i + 1);
      }
    }
  }

  lemma EvalIs(env: Env, ls: seq<Local>, vs: seq<Value>)
    requires |ls| == |vs| && forall i :: 0 <= i < |ls| ==> ArgHolds(env, ls[i], vs[i])
    ensures Eval(env, ls) == Some(vs)
  {
    forall l | l in ls ensures l in env {
      var i :| 0 <= i < |ls| && ls[i] == l;
      assert ArgHolds(env, ls[i], vs[i]);
    }
    forall i | 0 <= i < |ls| ensures env[ls[i]] == vs[i] {
      assert ArgHolds(env, ls[i], vs[i]);
    }
    assert Eval(env, ls).value == vs;
  }

  /** Slots, carried arguments and more locals evaluate in that order. */
  lemma EvalArgs(env: Env, stored: seq<Value>, args: seq<Value>, more: seq<Local>, vs: seq<Value>)
    requires SlotsHold(env, stored, 0) && XsHold(env, args) && |more| == |vs|
    requires forall i :: 0 <= i < |more| ==> ArgHolds(env, more[i], vs[i])
    ensures Eval(env, Slots(|stored|) + Xs(|args|) + more) == Some(stored + args + vs)
  {
    var ls, all := Slots(|stored|) + Xs(|args|) + more, stored + args + vs;
    forall i | 0 <= i < |ls| ensures ArgHolds(env, ls[i], all[i]) {
      if i < |stored| {
        assert ls[i] == Slot(i);
      } else if i < |stored| + |args| {
        assert ls[i] == X(i - |stored|);
      } else {
        var k := i - |stored| - |args|;
        assert ls[i] == more[k] && all[i] == vs[k];
      }
    }
    EvalIs(env, ls, all);
  }

  lemma EvalWrapperArgs(env: Env, stored: seq<Value>, args: seq<Value>)
    requires SlotsHold(env, stored, 0) && XsHold(env, args)
    ensures Eval(env, Slots(|stored|) + Xs(|args|)) == Some(stored + args)
  {
    EvalArgs(env, stored, args, [], []);
    assert Slots(|stored|) + Xs(|args|) + [] == Slots(|stored|) + Xs(|args|) && stored + args + [] == stored + args;
  }

  /** Instructions, then one call whose result is returned. */
  lemma CallLast(p: Program, h: Heap, ext: Callees, fuel: nat, code: seq<Instr>, last: Instr, env: Env, f: FnName,
          vs: seq<Value>)
    requires var r := RunInstrs(p, h, ext, fuel, code, env);
      && r.Some?
      && ((last.CallFn? && last.fn == f) || (last.CallPtr? && last.ptr in r.value && r.value[last.ptr] == Code(f)))
      && last.dst == Result && Eval(r.value, last.args) == Some(vs)
    ensures RunBlock(p, h, ext, fuel, Block(code + [last], Return(Result)), env)
         == RunCall(p, h, ext, fuel, f, vs, last.ty)
  {
    RunAppend(p, h, ext, fuel, code, [last], env);
    var env1 := RunInstrs(p, h, ext, fuel, code, env).value;
    assert [last][1..] == [];
    assert RunInstrs(p, h, ext, fuel, [last], env1) == RunInstr(p, h, ext, fuel, last, env1);
  }

  /** The object is a link of a chain: it can reach its parent's accumulator. */
  ghost predicate LinksTo(h: Heap, parent: int, accum: FnName) {
    parent in h && h[parent] != [] && h[parent][0] == Code(accum)
  }

  lemma PrologueDispatch(p: Program, h: Heap, ext: Callees, fuel: nat, env: Env, addr: int, id: int, weight: int,
          parent: int, accum: FnName)
    requires Clos in env && env[Clos] == Word(ObjPtr, addr) && DispatchId in env && env[DispatchId] == Word(I64, id)
    requires addr in h && |h[addr]| >= 3 && h[addr][1] == Word(I64, weight) && h[addr][2] == Word(ObjPtr, parent)
    requires LinksTo(h, parent, accum)
    ensures RunInstrs(p, h, ext, fuel,
      [Load(StoredDispatch, Clos, 1, I64), Add(AccumId, DispatchId, StoredDispatch),
       Load(Parent, Clos, 2, ObjPtr), Load(ParentAccum, Parent, 0, I64)], env)
      == Some(env[StoredDispatch := Word(I64, weight)][AccumId := Word(I64, id + weight)]
                 [Parent := Word(ObjPtr, parent)][ParentAccum := Code(accum)])
  {
    var i0, i1 := Load(StoredDispatch, Clos, 1, I64), Add(AccumId, DispatchId, StoredDispatch);
    var i2, i3 := Load(Parent, Clos, 2, ObjPtr), Load(ParentAccum, Parent, 0, I64);
    var e0 := env[StoredDispatch := Word(I64, weight)];
    var e1 := e0[AccumId := Word(I64, id + weight)];
    var e2 := e1[Parent := Word(ObjPtr, parent)];
    RunCons(p, h, ext, fuel, i0, [i1, i2, i3], env, e0);
    RunCons(p, h, ext, fuel, i1, [i2, i3], e0, e1);
    RunCons(p, h, ext, fuel, i2, [i3], e1, e2);
    RunCons(p, h, ext, fuel, i3, [], e2, e2[ParentAccum := Code(accum)]);
    assert [i0] + [i1, i2, i3] == [i0, i1, i2, i3] && [i1] + [i2, i3] == [i1, i2, i3] && [i2] + [i3] == [i2, i3]
        && [i3] + [] == [i3];
  }

  lemma RunCons(p: Program, h: Heap, ext: Callees, fuel: nat, i: Instr, rest: seq<Instr>, env: Env, env1: Env)
    requires RunInstr(p, h, ext, fuel, i, env) == Some(env1)
    ensures RunInstrs(p, h, ext, fuel, [i] + rest, env) == RunInstrs(p, h, ext, fuel, rest, env1)
  {
    assert ([i] + rest)[1..] == rest;
  }

  lemma ProloguePlain(p: Program, h: Heap, ext: Callees, fuel: nat, env: Env, addr: int, parent: int, accum: FnName)
    requires Clos in env && env[Clos] == Word(ObjPtr, addr)
    requires addr in h && |h[addr]| >= 2 && h[addr][1] == Word(ObjPtr, parent)
    requires LinksTo(h, parent, accum)
    ensures RunInstrs(p, h, ext, fuel, [Load(Parent, Clos, 1, ObjPtr), Load(ParentAccum, Parent, 0, I64)], env)
      == Some(env[Parent := Word(ObjPtr, parent)][ParentAccum := Code(accum)])
  {
    var i0, i1 := Load(Parent, Clos, 1, ObjPtr), Load(ParentAccum, Parent, 0, I64);
    var e0 := env[Parent := Word(ObjPtr, parent)];
    RunCons(p, h, ext, fuel, i0, [i1], env, e0);
    RunCons(p, h, ext, fuel, i1, [], e0, e0[ParentAccum := Code(accum)]);
    assert [i0] + [i1] == [i0, i1] && [i1] + [] == [i1];
  }

  lemma CarryTyped(vs: seq<Value>)
    ensures Typed(vs, Words(|vs|)) == Carry(vs)
  {
  }

  /** A dispatching link adds its weight, puts its stored arguments first and calls its parent. */
  lemma PartialDispatchRuns(p: Program, h: Heap, ext: Callees, fuel: nat, f: FnName,
                            args: seq<Value>, addr: int, id: int, weight: int, parent: int, accum: FnName,
                            stored: seq<Value>, ret: OTy)
    requires f in p && !Compiled(f) && p[f] == BuildPartialDispatch(|stored|, |args|, ret) && Carry(args) == args
    requires addr in h && h[addr] == [Code(f), Word(I64, weight), Word(ObjPtr, parent)] + stored
        && LinksTo(h, parent, accum)
    ensures RunFn(p, h, ext, fuel + 1, f, AccumArgs(args, addr, id))
         == RunCall(p, h, ext, fuel, accum, AccumArgs(Carry(stored) + args, parent, id + weight), ret)
  {
    var env := AccumEnv(args, addr, id);
    AccumEnvHolds(args, addr, id);
    PrologueDispatch(p, h, ext, fuel, env, addr, id, weight, parent, accum);
    var pro := [Load(StoredDispatch, Clos, 1, I64), Add(AccumId, DispatchId, StoredDispatch),
                Load(Parent, Clos, 2, ObjPtr), Load(ParentAccum, Parent, 0, I64)];
    var env1 := RunInstrs(p, h, ext, fuel, pro, env).value;
    assert h[addr][3..] == stored;
    SlotLoadsRun(p, h, ext, fuel, 3, Words(|stored|), 0, env1, stored);
    CarryTyped(stored);
    var loads := SlotLoads(3, Words(|stored|), 0);
    RunAppend(p, h, ext, fuel, pro, loads, env);
    var env2 := RunInstrs(p, h, ext, fuel, loads, env1).value;
    XsKept(env1, env2, args);
    LinkLocalsKept(env1, env2);
    FinishLink(p, h, ext, fuel, pro + loads, env, env2, stored, args, parent, id + weight, AccumId, accum, ret);
  }

  /** A plain link does the same with the id unchanged. */
  lemma PartialRuns(p: Program, h: Heap, ext: Callees, fuel: nat, f: FnName,
                    args: seq<Value>, addr: int, id: int, parent: int, accum: FnName, stored: seq<Value>, ret: OTy)
    requires f in p && !Compiled(f) && p[f] == BuildPartial(|stored|, |args|, ret) && Carry(args) == args
    requires addr in h && h[addr] == [Code(f), Word(ObjPtr, parent)] + stored && LinksTo(h, parent, accum)
    ensures RunFn(p, h, ext, fuel + 1, f, AccumArgs(args, addr, id))
         == RunCall(p, h, ext, fuel, accum, AccumArgs(Carry(stored) + args, parent, id), ret)
  {
    var env := AccumEnv(args, addr, id);
    AccumEnvHolds(args, addr, id);
    ProloguePlain(p, h, ext, fuel, env, addr, parent, accum);
    var pro := [Load(Parent, Clos, 1, ObjPtr), Load(ParentAccum, Parent, 0, I64)];
    var env1 := RunInstrs(p, h, ext, fuel, pro, env).value;
    assert h[addr][2..] == stored;
    SlotLoadsRun(p, h, ext, fuel, 2, Words(|stored|), 0, env1, stored);
    CarryTyped(stored);
    var loads := SlotLoads(2, Words(|stored|), 0);
    RunAppend(p, h, ext, fuel, pro, loads, env);
    var env2 := RunInstrs(p, h, ext, fuel, loads, env1).value;
    XsKept(env1, env2, args);
    LinkLocalsKept(env1, env2);
    FinishLink(p, h, ext, fuel, pro + loads, env, env2, stored, args, parent, id, DispatchId, accum, ret);
  }

  lemma LinkLocalsKept(env: Env, env1: Env)
    requires forall l {:trigger Kept(env, env1, l, 0)} :: Kept(env, env1, l, 0)
    ensures Parent in env ==> ArgHolds(env1, Parent, env[Parent])
    ensures ParentAccum in env ==> ArgHolds(env1, ParentAccum, env[ParentAccum])
    ensures AccumId in env ==> ArgHolds(env1, AccumId, env[AccumId])
    ensures DispatchId in env ==> ArgHolds(env1, DispatchId, env[DispatchId])
  {
    assert Kept(env, env1, Parent, 0) && Kept(env, env1, ParentAccum, 0);
    assert Kept(env, env1, AccumId, 0) && Kept(env, env1, DispatchId, 0);
  }

  lemma FinishLink(p: Program, h: Heap, ext: Callees, fuel: nat, code: seq<Instr>, env: Env, env2: Env,
                   stored: seq<Value>, args: seq<Value>, parent: int, id: int, idLocal: Local, accum: FnName,
                   ret: OTy)
    requires RunInstrs(p, h, ext, fuel, code, env) == Some(env2)
    requires SlotsHold(env2, Carry(stored), 0) && XsHold(env2, args)
    requires Parent in env2 && env2[Parent] == Word(ObjPtr, parent) && idLocal in env2 && env2[idLocal] == Word(I64, id)
    requires ParentAccum in env2 && env2[ParentAccum] == Code(accum)
    ensures var call := CallPtr(Result, ParentAccum, Slots(|stored|) + Xs(|args|) + [Parent, idLocal], ret);
      RunBlock(p, h, ext, fuel, Block(code + [call], Return(Result)), env)
         == RunCall(p, h, ext, fuel, accum, AccumArgs(Carry(stored) + args, parent, id), ret)
  {
    EvalArgs(env2, Carry(stored), args, [Parent, idLocal], [Word(ObjPtr, parent), Word(I64, id)]);
    CallLast(p, h, ext, fuel, code,
        CallPtr(Result, ParentAccum, Slots(|stored|) + Xs(|args|) + [Parent, idLocal], ret), env, accum,
        AccumArgs(Carry(stored) + args, parent, id));
  }

  /** Loading the slots of a root object. */
  lemma RootLoads(p: Program, h: Heap, ext: Callees, fuel: nat, f: FnName, args: seq<Value>, addr: int, id: int,
          tys: seq<OTy>, stored: seq<Value>)
    requires Carry(args) == args && |tys| == |stored| && addr in h && h[addr] == [Code(f)] + stored
    ensures var env := AccumEnv(args, addr, id);
      var r := RunInstrs(p, h, ext, fuel, SlotLoads(1, SlotTys(tys), 0), env);
      && r.Some? && SlotsHold(r.value, Typed(stored, SlotTys(tys)), 0) && XsHold(r.value, args)
      && DispatchId in r.value && r.value[DispatchId] == Word(I64, id)
  {
    AccumEnvHolds(args, addr, id);
    assert h[addr][1..] == stored;
    var env := AccumEnv(args, addr, id);
    SlotLoadsRun(p, h, ext, fuel, 1, SlotTys(tys), 0, env, stored);
    var env1 := RunInstrs(p, h, ext, fuel, SlotLoads(1, SlotTys(tys), 0), env).value;
    XsKept(env, env1, args);
    LinkLocalsKept(env, env1);
  }

  /** A root with one specialisation calls its wrapper whatever the id. */
  lemma RootSingleRuns(p: Program, h: Heap, ext: Callees, fuel: nat, f: FnName, args: seq<Value>, addr: int, id: int,
                       tys: seq<OTy>, stored: seq<Value>, wrapper: FnName, ret: OTy)
    requires f in p && !Compiled(f) && p[f] == BuildRootSingle(tys, |args|, wrapper, ret) && Carry(args) == args
    requires |tys| == |stored| && addr in h && h[addr] == [Code(f)] + stored
    ensures RunFn(p, h, ext, fuel + 1, f, AccumArgs(args, addr, id))
         == RunCall(p, h, ext, fuel, wrapper, Typed(stored, SlotTys(tys)) + args, ret)
  {
    RootLoads(p, h, ext, fuel, f, args, addr, id, tys, stored);
    var env := AccumEnv(args, addr, id);
    var code := SlotLoads(1, SlotTys(tys), 0);
    var env1 := RunInstrs(p, h, ext, fuel, code, env).value;
    EvalWrapperArgs(env1, Typed(stored, SlotTys(tys)), args);
    CallLast(p, h, ext, fuel, code, CallFn(Result, wrapper, Slots(|tys|) + Xs(|args|), ret), env, wrapper,
        Typed(stored, SlotTys(tys)) + args);
  }

  /** The first case with the id. */
  function Select(cases: seq<(int, FnName)>, id: int): Option<FnName> {
    if cases == [] then None else if cases[0].0 == id then Some(cases[0].1) else Select(cases[1..], id)
  }

  lemma RestWithin(cs: seq<(int, Block)>, b: Block)
    requires cs != [] && forall i :: 0 <= i < |cs| ==> cs[i].1 < b
    ensures forall i :: 0 <= i < |cs[1..]| ==> cs[1..][i].1 < b
  {
    forall i | 0 <= i < |cs[1..]| ensures cs[1..][i].1 < b {
      assert cs[1..][i] == cs[i + 1];
    }
  }

  lemma {:induction false} CasesRun(p: Program, h: Heap, ext: Callees, fuel: nat, b: Block, cs: seq<(int, Block)>,
                                    cases: seq<(int, FnName)>, count: nat, args: nat, ret: OTy, id: int, env: Env,
                                    vs: seq<Value>)
    requires Eval(env, Slots(count) + Xs(args)) == Some(vs)
    requires cs == Cases(cases, count, args, ret) && forall i :: 0 <= i < |cs| ==> cs[i].1 < b
    ensures RunCases(p, h, ext, fuel, b, cs, id, env)
         == if Select(cases, id).Some? then RunCall(p, h, ext, fuel, Select(cases, id).value, vs, ret) else None
    decreases |cases|
  {
    if cases != [] {
      assert cs[1..] == Cases(cases[1..], count, args, ret);
      if cases[0].0 == id {
        var call := CallFn(Result, cases[0].1, Slots(count) + Xs(args), ret);
        assert [] + [call] == [call];
        CallLast(p, h, ext, fuel, [], call, env, cases[0].1, vs);
      } else {
        RestWithin(cs, b);
        CasesRun(p, h, ext, fuel, b, cs[1..], cases[1..], count, args, ret, id, env, vs);
      }
    }
  }

  /** A root with several specialisations calls the wrapper of the id's case, and is stuck without one. */
  lemma RootDispatchRuns(p: Program, h: Heap, ext: Callees, fuel: nat, f: FnName, args: seq<Value>, addr: int, id: int,
                         tys: seq<OTy>, stored: seq<Value>, cases: seq<(int, FnName)>, ret: OTy)
    requires f in p && !Compiled(f) && p[f] == BuildRootDispatch(tys, |args|, cases, ret) && Carry(args) == args
    requires |tys| == |stored| && addr in h && h[addr] == [Code(f)] + stored
    ensures RunFn(p, h, ext, fuel + 1, f, AccumArgs(args, addr, id))
         == if Select(cases, id).Some?
            then RunCall(p, h, ext, fuel, Select(cases, id).value, Typed(stored, SlotTys(tys)) + args, ret)
            else None
  {
    RootLoads(p, h, ext, fuel, f, args, addr, id, tys, stored);
    var env := AccumEnv(args, addr, id);
    var env1 := RunInstrs(p, h, ext, fuel, SlotLoads(1, SlotTys(tys), 0), env).value;
    EvalWrapperArgs(env1, Typed(stored, SlotTys(tys)), args);
    CasesRun(p, h, ext, fuel, p[f].body, Cases(cases, |tys|, |args|, ret), cases, |tys|, |args|, ret, id, env1,
        Typed(stored, SlotTys(tys)) + args);
  }

  ghost predicate InputsHold(env: Env, loads: nat, tys: seq<OTy>, vs: seq<Value>)
    requires |vs| == |tys|
  {
    forall j {:trigger X(j)} :: 0 <= j < |tys| ==> ArgHolds(env, X(j), As(vs[j], InputTy(loads, tys, j)))
  }

  ghost predicate CalleeArgHolds(env: Env, loads: nat, tys: seq<OTy>, vs: seq<Value>, j: nat)
    requires j < |vs| == |tys|
  {
    ArgHolds(env, CalleeArg(loads, tys, j), As(vs[j], tys[j]))
  }

  lemma CastKeeps(env: Env, loads: nat, tys: seq<OTy>, vs: seq<Value>, i: nat, env1: Env)
    requires i < |vs| == |tys| && InputsHold(env, loads, tys, vs) && InputTy(loads, tys, i) != tys[i]
    requires forall j {:trigger CalleeArgHolds(env, loads, tys, vs, j)} ::
        0 <= j < i ==> CalleeArgHolds(env, loads, tys, vs, j)
    requires env1 == env[Casted(i) := As(vs[i], tys[i])]
    ensures InputsHold(env1, loads, tys, vs)
    ensures forall j {:trigger CalleeArgHolds(env1, loads, tys, vs, j)} ::
        0 <= j < i + 1 ==> CalleeArgHolds(env1, loads, tys, vs, j)
  {
    forall j {:trigger CalleeArgHolds(env1, loads, tys, vs, j)} | 0 <= j < i + 1
      ensures CalleeArgHolds(env1, loads, tys, vs, j)
    {
      assert j < i ==> CalleeArgHolds(env, loads, tys, vs, j);
    }
  }

  /** After the casts every callee argument has its parameter's type. */
  lemma {:induction false} ArgCastsRun(p: Program, h: Heap, ext: Callees, fuel: nat, loads: nat, tys: seq<OTy>, i: nat,
          env: Env, vs: seq<Value>)
    requires i <= |tys| == |vs| && InputsHold(env, loads, tys, vs)
    requires forall j {:trigger CalleeArgHolds(env, loads, tys, vs, j)} ::
        0 <= j < i ==> CalleeArgHolds(env, loads, tys, vs, j)
    ensures var r := RunInstrs(p, h, ext, fuel, ArgCasts(loads, tys, i), env);
      r.Some? && forall j {:trigger CalleeArgHolds(r.value, loads, tys, vs, j)} ::
          0 <= j < |tys| ==> CalleeArgHolds(r.value, loads, tys, vs, j)
    decreases |tys| - i
  {
    if i < |tys| {
      var rest := ArgCasts(loads, tys, i + 1);
      assert ArgHolds(env, X(i), As(vs[i], InputTy(loads, tys, i)));
      if InputTy(loads, tys, i) == tys[i] {
        assert [] + rest == rest;
        assert CalleeArgHolds(env, loads, tys, vs, i);
        ArgCastsRun(p, h, ext, fuel, loads, tys, i + 1, env, vs);
      } else {
        var env1 := env[Casted(i) := As(vs[i], tys[i])];
        RunCons(p, h, ext, fuel, Retag(Casted(i), X(i), tys[i]), rest, env, env1);
        CastKeeps(env, loads, tys, vs, i, env1);
        ArgCastsRun(p, h, ext, fuel, loads, tys, i + 1, env1, vs);
      }
    }
  }

  lemma EvalCalleeArgs(env: Env, loads: nat, tys: seq<OTy>, vs: seq<Value>)
    requires |vs| == |tys|
    requires forall j {:trigger CalleeArgHolds(env, loads, tys, vs, j)} ::
        0 <= j < |tys| ==> CalleeArgHolds(env, loads, tys, vs, j)
    ensures Eval(env, CalleeArgs(loads, tys)) == Some(Typed(vs, tys))
  {
    var ls := CalleeArgs(loads, tys);
    forall i | 0 <= i < |ls| ensures ArgHolds(env, ls[i], Typed(vs, tys)[i]) {
      assert CalleeArgHolds(env, loads, tys, vs, i);
    }
    EvalIs(env, ls, Typed(vs, tys));
  }

  /** A wrapper hands every argument at its parameter's type to the callee, and returns the result at its own type.
      A wrong number of arguments, or a callee with other types than it is called at, gets it stuck. */
  lemma WrapperRuns(p: Program, h: Heap, ext: Callees, fuel: nat, f: FnName, loads: nat, tys: seq<OTy>, ret: OTy,
          cast: Option<OTy>, callee: FnName, vs: seq<Value>)
    requires f in p && !Compiled(f) && p[f] == BuildWrapper(loads, tys, ret, cast, callee) && Compiled(callee)
        && fuel > 0
    ensures RunFn(p, h, ext, fuel + 1, f, vs) ==
      if |vs| != |tys| || !Returns(p, callee, if cast.None? then ret else cast.value)
         || !Fits(ParamTys(p, callee), Typed(vs, tys))
      then None
      else Some(As(ext(callee, Typed(vs, tys)), ret))
  {
    if |vs| == |tys| {
      var env := Bind(WrapperParams(loads, tys), vs);
      forall j {:trigger X(j)} | 0 <= j < |tys| ensures ArgHolds(env, X(j), As(vs[j], InputTy(loads, tys, j))) {
        BindAt(WrapperParams(loads, tys), vs, j);
      }
      var casts := ArgCasts(loads, tys, 0);
      ArgCastsRun(p, h, ext, fuel, loads, tys, 0, env, vs);
      var env1 := RunInstrs(p, h, ext, fuel, casts, env).value;
      EvalCalleeArgs(env1, loads, tys, vs);
      WrapperCalls(p, h, ext, fuel, casts, CalleeArgs(loads, tys), ret, cast, callee, env, env1, Typed(vs, tys));
    }
  }

  lemma WrapperCalls(p: Program, h: Heap, ext: Callees, fuel: nat, casts: seq<Instr>, args: seq<Local>, ret: OTy,
          cast: Option<OTy>, callee: FnName, env: Env, env1: Env, vs: seq<Value>)
    requires RunInstrs(p, h, ext, fuel, casts, env) == Some(env1) && Eval(env1, args) == Some(vs)
    requires Compiled(callee) && fuel > 0
    ensures var ty := if cast.None? then ret else cast.value;
      var code := casts + [CallFn(Result, callee, args, ty)]
        + (if cast.None? then [] else [Retag(CastResult, Result, ret)]);
      RunBlock(p, h, ext, fuel, Block(code, Return(if cast.None? then Result else CastResult)), env)
      == if Returns(p, callee, ty) && Fits(ParamTys(p, callee), vs) then Some(As(ext(callee, vs), ret)) else None
  {
    var ty := if cast.None? then ret else cast.value;
    var call := CallFn(Result, callee, args, ty);
    var rest := if cast.None? then [] else [Retag(CastResult, Result, ret)];
    assert casts + [call] + rest == casts + ([call] + rest);
    RunAppend(p, h, ext, fuel, casts, [call] + rest, env);
    assert ([call] + rest)[0] == call && ([call] + rest)[1..] == rest;
    assert RunFn(p, h, ext, fuel, callee, vs) == Some(ext(callee, vs));
    var v := RunCall(p, h, ext, fuel, callee, vs, ty);
    assert RunTyped(p, h, ext, fuel, callee, vs, ty)
        == if Returns(p, callee, ty) && Fits(ParamTys(p, callee), vs) then Some(ext(callee, vs)) else None;
    assert RunInstr(p, h, ext, fuel, call, env1) == Put(env1, Result, v);
    if v.Some? {
      var env2 := env1[Result := As(ext(callee, vs), ty)];
      RunCons(p, h, ext, fuel, call, rest, env1, env2);
      if cast.Some? {
        RunCons(p, h, ext, fuel, rest[0], [], env2, env2[CastResult := As(env2[Result], ret)]);
        assert [rest[0]] + [] == rest;
      }
    }
  }
}
