/** The small part of the object-level language that closure trampolines are written in,
    and its meaning over a heap of closure objects. */
module Oir {
  import opened ClosureGraph
  import opened Options

  /** Lowered types. `Boxed` and `ObjPtr` are references. */
  datatype OTy = I64 | Scalar(name: string) | Boxed(name: string) | ObjPtr

  function LowerTy(t: Ty): OTy {
    match t
    case Arrow(_, _) => ObjPtr
    case Base(name, boxed) => if boxed then Boxed(name) else if name == "i64" then I64 else Scalar(name)
  }

  function LowerTys(ts: seq<Ty>): (r: seq<OTy>)
    ensures |r| == |ts|
  {
    seq(|ts|, i requires 0 <= i < |ts| => LowerTy(ts[i]))
  }

  predicate IsRef(t: OTy) {
    t.Boxed? || t.ObjPtr?
  }

  const VOID := Scalar("void")

  /** The machine type of a value: signs do not matter, characters are bytes, and all references are pointers. */
  function Repr(t: OTy): OTy {
    match t
    case I64 => I64
    case ObjPtr => ObjPtr
    case Boxed(_) => ObjPtr
    case Scalar(name) =>
      if name == "u64" then I64
      else if name == "u32" then Scalar("i32")
      else if name == "u16" then Scalar("i16")
      else if name == "u8" || name == "char" then Scalar("i8")
      else t
  }

  datatype Signature = Signature(params: seq<OTy>, ret: OTy)

  /** Function names, by what they are printed from; `Named` functions with their declared types. */
  datatype FnName =
    | PartialDispatch(count: nat, sig: seq<bool>, args: nat, ret: OTy)
    | PartialPlain(count: nat, sig: seq<bool>, args: nat, ret: OTy)
    | RootDispatch(root: int, ret: OTy)
    | RootSingle(fn: string, root: int, ret: OTy)
    | Wrapper(fn: string, params: seq<OTy>, ret: OTy, cast: Option<OTy>)
    | Named(fn: string, declared: Signature)
    | Specialised(fn: string, tys: seq<Ty>, res: Ty)

  /** A word at some type, or the address of a function. */
  datatype Value = Word(ty: OTy, bits: int) | Code(fn: FnName)

  /** The same word at another type: what a cast, a typed load and a typed parameter do. */
  function As(v: Value, t: OTy): Value {
    if v.Word? then Word(t, v.bits) else v
  }

  /** Distinct names stand for the fresh identifiers of the generated variables. */
  datatype Local =
    | X(i: nat) | Clos | DispatchId
    | StoredDispatch | AccumId | Parent | ParentAccum | Slot(i: nat)
    | Casted(i: nat) | Result | CastResult

  datatype Param = Param(local: Local, ty: OTy)

  datatype Instr =
    | Load(dst: Local, obj: Local, field: nat, ty: OTy)
    | Add(dst: Local, lhs: Local, rhs: Local)
    | Retag(dst: Local, src: Local, ty: OTy)
    | CallPtr(dst: Local, ptr: Local, args: seq<Local>, ty: OTy)
    | CallFn(dst: Local, fn: FnName, args: seq<Local>, ty: OTy)

  datatype Block = Block(instrs: seq<Instr>, term: Terminator)

  /** A switch without default case: no case, no meaning. */
  datatype Terminator = Return(local: Local) | Switch(scrutinee: Local, cases: seq<(int, Block)>)

  datatype Fn = Fn(params: seq<Param>, ret: OTy, body: Block)

  type Env = map<Local, Value>
  type Heap = map<int, seq<Value>>

  /** The functions that are compiled from the source program, as an arbitrary meaning. */
  type Callees = (FnName, seq<Value>) -> Value

  type Program = map<FnName, Fn>

  function Bind(ps: seq<Param>, vs: seq<Value>): Env
    requires |ps| == |vs|
  {
    if ps == [] then map[]
    else Bind(ps[..|ps| - 1], vs[..|ps| - 1])[ps[|ps| - 1].local := As(vs[|ps| - 1], ps[|ps| - 1].ty)]
  }

  function Eval(env: Env, ls: seq<Local>): Option<seq<Value>> {
    if forall l :: l in ls ==> l in env then Some(seq(|ls|, i requires 0 <= i < |ls| => env[ls[i]])) else None
  }

  function Field(h: Heap, env: Env, obj: Local, field: nat): Option<Value> {
    if obj in env && env[obj].Word? && env[obj].bits in h && field < |h[env[obj].bits]|
    then Some(h[env[obj].bits][field])
    else None
  }

  function Put(env: Env, dst: Local, v: Option<Value>): Option<Env> {
    if v.Some? then Some(env[dst := v.value]) else None
  }

  predicate Compiled(f: FnName) {
    f.Named? || f.Specialised?
  }

  /** The function is declared to return values of this machine type. */
  predicate Returns(p: Program, f: FnName, t: OTy) {
    if Compiled(f) then Repr(DeclaredTy(f)) == Repr(t) else f in p && Repr(p[f].ret) == Repr(t)
  }

  function DeclaredTy(f: FnName): OTy
    requires Compiled(f)
  {
    if f.Named? then f.declared.ret else LowerTy(f.res)
  }

  function ParamTys(p: Program, f: FnName): seq<OTy> {
    if f.Named? then f.declared.params
    else if f.Specialised? then LowerTys(f.tys)
    else if f in p then seq(|p[f].params|, i requires 0 <= i < |p[f].params| => p[f].params[i].ty)
    else []
  }

  /** The words have these machine types. */
  predicate Fits(tys: seq<OTy>, vs: seq<Value>) {
    |vs| == |tys| && forall i: nat {:trigger FitsAt(tys, vs, i)} :: i < |vs| ==> FitsAt(tys, vs, i)
  }

  predicate FitsAt(tys: seq<OTy>, vs: seq<Value>, i: nat)
    requires i < |vs| == |tys|
  {
    vs[i].Word? ==> Repr(vs[i].ty) == Repr(tys[i])
  }

  /** A call into a variable of type `t`. At other types than the function's own it has no meaning. */
  function RunCall(p: Program, h: Heap, ext: Callees, fuel: nat, f: FnName, args: seq<Value>, t: OTy): Option<Value>
    decreases fuel, 0, 2
  {
    At(RunTyped(p, h, ext, fuel, f, args, t), t)
  }

  function RunTyped(p: Program, h: Heap, ext: Callees, fuel: nat, f: FnName, args: seq<Value>, t: OTy): Option<Value>
    decreases fuel, 0, 1
  {
    if Returns(p, f, t) && Fits(ParamTys(p, f), args) then RunFn(p, h, ext, fuel, f, args) else None
  }

  function At(v: Option<Value>, t: OTy): Option<Value> {
    if v.Some? then Some(As(v.value, t)) else None
  }

  /** What a function returns; `None` if it gets stuck or `fuel` calls are not enough. */
  function RunFn(p: Program, h: Heap, ext: Callees, fuel: nat, f: FnName, args: seq<Value>): Option<Value>
    decreases fuel, 0, 0
  {
    if fuel == 0 then None
    else if Compiled(f) then Some(ext(f, args))
    else if f !in p || |p[f].params| != |args| then None
    else RunBlock(p, h, ext, fuel - 1, p[f].body, Bind(p[f].params, args))
  }

  function RunBlock(p: Program, h: Heap, ext: Callees, fuel: nat, b: Block, env: Env): Option<Value>
    decreases fuel, 2, b
  {
    match RunInstrs(p, h, ext, fuel, b.instrs, env)
    case None => None
    case Some(env1) =>
      match b.term
      case Return(l) => if l in env1 then Some(env1[l]) else None
      case Switch(l, cases) =>
        if l in env1 && env1[l].Word? then RunCases(p, h, ext, fuel, b, cases, env1[l].bits, env1) else None
  }

  function RunCases(p: Program, h: Heap, ext: Callees, fuel: nat, ghost b: Block, cases: seq<(int, Block)>, id: int,
          env: Env): Option<Value>
    requires forall i :: 0 <= i < |cases| ==> cases[i].1 < b
    decreases fuel, 2, b, |cases|
  {
    if cases == [] then None
    else if cases[0].0 == id then RunBlock(p, h, ext, fuel, cases[0].1, env)
    else RunCases(p, h, ext, fuel, b, cases[1..], id, env)
  }

  function RunInstr(p: Program, h: Heap, ext: Callees, fuel: nat, i: Instr, env: Env): Option<Env>
    decreases fuel, 1, 0
  {
    match i
    case Load(dst, obj, field, ty) =>
      var v := Field(h, env, obj, field);
      if v.Some? then Some(env[dst := As(v.value, ty)]) else None
    case Add(dst, lhs, rhs) =>
      if lhs in env && rhs in env && env[lhs].Word? && env[rhs].Word?
      then Some(env[dst := Word(I64, env[lhs].bits + env[rhs].bits)])
      else None
    case Retag(dst, src, ty) =>
      if src in env then Some(env[dst := As(env[src], ty)]) else None
    case CallPtr(dst, ptr, args, ty) =>
      var vs := Eval(env, args);
      if ptr in env && env[ptr].Code? && vs.Some?
      then Put(env, dst, RunCall(p, h, ext, fuel, env[ptr].fn, vs.value, ty))
      else None
    case CallFn(dst, fn, args, ty) =>
      var vs := Eval(env, args);
      if vs.Some? then Put(env, dst, RunCall(p, h, ext, fuel, fn, vs.value, ty)) else None
  }

  function RunInstrs(p: Program, h: Heap, ext: Callees, fuel: nat, instrs: seq<Instr>, env: Env): Option<Env>
    decreases fuel, 1, 1, |instrs|
  {
    if instrs == [] then Some(env)
    else
      match RunInstr(p, h, ext, fuel, instrs[0], env)
      case None => None
      case Some(env1) => RunInstrs(p, h, ext, fuel, instrs[1..], env1)
  }

  lemma {:induction false} RunAppend(p: Program, h: Heap, ext: Callees, fuel: nat, a: seq<Instr>, b: seq<Instr>,
          env: Env)
    ensures RunInstrs(p, h, ext, fuel, a + b, env) ==
      match RunInstrs(p, h, ext, fuel, a, env)
      case None => None
      case Some(env1) => RunInstrs(p, h, ext, fuel, b, env1)
    decreases |a|
  {
    if a == [] {
      assert a + b == b;
    } else {
      assert (a + b)[1..] == a[1..] + b;
      match RunInstr(p, h, ext, fuel, a[0], env)
      case None =>
      case Some(env1) => RunAppend(p, h, ext, fuel, a[1..], b, env1);
    }
  }

  ghost predicate DistinctLocals(ps: seq<Param>) {
    forall i, j :: 0 <= i < j < |ps| ==> ps[i].local != ps[j].local
  }

  lemma {:induction false} BindAt(ps: seq<Param>, vs: seq<Value>, i: nat)
    requires |ps| == |vs| && DistinctLocals(ps) && i < |ps|
    ensures ps[i].local in Bind(ps, vs) && Bind(ps, vs)[ps[i].local] == As(vs[i], ps[i].ty)
    decreases |ps|
  {
    var n := |ps| - 1;
    if i < n {
      BindAt(ps[..n], vs[..n], i);
    }
  }
}
