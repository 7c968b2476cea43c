/** Unification over chained substitutions, and why its result is the most general one. */
module Unification {
  import opened Graphs
  import opened Types

  datatype Result = Ok(s: Subst) | Err

  /** `Any` is equal to everything. */
  predicate EqualTy(a: Ty, b: Ty)
    decreases a
  {
    if a.Any? || b.Any? then true
    else
      match (a, b)
      case (Var(v), Var(w)) => v == w
      case (Constant(c), Constant(d)) => c == d
      case (Arrow(a1, r1), Arrow(a2, r2)) => EqualTy(a1, a2) && EqualTy(r1, r2)
      case (Tuple(xs), Tuple(ys)) => EqualAll(xs, ys)
      case (Array(x), Array(y)) => EqualTy(x, y)
      case (Defined(n, xs), Defined(k, ys)) => n == k && EqualAll(xs, ys)
      case _ => false
  }

  predicate EqualAll(xs: seq<Ty>, ys: seq<Ty>)
    decreases xs
  {
    |xs| == |ys| && (xs == [] || (EqualTy(xs[0], ys[0]) && EqualAll(xs[1..], ys[1..])))
  }

  predicate Occurs(v: int, t: Ty)
    decreases t
  {
    match t
    case Var(w) => v == w
    case Arrow(a, r) => Occurs(v, a) || Occurs(v, r)
    case Tuple(es) => OccursAny(v, es)
    case Array(e) => Occurs(v, e)
    case Defined(_, args) => OccursAny(v, args)
    case _ => false
  }

  predicate OccursAny(v: int, ts: seq<Ty>)
    decreases ts
  {
    ts != [] && (Occurs(v, ts[0]) || OccursAny(v, ts[1..]))
  }

  lemma {:induction false} OccursIff(v: int, t: Ty)
    ensures Occurs(v, t) <==> v in Vars(t)
    decreases t
  {
    match t
    case Var(_) =>
    case Any =>
    case Constant(_) =>
    case Arrow(a, r) =>
      OccursIff(v, a);
      OccursIff(v, r);
    case Tuple(es) => OccursAnyIff(v, es);
    case Array(e) => OccursIff(v, e);
    case Defined(_, args) => OccursAnyIff(v, args);
  }

  lemma {:induction false} OccursAnyIff(v: int, ts: seq<Ty>)
    ensures OccursAny(v, ts) <==> v in VarsAll(ts)
    decreases ts
  {
    if ts != [] {
      OccursIff(v, ts[0]);
      OccursAnyIff(v, ts[1..]);
    }
  }

  /** What every successful step leaves behind: a longer acyclic substitution over the variables at hand. */
  ghost predicate Grown(s: Subst, s': Subst, vs: set<int>) {
    && Acyclic(s') && s.Keys <= s'.Keys && (forall v :: v in s ==> s'[v] == s[v])
    && AllVars(s') <= AllVars(s) + vs
    && s'.Keys <= s.Keys + AllVars(s) + vs
  }

  /** The variables that may still be bound. */
  ghost function Free(s: Subst, vs: set<int>): set<int> {
    vs + AllVars(s) - s.Keys
  }

  lemma BindGrows(s: Subst, v: int, t: Ty, vs: set<int>)
    requires Acyclic(s) && v !in s && v !in Vars(t) && Vars(t) !! s.Keys
    requires v in vs + AllVars(s) && Vars(t) <= vs + AllVars(s)
    ensures Grown(s, s[v := t], vs)
  {
    BindAcyclic(s, v, t);
  }

  lemma FreeShrinks(s: Subst, s1: Subst, vs: set<int>, us: set<int>, ws: set<int>)
    requires Grown(s, s1, us) && us <= vs + AllVars(s) && ws <= vs + AllVars(s)
    ensures Free(s1, ws) <= Free(s, vs)
    ensures forall k :: k in s1.Keys && k !in s.Keys ==> k in Free(s, vs) && k !in Free(s1, ws)
  {
  }

  lemma SameKeysSame(s: Subst, s1: Subst)
    requires s.Keys <= s1.Keys && forall v :: v in s ==> s1[v] == s[v]
    ensures s1.Keys <= s.Keys ==> s1 == s
  {
    if s1.Keys <= s.Keys {
      assert s1.Keys == s.Keys;
      forall v | v in s1 ensures v in s && s1[v] == s[v] {
        assert v in s.Keys;
      }
    }
  }

  lemma Extra(a: set<int>, b: set<int>) returns (k: int)
    requires !(b <= a)
    ensures k in b && k !in a
  {
    assert (forall k :: k in b ==> k in a) ==> b <= a;
    k :| k in b && k !in a;
  }

  lemma CardLess(a: set<int>, b: set<int>)
    requires a <= b
    ensures |a| <= |b| && (a != b ==> |a| < |b|)
  {
    if a != b {
      ProperSubsetSmaller(a, b);
    }
  }

  /** Going on with parts of the applied types: nothing was bound and the parts stay as they are,
      or fewer variables are free. */
  lemma PartsLess(s: Subst, s1: Subst, vs: set<int>, us: set<int>, ws: set<int>)
    requires Grown(s, s1, us) && us <= vs + AllVars(s) && ws <= vs + AllVars(s)
    ensures |Free(s1, ws)| <= |Free(s, vs)|
    ensures s1 == s || |Free(s1, ws)| < |Free(s, vs)|
  {
    FreeShrinks(s, s1, vs, us, ws);
    CardLess(Free(s1, ws), Free(s, vs));
    SameKeysSame(s, s1);
    if s1 != s {
      var k := Extra(s.Keys, s1.Keys);
      assert k in Free(s, vs) && k !in Free(s1, ws);
    }
  }

  lemma GrownTrans(s: Subst, s1: Subst, s2: Subst, vs: set<int>, us: set<int>, ws: set<int>)
    requires Grown(s, s1, us) && Grown(s1, s2, ws) && us <= vs + AllVars(s) && ws <= vs + AllVars(s)
    ensures Grown(s, s2, vs)
  {
  }

  /** Both applied types mention only unbound variables that were at hand. */
  lemma AppliedParts(s: Subst, a: Ty, b: Ty)
    requires Acyclic(s)
    ensures var a', b' := Apply(s, a), Apply(s, b);
      Vars(a') + Vars(b') <= Vars(a) + Vars(b) + AllVars(s) && Vars(a') + Vars(b') !! s.Keys
  {
    ApplyVars(s, a);
    ApplyVars(s, b);
  }

  function BindVar(s: Subst, v: int, t: Ty): Result {
    if Occurs(v, t) then Err else Ok(s[v := t])
  }

  lemma BindVarGrows(s: Subst, v: int, t: Ty, vs: set<int>)
    requires Acyclic(s) && v !in s && Vars(t) !! s.Keys && v in vs + AllVars(s) && Vars(t) <= vs + AllVars(s)
    ensures BindVar(s, v, t).Ok? ==> Grown(s, BindVar(s, v, t).s, vs)
  {
    OccursIff(v, t);
    if v !in Vars(t) {
      BindGrows(s, v, t, vs);
    }
  }

  function Unify(s: Subst, a: Ty, b: Ty): (r: Result)
    requires Acyclic(s)
    ensures r.Ok? ==> Grown(s, r.s, Vars(a) + Vars(b))
    decreases |Free(s, Vars(a) + Vars(b))|, Size(Apply(s, a)), 2
  {
    var a', b' := Apply(s, a), Apply(s, b);
    AppliedParts(s, a, b);
    if a'.Any? || b'.Any? then Ok(s)
    else if EqualTy(a', b') then Ok(s)
    else if a'.Var? then
      BindVarGrows(s, a'.v, b', Vars(a) + Vars(b));
      BindVar(s, a'.v, b')
    else if b'.Var? then
      BindVarGrows(s, b'.v, a', Vars(a) + Vars(b));
      BindVar(s, b'.v, a')
    else
      ReflGrown(s);
      PartsLess(s, s, Vars(a) + Vars(b), {}, Vars(a') + Vars(b'));
      UnifyShapes(s, a', b')
  }

  /** The applied types differ and neither is a variable. */
  function UnifyShapes(s: Subst, a: Ty, b: Ty): (r: Result)
    requires Acyclic(s) && Vars(a) + Vars(b) !! s.Keys
    ensures r.Ok? ==> Grown(s, r.s, Vars(a) + Vars(b))
    decreases |Free(s, Vars(a) + Vars(b))|, Size(a), 1
  {
    match (a, b)
    case (Arrow(a1, r1), Arrow(a2, r2)) =>
      ArrowVars(a1, r1, a2, r2);
      UnifyPair(s, a1, r1, a2, r2)
    case (Tuple(xs), Tuple(ys)) =>
      ApplyUnboundAll(s, xs);
      if |xs| != |ys| then Err else UnifyAll(s, xs, ys)
    case (Array(x), Array(y)) =>
      ApplyUnbound(s, x);
      Unify(s, x, y)
    case (Defined(n, xs), Defined(k, ys)) =>
      ApplyUnboundAll(s, xs);
      if n != k || |xs| != |ys| then Err else UnifyAll(s, xs, ys)
    case _ => Err
  }

  lemma ArrowVars(a1: Ty, r1: Ty, a2: Ty, r2: Ty)
    ensures Vars(Arrow(a1, r1)) + Vars(Arrow(a2, r2)) == Vars(a1) + Vars(a2) + (Vars(r1) + Vars(r2))
  {
  }

  /** First the arguments, then the returns under what that bound. */
  function UnifyPair(s: Subst, a1: Ty, r1: Ty, a2: Ty, r2: Ty): (r: Result)
    requires Acyclic(s) && Vars(a1) !! s.Keys && Vars(r1) !! s.Keys
    ensures r.Ok? ==> Grown(s, r.s, Vars(a1) + Vars(a2) + (Vars(r1) + Vars(r2)))
    decreases |Free(s, Vars(a1) + Vars(a2) + (Vars(r1) + Vars(r2)))|, Size(a1) + Size(r1), 1
  {
    var vs := Vars(a1) + Vars(a2) + (Vars(r1) + Vars(r2));
    ReflGrown(s);
    PartsLess(s, s, vs, {}, Vars(a1) + Vars(a2));
    ApplyUnbound(s, a1);
    match Unify(s, a1, a2)
    case Err => Err
    case Ok(s1) =>
      RestOfArrow(s, s1, vs, a1, r1, a2, r2);
      var r := Unify(s1, r1, r2);
      assert r.Ok? ==> Grown(s, r.s, vs) by {
        if r.Ok? {
          GrownTrans(s, s1, r.s, vs, Vars(a1) + Vars(a2), Vars(r1) + Vars(r2));
        }
      }
      r
  }

  lemma ReflGrown(s: Subst)
    requires Acyclic(s)
    ensures Grown(s, s, {})
  {
  }

  lemma RestOfArrow(s: Subst, s1: Subst, vs: set<int>, a1: Ty, r1: Ty, a2: Ty, r2: Ty)
    requires Acyclic(s) && Grown(s, s1, Vars(a1) + Vars(a2))
    requires Vars(a1) + Vars(a2) <= vs + AllVars(s) && Vars(r1) + Vars(r2) <= vs + AllVars(s) && Vars(r1) !! s.Keys
    ensures |Free(s1, Vars(r1) + Vars(r2))| < |Free(s, vs)|
         || (|Free(s1, Vars(r1) + Vars(r2))| == |Free(s, vs)| && Size(Apply(s1, r1)) == Size(r1))
  {
    PartsLess(s, s1, vs, Vars(a1) + Vars(a2), Vars(r1) + Vars(r2));
    ApplyUnbound(s, r1);
  }

  function UnifyAll(s: Subst, xs: seq<Ty>, ys: seq<Ty>): (r: Result)
    requires Acyclic(s) && |xs| == |ys|
    ensures r.Ok? ==> Grown(s, r.s, VarsAll(xs) + VarsAll(ys))
    decreases |Free(s, VarsAll(xs) + VarsAll(ys))|, SizeAll(ApplyAll(s, xs)), 3
  {
    if xs == [] then Ok(s)
    else
      var vs := VarsAll(xs) + VarsAll(ys);
      PartsLess(s, s, vs, {}, Vars(xs[0]) + Vars(ys[0]));
      ApplyAllSize(s, xs);
      match Unify(s, xs[0], ys[0])
      case Err => Err
      case Ok(s1) =>
        PartsLess(s, s1, vs, Vars(xs[0]) + Vars(ys[0]), VarsAll(xs[1..]) + VarsAll(ys[1..]));
        var r := UnifyAll(s1, xs[1..], ys[1..]);
        assert r.Ok? ==> Grown(s, r.s, vs) by {
          if r.Ok? {
            GrownTrans(s, s1, r.s, vs, Vars(xs[0]) + Vars(ys[0]), VarsAll(xs[1..]) + VarsAll(ys[1..]));
          }
        }
        r
  }

  lemma ApplyAllSize(s: Subst, xs: seq<Ty>)
    requires Acyclic(s) && xs != []
    ensures SizeAll(ApplyAll(s, xs)) == Size(Apply(s, xs[0])) + SizeAll(ApplyAll(s, xs[1..]))
    ensures Size(Apply(s, xs[0])) <= SizeAll(ApplyAll(s, xs))
        && SizeAll(ApplyAll(s, xs[1..])) < SizeAll(ApplyAll(s, xs))
  {
    assert ApplyAll(s, xs)[1..] == ApplyAll(s, xs[1..]);
  }

  // ----- types without the wildcard -----

  predicate AnyFree(t: Ty)
    decreases t
  {
    match t
    case Any => false
    case Arrow(a, r) => AnyFree(a) && AnyFree(r)
    case Tuple(es) => AnyFreeAll(es)
    case Array(e) => AnyFree(e)
    case Defined(_, args) => AnyFreeAll(args)
    case _ => true
  }

  predicate AnyFreeAll(ts: seq<Ty>)
    decreases ts
  {
    ts == [] || (AnyFree(ts[0]) && AnyFreeAll(ts[1..]))
  }

  ghost predicate AnyFreeSubst(s: Subst) {
    forall v :: v in s ==> AnyFree(s[v])
  }

  lemma {:induction false} ApplyAnyFree(s: Subst, t: Ty)
    requires Acyclic(s) && AnyFreeSubst(s) && AnyFree(t)
    ensures AnyFree(Apply(s, t))
    decreases |Followed(s, Vars(t))|, t
  {
    match t
    case Var(v) =>
      if v in s {
        FollowedLess(s, v);
        ApplyAnyFree(s, s[v]);
      }
    case Constant(_) =>
    case Arrow(a, r) =>
      FollowedMonotone(s, Vars(a), Vars(t));
      FollowedMonotone(s, Vars(r), Vars(t));
      ApplyAnyFree(s, a);
      ApplyAnyFree(s, r);
    case Tuple(es) => ApplyAnyFreeAll(s, es);
    case Array(e) => ApplyAnyFree(s, e);
    case Defined(_, args) => ApplyAnyFreeAll(s, args);
  }

  lemma {:induction false} ApplyAnyFreeAll(s: Subst, ts: seq<Ty>)
    requires Acyclic(s) && AnyFreeSubst(s) && AnyFreeAll(ts)
    ensures AnyFreeAll(ApplyAll(s, ts))
    decreases |Followed(s, VarsAll(ts))|, ts
  {
    if ts != [] {
      FollowedMonotone(s, Vars(ts[0]), VarsAll(ts));
      FollowedMonotone(s, VarsAll(ts[1..]), VarsAll(ts));
      ApplyAnyFree(s, ts[0]);
      ApplyAnyFreeAll(s, ts[1..]);
      assert ApplyAll(s, ts)[1..] == ApplyAll(s, ts[1..]);
    }
  }

  /** Without wildcards, equality of types is equality. */
  lemma {:induction false} EqualTyIff(a: Ty, b: Ty)
    requires AnyFree(a) && AnyFree(b)
    ensures EqualTy(a, b) <==> a == b
    decreases a
  {
    match (a, b)
    case (Arrow(a1, r1), Arrow(a2, r2)) =>
      EqualTyIff(a1, a2);
      EqualTyIff(r1, r2);
    case (Tuple(xs), Tuple(ys)) => EqualAllIff(xs, ys);
    case (Array(x), Array(y)) => EqualTyIff(x, y);
    case (Defined(_, xs), Defined(_, ys)) => EqualAllIff(xs, ys);
    case _ =>
  }

  lemma {:induction false} EqualAllIff(xs: seq<Ty>, ys: seq<Ty>)
    requires AnyFreeAll(xs) && AnyFreeAll(ys)
    ensures EqualAll(xs, ys) <==> xs == ys
    decreases xs
  {
    if xs != [] && |xs| == |ys| {
      EqualTyIff(xs[0], ys[0]);
      EqualAllIff(xs[1..], ys[1..]);
      assert xs == [xs[0]] + xs[1..] && ys == [ys[0]] + ys[1..];
    }
  }

  // ----- soundness and generality -----

  /** A type that properly contains a variable is larger than what the variable stands for. */
  lemma {:induction false} ContainsIsLarger(th: Theta, v: int, t: Ty)
    requires v in Vars(t)
    ensures Size(Sub(th, t)) >= Size(th(v))
    ensures t != Var(v) ==> Size(Sub(th, t)) > Size(th(v))
    decreases t
  {
    match t
    case Var(_) =>
    case Arrow(a, r) =>
      if v in Vars(a) {
        ContainsIsLarger(th, v, a);
      } else {
        ContainsIsLarger(th, v, r);
      }
    case Tuple(es) => AllContainIsLarger(th, v, es);
    case Array(e) => ContainsIsLarger(th, v, e);
    case Defined(_, args) => AllContainIsLarger(th, v, args);
  }

  lemma {:induction false} AllContainIsLarger(th: Theta, v: int, ts: seq<Ty>)
    requires v in VarsAll(ts)
    ensures SizeAll(SubAll(th, ts)) >= Size(th(v))
    decreases ts
  {
    assert SubAll(th, ts)[1..] == SubAll(th, ts[1..]);
    if v in Vars(ts[0]) {
      ContainsIsLarger(th, v, ts[0]);
    } else {
      AllContainIsLarger(th, v, ts[1..]);
    }
  }

  /** The solutions of the result are exactly the solutions of the input that unify the two types;
      without a result there are none. */
  ghost predicate Exact(th: Theta, s: Subst, r: Result, a: Ty, b: Ty) {
    (r.Ok? && Satisfies(th, r.s)) <==> (Satisfies(th, s) && Unifies(th, a, b))
  }

  ghost predicate ExactAll(th: Theta, s: Subst, r: Result, xs: seq<Ty>, ys: seq<Ty>) {
    (r.Ok? && Satisfies(th, r.s)) <==> (Satisfies(th, s) && SubAll(th, xs) == SubAll(th, ys))
  }

  lemma BindVarExact(th: Theta, s: Subst, v: int, t: Ty)
    requires v !in s && t != Var(v)
    ensures Exact(th, s, BindVar(s, v, t), Var(v), t) && Exact(th, s, BindVar(s, v, t), t, Var(v))
  {
    OccursIff(v, t);
    if v in Vars(t) {
      ContainsIsLarger(th, v, t);
    } else {
      var s' := s[v := t];
      if Satisfies(th, s') {
        assert th(v) == Sub(th, s'[v]);
        forall w | w in s ensures th(w) == Sub(th, s[w]) {
          assert s'[w] == s[w];
        }
      }
    }
  }

  /** Exactness for the applied types is exactness for the types. */
  lemma ExactThroughApply(th: Theta, s: Subst, r: Result, a: Ty, b: Ty)
    requires Acyclic(s) && Exact(th, s, r, Apply(s, a), Apply(s, b))
    ensures Exact(th, s, r, a, b)
  {
    if Satisfies(th, s) {
      SubApply(th, s, a);
      SubApply(th, s, b);
    }
  }

  lemma BindVarAnyFree(s: Subst, v: int, t: Ty)
    requires AnyFreeSubst(s) && AnyFree(t)
    ensures BindVar(s, v, t).Ok? ==> AnyFreeSubst(BindVar(s, v, t).s)
  {
  }

  /** For every choice of types: it solves the result if and only if it solves the input and
      unifies `a` with `b`. So the result is most general, and failure means there is no unifier. */
  lemma {:induction false} UnifyExact(th: Theta, s: Subst, a: Ty, b: Ty)
    requires Acyclic(s) && AnyFreeSubst(s) && AnyFree(a) && AnyFree(b)
    ensures Exact(th, s, Unify(s, a, b), a, b)
    ensures Unify(s, a, b).Ok? ==> AnyFreeSubst(Unify(s, a, b).s)
    decreases |Free(s, Vars(a) + Vars(b))|, Size(Apply(s, a)), 2
  {
    var a', b' := Apply(s, a), Apply(s, b);
    AppliedParts(s, a, b);
    ApplyAnyFree(s, a);
    ApplyAnyFree(s, b);
    EqualTyIff(a', b');
    if a' != b' {
      if a'.Var? {
        BindVarExact(th, s, a'.v, b');
        BindVarAnyFree(s, a'.v, b');
      } else if b'.Var? {
        BindVarExact(th, s, b'.v, a');
        BindVarAnyFree(s, b'.v, a');
      } else {
        ReflGrown(s);
        PartsLess(s, s, Vars(a) + Vars(b), {}, Vars(a') + Vars(b'));
        ShapesExact(th, s, a', b');
      }
    }
    ExactThroughApply(th, s, Unify(s, a, b), a, b);
  }

  lemma {:induction false} ShapesExact(th: Theta, s: Subst, a: Ty, b: Ty)
    requires Acyclic(s) && Vars(a) + Vars(b) !! s.Keys && AnyFreeSubst(s) && AnyFree(a) && AnyFree(b)
    requires a != b && !a.Var? && !b.Var?
    ensures Exact(th, s, UnifyShapes(s, a, b), a, b)
    ensures UnifyShapes(s, a, b).Ok? ==> AnyFreeSubst(UnifyShapes(s, a, b).s)
    decreases |Free(s, Vars(a) + Vars(b))|, Size(a), 1
  {
    match (a, b)
    case (Arrow(a1, r1), Arrow(a2, r2)) =>
      ArrowVars(a1, r1, a2, r2);
      PairExact(th, s, a1, r1, a2, r2);
    case (Tuple(xs), Tuple(ys)) =>
      ApplyUnboundAll(s, xs);
      if |xs| == |ys| {
        UnifyAllExact(th, s, xs, ys);
      }
    case (Array(x), Array(y)) =>
      ApplyUnbound(s, x);
      UnifyExact(th, s, x, y);
    case (Defined(n, xs), Defined(k, ys)) =>
      ApplyUnboundAll(s, xs);
      if n == k && |xs| == |ys| {
        UnifyAllExact(th, s, xs, ys);
      }
    case _ =>
  }

  lemma ExactInTurn(th: Theta, s: Subst, first: Result, second: Result, a1: Ty, r1: Ty, a2: Ty, r2: Ty)
    requires first.Ok? && Exact(th, s, first, a1, a2) && Exact(th, first.s, second, r1, r2)
    ensures Exact(th, s, second, Arrow(a1, r1), Arrow(a2, r2))
  {
  }

  lemma ExactFails(th: Theta, s: Subst, a1: Ty, r1: Ty, a2: Ty, r2: Ty)
    requires Exact(th, s, Err, a1, a2)
    ensures Exact(th, s, Err, Arrow(a1, r1), Arrow(a2, r2))
  {
  }

  lemma {:induction false} PairExact(th: Theta, s: Subst, a1: Ty, r1: Ty, a2: Ty, r2: Ty)
    requires Acyclic(s) && Vars(a1) !! s.Keys && Vars(r1) !! s.Keys
    requires AnyFreeSubst(s) && AnyFree(a1) && AnyFree(a2) && AnyFree(r1) && AnyFree(r2)
    ensures Exact(th, s, UnifyPair(s, a1, r1, a2, r2), Arrow(a1, r1), Arrow(a2, r2))
    ensures UnifyPair(s, a1, r1, a2, r2).Ok? ==> AnyFreeSubst(UnifyPair(s, a1, r1, a2, r2).s)
    decreases |Free(s, Vars(a1) + Vars(a2) + (Vars(r1) + Vars(r2)))|, Size(a1) + Size(r1), 1
  {
    ArgumentsExact(th, s, a1, r1, a2, r2);
    if Unify(s, a1, a2).Err? {
      PairFails(th, s, a1, r1, a2, r2);
      return;
    }
    ReturnsExact(th, s, Unify(s, a1, a2).s, a1, r1, a2, r2);
    PairInTurn(th, s, Unify(s, a1, a2).s, a1, r1, a2, r2);
  }

  lemma PairFails(th: Theta, s: Subst, a1: Ty, r1: Ty, a2: Ty, r2: Ty)
    requires Acyclic(s) && Vars(a1) !! s.Keys && Vars(r1) !! s.Keys && Unify(s, a1, a2).Err?
    requires Exact(th, s, Unify(s, a1, a2), a1, a2)
    ensures UnifyPair(s, a1, r1, a2, r2).Err?
    ensures Exact(th, s, UnifyPair(s, a1, r1, a2, r2), Arrow(a1, r1), Arrow(a2, r2))
  {
    ExactFails(th, s, a1, r1, a2, r2);
  }

  lemma PairInTurn(th: Theta, s: Subst, s1: Subst, a1: Ty, r1: Ty, a2: Ty, r2: Ty)
    requires Acyclic(s) && Vars(a1) !! s.Keys && Vars(r1) !! s.Keys && Unify(s, a1, a2) == Ok(s1)
    requires Exact(th, s, Unify(s, a1, a2), a1, a2) && Exact(th, s1, Unify(s1, r1, r2), r1, r2)
    ensures UnifyPair(s, a1, r1, a2, r2) == Unify(s1, r1, r2)
    ensures Exact(th, s, UnifyPair(s, a1, r1, a2, r2), Arrow(a1, r1), Arrow(a2, r2))
  {
    ExactInTurn(th, s, Ok(s1), Unify(s1, r1, r2), a1, r1, a2, r2);
  }

  lemma {:induction false} ArgumentsExact(th: Theta, s: Subst, a1: Ty, r1: Ty, a2: Ty, r2: Ty)
    requires Acyclic(s) && Vars(a1) !! s.Keys && AnyFreeSubst(s) && AnyFree(a1) && AnyFree(a2)
    ensures Exact(th, s, Unify(s, a1, a2), a1, a2)
    ensures Unify(s, a1, a2).Ok? ==> AnyFreeSubst(Unify(s, a1, a2).s)
    decreases |Free(s, Vars(a1) + Vars(a2) + (Vars(r1) + Vars(r2)))|, Size(a1) + Size(r1), 0
  {
    ReflGrown(s);
    PartsLess(s, s, Vars(a1) + Vars(a2) + (Vars(r1) + Vars(r2)), {}, Vars(a1) + Vars(a2));
    ApplyUnbound(s, a1);
    UnifyExact(th, s, a1, a2);
  }

  lemma {:induction false} ReturnsExact(th: Theta, s: Subst, s1: Subst, a1: Ty, r1: Ty, a2: Ty, r2: Ty)
    requires Acyclic(s) && Vars(r1) !! s.Keys && Grown(s, s1, Vars(a1) + Vars(a2))
    requires AnyFreeSubst(s1) && AnyFree(r1) && AnyFree(r2)
    ensures Exact(th, s1, Unify(s1, r1, r2), r1, r2)
    ensures Unify(s1, r1, r2).Ok? ==> AnyFreeSubst(Unify(s1, r1, r2).s)
    decreases |Free(s, Vars(a1) + Vars(a2) + (Vars(r1) + Vars(r2)))|, Size(a1) + Size(r1), 0
  {
    RestOfArrow(s, s1, Vars(a1) + Vars(a2) + (Vars(r1) + Vars(r2)), a1, r1, a2, r2);
    UnifyExact(th, s1, r1, r2);
  }

  lemma SubAllSplits(th: Theta, xs: seq<Ty>, ys: seq<Ty>)
    requires xs != [] && |xs| == |ys|
    ensures SubAll(th, xs) == SubAll(th, ys) <==>
        Unifies(th, xs[0], ys[0]) && SubAll(th, xs[1..]) == SubAll(th, ys[1..])
  {
    assert SubAll(th, xs)[0] == Sub(th, xs[0]) && SubAll(th, xs)[1..] == SubAll(th, xs[1..]);
    assert SubAll(th, ys)[0] == Sub(th, ys[0]) && SubAll(th, ys)[1..] == SubAll(th, ys[1..]);
  }

  lemma {:induction false} UnifyAllExact(th: Theta, s: Subst, xs: seq<Ty>, ys: seq<Ty>)
    requires Acyclic(s) && AnyFreeSubst(s) && |xs| == |ys| && AnyFreeAll(xs) && AnyFreeAll(ys)
    ensures ExactAll(th, s, UnifyAll(s, xs, ys), xs, ys)
    ensures UnifyAll(s, xs, ys).Ok? ==> AnyFreeSubst(UnifyAll(s, xs, ys).s)
    decreases |Free(s, VarsAll(xs) + VarsAll(ys))|, SizeAll(ApplyAll(s, xs)), 3
  {
    if xs != [] {
      var vs := VarsAll(xs) + VarsAll(ys);
      ReflGrown(s);
      PartsLess(s, s, vs, {}, Vars(xs[0]) + Vars(ys[0]));
      ApplyAllSize(s, xs);
      UnifyExact(th, s, xs[0], ys[0]);
      var first := Unify(s, xs[0], ys[0]);
      if first.Ok? {
        PartsLess(s, first.s, vs, Vars(xs[0]) + Vars(ys[0]), VarsAll(xs[1..]) + VarsAll(ys[1..]));
        UnifyAllExact(th, first.s, xs[1..], ys[1..]);
      }
      SubAllSplits(th, xs, ys);
    }
  }

  // ----- the main results -----

  /** A result equates both types, binds what was bound before the same way, and stays acyclic. */
  lemma UnifyEquates(s: Subst, a: Ty, b: Ty)
    requires Acyclic(s) && AnyFreeSubst(s) && AnyFree(a) && AnyFree(b) && Unify(s, a, b).Ok?
    ensures var s' := Unify(s, a, b).s;
      && Acyclic(s') && Apply(s', a) == Apply(s', b)
      && s.Keys <= s'.Keys && forall v :: v in s ==> s'[v] == s[v]
  {
    var s' := Unify(s, a, b).s;
    UnifyExact(Chase(s'), s, a, b);
    ChaseSatisfies(s');
    ChaseIsApply(s', a);
    ChaseIsApply(s', b);
  }

  /** Some choice of types solves the substitution and unifies the two types. */
  ghost predicate Unifiable(s: Subst, a: Ty, b: Ty) {
    exists th :: Solves(th, s, a, b)
  }

  ghost predicate Solves(th: Theta, s: Subst, a: Ty, b: Ty) {
    Satisfies(th, s) && Unifies(th, a, b)
  }

  /** Unification succeeds if and only if a unifier exists. */
  lemma UnifySucceedsIff(s: Subst, a: Ty, b: Ty)
    requires Acyclic(s) && AnyFreeSubst(s) && AnyFree(a) && AnyFree(b)
    ensures Unify(s, a, b).Ok? <==> Unifiable(s, a, b)
  {
    var r := Unify(s, a, b);
    if r.Ok? {
      var th := Chase(r.s);
      UnifyExact(th, s, a, b);
      ChaseSatisfies(r.s);
      assert Solves(th, s, a, b);
    }
    if th :| Solves(th, s, a, b) {
      UnifyExact(th, s, a, b);
    }
  }

  /** Unifying in a context: the composition with the old substitution is the result itself. */
  function UnifyInto(subst: Subst, a: Ty, b: Ty): Result
    requires Acyclic(subst)
  {
    match Unify(subst, a, b)
    case Err => Err
    case Ok(s) => Ok(Compose(s, subst))
  }

  lemma ComposeIsResult(subst: Subst, a: Ty, b: Ty)
    requires Acyclic(subst)
    ensures UnifyInto(subst, a, b) == Unify(subst, a, b)
  {
    var r := Unify(subst, a, b);
    if r.Ok? {
      assert r.s.Keys + subst.Keys == r.s.Keys;
      assert Compose(r.s, subst) == r.s;
    }
  }

  /** With wildcards unification equates less than it claims: `Any` unifies with two types that
      do not unify with each other, and nothing is bound. */
  lemma AnyIsNotTransitive()
    ensures Acyclic(map[])
    ensures var t, u := Constant("int64"), Constant("string");
      && Unify(map[], t, Any) == Ok(map[]) && Unify(map[], Any, u) == Ok(map[]) && Unify(map[], t, u) == Err
      && !Unifies(Chase(map[]), t, Any)
  {
    forall p ensures !IsCycle(VarGraph(map[]), p) {
      assert |p| > 1 ==> !Edge(VarGraph(map[]), p[1 - 1], p[1]);
    }
  }
}
