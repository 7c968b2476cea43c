/** Types of the inference, substitutions that bind variables in chains, and their application. */
module Types {
  import opened Graphs

  datatype Ty =
    | Var(v: int)
    | Any
    | Constant(name: string)
    | Arrow(arg: Ty, ret: Ty)
    | Tuple(elems: seq<Ty>)
    | Array(elem: Ty)
    | Defined(name: string, args: seq<Ty>)

  type Subst = map<int, Ty>

  function Vars(t: Ty): set<int>
    decreases t
  {
    match t
    case Var(v) => {v}
    case Any => {}
    case Constant(_) => {}
    case Arrow(a, r) => Vars(a) + Vars(r)
    case Tuple(es) => VarsAll(es)
    case Array(e) => Vars(e)
    case Defined(_, args) => VarsAll(args)
  }

  function VarsAll(ts: seq<Ty>): set<int>
    decreases ts
  {
    if ts == [] then {} else Vars(ts[0]) + VarsAll(ts[1..])
  }

  function Size(t: Ty): (n: nat)
    ensures n > 0
    decreases t
  {
    match t
    case Var(_) => 1
    case Any => 1
    case Constant(_) => 1
    case Arrow(a, r) => 1 + Size(a) + Size(r)
    case Tuple(es) => 1 + SizeAll(es)
    case Array(e) => 1 + Size(e)
    case Defined(_, args) => 1 + SizeAll(args)
  }

  function SizeAll(ts: seq<Ty>): nat
    decreases ts
  {
    if ts == [] then 0 else Size(ts[0]) + SizeAll(ts[1..])
  }

  // ----- chains of bindings -----

  ghost function VarGraph(s: Subst): Graph<int> {
    map v | v in s :: Vars(s[v])
  }

  /** No variable is bound, however indirectly, to a type that mentions it. */
  ghost predicate Acyclic(s: Subst) {
    forall p :: !IsCycle(VarGraph(s), p)
  }

  /** The bound variables that come up when the bindings of `vs` are followed. */
  ghost function Followed(s: Subst, vs: set<int>): set<int> {
    set w | w in s.Keys && FromRoots(VarGraph(s), vs, w)
  }

  lemma FollowedLess(s: Subst, v: int)
    requires Acyclic(s) && v in s
    ensures |Followed(s, Vars(s[v]))| < |Followed(s, {v})|
  {
    var g, vs := VarGraph(s), Vars(s[v]);
    ReachesRefl(g, v);
    forall w | w in Followed(s, Vars(s[v])) ensures w in Followed(s, {v}) {
      var u := FromSome(g, vs, w);
      assert Edge(g, v, u);
      ReachesEdge(g, v, u);
      ReachesTrans(g, v, u, w);
    }
    forall u | u in Vars(s[v]) ensures !Reaches(g, u, v) {
      if Reaches(g, u, v) {
        assert Edge(g, v, u);
        var p := EdgeOnCycle(g, v, u);
        assert false;
      }
    }
    assert v in Followed(s, {v}) && v !in Followed(s, Vars(s[v]));
    ProperSubsetSmaller(Followed(s, Vars(s[v])), Followed(s, {v}));
  }

  lemma FollowedMonotone(s: Subst, vs: set<int>, ws: set<int>)
    requires vs <= ws
    ensures |Followed(s, vs)| <= |Followed(s, ws)|
  {
    forall w | w in Followed(s, vs) ensures w in Followed(s, ws) {
      assert FromRoots(VarGraph(s), vs, w);
    }
    if Followed(s, vs) != Followed(s, ws) {
      ProperSubsetSmaller(Followed(s, vs), Followed(s, ws));
    }
  }

  /** Bindings are chased to the end. */
  function Apply(s: Subst, t: Ty): Ty
    requires Acyclic(s)
    decreases |Followed(s, Vars(t))|, t
  {
    match t
    case Var(v) =>
      if v in s then
        FollowedLess(s, v);
        Apply(s, s[v])
      else t
    case Any => t
    case Constant(_) => t
    case Arrow(a, r) =>
      FollowedMonotone(s, Vars(a), Vars(t));
      FollowedMonotone(s, Vars(r), Vars(t));
      Arrow(Apply(s, a), Apply(s, r))
    case Tuple(es) => Tuple(ApplyAll(s, es))
    case Array(e) => Array(Apply(s, e))
    case Defined(name, args) => Defined(name, ApplyAll(s, args))
  }

  function ApplyAll(s: Subst, ts: seq<Ty>): (r: seq<Ty>)
    requires Acyclic(s)
    ensures |r| == |ts|
    decreases |Followed(s, VarsAll(ts))|, ts
  {
    if ts == [] then []
    else
      FollowedMonotone(s, Vars(ts[0]), VarsAll(ts));
      FollowedMonotone(s, VarsAll(ts[1..]), VarsAll(ts));
      [Apply(s, ts[0])] + ApplyAll(s, ts[1..])
  }

  /** The first substitution's bindings win. */
  function Compose(s1: Subst, s2: Subst): Subst
    requires Acyclic(s1)
  {
    map v | v in s1.Keys + s2.Keys :: if v in s1 then s1[v] else Apply(s1, s2[v])
  }

  // ----- what a substitution says -----

  /** A choice of a type for every variable. */
  type Theta = int -> Ty

  function Sub(th: Theta, t: Ty): Ty
    decreases t
  {
    match t
    case Var(v) => th(v)
    case Any => t
    case Constant(_) => t
    case Arrow(a, r) => Arrow(Sub(th, a), Sub(th, r))
    case Tuple(es) => Tuple(SubAll(th, es))
    case Array(e) => Array(Sub(th, e))
    case Defined(name, args) => Defined(name, SubAll(th, args))
  }

  function SubAll(th: Theta, ts: seq<Ty>): (r: seq<Ty>)
    ensures |r| == |ts|
    decreases ts
  {
    if ts == [] then [] else [Sub(th, ts[0])] + SubAll(th, ts[1..])
  }

  ghost predicate Satisfies(th: Theta, s: Subst) {
    forall v :: v in s ==> th(v) == Sub(th, s[v])
  }

  ghost predicate Unifies(th: Theta, a: Ty, b: Ty) {
    Sub(th, a) == Sub(th, b)
  }

  lemma SubAllCons(th: Theta, t: Ty, ts: seq<Ty>)
    ensures SubAll(th, [t] + ts) == [Sub(th, t)] + SubAll(th, ts)
  {
    assert ([t] + ts)[1..] == ts;
  }

  /** Applying a substitution does not change what a type means under its solutions. */
  lemma {:induction false} SubApply(th: Theta, s: Subst, t: Ty)
    requires Acyclic(s) && Satisfies(th, s)
    ensures Sub(th, Apply(s, t)) == Sub(th, t)
    decreases |Followed(s, Vars(t))|, t
  {
    match t
    case Var(v) =>
      if v in s {
        FollowedLess(s, v);
        SubApply(th, s, s[v]);
        assert th(v) == Sub(th, s[v]) && Apply(s, t) == Apply(s, s[v]);
      }
    case Any =>
    case Constant(_) =>
    case Arrow(a, r) =>
      FollowedMonotone(s, Vars(a), Vars(t));
      FollowedMonotone(s, Vars(r), Vars(t));
      SubApply(th, s, a);
      SubApply(th, s, r);
    case Tuple(es) => SubApplyAll(th, s, es);
    case Array(e) => SubApply(th, s, e);
    case Defined(_, args) => SubApplyAll(th, s, args);
  }

  lemma {:induction false} SubApplyAll(th: Theta, s: Subst, ts: seq<Ty>)
    requires Acyclic(s) && Satisfies(th, s)
    ensures SubAll(th, ApplyAll(s, ts)) == SubAll(th, ts)
    decreases |Followed(s, VarsAll(ts))|, ts
  {
    if ts != [] {
      FollowedMonotone(s, Vars(ts[0]), VarsAll(ts));
      FollowedMonotone(s, VarsAll(ts[1..]), VarsAll(ts));
      SubApply(th, s, ts[0]);
      SubApplyAll(th, s, ts[1..]);
      SubAllCons(th, Apply(s, ts[0]), ApplyAll(s, ts[1..]));
    }
  }

  ghost function AllVars(s: Subst): set<int> {
    set v, w | v in s && w in Vars(s[v]) :: w
  }

  /** An applied type mentions no bound variable, and none that was not there. */
  lemma {:induction false} ApplyVars(s: Subst, t: Ty)
    requires Acyclic(s)
    ensures Vars(Apply(s, t)) !! s.Keys && Vars(Apply(s, t)) <= Vars(t) + AllVars(s)
    decreases |Followed(s, Vars(t))|, t
  {
    match t
    case Var(v) =>
      if v in s {
        FollowedLess(s, v);
        ApplyVars(s, s[v]);
        forall w | w in Vars(s[v]) ensures w in AllVars(s) {
        }
      }
    case Any =>
    case Constant(_) =>
    case Arrow(a, r) =>
      FollowedMonotone(s, Vars(a), Vars(t));
      FollowedMonotone(s, Vars(r), Vars(t));
      ApplyVars(s, a);
      ApplyVars(s, r);
    case Tuple(es) => ApplyVarsAll(s, es);
    case Array(e) => ApplyVars(s, e);
    case Defined(_, args) => ApplyVarsAll(s, args);
  }

  lemma {:induction false} ApplyVarsAll(s: Subst, ts: seq<Ty>)
    requires Acyclic(s)
    ensures VarsAll(ApplyAll(s, ts)) !! s.Keys && VarsAll(ApplyAll(s, ts)) <= VarsAll(ts) + AllVars(s)
    decreases |Followed(s, VarsAll(ts))|, ts
  {
    if ts != [] {
      FollowedMonotone(s, Vars(ts[0]), VarsAll(ts));
      FollowedMonotone(s, VarsAll(ts[1..]), VarsAll(ts));
      ApplyVars(s, ts[0]);
      ApplyVarsAll(s, ts[1..]);
      assert ApplyAll(s, ts)[1..] == ApplyAll(s, ts[1..]);
    }
  }

  /** A type without bound variables stays as it is. */
  lemma {:induction false} ApplyUnbound(s: Subst, t: Ty)
    requires Acyclic(s) && Vars(t) !! s.Keys
    ensures Apply(s, t) == t
    decreases t
  {
    match t
    case Var(_) =>
    case Any =>
    case Constant(_) =>
    case Arrow(a, r) =>
      ApplyUnbound(s, a);
      ApplyUnbound(s, r);
    case Tuple(es) => ApplyUnboundAll(s, es);
    case Array(e) => ApplyUnbound(s, e);
    case Defined(_, args) => ApplyUnboundAll(s, args);
  }

  lemma {:induction false} ApplyUnboundAll(s: Subst, ts: seq<Ty>)
    requires Acyclic(s) && VarsAll(ts) !! s.Keys
    ensures ApplyAll(s, ts) == ts
    decreases ts
  {
    if ts != [] {
      ApplyUnbound(s, ts[0]);
      ApplyUnboundAll(s, ts[1..]);
    }
  }

  /** Chasing bindings is itself a solution. */
  ghost function Chase(s: Subst): Theta
    requires Acyclic(s)
  {
    v => Apply(s, Var(v))
  }

  lemma {:induction false} ChaseIsApply(s: Subst, t: Ty)
    requires Acyclic(s)
    ensures Sub(Chase(s), t) == Apply(s, t)
    decreases t
  {
    match t
    case Var(_) =>
    case Any =>
    case Constant(_) =>
    case Arrow(a, r) =>
      ChaseIsApply(s, a);
      ChaseIsApply(s, r);
    case Tuple(es) => ChaseIsApplyAll(s, es);
    case Array(e) => ChaseIsApply(s, e);
    case Defined(_, args) => ChaseIsApplyAll(s, args);
  }

  lemma {:induction false} ChaseIsApplyAll(s: Subst, ts: seq<Ty>)
    requires Acyclic(s)
    ensures SubAll(Chase(s), ts) == ApplyAll(s, ts)
    decreases ts
  {
    if ts != [] {
      ChaseIsApply(s, ts[0]);
      ChaseIsApplyAll(s, ts[1..]);
    }
  }

  lemma ChaseSatisfies(s: Subst)
    requires Acyclic(s)
    ensures Satisfies(Chase(s), s)
  {
    forall v | v in s ensures Chase(s)(v) == Sub(Chase(s), s[v]) {
      ChaseIsApply(s, s[v]);
    }
  }

  /** A new binding of an unbound variable to unbound variables closes no cycle. */
  lemma BindAcyclic(s: Subst, v: int, t: Ty)
    requires Acyclic(s) && v !in s && v !in Vars(t) && Vars(t) !! s.Keys
    ensures Acyclic(s[v := t])
  {
    var g, g' := VarGraph(s), VarGraph(s[v := t]);
    forall p ensures !IsCycle(g', p) {
      if IsCycle(g', p) {
        forall i | 0 < i < |p| ensures Edge(g, p[i - 1], p[i]) {
          assert Edge(g', p[i - 1], p[i]);
          assert i + 1 < |p| ==> Edge(g', p[(i + 1) - 1], p[i + 1]);
          assert Edge(g', p[1 - 1], p[1]);
        }
        assert IsCycle(g, p);
      }
    }
  }
}
