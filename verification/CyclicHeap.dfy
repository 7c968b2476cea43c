/** From types to the heap: for which programs registering the objects of mutable-cyclic types is enough
    for the reclaim of lost cycles. */
module CyclicHeap {
  import opened Graphs
  import opened Heap
  import opened CyclicAnalysis
  import opened TypeReferences

  // ----- what the objects of a program look like -----

  /** Kinds of heap objects: record bodies, constructors with arguments, arrays, tuples and closures.
      Only the first two are named in the classification. */
  datatype Shape = Rec(key: string) | Con(key: string, tag: nat) | Arr(elem: Ty) | Tup(elems: seq<Ty>) | Clo

  /** Aliases expanded one after the other, from `t`. */
  ghost predicate AliasChain(defs: Decls, p: seq<Ty>, t: Ty) {
    |p| > 0 && p[0] == t && forall i {:trigger AliasStep(defs, p, i)} :: 0 < i < |p| ==> AliasStep(defs, p, i)
  }

  ghost predicate AliasStep(defs: Decls, p: seq<Ty>, i: nat) {
    0 < i < |p| && p[i - 1].Defined? && IsAlias(defs, p[i - 1].key) && p[i] == defs[p[i - 1].key].inner
  }

  ghost predicate HasShape(defs: Decls, s: Shape, t: Ty) {
    match t
    case Arrow => s == Clo
    case Tuple(ts) => s == Tup(ts)
    case Array(elem) => s == Arr(elem)
    case Defined(key) =>
      key in defs
      && (match defs[key]
          case Record(_) => s == Rec(key)
          case Variant(ctors) => s.Con? && s.key == key && exists k :: k in ctors && k.tag == s.tag
          case _ => false)
    case _ => false
  }

  /** A value of type `t` can be an object of this shape. */
  ghost predicate Inhabits(defs: Decls, s: Shape, t: Ty) {
    exists p :: AliasChain(defs, p, t) && HasShape(defs, s, p[|p| - 1])
  }

  /** Field `i` of such an object has type `t` and can be assigned or not. Elements of arrays can;
      what a closure has captured cannot, and can be anything. */
  ghost predicate SlotHas(defs: Decls, s: Shape, i: nat, t: Ty, mut: bool) {
    match s
    case Rec(key) =>
      key in defs && defs[key].Record? && i < |defs[key].fields| && defs[key].fields[i] == Field(t, mut)
    case Con(key, tag) =>
      key in defs && defs[key].Variant?
      && exists k :: k in defs[key].ctors && k.tag == tag && i < |CtorFields(k.arg)|
                     && CtorFields(k.arg)[i] == Field(t, mut)
    case Arr(elem) => t == elem && mut
    case Tup(ts) => i < |ts| && t == ts[i] && !mut
    case Clo => !mut
  }

  ghost predicate SlotLeads(defs: Decls, s: Shape, i: nat, to: Shape, mut: bool) {
    exists t :: SlotHas(defs, s, i, t, mut) && Inhabits(defs, to, t)
  }

  ghost predicate ShapeEdge(defs: Decls, s: Shape, to: Shape, mut: bool) {
    exists i :: SlotLeads(defs, s, i, to, mut)
  }

  /** Each object's shape and its time of allocation. */
  datatype Typing = Typing(shape: map<Addr, Shape>, born: map<Addr, nat>)

  /** A field that cannot be assigned was filled when its object was built, with something older. */
  ghost predicate RefFits(defs: Decls, used: set<Shape>, ty: Typing, p: Addr, i: nat, a: Addr) {
    && {p, a} <= ty.shape.Keys && {p, a} <= ty.born.Keys && {ty.shape[p], ty.shape[a]} <= used
    && (SlotLeads(defs, ty.shape[p], i, ty.shape[a], true)
        || (SlotLeads(defs, ty.shape[p], i, ty.shape[a], false) && ty.born[a] < ty.born[p]))
  }

  ghost predicate WellTyped(defs: Decls, used: set<Shape>, h: Store, ty: Typing) {
    forall p, i, a {:trigger HoldsEdge(h, p, i, a)} ::
      HoldsEdge(h, p, i, a) ==> a in h && RefFits(defs, used, ty, p, i, a)
  }

  /** Allocation registers exactly the records and constructors of mutable-cyclic nodes; the headers of
      arrays, tuples and closures never say so. */
  ghost predicate CandidateShape(props: map<Node, Prop>, s: Shape) {
    match s
    case Rec(key) => RecordNode(key) in props && props[RecordNode(key)] == MutableCyclic
    case Con(key, tag) => CtorNode(key, tag) in props && props[CtorNode(key, tag)] == MutableCyclic
    case _ => false
  }

  ghost predicate Registered(h: Store, props: map<Node, Prop>, ty: Typing) {
    forall a {:trigger h[a].candidate} :: a in h && a in ty.shape ==>
      (h[a].candidate <==> CandidateShape(props, ty.shape[a]))
  }

  // ----- which programs can lose a cycle for good -----

  ghost predicate HasCandidate(h: Store, p: seq<Addr>) {
    exists i :: 0 <= i < |p| && p[i] in h && h[p[i]].candidate
  }

  /** A cycle of own references in a well-typed heap that passes through no candidate. */
  ghost predicate Uncovered(defs: Decls, used: set<Shape>, props: map<Node, Prop>, h: Store, ty: Typing, p: seq<Addr>) {
    WellTyped(defs, used, h, ty) && Registered(h, props, ty) && IsCycle(OwnGraph(h), p) && !HasCandidate(h, p)
  }

  ghost predicate ShapeStep(defs: Decls, w: seq<Shape>, i: nat) {
    0 < i < |w| && (ShapeEdge(defs, w[i - 1], w[i], true) || ShapeEdge(defs, w[i - 1], w[i], false))
  }

  /** A closed walk through the shapes in use that meets no registered one and goes through
      a field that can be assigned. */
  ghost predicate BlindWalk(defs: Decls, used: set<Shape>, props: map<Node, Prop>, w: seq<Shape>, k: nat) {
    && |w| > 1 && w[0] == w[|w| - 1]
    && (forall i {:trigger w[i]} :: 0 <= i < |w| ==> w[i] in used && !CandidateShape(props, w[i]))
    && (forall i {:trigger ShapeStep(defs, w, i)} :: 0 < i < |w| ==> ShapeStep(defs, w, i))
    && 0 < k < |w| && ShapeEdge(defs, w[k - 1], w[k], true)
  }

  ghost predicate GoesOlder(ty: Typing, p: seq<Addr>, i: nat) {
    0 < i < |p| && p[i - 1] in ty.born && p[i] in ty.born && ty.born[p[i]] < ty.born[p[i - 1]]
  }

  lemma {:induction false} OlderAndOlder(ty: Typing, p: seq<Addr>, n: nat)
    requires 0 < n < |p| && forall i {:trigger GoesOlder(ty, p, i)} :: 0 < i <= n ==> GoesOlder(ty, p, i)
    ensures p[0] in ty.born && p[n] in ty.born && ty.born[p[n]] < ty.born[p[0]]
  {
    assert GoesOlder(ty, p, n);
    if n > 1 {
      OlderAndOlder(ty, p, n - 1);
    }
  }

  /** Some reference of a cycle does not lead to an older object. */
  lemma CycleGoesBack(ty: Typing, p: seq<Addr>) returns (i: nat)
    requires |p| > 1 && p[0] == p[|p| - 1]
    ensures 0 < i < |p| && !GoesOlder(ty, p, i)
  {
    if forall k {:trigger GoesOlder(ty, p, k)} :: 0 < k < |p| ==> GoesOlder(ty, p, k) {
      OlderAndOlder(ty, p, |p| - 1);
      assert false;
    }
    i :| 0 < i < |p| && !GoesOlder(ty, p, i);
  }

  lemma StepFits(defs: Decls, used: set<Shape>, h: Store, ty: Typing, p: seq<Addr>, i: nat) returns (k: nat)
    requires WellTyped(defs, used, h, ty) && IsWalk(OwnGraph(h), p) && 0 < i < |p|
    ensures RefFits(defs, used, ty, p[i - 1], k, p[i]) && p[i - 1] in h && p[i] in h
  {
    assert Edge(OwnGraph(h), p[i - 1], p[i]);
    k := OwnEdgeField(h, p[i - 1], p[i]);
  }

  lemma CycleIsTyped(defs: Decls, used: set<Shape>, h: Store, ty: Typing, p: seq<Addr>, i: nat)
    requires WellTyped(defs, used, h, ty) && IsCycle(OwnGraph(h), p) && i < |p|
    ensures p[i] in h && p[i] in ty.shape && ty.shape[p[i]] in used
  {
    if i > 0 {
      var _ := StepFits(defs, used, h, ty, p, i);
    } else {
      var _ := StepFits(defs, used, h, ty, p, 1);
    }
  }

  /** The shapes along a heap cycle. */
  ghost function ShapesOf(ty: Typing, p: seq<Addr>): seq<Shape>
    requires forall a :: a in p ==> a in ty.shape
  {
    seq(|p|, i requires 0 <= i < |p| => ty.shape[p[i]])
  }

  lemma UncoveredGivesWalk(defs: Decls, used: set<Shape>, props: map<Node, Prop>, h: Store, ty: Typing, p: seq<Addr>)
    returns (w: seq<Shape>, k: nat)
    requires Uncovered(defs, used, props, h, ty, p)
    ensures BlindWalk(defs, used, props, w, k) && |w| == |p| && !GoesOlder(ty, p, k)
    ensures forall i :: 0 <= i < |p| ==> p[i] in ty.shape && w[i] == ty.shape[p[i]]
  {
    forall i | 0 <= i < |p| ensures p[i] in h && p[i] in ty.shape && ty.shape[p[i]] in used {
      CycleIsTyped(defs, used, h, ty, p, i);
    }
    w := ShapesOf(ty, p);
    k := CycleGoesBack(ty, p);
    forall i | 0 < i < |w| ensures ShapeStep(defs, w, i) && (i == k ==> ShapeEdge(defs, w[i - 1], w[i], true)) {
      var j := StepFits(defs, used, h, ty, p, i);
      if SlotLeads(defs, w[i - 1], j, w[i], true) {
        assert ShapeEdge(defs, w[i - 1], w[i], true);
      } else {
        assert ShapeEdge(defs, w[i - 1], w[i], false);
      }
    }
    forall i | 0 <= i < |w| ensures !CandidateShape(props, w[i]) {
      assert !h[p[i]].candidate;
    }
  }

  // ----- a heap for every blind walk -----

  ghost predicate PicksSlot(defs: Decls, s: Shape, to: Shape, must: bool, i: nat) {
    SlotLeads(defs, s, i, to, true) || (!must && SlotLeads(defs, s, i, to, false))
  }

  lemma PickSlot(defs: Decls, s: Shape, to: Shape, must: bool) returns (i: nat)
    requires ShapeEdge(defs, s, to, true) || (!must && ShapeEdge(defs, s, to, false))
    ensures PicksSlot(defs, s, to, must, i)
  {
    if ShapeEdge(defs, s, to, true) {
      i :| SlotLeads(defs, s, i, to, true);
    } else {
      i :| SlotLeads(defs, s, i, to, false);
    }
  }

  /** For each of the first `n` steps of the walk a field that leads on. */
  lemma {:induction false} PickSlots(defs: Decls, used: set<Shape>, props: map<Node, Prop>, w: seq<Shape>, k: nat,
          n: nat) returns (s: seq<nat>)
    requires BlindWalk(defs, used, props, w, k) && n < |w|
    ensures |s| == n && forall j :: 0 <= j < n ==> PicksSlot(defs, w[j], w[j + 1], j + 1 == k, s[j])
  {
    if n == 0 {
      s := [];
    } else {
      var r := PickSlots(defs, used, props, w, k, n - 1);
      assert ShapeStep(defs, w, n);
      var i := PickSlot(defs, w[n - 1], w[n], n == k);
      s := r + [i];
    }
  }

  const RING_HEADER := Header(MonoRef, true, false, true, true)

  /** An object whose only reference is in field `i`. */
  function RingObject(i: nat, to: Addr): Obj {
    Obj(RING_HEADER, false, 1, false, 0, false, false, false,
        seq(i + 1, j requires 0 <= j <= i => if j == i then Own(to) else Null))
  }

  function Around(n: nat, j: nat): nat {
    if j + 1 == n then 0 else j + 1
  }

  /** Objects 0 to n-1, each owning the next in the field that is picked for the step. */
  ghost function Ring(slots: seq<nat>): Store {
    map j: nat | 0 <= j < |slots| :: RingObject(slots[j], Around(|slots|, j))
  }

  lemma RingEdges(slots: seq<nat>, p: Addr, i: nat, a: Addr)
    ensures HoldsEdge(Ring(slots), p, i, a) <==> p < |slots| && i == slots[p] && a == Around(|slots|, p)
  {
  }

  /** Along the walk ages go down, except at step `k`. */
  function RingAge(w: seq<Shape>, k: nat, j: nat): nat
    requires 0 < k < |w| && j < |w| - 1
  {
    if j < k then k - 1 - j else |w| - 2 - j + k
  }

  function RingPath(n: nat): seq<Addr> {
    seq(n + 1, j => if j == n then 0 else j)
  }

  lemma RingCycle(slots: seq<nat>)
    requires slots != []
    ensures IsCycle(OwnGraph(Ring(slots)), RingPath(|slots|)) && !HasCandidate(Ring(slots), RingPath(|slots|))
  {
    var h, p := Ring(slots), RingPath(|slots|);
    forall i | 0 < i < |p| ensures Edge(OwnGraph(h), p[i - 1], p[i]) {
      RingEdges(slots, i - 1, slots[i - 1], p[i]);
      OwnEdge(h, i - 1, slots[i - 1], p[i]);
    }
  }

  lemma RingExact(slots: seq<nat>)
    ensures Exact(Ring(slots), map[])
  {
    var n, h := |slots|, Ring(slots);
    forall a | a in h ensures ExactAt(h, map[], a) {
      var b: nat := if a == 0 then n - 1 else a - 1;
      forall e: (Addr, nat) ensures e in EdgesTo(h, {}, a) <==> e == (b, slots[b]) {
        assert e == (e.0, e.1);
        RingEdges(slots, e.0, e.1, a);
      }
      assert EdgesTo(h, {}, a) == {(b, slots[b])};
    }
  }

  function RingTyping(w: seq<Shape>, k: nat): Typing
    requires 0 < k < |w|
  {
    Typing(map j: nat | 0 <= j < |w| - 1 :: w[j], map j: nat | 0 <= j < |w| - 1 :: RingAge(w, k, j))
  }

  lemma RingAges(w: seq<Shape>, k: nat, q: nat)
    requires 0 < k < |w| && q < |w| - 1
    ensures var a := Around(|w| - 1, q);
      a < |w| - 1 && (q + 1 == k || RingAge(w, k, a) < RingAge(w, k, q))
  {
  }

  lemma RingFits(defs: Decls, used: set<Shape>, props: map<Node, Prop>, w: seq<Shape>, k: nat, i: nat, q: nat)
    requires BlindWalk(defs, used, props, w, k) && q < |w| - 1
    requires PicksSlot(defs, w[q], w[q + 1], q + 1 == k, i)
    ensures RefFits(defs, used, RingTyping(w, k), q, i, Around(|w| - 1, q))
  {
    var a, ty := Around(|w| - 1, q), RingTyping(w, k);
    RingAges(w, k, q);
    assert w[q + 1] == w[a];
    assert ty.shape[q] == w[q] && ty.shape[a] == w[a] && w[q] in used && w[a] in used;
    assert ty.born[q] == RingAge(w, k, q) && ty.born[a] == RingAge(w, k, a);
  }

  lemma RingTyped(defs: Decls, used: set<Shape>, props: map<Node, Prop>, w: seq<Shape>, k: nat, slots: seq<nat>)
    requires BlindWalk(defs, used, props, w, k) && |slots| == |w| - 1
    requires forall j :: 0 <= j < |slots| ==> PicksSlot(defs, w[j], w[j + 1], j + 1 == k, slots[j])
    ensures WellTyped(defs, used, Ring(slots), RingTyping(w, k))
  {
    var h := Ring(slots);
    forall q: Addr, i: nat, a: Addr | HoldsEdge(h, q, i, a)
      ensures a in h && RefFits(defs, used, RingTyping(w, k), q, i, a)
    {
      RingEdges(slots, q, i, a);
      RingFits(defs, used, props, w, k, slots[q], q);
    }
  }

  /** A cycle that nobody owns and no candidate lies on, in a well-typed heap with exact counts. */
  lemma WalkGivesHeap(defs: Decls, used: set<Shape>, props: map<Node, Prop>, w: seq<Shape>, k: nat)
    returns (h: Store, ty: Typing, p: seq<Addr>)
    requires BlindWalk(defs, used, props, w, k)
    ensures Uncovered(defs, used, props, h, ty, p) && Exact(h, map[])
  {
    var slots := PickSlots(defs, used, props, w, k, |w| - 1);
    h, ty, p := Ring(slots), RingTyping(w, k), RingPath(|slots|);
    RingCycle(slots);
    RingExact(slots);
    RingTyped(defs, used, props, w, k, slots);
  }

  /** Every cycle of own references in every well-typed heap of a program holds a candidate if and only if no
      closed walk through the program's shapes uses a field that can be assigned and meets no registered shape. */
  lemma CandidatesCoverIff(defs: Decls, used: set<Shape>, props: map<Node, Prop>)
    ensures (forall h, ty, p :: !Uncovered(defs, used, props, h, ty, p))
       <==> (forall w, k :: !BlindWalk(defs, used, props, w, k))
  {
    if h, ty, p :| Uncovered(defs, used, props, h, ty, p) {
      var w, k := UncoveredGivesWalk(defs, used, props, h, ty, p);
    }
    if w, k :| BlindWalk(defs, used, props, w, k) {
      var h, ty, p := WalkGivesHeap(defs, used, props, w, k);
    }
  }
}
