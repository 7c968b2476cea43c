/** The runtime's heap of counted objects, the runtime state, and exact counting
    of the own references that each object holds. */
module Heap {
  import opened Graphs

  type Addr = nat

  /** How the words of an object are laid out; only reference fields are walked. */
  datatype Layout = MonoImm | MonoRef | MixedBitmap(refs: seq<bool>) | MixedOrder(pointers: nat)

  datatype Header = Header(layout: Layout, cyclic: bool, cyclicMutable: bool, traceable: bool, hasPointers: bool)

  datatype Slot = Null | Own(target: Addr) | Borrow(target: Addr) | Word(value: int)

  datatype Obj = Obj(
    header: Header,
    mark: bool,
    rc: nat,
    candidate: bool,
    candidateIndex: nat,
    tracing: bool,
    waitingRemove: bool,
    childrenReleased: bool,
    slots: seq<Slot>)

  type Store = map<Addr, Obj>

  predicate IsRefField(l: Layout, i: nat) {
    match l
    case MonoImm => false
    case MonoRef => true
    case MixedBitmap(refs) => i < |refs| && refs[i]
    case MixedOrder(pointers) => i < pointers
  }

  /** Field `i` is a reference field holding an owning pointer. */
  predicate OwnsAt(o: Obj, i: nat) {
    i < |o.slots| && IsRefField(o.header.layout, i) && o.slots[i].Own?
  }

  /** The object's own references still count: it has not been dismantled. */
  predicate Holding(o: Obj) {
    !o.childrenReleased && !o.waitingRemove
  }

  // ----- the runtime state -----

  datatype TracingState = TracingIdle | Tracing | MutationPrepare | Reclaiming

  datatype ReleasingState = ReleasingIdle | Releasing

  datatype Rt = Rt(
    heap: Store,
    bit: bool,
    work: seq<Addr>,
    mutations: seq<Addr>,
    releasing: seq<Addr>,
    waiting: seq<Addr>,
    candidates: seq<Addr>,
    lost: seq<Addr>,
    scan: nat,
    tracingState: TracingState,
    releasingState: ReleasingState,
    tracingBudget: int,
    releasingBudget: int,
    cyclicAlloc: nat,
    cyclicAllocAtTrace: nat,
    fault: bool)

  /** An access to freed memory, a pop of an empty list or a failed assertion. */
  function Fault(s: Rt): Rt {
    s.(fault := true)
  }

  function Put(s: Rt, a: Addr, o: Obj): Rt {
    s.(heap := s.heap[a := o])
  }

  predicate Marked(s: Rt, a: Addr) {
    a in s.heap && s.heap[a].mark == s.bit
  }

  // ----- own references -----

  /** External owners: stack slots, registers and globals. */
  type Owners = map<Addr, nat>

  function Ext(ext: Owners, a: Addr): nat {
    if a in ext then ext[a] else 0
  }

  ghost predicate OwnsTo(o: Obj, i: nat, a: Addr) {
    OwnsAt(o, i) && o.slots[i].target == a
  }

  ghost predicate HoldsEdge(h: Store, p: Addr, i: nat, a: Addr) {
    p in h && Holding(h[p]) && OwnsTo(h[p], i, a)
  }

  /** The counted own references to `a`, apart from those held by `skip`. */
  ghost function EdgesTo(h: Store, skip: set<Addr>, a: Addr): (r: set<(Addr, nat)>)
    ensures forall p: Addr, i: nat :: (p, i) in r <==> p !in skip && HoldsEdge(h, p, i, a)
  {
    set p, i | p in h && 0 <= i < |h[p].slots| && p !in skip && HoldsEdge(h, p, i, a) :: (p, i)
  }

  /** How many of the own references in fields `i` and up lead to `a`. */
  ghost function CountFrom(o: Obj, i: nat, a: Addr): nat
    decreases |o.slots| - i
  {
    if i >= |o.slots| then 0
    else (if OwnsTo(o, i, a) then 1 else 0) + CountFrom(o, i + 1, a)
  }

  /** Every count is the number of external owners plus counted own references. */
  ghost predicate Exact(h: Store, ext: Owners) {
    forall a {:trigger ExactAt(h, ext, a)} :: a in h ==> ExactAt(h, ext, a)
  }

  ghost predicate ExactAt(h: Store, ext: Owners, a: Addr)
    requires a in h
  {
    h[a].rc == Ext(ext, a) + |EdgesTo(h, {}, a)|
  }

  /** Exact while the fields of `p` (whose value is `o`) below `i` have been given up. */
  ghost predicate ExactFrom(h: Store, ext: Owners, p: Addr, o: Obj, i: nat) {
    forall a {:trigger ExactFromAt(h, ext, p, o, i, a)} :: a in h ==> ExactFromAt(h, ext, p, o, i, a)
  }

  ghost predicate ExactFromAt(h: Store, ext: Owners, p: Addr, o: Obj, i: nat, a: Addr)
    requires a in h
  {
    h[a].rc == Ext(ext, a) + |EdgesTo(h, {p}, a)| + CountFrom(o, i, a)
  }

  ghost function OwnEdgesFrom(o: Obj, p: Addr, i: nat, a: Addr): (r: set<(Addr, nat)>)
    ensures forall q: Addr, j: nat :: (q, j) in r <==> q == p && i <= j && OwnsTo(o, j, a)
    ensures |r| == CountFrom(o, i, a)
    decreases |o.slots| - i
  {
    if i >= |o.slots| then {}
    else
      var rest := OwnEdgesFrom(o, p, i + 1, a);
      if OwnsTo(o, i, a) then assert (p, i) !in rest; rest + {(p, i)} else rest
  }

  /** Setting one object's fields aside splits the counted references. */
  lemma SplitEdges(h: Store, p: Addr, a: Addr)
    requires p in h && Holding(h[p])
    ensures |EdgesTo(h, {}, a)| == |EdgesTo(h, {p}, a)| + CountFrom(h[p], 0, a)
  {
    var rest, own := EdgesTo(h, {p}, a), OwnEdgesFrom(h[p], p, 0, a);
    forall e: (Addr, nat) ensures e in EdgesTo(h, {}, a) <==> e in rest + own {
      assert e == (e.0, e.1);
    }
    assert EdgesTo(h, {}, a) == rest + own;
    assert rest !! own;
  }

  lemma StartDismantling(h: Store, ext: Owners, p: Addr)
    requires Exact(h, ext) && p in h && Holding(h[p])
    ensures ExactFrom(h, ext, p, h[p], 0)
  {
    forall a | a in h ensures ExactFromAt(h, ext, p, h[p], 0, a) {
      assert ExactAt(h, ext, a);
      SplitEdges(h, p, a);
    }
  }

  lemma EdgeIn(h: Store, skip: set<Addr>, p: Addr, i: nat, a: Addr)
    requires HoldsEdge(h, p, i, a) && p !in skip
    ensures |EdgesTo(h, skip, a)| >= 1
  {
    assert (p, i) in EdgesTo(h, skip, a);
  }

  lemma SomeEdge(h: Store, skip: set<Addr>, a: Addr) returns (p: Addr, i: nat)
    requires |EdgesTo(h, skip, a)| > 0
    ensures HoldsEdge(h, p, i, a) && p !in skip
  {
    var e :| e in EdgesTo(h, skip, a);
    p, i := e.0, e.1;
  }

  /** The graph of counted own references. */
  ghost function OwnTargets(o: Obj): set<Addr> {
    set i | 0 <= i < |o.slots| && Holding(o) && OwnsAt(o, i) :: o.slots[i].target
  }

  ghost function OwnGraph(h: Store): Graph<Addr> {
    map a | a in h :: OwnTargets(h[a])
  }

  lemma OwnEdge(h: Store, p: Addr, i: nat, a: Addr)
    requires HoldsEdge(h, p, i, a)
    ensures Edge(OwnGraph(h), p, a)
  {
    assert h[p].slots[i].target in OwnTargets(h[p]);
  }

  lemma OwnEdgeField(h: Store, p: Addr, a: Addr) returns (i: nat)
    requires Edge(OwnGraph(h), p, a)
    ensures HoldsEdge(h, p, i, a)
  {
    i :| 0 <= i < |h[p].slots| && Holding(h[p]) && OwnsAt(h[p], i) && h[p].slots[i].target == a;
  }
}
