/** Giving up the own references of a dead object, one field at a time. Both the
    releasing pipeline and the lost-cycle pass do this; they differ only in
    where a child whose count reaches zero waits for its own turn. */
module Dismantle {
  import opened Heap
  import opened Registry

  datatype Route = ToWaitlist | ToLost

  /** Queue a dead object for the releasing pipeline. */
  function ReleasePush(s: Rt, a: Addr): Rt {
    if a !in s.heap || s.heap[a].rc != 0 then Fault(s)
    else
      var s1 := if s.heap[a].header.cyclicMutable then Put(s, a, s.heap[a].(mark := s.bit)) else s;
      s1.(waiting := s1.waiting + [a])
  }

  function DecrChild(s: Rt, a: Addr, route: Route): Rt {
    if a !in s.heap || s.heap[a].rc == 0 then Fault(s)
    else
      var s1 := Put(s, a, s.heap[a].(rc := s.heap[a].rc - 1));
      if s1.heap[a].rc > 0 then s1
      else if !s1.heap[a].header.hasPointers then FreeReleased(s1, a)
      else match route
        case ToLost => s1.(lost := s1.lost + [a])
        case ToWaitlist => ReleasePush(s1, a)
  }

  function DismantleFrom(s: Rt, o: Obj, i: nat, route: Route): Rt
    decreases |o.slots| - i
  {
    if i >= |o.slots| then s
    else if OwnsAt(o, i) then DismantleFrom(DecrChild(s, o.slots[i].target, route), o, i + 1, route)
    else DismantleFrom(s, o, i + 1, route)
  }

  // ----- the invariant -----

  ghost predicate NoOwn(o: Obj) {
    forall i :: !OwnsAt(o, i)
  }

  ghost predicate PointersOk(h: Store) {
    forall a {:trigger PointerFlagOk(h, a)} :: a in h ==> PointerFlagOk(h, a)
  }

  ghost predicate PointerFlagOk(h: Store, a: Addr)
    requires a in h
  {
    !h[a].header.hasPointers ==> NoOwn(h[a])
  }

  ghost predicate TargetsLive(h: Store, skip: set<Addr>) {
    forall q, i, a {:trigger TargetLive(h, skip, q, i, a)} :: TargetLive(h, skip, q, i, a)
  }

  ghost predicate TargetLive(h: Store, skip: set<Addr>, q: Addr, i: nat, a: Addr) {
    HoldsEdge(h, q, i, a) && q !in skip ==> a in h
  }

  ghost predicate RestLive(h: Store, o: Obj, i: nat) {
    forall j, a {:trigger OwnsTo(o, j, a)} :: i <= j && OwnsTo(o, j, a) ==> a in h
  }

  /** The dead objects that still have to be dismantled or freed. */
  ghost function Queue(s: Rt): multiset<Addr> {
    multiset(s.releasing) + multiset(s.waiting) + multiset(s.lost)
  }

  ghost predicate QueuedOk(s: Rt, a: Addr) {
    Queue(s)[a] == 1 && a in s.heap && s.heap[a].rc == 0 && !s.heap[a].waitingRemove
  }

  /** The queued objects are exactly the dead ones (but for `busy`), each queued once. */
  ghost predicate QueuesOk(s: Rt, busy: set<Addr>) {
    && (forall a {:trigger QueuedOk(s, a)} :: a in Queue(s) ==> QueuedOk(s, a) && a !in busy)
    && (forall a {:trigger DeadOk(s, busy, a)} :: a in s.heap ==> DeadOk(s, busy, a))
  }

  ghost predicate DeadOk(s: Rt, busy: set<Addr>, a: Addr)
    requires a in s.heap
  {
    && (s.heap[a].rc == 0 ==> a in Queue(s) || a in busy || s.heap[a].waitingRemove)
    && (s.heap[a].waitingRemove ==> s.heap[a].rc == 0 && s.heap[a].tracing)
  }

  ghost predicate Sound(s: Rt, ext: Owners) {
    && !s.fault && RegistryOk(s) && PointersOk(s.heap)
    && Exact(s.heap, ext) && TargetsLive(s.heap, {}) && QueuesOk(s, {})
  }

  /** Sound while `p`, whose value is `o`, has given up its fields below `i`;
      a popped `p` is dead and on no list. */
  ghost predicate SoundFrom(s: Rt, ext: Owners, p: Addr, o: Obj, i: nat, popped: bool) {
    && !s.fault && RegistryOk(s) && PointersOk(s.heap)
    && ExactFrom(s.heap, ext, p, o, i) && TargetsLive(s.heap, {p}) && RestLive(s.heap, o, i)
    && QueuesOk(s, if popped then {p} else {})
    && p in s.heap && s.heap[p].slots == o.slots && s.heap[p].header == o.header
    && (popped ==> s.heap[p].rc == 0)
  }

  // ----- what survives -----

  /** A set of objects, some of which are dead and queued for their release. */
  datatype Kept = Kept(members: set<Addr>, queued: set<Addr>)

  ghost predicate OwnedWithin(h: Store, keep: set<Addr>, a: Addr) {
    exists q, i :: q in keep && HoldsEdge(h, q, i, a)
  }

  /** A set that keeps itself alive: each member has an external owner, is owned
      from within the set, or is already dead and waiting for its release. */
  ghost predicate Supported(h: Store, ext: Owners, keep: Kept) {
    forall a {:trigger SupportedAt(h, ext, keep, a)} :: a in keep.members ==> SupportedAt(h, ext, keep, a)
  }

  ghost predicate SupportedAt(h: Store, ext: Owners, keep: Kept, a: Addr) {
    && a in h && Holding(h[a])
    && (Ext(ext, a) > 0 || (a in keep.queued && h[a].rc == 0) || OwnedWithin(h, keep.members, a))
  }

  // ----- what a dismantling leaves alone -----

  ghost predicate SameShape(o: Obj, o': Obj, bit: bool, route: Route) {
    && o'.header == o.header && o'.slots == o.slots
    && o'.childrenReleased == o.childrenReleased && o'.tracing == o.tracing
    && (o'.mark == o.mark || (route.ToWaitlist? && o'.mark == bit && o'.rc == 0))
    && o'.rc <= o.rc
    && (o.waitingRemove ==> o'.waitingRemove) && (o'.waitingRemove == o.waitingRemove || o.tracing)
    && (o'.waitingRemove && !o.waitingRemove ==> !o'.candidate)
    && (o'.candidate ==> o.candidate) && (o'.candidate == o.candidate || o.tracing)
  }

  ghost function Alive(h: Store): set<Addr> {
    set a | a in h && h[a].rc > 0
  }

  /** `s'` follows `s` by counts going down, dead objects queued, and objects freed. */
  ghost predicate Shrinks(s: Rt, s': Rt, route: Route) {
    && s' == s.(heap := s'.heap, candidates := s'.candidates, waiting := s'.waiting, lost := s'.lost)
    && s'.heap.Keys <= s.heap.Keys
    && (forall a {:trigger SameShape(s.heap[a], s'.heap[a], s.bit, route)} ::
          a in s'.heap ==> SameShape(s.heap[a], s'.heap[a], s.bit, route))
    && (forall a :: a in s.heap && s.heap[a].tracing ==> a in s'.heap)
    && EntriesMoveDown(s.candidates, s'.candidates)
    && (route.ToLost? ==> s'.waiting == s.waiting)
    && (route.ToWaitlist? ==> s'.lost == s.lost)
    && (s'.lost == s.lost || Alive(s'.heap) < Alive(s.heap))
  }

  lemma EntriesMoveDownTrans(x: seq<Addr>, y: seq<Addr>, z: seq<Addr>)
    requires EntriesMoveDown(x, y) && EntriesMoveDown(y, z)
    ensures EntriesMoveDown(x, z)
  {
    forall i | 0 <= i < |z| ensures MovedFrom(x, z[i], i) {
      assert MovedFrom(y, z[i], i);
      var k :| i <= k < |y| && y[k] == z[i];
      assert MovedFrom(x, y[k], k);
    }
  }

  lemma ShrinksTrans(s: Rt, t: Rt, u: Rt, route: Route)
    requires Shrinks(s, t, route) && Shrinks(t, u, route)
    ensures Shrinks(s, u, route)
  {
    EntriesMoveDownTrans(s.candidates, t.candidates, u.candidates);
    forall a | a in u.heap ensures SameShape(s.heap[a], u.heap[a], s.bit, route) {
      assert SameShape(s.heap[a], t.heap[a], s.bit, route) && SameShape(t.heap[a], u.heap[a], s.bit, route);
    }
    forall a | a in s.heap && s.heap[a].tracing ensures a in u.heap {
      assert SameShape(s.heap[a], t.heap[a], s.bit, route);
    }
    AliveShrinks(s, t, route);
    AliveShrinks(t, u, route);
  }

  lemma AliveShrinks(s: Rt, t: Rt, route: Route)
    requires Shrinks(s, t, route)
    ensures Alive(t.heap) <= Alive(s.heap)
  {
    forall a | a in t.heap ensures t.heap[a].rc <= s.heap[a].rc {
      assert SameShape(s.heap[a], t.heap[a], s.bit, route);
    }
  }

  lemma ShrinksRefl(s: Rt, route: Route)
    ensures Shrinks(s, s, route)
  {
    forall i | 0 <= i < |s.candidates| ensures MovedFrom(s.candidates, s.candidates[i], i) {
    }
  }

  // ----- one child -----

  ghost predicate SameEdges(h: Store, h': Store) {
    forall q, i, a {:trigger HoldsEdge(h, q, i, a)} {:trigger HoldsEdge(h', q, i, a)} ::
      HoldsEdge(h, q, i, a) <==> HoldsEdge(h', q, i, a)
  }

  lemma SameEdgesCounts(h: Store, h': Store, skip: set<Addr>, a: Addr)
    requires SameEdges(h, h')
    ensures EdgesTo(h, skip, a) == EdgesTo(h', skip, a)
  {
    forall e: (Addr, nat) ensures e in EdgesTo(h, skip, a) <==> e in EdgesTo(h', skip, a) {
      assert e == (e.0, e.1);
    }
  }

  lemma {:induction false} CountPositive(o: Obj, i: nat, j: nat, a: Addr)
    requires i <= j && OwnsTo(o, j, a)
    ensures CountFrom(o, i, a) >= 1
    decreases |o.slots| - i
  {
    if i < j {
      CountPositive(o, i + 1, j, a);
    }
  }

  /** The child about to lose a reference is alive and on no list. */
  lemma ChildIsAlive(s: Rt, ext: Owners, p: Addr, o: Obj, i: nat, popped: bool, a: Addr)
    requires SoundFrom(s, ext, p, o, i, popped) && OwnsTo(o, i, a)
    ensures a in s.heap && s.heap[a].rc >= 1 && a !in Queue(s) && !s.heap[a].waitingRemove
    ensures s.heap[a].rc == 1 ==>
      Ext(ext, a) == 0 && EdgesTo(s.heap, {p}, a) == {} && CountFrom(o, i + 1, a) == 0
  {
    assert ExactFromAt(s.heap, ext, p, o, i, a);
    assert DeadOk(s, if popped then {p} else {}, a);
    assert a in Queue(s) ==> QueuedOk(s, a);
  }

  /** What dropping one reference to `a` does, whichever way it goes. */
  ghost predicate ChildEffect(s: Rt, s': Rt, a: Addr, route: Route)
    requires a in s.heap && s.heap[a].rc > 0
  {
    && Shrinks(s, s', route) && RegistryOk(s') && !s'.fault
    && (s'.heap.Keys == s.heap.Keys || s'.heap.Keys == s.heap.Keys - {a})
    && (forall b {:trigger RcStep(s, s', a, b)} :: b in s'.heap ==> RcStep(s, s', a, b))
    && (Gone(s', a) ==> s.heap[a].rc == 1 && NoOwn(s.heap[a]))
    && Queue(s') == Queue(s) + (if s.heap[a].rc == 1 && !Gone(s', a) then multiset{a} else multiset{})
    && (a in s'.heap && s'.heap[a].waitingRemove ==> s.heap[a].tracing)
  }

  ghost predicate RcStep(s: Rt, s': Rt, a: Addr, b: Addr)
    requires b in s'.heap
  {
    && b in s.heap && s'.heap[b].rc == s.heap[b].rc - (if b == a then 1 else 0)
    && (b != a ==> s'.heap[b].waitingRemove == s.heap[b].waitingRemove)
  }

  ghost predicate Gone(s: Rt, a: Addr) {
    a !in s.heap || s.heap[a].waitingRemove
  }

  lemma EffectSameEdges(s: Rt, s': Rt, a: Addr, route: Route)
    requires a in s.heap && s.heap[a].rc > 0 && !s.heap[a].waitingRemove && ChildEffect(s, s', a, route)
    ensures SameEdges(s.heap, s'.heap)
  {
    forall q, i, b ensures HoldsEdge(s.heap, q, i, b) <==> HoldsEdge(s'.heap, q, i, b) {
      if q in s'.heap {
        assert RcStep(s, s', a, q) && SameShape(s.heap[q], s'.heap[q], s.bit, route);
      }
    }
  }

  lemma EffectExact(s: Rt, s': Rt, ext: Owners, p: Addr, o: Obj, i: nat, a: Addr, route: Route)
    requires ExactFrom(s.heap, ext, p, o, i) && OwnsTo(o, i, a)
    requires a in s.heap && s.heap[a].rc > 0 && !s.heap[a].waitingRemove && ChildEffect(s, s', a, route)
    ensures ExactFrom(s'.heap, ext, p, o, i + 1)
  {
    EffectSameEdges(s, s', a, route);
    forall b | b in s'.heap ensures ExactFromAt(s'.heap, ext, p, o, i + 1, b) {
      assert RcStep(s, s', a, b) && ExactFromAt(s.heap, ext, p, o, i, b);
      SameEdgesCounts(s.heap, s'.heap, {p}, b);
    }
  }

  lemma EffectTargets(s: Rt, s': Rt, ext: Owners, p: Addr, o: Obj, i: nat, popped: bool, a: Addr, route: Route)
    requires SoundFrom(s, ext, p, o, i, popped) && OwnsTo(o, i, a)
    requires a in s.heap && s.heap[a].rc > 0 && !s.heap[a].waitingRemove && ChildEffect(s, s', a, route)
    ensures TargetsLive(s'.heap, {p}) && RestLive(s'.heap, o, i + 1)
  {
    EffectSameEdges(s, s', a, route);
    ChildIsAlive(s, ext, p, o, i, popped, a);
    forall q, j, b ensures TargetLive(s'.heap, {p}, q, j, b) {
      assert TargetLive(s.heap, {p}, q, j, b);
      if b == a && HoldsEdge(s'.heap, q, j, b) && q != p {
        EdgeIn(s.heap, {p}, q, j, a);
      }
    }
    forall j, b | i + 1 <= j && OwnsTo(o, j, b) ensures b in s'.heap {
      if b == a {
        CountPositive(o, i + 1, j, a);
      }
    }
  }

  lemma EffectQueues(s: Rt, s': Rt, busy: set<Addr>, a: Addr, route: Route)
    requires QueuesOk(s, busy) && a in s.heap && s.heap[a].rc > 0 && a !in busy && a !in Queue(s)
    requires !s.heap[a].waitingRemove && ChildEffect(s, s', a, route)
    ensures QueuesOk(s', busy)
  {
    forall b | b in Queue(s') ensures QueuedOk(s', b) && b !in busy {
      if b != a {
        assert QueuedOk(s, b) && b in s'.heap && RcStep(s, s', a, b);
      } else {
        assert RcStep(s, s', a, b);
      }
    }
    forall b | b in s'.heap ensures DeadOk(s', busy, b) {
      assert DeadOk(s, busy, b) && RcStep(s, s', a, b);
      assert SameShape(s.heap[b], s'.heap[b], s.bit, route);
    }
  }

  /** No member of a self-supporting set loses its last reference here. */
  lemma SupportedChildStays(s: Rt, ext: Owners, p: Addr, o: Obj, i: nat, popped: bool, a: Addr, keep: Kept)
    requires SoundFrom(s, ext, p, o, i, popped) && OwnsTo(o, i, a)
    requires Supported(s.heap, ext, keep) && p !in keep.members && a in keep.members
    ensures s.heap[a].rc >= 2
  {
    ChildIsAlive(s, ext, p, o, i, popped, a);
    assert SupportedAt(s.heap, ext, keep, a);
    if OwnedWithin(s.heap, keep.members, a) {
      var q, j: nat :| q in keep.members && HoldsEdge(s.heap, q, j, a);
      EdgeIn(s.heap, {p}, q, j, a);
    }
  }

  lemma EffectSupported(s: Rt, s': Rt, ext: Owners, a: Addr, route: Route, keep: Kept)
    requires Supported(s.heap, ext, keep)
    requires a in s.heap && s.heap[a].rc > 0 && !s.heap[a].waitingRemove && ChildEffect(s, s', a, route)
    requires a in keep.members ==> s.heap[a].rc >= 2
    ensures Supported(s'.heap, ext, keep)
  {
    EffectSameEdges(s, s', a, route);
    forall b | b in keep.members ensures SupportedAt(s'.heap, ext, keep, b) {
      assert SupportedAt(s.heap, ext, keep, b) && b in s'.heap;
      assert RcStep(s, s', a, b) && SameShape(s.heap[b], s'.heap[b], s.bit, route);
      if OwnedWithin(s.heap, keep.members, b) {
        var q, i: nat :| q in keep.members && HoldsEdge(s.heap, q, i, b);
        assert HoldsEdge(s'.heap, q, i, b);
      }
    }
  }

  ghost predicate Keeps(s: Rt, s': Rt, ext: Owners, p: Addr, o: Obj, i: nat, popped: bool, route: Route, keep: Kept) {
    && SoundFrom(s', ext, p, o, i, popped) && Shrinks(s, s', route)
    && SameEdges(s.heap, s'.heap) && Supported(s'.heap, ext, keep)
  }

  lemma EffectKeeps(s: Rt, s': Rt, ext: Owners, p: Addr, o: Obj, i: nat, popped: bool, a: Addr, route: Route,
          keep: Kept)
    requires SoundFrom(s, ext, p, o, i, popped) && OwnsTo(o, i, a)
    requires Supported(s.heap, ext, keep) && p !in keep.members
    requires a in s.heap && s.heap[a].rc > 0 && ChildEffect(s, s', a, route)
    ensures Keeps(s, s', ext, p, o, i + 1, popped, route, keep)
  {
    ChildIsAlive(s, ext, p, o, i, popped, a);
    EffectSameEdges(s, s', a, route);
    EffectExact(s, s', ext, p, o, i, a, route);
    EffectTargets(s, s', ext, p, o, i, popped, a, route);
    EffectQueues(s, s', if popped then {p} else {}, a, route);
    if a in keep.members {
      SupportedChildStays(s, ext, p, o, i, popped, a, keep);
    }
    EffectSupported(s, s', ext, a, route, keep);
    forall b | b in s'.heap ensures PointerFlagOk(s'.heap, b) {
      assert PointerFlagOk(s.heap, b) && SameShape(s.heap[b], s'.heap[b], s.bit, route);
      assert forall j :: OwnsAt(s.heap[b], j) == OwnsAt(s'.heap[b], j);
    }
    assert p in s'.heap by {
      if p !in s'.heap {
        assert OwnsAt(s.heap[p], i);
      }
    }
    assert RcStep(s, s', a, p) && SameShape(s.heap[p], s'.heap[p], s.bit, route);
  }

  lemma PutKeepsRegistry(s: Rt, s': Rt, a: Addr, o: Obj)
    requires RegistryOk(s) && a in s.heap
    requires o.candidate == s.heap[a].candidate && o.candidateIndex == s.heap[a].candidateIndex
    requires s'.heap == s.heap[a := o] && s'.candidates == s.candidates
    ensures RegistryOk(s')
  {
    forall i | 0 <= i < |s'.candidates| ensures EntryOk(s', i) {
      assert EntryOk(s, i);
    }
    forall b | b in s'.heap ensures FlagOk(s', b) {
      assert FlagOk(s, b);
    }
  }

  lemma PutShrinks(s: Rt, s': Rt, a: Addr, route: Route)
    requires a in s.heap && a in s'.heap && s'.heap == s.heap[a := s'.heap[a]]
    requires s' == s.(heap := s'.heap, waiting := s'.waiting, lost := s'.lost)
    requires SameShape(s.heap[a], s'.heap[a], s.bit, route)
    requires route.ToLost? ==> s'.waiting == s.waiting
    requires route.ToWaitlist? ==> s'.lost == s.lost
    requires s'.lost == s.lost || (s.heap[a].rc > 0 && s'.heap[a].rc == 0)
    ensures Shrinks(s, s', route)
  {
    ShrinksRefl(s, route);
    assert s'.lost != s.lost ==> a in Alive(s.heap) && a !in Alive(s'.heap);
  }

  lemma StillOwned(s: Rt, a: Addr, route: Route)
    requires !s.fault && RegistryOk(s) && a in s.heap && s.heap[a].rc > 1 && !s.heap[a].waitingRemove
    ensures ChildEffect(s, DecrChild(s, a, route), a, route)
  {
    var s' := DecrChild(s, a, route);
    PutKeepsRegistry(s, s', a, s'.heap[a]);
    PutShrinks(s, s', a, route);
    assert Queue(s') == Queue(s) + multiset{};
  }

  lemma LastReferenceQueued(s: Rt, a: Addr, route: Route)
    requires !s.fault && RegistryOk(s) && a in s.heap && s.heap[a].rc == 1 && !s.heap[a].waitingRemove
    requires s.heap[a].header.hasPointers
    ensures ChildEffect(s, DecrChild(s, a, route), a, route)
  {
    var s' := DecrChild(s, a, route);
    var m := if route.ToWaitlist? && s.heap[a].header.cyclicMutable then s.bit else s.heap[a].mark;
    var o := s.heap[a].(rc := 0, mark := m);
    assert s'.heap == s.heap[a := o];
    match route
    case ToLost =>
      assert s' == s.(heap := s.heap[a := o], lost := s.lost + [a]);
      QueuedEffect(s, s', a, route);
    case ToWaitlist =>
      assert s' == s.(heap := s.heap[a := o], waiting := s.waiting + [a]);
      QueuedEffect(s, s', a, route);
  }

  lemma QueuedEffect(s: Rt, s': Rt, a: Addr, route: Route)
    requires !s.fault && RegistryOk(s) && a in s.heap && s.heap[a].rc == 1 && !s.heap[a].waitingRemove
    requires a in s'.heap && s'.heap == s.heap[a := s'.heap[a]]
    requires exists m ::
        s'.heap[a] == s.heap[a].(rc := 0, mark := m) && (m == s.heap[a].mark || (route.ToWaitlist? && m == s.bit))
    requires match route
      case ToLost => s' == s.(heap := s'.heap, lost := s.lost + [a])
      case ToWaitlist => s' == s.(heap := s'.heap, waiting := s.waiting + [a])
    ensures ChildEffect(s, s', a, route)
  {
    PutKeepsRegistry(s, s', a, s'.heap[a]);
    PutShrinks(s, s', a, route);
    assert Queue(s') == Queue(s) + multiset{a};
  }

  lemma LastReferenceFreed(s: Rt, a: Addr, route: Route)
    requires !s.fault && RegistryOk(s) && a in s.heap && s.heap[a].rc == 1 && !s.heap[a].waitingRemove
    requires !s.heap[a].header.hasPointers && NoOwn(s.heap[a])
    ensures ChildEffect(s, DecrChild(s, a, route), a, route)
  {
    var s1 := Put(s, a, s.heap[a].(rc := 0));
    PutKeepsRegistry(s, s1, a, s1.heap[a]);
    FreeReleasedFacts(s1, a);
    assert FreeReleased(s1, a) == DecrChild(s, a, route);
    FreedEffect(s, s1, FreeReleased(s1, a), a, route);
  }

  lemma FreedEffect(s: Rt, s1: Rt, s': Rt, a: Addr, route: Route)
    requires !s.fault && a in s.heap && s.heap[a].rc == 1 && !s.heap[a].waitingRemove && NoOwn(s.heap[a])
    requires s1 == Put(s, a, s.heap[a].(rc := 0)) && Freed(s1, s', a) && RegistryOk(s')
    ensures ChildEffect(s, s', a, route)
  {
    forall b | b in s'.heap ensures RcStep(s, s', a, b) && SameShape(s.heap[b], s'.heap[b], s.bit, route) {
      assert b != a ==> SameObject(s1.heap[b], s'.heap[b]);
    }
  }

  /** Dropping one reference to a child keeps the invariant, whatever becomes of the child. */
  lemma DecrChildKeeps(s: Rt, ext: Owners, p: Addr, o: Obj, i: nat, popped: bool, route: Route, keep: Kept)
    requires SoundFrom(s, ext, p, o, i, popped) && OwnsAt(o, i)
    requires Supported(s.heap, ext, keep) && p !in keep.members
    ensures Keeps(s, DecrChild(s, o.slots[i].target, route), ext, p, o, i + 1, popped, route, keep)
  {
    var a := o.slots[i].target;
    assert OwnsTo(o, i, a);
    ChildIsAlive(s, ext, p, o, i, popped, a);
    if s.heap[a].rc > 1 {
      StillOwned(s, a, route);
    } else if s.heap[a].header.hasPointers {
      LastReferenceQueued(s, a, route);
    } else {
      assert PointerFlagOk(s.heap, a);
      LastReferenceFreed(s, a, route);
    }
    EffectKeeps(s, DecrChild(s, a, route), ext, p, o, i, popped, a, route, keep);
  }

  lemma SkipField(s: Rt, ext: Owners, p: Addr, o: Obj, i: nat, popped: bool)
    requires SoundFrom(s, ext, p, o, i, popped) && i < |o.slots| && !OwnsAt(o, i)
    ensures SoundFrom(s, ext, p, o, i + 1, popped)
  {
    forall a | a in s.heap ensures ExactFromAt(s.heap, ext, p, o, i + 1, a) {
      assert ExactFromAt(s.heap, ext, p, o, i, a);
    }
  }

  /** Dismantling a whole object keeps counts exact, registry and queues sound, and every self-supporting set. */
  lemma {:induction false} DismantleKeeps(s: Rt, ext: Owners, p: Addr, o: Obj, i: nat, popped: bool, route: Route,
          keep: Kept)
    requires SoundFrom(s, ext, p, o, i, popped)
    requires Supported(s.heap, ext, keep) && p !in keep.members
    requires i <= |o.slots|
    ensures Keeps(s, DismantleFrom(s, o, i, route), ext, p, o, |o.slots|, popped, route, keep)
    decreases |o.slots| - i
  {
    if i == |o.slots| {
      ShrinksRefl(s, route);
    } else if OwnsAt(o, i) {
      DecrChildKeeps(s, ext, p, o, i, popped, route, keep);
      var t := DecrChild(s, o.slots[i].target, route);
      DismantleKeeps(t, ext, p, o, i + 1, popped, route, keep);
      ShrinksTrans(s, t, DismantleFrom(s, o, i, route), route);
    } else {
      SkipField(s, ext, p, o, i, popped);
      DismantleKeeps(s, ext, p, o, i + 1, popped, route, keep);
    }
  }

  // ----- the start and the end of a dismantling -----

  /** Taking a dead object off its list. */
  lemma PopQueues(s: Rt, s1: Rt, p: Addr)
    requires QueuesOk(s, {}) && p in Queue(s) && Queue(s) == Queue(s1) + multiset{p}
    requires s1.heap.Keys == s.heap.Keys
    requires forall a :: a in s.heap ==> s1.heap[a] == s.heap[a].(childrenReleased := s1.heap[a].childrenReleased)
    ensures QueuesOk(s1, {p}) && p in s1.heap && s1.heap[p].rc == 0 && !s1.heap[p].waitingRemove
  {
    assert QueuedOk(s, p);
    forall a | a in Queue(s1) ensures QueuedOk(s1, a) && a !in {p} {
      assert QueuedOk(s, a);
    }
    forall a | a in s1.heap ensures DeadOk(s1, {p}, a) {
      assert DeadOk(s, {}, a);
    }
  }

  /** Flagging `p` as released leaves all counts and references as they are. */
  lemma FlaggedHeap(h: Store, h1: Store, ext: Owners, p: Addr)
    requires p in h && Holding(h[p]) && p in h1 && h1 == h[p := h[p].(childrenReleased := h1[p].childrenReleased)]
    requires PointersOk(h) && TargetsLive(h, {}) && ExactFrom(h, ext, p, h[p], 0)
    ensures ExactFrom(h1, ext, p, h[p], 0) && PointersOk(h1) && TargetsLive(h1, {p})
    ensures RestLive(h1, h[p], 0)
  {
    var o := h[p];
    forall a | a in h1 ensures ExactFromAt(h1, ext, p, o, 0, a) && PointerFlagOk(h1, a) {
      assert ExactFromAt(h, ext, p, o, 0, a) && PointerFlagOk(h, a);
      SkippedSame(h, h1, p, a);
      assert forall j :: OwnsAt(h[a], j) == OwnsAt(h1[a], j);
    }
    forall q, i, a ensures TargetLive(h1, {p}, q, i, a) {
      assert TargetLive(h, {}, q, i, a);
    }
    forall j: nat, a | 0 <= j && OwnsTo(o, j, a) ensures a in h1 {
      assert TargetLive(h, {}, p, j, a);
    }
  }

  /** `p` may be flagged as released before its fields are given up. */
  lemma BeginDismantling(s: Rt, s1: Rt, ext: Owners, p: Addr, popped: bool)
    requires Sound(s, ext) && p in s.heap && Holding(s.heap[p])
    requires p in s1.heap && s1.heap == s.heap[p := s.heap[p].(childrenReleased := s1.heap[p].childrenReleased)]
    requires s1.candidates == s.candidates && !s1.fault
    requires if popped then p in Queue(s) && Queue(s) == Queue(s1) + multiset{p} else Queue(s) == Queue(s1)
    ensures SoundFrom(s1, ext, p, s.heap[p], 0, popped)
  {
    var o := s.heap[p];
    PutKeepsRegistry(s, s1, p, s1.heap[p]);
    StartDismantling(s.heap, ext, p);
    FlaggedHeap(s.heap, s1.heap, ext, p);
    if popped {
      PopQueues(s, s1, p);
    } else {
      forall a | a in Queue(s1) ensures QueuedOk(s1, a) {
        assert QueuedOk(s, a);
      }
      forall a | a in s1.heap ensures DeadOk(s1, {}, a) {
        assert DeadOk(s, {}, a);
      }
    }
  }

  lemma SkippedSame(h: Store, h1: Store, p: Addr, a: Addr)
    requires p in h && p in h1 && h1 == h[p := h1[p]]
    ensures EdgesTo(h, {p}, a) == EdgesTo(h1, {p}, a)
  {
    forall e: (Addr, nat) ensures e in EdgesTo(h, {p}, a) <==> e in EdgesTo(h1, {p}, a) {
      assert e == (e.0, e.1);
    }
  }

  lemma {:induction false} CountPastEnd(o: Obj, a: Addr)
    ensures CountFrom(o, |o.slots|, a) == 0
  {
  }

  lemma NoLongerHolding(h: Store, h': Store, p: Addr, a: Addr)
    requires p in h' ==> !Holding(h'[p])
    requires h'.Keys <= h.Keys && forall q :: q in h && q != p ==> q in h' && SameObject(h[q], h'[q])
    ensures EdgesTo(h', {}, a) == EdgesTo(h, {p}, a)
  {
    forall e: (Addr, nat) ensures e in EdgesTo(h', {}, a) <==> e in EdgesTo(h, {p}, a) {
      assert e == (e.0, e.1);
    }
  }

  /** A candidate whose children are released stays, flagged, while it is still owned. */
  lemma EndReleased(s: Rt, ext: Owners, p: Addr, o: Obj)
    requires SoundFrom(s, ext, p, o, |o.slots|, false) && s.heap[p].childrenReleased
    ensures Sound(s, ext)
  {
    forall a | a in s.heap ensures ExactAt(s.heap, ext, a) {
      assert ExactFromAt(s.heap, ext, p, o, |o.slots|, a);
      CountPastEnd(o, a);
      NoLongerHolding(s.heap, s.heap, p, a);
    }
    forall q, i, a ensures TargetLive(s.heap, {}, q, i, a) {
      assert TargetLive(s.heap, {p}, q, i, a);
    }
  }

  lemma EndFreedCounts(s: Rt, s': Rt, ext: Owners, p: Addr, o: Obj)
    requires SoundFrom(s, ext, p, o, |o.slots|, true) && Freed(s, s', p)
    ensures Exact(s'.heap, ext) && PointersOk(s'.heap)
  {
    forall a | a in s'.heap ensures ExactAt(s'.heap, ext, a) {
      assert ExactFromAt(s.heap, ext, p, o, |o.slots|, a);
      CountPastEnd(o, a);
      NoLongerHolding(s.heap, s'.heap, p, a);
    }
    forall a | a in s'.heap ensures PointerFlagOk(s'.heap, a) {
      assert PointerFlagOk(s.heap, a);
      assert forall j :: OwnsAt(s.heap[a], j) == OwnsAt(s'.heap[a], j);
    }
  }

  lemma EndFreedQueues(s: Rt, s': Rt, p: Addr)
    requires p in s.heap && s.heap[p].rc == 0 && QueuesOk(s, {p}) && Freed(s, s', p)
    ensures QueuesOk(s', {})
  {
    assert Queue(s') == Queue(s);
    forall a | a in Queue(s') ensures QueuedOk(s', a) {
      assert QueuedOk(s, a);
    }
    forall a | a in s'.heap ensures DeadOk(s', {}, a) {
      assert DeadOk(s, {p}, a);
    }
  }

  lemma EndFreedSupported(s: Rt, s': Rt, ext: Owners, p: Addr, keep: Kept)
    requires p in s.heap && Freed(s, s', p) && Supported(s.heap, ext, keep) && p !in keep.members
    ensures Supported(s'.heap, ext, keep)
  {
    forall a | a in keep.members ensures SupportedAt(s'.heap, ext, keep, a) {
      assert SupportedAt(s.heap, ext, keep, a);
      if OwnedWithin(s.heap, keep.members, a) {
        var q, i: nat :| q in keep.members && HoldsEdge(s.heap, q, i, a);
        assert SupportedAt(s.heap, ext, keep, q);
        assert HoldsEdge(s'.heap, q, i, a);
      }
    }
  }

  /** An object dismantled earlier only has to be freed. */
  lemma BeginReleased(s: Rt, s1: Rt, ext: Owners, p: Addr)
    requires Sound(s, ext) && p in Queue(s) && p in s.heap && s.heap[p].childrenReleased
    requires s1.heap == s.heap && s1.candidates == s.candidates && !s1.fault && Queue(s) == Queue(s1) + multiset{p}
    ensures SoundFrom(s1, ext, p, s.heap[p], |s.heap[p].slots|, true)
  {
    var o := s.heap[p];
    PutKeepsRegistry(s, s1, p, o);
    PopQueues(s, s1, p);
    forall a | a in s1.heap ensures ExactFromAt(s1.heap, ext, p, o, |o.slots|, a) {
      assert ExactAt(s.heap, ext, a);
      CountPastEnd(o, a);
      NoLongerHolding(s.heap, s.heap, p, a);
    }
    forall q, i, a ensures TargetLive(s1.heap, {p}, q, i, a) {
      assert TargetLive(s.heap, {}, q, i, a);
    }
  }

  /** Freeing the dismantled object restores the full invariant. */
  lemma EndFreed(s: Rt, ext: Owners, p: Addr, o: Obj, keep: Kept)
    requires SoundFrom(s, ext, p, o, |o.slots|, true)
    requires Supported(s.heap, ext, keep) && p !in keep.members
    ensures Sound(FreeReleased(s, p), ext) && Supported(FreeReleased(s, p).heap, ext, keep)
    ensures Freed(s, FreeReleased(s, p), p)
  {
    FreeReleasedFacts(s, p);
    var s' := FreeReleased(s, p);
    EndFreedCounts(s, s', ext, p, o);
    EndFreedTargets(s, s', ext, p, o);
    EndFreedQueues(s, s', p);
    EndFreedSupported(s, s', ext, p, keep);
  }

  lemma EndFreedTargets(s: Rt, s': Rt, ext: Owners, p: Addr, o: Obj)
    requires SoundFrom(s, ext, p, o, |o.slots|, true) && Freed(s, s', p)
    ensures TargetsLive(s'.heap, {})
  {
    forall q, i, a ensures TargetLive(s'.heap, {}, q, i, a) {
      if HoldsEdge(s'.heap, q, i, a) {
        assert q != p && HoldsEdge(s.heap, q, i, a);
        assert TargetLive(s.heap, {p}, q, i, a);
        EdgeIn(s.heap, {p}, q, i, a);
        assert ExactFromAt(s.heap, ext, p, o, |o.slots|, a);
      }
    }
  }

  /** Whatever has an external owner is still there. */
  ghost predicate OwnedStay(h: Store, h': Store, ext: Owners) {
    forall a :: a in h && Ext(ext, a) > 0 ==> a in h'
  }

  lemma {:induction false} DismantleOwnedStay(s: Rt, ext: Owners, p: Addr, o: Obj, i: nat, popped: bool, route: Route)
    requires SoundFrom(s, ext, p, o, i, popped) && i <= |o.slots|
    ensures OwnedStay(s.heap, DismantleFrom(s, o, i, route).heap, ext)
    decreases |o.slots| - i
  {
    if i == |o.slots| {
    } else if OwnsAt(o, i) {
      var a := o.slots[i].target;
      assert OwnsTo(o, i, a);
      ChildIsAlive(s, ext, p, o, i, popped, a);
      DecrChildKeeps(s, ext, p, o, i, popped, route, Kept({}, {}));
      DecrKeepsOthers(s, a, route);
      DismantleOwnedStay(DecrChild(s, a, route), ext, p, o, i + 1, popped, route);
    } else {
      SkipField(s, ext, p, o, i, popped);
      DismantleOwnedStay(s, ext, p, o, i + 1, popped, route);
    }
  }

  lemma DecrKeepsOthers(s: Rt, a: Addr, route: Route)
    requires a in s.heap && s.heap[a].rc > 0 && RegistryOk(s) && !s.heap[a].waitingRemove
    ensures forall b :: b in s.heap && (b != a || s.heap[a].rc > 1) ==> b in DecrChild(s, a, route).heap
  {
    var s1 := Put(s, a, s.heap[a].(rc := s.heap[a].rc - 1));
    PutKeepsRegistry(s, s1, a, s1.heap[a]);
    FreeReleasedFacts(s1, a);
  }
}
