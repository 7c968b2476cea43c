/** The mutator's entry points: allocation, sharing, dropping, stores and the write barrier. */
module Mutator {
  import opened Graphs
  import opened Heap
  import opened Registry
  import opened Dismantle
  import opened Releasing
  import opened Marking

  function NewObject(s: Rt, header: Header, rc: nat, length: nat): Obj {
    Obj(header, s.bit, rc, false, 0, false, false, false, seq(length, _ => Null))
  }

  /** Allocation tags the object with the current mark and registers mutable-cyclic ones. */
  function Alloc(s: Rt, a: Addr, header: Header, rc: nat, length: nat): Rt {
    if a in s.heap then Fault(s)
    else
      var s1 := Put(s, a, NewObject(s, header, rc, length));
      if header.cyclic then
        var s2 := s1.(cyclicAlloc := s1.cyclicAlloc + 1);
        if header.cyclicMutable then Register(s2, a) else s2
      else s1
  }

  function Share(s: Rt, a: Addr): Rt {
    if a !in s.heap then Fault(s) else Put(s, a, s.heap[a].(rc := s.heap[a].rc + 1))
  }

  /** Give up one owner. A dead object without fields is freed at once, any other is queued. */
  function Drop(s: Rt, a: Addr): Rt {
    if a !in s.heap || s.heap[a].rc == 0 then Fault(s)
    else
      var s1 := Put(s, a, s.heap[a].(rc := s.heap[a].rc - 1));
      if s1.heap[a].rc > 0 then s1
      else if s1.heap[a].header.layout.MonoImm? then s1.(heap := s1.heap - {a})
      else ReleasePush(s1, a)
  }

  function SetSlot(s: Rt, p: Addr, i: nat, v: Slot): Rt {
    if p !in s.heap || i >= |s.heap[p].slots| then Fault(s)
    else Put(s, p, s.heap[p].(slots := s.heap[p].slots[i := v]))
  }

  /** The write barrier; `own` says whether the holder was reached through an owning pointer. */
  function Notify(s: Rt, p: Addr, own: bool, t: Addr): Rt {
    if !own then s
    else if s.tracingState != Tracing && s.tracingState != MutationPrepare then s
    else if p !in s.heap || t !in s.heap then Fault(s)
    else if !Marked(s, p) || !s.heap[p].header.traceable || Marked(s, t) then s
    else Put(s, t, s.heap[t].(mark := s.bit)).(mutations := s.mutations + [t])
  }

  // ----- exact counts through the mutator -----

  function AddOwner(ext: Owners, a: Addr, n: nat): Owners {
    ext[a := Ext(ext, a) + n]
  }

  function RemoveOwner(ext: Owners, a: Addr): Owners
    requires Ext(ext, a) > 0
  {
    ext[a := ext[a] - 1]
  }

  /** `a`'s count and its external owners change together; nothing else does. */
  lemma RecountSound(s: Rt, s': Rt, ext: Owners, ext': Owners, a: Addr)
    requires Sound(s, ext) && a in s.heap && s.heap[a].rc > 0 && a in s'.heap && s'.heap[a].rc > 0
    requires s'.heap == s.heap[a := s.heap[a].(rc := s'.heap[a].rc)] && s' == s.(heap := s'.heap)
    requires s'.heap[a].rc - s.heap[a].rc == Ext(ext', a) - Ext(ext, a)
    requires forall b :: b != a ==> Ext(ext', b) == Ext(ext, b)
    ensures Sound(s', ext')
  {
    assert SameEdges(s.heap, s'.heap);
    PutKeepsRegistry(s, s', a, s'.heap[a]);
    forall b | b in s'.heap ensures ExactAt(s'.heap, ext', b) && PointerFlagOk(s'.heap, b) && DeadOk(s', {}, b) {
      assert ExactAt(s.heap, ext, b) && PointerFlagOk(s.heap, b) && DeadOk(s, {}, b);
      SameEdgesCounts(s.heap, s'.heap, {}, b);
      assert forall j :: OwnsAt(s.heap[b], j) == OwnsAt(s'.heap[b], j);
    }
    forall q, i, b ensures TargetLive(s'.heap, {}, q, i, b) {
      assert TargetLive(s.heap, {}, q, i, b);
    }
    assert Queue(s') == Queue(s);
    forall b | b in Queue(s') ensures QueuedOk(s', b) {
      assert QueuedOk(s, b);
    }
  }

  lemma ShareSound(s: Rt, ext: Owners, a: Addr)
    requires Sound(s, ext) && a in s.heap && s.heap[a].rc > 0
    ensures Sound(Share(s, a), AddOwner(ext, a, 1))
  {
    RecountSound(s, Share(s, a), ext, AddOwner(ext, a, 1), a);
  }

  /** An external owner's last reference: no own reference counts any more. */
  lemma LastOwner(s: Rt, ext: Owners, a: Addr)
    requires Sound(s, ext) && a in s.heap && s.heap[a].rc == 1 && Ext(ext, a) > 0
    ensures EdgesTo(s.heap, {}, a) == {} && Ext(ext, a) == 1 && a !in Queue(s) && !s.heap[a].waitingRemove
  {
    assert ExactAt(s.heap, ext, a) && DeadOk(s, {}, a);
    assert a in Queue(s) ==> QueuedOk(s, a);
  }

  lemma DropQueues(s: Rt, s': Rt, ext: Owners, a: Addr)
    requires Sound(s, ext) && a in s.heap && s.heap[a].rc == 1 && Ext(ext, a) > 0
    requires a in s'.heap && s' == s.(heap := s'.heap, waiting := s.waiting + [a])
    requires s'.heap == s.heap[a := s.heap[a].(rc := 0, mark := s'.heap[a].mark)]
    ensures Sound(s', RemoveOwner(ext, a))
  {
    LastOwner(s, ext, a);
    var ext' := RemoveOwner(ext, a);
    assert SameEdges(s.heap, s'.heap);
    PutKeepsRegistry(s, s', a, s'.heap[a]);
    assert Queue(s') == Queue(s) + multiset{a};
    forall b | b in s'.heap ensures ExactAt(s'.heap, ext', b) && PointerFlagOk(s'.heap, b) && DeadOk(s', {}, b) {
      assert ExactAt(s.heap, ext, b) && PointerFlagOk(s.heap, b) && DeadOk(s, {}, b);
      SameEdgesCounts(s.heap, s'.heap, {}, b);
      assert forall j :: OwnsAt(s.heap[b], j) == OwnsAt(s'.heap[b], j);
    }
    forall q, i, b ensures TargetLive(s'.heap, {}, q, i, b) {
      assert TargetLive(s.heap, {}, q, i, b);
    }
    forall b | b in Queue(s') ensures QueuedOk(s', b) {
      assert b == a || QueuedOk(s, b);
    }
  }

  lemma DropFreesEdges(s: Rt, s': Rt, a: Addr)
    requires a in s.heap && NoOwn(s.heap[a]) && s'.heap == s.heap - {a}
    ensures SameEdges(s.heap, s'.heap)
  {
  }

  lemma DropFreesExact(s: Rt, s': Rt, ext: Owners, a: Addr)
    requires Sound(s, ext) && a in s.heap && s.heap[a].rc == 1 && Ext(ext, a) > 0
    requires s'.heap == s.heap - {a} && SameEdges(s.heap, s'.heap)
    ensures Exact(s'.heap, RemoveOwner(ext, a)) && PointersOk(s'.heap) && TargetsLive(s'.heap, {})
  {
    LastOwner(s, ext, a);
    forall b | b in s'.heap ensures ExactAt(s'.heap, RemoveOwner(ext, a), b) && PointerFlagOk(s'.heap, b) {
      assert ExactAt(s.heap, ext, b) && PointerFlagOk(s.heap, b);
      SameEdgesCounts(s.heap, s'.heap, {}, b);
    }
    forall q, i, b ensures TargetLive(s'.heap, {}, q, i, b) {
      assert TargetLive(s.heap, {}, q, i, b);
      if HoldsEdge(s'.heap, q, i, b) {
        EdgeIn(s.heap, {}, q, i, b);
      }
    }
  }

  lemma DropFrees(s: Rt, s': Rt, ext: Owners, a: Addr)
    requires Sound(s, ext) && a in s.heap && s.heap[a].rc == 1 && Ext(ext, a) > 0
    requires NoOwn(s.heap[a]) && !s.heap[a].candidate
    requires s' == s.(heap := s.heap - {a})
    ensures Sound(s', RemoveOwner(ext, a))
  {
    LastOwner(s, ext, a);
    DropFreesEdges(s, s', a);
    DropFreesExact(s, s', ext, a);
    forall i | 0 <= i < |s'.candidates| ensures EntryOk(s', i) {
      assert EntryOk(s, i);
    }
    forall b | b in s'.heap ensures DeadOk(s', {}, b) && FlagOk(s', b) {
      assert DeadOk(s, {}, b) && FlagOk(s, b);
    }
    assert Queue(s') == Queue(s);
    forall b | b in Queue(s') ensures QueuedOk(s', b) {
      assert QueuedOk(s, b);
    }
  }

  /** Field-free objects are never candidates: only mutable-cyclic objects are registered. */
  ghost predicate ImmediatesPlain(h: Store) {
    forall a :: a in h && h[a].header.layout.MonoImm? ==> !h[a].candidate
  }

  lemma DropSound(s: Rt, ext: Owners, a: Addr)
    requires Sound(s, ext) && a in s.heap && Ext(ext, a) > 0 && ImmediatesPlain(s.heap)
    ensures Sound(Drop(s, a), RemoveOwner(ext, a))
  {
    assert ExactAt(s.heap, ext, a);
    if s.heap[a].rc > 1 {
      DropOneOfMany(s, ext, a);
    } else {
      DropLast(s, ext, a);
    }
  }

  lemma DropLast(s: Rt, ext: Owners, a: Addr)
    requires Sound(s, ext) && a in s.heap && Ext(ext, a) > 0 && ImmediatesPlain(s.heap) && s.heap[a].rc == 1
    ensures Sound(Drop(s, a), RemoveOwner(ext, a))
  {
    if s.heap[a].header.layout.MonoImm? {
      DropImmediate(s, ext, a);
    } else {
      DropQueues(s, Drop(s, a), ext, a);
    }
  }

  lemma DropOneOfMany(s: Rt, ext: Owners, a: Addr)
    requires Sound(s, ext) && a in s.heap && Ext(ext, a) > 0 && s.heap[a].rc > 1
    ensures Sound(Drop(s, a), RemoveOwner(ext, a))
  {
    RecountSound(s, Drop(s, a), ext, RemoveOwner(ext, a), a);
  }

  lemma DropImmediate(s: Rt, ext: Owners, a: Addr)
    requires Sound(s, ext) && a in s.heap && Ext(ext, a) > 0 && ImmediatesPlain(s.heap)
    requires s.heap[a].rc == 1 && s.heap[a].header.layout.MonoImm?
    ensures Sound(Drop(s, a), RemoveOwner(ext, a))
  {
    assert Drop(s, a).heap == s.heap - {a};
    DropFrees(s, Drop(s, a), ext, a);
  }

  lemma NewHasNoEdges(s: Rt, ext: Owners, a: Addr)
    requires Sound(s, ext) && a !in s.heap
    ensures EdgesTo(s.heap, {}, a) == {}
  {
    forall e: (Addr, nat) ensures e !in EdgesTo(s.heap, {}, a) {
      assert e == (e.0, e.1);
      assert TargetLive(s.heap, {}, e.0, e.1, a);
    }
  }

  lemma BesideNew(s: Rt, s': Rt, ext: Owners, a: Addr, rc: nat, b: Addr)
    requires a !in s.heap && b in s.heap && a in s'.heap && s'.heap == s.heap[a := s'.heap[a]]
    requires s' == s.(heap := s'.heap, cyclicAlloc := s'.cyclicAlloc) && SameEdges(s.heap, s'.heap)
    requires ExactAt(s.heap, ext, b) && PointerFlagOk(s.heap, b) && DeadOk(s, {}, b) && FlagOk(s, b)
    ensures ExactAt(s'.heap, AddOwner(ext, a, rc), b) && PointerFlagOk(s'.heap, b) && DeadOk(s', {}, b) && FlagOk(s', b)
  {
    SameEdgesCounts(s.heap, s'.heap, {}, b);
    assert s'.heap[b] == s.heap[b];
  }

  /** A fresh object enters with `rc` external owners and no edges. */
  lemma AllocPlain(s: Rt, s': Rt, ext: Owners, a: Addr, header: Header, rc: nat, length: nat)
    requires Sound(s, ext) && a !in s.heap && rc > 0 && Ext(ext, a) == 0
    requires s' == Put(s, a, NewObject(s, header, rc, length)).(cyclicAlloc := s'.cyclicAlloc)
    ensures Sound(s', AddOwner(ext, a, rc))
  {
    var ext' := AddOwner(ext, a, rc);
    NewHasNoEdges(s, ext, a);
    assert SameEdges(s.heap, s'.heap);
    forall b | b in s'.heap ensures ExactAt(s'.heap, ext', b) && PointerFlagOk(s'.heap, b) && DeadOk(s', {}, b)
        && FlagOk(s', b) {
      SameEdgesCounts(s.heap, s'.heap, {}, b);
      if b != a {
        assert ExactAt(s.heap, ext, b) && PointerFlagOk(s.heap, b) && DeadOk(s, {}, b) && FlagOk(s, b);
        BesideNew(s, s', ext, a, rc, b);
      }
    }
    AllocLists(s, s', ext, a);
  }

  lemma AllocLists(s: Rt, s': Rt, ext: Owners, a: Addr)
    requires Sound(s, ext) && a !in s.heap && a in s'.heap && SameEdges(s.heap, s'.heap)
    requires s' == s.(heap := s.heap[a := s'.heap[a]], cyclicAlloc := s'.cyclicAlloc)
    ensures forall i :: 0 <= i < |s'.candidates| ==> EntryOk(s', i)
    ensures forall q, i, b {:trigger TargetLive(s'.heap, {}, q, i, b)} :: TargetLive(s'.heap, {}, q, i, b)
    ensures Queue(s') == Queue(s) && forall b :: b in Queue(s') ==> QueuedOk(s', b)
  {
    forall i | 0 <= i < |s'.candidates| ensures EntryOk(s', i) {
      assert EntryOk(s, i);
    }
    forall q, i, b ensures TargetLive(s'.heap, {}, q, i, b) {
      assert TargetLive(s.heap, {}, q, i, b);
    }
    assert Queue(s') == Queue(s);
    forall b | b in Queue(s') ensures QueuedOk(s', b) {
      assert QueuedOk(s, b);
    }
  }

  lemma RegisterObject(s: Rt, ext: Owners, a: Addr, b: Addr)
    requires a in s.heap && b in s.heap && SameEdges(s.heap, Register(s, a).heap)
    requires ExactAt(s.heap, ext, b) && PointerFlagOk(s.heap, b) && DeadOk(s, {}, b)
    ensures var s' := Register(s, a);
      b in s'.heap && ExactAt(s'.heap, ext, b) && PointerFlagOk(s'.heap, b) && DeadOk(s', {}, b)
  {
    var s' := Register(s, a);
    SameEdgesCounts(s.heap, s'.heap, {}, b);
    assert forall j :: OwnsAt(s.heap[b], j) == OwnsAt(s'.heap[b], j);
  }

  lemma RegisterSound(s: Rt, ext: Owners, a: Addr)
    requires Sound(s, ext) && a in s.heap
    ensures Sound(Register(s, a), ext)
  {
    RegisterKeepsRegistry(s, a);
    var s' := Register(s, a);
    assert SameEdges(s.heap, s'.heap);
    forall b | b in s'.heap ensures ExactAt(s'.heap, ext, b) && PointerFlagOk(s'.heap, b) && DeadOk(s', {}, b) {
      assert ExactAt(s.heap, ext, b) && PointerFlagOk(s.heap, b) && DeadOk(s, {}, b);
      RegisterObject(s, ext, a, b);
    }
    forall q, i, b ensures TargetLive(s'.heap, {}, q, i, b) {
      assert TargetLive(s.heap, {}, q, i, b);
    }
    assert Queue(s') == Queue(s);
    forall b | b in Queue(s') ensures QueuedOk(s', b) {
      assert QueuedOk(s, b);
    }
  }

  lemma AllocSound(s: Rt, ext: Owners, a: Addr, header: Header, rc: nat, length: nat)
    requires Sound(s, ext) && a !in s.heap && rc > 0 && Ext(ext, a) == 0
    ensures Sound(Alloc(s, a, header, rc, length), AddOwner(ext, a, rc))
  {
    var s2 := Put(s, a, NewObject(s, header, rc, length))
      .(cyclicAlloc := s.cyclicAlloc + if header.cyclic then 1 else 0);
    AllocPlain(s, s2, ext, a, header, rc, length);
    if header.cyclic && header.cyclicMutable {
      RegisterSound(s2, AddOwner(ext, a, rc), a);
    }
  }

  // ----- stores -----

  /** Take the content of a field out; an own reference passes to its reader. */
  function TakeOwners(s: Rt, ext: Owners, p: Addr, i: nat): Owners
    requires p in s.heap && i < |s.heap[p].slots|
  {
    if OwnsAt(s.heap[p], i) then AddOwner(ext, s.heap[p].slots[i].target, 1) else ext
  }

  ghost predicate SlotPut(s: Rt, s': Rt, p: Addr, i: nat, v: Slot) {
    p in s.heap && i < |s.heap[p].slots| && s' == SetSlot(s, p, i, v)
  }

  lemma SlotPutRest(s: Rt, s': Rt, ext: Owners, p: Addr, i: nat, v: Slot)
    requires Sound(s, ext) && SlotPut(s, s', p, i, v) && (v.Own? ==> s.heap[p].header.hasPointers)
    ensures RegistryOk(s') && PointersOk(s'.heap) && QueuesOk(s', {})
  {
    PutKeepsRegistry(s, s', p, s'.heap[p]);
    assert Queue(s') == Queue(s);
    forall b | b in Queue(s') ensures QueuedOk(s', b) {
      assert QueuedOk(s, b);
    }
    forall b | b in s'.heap ensures PointerFlagOk(s'.heap, b) && DeadOk(s', {}, b) {
      assert PointerFlagOk(s.heap, b) && DeadOk(s, {}, b);
      if b == p && !s.heap[p].header.hasPointers {
        forall j ensures !OwnsAt(s'.heap[p], j) {
          assert !OwnsAt(s.heap[p], j);
        }
      }
    }
  }

  lemma ClearEdges(s: Rt, s': Rt, p: Addr, i: nat, a: Addr)
    requires SlotPut(s, s', p, i, Null)
    ensures EdgesTo(s'.heap, {}, a) == EdgesTo(s.heap, {}, a) - {(p, i)}
  {
    forall e: (Addr, nat) ensures e in EdgesTo(s'.heap, {}, a) <==> e in EdgesTo(s.heap, {}, a) - {(p, i)} {
      assert e == (e.0, e.1);
    }
  }

  lemma ClearSound(s: Rt, ext: Owners, p: Addr, i: nat)
    requires Sound(s, ext) && p in s.heap && i < |s.heap[p].slots| && Holding(s.heap[p])
    ensures Sound(SetSlot(s, p, i, Null), TakeOwners(s, ext, p, i))
  {
    var s', ext' := SetSlot(s, p, i, Null), TakeOwners(s, ext, p, i);
    SlotPutRest(s, s', ext, p, i, Null);
    forall b | b in s'.heap ensures ExactAt(s'.heap, ext', b) {
      assert ExactAt(s.heap, ext, b);
      ClearEdges(s, s', p, i, b);
      assert (p, i) in EdgesTo(s.heap, {}, b) <==> OwnsTo(s.heap[p], i, b);
    }
    forall q, j, b ensures TargetLive(s'.heap, {}, q, j, b) {
      assert TargetLive(s.heap, {}, q, j, b);
    }
  }

  lemma FillEdges(s: Rt, s': Rt, p: Addr, i: nat, t: Addr, a: Addr)
    requires SlotPut(s, s', p, i, Own(t)) && !OwnsAt(s.heap[p], i) && IsRefField(s.heap[p].header.layout, i)
    requires Holding(s.heap[p])
    ensures EdgesTo(s'.heap, {}, a) == EdgesTo(s.heap, {}, a) + (if a == t then {(p, i)} else {})
    ensures (p, i) !in EdgesTo(s.heap, {}, a)
  {
    forall e: (Addr, nat)
      ensures e in EdgesTo(s'.heap, {}, a) <==> e in EdgesTo(s.heap, {}, a) + (if a == t then {(p, i)} else {})
    {
      assert e == (e.0, e.1);
    }
  }

  /** Hand an external reference to `t` over to an empty reference field. */
  lemma FillSound(s: Rt, ext: Owners, p: Addr, i: nat, t: Addr)
    requires Sound(s, ext) && p in s.heap && i < |s.heap[p].slots| && Holding(s.heap[p])
    requires !OwnsAt(s.heap[p], i) && IsRefField(s.heap[p].header.layout, i) && s.heap[p].header.hasPointers
    requires t in s.heap && Ext(ext, t) > 0
    ensures Sound(SetSlot(s, p, i, Own(t)), RemoveOwner(ext, t))
  {
    var s', ext' := SetSlot(s, p, i, Own(t)), RemoveOwner(ext, t);
    SlotPutRest(s, s', ext, p, i, Own(t));
    forall b | b in s'.heap ensures ExactAt(s'.heap, ext', b) {
      assert ExactAt(s.heap, ext, b);
      FillEdges(s, s', p, i, t, b);
    }
    forall q, j, b ensures TargetLive(s'.heap, {}, q, j, b) {
      assert TargetLive(s.heap, {}, q, j, b);
    }
  }

  // ----- mutation while a trace is pending -----

  /** Store an owned pointer into a field, then run the barrier. */
  function StoreOwn(s: Rt, p: Addr, own: bool, i: nat, t: Addr): Rt {
    Notify(SetSlot(SetSlot(s, p, i, Null), p, i, Own(t)), p, own, t)
  }

  /** What a program can touch: objects that it owns, directly or through others. */
  ghost predicate Reached(s: Rt, ext: Owners, a: Addr) {
    OwnedFromOutside(s.heap, ext, a)
  }

  ghost predicate StoreAllowed(s: Rt, ext: Owners, p: Addr, i: nat, t: Addr) {
    && Reached(s, ext, p) && p in s.heap && i < |s.heap[p].slots|
    && IsRefField(s.heap[p].header.layout, i) && s.heap[p].header.hasPointers
    && t in s.heap && Ext(ext, t) > 0
  }

  function StoreOwners(s: Rt, ext: Owners, p: Addr, i: nat, t: Addr): Owners
    requires p in s.heap && i < |s.heap[p].slots| && Ext(ext, t) > 0
  {
    RemoveOwner(TakeOwners(s, ext, p, i), t)
  }

  ghost predicate Pending(s: Rt) {
    s.tracingState == Tracing || s.tracingState == MutationPrepare
  }

  /** The store leaves the new edge covered. */
  ghost predicate BarrierCovers(s: Rt, p: Addr, own: bool, t: Addr) {
    && p in s.heap
    && (!Marked(s, p) || s.heap[p].rc == 0 || Marked(s, t) || t in s.work || p in s.mutations
        || (own && s.heap[p].header.traceable))
  }

  lemma StoreSound(s: Rt, ext: Owners, p: Addr, own: bool, i: nat, t: Addr)
    requires Sound(s, ext) && StoreAllowed(s, ext, p, i, t) && Holding(s.heap[p])
    ensures Sound(StoreOwn(s, p, own, i, t), StoreOwners(s, ext, p, i, t))
  {
    ClearSound(s, ext, p, i);
    var s1, ext1 := SetSlot(s, p, i, Null), TakeOwners(s, ext, p, i);
    FillSound(s1, ext1, p, i, t);
    var s2 := SetSlot(s1, p, i, Own(t));
    var s3 := StoreOwn(s, p, own, i, t);
    forall b | b in s2.heap
      ensures RecolouredAt(s2.heap, s3.heap, b) && (s2.heap[b].waitingRemove ==> s3.heap[b].tracing)
    {
      assert DeadOk(s2, {}, b);
    }
    RecolouredSound(s2, s3, StoreOwners(s, ext, p, i, t));
  }

  /** Equal but for slots, mark and count. */
  ghost predicate Rewritten(o: Obj, o': Obj) {
    o' == o.(slots := o'.slots, mark := o'.mark, rc := o'.rc)
  }

  lemma NotifyMarks(s: Rt, p: Addr, own: bool, t: Addr)
    requires p in s.heap && t in s.heap
    ensures var s' := Notify(s, p, own, t);
      && s' == s.(heap := s'.heap, mutations := s'.mutations)
      && s'.heap == s.heap[t := s.heap[t].(mark := s'.heap[t].mark)]
      && (s'.heap[t].mark == s.heap[t].mark || s'.heap[t].mark == s.bit)
      && (forall b :: b in s.mutations ==> b in s'.mutations)
      && (forall b :: b in s'.mutations ==> b in s.mutations || (b == t && Marked(s', t)))
  {
  }

  /** The holder after the store. */
  function Stored(o: Obj, i: nat, t: Addr): Obj
    requires i < |o.slots|
  {
    o.(slots := o.slots[i := Own(t)])
  }

  lemma StoreHeap(s: Rt, ext: Owners, p: Addr, own: bool, i: nat, t: Addr)
    requires StoreAllowed(s, ext, p, i, t)
    ensures StoreOwn(s, p, own, i, t) == Notify(Put(s, p, Stored(s.heap[p], i, t)), p, own, t)
  {
    SetSlotTwice(s, p, i, Null, Own(t));
  }

  lemma SetSlotTwice(s: Rt, p: Addr, i: nat, v: Slot, w: Slot)
    requires p in s.heap && i < |s.heap[p].slots|
    ensures SetSlot(SetSlot(s, p, i, v), p, i, w) == Put(s, p, s.heap[p].(slots := s.heap[p].slots[i := w]))
  {
    var o := s.heap[p];
    var s1 := SetSlot(s, p, i, v);
    assert s1.heap[p].slots[i := w] == o.slots[i := w];
    assert s1.heap[p := o.(slots := o.slots[i := w])] == s.heap[p := o.(slots := o.slots[i := w])];
  }

  lemma StoreEdges(s: Rt, ext: Owners, p: Addr, own: bool, i: nat, t: Addr)
    requires StoreAllowed(s, ext, p, i, t) && Holding(s.heap[p])
    ensures var s' := StoreOwn(s, p, own, i, t);
      && s' == s.(heap := s'.heap, mutations := s'.mutations)
      && s'.heap.Keys == s.heap.Keys
      && (forall b :: b in s.heap ==> Rewritten(s.heap[b], s'.heap[b]) && s'.heap[b].rc == s.heap[b].rc)
      && (forall q, j, c :: HoldsEdge(s'.heap, q, j, c) ==> HoldsEdge(s.heap, q, j, c) || (q == p && j == i && c == t))
      && HoldsEdge(s'.heap, p, i, t)
      && (forall b :: Marked(s, b) ==> Marked(s', b))
      && (forall b :: b in s.mutations ==> b in s'.mutations)
      && (forall b :: b in s'.mutations ==> b in s.mutations || (b == t && Marked(s', t)))
  {
    StoreHeap(s, ext, p, own, i, t);
    var s2 := Put(s, p, Stored(s.heap[p], i, t));
    StoredEdges(s, s2, p, i, t);
    NotifyMarks(s2, p, own, t);
    NotifyEdges(s2, p, own, t);
  }

  lemma NotifyEdges(s: Rt, p: Addr, own: bool, t: Addr)
    ensures forall q, j, c {:trigger HoldsEdge(Notify(s, p, own, t).heap, q, j, c)} ::
      HoldsEdge(Notify(s, p, own, t).heap, q, j, c) <==> HoldsEdge(s.heap, q, j, c)
  {
  }

  lemma StoredEdges(s: Rt, s2: Rt, p: Addr, i: nat, t: Addr)
    requires p in s.heap && Holding(s.heap[p]) && i < |s.heap[p].slots| && IsRefField(s.heap[p].header.layout, i)
    requires s2 == Put(s, p, Stored(s.heap[p], i, t))
    ensures HoldsEdge(s2.heap, p, i, t)
    ensures forall q, j, c :: HoldsEdge(s2.heap, q, j, c) ==>
        HoldsEdge(s.heap, q, j, c) || (q == p && j == i && c == t)
  {
  }

  lemma ReachedInUse(s: Rt, ext: Owners, a: Addr)
    requires Reached(s, ext, a)
    ensures InUse(s, ext, a)
  {
    var r := FromSome(OwnGraph(s.heap), Roots(s.heap, ext), a);
    assert r in Starts(s, ext);
  }

  /** What the program reaches is alive and whole. */
  lemma ReachedIsLive(s: Rt, ext: Owners, a: Addr)
    requires Sound(s, ext) && UsedWhole(s, ext) && Reached(s, ext, a)
    ensures a in s.heap && s.heap[a].rc > 0 && Holding(s.heap[a])
  {
    ReachedInUse(s, ext, a);
    assert WholeAt(s, a) && ExactAt(s.heap, ext, a) && DeadOk(s, {}, a);
    if a !in Roots(s.heap, ext) {
      var p := WalkEndPredecessor(OwnGraph(s.heap), Roots(s.heap, ext), a);
      var i := OwnEdgeField(s.heap, p, a);
      OwnedIsLive(s, ext, p, i, a);
    }
  }

  lemma FieldInUse(s: Rt, ext: Owners, p: Addr, i: nat, a: Addr)
    requires Reached(s, ext, p) && HoldsEdge(s.heap, p, i, a)
    ensures InUse(s, ext, a)
  {
    ReachedInUse(s, ext, p);
    OwnEdge(s.heap, p, i, a);
    ReachesEdge(OwnGraph(s.heap), p, a);
    FromRootsStep(OwnGraph(s.heap), Starts(s, ext), p, a);
  }

  /** A step that rewrites objects in place keeps the lists walkable if it hands out and connects
      only what was in use. */
  lemma MutatedWalks(s: Rt, s': Rt, ext: Owners, ext': Owners)
    requires WalkOk(s, ext) && Sound(s', ext') && UseStays(s, s', ext, ext', {})
    requires s'.heap.Keys == s.heap.Keys && s'.work == s.work && s'.bit == s.bit
    requires forall b :: b in s.heap ==> Rewritten(s.heap[b], s'.heap[b])
    requires forall b :: Marked(s, b) ==> Marked(s', b)
    requires forall b :: b in s'.mutations ==> b in s.mutations || (Marked(s', b) && s'.heap[b].rc > 0)
    requires forall b :: Ext(ext', b) > 0 ==> InUse(s, ext, b)
    ensures WalkOk(s', ext')
  {
    forall b ensures WorkAt(s', b) {
      assert WorkAt(s, b);
    }
    forall b | Ext(ext', b) > 0 ensures b in s'.heap {
      assert WholeAt(s, b);
    }
    WholeStays(s, s', ext, ext', {});
    forall b | b in s'.mutations ensures MutationAt(s', b) {
      assert b in s.mutations ==> MutationAt(s, b);
      assert b in s'.heap && DeadOk(s', {}, b);
    }
    forall b | b in s'.heap && s'.heap[b].waitingRemove ensures !s'.heap[b].candidate {
      assert s.heap[b].waitingRemove ==> !s.heap[b].candidate;
    }
  }

  lemma StoreWalks(s: Rt, ext: Owners, p: Addr, own: bool, i: nat, t: Addr)
    requires WalkOk(s, ext) && StoreAllowed(s, ext, p, i, t)
    ensures WalkOk(StoreOwn(s, p, own, i, t), StoreOwners(s, ext, p, i, t))
  {
    ReachedIsLive(s, ext, p);
    StoreSound(s, ext, p, own, i, t);
    StoreEdges(s, ext, p, own, i, t);
    var s', ext' := StoreOwn(s, p, own, i, t), StoreOwners(s, ext, p, i, t);
    StartInUse(s, ext, t, t);
    assert ExactAt(s.heap, ext, t);
    forall b | Ext(ext', b) > 0 || b in Starts(s', ext') ensures InUse(s, ext, b) {
      if b in Starts(s, ext) {
        StartInUse(s, ext, b, b);
      } else if b != t {
        FieldInUse(s, ext, p, i, b);
      }
    }
    MutatedWalks(s, s', ext, ext');
  }

  /** The tri-colour property survives a store exactly when the barrier covers the new
      edge: it does not when a live marked holder, reached through a borrowed pointer
      or not traceable, receives an unmarked object that is not queued. */
  lemma BarrierIff(s: Rt, ext: Owners, p: Addr, own: bool, i: nat, t: Addr)
    requires TraceOk(s, ext) && Pending(s) && StoreAllowed(s, ext, p, i, t)
    ensures TraceOk(StoreOwn(s, p, own, i, t), StoreOwners(s, ext, p, i, t)) <==> BarrierCovers(s, p, own, t)
  {
    var s' := StoreOwn(s, p, own, i, t);
    ReachedIsLive(s, ext, p);
    StoreWalks(s, ext, p, own, i, t);
    StoreEdges(s, ext, p, own, i, t);
    if BarrierCovers(s, p, own, t) {
      forall q, j, c ensures CoveredEdge(s', q, j, c) {
        assert CoveredEdge(s, q, j, c);
        StoreCovers(s, ext, p, own, i, t, q, j, c);
      }
    } else {
      assert !CoveredEdge(s', p, i, t);
    }
  }

  lemma ShareTrace(s: Rt, ext: Owners, a: Addr)
    requires TraceOk(s, ext) && Reached(s, ext, a)
    ensures WalkOk(Share(s, a), AddOwner(ext, a, 1)) && TriColour(Share(s, a))
  {
    var s' := Share(s, a);
    ReachedIsLive(s, ext, a);
    ShareWalks(s, ext, a);
    forall q, j, c ensures CoveredEdge(s', q, j, c) {
      assert CoveredEdge(s, q, j, c);
      assert HoldsEdge(s'.heap, q, j, c) == HoldsEdge(s.heap, q, j, c);
    }
  }

  lemma ShareWalks(s: Rt, ext: Owners, a: Addr)
    requires WalkOk(s, ext) && Reached(s, ext, a)
    ensures WalkOk(Share(s, a), AddOwner(ext, a, 1))
  {
    var s', ext' := Share(s, a), AddOwner(ext, a, 1);
    ReachedIsLive(s, ext, a);
    ReachedInUse(s, ext, a);
    ShareSound(s, ext, a);
    assert SameEdges(s.heap, s'.heap);
    forall b | Ext(ext', b) > 0 || b in Starts(s', ext') ensures InUse(s, ext, b) {
      if b in Starts(s, ext) {
        StartInUse(s, ext, b, b);
      }
    }
    MutatedWalks(s, s', ext, ext');
  }

  /** The drop leaves the object where it was, alive or queued for its release. */
  lemma DropWalks(s: Rt, ext: Owners, a: Addr)
    requires WalkOk(s, ext) && ImmediatesPlain(s.heap) && Ext(ext, a) > 0
    requires a in s.heap && (s.heap[a].rc > 1 || !s.heap[a].header.layout.MonoImm?)
    ensures WalkOk(Drop(s, a), RemoveOwner(ext, a))
  {
    assert ExactAt(s.heap, ext, a);
    DropSound(s, ext, a);
    DropInPlace(s, a);
    DroppedWalks(s, Drop(s, a), ext, a);
  }

  lemma DropInPlace(s: Rt, a: Addr)
    requires a in s.heap && s.heap[a].rc > 0 && (s.heap[a].rc > 1 || !s.heap[a].header.layout.MonoImm?)
    ensures var s' := Drop(s, a);
      && s' == s.(heap := s'.heap, waiting := s'.waiting)
      && s'.heap == s.heap[a := s.heap[a].(rc := s.heap[a].rc - 1, mark := s'.heap[a].mark)]
      && (s'.heap[a].mark == s.heap[a].mark || (s'.heap[a].mark == s.bit && s'.heap[a].rc == 0))
      && forall b :: b in s'.waiting ==> b in s.waiting || b == a
  {
  }

  lemma DropAtOnce(s: Rt, a: Addr)
    requires a in s.heap && s.heap[a].rc == 1 && s.heap[a].header.layout.MonoImm?
    ensures Drop(s, a) == s.(heap := s.heap - {a})
  {
    assert s.heap[a := s.heap[a].(rc := 0)] - {a} == s.heap - {a};
  }

  lemma DroppedWalks(s: Rt, s': Rt, ext: Owners, a: Addr)
    requires WalkOk(s, ext) && Ext(ext, a) > 0 && Sound(s', RemoveOwner(ext, a)) && a in s.heap && s.heap[a].rc > 0
    requires s' == s.(heap := s'.heap, waiting := s'.waiting)
    requires a in s'.heap
        && s'.heap == s.heap[a := s.heap[a].(rc := s.heap[a].rc - 1, mark := s'.heap[a].mark)]
    requires s'.heap[a].mark == s.heap[a].mark || s'.heap[a].mark == s.bit
    requires forall b :: b in s'.waiting ==> b in s.waiting || b == a
    ensures WalkOk(s', RemoveOwner(ext, a))
  {
    var ext' := RemoveOwner(ext, a);
    assert SameEdges(s.heap, s'.heap);
    forall b | Ext(ext', b) > 0 || b in Starts(s', ext') ensures InUse(s, ext, b) {
      StartInUse(s, ext, b, b);
    }
    MutatedWalks(s, s', ext, ext');
  }

  /** The object is freed at once; the lists must not name it. */
  lemma FreeingDropWalksIff(s: Rt, ext: Owners, a: Addr)
    requires WalkOk(s, ext) && ImmediatesPlain(s.heap) && Ext(ext, a) > 0
    requires a in s.heap && s.heap[a].rc == 1 && s.heap[a].header.layout.MonoImm?
    ensures WalkOk(Drop(s, a), RemoveOwner(ext, a)) <==> a !in s.work && a !in s.mutations
  {
    var s', ext' := Drop(s, a), RemoveOwner(ext, a);
    DropSound(s, ext, a);
    LastOwner(s, ext, a);
    DropAtOnce(s, a);
    if a in s.work {
      assert !WorkAt(s', a);
    } else if a in s.mutations {
      assert !MutationAt(s', a);
    } else {
      forall b ensures WorkAt(s', b) {
        assert WorkAt(s, b);
      }
      forall b | b in s'.mutations ensures MutationAt(s', b) {
        assert MutationAt(s, b);
      }
      forall b | b in Starts(s', ext') ensures InUse(s, ext, b) {
        StartInUse(s, ext, b, b);
      }
      WholeStays(s, s', ext, ext', {});
    }
  }

  /** The tri-colour property and the lists survive a drop exactly when it frees nothing that is still
      to be walked: the Tracing flag does not protect an object without fields from a direct free,
      and nothing protects the barrier's list. */
  lemma DropTraceIff(s: Rt, ext: Owners, a: Addr)
    requires TraceOk(s, ext) && ImmediatesPlain(s.heap) && a in s.heap && Ext(ext, a) > 0
    ensures TraceOk(Drop(s, a), RemoveOwner(ext, a)) <==>
        s.heap[a].rc > 1 || !s.heap[a].header.layout.MonoImm? || (a !in s.work && a !in s.mutations)
  {
    assert ExactAt(s.heap, ext, a);
    if s.heap[a].rc > 1 || !s.heap[a].header.layout.MonoImm? {
      DropWalks(s, ext, a);
    } else {
      FreeingDropWalksIff(s, ext, a);
    }
    forall q, j, c ensures CoveredEdge(Drop(s, a), q, j, c) {
      DropCovers(s, ext, a, q, j, c);
    }
  }

  lemma DropFreedCovers(s: Rt, ext: Owners, a: Addr, q: Addr, j: nat, c: Addr)
    requires Sound(s, ext) && a in s.heap && Ext(ext, a) > 0 && CoveredEdge(s, q, j, c)
    requires s.heap[a].rc == 1 && s.heap[a].header.layout.MonoImm?
    ensures CoveredEdge(Drop(s, a), q, j, c)
  {
    assert ExactAt(s.heap, ext, a);
    DropAtOnce(s, a);
    if HoldsEdge(s.heap, q, j, c) {
      EdgeIn(s.heap, {}, q, j, c);
    }
  }

  lemma DropCovers(s: Rt, ext: Owners, a: Addr, q: Addr, j: nat, c: Addr)
    requires Sound(s, ext) && a in s.heap && Ext(ext, a) > 0 && CoveredEdge(s, q, j, c)
    ensures CoveredEdge(Drop(s, a), q, j, c)
  {
    assert ExactAt(s.heap, ext, a);
    if s.heap[a].rc > 1 || !s.heap[a].header.layout.MonoImm? {
      DropInPlace(s, a);
      assert HoldsEdge(Drop(s, a).heap, q, j, c) ==> HoldsEdge(s.heap, q, j, c);
    } else {
      DropFreedCovers(s, ext, a, q, j, c);
    }
  }

  lemma AllocWalks(s: Rt, ext: Owners, a: Addr, header: Header, rc: nat, length: nat)
    requires WalkOk(s, ext) && a !in s.heap && rc > 0
    ensures WalkOk(Alloc(s, a, header, rc, length), AddOwner(ext, a, rc))
  {
    AllocSound(s, ext, a, header, rc, length);
    var s', ext' := Alloc(s, a, header, rc, length), AddOwner(ext, a, rc);
    forall b ensures WorkAt(s', b) {
      assert WorkAt(s, b);
    }
    forall b | b in s'.mutations ensures MutationAt(s', b) {
      assert MutationAt(s, b);
    }
    AllocStarts(s, ext, a, header, rc, length);
    forall b | b in s'.heap && s'.heap[b].waitingRemove ensures !s'.heap[b].candidate {
      assert b in s.heap && s.heap[b].waitingRemove;
    }
    WholeStays(s, s', ext, ext', {a});
  }

  lemma AllocStarts(s: Rt, ext: Owners, a: Addr, header: Header, rc: nat, length: nat)
    requires WalkOk(s, ext) && a !in s.heap && rc > 0
    ensures var s' := Alloc(s, a, header, rc, length);
      && (forall b :: b in Starts(s', AddOwner(ext, a, rc)) ==> InUse(s, ext, b) || b == a)
      && (forall q, i, b :: HoldsEdge(s'.heap, q, i, b) ==> q != a && HoldsEdge(s.heap, q, i, b))
  {
    var s', ext' := Alloc(s, a, header, rc, length), AddOwner(ext, a, rc);
    forall b | b in Starts(s', ext') ensures InUse(s, ext, b) || b == a {
      if b in Starts(s, ext) {
        StartInUse(s, ext, b, b);
      }
    }
  }

  lemma AllocTrace(s: Rt, ext: Owners, a: Addr, header: Header, rc: nat, length: nat)
    requires TraceOk(s, ext) && a !in s.heap && rc > 0
    ensures TraceOk(Alloc(s, a, header, rc, length), AddOwner(ext, a, rc))
  {
    AllocWalks(s, ext, a, header, rc, length);
    forall q, j, c ensures CoveredEdge(Alloc(s, a, header, rc, length), q, j, c) {
      assert CoveredEdge(s, q, j, c);
      AllocCovers(s, ext, a, header, rc, length, q, j, c);
    }
  }

  lemma AllocCovers(s: Rt, ext: Owners, a: Addr, header: Header, rc: nat, length: nat, q: Addr, j: nat, c: Addr)
    requires Sound(s, ext) && a !in s.heap && CoveredEdge(s, q, j, c)
    ensures CoveredEdge(Alloc(s, a, header, rc, length), q, j, c)
  {
    if HoldsEdge(s.heap, q, j, c) {
      OwnedIsLive(s, ext, q, j, c);
    }
  }

  lemma ClearWalks(s: Rt, ext: Owners, p: Addr, i: nat)
    requires WalkOk(s, ext) && Reached(s, ext, p) && p in s.heap && i < |s.heap[p].slots|
    ensures WalkOk(SetSlot(s, p, i, Null), TakeOwners(s, ext, p, i))
  {
    var s', ext' := SetSlot(s, p, i, Null), TakeOwners(s, ext, p, i);
    ReachedIsLive(s, ext, p);
    ClearSound(s, ext, p, i);
    forall b | Ext(ext', b) > 0 || b in Starts(s', ext') ensures InUse(s, ext, b) {
      if b in Starts(s, ext) {
        StartInUse(s, ext, b, b);
      } else {
        FieldInUse(s, ext, p, i, b);
      }
    }
    MutatedWalks(s, s', ext, ext');
  }

  lemma ClearTrace(s: Rt, ext: Owners, p: Addr, i: nat)
    requires TraceOk(s, ext) && Reached(s, ext, p) && p in s.heap && i < |s.heap[p].slots|
    ensures TraceOk(SetSlot(s, p, i, Null), TakeOwners(s, ext, p, i))
  {
    ClearWalks(s, ext, p, i);
    forall q, j, c ensures CoveredEdge(SetSlot(s, p, i, Null), q, j, c) {
      assert CoveredEdge(s, q, j, c);
      ClearCovers(s, p, i, q, j, c);
    }
  }

  lemma ClearCovers(s: Rt, p: Addr, i: nat, q: Addr, j: nat, c: Addr)
    requires p in s.heap && i < |s.heap[p].slots| && CoveredEdge(s, q, j, c)
    ensures CoveredEdge(SetSlot(s, p, i, Null), q, j, c)
  {
    assert HoldsEdge(SetSlot(s, p, i, Null).heap, q, j, c) ==> HoldsEdge(s.heap, q, j, c);
  }

  lemma StoreCovers(s: Rt, ext: Owners, p: Addr, own: bool, i: nat, t: Addr, q: Addr, j: nat, c: Addr)
    requires WalkOk(s, ext) && Pending(s) && StoreAllowed(s, ext, p, i, t) && BarrierCovers(s, p, own, t)
    requires CoveredEdge(s, q, j, c)
    ensures CoveredEdge(StoreOwn(s, p, own, i, t), q, j, c)
  {
    ReachedIsLive(s, ext, p);
    StoreEdges(s, ext, p, own, i, t);
  }

  /** What a release step leaves of the barrier's list. */
  ghost predicate SparesMutations(s: Rt, s': Rt) {
    forall a :: a in s.mutations ==> a in s'.heap && !s'.heap[a].waitingRemove
  }

  lemma ReleaseWalksIff(s: Rt, ext: Owners)
    requires WalkOk(s, ext) && s.releasing != []
    ensures TopWhole(s) && Sound(ReleaseStep(s), ext)
    ensures WalkOk(ReleaseStep(s), ext) <==> SparesMutations(s, ReleaseStep(s))
  {
    var s', a := ReleaseStep(s), s.releasing[|s.releasing| - 1];
    assert a in Queue(s) && QueuedOk(s, a);
    StartIsWhole(s, ext, a);
    ReleaseStepKeeps(s, ext, Kept({}, {}));
    ReleaseStepReleases(s, ext);
    ReleaseOwnedStay(s, ext);
    if SparesMutations(s, s') {
      ReleasedWalks(s, s', ext, a);
    } else {
      var b :| b in s.mutations && (b !in s'.heap || s'.heap[b].waitingRemove);
      assert !MutationAt(s', b);
    }
  }

  lemma ReleasedWalks(s: Rt, s': Rt, ext: Owners, a: Addr)
    requires WalkOk(s, ext) && Sound(s', ext) && Releases(s, s', a) && SparesMutations(s, s')
    requires a in s.releasing && (forall b :: b in s'.releasing ==> b in s.releasing) && OwnersLive(s'.heap, ext)
    ensures WalkOk(s', ext)
  {
    forall b ensures WorkAt(s', b) {
      assert WorkAt(s, b) && (b in s'.heap ==> SurvivesAs(s.heap[b], s'.heap[b], s.bit));
    }
    forall b | b in s'.mutations ensures MutationAt(s', b) {
      assert MutationAt(s, b) && SurvivesAs(s.heap[b], s'.heap[b], s.bit);
    }
    forall b | b in Starts(s', ext) ensures InUse(s, ext, b) {
      if b in Starts(s, ext) {
        StartInUse(s, ext, b, b);
      } else {
        NewlyWaiting(s, s', ext, a, b);
        assert a in Queue(s) && QueuedOk(s, a);
        StartInUse(s, ext, a, b);
      }
    }
    forall b | b in s'.heap && s'.heap[b].waitingRemove ensures !s'.heap[b].candidate {
      assert SurvivesAs(s.heap[b], s'.heap[b], s.bit) && (s.heap[b].waitingRemove ==> !s.heap[b].candidate);
    }
    WholeStays(s, s', ext, ext, {});
  }

  lemma ReleaseTraceIff(s: Rt, ext: Owners)
    requires TraceOk(s, ext) && s.releasing != []
    ensures TraceOk(ReleaseStep(s), ext) <==> SparesMutations(s, ReleaseStep(s))
  {
    var s', a := ReleaseStep(s), s.releasing[|s.releasing| - 1];
    ReleaseWalksIff(s, ext);
    ReleaseStepReleases(s, ext);
    forall p, i, c ensures CoveredEdge(s', p, i, c) {
      assert CoveredEdge(s, p, i, c);
      ReleaseCovers(s, s', ext, a, p, i, c);
    }
  }

  lemma ReleaseCovers(s: Rt, s': Rt, ext: Owners, a: Addr, p: Addr, i: nat, c: Addr)
    requires Sound(s, ext) && Sound(s', ext) && Releases(s, s', a) && CoveredEdge(s, p, i, c)
    ensures CoveredEdge(s', p, i, c)
  {
    if HoldsEdge(s'.heap, p, i, c) && Marked(s', p) && s'.heap[p].rc > 0 {
      assert SurvivesAs(s.heap[p], s'.heap[p], s.bit) && HoldsEdge(s.heap, p, i, c);
      assert TargetLive(s'.heap, {}, p, i, c) && SurvivesAs(s.heap[c], s'.heap[c], s.bit);
    }
  }

  // ----- every interleaving -----

  datatype Step =
    | MarkOne
    | PrepareOne
    | ReleaseOne
    | New(a: Addr, header: Header, rc: nat, length: nat)
    | Retain(a: Addr)
    | Give(a: Addr)
    | Take(p: Addr, i: nat)
    | Set(p: Addr, own: bool, i: nat, t: Addr)

  function Perform(s: Rt, step: Step): Rt {
    match step
    case MarkOne => TraceStep(s)
    case PrepareOne => PrepareStep(s)
    case ReleaseOne => ReleaseStep(s)
    case New(a, header, rc, length) => Alloc(s, a, header, rc, length)
    case Retain(a) => Share(s, a)
    case Give(a) => Drop(s, a)
    case Take(p, i) => SetSlot(s, p, i, Null)
    case Set(p, own, i, t) => StoreOwn(s, p, own, i, t)
  }

  /** What the mutator may do at any time: it touches what it reaches and gives away what it owns. */
  ghost predicate Permitted(s: Rt, ext: Owners, step: Step) {
    match step
    case MarkOne => false
    case PrepareOne => false
    case ReleaseOne => false
    case New(a, header, rc, length) => a !in s.heap && rc > 0 && (header.layout.MonoImm? ==> !header.cyclicMutable)
    case Retain(a) => Reached(s, ext, a)
    case Give(a) => a in s.heap && Ext(ext, a) > 0
    case Take(p, i) => Reached(s, ext, p) && p in s.heap && i < |s.heap[p].slots|
    case Set(p, own, i, t) => StoreAllowed(s, ext, p, i, t)
  }

  /** The drop frees nothing that is still to be walked. */
  ghost predicate DropSpares(s: Rt, a: Addr) {
    && a in s.heap
    && (s.heap[a].rc > 1 || !s.heap[a].header.layout.MonoImm? || (a !in s.work && a !in s.mutations))
  }

  /** What a step of a pending trace, or of the mutator and the releasing machine beside it, must heed. */
  ghost predicate Allowed(s: Rt, ext: Owners, step: Step) {
    match step
    case MarkOne => s.work != []
    case PrepareOne => s.mutations != []
    case ReleaseOne => s.releasing != [] && SparesMutations(s, ReleaseStep(s))
    case Give(a) => Permitted(s, ext, step) && DropSpares(s, a)
    case Set(p, own, i, t) => Permitted(s, ext, step) && BarrierCovers(s, p, own, t)
    case _ => Permitted(s, ext, step)
  }

  function PerformOwners(s: Rt, ext: Owners, step: Step): Owners {
    match step
    case MarkOne => ext
    case PrepareOne => ext
    case ReleaseOne => ext
    case New(a, header, rc, length) => AddOwner(ext, a, rc)
    case Retain(a) => AddOwner(ext, a, 1)
    case Give(a) => if Ext(ext, a) > 0 then RemoveOwner(ext, a) else ext
    case Take(p, i) => if p in s.heap && i < |s.heap[p].slots| then TakeOwners(s, ext, p, i) else ext
    case Set(p, own, i, t) =>
      if p in s.heap && i < |s.heap[p].slots| && Ext(ext, t) > 0 then StoreOwners(s, ext, p, i, t) else ext
  }

  ghost predicate PendingOk(s: Rt, ext: Owners) {
    TraceOk(s, ext) && Pending(s) && ImmediatesPlain(s.heap)
  }

  lemma PlainKept(s: Rt, ext: Owners, step: Step)
    requires WalkOk(s, ext) && ImmediatesPlain(s.heap) && Allowed(s, ext, step)
    ensures ImmediatesPlain(Perform(s, step).heap)
  {
    var s' := Perform(s, step);
    match step
    case MarkOne =>
      TraceStepWalks(s, ext);
      forall b | b in s'.heap
        ensures s'.heap[b].header == s.heap[b].header && s'.heap[b].candidate == s.heap[b].candidate
      {
        assert RecolouredAt(s.heap, s'.heap, b);
      }
    case PrepareOne =>
      PrepareStepWalks(s, ext);
      forall b | b in s'.heap
        ensures s'.heap[b].header == s.heap[b].header && s'.heap[b].candidate == s.heap[b].candidate
      {
        assert RecolouredAt(s.heap, s'.heap, b);
      }
    case ReleaseOne =>
      ReleaseWalksIff(s, ext);
      ReleaseStepReleases(s, ext);
      forall b | b in s'.heap && s'.heap[b].header.layout.MonoImm? ensures !s'.heap[b].candidate {
        assert SurvivesAs(s.heap[b], s'.heap[b], s.bit);
      }
    case _ => MutatorPlain(s, ext, step);
  }

  lemma NewPlain(s: Rt, a: Addr, header: Header, rc: nat, length: nat)
    requires ImmediatesPlain(s.heap) && a !in s.heap && (header.layout.MonoImm? ==> !header.cyclicMutable)
    ensures ImmediatesPlain(Alloc(s, a, header, rc, length).heap)
  {
  }

  lemma SlotPlain(s: Rt, p: Addr, i: nat, v: Slot)
    requires ImmediatesPlain(s.heap) && p in s.heap && i < |s.heap[p].slots|
    ensures ImmediatesPlain(SetSlot(s, p, i, v).heap)
  {
  }

  lemma MutatorPlain(s: Rt, ext: Owners, step: Step)
    requires ImmediatesPlain(s.heap) && Permitted(s, ext, step)
    ensures ImmediatesPlain(Perform(s, step).heap)
  {
    match step
    case New(a, header, rc, length) => NewPlain(s, a, header, rc, length);
    case Retain(a) =>
    case Give(a) => GivePlain(s, a);
    case Take(p, i) => SlotPlain(s, p, i, Null);
    case Set(p, own, i, t) =>
      StoreHeap(s, ext, p, own, i, t);
      NotifyMarks(Put(s, p, Stored(s.heap[p], i, t)), p, own, t);
  }

  lemma GivePlain(s: Rt, a: Addr)
    requires ImmediatesPlain(s.heap)
    ensures ImmediatesPlain(Drop(s, a).heap)
  {
    if a in s.heap && s.heap[a].rc == 1 && s.heap[a].header.layout.MonoImm? {
      DropAtOnce(s, a);
    } else if a in s.heap && s.heap[a].rc > 0 {
      DropInPlace(s, a);
    }
  }

  lemma ReleaseKeepsPending(s: Rt, ext: Owners)
    requires PendingOk(s, ext) && Allowed(s, ext, ReleaseOne)
    ensures PendingOk(Perform(s, ReleaseOne), ext)
  {
    PlainKept(s, ext, ReleaseOne);
    ReleaseTraceIff(s, ext);
    ReleaseWalksIff(s, ext);
    ReleaseStepReleases(s, ext);
  }

  lemma PerformKeeps(s: Rt, ext: Owners, step: Step)
    requires PendingOk(s, ext) && Allowed(s, ext, step)
    ensures PendingOk(Perform(s, step), PerformOwners(s, ext, step))
  {
    PlainKept(s, ext, step);
    match step
    case MarkOne => TraceStepKeeps(s, ext);
    case PrepareOne => PrepareStepKeeps(s, ext);
    case ReleaseOne => ReleaseKeepsPending(s, ext);
    case New(a, header, rc, length) => AllocTrace(s, ext, a, header, rc, length);
    case Retain(a) => ShareTrace(s, ext, a);
    case Give(a) => DropTraceIff(s, ext, a);
    case Take(p, i) => ClearTrace(s, ext, p, i);
    case Set(p, own, i, t) => BarrierIff(s, ext, p, own, i, t);
  }

  function PerformAll(s: Rt, steps: seq<Step>): Rt
    decreases |steps|
  {
    if steps == [] then s else PerformAll(Perform(s, steps[0]), steps[1..])
  }

  function PerformAllOwners(s: Rt, ext: Owners, steps: seq<Step>): Owners
    decreases |steps|
  {
    if steps == [] then ext
    else PerformAllOwners(Perform(s, steps[0]), PerformOwners(s, ext, steps[0]), steps[1..])
  }

  ghost predicate AllAllowed(s: Rt, ext: Owners, steps: seq<Step>)
    decreases |steps|
  {
    steps == []
    || (Allowed(s, ext, steps[0]) && AllAllowed(Perform(s, steps[0]), PerformOwners(s, ext, steps[0]), steps[1..]))
  }

  /** After any interleaving of marking and mutation, no live marked holder has an
      uncovered child, and once both lists are empty it owns only marked objects. */
  lemma {:induction false} TriColourAlways(s: Rt, ext: Owners, steps: seq<Step>)
    requires PendingOk(s, ext) && AllAllowed(s, ext, steps)
    ensures var t, extT := PerformAll(s, steps), PerformAllOwners(s, ext, steps);
      && PendingOk(t, extT) && TriColour(t)
      && (t.work == [] && t.mutations == [] ==>
            forall p, i, c :: HoldsEdge(t.heap, p, i, c) && Marked(t, p) && t.heap[p].rc > 0 ==> Marked(t, c))
    decreases |steps|
  {
    if steps == [] {
      forall p, i, c | s.work == [] && s.mutations == [] && HoldsEdge(s.heap, p, i, c) && Marked(s, p)
          && s.heap[p].rc > 0
        ensures Marked(s, c)
      {
        DrainedIsClosed(s, ext, p, i, c);
      }
    } else {
      PerformKeeps(s, ext, steps[0]);
      TriColourAlways(Perform(s, steps[0]), PerformOwners(s, ext, steps[0]), steps[1..]);
    }
  }
}
