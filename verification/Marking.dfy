/** Incremental two-colour marking from the tracing worklist. */
module Marking {
  import opened Graphs
  import opened Heap
  import opened Registry
  import opened Dismantle
  import opened Releasing

  function PushWork(s: Rt, a: Addr): Rt {
    if a !in s.heap then Fault(s)
    else if s.heap[a].tracing then s
    else Put(s, a, s.heap[a].(tracing := true)).(work := s.work + [a])
  }

  function PushFrom(s: Rt, o: Obj, i: nat): Rt
    decreases |o.slots| - i
  {
    if i >= |o.slots| then s
    else if OwnsAt(o, i) then PushFrom(PushWork(s, o.slots[i].target), o, i + 1)
    else PushFrom(s, o, i + 1)
  }

  function TraceStep(s: Rt): Rt {
    if s.work == [] then Fault(s)
    else
      var a := s.work[|s.work| - 1];
      var s1 := s.(work := s.work[..|s.work| - 1]);
      if a !in s1.heap then Fault(s1)
      else
        var o := s1.heap[a].(tracing := false);
        var s2 := Put(s1, a, o);
        if o.waitingRemove then s2.(heap := s2.heap - {a})
        else if o.rc == 0 || o.mark == s.bit then s2
        else
          PushFrom(Put(s2, a, o.(mark := s.bit)).(tracingBudget := s2.tracingBudget - WalkCost(o)), o, 0)
  }

  /** The mutation walk does not charge bitmap objects. */
  function PrepareCost(o: Obj): nat {
    if o.header.layout.MixedBitmap? then 0 else WalkCost(o)
  }

  function PrepareStep(s: Rt): Rt {
    if s.mutations == [] then Fault(s)
    else
      var a := s.mutations[|s.mutations| - 1];
      var s1 := s.(mutations := s.mutations[..|s.mutations| - 1]);
      if a !in s1.heap then Fault(s1)
      else
        var o := s1.heap[a];
        if o.waitingRemove then s1.(heap := s1.heap - {a})
        else PushFrom(s1.(tracingBudget := s1.tracingBudget - PrepareCost(o)), o, 0)
  }

  function PushRoots(s: Rt, roots: seq<Addr>): Rt
    decreases |roots|
  {
    if roots == [] then s else PushRoots(PushWork(s, roots[0]), roots[1..])
  }

  /** Toggle the generation, so that every object counts as unmarked, and collect the roots. */
  function StartTrace(s: Rt, roots: seq<Addr>): Rt {
    var s1 := PushRoots(
      s.(tracingState := Tracing, cyclicAllocAtTrace := s.cyclicAlloc, scan := |s.candidates|, bit := !s.bit), roots);
    if s1.work == [] && s1.mutations == [] then s1.(tracingState := Reclaiming) else s1
  }

  // ----- the invariants -----

  /** The tracing flag says exactly which objects are on the worklist, each once. */
  ghost predicate WorkOk(s: Rt) {
    && (forall i, j :: 0 <= i < j < |s.work| ==> s.work[i] != s.work[j])
    && (forall a {:trigger WorkAt(s, a)} :: WorkAt(s, a))
  }

  ghost predicate WorkAt(s: Rt, a: Addr) {
    a in s.work <==> a in s.heap && s.heap[a].tracing
  }

  /** The tri-colour property of one own reference: the target of a live marked
      holder is marked or queued, or the holder is still to be walked. */
  ghost predicate CoveredEdge(s: Rt, p: Addr, i: nat, c: Addr) {
    HoldsEdge(s.heap, p, i, c) && Marked(s, p) && s.heap[p].rc > 0 ==>
      Marked(s, c) || c in s.work || p in s.mutations
  }

  ghost predicate TriColour(s: Rt) {
    forall p, i, c {:trigger CoveredEdge(s, p, i, c)} :: CoveredEdge(s, p, i, c)
  }

  ghost predicate Intact(h: Store) {
    forall a {:trigger IntactAt(h, a)} :: a in h ==> IntactAt(h, a)
  }

  ghost predicate IntactAt(h: Store, a: Addr)
    requires a in h
  {
    Holding(h[a])
  }

  /** An object that waits for its removal has left the registry. */
  ghost predicate RemovedPlain(h: Store) {
    forall a {:trigger h[a].waitingRemove} :: a in h && h[a].waitingRemove ==> !h[a].candidate
  }

  /** Where chains of references in use start: external owners, the two walk lists and the two release lists. */
  ghost function Starts(s: Rt, ext: Owners): set<Addr> {
    set a | a in s.heap
        && (Ext(ext, a) > 0 || a in s.work || a in s.mutations || a in s.releasing || a in s.waiting)
  }

  ghost predicate InUse(s: Rt, ext: Owners, a: Addr) {
    FromRoots(OwnGraph(s.heap), Starts(s, ext), a)
  }

  ghost predicate WholeAt(s: Rt, a: Addr) {
    a in s.heap && !s.heap[a].childrenReleased
  }

  /** Nothing in use has been dismantled by a reclaim. */
  ghost predicate UsedWhole(s: Rt, ext: Owners) {
    forall a {:trigger WholeAt(s, a)} :: InUse(s, ext, a) ==> WholeAt(s, a)
  }

  ghost predicate OwnersLive(h: Store, ext: Owners) {
    forall a :: Ext(ext, a) > 0 ==> a in h
  }

  /** The barrier's list names marked objects whose memory is still in use. */
  ghost predicate MutationsOk(s: Rt) {
    forall a {:trigger MutationAt(s, a)} :: a in s.mutations ==> MutationAt(s, a)
  }

  ghost predicate MutationAt(s: Rt, a: Addr) {
    Marked(s, a) && !s.heap[a].waitingRemove
  }

  /** The lists of a pending trace can be walked. */
  ghost predicate WalkOk(s: Rt, ext: Owners) {
    && Sound(s, ext) && OwnersLive(s.heap, ext) && RemovedPlain(s.heap)
    && WorkOk(s) && MutationsOk(s) && UsedWhole(s, ext)
  }

  /** A pending trace over a heap with exact counts. */
  ghost predicate TraceOk(s: Rt, ext: Owners) {
    WalkOk(s, ext) && TriColour(s)
  }

  // ----- changes to marks and flags only -----

  /** Equal but for the mark and the tracing flag. */
  ghost predicate Recoloured(s: Rt, s': Rt) {
    && s' == s.(heap := s'.heap, work := s'.work, mutations := s'.mutations, tracingBudget := s'.tracingBudget,
                tracingState := s'.tracingState, bit := s'.bit, scan := s'.scan,
                cyclicAllocAtTrace := s'.cyclicAllocAtTrace)
    && s'.heap.Keys == s.heap.Keys
    && (forall a {:trigger RecolouredAt(s.heap, s'.heap, a)} :: a in s.heap ==> RecolouredAt(s.heap, s'.heap, a))
  }

  ghost predicate RecolouredAt(h: Store, h': Store, a: Addr)
    requires a in h
  {
    a in h' && h'[a] == h[a].(mark := h'[a].mark, tracing := h'[a].tracing)
  }

  lemma RecolouredTrans(s: Rt, t: Rt, u: Rt)
    requires Recoloured(s, t) && Recoloured(t, u)
    ensures Recoloured(s, u)
  {
    forall a | a in s.heap ensures RecolouredAt(s.heap, u.heap, a) {
      assert RecolouredAt(s.heap, t.heap, a) && RecolouredAt(t.heap, u.heap, a);
    }
  }

  lemma RecolouredEdges(s: Rt, s': Rt)
    requires Recoloured(s, s')
    ensures SameEdges(s.heap, s'.heap)
  {
    forall q, i, a ensures HoldsEdge(s.heap, q, i, a) <==> HoldsEdge(s'.heap, q, i, a) {
      if q in s.heap {
        assert RecolouredAt(s.heap, s'.heap, q);
      }
    }
  }

  lemma RecolouredObject(s: Rt, s': Rt, ext: Owners, a: Addr)
    requires Recoloured(s, s') && a in s.heap && SameEdges(s.heap, s'.heap)
    requires ExactAt(s.heap, ext, a) && PointerFlagOk(s.heap, a) && DeadOk(s, {}, a) && FlagOk(s, a)
    requires s.heap[a].waitingRemove ==> s'.heap[a].tracing
    ensures ExactAt(s'.heap, ext, a) && PointerFlagOk(s'.heap, a) && DeadOk(s', {}, a) && FlagOk(s', a)
  {
    assert RecolouredAt(s.heap, s'.heap, a);
    SameEdgesCounts(s.heap, s'.heap, {}, a);
    assert forall j :: OwnsAt(s.heap[a], j) == OwnsAt(s'.heap[a], j);
  }

  lemma RecolouredSound(s: Rt, s': Rt, ext: Owners)
    requires Sound(s, ext) && Recoloured(s, s')
    requires forall a :: a in s.heap && s.heap[a].waitingRemove ==> s'.heap[a].tracing
    ensures Sound(s', ext)
  {
    RecolouredEdges(s, s');
    forall a | a in s'.heap
      ensures ExactAt(s'.heap, ext, a) && PointerFlagOk(s'.heap, a) && DeadOk(s', {}, a) && FlagOk(s', a)
    {
      assert ExactAt(s.heap, ext, a) && PointerFlagOk(s.heap, a) && DeadOk(s, {}, a) && FlagOk(s, a);
      RecolouredObject(s, s', ext, a);
    }
    RecolouredLists(s, s', ext);
  }

  lemma RecolouredIntact(s: Rt, s': Rt)
    requires Recoloured(s, s') && Intact(s.heap)
    ensures Intact(s'.heap)
  {
    forall a | a in s'.heap ensures IntactAt(s'.heap, a) {
      assert IntactAt(s.heap, a) && RecolouredAt(s.heap, s'.heap, a);
    }
  }

  lemma RecolouredLists(s: Rt, s': Rt, ext: Owners)
    requires Sound(s, ext) && Recoloured(s, s') && SameEdges(s.heap, s'.heap)
    ensures TargetsLive(s'.heap, {})
    ensures forall i {:trigger EntryOk(s', i)} :: 0 <= i < |s'.candidates| ==> EntryOk(s', i)
    ensures forall a {:trigger QueuedOk(s', a)} :: a in Queue(s') ==> QueuedOk(s', a)
  {
    forall i | 0 <= i < |s'.candidates| ensures EntryOk(s', i) {
      assert EntryOk(s, i) && RecolouredAt(s.heap, s'.heap, s.candidates[i]);
    }
    forall q, i, a ensures TargetLive(s'.heap, {}, q, i, a) {
      assert TargetLive(s.heap, {}, q, i, a);
    }
    forall a | a in Queue(s') ensures QueuedOk(s', a) {
      assert QueuedOk(s, a) && RecolouredAt(s.heap, s'.heap, a);
    }
  }

  // ----- pushing -----

  /** Pushing flags and queues objects and does nothing else. */
  ghost predicate Pushed(s: Rt, s': Rt) {
    && s' == s.(heap := s'.heap, work := s'.work)
    && Recoloured(s, s') && WorkOk(s')
    && (forall a :: a in s.heap ==> s'.heap[a].mark == s.heap[a].mark)
    && (forall a :: a in s.work ==> a in s'.work)
  }

  lemma PushWorkFacts(s: Rt, a: Addr)
    requires WorkOk(s) && a in s.heap
    ensures Pushed(s, PushWork(s, a)) && a in PushWork(s, a).work
    ensures forall b :: b in PushWork(s, a).work ==> b in s.work || b == a
  {
    var s' := PushWork(s, a);
    assert WorkAt(s, a);
    forall b ensures WorkAt(s', b) {
      assert WorkAt(s, b);
    }
    forall b | b in s.heap ensures RecolouredAt(s.heap, s'.heap, b) {
    }
  }

  lemma PushedTrans(s: Rt, t: Rt, u: Rt)
    requires Pushed(s, t) && Pushed(t, u)
    ensures Pushed(s, u)
  {
    RecolouredTrans(s, t, u);
  }

  lemma {:induction false} PushFromFacts(s: Rt, o: Obj, i: nat)
    requires WorkOk(s) && RestLive(s.heap, o, i) && i <= |o.slots|
    ensures Pushed(s, PushFrom(s, o, i))
    ensures forall j, c :: i <= j && OwnsTo(o, j, c) ==> c in PushFrom(s, o, i).work
    ensures forall b :: b in PushFrom(s, o, i).work ==> b in s.work || exists j :: OwnsTo(o, j, b)
    decreases |o.slots| - i
  {
    if i == |o.slots| {
      forall b | b in s.heap ensures RecolouredAt(s.heap, s.heap, b) {
      }
    } else if OwnsAt(o, i) {
      var c := o.slots[i].target;
      assert OwnsTo(o, i, c);
      PushWorkFacts(s, c);
      var t := PushWork(s, c);
      PushFromFacts(t, o, i + 1);
      PushedTrans(s, t, PushFrom(s, o, i));
      forall j, b | i <= j && OwnsTo(o, j, b) ensures b in PushFrom(s, o, i).work {
        assert j == i || i + 1 <= j;
      }
    } else {
      PushFromFacts(s, o, i + 1);
      forall j, b | i <= j && OwnsTo(o, j, b) ensures b in PushFrom(s, o, i).work {
        assert j == i || i + 1 <= j;
      }
    }
  }

  lemma FieldsLive(s: Rt, ext: Owners, p: Addr)
    requires Sound(s, ext) && p in s.heap && Holding(s.heap[p])
    ensures RestLive(s.heap, s.heap[p], 0)
  {
    forall j: nat, a | 0 <= j && OwnsTo(s.heap[p], j, a) ensures a in s.heap {
      assert TargetLive(s.heap, {}, p, j, a);
    }
  }

  lemma OwnedIsLive(s: Rt, ext: Owners, p: Addr, i: nat, c: Addr)
    requires Sound(s, ext) && HoldsEdge(s.heap, p, i, c)
    ensures c in s.heap && s.heap[c].rc > 0
  {
    assert TargetLive(s.heap, {}, p, i, c);
    EdgeIn(s.heap, {}, p, i, c);
    assert ExactAt(s.heap, ext, c);
  }

  // ----- one marking step -----

  /** The state after the pop, with the popped object unflagged and perhaps marked. */
  lemma PoppedWork(s: Rt, t: Rt, a: Addr)
    requires WorkOk(s) && s.work != [] && a == s.work[|s.work| - 1] && a in s.heap
    requires t.work == s.work[..|s.work| - 1] && t.heap - {a} == s.heap - {a} && (a in t.heap ==> !t.heap[a].tracing)
    ensures WorkOk(t)
    ensures forall b :: b in s.work ==> b in t.work || b == a
  {
    assert s.work == t.work + [a];
    forall b ensures WorkAt(t, b) {
      assert WorkAt(s, b);
      assert b != a ==> (b in t.heap <==> b in t.heap - {a}) && (b in s.heap <==> b in s.heap - {a});
      assert b != a && b in t.heap ==> (t.heap - {a})[b] == (s.heap - {a})[b];
    }
  }

  /** What the step that pops `a` may change. */
  ghost predicate Walked(s: Rt, s': Rt, a: Addr)
    requires a in s.heap
  {
    && s' == s.(heap := s'.heap, work := s'.work, tracingBudget := s'.tracingBudget)
    && s'.heap.Keys == (if s.heap[a].waitingRemove then s.heap.Keys - {a} else s.heap.Keys)
    && (forall b {:trigger RecolouredAt(s.heap, s'.heap, b)} :: b in s'.heap ==> RecolouredAt(s.heap, s'.heap, b))
    && (forall b :: b in s'.heap && b != a ==> s'.heap[b].mark == s.heap[b].mark)
    && (a in s'.heap ==> s'.heap[a].mark == if s.heap[a].rc == 0 then s.heap[a].mark else s.bit)
    && (forall b :: b in s.work && b != a ==> b in s'.work)
    && (forall b :: b in s'.work ==> b in s.work || (s.heap[a].rc > 0 && Edge(OwnGraph(s.heap), a, b)))
    && (Marked(s, a) || s.heap[a].rc == 0 || forall j, c :: HoldsEdge(s.heap, a, j, c) ==> c in s'.work)
  }

  lemma WalkedEdges(s: Rt, s': Rt, a: Addr)
    requires a in s.heap && Walked(s, s', a)
    ensures SameEdges(s.heap, s'.heap)
  {
    forall q, i, b ensures HoldsEdge(s.heap, q, i, b) <==> HoldsEdge(s'.heap, q, i, b) {
      if q in s'.heap {
        assert RecolouredAt(s.heap, s'.heap, q);
      }
    }
  }

  ghost function Used(s: Rt, ext: Owners): set<Addr> {
    set a | a in s.heap && InUse(s, ext, a)
  }

  /** Apart from new objects, nothing comes into use if every start, and the target of every
      new edge, was in use before. */
  ghost predicate UseStays(s: Rt, s': Rt, ext: Owners, ext': Owners, born: set<Addr>) {
    && (forall q, i, c {:trigger HoldsEdge(s'.heap, q, i, c)} ::
          HoldsEdge(s'.heap, q, i, c) ==> q !in born && (HoldsEdge(s.heap, q, i, c) || InUse(s, ext, c)))
    && (forall c :: c in Starts(s', ext') ==> InUse(s, ext, c) || c in born)
  }

  lemma UseShrinks(s: Rt, s': Rt, ext: Owners, ext': Owners, born: set<Addr>, b: Addr)
    requires UsedWhole(s, ext) && UseStays(s, s', ext, ext', born) && InUse(s', ext', b)
    ensures InUse(s, ext, b) || b in born
  {
    var g, used := OwnGraph(s'.heap), Used(s, ext) + born;
    forall v, c | v in used && c in Successors(g, v) ensures c in used {
      var i := OwnEdgeField(s'.heap, v, c);
      if HoldsEdge(s.heap, v, i, c) {
        OwnEdge(s.heap, v, i, c);
        ReachesEdge(OwnGraph(s.heap), v, c);
        FromRootsStep(OwnGraph(s.heap), Starts(s, ext), v, c);
      }
      assert WholeAt(s, c);
    }
    var r := FromSome(g, Starts(s', ext'), b);
    assert InUse(s, ext, r) ==> WholeAt(s, r);
    ClosedContainsReach(g, used, r, b);
  }

  lemma WholeStays(s: Rt, s': Rt, ext: Owners, ext': Owners, born: set<Addr>)
    requires UsedWhole(s, ext) && TargetsLive(s'.heap, {}) && UseStays(s, s', ext, ext', born)
    requires forall b :: b in s'.heap && (b in s.heap ==> !s.heap[b].childrenReleased) ==> !s'.heap[b].childrenReleased
    requires forall b :: b in born ==> b !in s.heap
    ensures UsedWhole(s', ext')
  {
    forall b | InUse(s', ext', b) ensures WholeAt(s', b) {
      UseShrinks(s, s', ext, ext', born, b);
      ReachedInHeap(s'.heap, Starts(s', ext'), b);
      assert InUse(s, ext, b) ==> WholeAt(s, b);
    }
  }

  lemma FewerEdgesReach(h: Store, h': Store, from: set<Addr>, a: Addr)
    requires forall q, i, b :: HoldsEdge(h', q, i, b) ==> HoldsEdge(h, q, i, b)
    requires FromRoots(OwnGraph(h'), from, a)
    ensures FromRoots(OwnGraph(h), from, a)
  {
    var r := FromSome(OwnGraph(h'), from, a);
    var w :| WalkBetween(OwnGraph(h'), w, r, a);
    forall i | 0 < i < |w| ensures Edge(OwnGraph(h), w[i - 1], w[i]) {
      var j := OwnEdgeField(h', w[i - 1], w[i]);
      OwnEdge(h, w[i - 1], j, w[i]);
    }
    assert WalkBetween(OwnGraph(h), w, r, a);
  }

  lemma ReachedInHeap(h: Store, from: set<Addr>, a: Addr)
    requires FromRoots(OwnGraph(h), from, a) && TargetsLive(h, {}) && from <= h.Keys
    ensures a in h
  {
    var g := OwnGraph(h);
    forall v, c | v in h && c in Successors(g, v) ensures c in h {
      var i := OwnEdgeField(h, v, c);
      assert TargetLive(h, {}, v, i, c);
    }
    var r := FromSome(g, from, a);
    ClosedContainsReach(g, h.Keys, r, a);
  }

  lemma StartInUse(s: Rt, ext: Owners, a: Addr, b: Addr)
    requires a in Starts(s, ext) && (b == a || Edge(OwnGraph(s.heap), a, b))
    ensures InUse(s, ext, b)
  {
    ReachesRefl(OwnGraph(s.heap), a);
    if b != a {
      ReachesEdge(OwnGraph(s.heap), a, b);
    }
  }

  lemma StartIsWhole(s: Rt, ext: Owners, a: Addr)
    requires WalkOk(s, ext) && a in Starts(s, ext)
    ensures !s.heap[a].childrenReleased
  {
    StartInUse(s, ext, a, a);
    assert WholeAt(s, a);
  }

  lemma WalkedKeeps(s: Rt, s': Rt, ext: Owners, a: Addr)
    requires WalkOk(s, ext) && a in s.heap && a in s.work && Walked(s, s', a) && WorkOk(s') && Sound(s', ext)
    ensures WalkOk(s', ext)
  {
    WalkedEdges(s, s', a);
    forall b | Ext(ext, b) > 0 ensures b in s'.heap {
      assert ExactAt(s.heap, ext, b) && DeadOk(s, {}, b);
    }
    forall b | b in Starts(s', ext) ensures InUse(s, ext, b) {
      if b in Starts(s, ext) {
        StartInUse(s, ext, b, b);
      } else {
        StartInUse(s, ext, a, b);
      }
    }
    forall b | b in s'.heap
      ensures s'.heap[b].childrenReleased == s.heap[b].childrenReleased
          && (s'.heap[b].waitingRemove ==> !s'.heap[b].candidate)
    {
      assert RecolouredAt(s.heap, s'.heap, b) && (s.heap[b].waitingRemove ==> !s.heap[b].candidate);
    }
    WholeStays(s, s', ext, ext, {});
    forall b | b in s'.mutations ensures MutationAt(s', b) {
      assert MutationAt(s, b) && b in s'.heap && RecolouredAt(s.heap, s'.heap, b);
    }
  }

  /** The popped object was released while it was queued; now it is freed. */
  lemma TraceRemoves(s: Rt, s': Rt, ext: Owners, a: Addr)
    requires WalkOk(s, ext) && s.work != [] && a == s.work[|s.work| - 1] && a in s.heap && s.heap[a].waitingRemove
    requires s' == s.(work := s.work[..|s.work| - 1], heap := s.heap - {a})
    ensures Walked(s, s', a) && Sound(s', ext) && WorkOk(s')
  {
    PoppedWork(s, s', a);
    forall b | b in s'.heap ensures RecolouredAt(s.heap, s'.heap, b) {
    }
    assert DeadOk(s, {}, a);
    RemoveSound(s, s', ext, a);
  }

  lemma RemoveSound(s: Rt, s': Rt, ext: Owners, a: Addr)
    requires Sound(s, ext) && a in s.heap && s.heap[a].waitingRemove && !s.heap[a].candidate
    requires s' == s.(work := s'.work, heap := s.heap - {a})
    ensures Sound(s', ext)
  {
    assert DeadOk(s, {}, a) && ExactAt(s.heap, ext, a);
    assert SameEdges(s.heap, s'.heap);
    forall b | b in s'.heap
      ensures ExactAt(s'.heap, ext, b) && PointerFlagOk(s'.heap, b) && DeadOk(s', {}, b) && FlagOk(s', b)
    {
      assert ExactAt(s.heap, ext, b) && PointerFlagOk(s.heap, b) && DeadOk(s, {}, b) && FlagOk(s, b);
      SameEdgesCounts(s.heap, s'.heap, {}, b);
    }
    RemoveRest(s, s', ext, a);
  }

  lemma RemoveRest(s: Rt, s': Rt, ext: Owners, a: Addr)
    requires Sound(s, ext) && a in s.heap && s.heap[a].waitingRemove && !s.heap[a].candidate && s.heap[a].rc == 0
    requires s' == s.(work := s'.work, heap := s.heap - {a}) && ExactAt(s.heap, ext, a)
    ensures TargetsLive(s'.heap, {})
    ensures forall i {:trigger EntryOk(s', i)} :: 0 <= i < |s'.candidates| ==> EntryOk(s', i)
    ensures forall b {:trigger QueuedOk(s', b)} :: b in Queue(s') ==> QueuedOk(s', b)
  {
    forall i | 0 <= i < |s'.candidates| ensures EntryOk(s', i) {
      assert EntryOk(s, i);
    }
    forall q, i, b ensures TargetLive(s'.heap, {}, q, i, b) {
      assert TargetLive(s.heap, {}, q, i, b);
      if HoldsEdge(s.heap, q, i, b) && b == a {
        EdgeIn(s.heap, {}, q, i, a);
      }
    }
    assert Queue(s') == Queue(s);
    forall b | b in Queue(s') ensures QueuedOk(s', b) {
      assert QueuedOk(s, b);
    }
  }

  /** The popped object needs no walk: it is dead or marked already. */
  lemma TraceSkips(s: Rt, t: Rt, ext: Owners, a: Addr)
    requires WalkOk(s, ext) && s.work != [] && a == s.work[|s.work| - 1] && a in s.heap && !s.heap[a].waitingRemove
    requires t == Put(s.(work := s.work[..|s.work| - 1]), a, s.heap[a].(tracing := false))
    requires s.heap[a].rc == 0 || s.heap[a].mark == s.bit
    ensures Walked(s, t, a) && Sound(t, ext) && WorkOk(t)
  {
    PoppedWork(s, t, a);
    forall b | b in s.heap ensures RecolouredAt(s.heap, t.heap, b) && (s.heap[b].waitingRemove ==> t.heap[b].tracing) {
      assert DeadOk(s, {}, b);
    }
    RecolouredSound(s, t, ext);
  }

  /** The popped object is marked and its children are queued. */
  lemma TraceMarks(s: Rt, s3: Rt, ext: Owners, a: Addr, o: Obj)
    requires WalkOk(s, ext) && s.work != [] && a == s.work[|s.work| - 1] && a in s.heap && !s.heap[a].waitingRemove
    requires o == s.heap[a].(tracing := false) && s.heap[a].rc > 0 && !Marked(s, a)
    requires s3 == Put(s.(work := s.work[..|s.work| - 1], tracingBudget := s3.tracingBudget), a, o.(mark := s.bit))
    ensures var s' := PushFrom(s3, o, 0);
      Walked(s, s', a) && Sound(s', ext) && WorkOk(s')
  {
    var s' := PushFrom(s3, o, 0);
    StartIsWhole(s, ext, a);
    PoppedWork(s, s3, a);
    FieldsLive(s, ext, a);
    assert forall j: nat, c :: OwnsTo(o, j, c) == OwnsTo(s.heap[a], j, c);
    PushFromFacts(s3, o, 0);
    forall b | b in s.heap ensures RecolouredAt(s.heap, s3.heap, b) {
    }
    RecolouredTrans(s, s3, s');
    TraceMarksWork(s, s3, s', a, o);
    forall b | b in s.heap && s.heap[b].waitingRemove ensures s'.heap[b].tracing {
      assert DeadOk(s, {}, b) && WorkAt(s, b) && WorkAt(s', b);
    }
    RecolouredSound(s, s', ext);
  }

  lemma TraceMarksWork(s: Rt, s3: Rt, s': Rt, a: Addr, o: Obj)
    requires a in s.heap && o == s.heap[a].(tracing := false) && Holding(o) && s' == PushFrom(s3, o, 0)
    requires forall b :: b in s3.work ==> b in s.work
    requires forall b :: b in s'.work ==> b in s3.work || exists j :: OwnsTo(o, j, b)
    requires forall j, c :: 0 <= j && OwnsTo(o, j, c) ==> c in s'.work
    ensures forall b :: b in s'.work ==> b in s.work || Edge(OwnGraph(s.heap), a, b)
    ensures forall j, c :: HoldsEdge(s.heap, a, j, c) ==> c in s'.work
  {
    forall b | b in s'.work && b !in s3.work ensures Edge(OwnGraph(s.heap), a, b) {
      var j: nat :| OwnsTo(o, j, b);
      assert OwnsTo(s.heap[a], j, b);
      OwnEdge(s.heap, a, j, b);
    }
    forall j: nat, c | HoldsEdge(s.heap, a, j, c) ensures c in s'.work {
      assert OwnsTo(o, j, c);
    }
  }

  lemma TraceStepCase(s: Rt, ext: Owners, a: Addr)
    requires WalkOk(s, ext) && s.work != [] && a == s.work[|s.work| - 1] && a in s.heap
    ensures Walked(s, TraceStep(s), a) && Sound(TraceStep(s), ext) && WorkOk(TraceStep(s))
  {
    var o := s.heap[a].(tracing := false);
    var s2 := Put(s.(work := s.work[..|s.work| - 1]), a, o);
    if o.waitingRemove {
      assert s2.heap - {a} == s.heap - {a};
      assert TraceStep(s) == s.(work := s.work[..|s.work| - 1], heap := s.heap - {a});
      TraceRemoves(s, TraceStep(s), ext, a);
    } else if o.rc == 0 || o.mark == s.bit {
      assert TraceStep(s) == s2;
      TraceSkips(s, s2, ext, a);
    } else {
      var s3 := Put(s2, a, o.(mark := s.bit)).(tracingBudget := s2.tracingBudget - WalkCost(o));
      assert TraceStep(s) == PushFrom(s3, o, 0);
      assert s3.heap == s.heap[a := o.(mark := s.bit)];
      TraceMarks(s, s3, ext, a, o);
    }
  }

  /** A marking step keeps counts exact and the lists walkable, also when it meets released objects. */
  lemma TraceStepWalks(s: Rt, ext: Owners)
    requires WalkOk(s, ext) && s.work != []
    ensures s.work[|s.work| - 1] in s.heap && Walked(s, TraceStep(s), s.work[|s.work| - 1])
    ensures WalkOk(TraceStep(s), ext)
  {
    var a := s.work[|s.work| - 1];
    assert WorkAt(s, a);
    TraceStepCase(s, ext, a);
    WalkedKeeps(s, TraceStep(s), ext, a);
  }

  /** The step covers every edge that was covered before. */
  lemma WalkedCovers(s: Rt, s': Rt, ext: Owners, a: Addr, p: Addr, i: nat, c: Addr)
    requires Sound(s, ext) && a in s.heap && Walked(s, s', a) && CoveredEdge(s, p, i, c)
    ensures CoveredEdge(s', p, i, c)
  {
    WalkedEdges(s, s', a);
    if HoldsEdge(s'.heap, p, i, c) && Marked(s', p) && s'.heap[p].rc > 0 {
      assert RecolouredAt(s.heap, s'.heap, p);
      OwnedIsLive(s, ext, p, i, c);
      assert DeadOk(s, {}, c) && c in s'.heap;
    }
  }

  /** A marking step keeps counts exact and every live marked holder covered. */
  lemma TraceStepKeeps(s: Rt, ext: Owners)
    requires TraceOk(s, ext) && s.work != []
    ensures TraceOk(TraceStep(s), ext)
    ensures TraceStep(s).mutations == s.mutations && TraceStep(s).tracingState == s.tracingState
        && TraceStep(s).bit == s.bit
    ensures TraceStep(s).scan == s.scan && TraceStep(s).cyclicAllocAtTrace == s.cyclicAllocAtTrace
    ensures Intact(s.heap) ==> Recoloured(s, TraceStep(s))
  {
    TraceStepWalks(s, ext);
    var a, s' := s.work[|s.work| - 1], TraceStep(s);
    forall p, i, c ensures CoveredEdge(s', p, i, c) {
      assert CoveredEdge(s, p, i, c);
      WalkedCovers(s, s', ext, a, p, i, c);
    }
    if Intact(s.heap) {
      assert IntactAt(s.heap, a);
    }
  }

  /** What the prepare step that pops `a` may change. */
  ghost predicate Prepared(s: Rt, s': Rt, a: Addr)
    requires s.mutations != []
  {
    && s' == s.(heap := s'.heap, work := s'.work, mutations := s.mutations[..|s.mutations| - 1],
        tracingBudget := s'.tracingBudget)
    && Recoloured(s, s') && (forall b :: b in s.heap ==> s'.heap[b].mark == s.heap[b].mark)
    && (forall b :: b in s.work ==> b in s'.work)
    && (forall b :: b in s'.work ==> b in s.work || Edge(OwnGraph(s.heap), a, b))
    && (forall j, c :: HoldsEdge(s.heap, a, j, c) ==> c in s'.work)
  }

  /** A prepare step keeps counts exact and the lists walkable. */
  lemma PrepareStepWalks(s: Rt, ext: Owners)
    requires WalkOk(s, ext) && s.mutations != []
    ensures s.mutations[|s.mutations| - 1] in s.heap && Prepared(s, PrepareStep(s), s.mutations[|s.mutations| - 1])
    ensures WalkOk(PrepareStep(s), ext) && Unmarked(PrepareStep(s)) == Unmarked(s)
  {
    var n := |s.mutations| - 1;
    var a, s' := s.mutations[n], PrepareStep(s);
    assert s.mutations == s.mutations[..n] + [a];
    assert MutationAt(s, a);
    StartIsWhole(s, ext, a);
    var o := s.heap[a];
    var s1 := s.(mutations := s.mutations[..n], tracingBudget := s.tracingBudget - PrepareCost(o));
    FieldsLive(s, ext, a);
    forall b ensures WorkAt(s1, b) {
      assert WorkAt(s, b);
    }
    PushFromFacts(s1, o, 0);
    PrepareWork(s, s1, s', a);
    forall b | b in s.heap
      ensures RecolouredAt(s.heap, s'.heap, b) && (s.heap[b].waitingRemove ==> s'.heap[b].tracing)
    {
      assert RecolouredAt(s1.heap, s'.heap, b) && DeadOk(s, {}, b) && WorkAt(s, b) && WorkAt(s', b);
    }
    RecolouredSound(s, s', ext);
    PreparedKeeps(s, s', ext, a);
  }

  lemma PrepareWork(s: Rt, s1: Rt, s': Rt, a: Addr)
    requires a in s.heap && Holding(s.heap[a]) && s' == PushFrom(s1, s.heap[a], 0) && s1.work == s.work
    requires forall b :: b in s'.work ==> b in s1.work || exists j :: OwnsTo(s.heap[a], j, b)
    requires forall j, c :: 0 <= j && OwnsTo(s.heap[a], j, c) ==> c in s'.work
    ensures forall b :: b in s'.work ==> b in s.work || Edge(OwnGraph(s.heap), a, b)
    ensures forall j, c :: HoldsEdge(s.heap, a, j, c) ==> c in s'.work
  {
    forall b | b in s'.work && b !in s1.work ensures Edge(OwnGraph(s.heap), a, b) {
      var j: nat :| OwnsTo(s.heap[a], j, b);
      OwnEdge(s.heap, a, j, b);
    }
  }

  lemma PreparedKeeps(s: Rt, s': Rt, ext: Owners, a: Addr)
    requires WalkOk(s, ext) && s.mutations != [] && a == s.mutations[|s.mutations| - 1]
    requires Prepared(s, s', a) && WorkOk(s') && Sound(s', ext)
    ensures WalkOk(s', ext)
  {
    RecolouredEdges(s, s');
    assert MutationAt(s, a);
    forall b | b in Starts(s', ext) ensures InUse(s, ext, b) {
      if b in Starts(s, ext) {
        StartInUse(s, ext, b, b);
      } else {
        StartInUse(s, ext, a, b);
      }
    }
    forall b | b in s'.heap
      ensures s'.heap[b].childrenReleased == s.heap[b].childrenReleased
          && (s'.heap[b].waitingRemove ==> !s'.heap[b].candidate)
    {
      assert RecolouredAt(s.heap, s'.heap, b) && (s.heap[b].waitingRemove ==> !s.heap[b].candidate);
    }
    WholeStays(s, s', ext, ext, {});
    forall b | b in s'.mutations ensures MutationAt(s', b) {
      assert b in s.mutations && MutationAt(s, b) && RecolouredAt(s.heap, s'.heap, b);
    }
  }

  lemma PreparedCovers(s: Rt, s': Rt, a: Addr, p: Addr, i: nat, c: Addr)
    requires s.mutations != [] && a == s.mutations[|s.mutations| - 1] && Prepared(s, s', a) && CoveredEdge(s, p, i, c)
    ensures CoveredEdge(s', p, i, c)
  {
    RecolouredEdges(s, s');
    assert s.mutations == s.mutations[..|s.mutations| - 1] + [a];
    if HoldsEdge(s'.heap, p, i, c) && p in s.heap {
      assert RecolouredAt(s.heap, s'.heap, p);
    }
  }

  /** So does a prepare step. */
  lemma PrepareStepKeeps(s: Rt, ext: Owners)
    requires TraceOk(s, ext) && s.mutations != []
    ensures TraceOk(PrepareStep(s), ext) && Recoloured(s, PrepareStep(s))
    ensures PrepareStep(s).mutations == s.mutations[..|s.mutations| - 1]
    ensures PrepareStep(s).tracingState == s.tracingState && PrepareStep(s).bit == s.bit
    ensures PrepareStep(s).scan == s.scan && PrepareStep(s).cyclicAllocAtTrace == s.cyclicAllocAtTrace
    ensures Unmarked(PrepareStep(s)) == Unmarked(s)
  {
    PrepareStepWalks(s, ext);
    forall p, i, c ensures CoveredEdge(PrepareStep(s), p, i, c) {
      assert CoveredEdge(s, p, i, c);
      PreparedCovers(s, PrepareStep(s), s.mutations[|s.mutations| - 1], p, i, c);
    }
  }

  /** When both lists have drained, live marked objects own only marked objects. */
  lemma DrainedIsClosed(s: Rt, ext: Owners, p: Addr, i: nat, c: Addr)
    requires TraceOk(s, ext) && s.work == [] && s.mutations == []
    requires Marked(s, p) && s.heap[p].rc > 0 && HoldsEdge(s.heap, p, i, c)
    ensures Marked(s, c)
  {
    assert CoveredEdge(s, p, i, c);
  }

  // ----- exactness, whatever has happened to the trace before -----

  /** What the rest of the trace starts from: live objects that are marked or queued, and the barrier's list. */
  ghost function Shades(s: Rt): set<Addr> {
    set a | a in s.heap && (a in s.mutations || (s.heap[a].rc > 0 && (Marked(s, a) || a in s.work)))
  }

  ghost predicate Shaded(s: Rt, a: Addr) {
    FromRoots(OwnGraph(s.heap), Shades(s), a)
  }

  /** Shading carries over along a step if each shade of the one state is shaded, or dead and without
      need, in the other. */
  lemma ShadedCarries(s: Rt, t: Rt, x: Addr)
    requires SameEdges(s.heap, t.heap) && Shaded(s, x)
    requires forall a :: a in Shades(s) ==>
        Shaded(t, a) || (a != x && forall c :: Edge(OwnGraph(t.heap), a, c) ==> Shaded(t, c))
    ensures Shaded(t, x)
  {
    var g := OwnGraph(t.heap);
    var r := FromSome(OwnGraph(s.heap), Shades(s), x);
    assert FromRoots(OwnGraph(s.heap), {r}, x);
    FewerEdgesReach(t.heap, s.heap, {r}, x);
    var r' := FromSome(g, {r}, x);
    if Shaded(t, r) {
      FromRootsStep(g, Shades(t), r, x);
    } else {
      var _, c := ExitPoint(g, {r}, r, x);
      FromRootsStep(g, Shades(t), c, x);
    }
  }

  lemma ShadeIsShaded(s: Rt, a: Addr)
    requires a in Shades(s)
    ensures Shaded(s, a)
  {
    ReachesRefl(OwnGraph(s.heap), a);
  }

  lemma ChildIsShaded(s: Rt, a: Addr, c: Addr)
    requires Shaded(s, a) && Edge(OwnGraph(s.heap), a, c)
    ensures Shaded(s, c)
  {
    ReachesEdge(OwnGraph(s.heap), a, c);
    FromRootsStep(OwnGraph(s.heap), Shades(s), a, c);
  }

  /** A marking step shades nothing new and forgets nothing. */
  lemma TraceStepShades(s: Rt, ext: Owners, x: Addr)
    requires WalkOk(s, ext) && s.work != [] && x in s.heap && s.heap[x].rc > 0
    ensures Shaded(TraceStep(s), x) <==> Shaded(s, x)
  {
    var a, s' := s.work[|s.work| - 1], TraceStep(s);
    TraceStepWalks(s, ext);
    WalkedEdges(s, s', a);
    assert DeadOk(s, {}, a);
    if Shaded(s, x) {
      forall b | b in Shades(s) ensures Shaded(s', b) {
        if b in s.mutations {
          assert MutationAt(s, b);
        }
        assert b in s'.heap && RecolouredAt(s.heap, s'.heap, b);
        assert b in Shades(s');
        ShadeIsShaded(s', b);
      }
      ShadedCarries(s, s', x);
    }
    if Shaded(s', x) {
      forall b | b in Shades(s') ensures Shaded(s, b) {
        TraceShadesBack(s, s', ext, a, b);
      }
      ShadedCarries(s', s, x);
    }
  }

  lemma TraceShadesBack(s: Rt, s': Rt, ext: Owners, a: Addr, b: Addr)
    requires Sound(s, ext) && a in s.heap && a in s.work && Walked(s, s', a) && b in Shades(s')
    ensures Shaded(s, b)
  {
    assert RecolouredAt(s.heap, s'.heap, b);
    if b in Shades(s) {
      ShadeIsShaded(s, b);
    } else if b != a {
      ShadeIsShaded(s, a);
      ChildIsShaded(s, a, b);
    }
  }

  /** Nor does a prepare step: a dead object on the barrier's list leaves its shade to its children. */
  lemma PrepareStepShades(s: Rt, ext: Owners, x: Addr)
    requires WalkOk(s, ext) && s.mutations != [] && x in s.heap && s.heap[x].rc > 0
    ensures Shaded(PrepareStep(s), x) <==> Shaded(s, x)
  {
    var a, s' := s.mutations[|s.mutations| - 1], PrepareStep(s);
    PrepareStepWalks(s, ext);
    RecolouredEdges(s, s');
    assert s.mutations == s.mutations[..|s.mutations| - 1] + [a];
    if Shaded(s, x) {
      forall b | b in Shades(s)
        ensures Shaded(s', b) || (b != x && forall c :: Edge(OwnGraph(s'.heap), b, c) ==> Shaded(s', c))
      {
        PrepareShadesOn(s, s', ext, a, b);
      }
      ShadedCarries(s, s', x);
    }
    if Shaded(s', x) {
      forall b | b in Shades(s') ensures Shaded(s, b) {
        PrepareShadesBack(s, s', a, b);
      }
      ShadedCarries(s', s, x);
    }
  }

  lemma PrepareShadesOn(s: Rt, s': Rt, ext: Owners, a: Addr, b: Addr)
    requires WalkOk(s, ext) && s.mutations != [] && a == s.mutations[|s.mutations| - 1] && Prepared(s, s', a)
    requires WalkOk(s', ext) && SameEdges(s.heap, s'.heap) && b in Shades(s)
    ensures Shaded(s', b) || (s.heap[b].rc == 0 && forall c :: Edge(OwnGraph(s'.heap), b, c) ==> Shaded(s', c))
  {
    assert s.mutations == s.mutations[..|s.mutations| - 1] + [a];
    assert RecolouredAt(s.heap, s'.heap, b) && (b in s.mutations ==> MutationAt(s, b));
    if b == a && s.heap[a].rc == 0 {
      forall c | Edge(OwnGraph(s'.heap), a, c) ensures Shaded(s', c) {
        var i := OwnEdgeField(s'.heap, a, c);
        OwnedIsLive(s', ext, a, i, c);
        assert HoldsEdge(s.heap, a, i, c) && c in Shades(s');
        ShadeIsShaded(s', c);
      }
    } else {
      assert b in Shades(s');
      ShadeIsShaded(s', b);
    }
  }

  lemma PrepareShadesBack(s: Rt, s': Rt, a: Addr, b: Addr)
    requires s.mutations != [] && a == s.mutations[|s.mutations| - 1] && Prepared(s, s', a) && b in Shades(s')
    requires MutationsOk(s)
    ensures Shaded(s, b)
  {
    assert s.mutations == s.mutations[..|s.mutations| - 1] + [a];
    assert RecolouredAt(s.heap, s'.heap, b) && MutationAt(s, a);
    if b in Shades(s) {
      ShadeIsShaded(s, b);
    } else {
      ShadeIsShaded(s, a);
      ChildIsShaded(s, a, b);
    }
  }

  /** Once both lists are empty, the live marked objects are the live shaded ones. */
  lemma DrainedMarksShaded(s: Rt, ext: Owners, x: Addr)
    requires TraceOk(s, ext) && s.work == s.mutations == [] && x in s.heap && s.heap[x].rc > 0
    ensures Marked(s, x) <==> Shaded(s, x)
  {
    var g, live := OwnGraph(s.heap), Shades(s);
    if Marked(s, x) {
      ShadeIsShaded(s, x);
    } else if Shaded(s, x) {
      var r := FromSome(g, live, x);
      var p, c := ExitPoint(g, live, r, x);
      var i := OwnEdgeField(s.heap, p, c);
      OwnedIsLive(s, ext, p, i, c);
      DrainedIsClosed(s, ext, p, i, c);
    }
  }

  // ----- exactness of an undisturbed trace -----

  ghost predicate OnlyReached(s: Rt, ext: Owners) {
    forall a :: Marked(s, a) || a in s.work ==> OwnedFromOutside(s.heap, ext, a)
  }

  ghost predicate RootsCovered(s: Rt, ext: Owners) {
    forall r :: r in Roots(s.heap, ext) ==> Marked(s, r) || r in s.work
  }

  /** A pending trace that no mutator has disturbed since the roots were collected. */
  ghost predicate MarkingOk(s: Rt, ext: Owners) {
    TraceOk(s, ext) && Intact(s.heap) && s.mutations == [] && OnlyReached(s, ext) && RootsCovered(s, ext)
  }

  lemma RecolouredGraph(s: Rt, s': Rt, ext: Owners)
    requires Recoloured(s, s')
    ensures OwnGraph(s'.heap) == OwnGraph(s.heap) && Roots(s'.heap, ext) == Roots(s.heap, ext)
  {
    forall a | a in s.heap ensures OwnTargets(s'.heap[a]) == OwnTargets(s.heap[a]) {
      assert RecolouredAt(s.heap, s'.heap, a);
      forall i | 0 <= i < |s.heap[a].slots| ensures OwnsAt(s.heap[a], i) == OwnsAt(s'.heap[a], i) {
      }
    }
    forall a ensures a in Roots(s'.heap, ext) <==> a in Roots(s.heap, ext) {
      if a in s.heap {
        assert RecolouredAt(s.heap, s'.heap, a);
      }
    }
  }

  ghost function Unmarked(s: Rt): set<Addr> {
    set a | a in s.heap && !Marked(s, a)
  }

  /** A marking step marks an object, frees one, or shortens the worklist. */
  lemma TraceStepLess(s: Rt, ext: Owners)
    requires WalkOk(s, ext) && s.work != []
    ensures var s' := TraceStep(s);
      Unmarked(s') < Unmarked(s) || (Unmarked(s') == Unmarked(s) && |s'.work| < |s.work|)
  {
    var a, s' := s.work[|s.work| - 1], TraceStep(s);
    TraceStepWalks(s, ext);
    if s.heap[a].waitingRemove {
      assert a in Unmarked(s) ==> Unmarked(s') == Unmarked(s) - {a};
      assert a !in Unmarked(s) ==> Unmarked(s') == Unmarked(s);
    } else if s.heap[a].rc == 0 || Marked(s, a) {
      assert Unmarked(s') == Unmarked(s);
    } else {
      assert Unmarked(s') == Unmarked(s) - {a};
    }
  }

  lemma TraceStepExact(s: Rt, ext: Owners)
    requires MarkingOk(s, ext) && s.work != []
    ensures MarkingOk(TraceStep(s), ext) && Recoloured(s, TraceStep(s))
  {
    var a, s' := s.work[|s.work| - 1], TraceStep(s);
    TraceStepKeeps(s, ext);
    TraceStepWalks(s, ext);
    RecolouredIntact(s, s');
    RecolouredGraph(s, s', ext);
    forall b | Marked(s', b) || b in s'.work ensures OwnedFromOutside(s'.heap, ext, b) {
      assert OwnedFromOutside(s.heap, ext, a);
      if b !in s.work && !Marked(s, b) {
        ReachesEdge(OwnGraph(s.heap), a, b);
        FromRootsStep(OwnGraph(s.heap), Roots(s.heap, ext), a, b);
      }
    }
    forall r | r in Roots(s'.heap, ext) ensures Marked(s', r) || r in s'.work {
      assert r in Roots(s.heap, ext) && ExactAt(s.heap, ext, r);
    }
  }

  /** Mark until the worklist is empty. */
  ghost function TraceAll(s: Rt, ext: Owners): Rt
    requires MarkingOk(s, ext)
    decreases |Unmarked(s)|, |s.work|
  {
    if s.work == [] then s
    else
      TraceStepExact(s, ext);
      TraceMeasure(s, ext);
      TraceAll(TraceStep(s), ext)
  }

  lemma TraceMeasure(s: Rt, ext: Owners)
    requires WalkOk(s, ext) && s.work != []
    ensures var s' := TraceStep(s);
      |Unmarked(s')| < |Unmarked(s)| || (|Unmarked(s')| == |Unmarked(s)| && |s'.work| < |s.work|)
  {
    TraceStepLess(s, ext);
    if Unmarked(TraceStep(s)) < Unmarked(s) {
      ProperSubsetSmaller(Unmarked(TraceStep(s)), Unmarked(s));
    }
  }

  /** An undisturbed trace marks exactly what the external owners reach. */
  lemma {:induction false} TraceAllExact(s: Rt, ext: Owners)
    requires MarkingOk(s, ext)
    ensures var t := TraceAll(s, ext);
      && MarkingOk(t, ext) && t.work == [] && Recoloured(s, t) && t.bit == s.bit && t.scan == s.scan
      && (forall a :: a in t.heap ==> (Marked(t, a) <==> OwnedFromOutside(s.heap, ext, a)))
    decreases |Unmarked(s)|, |s.work|
  {
    if s.work == [] {
      forall b | b in s.heap ensures RecolouredAt(s.heap, s.heap, b) {
      }
      forall a | a in s.heap && OwnedFromOutside(s.heap, ext, a) ensures Marked(s, a) {
        MarkedReach(s, ext, a);
      }
    } else {
      TraceStepExact(s, ext);
      TraceMeasure(s, ext);
      TraceStepKeeps(s, ext);
      var s' := TraceStep(s);
      TraceAllExact(s', ext);
      RecolouredTrans(s, s', TraceAll(s, ext));
      RecolouredGraph(s, s', ext);
    }
  }

  /** With both lists empty, whatever an external owner reaches is marked. */
  lemma MarkedReach(s: Rt, ext: Owners, a: Addr)
    requires TraceOk(s, ext) && RootsCovered(s, ext) && s.work == [] && s.mutations == []
    requires OwnedFromOutside(s.heap, ext, a)
    ensures Marked(s, a)
  {
    var g := OwnGraph(s.heap);
    var r :| r in Roots(s.heap, ext) && Reaches(g, r, a);
    var live := set b | b in s.heap && Marked(s, b) && s.heap[b].rc > 0;
    assert ExactAt(s.heap, ext, r);
    if a !in live {
      var x, y := ExitPoint(g, live, r, a);
      var i := OwnEdgeField(s.heap, x, y);
      OwnedIsLive(s, ext, x, i, y);
      DrainedIsClosed(s, ext, x, i, y);
    }
  }
}
