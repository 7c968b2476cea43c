/** The tracing state machine: when nothing mutates the heap during a collection, it leaves exactly
    what the external owners and the release lists hold. */
module Collector {
  import opened Graphs
  import opened Heap
  import opened Registry
  import opened Dismantle
  import opened Releasing
  import opened LostCycles
  import opened ReclaimResult
  import opened Marking
  import opened Mutator

  /** One turn of the tracing loop. `due` stands for the memory and ratio thresholds,
      `roots` for what the stack walk decodes. */
  function TracingTurn(s: Rt, due: bool, roots: seq<Addr>): Turn {
    if s.tracingBudget <= 0 then Stop
    else match s.tracingState
      case TracingIdle =>
        if due && s.cyclicAlloc > s.cyclicAllocAtTrace then Next(StartTrace(s, roots)) else Stop
      case Tracing =>
        var t := TraceStep(s);
        Next(
          if t.work == [] && t.mutations == [] then t.(tracingState := Reclaiming)
          else if t.mutations != [] then t.(tracingState := MutationPrepare)
          else t)
      case MutationPrepare =>
        Next(
          if s.mutations == [] then s.(tracingState := if s.work != [] then Tracing else Reclaiming)
          else PrepareStep(s))
      case Reclaiming =>
        Next(if ReclaimDone(s) then s.(tracingState := TracingIdle) else ReclaimStep(s))
  }

  /** Between collections: counts exact, lists empty, and every object carries the current mark. */
  ghost predicate IdleOk(s: Rt, ext: Owners) {
    && Sound(s, ext) && Intact(s.heap) && OwnersLive(s.heap, ext) && WorkOk(s)
    && s.work == s.mutations == s.lost == [] && s.scan == 0
    && s.tracingState == TracingIdle
    && (forall a :: a in s.heap ==> Marked(s, a))
  }

  /** The roots handed to the trace are exactly the externally owned objects. */
  ghost predicate RootsAre(s: Rt, ext: Owners, roots: seq<Addr>) {
    forall a :: a in roots <==> a in Roots(s.heap, ext)
  }

  /** No candidate that the owners do not reach owns itself or is on a release list. */
  ghost predicate CleanStart(s: Rt, ext: Owners) {
    forall a :: a in s.heap && s.heap[a].candidate && !OwnedFromOutside(s.heap, ext, a) ==>
        CountFrom(s.heap[a], 0, a) == 0 && a !in Waiting(s)
  }

  /** A finished trace: marked means owned from outside. */
  ghost predicate Traced(s: Rt, ext: Owners) {
    && ReclaimOk(s, ext) && CleanCandidates(s) && NoneReleased(s.heap) && s.lost == []
    && forall a :: a in s.heap ==> (Marked(s, a) <==> OwnedFromOutside(s.heap, ext, a))
  }

  /** A collection begun in `base` with no mutation since; `traced` is the state its trace ended in. */
  ghost predicate CycleOk(s: Rt, ext: Owners, base: Rt, traced: Rt) {
    match s.tracingState
    case Tracing => CycleTracing(s, ext, base) && s.work != []
    case MutationPrepare => false
    case Reclaiming => CycleReclaiming(s, ext, base, traced)
    case TracingIdle => CycleReclaiming(s, ext, base, traced) && ReclaimDone(s)
  }

  ghost predicate CycleTracing(s: Rt, ext: Owners, base: Rt) {
    && MarkingOk(s, ext) && Recoloured(base, s) && s.bit != base.bit
    && s.scan == |s.candidates| && s.lost == []
  }

  ghost predicate CycleReclaiming(s: Rt, ext: Owners, base: Rt, traced: Rt) {
    && Recoloured(base, traced) && OwnersLive(base.heap, ext) && Traced(traced, ext)
    && Progress(traced, s, ext)
    && s.work == s.mutations == []
  }

  // ----- starting -----

  lemma {:induction false} PushRootsFacts(s: Rt, roots: seq<Addr>)
    requires WorkOk(s) && forall r :: r in roots ==> r in s.heap
    ensures Pushed(s, PushRoots(s, roots))
    ensures forall a :: a in PushRoots(s, roots).work <==> a in s.work || a in roots
    decreases |roots|
  {
    if roots == [] {
      forall b | b in s.heap ensures RecolouredAt(s.heap, s.heap, b) {
      }
    } else {
      var t := PushWork(s, roots[0]);
      PushWorkFacts(s, roots[0]);
      PushRootsFacts(t, roots[1..]);
      PushedTrans(s, t, PushRoots(s, roots));
      assert roots == [roots[0]] + roots[1..];
    }
  }

  lemma IntactSound(s: Rt, t: Rt, ext: Owners)
    requires Sound(s, ext) && Intact(s.heap) && Recoloured(s, t)
    ensures Sound(t, ext)
  {
    forall b | b in s.heap ensures !s.heap[b].waitingRemove {
      assert IntactAt(s.heap, b);
    }
    RecolouredSound(s, t, ext);
  }

  /** Over a heap without dismantled objects the lists can be walked. */
  lemma IntactWalks(s: Rt, ext: Owners)
    requires Sound(s, ext) && Intact(s.heap) && OwnersLive(s.heap, ext) && WorkOk(s) && s.mutations == []
    ensures WalkOk(s, ext)
  {
    forall b | InUse(s, ext, b) ensures WholeAt(s, b) {
      ReachedInHeap(s.heap, Starts(s, ext), b);
      assert IntactAt(s.heap, b);
    }
    forall b | b in s.heap ensures !s.heap[b].waitingRemove {
      assert IntactAt(s.heap, b);
    }
  }

  /** The toggle whitens the whole heap, so the new trace starts from the roots alone. */
  lemma StartTraceKeeps(s: Rt, ext: Owners, roots: seq<Addr>)
    requires IdleOk(s, ext) && RootsAre(s, ext, roots)
    ensures var t := StartTrace(s, roots);
      CycleTracing(t, ext, s) && t.tracingState == (if t.work == [] then Reclaiming else Tracing)
  {
    var s0 := s.(tracingState := Tracing, cyclicAllocAtTrace := s.cyclicAlloc, scan := |s.candidates|, bit := !s.bit);
    forall b ensures WorkAt(s0, b) {
      assert WorkAt(s, b);
    }
    PushRootsFacts(s0, roots);
    var t := StartTrace(s, roots);
    forall b | b in s.heap ensures RecolouredAt(s.heap, t.heap, b) {
      assert RecolouredAt(s0.heap, PushRoots(s0, roots).heap, b);
    }
    RecolouredIntact(s, t);
    IntactSound(s, t, ext);
    RecolouredGraph(s, t, ext);
    forall b ensures WorkAt(t, b) {
      assert WorkAt(PushRoots(s0, roots), b);
    }
    IntactWalks(t, ext);
    forall a | a in t.heap ensures !Marked(t, a) {
      assert Marked(s, a);
    }
    forall a | a in t.work ensures OwnedFromOutside(t.heap, ext, a) {
      ReachesRefl(OwnGraph(t.heap), a);
    }
  }

  /** A finished trace starts a sound reclaim. */
  lemma TraceToReclaim(s: Rt, ext: Owners, base: Rt)
    requires CycleTracing(s, ext, base) && s.work == [] && CleanStart(base, ext)
    ensures CycleReclaiming(s.(tracingState := Reclaiming), ext, base, s.(tracingState := Reclaiming))
  {
    var t := s.(tracingState := Reclaiming);
    forall b | b in base.heap ensures RecolouredAt(base.heap, t.heap, b) {
      assert RecolouredAt(base.heap, s.heap, b);
    }
    forall b | b in s.heap ensures RecolouredAt(s.heap, t.heap, b) {
    }
    IntactSound(s, t, ext);
    RecolouredGraph(base, s, ext);
    forall a | a in t.heap ensures !t.heap[a].tracing && !t.heap[a].childrenReleased
        && (Marked(t, a) <==> OwnedFromOutside(t.heap, ext, a)) {
      assert WorkAt(s, a) && IntactAt(s.heap, a);
      if OwnedFromOutside(s.heap, ext, a) {
        MarkedReach(s, ext, a);
      }
    }
    forall a | a in t.heap && t.heap[a].candidate && !Marked(t, a)
      ensures CountFrom(t.heap[a], 0, a) == 0 && a !in Waiting(t)
    {
      assert RecolouredAt(base.heap, t.heap, a);
      SameFieldsSameCount(base.heap[a], t.heap[a], 0, a);
      assert Waiting(t) == Waiting(base);
    }
    forall a | a in Waiting(t) ensures a in t.heap {
      WaitingIsDead(t, ext, a);
    }
    ProgressStarts(t, ext);
  }

  /** Every turn advances the undisturbed collection; no turn faults. */
  lemma TurnAdvances(s: Rt, ext: Owners, base: Rt, traced: Rt, due: bool, roots: seq<Addr>) returns (traced': Rt)
    requires CycleOk(s, ext, base, traced) && CleanStart(base, ext)
    requires s.tracingState != TracingIdle && s.tracingBudget > 0
    ensures CycleOk(TracingTurn(s, due, roots).s, ext, base, traced')
  {
    traced' := traced;
    if s.tracingState == Tracing {
      var t := TraceStep(s);
      TraceStepKeeps(s, ext);
      TraceStepExact(s, ext);
      RecolouredTrans(base, s, t);
      if t.work == [] {
        TraceToReclaim(t, ext, base);
        traced' := t.(tracingState := Reclaiming);
      }
    } else {
      ReclaimTurn(s, ext, base, traced);
    }
  }

  lemma ReclaimTurn(s: Rt, ext: Owners, base: Rt, traced: Rt)
    requires CycleReclaiming(s, ext, base, traced) && s.tracingState == Reclaiming
    ensures ReclaimDone(s) ==> CycleReclaiming(s.(tracingState := TracingIdle), ext, base, traced)
    ensures !ReclaimDone(s) ==>
      CycleReclaiming(ReclaimStep(s), ext, base, traced) && ReclaimStep(s).tracingState == Reclaiming
  {
    if ReclaimDone(s) {
      StateIgnored(traced, s, ext, TracingIdle);
    } else {
      ProgressStep(traced, s, ext);
    }
  }

  // ----- the result of a collection -----

  /** A cycle that neither owners nor release lists hold and that contains no registered candidate. */
  ghost predicate UnregisteredCycle(s: Rt, ext: Owners, c: seq<Addr>) {
    && IsCycle(OwnGraph(s.heap), c) && !Held(s, ext, c[0])
    && forall i :: 0 <= i < |c| ==> c[i] in s.heap && !s.heap[c[i]].candidate
  }

  /** The release lists hold no candidate that the owners do not reach. */
  ghost predicate ListsHoldNone(s: Rt, ext: Owners) {
    forall a :: a in HeldSet(s, ext) && s.heap[a].candidate ==> OwnedFromOutside(s.heap, ext, a)
  }

  lemma RecolouredHeld(base: Rt, traced: Rt, ext: Owners)
    requires Recoloured(base, traced)
    ensures Holders(traced, ext) == Holders(base, ext) && HeldSet(traced, ext) == HeldSet(base, ext)
    ensures OwnGraph(traced.heap) == OwnGraph(base.heap)
  {
    RecolouredGraph(base, traced, ext);
    assert Waiting(traced) == Waiting(base);
  }

  lemma ReachedIsHeld(s: Rt, ext: Owners, a: Addr)
    requires OwnedFromOutside(s.heap, ext, a)
    ensures Held(s, ext, a)
  {
    var r := FromSome(OwnGraph(s.heap), Roots(s.heap, ext), a);
    assert r in Holders(s, ext);
  }

  lemma SameCycles(base: Rt, traced: Rt, ext: Owners, c: seq<Addr>)
    requires Recoloured(base, traced) && Traced(traced, ext)
    ensures UnregisteredCycle(base, ext, c) <==> LeftCycle(traced, ext, c)
  {
    RecolouredHeld(base, traced, ext);
    RecolouredGraph(base, traced, ext);
    forall a | a in base.heap ensures traced.heap[a].candidate == base.heap[a].candidate && Holding(traced.heap[a]) {
      assert RecolouredAt(base.heap, traced.heap, a) && DeadOk(traced, {}, a);
    }
    if LeftCycle(traced, ext, c) {
      forall i | 0 <= i < |c| ensures c[i] in base.heap && !base.heap[c[i]].candidate {
        assert Spared(traced, c[i]);
        if OwnedFromOutside(traced.heap, ext, c[i]) {
          ReachedIsHeld(traced, ext, c[i]);
          CycleMutual(OwnGraph(traced.heap), c, i, 0);
          FromRootsStep(OwnGraph(traced.heap), Holders(traced, ext), c[i], c[0]);
        }
      }
    }
    if UnregisteredCycle(base, ext, c) {
      forall i | 0 <= i < |c| ensures Spared(traced, c[i]) {
      }
    }
  }

  lemma SparedIsListsHoldNone(base: Rt, traced: Rt, ext: Owners)
    requires Recoloured(base, traced) && Traced(traced, ext)
    ensures HeldSpared(traced, ext) <==> ListsHoldNone(base, ext)
  {
    RecolouredHeld(base, traced, ext);
    RecolouredGraph(base, traced, ext);
    forall a | a in base.heap ensures traced.heap[a].candidate == base.heap[a].candidate && Holding(traced.heap[a]) {
      assert RecolouredAt(base.heap, traced.heap, a) && DeadOk(traced, {}, a);
    }
  }

  /** Back at idle, however the collection was sliced into calls: the heap is exactly what owners and
      release lists held when it began, and nothing is half dismantled, if and only if the lists held no
      candidate out of the owners' reach and every cycle that was not held contained a candidate. */
  lemma CycleResult(s: Rt, ext: Owners, base: Rt, traced: Rt)
    requires CycleOk(s, ext, base, traced) && s.tracingState == TracingIdle
    ensures s.heap.Keys == HeldSet(base, ext) && NoneReleased(s.heap) <==>
        ListsHoldNone(base, ext) && forall c :: !UnregisteredCycle(base, ext, c)
    ensures forall a :: a in s.heap ==>
      a in base.heap && s.heap[a].header == base.heap[a].header && s.heap[a].slots == base.heap[a].slots
  {
    RecolouredHeld(base, traced, ext);
    forall a | a in s.heap
      ensures a in base.heap && s.heap[a].header == base.heap[a].header && s.heap[a].slots == base.heap[a].slots
    {
      assert LastsAt(traced, s, a) && RecolouredAt(base.heap, traced.heap, a);
    }
    ReclaimComplete(traced, s, ext);
    SparedIsListsHoldNone(base, traced, ext);
    forall c ensures UnregisteredCycle(base, ext, c) <==> LeftCycle(traced, ext, c) {
      SameCycles(base, traced, ext, c);
    }
  }

  lemma NothingListed(s: Rt, ext: Owners)
    requires s.releasing == s.waiting == []
    ensures HeldSet(s, ext) == ReachedSet(s.heap, ext)
  {
    assert Waiting(s) == {};
    assert Holders(s, ext) == Roots(s.heap, ext);
  }

  lemma SurvivorIsReached(s: Rt, ext: Owners, base: Rt, traced: Rt, a: Addr)
    requires CycleOk(s, ext, base, traced) && s.tracingState == TracingIdle
    requires a in s.heap ==> Marked(s, a)
    ensures a in s.heap <==> a in ReachedSet(base.heap, ext)
  {
    RecolouredGraph(base, traced, ext);
    if a in s.heap {
      assert LastsAt(traced, s, a) && a in traced.heap && Marked(traced, a);
    } else if a in ReachedSet(base.heap, ext) {
      ReachableStays(s, ext, base, traced, a);
    }
  }

  lemma IntactIsUnreleased(h: Store)
    requires Intact(h)
    ensures NoneReleased(h)
  {
    forall a | a in h ensures !h[a].childrenReleased {
      assert IntactAt(h, a);
    }
  }

  lemma ReachedIsIdle(s: Rt, ext: Owners, base: Rt, traced: Rt)
    requires CycleOk(s, ext, base, traced) && s.tracingState == TracingIdle
    requires s.heap.Keys == ReachedSet(base.heap, ext) && NoneReleased(s.heap)
    ensures IdleOk(s, ext)
  {
    RecolouredGraph(base, traced, ext);
    forall a | a in s.heap ensures Marked(s, a) && IntactAt(s.heap, a) {
      assert LastsAt(traced, s, a) && DeadOk(s, {}, a) && Marked(traced, a);
    }
    forall a ensures WorkAt(s, a) {
    }
    forall a | Ext(ext, a) > 0 ensures a in s.heap {
      assert a in base.heap && a in traced.heap;
    }
  }

  lemma IdleIsReached(s: Rt, ext: Owners, base: Rt, traced: Rt)
    requires CycleOk(s, ext, base, traced) && s.tracingState == TracingIdle && IdleOk(s, ext)
    ensures s.heap.Keys == ReachedSet(base.heap, ext) && NoneReleased(s.heap)
  {
    forall a ensures a in s.heap.Keys <==> a in ReachedSet(base.heap, ext) {
      SurvivorIsReached(s, ext, base, traced, a);
    }
    IntactIsUnreleased(s.heap);
  }

  /** With nothing on the release lists the heap is then exactly what the owners reached, and exactly then
      every survivor carries the current mark, as the next collection requires. */
  lemma CycleToIdle(s: Rt, ext: Owners, base: Rt, traced: Rt)
    requires CycleOk(s, ext, base, traced) && s.tracingState == TracingIdle && base.releasing == base.waiting == []
    ensures s.heap.Keys == ReachedSet(base.heap, ext) && NoneReleased(s.heap) <==>
        forall c :: !UnregisteredCycle(base, ext, c)
    ensures IdleOk(s, ext) <==> forall c :: !UnregisteredCycle(base, ext, c)
  {
    CycleResult(s, ext, base, traced);
    NothingListed(base, ext);
    if s.heap.Keys == ReachedSet(base.heap, ext) && NoneReleased(s.heap) {
      ReachedIsIdle(s, ext, base, traced);
    } else if IdleOk(s, ext) {
      IdleIsReached(s, ext, base, traced);
    }
  }

  lemma TracedSparesReached(s: Rt, ext: Owners)
    requires Traced(s, ext)
    ensures ReachedSpared(s, ext)
  {
    forall a | a in ReachedSet(s.heap, ext) ensures Spared(s, a) {
      assert DeadOk(s, {}, a);
    }
  }

  /** At every moment of the collection, whatever the owners reach is in the heap with its fields. */
  lemma ReachableStays(s: Rt, ext: Owners, base: Rt, traced: Rt, a: Addr)
    requires CycleOk(s, ext, base, traced) && a in base.heap && OwnedFromOutside(base.heap, ext, a)
    ensures a in s.heap && Holding(s.heap[a]) && s.heap[a].slots == base.heap[a].slots
  {
    if s.tracingState == Tracing {
      assert RecolouredAt(base.heap, s.heap, a) && IntactAt(s.heap, a);
    } else {
      RecolouredGraph(base, traced, ext);
      assert RecolouredAt(base.heap, traced.heap, a);
      TracedSparesReached(traced, ext);
      ReclaimSafe(traced, s, ext, a);
      assert LastsAt(traced, s, a) && DeadOk(s, {}, a);
    }
  }
}
