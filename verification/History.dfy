/** Every history: the mutator, the tracing machine and the releasing machine take turns in any order,
    in any phase of a collection. One invariant carries the safety of what the program reaches through
    all of them, under conditions on single turns. */
module History {
  import opened Graphs
  import opened Heap
  import opened Registry
  import opened Dismantle
  import opened Releasing
  import opened LostCycles
  import opened ReclaimResult
  import opened Marking
  import opened Mutator
  import opened Collector

  // ----- the invariant -----

  /** All that the program reaches carries the current mark. */
  ghost predicate ReachedMarked(s: Rt, ext: Owners) {
    forall a {:trigger Reached(s, ext, a)} :: Reached(s, ext, a) ==> Marked(s, a)
  }

  /** The tri-colour property of the holders that the program reaches. */
  ghost predicate ReachedCovered(s: Rt, ext: Owners) {
    forall p, i, c {:trigger CoveredEdge(s, p, i, c)} :: Reached(s, ext, p) ==> CoveredEdge(s, p, i, c)
  }

  ghost predicate Grey(s: Rt, a: Addr) {
    Marked(s, a) || a in s.work
  }

  /** The trace will come to `a`: something the program reaches is marked or queued and owns it. */
  ghost predicate OwnerShaded(s: Rt, ext: Owners, a: Addr) {
    exists g :: Reached(s, ext, g) && Grey(s, g) && Reaches(OwnGraph(s.heap), g, a)
  }

  ghost predicate OwnersShaded(s: Rt, ext: Owners) {
    forall a {:trigger OwnerShaded(s, ext, a)} :: Ext(ext, a) > 0 ==> OwnerShaded(s, ext, a)
  }

  ghost predicate ScannedMarked(s: Rt) {
    forall i {:trigger s.candidates[i]} :: s.scan <= i < |s.candidates| ==> Marked(s, s.candidates[i])
  }

  /** The scan passes by every candidate in use. */
  ghost predicate UsedSpared(s: Rt, ext: Owners) {
    forall a {:trigger InUse(s, ext, a)} :: InUse(s, ext, a) && a in s.heap && s.heap[a].candidate ==> Marked(s, a)
  }

  ghost predicate TracePhase(s: Rt, ext: Owners) {
    s.lost == [] && ReachedCovered(s, ext) && OwnersShaded(s, ext) && ScannedMarked(s)
  }

  ghost predicate ReclaimPhase(s: Rt, ext: Owners) {
    && s.work == s.mutations == [] && ReachedMarked(s, ext)
    && ReclaimOk(s, ext) && CleanCandidates(s) && UsedSpared(s, ext)
  }

  ghost predicate IdlePhase(s: Rt, ext: Owners) {
    s.work == s.mutations == s.lost == [] && s.scan == 0 && ReachedMarked(s, ext)
  }

  /** What the invariant says apart from the releasing machine's state word. */
  ghost predicate Core(s: Rt, ext: Owners) {
    && WalkOk(s, ext) && ImmediatesPlain(s.heap)
    && match s.tracingState
       case TracingIdle => IdlePhase(s, ext)
       case Tracing => s.work != [] && TracePhase(s, ext)
       case MutationPrepare => TracePhase(s, ext)
       case Reclaiming => ReclaimPhase(s, ext)
  }

  ghost predicate Inv(s: Rt, ext: Owners) {
    Core(s, ext) && (s.releasingState == Releasing <==> s.releasing != [])
  }

  /** In every state with the invariant, what the program reaches is in the heap, alive and whole. */
  lemma ReachedIsSafe(s: Rt, ext: Owners, a: Addr)
    requires Inv(s, ext) && Reached(s, ext, a)
    ensures !s.fault && a in s.heap && s.heap[a].rc > 0 && Holding(s.heap[a])
  {
    ReachedIsLive(s, ext, a);
  }

  // ----- what the program reaches -----

  lemma OwnerReached(s: Rt, ext: Owners, a: Addr)
    requires WalkOk(s, ext) && Ext(ext, a) > 0
    ensures Reached(s, ext, a)
  {
    StartIsWhole(s, ext, a);
    assert ExactAt(s.heap, ext, a) && DeadOk(s, {}, a) && a in Roots(s.heap, ext);
    ReachesRefl(OwnGraph(s.heap), a);
  }

  /** Nothing but new objects comes into the program's reach. */
  ghost predicate ReachStays(s: Rt, t: Rt, ext: Owners, ext': Owners, born: set<Addr>) {
    && (forall q, i, c {:trigger HoldsEdge(t.heap, q, i, c)} ::
          HoldsEdge(t.heap, q, i, c) ==> q !in born && (HoldsEdge(s.heap, q, i, c) || Reached(s, ext, c)))
    && (forall a :: a in t.heap && Ext(ext', a) > 0 ==> Reached(s, ext, a) || a in born)
  }

  lemma ReachShrinks(s: Rt, t: Rt, ext: Owners, ext': Owners, born: set<Addr>, x: Addr)
    requires WalkOk(s, ext) && ReachStays(s, t, ext, ext', born) && Reached(t, ext', x)
    ensures Reached(s, ext, x) || x in born
  {
    var g, reached := OwnGraph(t.heap), ReachedSet(s.heap, ext) + born;
    forall v, c | v in reached && c in Successors(g, v) ensures c in reached {
      var i := OwnEdgeField(t.heap, v, c);
      if HoldsEdge(s.heap, v, i, c) {
        OwnEdge(s.heap, v, i, c);
        ReachesEdge(OwnGraph(s.heap), v, c);
        FromRootsStep(OwnGraph(s.heap), Roots(s.heap, ext), v, c);
      }
      ReachedInStore(s, ext, c);
    }
    var r := FromSome(g, Roots(t.heap, ext'), x);
    ReachedInStore(s, ext, r);
    ClosedContainsReach(g, reached, r, x);
  }

  lemma ReachedInStore(s: Rt, ext: Owners, a: Addr)
    requires WalkOk(s, ext)
    ensures Reached(s, ext, a) ==> a in s.heap
  {
    if Reached(s, ext, a) {
      ReachedIsLive(s, ext, a);
    }
  }

  lemma SameReachBack(s: Rt, t: Rt, ext: Owners, x: Addr)
    requires WalkOk(s, ext) && SameEdges(s.heap, t.heap) && Reached(t, ext, x)
    ensures Reached(s, ext, x)
  {
    forall a | Ext(ext, a) > 0 ensures Reached(s, ext, a) {
      OwnerReached(s, ext, a);
    }
    ReachShrinks(s, t, ext, ext, {}, x);
  }

  /** The reach depends on the edges and the owners alone. */
  lemma SameReach(s: Rt, t: Rt, ext: Owners, x: Addr)
    requires WalkOk(s, ext) && WalkOk(t, ext) && SameEdges(s.heap, t.heap)
    ensures Reached(s, ext, x) <==> Reached(t, ext, x)
  {
    if Reached(t, ext, x) {
      SameReachBack(s, t, ext, x);
    } else if Reached(s, ext, x) {
      SameReachBack(t, s, ext, x);
    }
  }

  lemma SameReaches(h: Store, h': Store, a: Addr, b: Addr)
    requires SameEdges(h, h') && Reaches(OwnGraph(h), a, b)
    ensures Reaches(OwnGraph(h'), a, b)
  {
    assert FromRoots(OwnGraph(h), {a}, b);
    FewerEdgesReach(h', h, {a}, b);
    var r := FromSome(OwnGraph(h'), {a}, b);
  }

  // ----- marking and prepare steps -----

  /** A step of the trace: the same references, more marks, and nothing uncovered. */
  ghost predicate Colours(s: Rt, t: Rt, ext: Owners) {
    && SameEdges(s.heap, t.heap)
    && t.bit == s.bit && t.candidates == s.candidates && t.scan == s.scan && t.lost == s.lost
    && t.releasing == s.releasing && t.waiting == s.waiting && t.releasingState == s.releasingState
    && (forall a :: Marked(s, a) && a in t.heap ==> Marked(t, a))
    && (forall a :: Grey(s, a) && a in s.heap && s.heap[a].rc > 0 ==> Grey(t, a))
    && (forall p, i, c {:trigger CoveredEdge(t, p, i, c)} :: CoveredEdge(s, p, i, c) ==> CoveredEdge(t, p, i, c))
  }

  lemma ColoursKeepPhase(s: Rt, t: Rt, ext: Owners)
    requires WalkOk(s, ext) && WalkOk(t, ext) && TracePhase(s, ext) && Colours(s, t, ext)
    ensures TracePhase(t, ext)
  {
    forall p, i, c | Reached(t, ext, p) ensures CoveredEdge(t, p, i, c) {
      SameReach(s, t, ext, p);
      assert CoveredEdge(s, p, i, c);
    }
    forall a | Ext(ext, a) > 0 ensures OwnerShaded(t, ext, a) {
      assert OwnerShaded(s, ext, a);
      var g :| Reached(s, ext, g) && Grey(s, g) && Reaches(OwnGraph(s.heap), g, a);
      ReachedIsLive(s, ext, g);
      SameReach(s, t, ext, g);
      SameReaches(s.heap, t.heap, g, a);
    }
    forall i | t.scan <= i < |t.candidates| ensures Marked(t, t.candidates[i]) {
      assert EntryOk(t, i) && Marked(s, s.candidates[i]);
    }
  }

  lemma TraceStepColours(s: Rt, ext: Owners)
    requires WalkOk(s, ext) && s.work != []
    ensures Colours(s, TraceStep(s), ext) && WalkOk(TraceStep(s), ext)
    ensures TraceStep(s).tracingState == s.tracingState && TraceStep(s).mutations == s.mutations
    ensures ImmediatesPlain(s.heap) ==> ImmediatesPlain(TraceStep(s).heap)
  {
    var a, t := s.work[|s.work| - 1], TraceStep(s);
    TraceStepWalks(s, ext);
    WalkedEdges(s, t, a);
    forall b | Grey(s, b) && b in s.heap && s.heap[b].rc > 0 ensures Grey(t, b) {
      assert DeadOk(s, {}, b) && b in t.heap;
    }
    forall p, i, c | CoveredEdge(s, p, i, c) ensures CoveredEdge(t, p, i, c) {
      WalkedCovers(s, t, ext, a, p, i, c);
    }
    forall b | b in t.heap ensures t.heap[b].header == s.heap[b].header && t.heap[b].candidate == s.heap[b].candidate {
      assert RecolouredAt(s.heap, t.heap, b);
    }
  }

  lemma PrepareStepColours(s: Rt, ext: Owners)
    requires WalkOk(s, ext) && s.mutations != []
    ensures Colours(s, PrepareStep(s), ext) && WalkOk(PrepareStep(s), ext)
    ensures PrepareStep(s).tracingState == s.tracingState
    ensures ImmediatesPlain(s.heap) ==> ImmediatesPlain(PrepareStep(s).heap)
  {
    var a, t := s.mutations[|s.mutations| - 1], PrepareStep(s);
    PrepareStepWalks(s, ext);
    RecolouredEdges(s, t);
    forall p, i, c | CoveredEdge(s, p, i, c) ensures CoveredEdge(t, p, i, c) {
      PreparedCovers(s, t, a, p, i, c);
    }
    forall b | b in t.heap ensures t.heap[b].header == s.heap[b].header && t.heap[b].candidate == s.heap[b].candidate {
      assert RecolouredAt(s.heap, t.heap, b);
    }
  }

  /** With both lists empty the trace has come to everything that the program reaches. */
  lemma DrainedMarksReached(s: Rt, ext: Owners)
    requires WalkOk(s, ext) && TracePhase(s, ext) && s.work == s.mutations == []
    ensures ReachedMarked(s, ext)
  {
    var g := OwnGraph(s.heap);
    forall a | Reached(s, ext, a) ensures Marked(s, a) {
      var r := FromSome(g, Roots(s.heap, ext), a);
      assert OwnerShaded(s, ext, r);
      var q :| Reached(s, ext, q) && Grey(s, q) && Reaches(g, q, r);
      ReachesTrans(g, q, r, a);
      MarkedSpreads(s, ext, q, a);
    }
  }

  lemma MarkedSpreads(s: Rt, ext: Owners, q: Addr, a: Addr)
    requires WalkOk(s, ext) && ReachedCovered(s, ext) && s.work == s.mutations == []
    requires Reached(s, ext, q) && Marked(s, q) && Reaches(OwnGraph(s.heap), q, a)
    ensures Marked(s, a)
  {
    var g := OwnGraph(s.heap);
    var black := set b | b in s.heap && Marked(s, b) && Reached(s, ext, b);
    forall v, c | v in black && c in Successors(g, v) ensures c in black {
      var i := OwnEdgeField(s.heap, v, c);
      ReachesEdge(g, v, c);
      FromRootsStep(g, Roots(s.heap, ext), v, c);
      ReachedIsLive(s, ext, v);
      assert CoveredEdge(s, v, i, c);
    }
    ClosedContainsReach(g, black, q, a);
  }

  // ----- turns of the tracing machine -----

  /** What the reclaim asks of the state it starts in: the scan passes by what is in use,
      and no unmarked candidate owns itself. */
  ghost predicate ReclaimCanStart(s: Rt, ext: Owners) {
    UsedSpared(s, ext) && CleanCandidates(s)
  }

  /** What a turn of the tracing machine must heed. */
  ghost predicate TurnHeeds(s: Rt, ext: Owners, due: bool, roots: seq<Addr>) {
    && (s.tracingState == TracingIdle ==> RootsAre(s, ext, roots))
    && (TracingTurn(s, due, roots).Next? ==>
          var t := TracingTurn(s, due, roots).s;
          s.tracingState != Reclaiming && t.tracingState == Reclaiming ==> ReclaimCanStart(t, ext))
  }

  /** The machine's state word plays no part in the invariant's common part. */
  lemma StateWordWalks(s: Rt, ext: Owners, st: TracingState)
    requires WalkOk(s, ext)
    ensures WalkOk(s.(tracingState := st), ext)
  {
    var t := s.(tracingState := st);
    SameHeapSound(s, t, ext);
    forall a ensures WorkAt(t, a) {
      assert WorkAt(s, a);
    }
    forall a | a in t.mutations ensures MutationAt(t, a) {
      assert MutationAt(s, a);
    }
    forall a | InUse(t, ext, a) ensures WholeAt(t, a) {
      assert Starts(t, ext) == Starts(s, ext) && InUse(s, ext, a) && WholeAt(s, a);
    }
  }

  lemma StateWordPhase(s: Rt, ext: Owners, st: TracingState)
    requires TracePhase(s, ext)
    ensures TracePhase(s.(tracingState := st), ext)
  {
    var t := s.(tracingState := st);
    forall p, i, c | Reached(t, ext, p) ensures CoveredEdge(t, p, i, c) {
      assert Reached(s, ext, p) && CoveredEdge(s, p, i, c);
    }
    forall a | Ext(ext, a) > 0 ensures OwnerShaded(t, ext, a) {
      assert OwnerShaded(s, ext, a);
      var g :| Reached(s, ext, g) && Grey(s, g) && Reaches(OwnGraph(s.heap), g, a);
      assert Reached(t, ext, g) && Grey(t, g);
    }
    forall i | t.scan <= i < |t.candidates| ensures Marked(t, t.candidates[i]) {
      assert Marked(s, s.candidates[i]);
    }
  }

  lemma NothingTraced(s: Rt, ext: Owners)
    requires WalkOk(s, ext) && s.work == []
    ensures forall a :: a in s.heap ==> !s.heap[a].tracing && !s.heap[a].waitingRemove
  {
    forall a | a in s.heap ensures !s.heap[a].tracing && !s.heap[a].waitingRemove {
      assert WorkAt(s, a) && DeadOk(s, {}, a);
    }
  }

  lemma ListedIsWhole(s: Rt, ext: Owners)
    requires WalkOk(s, ext)
    ensures forall a :: a in Waiting(s) ==> a in s.heap && !s.heap[a].childrenReleased
  {
    forall a | a in Waiting(s) ensures a in s.heap && !s.heap[a].childrenReleased {
      WaitingIsDead(s, ext, a);
      StartIsWhole(s, ext, a);
    }
  }

  /** A drained trace hands over to the reclaim. */
  lemma ReclaimStarts(s: Rt, ext: Owners)
    requires WalkOk(s, ext) && TracePhase(s, ext) && s.work == s.mutations == []
    requires ReclaimCanStart(s.(tracingState := Reclaiming), ext)
    ensures ReclaimPhase(s.(tracingState := Reclaiming), ext)
  {
    var t := s.(tracingState := Reclaiming);
    DrainedMarksReached(s, ext);
    forall a | Reached(t, ext, a) ensures Marked(t, a) {
      assert Reached(s, ext, a);
    }
    StateWordWalks(s, ext, Reclaiming);
    NothingTraced(t, ext);
    ListedIsWhole(t, ext);
    forall i | t.scan <= i < |t.candidates| ensures Treated(t, t.candidates[i]) {
      assert Marked(s, s.candidates[i]);
    }
  }

  lemma WorkTurn(s: Rt, ext: Owners, due: bool, roots: seq<Addr>)
    requires Inv(s, ext) && s.tracingBudget > 0 && s.tracingState == Tracing && TurnHeeds(s, ext, due, roots)
    ensures Inv(TracingTurn(s, due, roots).s, ext)
  {
    var t := TraceStep(s);
    TraceStepColours(s, ext);
    ColoursKeepPhase(s, t, ext);
    if t.work == [] && t.mutations == [] {
      ReclaimStarts(t, ext);
      StateWordWalks(t, ext, Reclaiming);
    } else if t.mutations != [] {
      StateWordWalks(t, ext, MutationPrepare);
      StateWordPhase(t, ext, MutationPrepare);
    }
  }

  lemma PrepareTurn(s: Rt, ext: Owners, due: bool, roots: seq<Addr>)
    requires Inv(s, ext) && s.tracingBudget > 0 && s.tracingState == MutationPrepare && TurnHeeds(s, ext, due, roots)
    ensures Inv(TracingTurn(s, due, roots).s, ext)
  {
    if s.mutations != [] {
      PrepareStepColours(s, ext);
      ColoursKeepPhase(s, PrepareStep(s), ext);
    } else if s.work != [] {
      StateWordWalks(s, ext, Tracing);
      StateWordPhase(s, ext, Tracing);
    } else {
      ReclaimStarts(s, ext);
      StateWordWalks(s, ext, Reclaiming);
    }
  }

  // ----- the start of a trace -----

  lemma StartWalks(s: Rt, ext: Owners, roots: seq<Addr>)
    requires WalkOk(s, ext) && s.work == s.mutations == [] && RootsAre(s, ext, roots)
    ensures var t := StartTrace(s, roots);
      && WalkOk(t, ext) && Recoloured(s, t) && t.bit != s.bit && t.scan == |t.candidates| && t.mutations == []
      && (forall a :: a in s.heap ==> t.heap[a].mark == s.heap[a].mark)
      && (forall a :: a in t.work <==> a in roots)
      && t.tracingState == (if t.work == [] then Reclaiming else Tracing)
  {
    var s0 := s.(tracingState := Tracing, cyclicAllocAtTrace := s.cyclicAlloc, scan := |s.candidates|, bit := !s.bit);
    forall b ensures WorkAt(s0, b) {
      assert WorkAt(s, b);
    }
    PushRootsFacts(s0, roots);
    var t := StartTrace(s, roots);
    NothingTraced(s, ext);
    forall b | b in s.heap ensures RecolouredAt(s.heap, t.heap, b) {
      assert RecolouredAt(s0.heap, PushRoots(s0, roots).heap, b);
    }
    RecolouredSound(s, t, ext);
    forall b ensures WorkAt(t, b) {
      assert WorkAt(PushRoots(s0, roots), b);
    }
    StartedWalks(s, t, ext, roots);
  }

  lemma StartedWalks(s: Rt, t: Rt, ext: Owners, roots: seq<Addr>)
    requires WalkOk(s, ext) && s.work == [] && RootsAre(s, ext, roots) && Recoloured(s, t)
    requires Sound(t, ext) && WorkOk(t) && t.mutations == [] && forall a :: a in t.work <==> a in roots
    ensures WalkOk(t, ext)
  {
    NothingTraced(s, ext);
    RecolouredEdges(s, t);
    forall b | b in t.heap
      ensures t.heap[b].childrenReleased == s.heap[b].childrenReleased && !t.heap[b].waitingRemove
    {
      assert RecolouredAt(s.heap, t.heap, b);
    }
    forall b | b in Starts(t, ext) ensures InUse(s, ext, b) {
      StartInUse(s, ext, b, b);
    }
    WholeStays(s, t, ext, ext, {});
  }

  lemma StartPhase(s: Rt, ext: Owners, roots: seq<Addr>)
    requires WalkOk(s, ext) && IdlePhase(s, ext) && RootsAre(s, ext, roots)
    ensures TracePhase(StartTrace(s, roots), ext)
  {
    var t := StartTrace(s, roots);
    StartWalks(s, ext, roots);
    RecolouredEdges(s, t);
    forall p, i, c | Reached(t, ext, p) ensures CoveredEdge(t, p, i, c) {
      SameReach(s, t, ext, p);
      assert Marked(s, p) && RecolouredAt(s.heap, t.heap, p);
    }
    forall a | Ext(ext, a) > 0 ensures OwnerShaded(t, ext, a) {
      OwnerReached(s, ext, a);
      OwnerReached(t, ext, a);
      StartIsWhole(s, ext, a);
      NothingTraced(s, ext);
      assert a in Roots(s.heap, ext) && Grey(t, a);
      ReachesRefl(OwnGraph(t.heap), a);
    }
  }

  lemma StartTurn(s: Rt, ext: Owners, due: bool, roots: seq<Addr>)
    requires Inv(s, ext) && s.tracingState == TracingIdle && RootsAre(s, ext, roots)
    requires var t := StartTrace(s, roots); t.tracingState == Reclaiming ==> ReclaimCanStart(t, ext)
    ensures Inv(StartTrace(s, roots), ext)
  {
    var t := StartTrace(s, roots);
    StartWalks(s, ext, roots);
    StartPhase(s, ext, roots);
    forall b | b in t.heap && t.heap[b].header.layout.MonoImm? ensures !t.heap[b].candidate {
      assert RecolouredAt(s.heap, t.heap, b);
    }
    if t.work == [] {
      assert t.(tracingState := Reclaiming) == t;
      ReclaimStarts(t, ext);
    }
  }

  // ----- the reclaim -----

  /** With the walk lists empty, what is in use is what owners and release lists hold. */
  lemma UsedIsHeld(s: Rt, ext: Owners)
    requires WalkOk(s, ext) && s.work == s.mutations == []
    ensures Holders(s, ext) == Starts(s, ext)
  {
    NothingTraced(s, ext);
    forall a | a in s.heap ensures a in Holders(s, ext) <==> a in Starts(s, ext) {
      if a in Starts(s, ext) {
        StartIsWhole(s, ext, a);
      }
    }
  }

  lemma UsedProtected(s: Rt, ext: Owners)
    requires WalkOk(s, ext) && ReclaimPhase(s, ext)
    ensures Protected(s, ext, Used(s, ext)) && Protected(s, ext, ReachedSet(s.heap, ext))
  {
    UsedIsHeld(s, ext);
    NothingTraced(s, ext);
    forall a | a in HeldSet(s, ext) ensures Spared(s, a) {
      assert InUse(s, ext, a) && WholeAt(s, a);
    }
    assert HeldSet(s, ext) == Used(s, ext);
    HeldProtected(s, ext);
    forall a | a in ReachedSet(s.heap, ext) ensures Spared(s, a) {
      ReachedInUse(s, ext, a);
      assert WholeAt(s, a);
    }
    ReachedProtected(s, ext);
  }

  lemma LastsEdges(s: Rt, t: Rt, ext: Owners)
    requires Lasts(s, t) && ReclaimOk(s, ext) && ReclaimOk(t, ext)
    ensures forall q, i, c :: HoldsEdge(t.heap, q, i, c) ==> HoldsEdge(s.heap, q, i, c)
  {
    forall q, i, c | HoldsEdge(t.heap, q, i, c) ensures HoldsEdge(s.heap, q, i, c) {
      assert LastsAt(s, t, q) && DeadOk(s, {}, q);
    }
  }

  lemma ReclaimStepWalks(s: Rt, ext: Owners)
    requires WalkOk(s, ext) && ReclaimPhase(s, ext) && !ReclaimDone(s)
    ensures var t := ReclaimStep(s);
      && WalkOk(t, ext) && ReclaimOk(t, ext) && Lasts(s, t) && CleanCandidates(t) && t.tracingState == s.tracingState
      && UseStays(s, t, ext, ext, {})
  {
    var t := ReclaimStep(s);
    CleanIsSafe(s, ext);
    UsedProtected(s, ext);
    ReclaimStepKeeps(s, ext, Used(s, ext));
    ReclaimOwnedStay(s, ext);
    CleanLasts(s, t);
    LastsEdges(s, t, ext);
    assert t.work == s.work && t.releasing == s.releasing && t.waiting == s.waiting;
    forall a | a in Starts(t, ext) ensures InUse(s, ext, a) {
      StartInUse(s, ext, a, a);
    }
    forall a ensures WorkAt(t, a) {
    }
    forall a | a in t.heap ensures !t.heap[a].waitingRemove {
      assert DeadOk(t, {}, a);
    }
    forall a | InUse(t, ext, a) ensures WholeAt(t, a) {
      UseShrinks(s, t, ext, ext, {}, a);
      assert WholeAt(s, a) && a in Used(s, ext);
      assert SupportedAt(t.heap, ext, Kept(Used(s, ext), Waiting(t)), a);
    }
  }

  lemma ReclaimStepPhase(s: Rt, ext: Owners)
    requires WalkOk(s, ext) && ReclaimPhase(s, ext) && !ReclaimDone(s)
    ensures ReclaimPhase(ReclaimStep(s), ext)
  {
    var t := ReclaimStep(s);
    ReclaimStepWalks(s, ext);
    LastsEdges(s, t, ext);
    forall a | InUse(t, ext, a) && a in t.heap && t.heap[a].candidate ensures Marked(t, a) {
      UseShrinks(s, t, ext, ext, {}, a);
      assert LastsAt(s, t, a);
    }
    forall a | Ext(ext, a) > 0 ensures Reached(s, ext, a) {
      OwnerReached(s, ext, a);
    }
    forall a | Reached(t, ext, a) ensures Marked(t, a) {
      ReachShrinks(s, t, ext, ext, {}, a);
      ReachedIsLive(t, ext, a);
      assert LastsAt(s, t, a);
    }
  }

  lemma ReclaimTurn(s: Rt, ext: Owners, due: bool, roots: seq<Addr>)
    requires Inv(s, ext) && s.tracingBudget > 0 && s.tracingState == Reclaiming
    ensures Inv(TracingTurn(s, due, roots).s, ext)
  {
    if ReclaimDone(s) {
      var t := s.(tracingState := TracingIdle);
      StateWordWalks(s, ext, TracingIdle);
      forall a | Reached(t, ext, a) ensures Marked(t, a) {
        assert Reached(s, ext, a);
      }
    } else {
      var t := ReclaimStep(s);
      ReclaimStepWalks(s, ext);
      ReclaimStepPhase(s, ext);
      forall b | b in t.heap && t.heap[b].header.layout.MonoImm? ensures !t.heap[b].candidate {
        assert LastsAt(s, t, b);
      }
    }
  }

  /** Every turn of the tracing machine keeps the invariant. */
  lemma TracingTurnKeeps(s: Rt, ext: Owners, due: bool, roots: seq<Addr>)
    requires Inv(s, ext) && TracingTurn(s, due, roots).Next? && TurnHeeds(s, ext, due, roots)
    ensures Inv(TracingTurn(s, due, roots).s, ext)
  {
    match s.tracingState
    case TracingIdle => StartTurn(s, ext, due, roots);
    case Tracing => WorkTurn(s, ext, due, roots);
    case MutationPrepare => PrepareTurn(s, ext, due, roots);
    case Reclaiming => ReclaimTurn(s, ext, due, roots);
  }

  // ----- turns of the releasing machine -----

  /** While a trace is pending, a release step frees nothing that is on the barrier's list. */
  ghost predicate ReleaseHeeds(s: Rt) {
    Pending(s) && s.releasingState == Releasing ==> SparesMutations(s, ReleaseStep(s))
  }

  lemma ListsWalk(s: Rt, ext: Owners, t: Rt)
    requires WalkOk(s, ext) && Sound(t, ext) && t.heap == s.heap && t.work == s.work && t.mutations == s.mutations
    requires t.bit == s.bit && forall a :: a in t.releasing + t.waiting <==> a in s.releasing + s.waiting
    ensures WalkOk(t, ext) && Starts(t, ext) == Starts(s, ext) && Waiting(t) == Waiting(s)
  {
    forall a | a in s.heap ensures a in Starts(t, ext) <==> a in Starts(s, ext) {
      assert a in t.releasing + t.waiting <==> a in s.releasing + s.waiting;
    }
    forall a ensures WorkAt(t, a) {
      assert WorkAt(s, a);
    }
    forall a | a in t.mutations ensures MutationAt(t, a) {
      assert MutationAt(s, a);
    }
    forall a | InUse(t, ext, a) ensures WholeAt(t, a) {
      assert InUse(s, ext, a) && WholeAt(s, a);
    }
  }

  lemma SetWorkingTurn(s: Rt, ext: Owners)
    requires Inv(s, ext) && s.releasingState == ReleasingIdle && s.waiting != []
    ensures Inv(SetWorking(s).(releasingState := Releasing), ext)
  {
    var t := SetWorking(s).(releasingState := Releasing);
    SetWorkingKeeps(s, ext);
    SoundIgnoresState(SetWorking(s), ext, Releasing);
    ListsWalk(s, ext, t);
    match s.tracingState {
      case TracingIdle => ListsReachedMarked(s, t, ext);
      case Tracing => ListsTracePhase(s, t, ext);
      case MutationPrepare => ListsTracePhase(s, t, ext);
      case Reclaiming =>
        ListsReachedMarked(s, t, ext);
        ListsReclaimPhase(s, t, ext);
    }
  }

  lemma ListsReachedMarked(s: Rt, t: Rt, ext: Owners)
    requires ReachedMarked(s, ext) && t.heap == s.heap && t.bit == s.bit
    ensures ReachedMarked(t, ext)
  {
    forall a | Reached(t, ext, a) ensures Marked(t, a) {
      assert Reached(s, ext, a);
    }
  }

  lemma ListsTracePhase(s: Rt, t: Rt, ext: Owners)
    requires TracePhase(s, ext) && t.heap == s.heap && t.bit == s.bit && t.work == s.work && t.mutations == s.mutations
    requires t.candidates == s.candidates && t.scan == s.scan && t.lost == s.lost
    ensures TracePhase(t, ext)
  {
    forall p, i, c | Reached(t, ext, p) ensures CoveredEdge(t, p, i, c) {
      assert Reached(s, ext, p) && CoveredEdge(s, p, i, c);
    }
    forall a | Ext(ext, a) > 0 ensures OwnerShaded(t, ext, a) {
      assert OwnerShaded(s, ext, a);
      var g :| Reached(s, ext, g) && Grey(s, g) && Reaches(OwnGraph(s.heap), g, a);
      assert Reached(t, ext, g) && Grey(t, g);
    }
    forall i | t.scan <= i < |t.candidates| ensures Marked(t, t.candidates[i]) {
      assert Marked(s, s.candidates[i]);
    }
  }

  lemma ListsReclaimPhase(s: Rt, t: Rt, ext: Owners)
    requires ReclaimPhase(s, ext) && t.heap == s.heap && t.bit == s.bit
    requires t.work == s.work && t.mutations == s.mutations
    requires t.candidates == s.candidates && t.scan == s.scan && Sound(t, ext) && ReachedMarked(t, ext)
    requires Starts(t, ext) == Starts(s, ext) && Waiting(t) == Waiting(s)
    ensures ReclaimPhase(t, ext)
  {
    forall i | t.scan <= i < |t.candidates| ensures Treated(t, t.candidates[i]) {
      assert Treated(s, s.candidates[i]);
    }
    forall a | InUse(t, ext, a) && a in t.heap && t.heap[a].candidate ensures Marked(t, a) {
      assert InUse(s, ext, a);
    }
  }

  /** A release step leaves the program's reach as it is: the popped object is dead. */
  lemma ReleaseReach(s: Rt, t: Rt, ext: Owners, a: Addr, x: Addr)
    requires WalkOk(s, ext) && WalkOk(t, ext) && Releases(s, t, a) && a in s.heap && s.heap[a].rc == 0
    ensures Reached(t, ext, x) <==> Reached(s, ext, x)
  {
    if Reached(t, ext, x) {
      forall b | Ext(ext, b) > 0 ensures Reached(s, ext, b) {
        OwnerReached(s, ext, b);
      }
      ReachShrinks(s, t, ext, ext, {}, x);
    } else if Reached(s, ext, x) {
      var r := FromSome(OwnGraph(s.heap), Roots(s.heap, ext), x);
      OwnerReached(t, ext, r);
      ReachesRefl(OwnGraph(s.heap), r);
      LiveReaches(s, t, ext, a, r, x);
      FromRootsStep(OwnGraph(t.heap), Roots(t.heap, ext), r, x);
    }
  }

  /** Chains of references that start within the reach do not pass through the dead object. */
  lemma LiveReaches(s: Rt, t: Rt, ext: Owners, a: Addr, r: Addr, x: Addr)
    requires WalkOk(s, ext) && Releases(s, t, a) && a in s.heap && s.heap[a].rc == 0
    requires Reached(s, ext, r) && Reaches(OwnGraph(s.heap), r, x)
    ensures Reaches(OwnGraph(t.heap), r, x)
  {
    var g := OwnGraph(s.heap);
    var w :| WalkBetween(g, w, r, x);
    forall i | 0 < i < |w| ensures Edge(OwnGraph(t.heap), w[i - 1], w[i]) {
      WalkReaches(g, w, 0, i - 1);
      FromRootsStep(g, Roots(s.heap, ext), r, w[i - 1]);
      ReachedIsLive(s, ext, w[i - 1]);
      assert Edge(g, w[i - 1], w[i]);
      var j := OwnEdgeField(s.heap, w[i - 1], w[i]);
      assert HoldsEdge(t.heap, w[i - 1], j, w[i]);
      OwnEdge(t.heap, w[i - 1], j, w[i]);
    }
    assert WalkBetween(OwnGraph(t.heap), w, r, x);
  }

  lemma ReleaseUses(s: Rt, t: Rt, ext: Owners, a: Addr, x: Addr)
    requires WalkOk(s, ext) && WalkOk(t, ext) && Releases(s, t, a) && a in s.releasing
    requires t.work == s.work && t.mutations == s.mutations && forall b :: b in t.releasing ==> b in s.releasing
    requires InUse(t, ext, x)
    ensures InUse(s, ext, x)
  {
    assert a in Queue(s) && QueuedOk(s, a);
    forall b | b in Starts(t, ext) ensures InUse(s, ext, b) {
      if b in Starts(s, ext) {
        StartInUse(s, ext, b, b);
      } else {
        NewlyWaiting(s, t, ext, a, b);
        StartInUse(s, ext, a, b);
      }
    }
    UseShrinks(s, t, ext, ext, {}, x);
  }

  lemma ReleaseTracePhase(s: Rt, t: Rt, ext: Owners, a: Addr)
    requires WalkOk(s, ext) && WalkOk(t, ext) && TracePhase(s, ext) && Releases(s, t, a) && a in s.heap
    requires s.heap[a].rc == 0
    ensures TracePhase(t, ext)
  {
    forall p, i, c | Reached(t, ext, p) ensures CoveredEdge(t, p, i, c) {
      ReleaseReach(s, t, ext, a, p);
      assert CoveredEdge(s, p, i, c);
      ReleaseCovers(s, t, ext, a, p, i, c);
    }
    forall b | Ext(ext, b) > 0 ensures OwnerShaded(t, ext, b) {
      assert OwnerShaded(s, ext, b);
      var g :| Reached(s, ext, g) && Grey(s, g) && Reaches(OwnGraph(s.heap), g, b);
      ReleaseReach(s, t, ext, a, g);
      ReachedIsLive(t, ext, g);
      assert SurvivesAs(s.heap[g], t.heap[g], s.bit);
      LiveReaches(s, t, ext, a, g, b);
      assert Grey(t, g);
    }
    ReleaseScanned(s, t, ext, a);
  }

  lemma ReleaseScanned(s: Rt, t: Rt, ext: Owners, a: Addr)
    requires WalkOk(t, ext) && ScannedMarked(s) && Releases(s, t, a)
    ensures ScannedMarked(t)
  {
    forall i | t.scan <= i < |t.candidates| ensures Marked(t, t.candidates[i]) {
      assert MovedFrom(s.candidates, t.candidates[i], i) && EntryOk(t, i);
      var k :| i <= k < |s.candidates| && s.candidates[k] == t.candidates[i];
      assert Marked(s, s.candidates[k]) && SurvivesAs(s.heap[s.candidates[k]], t.heap[s.candidates[k]], s.bit);
    }
  }

  lemma ReleaseReachedMarked(s: Rt, t: Rt, ext: Owners, a: Addr)
    requires WalkOk(s, ext) && WalkOk(t, ext) && ReachedMarked(s, ext) && Releases(s, t, a) && a in s.heap
    requires s.heap[a].rc == 0
    ensures ReachedMarked(t, ext)
  {
    forall b | Reached(t, ext, b) ensures Marked(t, b) {
      ReleaseReach(s, t, ext, a, b);
      ReachedIsLive(t, ext, b);
      assert SurvivesAs(s.heap[b], t.heap[b], s.bit);
    }
  }

  lemma ReleaseReclaimPhase(s: Rt, t: Rt, ext: Owners, a: Addr)
    requires WalkOk(s, ext) && WalkOk(t, ext) && ReclaimPhase(s, ext) && Releases(s, t, a) && a in s.releasing
    requires forall b :: b in t.releasing ==> b in s.releasing
    ensures ReclaimPhase(t, ext)
  {
    assert a in Queue(s) && QueuedOk(s, a);
    ReleaseReachedMarked(s, t, ext, a);
    forall b | InUse(t, ext, b) && b in t.heap && t.heap[b].candidate ensures Marked(t, b) {
      ReleaseUses(s, t, ext, a, b);
      assert SurvivesAs(s.heap[b], t.heap[b], s.bit);
    }
    NothingTraced(t, ext);
    ListedIsWhole(t, ext);
    ReleaseTreated(s, t, ext, a);
    ReleaseClean(s, t, ext);
  }

  lemma ReleaseTreated(s: Rt, t: Rt, ext: Owners, a: Addr)
    requires ReclaimOk(s, ext) && Sound(t, ext) && Releases(s, t, a)
    ensures forall i {:trigger t.candidates[i]} :: t.scan <= i < |t.candidates| ==> Treated(t, t.candidates[i])
  {
    forall i | t.scan <= i < |t.candidates| ensures Treated(t, t.candidates[i]) {
      assert MovedFrom(s.candidates, t.candidates[i], i) && EntryOk(t, i);
      var k :| i <= k < |s.candidates| && s.candidates[k] == t.candidates[i];
      assert Treated(s, s.candidates[k]) && SurvivesAs(s.heap[s.candidates[k]], t.heap[s.candidates[k]], s.bit);
    }
  }

  lemma ReleaseClean(s: Rt, t: Rt, ext: Owners)
    requires CleanCandidates(s) && UsedSpared(t, ext) && WalkOk(t, ext)
    requires forall b {:trigger t.heap[b]} :: b in t.heap ==> b in s.heap && SurvivesAs(s.heap[b], t.heap[b], s.bit)
    requires t.bit == s.bit
    ensures CleanCandidates(t)
  {
    forall b | b in t.heap && t.heap[b].candidate && !Marked(t, b)
      ensures CountFrom(t.heap[b], 0, b) == 0 && b !in Waiting(t)
    {
      assert SurvivesAs(s.heap[b], t.heap[b], s.bit);
      SameFieldsSameCount(s.heap[b], t.heap[b], 0, b);
      if b in Waiting(t) {
        StartInUse(t, ext, b, b);
      }
    }
  }

  lemma ReleasePlain(s: Rt, t: Rt, a: Addr)
    requires Releases(s, t, a) && ImmediatesPlain(s.heap)
    ensures ImmediatesPlain(t.heap)
  {
    forall b | b in t.heap && t.heap[b].header.layout.MonoImm? ensures !t.heap[b].candidate {
      assert SurvivesAs(s.heap[b], t.heap[b], s.bit);
    }
  }

  lemma ReleaseStepTurn(s: Rt, ext: Owners)
    requires Inv(s, ext) && s.releasingState == Releasing && ReleaseHeeds(s)
    ensures Inv(ReleaseStep(s), ext) || ReleaseStep(s).releasing == []
    ensures ReleaseStep(s).releasing == [] ==> Inv(ReleaseStep(s).(releasingState := ReleasingIdle), ext)
  {
    var t, a := ReleaseStep(s), s.releasing[|s.releasing| - 1];
    ReleaseWalksIff(s, ext);
    ReleaseStepReleases(s, ext);
    ReleaseStepKeeps(s, ext, Kept({}, {}));
    assert a in Queue(s) && QueuedOk(s, a);
    ReleasePlain(s, t, a);
    match s.tracingState {
      case TracingIdle => ReleaseReachedMarked(s, t, ext, a);
      case Tracing => ReleaseTracePhase(s, t, ext, a);
      case MutationPrepare => ReleaseTracePhase(s, t, ext, a);
      case Reclaiming => ReleaseReclaimPhase(s, t, ext, a);
    }
    if t.releasing == [] {
      ReleasingWordKeeps(t, ext);
    }
  }

  lemma ReleasingWordKeeps(s: Rt, ext: Owners)
    requires Core(s, ext) && s.releasing == []
    ensures Inv(s.(releasingState := ReleasingIdle), ext)
  {
    var t := s.(releasingState := ReleasingIdle);
    SoundIgnoresState(s, ext, ReleasingIdle);
    ListsWalk(s, ext, t);
    match s.tracingState {
      case TracingIdle => ListsReachedMarked(s, t, ext);
      case Tracing => ListsTracePhase(s, t, ext);
      case MutationPrepare => ListsTracePhase(s, t, ext);
      case Reclaiming =>
        ListsReachedMarked(s, t, ext);
        ListsReclaimPhase(s, t, ext);
    }
  }

  /** Every turn of the releasing machine keeps the invariant. */
  lemma ReleasingTurnKeeps(s: Rt, ext: Owners, threshold: nat)
    requires Inv(s, ext) && ReleasingTurn(s, threshold).Next? && ReleaseHeeds(s)
    ensures Inv(ReleasingTurn(s, threshold).s, ext)
  {
    if s.releasingState == ReleasingIdle {
      SetWorkingTurn(s, ext);
    } else {
      ReleaseStepTurn(s, ext);
    }
  }

  // ----- steps of the mutator -----

  ghost predicate MutatedAt(s: Rt, t: Rt, ext: Owners, a: Addr) {
    && a in s.heap && a in t.heap && var o, o' := s.heap[a], t.heap[a];
    && Rewritten(o, o') && (o'.mark == o.mark || o'.mark == s.bit)
    && (o'.slots == o.slots || Reached(s, ext, a))
  }

  ghost predicate BornAt(t: Rt, a: Addr) {
    a in t.heap ==> Marked(t, a) && Holding(t.heap[a]) && !t.heap[a].tracing
  }

  /** What a step of the mutator may change. */
  ghost predicate Mutates(s: Rt, t: Rt, ext: Owners, ext': Owners, born: set<Addr>) {
    && t == s.(heap := t.heap, mutations := t.mutations, waiting := t.waiting, candidates := t.candidates,
        cyclicAlloc := t.cyclicAlloc)
    && born !! s.heap.Keys
    && (forall a {:trigger MutatedAt(s, t, ext, a)} :: a in t.heap && a !in born ==> MutatedAt(s, t, ext, a))
    && (forall a {:trigger BornAt(t, a)} :: a in born ==> BornAt(t, a))
    && (forall a :: a in t.waiting ==> a in s.waiting || Ext(ext, a) > 0)
    && (forall i {:trigger t.candidates[i]} :: 0 <= i < |t.candidates| ==>
          t.candidates[i] in born || (i < |s.candidates| && t.candidates[i] == s.candidates[i]))
    && (t.mutations == s.mutations || Pending(s))
    && ReachStays(s, t, ext, ext', born)
  }

  lemma MutatorStarts(s: Rt, t: Rt, ext: Owners, ext': Owners, born: set<Addr>, a: Addr)
    requires WalkOk(s, ext) && Mutates(s, t, ext, ext', born) && a in Starts(t, ext')
    requires t.mutations == s.mutations
    ensures InUse(s, ext, a) || a in born
  {
    if Ext(ext', a) > 0 {
      if Reached(s, ext, a) {
        ReachedInUse(s, ext, a);
      }
    } else {
      assert WorkAt(s, a) && (a in s.mutations ==> MutationAt(s, a));
      assert a in Queue(s) ==> QueuedOk(s, a);
      assert a in s.releasing || a in s.waiting ==> a in Queue(s);
      StartInUse(s, ext, a, a);
    }
  }

  lemma MutatorUses(s: Rt, t: Rt, ext: Owners, ext': Owners, born: set<Addr>, x: Addr)
    requires WalkOk(s, ext) && Mutates(s, t, ext, ext', born) && InUse(t, ext', x)
    requires t.mutations == s.mutations
    ensures InUse(s, ext, x) || x in born
  {
    forall q, i, c | HoldsEdge(t.heap, q, i, c) ensures q !in born && (HoldsEdge(s.heap, q, i, c) || InUse(s, ext, c)) {
      if Reached(s, ext, c) {
        ReachedInUse(s, ext, c);
      }
    }
    forall a | a in Starts(t, ext') ensures InUse(s, ext, a) || a in born {
      MutatorStarts(s, t, ext, ext', born, a);
    }
    UseShrinks(s, t, ext, ext', born, x);
  }

  lemma MutatorReachedMarked(s: Rt, t: Rt, ext: Owners, ext': Owners, born: set<Addr>)
    requires WalkOk(s, ext) && WalkOk(t, ext') && ReachedMarked(s, ext) && Mutates(s, t, ext, ext', born)
    ensures ReachedMarked(t, ext')
  {
    forall a | Reached(t, ext', a) ensures Marked(t, a) {
      ReachShrinks(s, t, ext, ext', born, a);
      ReachedIsLive(t, ext', a);
      if a in born {
        assert BornAt(t, a);
      } else {
        assert MutatedAt(s, t, ext, a) && Marked(s, a);
      }
    }
  }

  lemma MutatorSpared(s: Rt, t: Rt, ext: Owners, ext': Owners, born: set<Addr>)
    requires WalkOk(s, ext) && UsedSpared(s, ext) && Mutates(s, t, ext, ext', born) && t.mutations == s.mutations
    ensures UsedSpared(t, ext')
  {
    forall a | InUse(t, ext', a) && a in t.heap && t.heap[a].candidate ensures Marked(t, a) {
      MutatorUses(s, t, ext, ext', born, a);
      if a in born {
        assert BornAt(t, a);
      } else {
        assert MutatedAt(s, t, ext, a);
      }
    }
  }

  lemma MutatorClean(s: Rt, t: Rt, ext: Owners, ext': Owners, born: set<Addr>)
    requires CleanCandidates(s) && ReachedMarked(s, ext) && Mutates(s, t, ext, ext', born)
    requires WalkOk(t, ext') && UsedSpared(t, ext')
    ensures CleanCandidates(t)
  {
    forall a | a in t.heap && t.heap[a].candidate && !Marked(t, a)
      ensures CountFrom(t.heap[a], 0, a) == 0 && a !in Waiting(t)
    {
      assert a in born ==> BornAt(t, a);
      assert MutatedAt(s, t, ext, a);
      if a in Waiting(t) {
        StartInUse(t, ext', a, a);
      }
      SameFieldsSameCount(s.heap[a], t.heap[a], 0, a);
    }
  }

  lemma MutatorTreated(s: Rt, t: Rt, ext: Owners, ext': Owners, born: set<Addr>)
    requires ReclaimOk(s, ext) && Sound(t, ext') && Mutates(s, t, ext, ext', born)
    ensures forall i {:trigger t.candidates[i]} :: t.scan <= i < |t.candidates| ==> Treated(t, t.candidates[i])
  {
    forall i | t.scan <= i < |t.candidates| ensures Treated(t, t.candidates[i]) {
      var a := t.candidates[i];
      assert EntryOk(t, i);
      if a in born {
        assert BornAt(t, a);
      } else {
        assert Treated(s, s.candidates[i]) && MutatedAt(s, t, ext, a);
      }
    }
  }

  lemma MutatorReclaimPhase(s: Rt, t: Rt, ext: Owners, ext': Owners, born: set<Addr>)
    requires WalkOk(s, ext) && WalkOk(t, ext') && ReclaimPhase(s, ext) && Mutates(s, t, ext, ext', born) && !Pending(s)
    ensures ReclaimPhase(t, ext')
  {
    MutatorReachedMarked(s, t, ext, ext', born);
    MutatorSpared(s, t, ext, ext', born);
    MutatorClean(s, t, ext, ext', born);
    MutatorTreated(s, t, ext, ext', born);
    NothingTraced(t, ext');
    ListedIsWhole(t, ext');
  }

  lemma MutatorScanned(s: Rt, t: Rt, ext: Owners, ext': Owners, born: set<Addr>)
    requires ScannedMarked(s) && WalkOk(t, ext') && Mutates(s, t, ext, ext', born)
    ensures ScannedMarked(t)
  {
    forall i | t.scan <= i < |t.candidates| ensures Marked(t, t.candidates[i]) {
      var a := t.candidates[i];
      assert EntryOk(t, i);
      if a in born {
        assert BornAt(t, a);
      } else {
        assert Marked(s, s.candidates[i]) && MutatedAt(s, t, ext, a);
      }
    }
  }

  /** What the mutator must heed while a trace is pending: it frees nothing that is still to be walked, the
      barrier covers what it stores, and the trace will still come to everything it owns. */
  ghost predicate StepHeeds(s: Rt, ext: Owners, step: Step) {
    && Permitted(s, ext, step)
    && (Pending(s) ==>
          && (step.Give? ==> DropSpares(s, step.a))
          && (step.Set? ==> BarrierCovers(s, step.p, step.own, step.t))
          && OwnersShaded(Perform(s, step), PerformOwners(s, ext, step)))
  }

  /** Whatever was covered before is covered now. */
  ghost predicate EdgesCovered(s: Rt, t: Rt, born: set<Addr>) {
    forall p, i, c {:trigger CoveredEdge(t, p, i, c)} ::
      CoveredEdge(s, p, i, c) && p !in born ==> CoveredEdge(t, p, i, c)
  }

  lemma MutatorKeeps(s: Rt, t: Rt, ext: Owners, ext': Owners, born: set<Addr>)
    requires Inv(s, ext) && WalkOk(t, ext') && ImmediatesPlain(t.heap) && Mutates(s, t, ext, ext', born)
    requires Pending(s) ==> OwnersShaded(t, ext') && EdgesCovered(s, t, born)
    ensures Inv(t, ext')
  {
    match s.tracingState
    case TracingIdle => MutatorReachedMarked(s, t, ext, ext', born);
    case Tracing => MutatorTracePhase(s, t, ext, ext', born);
    case MutationPrepare => MutatorTracePhase(s, t, ext, ext', born);
    case Reclaiming => MutatorReclaimPhase(s, t, ext, ext', born);
  }

  lemma MutatorTracePhase(s: Rt, t: Rt, ext: Owners, ext': Owners, born: set<Addr>)
    requires WalkOk(s, ext) && TracePhase(s, ext) && WalkOk(t, ext') && Mutates(s, t, ext, ext', born)
    requires OwnersShaded(t, ext') && EdgesCovered(s, t, born)
    ensures TracePhase(t, ext')
  {
    MutatorScanned(s, t, ext, ext', born);
    forall p, i, c | Reached(t, ext', p) ensures CoveredEdge(t, p, i, c) {
      ReachShrinks(s, t, ext, ext', born, p);
      if p in born {
        assert !HoldsEdge(t.heap, p, i, c);
      } else {
        assert CoveredEdge(s, p, i, c);
      }
    }
  }

  function Born(step: Step): set<Addr> {
    if step.New? then {step.a} else {}
  }

  lemma NewMutates(s: Rt, ext: Owners, a: Addr, header: Header, rc: nat, length: nat)
    requires WalkOk(s, ext) && a !in s.heap && rc > 0
    ensures Mutates(s, Alloc(s, a, header, rc, length), ext, AddOwner(ext, a, rc), {a})
  {
    var t := Alloc(s, a, header, rc, length);
    forall q, i, c | HoldsEdge(t.heap, q, i, c) ensures q != a && HoldsEdge(s.heap, q, i, c) {
    }
    forall b | b in t.heap && Ext(AddOwner(ext, a, rc), b) > 0 ensures Reached(s, ext, b) || b == a {
      if b != a {
        OwnerReached(s, ext, b);
      }
    }
    forall b | b in t.heap && b != a ensures MutatedAt(s, t, ext, b) {
    }
  }

  lemma RetainMutates(s: Rt, ext: Owners, a: Addr)
    requires WalkOk(s, ext) && Reached(s, ext, a)
    ensures Mutates(s, Share(s, a), ext, AddOwner(ext, a, 1), {})
  {
    var t := Share(s, a);
    ReachedIsLive(s, ext, a);
    forall b | b in t.heap && Ext(AddOwner(ext, a, 1), b) > 0 ensures Reached(s, ext, b) {
      if b != a {
        OwnerReached(s, ext, b);
      }
    }
  }

  lemma GiveMutates(s: Rt, ext: Owners, a: Addr)
    requires WalkOk(s, ext) && a in s.heap && Ext(ext, a) > 0
    ensures Mutates(s, Drop(s, a), ext, RemoveOwner(ext, a), {})
  {
    assert ExactAt(s.heap, ext, a);
    forall b | Ext(ext, b) > 0 ensures Reached(s, ext, b) {
      OwnerReached(s, ext, b);
    }
    if s.heap[a].rc > 1 || !s.heap[a].header.layout.MonoImm? {
      DropInPlace(s, a);
      InPlaceMutates(s, Drop(s, a), ext, a);
    } else {
      DropAtOnce(s, a);
      FreedMutates(s, Drop(s, a), ext, a);
    }
  }

  lemma InPlaceMutates(s: Rt, t: Rt, ext: Owners, a: Addr)
    requires a in s.heap && Ext(ext, a) > 0 && forall b :: Ext(ext, b) > 0 ==> Reached(s, ext, b)
    requires t == s.(heap := t.heap, waiting := t.waiting) && a in t.heap && s.heap[a].rc > 0
    requires t.heap == s.heap[a := s.heap[a].(rc := s.heap[a].rc - 1, mark := t.heap[a].mark)]
    requires t.heap[a].mark == s.heap[a].mark || t.heap[a].mark == s.bit
    requires forall b :: b in t.waiting ==> b in s.waiting || b == a
    ensures Mutates(s, t, ext, RemoveOwner(ext, a), {})
  {
    assert SameEdges(s.heap, t.heap);
  }

  lemma FreedMutates(s: Rt, t: Rt, ext: Owners, a: Addr)
    requires Ext(ext, a) > 0 && forall b :: Ext(ext, b) > 0 ==> Reached(s, ext, b)
    requires t == s.(heap := s.heap - {a})
    ensures Mutates(s, t, ext, RemoveOwner(ext, a), {})
  {
    forall b | b in t.heap ensures MutatedAt(s, t, ext, b) {
    }
  }

  lemma FieldReached(s: Rt, ext: Owners, p: Addr, i: nat, a: Addr)
    requires Reached(s, ext, p) && HoldsEdge(s.heap, p, i, a)
    ensures Reached(s, ext, a)
  {
    OwnEdge(s.heap, p, i, a);
    ReachesEdge(OwnGraph(s.heap), p, a);
    FromRootsStep(OwnGraph(s.heap), Roots(s.heap, ext), p, a);
  }

  lemma TakeMutates(s: Rt, ext: Owners, p: Addr, i: nat)
    requires WalkOk(s, ext) && Reached(s, ext, p) && p in s.heap && i < |s.heap[p].slots|
    ensures Mutates(s, SetSlot(s, p, i, Null), ext, TakeOwners(s, ext, p, i), {})
  {
    var t := SetSlot(s, p, i, Null);
    ReachedIsLive(s, ext, p);
    forall b | b in t.heap && Ext(TakeOwners(s, ext, p, i), b) > 0 ensures Reached(s, ext, b) {
      if Ext(ext, b) > 0 {
        OwnerReached(s, ext, b);
      } else {
        FieldReached(s, ext, p, i, b);
      }
    }
  }

  lemma SetMutates(s: Rt, ext: Owners, p: Addr, own: bool, i: nat, t: Addr)
    requires WalkOk(s, ext) && StoreAllowed(s, ext, p, i, t)
    ensures Mutates(s, StoreOwn(s, p, own, i, t), ext, StoreOwners(s, ext, p, i, t), {})
  {
    var s' := StoreOwn(s, p, own, i, t);
    ReachedIsLive(s, ext, p);
    OwnerReached(s, ext, t);
    StoreEdges(s, ext, p, own, i, t);
    StoreRewrites(s, ext, p, own, i, t);
    forall b | b in s'.heap && Ext(StoreOwners(s, ext, p, i, t), b) > 0 ensures Reached(s, ext, b) {
      if Ext(ext, b) > 0 {
        OwnerReached(s, ext, b);
      } else {
        FieldReached(s, ext, p, i, b);
      }
    }
    forall b | b in s'.heap ensures MutatedAt(s, s', ext, b) {
    }
  }

  lemma StoreRewrites(s: Rt, ext: Owners, p: Addr, own: bool, i: nat, t: Addr)
    requires StoreAllowed(s, ext, p, i, t)
    ensures var s' := StoreOwn(s, p, own, i, t);
      && s'.heap.Keys == s.heap.Keys
      && (forall b :: b in s.heap && b != p ==> s'.heap[b].slots == s.heap[b].slots)
      && (forall b :: b in s.heap ==> s'.heap[b].mark == s.heap[b].mark || s'.heap[b].mark == s.bit)
      && (s'.mutations == s.mutations || Pending(s))
  {
    StoreHeap(s, ext, p, own, i, t);
    NotifyMarks(Put(s, p, Stored(s.heap[p], i, t)), p, own, t);
  }

  lemma PermittedMutates(s: Rt, ext: Owners, step: Step)
    requires WalkOk(s, ext) && Permitted(s, ext, step)
    ensures Mutates(s, Perform(s, step), ext, PerformOwners(s, ext, step), Born(step))
  {
    match step
    case New(a, header, rc, length) => NewMutates(s, ext, a, header, rc, length);
    case Retain(a) => RetainMutates(s, ext, a);
    case Give(a) => GiveMutates(s, ext, a);
    case Take(p, i) => TakeMutates(s, ext, p, i);
    case Set(p, own, i, t) => SetMutates(s, ext, p, own, i, t);
  }

  lemma PermittedWalks(s: Rt, ext: Owners, step: Step)
    requires WalkOk(s, ext) && ImmediatesPlain(s.heap) && Permitted(s, ext, step)
    requires step.Give? ==> DropSpares(s, step.a)
    ensures WalkOk(Perform(s, step), PerformOwners(s, ext, step)) && ImmediatesPlain(Perform(s, step).heap)
  {
    MutatorPlain(s, ext, step);
    match step
    case New(a, header, rc, length) => AllocWalks(s, ext, a, header, rc, length);
    case Retain(a) => ShareWalks(s, ext, a);
    case Give(a) => GiveWalks(s, ext, a);
    case Take(p, i) => ClearWalks(s, ext, p, i);
    case Set(p, own, i, t) => StoreWalks(s, ext, p, own, i, t);
  }

  lemma GiveWalks(s: Rt, ext: Owners, a: Addr)
    requires WalkOk(s, ext) && ImmediatesPlain(s.heap) && Ext(ext, a) > 0 && DropSpares(s, a)
    ensures WalkOk(Drop(s, a), RemoveOwner(ext, a))
  {
    assert ExactAt(s.heap, ext, a);
    if s.heap[a].rc > 1 || !s.heap[a].header.layout.MonoImm? {
      DropWalks(s, ext, a);
    } else {
      FreeingDropWalksIff(s, ext, a);
    }
  }

  lemma PermittedCovers(s: Rt, ext: Owners, step: Step)
    requires WalkOk(s, ext) && Permitted(s, ext, step) && Pending(s)
    requires step.Set? ==> BarrierCovers(s, step.p, step.own, step.t)
    ensures EdgesCovered(s, Perform(s, step), Born(step))
  {
    var s' := Perform(s, step);
    forall q, j, c | CoveredEdge(s, q, j, c) && q !in Born(step) ensures CoveredEdge(s', q, j, c) {
      match step
      case New(a, header, rc, length) => AllocCovers(s, ext, a, header, rc, length, q, j, c);
      case Retain(a) => ReachedIsLive(s, ext, a);
      case Give(a) => DropCovers(s, ext, a, q, j, c);
      case Take(p, i) => ClearCovers(s, p, i, q, j, c);
      case Set(p, own, i, t) => StoreCovers(s, ext, p, own, i, t, q, j, c);
    }
  }

  /** Every step of the mutator that heeds the trace keeps the invariant, in any phase. */
  lemma MutatorStepKeeps(s: Rt, ext: Owners, step: Step)
    requires Inv(s, ext) && StepHeeds(s, ext, step)
    ensures Inv(Perform(s, step), PerformOwners(s, ext, step))
  {
    PermittedMutates(s, ext, step);
    if !Pending(s) && step.Give? {
      NothingTraced(s, ext);
    }
    PermittedWalks(s, ext, step);
    if Pending(s) {
      PermittedCovers(s, ext, step);
    }
    MutatorKeeps(s, Perform(s, step), ext, PerformOwners(s, ext, step), Born(step));
  }

  // ----- the machines leave what the program reaches alone -----

  ghost predicate KeptAt(s: Rt, t: Rt, a: Addr) {
    && a in s.heap && a in t.heap && Holding(t.heap[a])
    && t.heap[a].header == s.heap[a].header && t.heap[a].slots == s.heap[a].slots
  }

  ghost predicate KeepsReached(s: Rt, t: Rt, ext: Owners) {
    forall a {:trigger KeptAt(s, t, a)} :: Reached(s, ext, a) ==> KeptAt(s, t, a)
  }

  lemma KeptReach(s: Rt, t: Rt, ext: Owners, x: Addr)
    requires WalkOk(s, ext) && KeepsReached(s, t, ext) && Reached(s, ext, x)
    ensures Reached(t, ext, x)
  {
    var g := OwnGraph(s.heap);
    var r := FromSome(g, Roots(s.heap, ext), x);
    var w :| WalkBetween(g, w, r, x);
    ReachesRefl(g, r);
    forall i | 0 < i < |w| ensures Edge(OwnGraph(t.heap), w[i - 1], w[i]) {
      WalkReaches(g, w, 0, i - 1);
      FromRootsStep(g, Roots(s.heap, ext), r, w[i - 1]);
      assert Edge(g, w[i - 1], w[i]) && KeptAt(s, t, w[i - 1]);
      var j := OwnEdgeField(s.heap, w[i - 1], w[i]);
      OwnEdge(t.heap, w[i - 1], j, w[i]);
    }
    assert KeptAt(s, t, r) && r in Roots(t.heap, ext) && WalkBetween(OwnGraph(t.heap), w, r, x);
  }

  lemma WorkKeepsReached(s: Rt, ext: Owners, a: Addr)
    requires Inv(s, ext) && s.tracingState == Tracing && Reached(s, ext, a)
    ensures KeptAt(s, TraceStep(s), a)
  {
    ReachedIsLive(s, ext, a);
    TraceStepWalks(s, ext);
    assert RecolouredAt(s.heap, TraceStep(s).heap, a);
  }

  lemma TracingTurnKeepsReached(s: Rt, ext: Owners, due: bool, roots: seq<Addr>)
    requires Inv(s, ext) && TracingTurn(s, due, roots).Next? && TurnHeeds(s, ext, due, roots)
    ensures KeepsReached(s, TracingTurn(s, due, roots).s, ext)
  {
    var t := TracingTurn(s, due, roots).s;
    forall a | Reached(s, ext, a) ensures KeptAt(s, t, a) {
      ReachedIsLive(s, ext, a);
      match s.tracingState {
        case TracingIdle =>
          StartWalks(s, ext, roots);
          assert RecolouredAt(s.heap, t.heap, a);
        case Tracing => WorkKeepsReached(s, ext, a);
        case MutationPrepare =>
          if s.mutations != [] {
            PrepareStepWalks(s, ext);
            assert RecolouredAt(s.heap, t.heap, a);
          }
        case Reclaiming =>
          if !ReclaimDone(s) {
            ReclaimKeepsReached(s, ext, a);
          }
      }
    }
  }

  lemma ReclaimKeepsReached(s: Rt, ext: Owners, a: Addr)
    requires WalkOk(s, ext) && ReclaimPhase(s, ext) && !ReclaimDone(s) && Reached(s, ext, a)
    ensures KeptAt(s, ReclaimStep(s), a)
  {
    var t := ReclaimStep(s);
    ReachedInStore(s, ext, a);
    UsedProtected(s, ext);
    CleanIsSafe(s, ext);
    ReclaimStepKeeps(s, ext, ReachedSet(s.heap, ext));
    assert SupportedAt(t.heap, ext, Kept(ReachedSet(s.heap, ext), Waiting(t)), a) && LastsAt(s, t, a);
  }

  lemma ReleaseStepKeepsReached(s: Rt, ext: Owners)
    requires Inv(s, ext) && s.releasingState == Releasing && ReleaseHeeds(s)
    ensures KeepsReached(s, ReleaseStep(s), ext)
  {
    ReleaseWalksIff(s, ext);
    ReleaseStepReleases(s, ext);
    var t, b := ReleaseStep(s), s.releasing[|s.releasing| - 1];
    assert b in Queue(s) && QueuedOk(s, b);
    forall a | Reached(s, ext, a) ensures KeptAt(s, t, a) {
      ReleaseReach(s, t, ext, b, a);
      ReachedIsLive(t, ext, a);
      assert SurvivesAs(s.heap[a], t.heap[a], s.bit);
    }
  }

  lemma ReleasingTurnKeepsReached(s: Rt, ext: Owners, threshold: nat)
    requires Inv(s, ext) && ReleasingTurn(s, threshold).Next? && ReleaseHeeds(s)
    ensures KeepsReached(s, ReleasingTurn(s, threshold).s, ext)
  {
    var t := ReleasingTurn(s, threshold).s;
    if s.releasingState == Releasing {
      ReleaseStepKeepsReached(s, ext);
      forall a | Reached(s, ext, a) ensures KeptAt(s, t, a) {
        assert KeptAt(s, ReleaseStep(s), a);
      }
    } else {
      forall a | Reached(s, ext, a) ensures KeptAt(s, t, a) {
        ReachedIsLive(s, ext, a);
      }
    }
  }

  // ----- what a collection leaves -----

  /** When a reclaim is over, in however many turns and whatever the mutator did meanwhile, everything that owners
      and release lists hold is whole, and everything whole is held by them or by a cycle of own references
      whose registered members are all marked. */
  lemma ReclaimLeaves(s: Rt, ext: Owners)
    requires Inv(s, ext) && s.tracingState == Reclaiming && ReclaimDone(s)
    ensures HeldSet(s, ext) <= Untouched(s.heap) <= AnchoredSet(s, ext)
  {
    UsedIsHeld(s, ext);
    forall a | a in HeldSet(s, ext) ensures a in Untouched(s.heap) {
      assert InUse(s, ext, a) && WholeAt(s, a);
    }
    DoneIsProtected(s, ext);
    forall a | a in Untouched(s.heap) ensures a in AnchoredSet(s, ext) {
      ProtectedIsAnchored(s, ext, Untouched(s.heap), a);
    }
  }

  // ----- every history -----

  datatype Move =
    | Trace(due: bool, roots: seq<Addr>)
    | Release(threshold: nat)
    | Mutate(step: Step)

  function After(s: Rt, m: Move): Rt {
    match m
    case Trace(due, roots) => (match TracingTurn(s, due, roots) case Next(t) => t case Stop => s)
    case Release(threshold) => (match ReleasingTurn(s, threshold) case Next(t) => t case Stop => s)
    case Mutate(step) => Perform(s, step)
  }

  function OwnersAfter(s: Rt, ext: Owners, m: Move): Owners {
    if m.Mutate? then PerformOwners(s, ext, m.step) else ext
  }

  ghost predicate Heeds(s: Rt, ext: Owners, m: Move) {
    match m
    case Trace(due, roots) => TurnHeeds(s, ext, due, roots)
    case Release(_) => ReleaseHeeds(s)
    case Mutate(step) => StepHeeds(s, ext, step)
  }

  lemma MoveKeeps(s: Rt, ext: Owners, m: Move)
    requires Inv(s, ext) && Heeds(s, ext, m)
    ensures Inv(After(s, m), OwnersAfter(s, ext, m))
  {
    match m
    case Trace(due, roots) =>
      if TracingTurn(s, due, roots).Next? {
        TracingTurnKeeps(s, ext, due, roots);
      }
    case Release(threshold) =>
      if ReleasingTurn(s, threshold).Next? {
        ReleasingTurnKeeps(s, ext, threshold);
      }
    case Mutate(step) => MutatorStepKeeps(s, ext, step);
  }

  function AfterAll(s: Rt, ext: Owners, moves: seq<Move>): (Rt, Owners)
    decreases |moves|
  {
    if moves == [] then (s, ext) else AfterAll(After(s, moves[0]), OwnersAfter(s, ext, moves[0]), moves[1..])
  }

  ghost predicate AllHeed(s: Rt, ext: Owners, moves: seq<Move>)
    decreases |moves|
  {
    moves == []
    || (Heeds(s, ext, moves[0]) && AllHeed(After(s, moves[0]), OwnersAfter(s, ext, moves[0]), moves[1..]))
  }

  /** Over any history, with collections cut into turns and mutation and release between any two of them,
      nothing faults, and whatever the program reaches is in the heap, alive and whole. */
  lemma {:induction false} AlwaysSafe(s: Rt, ext: Owners, moves: seq<Move>)
    requires Inv(s, ext) && AllHeed(s, ext, moves)
    ensures var (t, extT) := AfterAll(s, ext, moves);
      && Inv(t, extT) && !t.fault
      && (forall a :: Reached(t, extT, a) ==> a in t.heap && t.heap[a].rc > 0 && Holding(t.heap[a]))
      && (t.tracingState == TracingIdle ==> forall a :: Reached(t, extT, a) ==> Marked(t, a))
    decreases |moves|
  {
    if moves == [] {
      forall a | Reached(s, ext, a) ensures a in s.heap && s.heap[a].rc > 0 && Holding(s.heap[a]) {
        ReachedIsSafe(s, ext, a);
      }
    } else {
      MoveKeeps(s, ext, moves[0]);
      AlwaysSafe(After(s, moves[0]), OwnersAfter(s, ext, moves[0]), moves[1..]);
    }
  }

  /** The state the runtime starts in. */
  function StartState(bit: bool): Rt {
    Rt(map[], bit, [], [], [], [], [], [], 0, TracingIdle, ReleasingIdle, 0, 0, 0, 0, false)
  }

  lemma StartStateOk(bit: bool)
    ensures Inv(StartState(bit), map[])
  {
    var s := StartState(bit);
    assert Queue(s) == multiset{};
    assert Starts(s, map[]) == {} && Roots(s.heap, map[]) == {};
    forall a ensures !InUse(s, map[], a) && !Reached(s, map[], a) {
    }
  }

  // ----- a call returns -----

  /** Seen from a pending trace: the reclaim will find no candidate in use unmarked, and no unmarked one
      that owns itself. */
  ghost predicate CleanAhead(s: Rt, ext: Owners) {
    forall a {:trigger AheadAt(s, ext, a)} :: a in s.heap && s.heap[a].candidate ==> AheadAt(s, ext, a)
  }

  ghost predicate AheadAt(s: Rt, ext: Owners, a: Addr)
    requires a in s.heap
  {
    Marked(s, a) || Reached(s, ext, a) || (!Held(s, ext, a) && CountFrom(s.heap[a], 0, a) == 0)
  }

  lemma HeldStays(s: Rt, t: Rt, ext: Owners, a: Addr)
    requires WalkOk(s, ext) && forall q, i, c :: HoldsEdge(t.heap, q, i, c) ==> HoldsEdge(s.heap, q, i, c)
    requires t.releasing == s.releasing && t.waiting == s.waiting && Held(t, ext, a)
    ensures Held(s, ext, a)
  {
    FewerEdgesReach(s.heap, t.heap, Holders(t, ext), a);
    var r := FromSome(OwnGraph(s.heap), Holders(t, ext), a);
    if r in Waiting(t) {
      WaitingIsDead(s, ext, r);
    } else {
      OwnerIsRoot(s, ext, r);
    }
    assert r in Holders(s, ext);
  }

  lemma OwnerIsRoot(s: Rt, ext: Owners, a: Addr)
    requires WalkOk(s, ext) && Ext(ext, a) > 0
    ensures a in Roots(s.heap, ext)
  {
    StartIsWhole(s, ext, a);
    assert ExactAt(s.heap, ext, a) && DeadOk(s, {}, a);
  }

  lemma ColoursKeepAhead(s: Rt, t: Rt, ext: Owners)
    requires WalkOk(s, ext) && WalkOk(t, ext) && CleanAhead(s, ext) && Colours(s, t, ext)
    requires t.heap.Keys <= s.heap.Keys && forall a :: a in t.heap ==> RecolouredAt(s.heap, t.heap, a)
    ensures CleanAhead(t, ext)
  {
    forall a | a in t.heap && t.heap[a].candidate ensures AheadAt(t, ext, a) {
      assert RecolouredAt(s.heap, t.heap, a) && AheadAt(s, ext, a);
      SameReach(s, t, ext, a);
      SameFieldsSameCount(s.heap[a], t.heap[a], 0, a);
      if Held(t, ext, a) {
        HeldStays(s, t, ext, a);
      }
    }
  }

  lemma AheadStarts(s: Rt, ext: Owners)
    requires WalkOk(s, ext) && TracePhase(s, ext) && s.work == s.mutations == [] && CleanAhead(s, ext)
    ensures ReclaimCanStart(s.(tracingState := Reclaiming), ext)
  {
    var t := s.(tracingState := Reclaiming);
    DrainedMarksReached(s, ext);
    UsedIsHeld(s, ext);
    forall a | InUse(t, ext, a) && a in t.heap && t.heap[a].candidate ensures Marked(t, a) {
      assert Starts(t, ext) == Starts(s, ext) && Held(s, ext, a) && AheadAt(s, ext, a);
    }
    forall a | a in t.heap && t.heap[a].candidate && !Marked(t, a)
      ensures CountFrom(t.heap[a], 0, a) == 0 && a !in Waiting(t)
    {
      assert AheadAt(s, ext, a);
      ReachesRefl(OwnGraph(s.heap), a);
      assert a in Waiting(t) ==> a in Holders(s, ext);
    }
  }

  lemma StateWordAhead(s: Rt, ext: Owners, st: TracingState)
    requires CleanAhead(s, ext)
    ensures CleanAhead(s.(tracingState := st), ext)
  {
    var t := s.(tracingState := st);
    forall a | a in t.heap && t.heap[a].candidate ensures AheadAt(t, ext, a) {
      assert AheadAt(s, ext, a) && Holders(t, ext) == Holders(s, ext);
    }
  }

  ghost function Phase(s: Rt): nat {
    match s.tracingState
    case TracingIdle => 0
    case Reclaiming => 1
    case _ => 2
  }

  ghost function MajorWork(s: Rt): nat {
    match s.tracingState
    case TracingIdle => 0
    case Reclaiming => |Alive(s.heap)|
    case _ => |Unmarked(s)|
  }

  ghost function MinorWork(s: Rt): nat {
    match s.tracingState
    case TracingIdle => 0
    case Reclaiming => |s.lost| + s.scan
    case _ => |s.mutations|
  }

  /** The termination measure goes down, most significant component first. */
  ghost predicate Less(t: Rt, s: Rt) {
    Phase(t) < Phase(s)
    || (Phase(t) == Phase(s)
        && (MajorWork(t) < MajorWork(s)
            || (MajorWork(t) == MajorWork(s)
                && (MinorWork(t) < MinorWork(s)
                    || (MinorWork(t) == MinorWork(s)
                        && (|t.work| < |s.work|
                            || (|t.work| == |s.work| && t.tracingState == Tracing
                                && s.tracingState == MutationPrepare)))))))
  }

  /** The invariant, and the assurance that the reclaim to come can start. */
  ghost predicate GoesOn(s: Rt, ext: Owners) {
    Inv(s, ext) && (Pending(s) ==> CleanAhead(s, ext))
  }

  lemma WorkStepAhead(s: Rt, ext: Owners)
    requires GoesOn(s, ext) && s.tracingState == Tracing
    ensures var t := TraceStep(s);
      WalkOk(t, ext) && TracePhase(t, ext) && CleanAhead(t, ext) && t.tracingState == Tracing
  {
    var t := TraceStep(s);
    TraceStepColours(s, ext);
    TraceStepWalks(s, ext);
    ColoursKeepPhase(s, t, ext);
    ColoursKeepAhead(s, t, ext);
  }

  lemma WorkTurnGoesOn(s: Rt, ext: Owners, due: bool, roots: seq<Addr>)
    requires GoesOn(s, ext) && s.tracingBudget > 0 && s.tracingState == Tracing
    ensures GoesOn(TracingTurn(s, due, roots).s, ext) && TurnHeeds(s, ext, due, roots)
  {
    var t := TraceStep(s);
    WorkStepAhead(s, ext);
    if t.work == [] && t.mutations == [] {
      AheadStarts(t, ext);
    } else if t.mutations != [] {
      StateWordAhead(t, ext, MutationPrepare);
    }
    WorkTurn(s, ext, due, roots);
  }

  lemma WorkTurnLess(s: Rt, ext: Owners, due: bool, roots: seq<Addr>)
    requires WalkOk(s, ext) && s.work != [] && s.tracingBudget > 0 && s.tracingState == Tracing
    ensures Less(TracingTurn(s, due, roots).s, s)
  {
    var t := TraceStep(s);
    TraceStepColours(s, ext);
    TraceMeasure(s, ext);
    if t.mutations != [] {
      assert Unmarked(t.(tracingState := MutationPrepare)) == Unmarked(t);
    }
  }

  lemma PrepareTurnLess(s: Rt, ext: Owners, due: bool, roots: seq<Addr>)
    requires GoesOn(s, ext) && s.tracingBudget > 0 && s.tracingState == MutationPrepare
    ensures var t := TracingTurn(s, due, roots).s;
      GoesOn(t, ext) && Less(t, s) && TurnHeeds(s, ext, due, roots)
  {
    if s.mutations != [] {
      var t := PrepareStep(s);
      PrepareStepColours(s, ext);
      PrepareStepWalks(s, ext);
      ColoursKeepAhead(s, t, ext);
    } else if s.work != [] {
      StateWordAhead(s, ext, Tracing);
      assert Unmarked(s.(tracingState := Tracing)) == Unmarked(s);
    } else {
      AheadStarts(s, ext);
    }
    PrepareTurn(s, ext, due, roots);
  }

  lemma ReclaimTurnLess(s: Rt, ext: Owners, due: bool, roots: seq<Addr>)
    requires GoesOn(s, ext) && s.tracingBudget > 0 && s.tracingState == Reclaiming
    ensures var t := TracingTurn(s, due, roots).s;
      GoesOn(t, ext) && Less(t, s) && TurnHeeds(s, ext, due, roots)
  {
    ReclaimTurn(s, ext, due, roots);
    if !ReclaimDone(s) {
      ProgressStarts(s, ext);
      ProgressStep(s, s, ext);
      AliveMeasure(s, ReclaimStep(s));
    }
  }

  /** Outside idle every turn leads on: the measure goes down, and the next turn has what it needs. */
  lemma BusyTurnLess(s: Rt, ext: Owners, due: bool, roots: seq<Addr>)
    requires GoesOn(s, ext) && s.tracingBudget > 0 && s.tracingState != TracingIdle
    ensures var t := TracingTurn(s, due, roots).s;
      GoesOn(t, ext) && Less(t, s) && TurnHeeds(s, ext, due, roots)
  {
    match s.tracingState
    case Tracing =>
      WorkTurnGoesOn(s, ext, due, roots);
      WorkTurnLess(s, ext, due, roots);
    case MutationPrepare => PrepareTurnLess(s, ext, due, roots);
    case Reclaiming => ReclaimTurnLess(s, ext, due, roots);
  }

  /** From the middle of a collection, disturbed or not, the turns end: at idle, or with the budget used up. */
  ghost function RunToIdle(s: Rt, ext: Owners): (r: Rt)
    requires GoesOn(s, ext)
    ensures Inv(r, ext) && (r.tracingState == TracingIdle || r.tracingBudget <= 0)
    decreases Phase(s), MajorWork(s), MinorWork(s), |s.work|, s.tracingState == MutationPrepare
  {
    if s.tracingState == TracingIdle || s.tracingBudget <= 0 then s
    else
      BusyTurnLess(s, ext, false, []);
      RunToIdle(TracingTurn(s, false, []).s, ext)
  }

  // ----- starting in the middle of a call -----

  /** Whenever a trace starts from here, its reclaim will be able to start. */
  ghost predicate AlwaysClean(s: Rt, ext: Owners) {
    forall a {:trigger CleanAt(s, ext, a)} :: a in s.heap && s.heap[a].candidate ==> CleanAt(s, ext, a)
  }

  ghost predicate CleanAt(s: Rt, ext: Owners, a: Addr)
    requires a in s.heap
  {
    Reached(s, ext, a) || (!Held(s, ext, a) && CountFrom(s.heap[a], 0, a) == 0)
  }

  lemma AlwaysCleanIsAhead(s: Rt, ext: Owners)
    requires AlwaysClean(s, ext)
    ensures CleanAhead(s, ext)
  {
    forall a | a in s.heap && s.heap[a].candidate ensures AheadAt(s, ext, a) {
      assert CleanAt(s, ext, a);
    }
  }

  /** What no turn of the tracing machine changes. */
  ghost predicate Turned(s: Rt, t: Rt) {
    && t.releasing == s.releasing && t.waiting == s.waiting
    && (forall q, i, c :: HoldsEdge(t.heap, q, i, c) ==> HoldsEdge(s.heap, q, i, c))
    && (forall a {:trigger t.heap[a]} :: a in t.heap ==>
          a in s.heap && t.heap[a].header == s.heap[a].header && t.heap[a].slots == s.heap[a].slots
          && t.heap[a].candidate == s.heap[a].candidate)
  }

  lemma WorkTurned(s: Rt, t: Rt, ext: Owners)
    requires Inv(s, ext) && s.tracingState == Tracing && t == TraceStep(s).(tracingState := t.tracingState)
    ensures Turned(s, t)
  {
    TraceStepWalks(s, ext);
    WalkedEdges(s, TraceStep(s), s.work[|s.work| - 1]);
    forall a | a in t.heap ensures RecolouredAt(s.heap, TraceStep(s).heap, a) {
    }
  }

  lemma ReclaimTurned(s: Rt, ext: Owners)
    requires Inv(s, ext) && s.tracingState == Reclaiming && !ReclaimDone(s)
    ensures Turned(s, ReclaimStep(s))
  {
    var t := ReclaimStep(s);
    ReclaimStepWalks(s, ext);
    LastsEdges(s, t, ext);
    forall a | a in t.heap ensures LastsAt(s, t, a) {
    }
  }

  lemma TracingTurnTurns(s: Rt, ext: Owners, due: bool, roots: seq<Addr>)
    requires Inv(s, ext) && TracingTurn(s, due, roots).Next? && TurnHeeds(s, ext, due, roots)
    ensures Turned(s, TracingTurn(s, due, roots).s)
  {
    var t := TracingTurn(s, due, roots).s;
    match s.tracingState
    case TracingIdle =>
      StartWalks(s, ext, roots);
      RecolouredTurns(s, t);
    case Tracing => WorkTurned(s, t, ext);
    case MutationPrepare =>
      if s.mutations != [] {
        PrepareStepWalks(s, ext);
        RecolouredTurns(s, t);
      }
    case Reclaiming =>
      if !ReclaimDone(s) {
        ReclaimTurned(s, ext);
      }
  }

  lemma RecolouredTurns(s: Rt, t: Rt)
    requires Recoloured(s, t)
    ensures Turned(s, t)
  {
    RecolouredEdges(s, t);
    forall a | a in t.heap ensures RecolouredAt(s.heap, t.heap, a) {
    }
  }

  lemma TurnedClean(s: Rt, t: Rt, ext: Owners)
    requires WalkOk(s, ext) && AlwaysClean(s, ext) && Turned(s, t) && KeepsReached(s, t, ext)
    ensures AlwaysClean(t, ext)
  {
    forall a | a in t.heap && t.heap[a].candidate ensures CleanAt(t, ext, a) {
      assert CleanAt(s, ext, a);
      SameFieldsSameCount(s.heap[a], t.heap[a], 0, a);
      if Reached(s, ext, a) {
        KeptReach(s, t, ext, a);
      } else if Held(t, ext, a) {
        HeldStays(s, t, ext, a);
      }
    }
  }

  /** What a call to the tracing machine needs. */
  ghost predicate Ready(s: Rt, ext: Owners, due: bool, roots: seq<Addr>) {
    && GoesOn(s, ext)
    && (due && s.cyclicAlloc > s.cyclicAllocAtTrace ==>
          AlwaysClean(s, ext) && forall a :: a in roots <==> Ext(ext, a) > 0)
  }

  lemma OwnersAreRoots(s: Rt, ext: Owners, roots: seq<Addr>)
    requires WalkOk(s, ext) && forall a :: a in roots <==> Ext(ext, a) > 0
    ensures RootsAre(s, ext, roots)
  {
    forall a ensures a in roots <==> a in Roots(s.heap, ext) {
      if Ext(ext, a) > 0 {
        OwnerIsRoot(s, ext, a);
      }
    }
  }

  lemma StartTurnReady(s: Rt, ext: Owners, due: bool, roots: seq<Addr>)
    requires Ready(s, ext, due, roots) && s.tracingState == TracingIdle && TracingTurn(s, due, roots).Next?
    ensures TurnHeeds(s, ext, due, roots) && GoesOn(StartTrace(s, roots), ext)
  {
    var t := StartTrace(s, roots);
    OwnersAreRoots(s, ext, roots);
    StartWalks(s, ext, roots);
    StartPhase(s, ext, roots);
    RecolouredTurns(s, t);
    forall a | Reached(s, ext, a) ensures KeptAt(s, t, a) {
      ReachedIsLive(s, ext, a);
      assert RecolouredAt(s.heap, t.heap, a);
    }
    TurnedClean(s, t, ext);
    AlwaysCleanIsAhead(t, ext);
    if t.work == [] {
      AheadStarts(t, ext);
      assert t.(tracingState := Reclaiming) == t;
    }
    StartTurn(s, ext, due, roots);
  }

  lemma BusyTurnReady(s: Rt, ext: Owners, due: bool, roots: seq<Addr>)
    requires Ready(s, ext, due, roots) && s.tracingState != TracingIdle && s.tracingBudget > 0
    requires var t := TracingTurn(s, due, roots).s;
      t.cyclicAlloc == s.cyclicAlloc && t.cyclicAllocAtTrace == s.cyclicAllocAtTrace
    ensures Ready(TracingTurn(s, due, roots).s, ext, due, roots) && TurnHeeds(s, ext, due, roots)
  {
    BusyTurnLess(s, ext, due, roots);
    if due && s.cyclicAlloc > s.cyclicAllocAtTrace {
      TracingTurnKeepsReached(s, ext, due, roots);
      TracingTurnTurns(s, ext, due, roots);
      TurnedClean(s, TracingTurn(s, due, roots).s, ext);
    }
  }

  lemma KeepsReachedTrans(s: Rt, t: Rt, u: Rt, ext: Owners)
    requires WalkOk(s, ext) && KeepsReached(s, t, ext) && KeepsReached(t, u, ext)
    ensures KeepsReached(s, u, ext)
  {
    forall a | Reached(s, ext, a) ensures KeptAt(s, u, a) {
      KeptReach(s, t, ext, a);
      assert KeptAt(s, t, a) && KeptAt(t, u, a);
    }
  }
}
