/** The runtime state as the program keeps it: one object updated in place. Every
    method is tied to the state function of the same step; the laws proved of those
    functions are what the methods rely on. */
module Runtime {
  import opened Heap
  import R = Registry
  import D = Dismantle
  import opened Releasing
  import L = LostCycles
  import M = Marking
  import U = Mutator
  import opened Collector
  import H = History
  import Machine

  // ----- a fault, once recorded, stays recorded -----

  lemma {:induction false} DismantleFaults(s: Rt, o: Obj, i: nat, route: D.Route)
    requires s.fault
    ensures D.DismantleFrom(s, o, i, route).fault
    decreases |o.slots| - i
  {
    if i < |o.slots| {
      if OwnsAt(o, i) {
        DismantleFaults(D.DecrChild(s, o.slots[i].target, route), o, i + 1, route);
      } else {
        DismantleFaults(s, o, i + 1, route);
      }
    }
  }

  lemma FreeFaults(s: Rt, a: Addr)
    requires s.fault
    ensures R.FreeReleased(s, a).fault
  {
  }

  lemma {:induction false} PushFaults(s: Rt, o: Obj, i: nat)
    requires s.fault
    ensures M.PushFrom(s, o, i).fault
    decreases |o.slots| - i
  {
    if i < |o.slots| {
      if OwnsAt(o, i) {
        PushFaults(M.PushWork(s, o.slots[i].target), o, i + 1);
      } else {
        PushFaults(s, o, i + 1);
      }
    }
  }

  lemma {:induction false} RootFaults(s: Rt, roots: seq<Addr>)
    requires s.fault
    ensures M.PushRoots(s, roots).fault
    decreases |roots|
  {
    if roots != [] {
      RootFaults(M.PushWork(s, roots[0]), roots[1..]);
    }
  }

  lemma StepSupports(s: Rt, ext: Owners)
    requires ReleasingOk(s, ext) && s.releasing != []
    ensures forall keep :: LiveSupported(s.heap, ext, keep) ==> LiveSupported(ReleaseStep(s).heap, ext, keep)
  {
    forall keep | LiveSupported(s.heap, ext, keep) ensures LiveSupported(ReleaseStep(s).heap, ext, keep) {
      forall a | a in keep ensures a !in s.releasing {
        LiveHasCount(s, ext, keep, a);
        assert a in s.releasing ==> a in D.Queue(s);
      }
      ReleaseStepKeeps(s, ext, D.Kept(keep, {}));
    }
  }

  // ----- one call -----

  /** At rest with nothing unusual about the candidates, or in the middle of an undisturbed collection. */
  ghost predicate Calm(s: Rt, ext: Owners, base: Rt, traced: Rt) {
    if s.tracingState == TracingIdle then IdleOk(s, ext) && CleanStart(s, ext)
    else CycleOk(s, ext, base, traced) && CleanStart(base, ext)
  }

  /** The turn started a trace, which consumes the allocations since the last. */
  ghost predicate Starts(s: Rt, t: Rt) {
    s.cyclicAlloc > s.cyclicAllocAtTrace && t.cyclicAlloc <= t.cyclicAllocAtTrace
  }

  ghost predicate SameStarts(s: Rt, t: Rt) {
    t.cyclicAlloc == s.cyclicAlloc && t.cyclicAllocAtTrace == s.cyclicAllocAtTrace
  }

  lemma ReadyIsMachine(s: Rt, ext: Owners)
    requires H.Inv(s, ext)
    ensures Machine.MachineOk(s)
  {
  }

  lemma KeptRefl(s: Rt, ext: Owners)
    requires H.Inv(s, ext)
    ensures H.KeepsReached(s, s, ext)
  {
    forall a | U.Reached(s, ext, a) ensures H.KeptAt(s, s, a) {
      U.ReachedIsLive(s, ext, a);
    }
  }

  lemma CalmStarts(s: Rt, t: Rt, ext: Owners)
    requires CycleTracing(t, ext, s) && t.tracingState == (if t.work == [] then Reclaiming else Tracing)
    requires CleanStart(s, ext)
    ensures CycleOk(t, ext, s, t)
  {
    if t.work == [] {
      TraceToReclaim(t, ext, s);
      assert t.(tracingState := Reclaiming) == t;
    }
  }

  /** There is budget left, and a collection under way or due. */
  predicate HasTurn(s: Rt, due: bool) {
    s.tracingBudget > 0 && (s.tracingState != TracingIdle || (due && s.cyclicAlloc > s.cyclicAllocAtTrace))
  }

  lemma HasTurnIff(s: Rt, due: bool, roots: seq<Addr>)
    ensures HasTurn(s, due) <==> TracingTurn(s, due, roots).Next?
  {
  }

  /** What a call to the tracing machine has kept since its start. */
  ghost predicate CallKeeps(start: Rt, s: Rt, ext: Owners, due: bool, roots: seq<Addr>) {
    H.Ready(s, ext, due, roots) && H.KeepsReached(start, s, ext)
  }

  lemma CallTurns(start: Rt, s: Rt, t: Rt, ext: Owners, due: bool, roots: seq<Addr>)
    requires H.Inv(start, ext) && CallKeeps(start, s, ext, due, roots) && CallKeeps(s, t, ext, due, roots)
    ensures CallKeeps(start, t, ext, due, roots)
  {
    H.KeepsReachedTrans(start, s, t, ext);
  }

  /** The collection is still at its start or as undisturbed as it was then. */
  ghost predicate CallCalm(start: Rt, s: Rt, ext: Owners, base0: Rt, traced0: Rt, base: Rt, traced: Rt) {
    || (s == start && base == base0 && traced == traced0)
    || (CycleOk(s, ext, base, traced) && CleanStart(base, ext) && s.cyclicAlloc <= s.cyclicAllocAtTrace)
  }

  lemma CalmTurns(start: Rt, s: Rt, t: Rt, ext: Owners, base0: Rt, traced0: Rt, base: Rt, traced: Rt)
    requires s.cyclicAlloc <= s.cyclicAllocAtTrace || s.tracingState == TracingIdle
    requires Starts(s, t) || (SameStarts(s, t) && s.tracingState != TracingIdle)
    requires CycleOk(t, ext, base, traced) && CleanStart(base, ext)
    ensures CallCalm(start, t, ext, base0, traced0, base, traced)
  {
  }

  class SyliState {
    var heap: Store
    var bit: bool
    var work: seq<Addr>
    var mutations: seq<Addr>
    var releasing: seq<Addr>
    var waiting: seq<Addr>
    var candidates: seq<Addr>
    var lost: seq<Addr>
    var scan: nat
    var tracingState: TracingState
    var releasingState: ReleasingState
    var tracingBudget: int
    var releasingBudget: int
    var cyclicAlloc: nat
    var cyclicAllocAtTrace: nat

    ghost function Snap(): Rt
      reads this
    {
      Rt(heap, bit, work, mutations, releasing, waiting, candidates, lost, scan, tracingState, releasingState,
         tracingBudget, releasingBudget, cyclicAlloc, cyclicAllocAtTrace, false)
    }

    constructor ()
      ensures Snap() == Rt(map[], false, [], [], [], [], [], [], 0, TracingIdle, ReleasingIdle, 0, 0, 0, 0, false)
    {
      heap, bit, work, mutations, releasing := map[], false, [], [], [];
      waiting, candidates, lost, scan := [], [], [], 0;
      tracingState, releasingState := TracingIdle, ReleasingIdle;
      tracingBudget, releasingBudget, cyclicAlloc, cyclicAllocAtTrace := 0, 0, 0, 0;
    }

    // ----- the candidate registry -----

    method RegisterCandidate(a: Addr)
      requires a in heap
      modifies this
      ensures Snap() == R.Register(old(Snap()), a)
    {
      if heap[a].candidate {
        return;
      }
      candidates := candidates + [a];
      heap := heap[a := heap[a].(candidate := true, candidateIndex := |candidates| - 1)];
    }

    method RemoveCandidateAt(index: nat)
      requires !R.RemoveCandidateAt(Snap(), index).fault
      modifies this
      ensures Snap() == R.RemoveCandidateAt(old(Snap()), index)
    {
      var last := |candidates| - 1;
      if index != last {
        var moved := candidates[last];
        candidates := candidates[index := moved];
        heap := heap[moved := heap[moved].(candidateIndex := index)];
      }
      candidates := candidates[..last];
    }

    method FreeReleasedObject(a: Addr)
      requires !R.FreeReleased(Snap(), a).fault
      modifies this
      ensures Snap() == R.FreeReleased(old(Snap()), a)
    {
      if heap[a].candidate {
        RemoveCandidateAt(heap[a].candidateIndex);
        heap := heap[a := heap[a].(candidate := false)];
      }
      if heap[a].tracing {
        heap := heap[a := heap[a].(waitingRemove := true)];
        return;
      }
      heap := heap - {a};
    }

    // ----- dismantling -----

    method ReleasingWorklistPush(a: Addr)
      requires a in heap && heap[a].rc == 0
      modifies this
      ensures Snap() == D.ReleasePush(old(Snap()), a)
    {
      if heap[a].header.cyclicMutable {
        heap := heap[a := heap[a].(mark := bit)];
      }
      waiting := waiting + [a];
    }

    method ChildDecr(a: Addr, route: D.Route)
      requires !D.DecrChild(Snap(), a, route).fault
      modifies this
      ensures Snap() == D.DecrChild(old(Snap()), a, route)
    {
      heap := heap[a := heap[a].(rc := heap[a].rc - 1)];
      if heap[a].rc > 0 {
        return;
      }
      if !heap[a].header.hasPointers {
        FreeReleasedObject(a);
        return;
      }
      if route.ToLost? {
        lost := lost + [a];
      } else {
        ReleasingWorklistPush(a);
      }
    }

    method DecrChildren(o: Obj, route: D.Route)
      requires !D.DismantleFrom(Snap(), o, 0, route).fault
      modifies this
      ensures Snap() == D.DismantleFrom(old(Snap()), o, 0, route)
    {
      var i := 0;
      while i < |o.slots|
        invariant i <= |o.slots|
        invariant D.DismantleFrom(Snap(), o, i, route) == D.DismantleFrom(old(Snap()), o, 0, route)
      {
        if OwnsAt(o, i) {
          if D.DecrChild(Snap(), o.slots[i].target, route).fault {
            DismantleFaults(D.DecrChild(Snap(), o.slots[i].target, route), o, i + 1, route);
          }
          ChildDecr(o.slots[i].target, route);
        }
        i := i + 1;
      }
    }

    // ----- releasing -----

    method OneStepReleasing()
      requires !ReleaseStep(Snap()).fault
      modifies this
      ensures Snap() == ReleaseStep(old(Snap()))
    {
      releasingBudget := releasingBudget - 1;
      var a := releasing[|releasing| - 1];
      releasing := releasing[..|releasing| - 1];
      var o := heap[a];
      releasingBudget := releasingBudget - WalkCost(o);
      ghost var s1 := Snap();
      if D.DismantleFrom(s1, o, 0, D.ToWaitlist).fault {
        FreeFaults(D.DismantleFrom(s1, o, 0, D.ToWaitlist), a);
      }
      DecrChildren(o, D.ToWaitlist);
      FreeReleasedObject(a);
    }

    method SetReleasingWorking()
      modifies this
      ensures Snap() == SetWorking(old(Snap()))
    {
      var tmp := releasing;
      releasing := waiting;
      waiting := tmp;
      waiting := [];
    }

    /** Runs until the budget is used up or too little is queued; counts stay exact throughout. */
    method GcReleasing(threshold: nat, ghost ext: Owners)
      requires ReleasingOk(Snap(), ext)
      modifies this
      ensures ReleasingOk(Snap(), ext) && ReleasingTurn(Snap(), threshold) == Stop
      ensures forall keep :: LiveSupported(old(Snap()).heap, ext, keep) ==> LiveSupported(heap, ext, keep)
    {
      while true
        invariant ReleasingOk(Snap(), ext)
        invariant forall keep :: LiveSupported(old(Snap()).heap, ext, keep) ==> LiveSupported(heap, ext, keep)
        decreases releasingBudget, releasingState == ReleasingIdle
      {
        if releasingBudget <= 0 {
          return;
        }
        ghost var s := Snap();
        match releasingState {
          case ReleasingIdle =>
            if |waiting| < threshold || |waiting| == 0 {
              return;
            }
            TurnKeeps(s, ext, threshold);
            SetReleasingWorking();
            releasingState := Releasing;
          case Releasing =>
            TurnKeeps(s, ext, threshold);
            StepSupports(s, ext);
            Machine.ReleaseStepTouches(s);
            OneStepReleasing();
            if |releasing| == 0 {
              releasingState := ReleasingIdle;
            }
        }
        assert Snap() == ReleasingTurn(s, threshold).s;
      }
    }

    // ----- marking -----

    method TracingWorklistPush(a: Addr)
      requires a in heap
      modifies this
      ensures Snap() == M.PushWork(old(Snap()), a)
    {
      if heap[a].tracing {
        return;
      }
      heap := heap[a := heap[a].(tracing := true)];
      work := work + [a];
    }

    method PushChildren(o: Obj)
      requires !M.PushFrom(Snap(), o, 0).fault
      modifies this
      ensures Snap() == M.PushFrom(old(Snap()), o, 0)
    {
      var i := 0;
      while i < |o.slots|
        invariant i <= |o.slots|
        invariant M.PushFrom(Snap(), o, i) == M.PushFrom(old(Snap()), o, 0)
      {
        if OwnsAt(o, i) {
          if M.PushWork(Snap(), o.slots[i].target).fault {
            PushFaults(M.PushWork(Snap(), o.slots[i].target), o, i + 1);
          }
          TracingWorklistPush(o.slots[i].target);
        }
        i := i + 1;
      }
    }

    method OneStepTracing()
      requires !M.TraceStep(Snap()).fault
      modifies this
      ensures Snap() == M.TraceStep(old(Snap()))
    {
      var a := work[|work| - 1];
      work := work[..|work| - 1];
      heap := heap[a := heap[a].(tracing := false)];
      if heap[a].waitingRemove {
        heap := heap - {a};
        return;
      }
      if heap[a].rc == 0 {
        return;
      }
      if heap[a].mark == bit {
        return;
      }
      var o := heap[a];
      heap := heap[a := o.(mark := bit)];
      tracingBudget := tracingBudget - WalkCost(o);
      PushChildren(o);
    }

    method OneStepPrepareTracingMutations()
      requires !M.PrepareStep(Snap()).fault
      modifies this
      ensures Snap() == M.PrepareStep(old(Snap()))
    {
      var a := mutations[|mutations| - 1];
      mutations := mutations[..|mutations| - 1];
      var o := heap[a];
      if o.waitingRemove {
        heap := heap - {a};
        return;
      }
      tracingBudget := tracingBudget - M.PrepareCost(o);
      PushChildren(o);
    }

    method CollectStackRoots(roots: seq<Addr>)
      requires !M.PushRoots(Snap(), roots).fault
      modifies this
      ensures Snap() == M.PushRoots(old(Snap()), roots)
    {
      var i := 0;
      while i < |roots|
        invariant i <= |roots|
        invariant M.PushRoots(Snap(), roots[i..]) == M.PushRoots(old(Snap()), roots)
      {
        assert roots[i..][0] == roots[i] && roots[i..][1..] == roots[i + 1..];
        if M.PushWork(Snap(), roots[i]).fault {
          RootFaults(M.PushWork(Snap(), roots[i]), roots[i + 1..]);
        }
        TracingWorklistPush(roots[i]);
        i := i + 1;
      }
    }

    method BeginTrace(roots: seq<Addr>)
      requires !M.StartTrace(Snap(), roots).fault
      modifies this
      ensures Snap() == M.StartTrace(old(Snap()), roots)
    {
      tracingState := Tracing;
      cyclicAllocAtTrace := cyclicAlloc;
      scan := |candidates|;
      bit := !bit;
      CollectStackRoots(roots);
      if |work| == 0 && |mutations| == 0 {
        tracingState := Reclaiming;
      }
    }

    // ----- reclaiming -----

    method ReleaseChildrenOnce(a: Addr)
      requires a in heap && !L.ReleaseChildren(Snap(), a).fault
      modifies this
      ensures Snap() == L.ReleaseChildren(old(Snap()), a)
    {
      if !heap[a].childrenReleased {
        var o := heap[a];
        heap := heap[a := o.(childrenReleased := true)];
        DecrChildren(o, D.ToLost);
      }
    }

    method OneStepScan()
      requires !L.Scan(Snap()).fault
      modifies this
      ensures Snap() == L.Scan(old(Snap()))
    {
      if scan > |candidates| {
        scan := |candidates|;
      }
      if scan == 0 {
        return;
      }
      var a := candidates[scan - 1];
      scan := scan - 1;
      if heap[a].mark == bit {
        return;
      }
      ReleaseChildrenOnce(a);
      if heap[a].rc == 0 {
        lost := lost + [a];
      }
    }

    method OneStepFreeUnreachable()
      requires lost != [] && !L.FreeUnreachable(Snap()).fault
      modifies this
      ensures Snap() == L.FreeUnreachable(old(Snap()))
    {
      var a := lost[|lost| - 1];
      lost := lost[..|lost| - 1];
      if L.ReleaseChildren(Snap(), a).fault {
        FreeFaults(L.ReleaseChildren(Snap(), a), a);
      }
      ReleaseChildrenOnce(a);
      FreeReleasedObject(a);
    }

    /** One iteration of the tracing loop in a busy state. */
    method BusyTurn(due: bool, roots: seq<Addr>)
      requires tracingBudget > 0 && tracingState != TracingIdle
      requires !TracingTurn(Snap(), due, roots).s.fault
      requires tracingState == Tracing ==> work != []
      modifies this
      ensures Snap() == TracingTurn(old(Snap()), due, roots).s
    {
      match tracingState {
        case Tracing =>
          OneStepTracing();
          if |work| == 0 && |mutations| == 0 {
            tracingState := Reclaiming;
          } else if |mutations| > 0 {
            tracingState := MutationPrepare;
          }
        case MutationPrepare =>
          if |mutations| == 0 {
            tracingState := if |work| > 0 then Tracing else Reclaiming;
          } else {
            OneStepPrepareTracingMutations();
          }
        case Reclaiming =>
          if |lost| > 0 {
            OneStepFreeUnreachable();
          } else if scan == 0 {
            tracingState := TracingIdle;
          } else {
            OneStepScan();
          }
      }
    }

    /** One turn of a call, in whatever phase it finds the collection. */
    method Turn(due: bool, roots: seq<Addr>, ghost ext: Owners, ghost calm: bool, ghost base: Rt, ghost traced: Rt)
      returns (ghost base': Rt, ghost traced': Rt)
      requires H.Ready(Snap(), ext, due, roots) && TracingTurn(Snap(), due, roots).Next?
      requires calm ==> Calm(Snap(), ext, base, traced)
      modifies this
      ensures CallKeeps(old(Snap()), Snap(), ext, due, roots)
      ensures Starts(old(Snap()), Snap())
           || (SameStarts(old(Snap()), Snap()) && old(tracingState) != TracingIdle && H.Less(Snap(), old(Snap())))
      ensures calm ==> CycleOk(Snap(), ext, base', traced') && CleanStart(base', ext)
      ensures base' == if old(tracingState) == TracingIdle then old(Snap()) else base
    {
      ghost var s := Snap();
      ReadyIsMachine(s, ext);
      Machine.TracingTurnOk(s, due, roots);
      base', traced' := base, traced;
      if tracingState == TracingIdle {
        H.StartTurnReady(s, ext, due, roots);
        H.TracingTurnKeepsReached(s, ext, due, roots);
        H.OwnersAreRoots(s, ext, roots);
        base' := s;
        BeginTrace(roots);
        traced' := Snap();
        if calm {
          StartTraceKeeps(s, ext, roots);
          CalmStarts(s, Snap(), ext);
        }
      } else {
        H.BusyTurnReady(s, ext, due, roots);
        H.BusyTurnLess(s, ext, due, roots);
        H.TracingTurnKeepsReached(s, ext, due, roots);
        if calm {
          traced' := TurnAdvances(s, ext, base, traced, due, roots);
        }
        BusyTurn(due, roots);
      }
    }

    /** A turn as part of a call that began in `start`. */
    method CallTurn(due: bool, roots: seq<Addr>, ghost ext: Owners, ghost calm: bool, ghost start: Rt,
            ghost base0: Rt, ghost traced0: Rt, ghost base: Rt, ghost traced: Rt)
      returns (ghost base': Rt, ghost traced': Rt)
      requires H.Inv(start, ext) && CallKeeps(start, Snap(), ext, due, roots)
      requires HasTurn(Snap(), due)
      requires calm ==> Calm(start, ext, base0, traced0) && CallCalm(start, Snap(), ext, base0, traced0, base, traced)
      requires calm ==> cyclicAlloc <= cyclicAllocAtTrace || tracingState == TracingIdle
      modifies this
      ensures CallKeeps(start, Snap(), ext, due, roots)
      ensures Starts(old(Snap()), Snap())
           || (SameStarts(old(Snap()), Snap()) && old(tracingState) != TracingIdle && H.Less(Snap(), old(Snap())))
      ensures calm ==> CallCalm(start, Snap(), ext, base0, traced0, base', traced')
      ensures base' == if old(tracingState) == TracingIdle then old(Snap()) else base
    {
      ghost var s := Snap();
      HasTurnIff(s, due, roots);
      base', traced' := Turn(due, roots, ext, calm, base, traced);
      CallTurns(start, s, Snap(), ext, due, roots);
      if calm {
        CalmTurns(start, s, Snap(), ext, base0, traced0, base', traced');
      }
    }

    /** A call to the tracing machine, at any time: from rest or in the middle of a collection, with whatever
        the mutator and the releasing machine have done meanwhile. It ends, keeps the invariant, and leaves
        alone what the program reaches. `base` and `traced` name the states in which the collection and its
        reclaim began; if nothing has disturbed the collection before the call, nothing has after it. */
    method GcTracing(due: bool, roots: seq<Addr>, ghost ext: Owners, ghost base: Rt, ghost traced: Rt)
      returns (ghost base': Rt, ghost traced': Rt)
      requires H.Ready(Snap(), ext, due, roots)
      modifies this
      ensures CallKeeps(old(Snap()), Snap(), ext, due, roots) && !HasTurn(Snap(), due)
      ensures old(Calm(Snap(), ext, base, traced))
           && old(cyclicAlloc <= cyclicAllocAtTrace || tracingState == TracingIdle)
        ==> Snap() == old(Snap()) || CycleOk(Snap(), ext, base', traced')
      ensures old(tracingState != TracingIdle && cyclicAlloc <= cyclicAllocAtTrace) ==> base' == base
    {
      base', traced' := base, traced;
      ghost var calm := Calm(Snap(), ext, base, traced)
        && (cyclicAlloc <= cyclicAllocAtTrace || tracingState == TracingIdle);
      ghost var start := Snap();
      KeptRefl(start, ext);
      while tracingBudget > 0 && (tracingState != TracingIdle || (due && cyclicAlloc > cyclicAllocAtTrace))
        invariant CallKeeps(start, Snap(), ext, due, roots)
        invariant calm ==> CallCalm(start, Snap(), ext, base, traced, base', traced')
        invariant old(tracingState != TracingIdle && cyclicAlloc <= cyclicAllocAtTrace) ==>
          base' == base && cyclicAlloc <= cyclicAllocAtTrace
        decreases cyclicAlloc > cyclicAllocAtTrace, H.Phase(Snap()), H.MajorWork(Snap()), H.MinorWork(Snap()), |work|,
          tracingState == MutationPrepare
      {
        base', traced' := CallTurn(due, roots, ext, calm, start, base, traced, base', traced');
      }
    }

    // ----- the mutator's entry points -----

    method OwnershipAllocObject(a: Addr, header: Header, refcount: nat, length: nat)
      requires a !in heap
      modifies this
      ensures Snap() == U.Alloc(old(Snap()), a, header, refcount, length)
    {
      heap := heap[a := Obj(header, bit, refcount, false, 0, false, false, false, seq(length, _ => Null))];
      if header.cyclic {
        cyclicAlloc := cyclicAlloc + 1;
        if header.cyclicMutable {
          RegisterCandidate(a);
        }
      }
    }

    method ObjectIncr(a: Addr)
      requires a in heap
      modifies this
      ensures Snap() == U.Share(old(Snap()), a)
    {
      heap := heap[a := heap[a].(rc := heap[a].rc + 1)];
    }

    method ObjectDecr(a: Addr)
      requires a in heap && heap[a].rc > 0
      modifies this
      ensures Snap() == U.Drop(old(Snap()), a)
    {
      heap := heap[a := heap[a].(rc := heap[a].rc - 1)];
      if heap[a].rc == 0 {
        if heap[a].header.layout.MonoImm? {
          heap := heap - {a};
          return;
        }
        ReleasingWorklistPush(a);
      }
    }

    method OwnershipNotifyMutation(p: Addr, own: bool, t: Addr)
      requires p in heap && t in heap
      modifies this
      ensures Snap() == U.Notify(old(Snap()), p, own, t)
    {
      if !own {
        return;
      }
      if tracingState == Tracing || tracingState == MutationPrepare {
        if heap[p].mark != bit {
          return;
        }
        if !heap[p].header.traceable {
          return;
        }
        if heap[t].mark == bit {
          return;
        }
        heap := heap[t := heap[t].(mark := bit)];
        mutations := mutations + [t];
      }
    }
  }
}
