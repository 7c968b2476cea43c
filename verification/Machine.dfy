/** Facts about the two state machines that hold in every state whatsoever,
    including states a faulty caller has brought about. */
module Machine {
  import opened Heap
  import opened Registry
  import opened Dismantle
  import opened Releasing
  import opened LostCycles
  import opened Marking
  import opened Mutator
  import opened Collector

  /** Each machine is in its busy state only with something to pop, and the
      mutation list is empty whenever the barrier is off. */
  ghost predicate MachineOk(s: Rt) {
    && (s.tracingState == Tracing ==> s.work != [])
    && (s.tracingState == TracingIdle || s.tracingState == Reclaiming ==> s.work == s.mutations == [])
    && (s.releasingState == Releasing <==> s.releasing != [])
  }

  // ----- what each operation can touch -----

  ghost predicate TouchesDead(s: Rt, t: Rt) {
    t == s.(heap := t.heap, candidates := t.candidates, waiting := t.waiting, lost := t.lost, fault := t.fault)
  }

  lemma RemoveTouches(s: Rt, i: nat)
    ensures TouchesDead(s, RemoveCandidateAt(s, i))
  {
  }

  lemma FreeTouches(s: Rt, a: Addr)
    ensures TouchesDead(s, FreeReleased(s, a))
  {
    if a in s.heap && s.heap[a].candidate {
      RemoveTouches(s, s.heap[a].candidateIndex);
    }
  }

  lemma DecrTouches(s: Rt, a: Addr, route: Route)
    ensures TouchesDead(s, DecrChild(s, a, route))
  {
    if a in s.heap && s.heap[a].rc == 1 {
      FreeTouches(Put(s, a, s.heap[a].(rc := 0)), a);
    }
  }

  lemma {:induction false} DismantleTouches(s: Rt, o: Obj, i: nat, route: Route)
    ensures TouchesDead(s, DismantleFrom(s, o, i, route))
    decreases |o.slots| - i
  {
    if i < |o.slots| {
      if OwnsAt(o, i) {
        DecrTouches(s, o.slots[i].target, route);
        DismantleTouches(DecrChild(s, o.slots[i].target, route), o, i + 1, route);
      } else {
        DismantleTouches(s, o, i + 1, route);
      }
    }
  }

  lemma ReleaseChildrenTouches(s: Rt, a: Addr)
    requires a in s.heap
    ensures TouchesDead(s, ReleaseChildren(s, a))
  {
    var o := s.heap[a];
    DismantleTouches(Put(s, a, o.(childrenReleased := true)), o, 0, ToLost);
  }

  lemma ScanTouches(s: Rt)
    ensures TouchesDead(s, Scan(s).(scan := s.scan))
  {
    if s.scan != 0 && |s.candidates| > 0 {
      var a := s.candidates[ScanTop(s) - 1];
      var s1 := s.(scan := ScanTop(s) - 1);
      if a in s.heap {
        ReleaseChildrenTouches(s1, a);
      }
    }
  }

  lemma FreeUnreachableTouches(s: Rt)
    requires s.lost != []
    ensures TouchesDead(s, FreeUnreachable(s))
  {
    var a := s.lost[|s.lost| - 1];
    var s1 := s.(lost := s.lost[..|s.lost| - 1]);
    if a in s1.heap {
      ReleaseChildrenTouches(s1, a);
      FreeTouches(ReleaseChildren(s1, a), a);
    }
  }

  lemma ReclaimStepTouches(s: Rt)
    requires !ReclaimDone(s)
    ensures TouchesDead(s, ReclaimStep(s).(scan := s.scan))
  {
    if s.lost != [] {
      FreeUnreachableTouches(s);
    } else {
      ScanTouches(s);
    }
  }

  ghost predicate TouchesWork(s: Rt, t: Rt) {
    && t == s.(heap := t.heap, work := t.work, fault := t.fault)
    && |t.work| >= |s.work|
  }

  lemma {:induction false} PushFromTouches(s: Rt, o: Obj, i: nat)
    ensures TouchesWork(s, PushFrom(s, o, i))
    decreases |o.slots| - i
  {
    if i < |o.slots| {
      if OwnsAt(o, i) {
        PushFromTouches(PushWork(s, o.slots[i].target), o, i + 1);
      } else {
        PushFromTouches(s, o, i + 1);
      }
    }
  }

  lemma {:induction false} PushRootsTouches(s: Rt, roots: seq<Addr>)
    ensures TouchesWork(s, PushRoots(s, roots))
    decreases |roots|
  {
    if roots != [] {
      PushRootsTouches(PushWork(s, roots[0]), roots[1..]);
    }
  }

  /** Nothing but a start touches the allocation counters. */
  ghost predicate SameCounters(s: Rt, t: Rt) {
    t.cyclicAlloc == s.cyclicAlloc && t.cyclicAllocAtTrace == s.cyclicAllocAtTrace
  }

  lemma TraceStepTouches(s: Rt)
    ensures var t := TraceStep(s);
      t == s.(heap := t.heap, work := t.work, tracingBudget := t.tracingBudget, fault := t.fault)
  {
    if s.work != [] {
      var a := s.work[|s.work| - 1];
      var s1 := s.(work := s.work[..|s.work| - 1]);
      if a in s1.heap {
        var o := s1.heap[a].(tracing := false);
        PushFromTouches(
          Put(Put(s1, a, o), a, o.(mark := s.bit)).(tracingBudget := s1.tracingBudget - WalkCost(o)), o, 0);
      }
    }
  }

  lemma PrepareStepTouches(s: Rt)
    ensures var t := PrepareStep(s);
      t == s.(heap := t.heap, work := t.work, mutations := t.mutations, tracingBudget := t.tracingBudget,
          fault := t.fault)
  {
    if s.mutations != [] {
      var a := s.mutations[|s.mutations| - 1];
      var s1 := s.(mutations := s.mutations[..|s.mutations| - 1]);
      if a in s1.heap {
        PushFromTouches(s1.(tracingBudget := s1.tracingBudget - PrepareCost(s1.heap[a])), s1.heap[a], 0);
      }
    }
  }

  lemma ReleaseStepTouches(s: Rt)
    requires s.releasing != []
    ensures var t := ReleaseStep(s);
      && TouchesDead(s, t.(releasing := s.releasing, releasingBudget := s.releasingBudget))
      && t.releasing == s.releasing[..|s.releasing| - 1]
      && t.releasingBudget < s.releasingBudget
  {
    var a := s.releasing[|s.releasing| - 1];
    var s1 := s.(releasing := s.releasing[..|s.releasing| - 1], releasingBudget := s.releasingBudget - 1);
    if a in s1.heap {
      var o := s1.heap[a];
      var s2 := s1.(releasingBudget := s1.releasingBudget - WalkCost(o));
      DismantleTouches(s2, o, 0, ToWaitlist);
      FreeTouches(DismantleFrom(s2, o, 0, ToWaitlist), a);
    }
  }

  lemma TracingTurnOk(s: Rt, due: bool, roots: seq<Addr>)
    requires MachineOk(s) && TracingTurn(s, due, roots).Next?
    ensures MachineOk(TracingTurn(s, due, roots).s)
    ensures s.tracingState != TracingIdle ==> SameCounters(s, TracingTurn(s, due, roots).s)
    ensures s.tracingState == TracingIdle ==>
      && s.cyclicAlloc > s.cyclicAllocAtTrace
      && TracingTurn(s, due, roots).s.cyclicAllocAtTrace == TracingTurn(s, due, roots).s.cyclicAlloc
  {
    match s.tracingState
    case TracingIdle =>
      PushRootsTouches(
        s.(tracingState := Tracing, cyclicAllocAtTrace := s.cyclicAlloc, scan := |s.candidates|, bit := !s.bit), roots);
    case Tracing => TraceStepTouches(s);
    case MutationPrepare =>
      if s.mutations != [] {
        PrepareStepTouches(s);
      }
    case Reclaiming =>
      if !ReclaimDone(s) {
        ReclaimStepTouches(s);
      }
  }

  lemma ReleasingTurnOk(s: Rt, threshold: nat)
    requires MachineOk(s) && ReleasingTurn(s, threshold).Next?
    ensures MachineOk(ReleasingTurn(s, threshold).s)
    ensures s.releasingState == ReleasingIdle ==> Queue(ReleasingTurn(s, threshold).s) == Queue(s)
  {
    if s.releasingState == Releasing {
      ReleaseStepTouches(s);
    }
  }

  // ----- every history -----

  datatype Action = TracingGo(due: bool, roots: seq<Addr>) | ReleasingGo(threshold: nat) | MutatorDo(step: Step)

  /** The mutator has no access to the machines' internal steps. */
  predicate IsAction(a: Action) {
    a.MutatorDo? ==> !a.step.MarkOne? && !a.step.PrepareOne? && !a.step.ReleaseOne?
  }

  function Act(s: Rt, a: Action): Rt {
    match a
    case TracingGo(due, roots) => (match TracingTurn(s, due, roots) case Next(t) => t case Stop => s)
    case ReleasingGo(threshold) => (match ReleasingTurn(s, threshold) case Next(t) => t case Stop => s)
    case MutatorDo(step) => Perform(s, step)
  }

  function ActAll(s: Rt, actions: seq<Action>): Rt
    decreases |actions|
  {
    if actions == [] then s else ActAll(Act(s, actions[0]), actions[1..])
  }

  ghost predicate SameMachine(s: Rt, t: Rt) {
    && t.work == s.work && t.mutations == s.mutations && t.tracingState == s.tracingState
    && t.releasing == s.releasing && t.releasingState == s.releasingState
  }

  lemma AllocSame(s: Rt, a: Addr, header: Header, rc: nat, length: nat)
    ensures SameMachine(s, Alloc(s, a, header, rc, length))
  {
  }

  lemma CountSame(s: Rt, a: Addr)
    ensures SameMachine(s, Drop(s, a)) && SameMachine(s, Share(s, a))
  {
  }

  lemma SlotSame(s: Rt, p: Addr, i: nat, v: Slot)
    ensures SameMachine(s, SetSlot(s, p, i, v))
  {
  }

  lemma MutatorOk(s: Rt, step: Step)
    requires MachineOk(s) && !step.MarkOne? && !step.PrepareOne? && !step.ReleaseOne?
    ensures MachineOk(Perform(s, step))
  {
    match step
    case New(a, header, rc, length) => AllocSame(s, a, header, rc, length);
    case Retain(a) => CountSame(s, a);
    case Give(a) => CountSame(s, a);
    case Take(p, i) => SlotSame(s, p, i, Null);
    case Set(p, own, i, t) =>
      SlotSame(s, p, i, Null);
      SlotSame(SetSlot(s, p, i, Null), p, i, Own(t));
      NotifyOk(SetSlot(SetSlot(s, p, i, Null), p, i, Own(t)), p, own, t);
  }

  lemma NotifyOk(s: Rt, p: Addr, own: bool, t: Addr)
    requires MachineOk(s)
    ensures MachineOk(Notify(s, p, own, t))
  {
  }

  lemma ActOk(s: Rt, a: Action)
    requires MachineOk(s) && IsAction(a)
    ensures MachineOk(Act(s, a))
  {
    match a
    case TracingGo(due, roots) =>
      if TracingTurn(s, due, roots).Next? {
        TracingTurnOk(s, due, roots);
      }
    case ReleasingGo(threshold) =>
      if ReleasingTurn(s, threshold).Next? {
        ReleasingTurnOk(s, threshold);
      }
    case MutatorDo(step) => MutatorOk(s, step);
  }

  /** In every reachable state no machine is about to pop an empty list, the barrier
      list is empty outside a trace, and exchanging the release lists drops nothing. */
  lemma {:induction false} MachineAlways(s: Rt, actions: seq<Action>)
    requires MachineOk(s) && forall a :: a in actions ==> IsAction(a)
    ensures var t := ActAll(s, actions);
      && MachineOk(t)
      && (t.releasingState == ReleasingIdle ==> Queue(SetWorking(t)) == Queue(t))
    decreases |actions|
  {
    if actions == [] {
      assert s.releasingState == ReleasingIdle ==> Queue(SetWorking(s)) == Queue(s);
    } else {
      ActOk(s, actions[0]);
      MachineAlways(Act(s, actions[0]), actions[1..]);
    }
  }

  /** The turns of one call, each with the trigger and the roots it would find. */
  function Starts(s: Rt, inputs: seq<(bool, seq<Addr>)>): nat
    decreases |inputs|
  {
    if inputs == [] then 0
    else match TracingTurn(s, inputs[0].0, inputs[0].1)
      case Stop => 0
      case Next(t) => (if s.tracingState == TracingIdle then 1 else 0) + Starts(t, inputs[1..])
  }

  /** One call starts at most one trace, since starting consumes the allocations since the last. */
  lemma {:induction false} AtMostOneStart(s: Rt, inputs: seq<(bool, seq<Addr>)>)
    requires MachineOk(s)
    ensures Starts(s, inputs) <= (if s.cyclicAlloc > s.cyclicAllocAtTrace then 1 else 0)
    decreases |inputs|
  {
    if inputs != [] && TracingTurn(s, inputs[0].0, inputs[0].1).Next? {
      TracingTurnOk(s, inputs[0].0, inputs[0].1);
      AtMostOneStart(TracingTurn(s, inputs[0].0, inputs[0].1).s, inputs[1..]);
    }
  }
}
