/** Generation after generation: after which collections, undisturbed or not, every object carries the current
    mark when the collector rests, so that the next toggle whitens the whole heap. */
module Generations {
  import opened Graphs
  import opened Heap
  import opened Registry
  import opened Dismantle
  import opened Releasing
  import opened LostCycles
  import opened ReclaimResult
  import opened Marking
  import opened Mutator
  import opened Collector
  import opened History

  /** Between collections, with the releasing machine consistent. */
  ghost predicate RestOk(s: Rt, ext: Owners) {
    IdleOk(s, ext) && ImmediatesPlain(s.heap) && (s.releasingState == Releasing <==> s.releasing != [])
  }

  /** Objects are current and whole. */
  ghost predicate CurrentAt(s: Rt, a: Addr) {
    a in s.heap ==> s.heap[a].mark == s.bit && Holding(s.heap[a])
  }

  lemma RestWalks(s: Rt, ext: Owners)
    requires RestOk(s, ext)
    ensures WalkOk(s, ext) && NoneReleased(s.heap) && forall a {:trigger CurrentAt(s, a)} :: CurrentAt(s, a)
  {
    IntactWalks(s, ext);
    IntactIsUnreleased(s.heap);
    forall a ensures CurrentAt(s, a) {
      if a in s.heap {
        assert IntactAt(s.heap, a) && Marked(s, a);
      }
    }
  }

  lemma CurrentIsRest(s: Rt, ext: Owners)
    requires WalkOk(s, ext) && ImmediatesPlain(s.heap) && forall a {:trigger CurrentAt(s, a)} :: CurrentAt(s, a)
    requires s.work == s.mutations == s.lost == [] && s.scan == 0 && s.tracingState == TracingIdle
    requires s.releasingState == Releasing <==> s.releasing != []
    ensures RestOk(s, ext)
  {
    forall a | a in s.heap ensures IntactAt(s.heap, a) && Marked(s, a) {
      assert CurrentAt(s, a);
    }
  }

  /** The mutator keeps every count exact and every object marked with the current bit. */
  lemma RestStepKeeps(s: Rt, ext: Owners, step: Step)
    requires RestOk(s, ext) && Permitted(s, ext, step)
    ensures RestOk(Perform(s, step), PerformOwners(s, ext, step))
  {
    RestWalks(s, ext);
    var t := Perform(s, step);
    PermittedMutates(s, ext, step);
    PermittedWalks(s, ext, step);
    forall a ensures CurrentAt(t, a) {
      assert CurrentAt(s, a) && (a in Born(step) ==> BornAt(t, a));
      assert a in t.heap && a !in Born(step) ==> MutatedAt(s, t, ext, a);
    }
    CurrentIsRest(t, PerformOwners(s, ext, step));
  }

  /** So does the releasing pipeline. */
  lemma RestReleaseKeeps(s: Rt, ext: Owners, threshold: nat)
    requires RestOk(s, ext) && ReleasingTurn(s, threshold).Next?
    ensures RestOk(ReleasingTurn(s, threshold).s, ext)
  {
    RestWalks(s, ext);
    var t := ReleasingTurn(s, threshold).s;
    TurnKeeps(s, ext, threshold);
    if s.releasingState == Releasing {
      ReleaseWalksIff(s, ext);
      ReleaseStepReleases(s, ext);
      var u := ReleaseStep(s);
      forall a | a in u.heap ensures Marked(u, a) && IntactAt(u.heap, a) {
        assert SurvivesAs(s.heap[a], u.heap[a], s.bit) && CurrentAt(s, a) && WorkAt(s, a);
      }
      forall a | a in u.heap && u.heap[a].header.layout.MonoImm? ensures !u.heap[a].candidate {
        assert SurvivesAs(s.heap[a], u.heap[a], s.bit);
      }
    }
    forall a ensures WorkAt(t, a) {
      assert WorkAt(s, a) && (s.releasingState == Releasing ==> WorkAt(ReleaseStep(s), a));
    }
    forall a | a in t.heap ensures Marked(t, a) && IntactAt(t.heap, a) {
      assert CurrentAt(s, a);
    }
  }

  // ----- whole collections -----

  /** An undisturbed collection leaves every object whole and current if and only if it began with empty release
      lists and no cycle out of the owners' reach without a candidate. */
  lemma CollectionRestsIff(s: Rt, ext: Owners, end: Rt, traced: Rt)
    requires RestOk(s, ext) && CycleOk(end, ext, s, traced) && end.tracingState == TracingIdle
    ensures RestOk(end, ext) <==> s.releasing == s.waiting == [] && forall c :: !UnregisteredCycle(s, ext, c)
  {
    if s.releasing == s.waiting == [] {
      CycleToIdle(end, ext, s, traced);
      forall a | a in end.heap && end.heap[a].header.layout.MonoImm? ensures !end.heap[a].candidate {
        assert LastsAt(traced, end, a) && RecolouredAt(s.heap, traced.heap, a);
      }
    } else if RestOk(end, ext) {
      WaitingStaysUnmarked(s, ext, end, traced, (s.releasing + s.waiting)[0]);
    }
  }

  lemma WaitingStaysUnmarked(s: Rt, ext: Owners, end: Rt, traced: Rt, a: Addr)
    requires CycleOk(end, ext, s, traced) && end.tracingState == TracingIdle && a in s.releasing + s.waiting
    ensures a in end.heap && !Marked(end, a)
  {
    assert a in Waiting(end) && a in Waiting(traced);
    WaitingIsDead(end, ext, a);
    WaitingIsDead(traced, ext, a);
    assert LastsAt(traced, end, a);
    if Marked(traced, a) {
      DeadIsNotReached(traced, ext, a);
    }
  }

  lemma DeadIsNotReached(s: Rt, ext: Owners, a: Addr)
    requires Sound(s, ext) && OwnedFromOutside(s.heap, ext, a) && a in s.heap
    ensures s.heap[a].rc > 0
  {
    assert ExactAt(s.heap, ext, a);
    if a !in Roots(s.heap, ext) {
      var p := WalkEndPredecessor(OwnGraph(s.heap), Roots(s.heap, ext), a);
      var i := OwnEdgeField(s.heap, p, a);
      OwnedIsLive(s, ext, p, i, a);
    }
  }

  lemma RestIsInv(s: Rt, ext: Owners)
    requires RestOk(s, ext)
    ensures Inv(s, ext)
  {
    RestWalks(s, ext);
    forall a | Reached(s, ext, a) ensures Marked(s, a) {
      ReachedInHeap(s.heap, Roots(s.heap, ext), a);
    }
  }

  /** Any other collection, from where the mutator and the releasing machine last acted in it, leaves every object
      whole and current if and only if all that owners, release lists and the cycles that the scan leaves alone
      hold was whole and marked there. */
  lemma DisturbedRestsIff(s: Rt, ext: Owners, end: Rt)
    requires Inv(s, ext) && s.tracingState == Reclaiming && Progress(s, end, ext) && ReclaimDone(end)
    ensures RestOk(end.(tracingState := TracingIdle), ext) <==> AnchoredCurrent(s, ext)
  {
    var t := end.(tracingState := TracingIdle);
    forall a | a in s.heap && Ext(ext, a) > 0 ensures Holding(s.heap[a]) {
      StartIsWhole(s, ext, a);
      assert ExactAt(s.heap, ext, a) && DeadOk(s, {}, a);
    }
    RestsCurrentIff(s, end, ext);
    if AllCurrent(end) {
      CurrentRests(s, ext, end);
    } else if RestOk(t, ext) {
      forall a | a in end.heap ensures Current(end, a) {
        assert IntactAt(t.heap, a) && Marked(t, a);
      }
    }
  }

  lemma CurrentRests(s: Rt, ext: Owners, end: Rt)
    requires Inv(s, ext) && s.tracingState == Reclaiming && Progress(s, end, ext) && ReclaimDone(end)
    requires AllCurrent(end)
    ensures RestOk(end.(tracingState := TracingIdle), ext)
  {
    var t := end.(tracingState := TracingIdle);
    StateIgnored(s, end, ext, TracingIdle);
    forall a | a in t.heap ensures Marked(t, a) && IntactAt(t.heap, a) {
      assert Current(end, a);
    }
    forall a ensures WorkAt(t, a) {
    }
    forall a | a in t.heap && t.heap[a].header.layout.MonoImm? ensures !t.heap[a].candidate {
      assert LastsAt(s, t, a);
    }
  }

  // ----- every history of them -----

  /** What can happen between two rests: a mutator step, a releasing turn, a whole collection, or one that begins
      with any moves of the mutator and the two machines. */
  datatype Event =
    | Step(step: Mutator.Step)
    | Turn(threshold: nat)
    | Collect(end: Rt, traced: Rt)
    | Disturbed(moves: seq<Move>, end: Rt)

  ghost predicate Happens(s: Rt, ext: Owners, e: Event) {
    match e
    case Step(step) => Permitted(s, ext, step)
    case Turn(threshold) => ReleasingTurn(s, threshold).Next?
    case Collect(end, traced) =>
      && CycleOk(end, ext, s, traced) && end.tracingState == TracingIdle && s.releasing == s.waiting == []
      && forall c :: !UnregisteredCycle(s, ext, c)
    case Disturbed(moves, end) =>
      && AllHeed(s, ext, moves)
      && var (t, extT) := AfterAll(s, ext, moves);
        t.tracingState == Reclaiming && Progress(t, end, extT) && ReclaimDone(end) && AnchoredCurrent(t, extT)
  }

  ghost function Result(s: Rt, ext: Owners, e: Event): (Rt, Owners) {
    match e
    case Step(step) => (Perform(s, step), PerformOwners(s, ext, step))
    case Turn(threshold) => (match ReleasingTurn(s, threshold) case Next(t) => (t, ext) case Stop => (s, ext))
    case Collect(end, _) => (end, ext)
    case Disturbed(moves, end) => (end.(tracingState := TracingIdle), AfterAll(s, ext, moves).1)
  }

  ghost predicate AllHappen(s: Rt, ext: Owners, events: seq<Event>)
    decreases |events|
  {
    events == []
    || (Happens(s, ext, events[0])
        && AllHappen(Result(s, ext, events[0]).0, Result(s, ext, events[0]).1, events[1..]))
  }

  ghost function Results(s: Rt, ext: Owners, events: seq<Event>): (Rt, Owners)
    decreases |events|
  {
    if events == [] then (s, ext)
    else Results(Result(s, ext, events[0]).0, Result(s, ext, events[0]).1, events[1..])
  }

  /** Over any history of such events counts stay exact, nothing faults, and at every rest all objects carry the
      current mark, so that each toggle whitens the whole heap. */
  lemma {:induction false} EveryGeneration(s: Rt, ext: Owners, events: seq<Event>)
    requires RestOk(s, ext) && AllHappen(s, ext, events)
    ensures RestOk(Results(s, ext, events).0, Results(s, ext, events).1)
    decreases |events|
  {
    if events != [] {
      var (t, extT) := Result(s, ext, events[0]);
      match events[0] {
        case Step(step) => RestStepKeeps(s, ext, step);
        case Turn(threshold) => RestReleaseKeeps(s, ext, threshold);
        case Collect(end, traced) => CollectionRestsIff(s, ext, end, traced);
        case Disturbed(moves, end) =>
          RestIsInv(s, ext);
          AlwaysSafe(s, ext, moves);
          DisturbedRestsIff(AfterAll(s, ext, moves).0, AfterAll(s, ext, moves).1, end);
      }
      EveryGeneration(t, extT, events[1..]);
    }
  }
}
