/** Concrete traces that the mutator disturbs. */
module DisturbedExamples {
  import opened Graphs
  import opened Heap
  import opened Registry
  import opened Dismantle
  import opened Releasing
  import opened LostCycles
  import opened ReclaimExamples
  import opened Marking
  import opened Mutator
  import opened Collector
  import opened Disturbed

  // ----- a reference is taken out of a field that the trace has not come to -----

  const ROOT := Obj(PLAIN_HEADER, false, 1, false, 0, true, false, false, [Own(1)])
  const MIDDLE := Obj(PLAIN_HEADER, false, 1, false, 0, false, false, false, [Own(2)])
  const TARGET := Obj(CELL_HEADER, false, 1, true, 0, false, false, false, [Own(3)])
  const LEAF := Obj(LEAF_HEADER, false, 1, false, 0, false, false, false, [])

  /** A trace right after its start: 0 is a root on the worklist, 0 owns 1, 1 owns the candidate 2, 2 owns 3. */
  function ChainHeap(): Store {
    map[0 := ROOT, 1 := MIDDLE, 2 := TARGET, 3 := LEAF]
  }

  function ChainStart(): Rt {
    Rt(ChainHeap(), true, [0], [], [], [], [2], [], 1, Tracing, ReleasingIdle, 9, 1, 1, 1, false)
  }

  function ChainOwners(): Owners {
    map[0 := 1]
  }

  lemma ChainEdges(a: Addr)
    ensures EdgesTo(ChainHeap(), {}, a) ==
      if a == 1 then {(0, 0)} else if a == 2 then {(1, 0)} else if a == 3 then {(2, 0)} else {}
  {
    var h := ChainHeap();
    forall e: (Addr, nat)
      ensures e in EdgesTo(h, {}, a) <==>
        (a == 1 && e == (0, 0)) || (a == 2 && e == (1, 0)) || (a == 3 && e == (2, 0))
    {
      assert e == (e.0, e.1);
      if HoldsEdge(h, e.0, e.1, a) {
        assert e.0 in {0, 1, 2, 3};
      }
    }
  }

  lemma ChainCounts()
    ensures Exact(ChainHeap(), ChainOwners()) && TargetsLive(ChainHeap(), {})
  {
    var h := ChainHeap();
    forall a | a in h ensures ExactAt(h, ChainOwners(), a) {
      ChainEdges(a);
      assert a in {0, 1, 2, 3};
    }
    forall q: Addr, i: nat, a: Addr ensures TargetLive(h, {}, q, i, a) {
      ChainEdges(a);
      if HoldsEdge(h, q, i, a) {
        assert (q, i) in EdgesTo(h, {}, a);
      }
    }
  }

  lemma ChainLists()
    ensures RegistryOk(ChainStart()) && PointersOk(ChainHeap()) && QueuesOk(ChainStart(), {})
  {
    var s := ChainStart();
    assert Queue(s) == multiset{};
    forall a | a in s.heap ensures FlagOk(s, a) && PointerFlagOk(s.heap, a) && DeadOk(s, {}, a) {
      assert a in {0, 1, 2, 3};
    }
  }

  lemma ChainStartOk()
    ensures PendingOk(ChainStart(), ChainOwners())
  {
    var s := ChainStart();
    ChainCounts();
    ChainLists();
    forall a | a in s.heap ensures IntactAt(s.heap, a) && !Marked(s, a) {
      assert a in {0, 1, 2, 3};
    }
    forall a ensures WorkAt(s, a) {
    }
    IntactWalks(s, ChainOwners());
  }

  function ChainMarked(): Rt {
    ChainStart().(heap := ChainHeap()[0 := ROOT.(mark := true, tracing := false)][1 := MIDDLE.(tracing := true)],
      work := [1], tracingBudget := 8)
  }

  lemma ChainMarks()
    ensures TraceStep(ChainStart()) == ChainMarked()
  {
    var s := ChainStart();
    var s2 := Put(Put(s.(work := []), 0, ROOT.(tracing := false)), 0, ROOT.(mark := true, tracing := false))
      .(tracingBudget := 8);
    var o := ROOT.(tracing := false);
    assert s.work[..0] == [];
    assert PushWork(s2, 1) == ChainMarked();
    assert PushFrom(s2, o, 0) == PushFrom(PushWork(s2, 1), o, 1) == ChainMarked();
  }

  function ChainTaken(): Rt {
    ChainMarked().(heap := ChainMarked().heap[1 := MIDDLE.(tracing := true, slots := [Null])])
  }

  function ChainDrained(): Rt {
    ChainTaken().(heap := ChainTaken().heap[1 := MIDDLE.(mark := true, slots := [Null])], work := [],
                  tracingBudget := 7)
  }

  lemma ChainDrains()
    ensures TraceStep(ChainTaken()) == ChainDrained()
  {
    var s := ChainTaken();
    var o := MIDDLE.(slots := [Null]);
    assert s.work[..0] == [];
    var s2 := Put(Put(s.(work := []), 1, o), 1, o.(mark := true)).(tracingBudget := 7);
    assert PushFrom(s2, o, 0) == PushFrom(s2, o, 1) == s2;
    assert s2.heap == ChainDrained().heap;
  }

  /** The reference that 1 held now belongs to the program. */
  function TakenOwners(): Owners {
    map[0 := 1, 2 := 1]
  }

  lemma ChainReaches()
    ensures Reached(ChainMarked(), ChainOwners(), 1) && Reached(ChainDrained(), TakenOwners(), 3)
  {
    var h, h' := ChainMarked().heap, ChainDrained().heap;
    assert HoldsEdge(h, 0, 0, 1) && HoldsEdge(h', 2, 0, 3);
    OwnEdge(h, 0, 0, 1);
    ReachesEdge(OwnGraph(h), 0, 1);
    assert 0 in Roots(h, ChainOwners());
    OwnEdge(h', 2, 0, 3);
    ReachesEdge(OwnGraph(h'), 2, 3);
    assert 2 in Roots(h', TakenOwners());
  }

  const CHAIN_STEPS := [MarkOne, Take(1, 0), MarkOne]

  lemma OneStep(s: Rt, ext: Owners, a: Step, rest: seq<Step>)
    ensures PerformAll(s, [a] + rest) == PerformAll(Perform(s, a), rest)
    ensures PerformAllOwners(s, ext, [a] + rest) == PerformAllOwners(Perform(s, a), PerformOwners(s, ext, a), rest)
    ensures AllAllowed(s, ext, [a] + rest) <==>
        Allowed(s, ext, a) && AllAllowed(Perform(s, a), PerformOwners(s, ext, a), rest)
  {
    assert ([a] + rest)[1..] == rest;
  }

  lemma ChainTakes()
    ensures Perform(ChainMarked(), Take(1, 0)) == ChainTaken()
    ensures PerformOwners(ChainMarked(), ChainOwners(), Take(1, 0)) == TakenOwners()
  {
    assert MIDDLE.slots[0 := Null] == [Null];
    assert OwnsAt(ChainMarked().heap[1], 0);
  }

  ghost predicate Leads(s: Rt, ext: Owners, steps: seq<Step>) {
    && AllAllowed(s, ext, steps) && PerformAll(s, steps) == ChainDrained()
    && PerformAllOwners(s, ext, steps) == TakenOwners()
  }

  lemma ChainLast()
    ensures Leads(ChainTaken(), TakenOwners(), [MarkOne])
  {
    ChainDrains();
    OneStep(ChainTaken(), TakenOwners(), MarkOne, []);
    assert [MarkOne] + [] == [MarkOne];
  }

  lemma ChainMiddle()
    ensures Leads(ChainMarked(), ChainOwners(), [Take(1, 0), MarkOne])
  {
    ChainLast();
    ChainTakes();
    TakeAllowed();
    OneStep(ChainMarked(), ChainOwners(), Take(1, 0), [MarkOne]);
    assert [Take(1, 0)] + [MarkOne] == [Take(1, 0), MarkOne];
  }

  lemma TakeAllowed()
    ensures Allowed(ChainMarked(), ChainOwners(), Take(1, 0))
  {
    ChainReaches();
  }

  lemma ChainSteps()
    ensures Leads(ChainStart(), ChainOwners(), CHAIN_STEPS)
  {
    ChainMiddle();
    ChainMarks();
    OneStep(ChainStart(), ChainOwners(), MarkOne, [Take(1, 0), MarkOne]);
    assert [MarkOne] + [Take(1, 0), MarkOne] == CHAIN_STEPS;
  }

  lemma ChainReclaims()
    ensures 3 !in ReclaimStep(HandedOver(ChainDrained())).heap
  {
    var s := HandedOver(ChainDrained());
    var s1 := Put(s.(scan := 0), 2, TARGET.(childrenReleased := true));
    var s2 := Put(s1, 3, LEAF.(rc := 0));
    var s3 := s2.(heap := s2.heap - {3});
    assert DecrChild(s1, 3, ToLost) == FreeReleased(s2, 3) == s3;
    assert DismantleFrom(s1, TARGET, 0, ToLost) == DismantleFrom(s3, TARGET, 1, ToLost) == s3;
    assert Scan(s) == s3;
  }

  /** Roots are collected once: a reference taken out of a field before the trace has come to it leads to an
      object that the program owns and the trace never marks, and the reclaim frees what that object owns. */
  lemma TakenReferenceIsReclaimed()
    ensures PendingOk(ChainStart(), ChainOwners()) && AllAllowed(ChainStart(), ChainOwners(), CHAIN_STEPS)
    ensures PerformAll(ChainStart(), CHAIN_STEPS) == ChainDrained()
    ensures PerformAllOwners(ChainStart(), ChainOwners(), CHAIN_STEPS) == TakenOwners()
    ensures var t := ChainDrained();
      && t.work == t.mutations == [] && ReclaimOk(HandedOver(t), TakenOwners())
      && OwnedFromOutside(t.heap, TakenOwners(), 3) && 3 !in ReclaimStep(HandedOver(t)).heap
  {
    ChainStartOk();
    ChainSteps();
    ChainDrainedOk();
    ChainReaches();
    ChainReclaims();
  }

  lemma ChainDrainedOk()
    ensures ReclaimOk(HandedOver(ChainDrained()), TakenOwners())
  {
    ChainStartOk();
    ChainSteps();
    TriColourAlways(ChainStart(), ChainOwners(), CHAIN_STEPS);
    HandedOverOk(ChainDrained(), TakenOwners());
  }

  // ----- a store that the barrier does not see -----

  const BLACK := Obj(PLAIN_HEADER, true, 1, false, 0, false, false, false, [Null])
  const WHITE := Obj(PLAIN_HEADER, false, 1, false, 0, false, false, false, [])

  /** The trace has marked 0 and has not come to 1; the program owns both. */
  function PairState(): Rt {
    Rt(map[0 := BLACK, 1 := WHITE], true, [], [], [], [], [], [], 0, MutationPrepare, ReleasingIdle, 9, 1, 1, 1, false)
  }

  function PairOwners(): Owners {
    map[0 := 1, 1 := 1]
  }

  lemma PairOk()
    ensures PendingOk(PairState(), PairOwners()) && StoreAllowed(PairState(), PairOwners(), 0, 0, 1)
  {
    var s, ext := PairState(), PairOwners();
    forall q, i, a ensures !HoldsEdge(s.heap, q, i, a) {
    }
    forall a ensures EdgesTo(s.heap, {}, a) == {} {
    }
    assert Queue(s) == multiset{};
    forall a | a in s.heap ensures ExactAt(s.heap, ext, a) && PointerFlagOk(s.heap, a) && IntactAt(s.heap, a) {
    }
    forall a ensures WorkAt(s, a) {
    }
    IntactWalks(s, ext);
    ReachesRefl(OwnGraph(s.heap), 0);
    assert 0 in Roots(s.heap, ext);
  }

  /** Through a borrowed pointer to a marked holder an unmarked object is stored unseen; through an owning
      pointer the barrier sees it. */
  lemma BorrowedStoreIsMissed()
    ensures var s, ext := PairState(), PairOwners();
      && PendingOk(s, ext) && StoreAllowed(s, ext, 0, 0, 1)
      && !TraceOk(StoreOwn(s, 0, false, 0, 1), StoreOwners(s, ext, 0, 0, 1))
      && TraceOk(StoreOwn(s, 0, true, 0, 1), StoreOwners(s, ext, 0, 0, 1))
  {
    PairOk();
    BarrierIff(PairState(), PairOwners(), 0, false, 0, 1);
    BarrierIff(PairState(), PairOwners(), 0, true, 0, 1);
  }
}
