/** Concrete heaps on which a reclaim goes wrong. */
module ReclaimExamples {
  import opened Graphs
  import opened Heap
  import opened Registry
  import opened Dismantle
  import opened Releasing
  import opened LostCycles
  import opened ReclaimResult

  // ----- an object is queued twice -----

  const CELL_HEADER := Header(MonoRef, true, true, true, true)

  function CellState(cell: Obj, waiting: seq<Addr>): Rt {
    Rt(map[0 := cell], true, [], [], [], waiting, [0], [], 1, Reclaiming, ReleasingIdle, 1, 1, 1, 1, false)
  }

  const SELF_LOOP := Obj(CELL_HEADER, false, 1, true, 0, false, false, false, [Own(0)])

  lemma SelfLoopOk()
    ensures ReclaimOk(CellState(SELF_LOOP, []), map[])
  {
    var s := CellState(SELF_LOOP, []);
    assert EdgesTo(s.heap, {}, 0) == {(0, 0)} by {
      assert HoldsEdge(s.heap, 0, 0, 0);
      forall e: (Addr, nat) ensures e in EdgesTo(s.heap, {}, 0) <==> e == (0, 0) {
        assert e == (e.0, e.1);
      }
    }
    assert Queue(s) == multiset{};
  }

  /** A lost cell that points at itself, the shortest lost cycle, is freed twice. */
  lemma SelfLoopFreedTwice()
    ensures var s := CellState(SELF_LOOP, []);
      && ReclaimOk(s, map[])
      && ReclaimStep(s).lost == [0, 0]
      && ReclaimStep(ReclaimStep(s)).heap == map[] && ReclaimStep(ReclaimStep(s)).lost == [0]
      && ReclaimStep(ReclaimStep(ReclaimStep(s))).fault
  {
    SelfLoopOk();
    var s := CellState(SELF_LOOP, []);
    var s1 := Put(s.(scan := 0), 0, SELF_LOOP.(childrenReleased := true));
    var s2 := DecrChild(s1, 0, ToLost);
    assert s2 == Put(s1, 0, SELF_LOOP.(childrenReleased := true, rc := 0)).(lost := [0]);
    assert DismantleFrom(s1, SELF_LOOP, 0, ToLost) == DismantleFrom(s2, SELF_LOOP, 1, ToLost) == s2;
    assert Scan(s) == s2.(lost := [0] + [0]);
    SecondFree(Scan(s));
  }

  lemma SecondFree(s: Rt)
    requires s == CellState(SELF_LOOP.(childrenReleased := true, rc := 0), []).(scan := 0, lost := [0, 0])
    ensures FreeUnreachable(s).heap == map[] && FreeUnreachable(s).lost == [0]
    ensures FreeUnreachable(FreeUnreachable(s)).fault
  {
    var s1 := s.(lost := s.lost[..1]);
    assert s.lost[..1] == [0];
    var s2 := RemoveCandidateAt(s1, 0);
    assert s2 == s1.(candidates := []);
  }

  /** A dead candidate still on the waiting list: the trace's generation toggle
      took its mark away, so the scan frees it under the list's feet. */
  lemma WaitingCandidateFreed()
    ensures var s := CellState(Obj(CELL_HEADER, false, 0, true, 0, false, false, false, []), [0]);
      && ReclaimOk(s, map[]) && DoubleQueueNext(s)
      && ReclaimStep(ReclaimStep(s)).heap == map[] && ReclaimStep(ReclaimStep(s)).waiting == [0]
      && ReleaseStep(SetWorking(ReclaimStep(ReclaimStep(s)))).fault
  {
    var cell := Obj(CELL_HEADER, false, 0, true, 0, false, false, false, []);
    var s := CellState(cell, [0]);
    assert EdgesTo(s.heap, {}, 0) == {} by {
      forall e: (Addr, nat) ensures e !in EdgesTo(s.heap, {}, 0) {
        assert e == (e.0, e.1);
      }
    }
    WaitingCandidateSteps(s, cell);
  }

  lemma WaitingCandidateSteps(s: Rt, cell: Obj)
    requires cell == Obj(CELL_HEADER, false, 0, true, 0, false, false, false, []) && s == CellState(cell, [0])
    ensures ReclaimStep(ReclaimStep(s)).heap == map[] && ReclaimStep(ReclaimStep(s)).waiting == [0]
    ensures ReleaseStep(SetWorking(ReclaimStep(ReclaimStep(s)))).fault
  {
    var s1 := Put(s.(scan := 0), 0, cell.(childrenReleased := true));
    assert DismantleFrom(s1, cell, 0, ToLost) == s1;
    assert ReclaimStep(s) == s1.(lost := [0]);
    assert ReclaimStep(s).lost[..0] == [];
    assert ReclaimStep(ReclaimStep(s)).heap == map[];
  }

  // ----- an object is dismantled twice -----

  const PLAIN_HEADER := Header(MonoRef, true, false, true, true)
  const LEAF_HEADER := Header(MonoImm, false, false, false, false)

  /** A dead object on the waiting list that owns an unmarked candidate, which owns a leaf. */
  const DEAD_OWNER := Obj(PLAIN_HEADER, false, 0, false, 0, false, false, false, [Own(1)])
  const OWNED_CANDIDATE := Obj(CELL_HEADER, false, 1, true, 0, false, false, false, [Own(2)])
  const OWNED_LEAF := Obj(LEAF_HEADER, false, 1, false, 0, false, false, false, [])

  function OwnerWaits(): Rt {
    Rt(map[0 := DEAD_OWNER, 1 := OWNED_CANDIDATE, 2 := OWNED_LEAF], true, [], [], [], [0], [1], [], 1,
        Reclaiming, ReleasingIdle, 1, 1, 1, 1, false)
  }

  lemma OwnerWaitsEdges(a: Addr)
    ensures EdgesTo(OwnerWaits().heap, {}, a) == if a == 1 then {(0, 0)} else if a == 2 then {(1, 0)} else {}
  {
    var h := OwnerWaits().heap;
    forall e: (Addr, nat) ensures e in EdgesTo(h, {}, a) <==> (a == 1 && e == (0, 0)) || (a == 2 && e == (1, 0)) {
      assert e == (e.0, e.1);
      if HoldsEdge(h, e.0, e.1, a) {
        assert e.0 in {0, 1, 2};
      }
    }
  }

  lemma OwnerWaitsCounts()
    ensures Exact(OwnerWaits().heap, map[]) && TargetsLive(OwnerWaits().heap, {})
  {
    var h := OwnerWaits().heap;
    forall a | a in h ensures ExactAt(h, map[], a) {
      OwnerWaitsEdges(a);
      assert a in {0, 1, 2};
    }
    forall q: Addr, i: nat, a: Addr ensures TargetLive(h, {}, q, i, a) {
      OwnerWaitsEdges(a);
      if HoldsEdge(h, q, i, a) {
        assert (q, i) in EdgesTo(h, {}, a);
      }
    }
  }

  lemma OwnerWaitsLists()
    ensures RegistryOk(OwnerWaits()) && PointersOk(OwnerWaits().heap) && QueuesOk(OwnerWaits(), {})
  {
    var s := OwnerWaits();
    assert Queue(s) == multiset{0};
    forall a | a in s.heap ensures FlagOk(s, a) && PointerFlagOk(s.heap, a) && DeadOk(s, {}, a) {
      assert a in {0, 1, 2};
    }
  }

  lemma OwnerWaitsOk()
    ensures ReclaimOk(OwnerWaits(), map[]) && NoneReleased(OwnerWaits().heap) && CleanCandidates(OwnerWaits())
    ensures !DoubleQueueNext(OwnerWaits())
  {
    var s := OwnerWaits();
    OwnerWaitsCounts();
    OwnerWaitsLists();
    assert Waiting(s) == {0};
    assert CountFrom(OWNED_CANDIDATE, 0, 1) == CountFrom(OWNED_CANDIDATE, 1, 1) == 0;
  }

  /** The reclaim half dismantles the candidate and ends soundly. */
  function OwnerWaitsAfter(): Rt {
    OwnerWaits().(heap := map[0 := DEAD_OWNER, 1 := OWNED_CANDIDATE.(childrenReleased := true)], scan := 0)
  }

  lemma OwnerWaitsReclaims()
    ensures ReclaimStep(OwnerWaits()) == OwnerWaitsAfter() && ReclaimDone(OwnerWaitsAfter())
  {
    var s := OwnerWaits();
    var s1 := Put(s.(scan := 0), 1, OWNED_CANDIDATE.(childrenReleased := true));
    var s2 := Put(s1, 2, OWNED_LEAF.(rc := 0));
    assert DecrChild(s1, 2, ToLost) == FreeReleased(s2, 2) == s2.(heap := s2.heap - {2});
    assert s2.heap - {2} == OwnerWaitsAfter().heap;
    assert DismantleFrom(s1, OWNED_CANDIDATE, 0, ToLost)
        == DismantleFrom(DecrChild(s1, 2, ToLost), OWNED_CANDIDATE, 1, ToLost) == OwnerWaitsAfter();
  }

  /** Released afterwards: its owner's release makes the candidate dead, and it is dismantled again. */
  lemma OwnerWaitsFaults()
    ensures ReleaseStep(SetWorking(ReleaseStep(SetWorking(OwnerWaitsAfter())))).fault
  {
    var t := OwnerWaitsAfter();
    var t1 := SetWorking(t).(releasing := [], releasingBudget := -1);
    var dead := t.heap[1].(rc := 0, mark := true);
    var t2 := Put(t1, 1, dead).(waiting := [1]);
    assert DecrChild(t1, 1, ToWaitlist) == t2;
    assert DismantleFrom(t1, DEAD_OWNER, 0, ToWaitlist) == DismantleFrom(t2, DEAD_OWNER, 1, ToWaitlist) == t2;
    var u := ReleaseStep(SetWorking(t));
    assert SetWorking(t).releasing[..0] == [];
    assert u == t2.(heap := t2.heap - {0});
    DeadCandidateFaults(u, dead);
  }

  /** The candidate's only reference leads to an object that is gone. */
  lemma DeadCandidateFaults(u: Rt, dead: Obj)
    requires u.waiting == [1] && 1 in u.heap && u.heap[1] == dead && 2 !in u.heap && u.candidates == [1]
    requires dead == OWNED_CANDIDATE.(childrenReleased := true, rc := 0, mark := true)
    ensures ReleaseStep(SetWorking(u)).fault
  {
    var v := SetWorking(u).(releasing := [], releasingBudget := -3);
    assert SetWorking(u).releasing[..0] == [];
    assert DecrChild(v, 2, ToWaitlist) == Fault(v);
    assert DismantleFrom(v, dead, 0, ToWaitlist) == DismantleFrom(Fault(v), dead, 1, ToWaitlist) == Fault(v);
    assert FreeReleased(Fault(v), 1).fault by {
      assert RemoveCandidateAt(Fault(v), 0) == Fault(v).(candidates := []);
    }
  }

  /** A reclaim with an object on a release list: sound to its end, and no candidate is queued twice, but
      the unmarked candidate that the listed object owns stays half dismantled, and the releasing
      machine, which never looks at the flag, dismantles it a second time. */
  lemma OwnedCandidateDismantledTwice()
    ensures var s, t := OwnerWaits(), OwnerWaitsAfter();
      && ReclaimOk(s, map[]) && NoneReleased(s.heap) && CleanCandidates(s) && !DoubleQueueNext(s)
      && t == ReclaimStep(s) && ReclaimDone(t) && ReclaimOk(t, map[]) && !NoneReleased(t.heap)
      && ReleaseStep(SetWorking(ReleaseStep(SetWorking(t)))).fault
  {
    OwnerWaitsOk();
    OwnerWaitsReclaims();
    StepSoundIff(OwnerWaits(), map[]);
    OwnerWaitsFaults();
    assert 1 in OwnerWaitsAfter().heap && OwnerWaitsAfter().heap[1].childrenReleased;
  }
}
