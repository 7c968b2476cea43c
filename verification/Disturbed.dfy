/** Traces that the mutator has disturbed: what they mark in the end, and when the reclaim that follows
    is safe. Roots are collected once, when a trace starts, so it need not be. */
module Disturbed {
  import opened Graphs
  import opened Heap
  import opened Registry
  import opened Dismantle
  import opened Releasing
  import opened LostCycles
  import opened ReclaimResult
  import opened Marking
  import opened Mutator

  /** The trace's own steps. */
  predicate TraceOnly(steps: seq<Step>) {
    forall i :: 0 <= i < |steps| ==> steps[i].MarkOne? || steps[i].PrepareOne?
  }

  /** What marking and prepare steps leave as it is. */
  ghost predicate SameObjects(s: Rt, t: Rt) {
    && SameEdges(s.heap, t.heap) && t.heap.Keys <= s.heap.Keys
    && t.bit == s.bit && t.candidates == s.candidates && t.scan == s.scan && t.lost == s.lost
    && t.releasing == s.releasing && t.waiting == s.waiting
    && (forall a {:trigger t.heap[a]} :: a in t.heap ==> RecolouredAt(s.heap, t.heap, a))
    && (forall a :: a in s.heap && s.heap[a].rc > 0 ==> a in t.heap)
    && (forall a :: a in t.heap && Marked(s, a) ==> Marked(t, a))
    && (forall a :: a in t.heap && s.heap[a].rc == 0 ==> t.heap[a].mark == s.heap[a].mark)
  }

  lemma StepSameObjects(s: Rt, ext: Owners, step: Step)
    requires PendingOk(s, ext) && Allowed(s, ext, step) && (step.MarkOne? || step.PrepareOne?)
    ensures SameObjects(s, Perform(s, step)) && PerformOwners(s, ext, step) == ext
    ensures forall x :: x in s.heap && s.heap[x].rc > 0 ==> (Shaded(Perform(s, step), x) <==> Shaded(s, x))
  {
    if step.MarkOne? {
      MarkSameObjects(s, ext);
    } else {
      PrepareSameObjects(s, ext);
    }
  }

  lemma MarkSameObjects(s: Rt, ext: Owners)
    requires WalkOk(s, ext) && s.work != []
    ensures SameObjects(s, TraceStep(s))
    ensures forall x :: x in s.heap && s.heap[x].rc > 0 ==> (Shaded(TraceStep(s), x) <==> Shaded(s, x))
  {
    TraceStepWalks(s, ext);
    WalkedEdges(s, TraceStep(s), s.work[|s.work| - 1]);
    forall a | a in s.heap && s.heap[a].rc > 0 ensures a in TraceStep(s).heap {
      assert DeadOk(s, {}, a);
    }
    forall x | x in s.heap && s.heap[x].rc > 0 ensures Shaded(TraceStep(s), x) <==> Shaded(s, x) {
      TraceStepShades(s, ext, x);
    }
  }

  lemma PrepareSameObjects(s: Rt, ext: Owners)
    requires WalkOk(s, ext) && s.mutations != []
    ensures SameObjects(s, PrepareStep(s))
    ensures forall x :: x in s.heap && s.heap[x].rc > 0 ==> (Shaded(PrepareStep(s), x) <==> Shaded(s, x))
  {
    PrepareStepWalks(s, ext);
    RecolouredEdges(s, PrepareStep(s));
    forall x | x in s.heap && s.heap[x].rc > 0 ensures Shaded(PrepareStep(s), x) <==> Shaded(s, x) {
      PrepareStepShades(s, ext, x);
    }
  }

  lemma SameObjectsTrans(s: Rt, t: Rt, u: Rt)
    requires SameObjects(s, t) && SameObjects(t, u)
    ensures SameObjects(s, u)
  {
    forall a | a in u.heap ensures RecolouredAt(s.heap, u.heap, a) {
      assert RecolouredAt(s.heap, t.heap, a) && RecolouredAt(t.heap, u.heap, a);
    }
    forall a | a in s.heap && s.heap[a].rc > 0 ensures a in u.heap {
      assert RecolouredAt(s.heap, t.heap, a);
    }
  }

  /** Whatever the mutator has done before, and in whatever order the two lists are worked off: the rest of
      the trace marks exactly the live objects that it was going to come to, namely those owned from a
      marked live object, from a live object on the worklist, or from the barrier's list. */
  lemma {:induction false} RestMarksShaded(s: Rt, ext: Owners, steps: seq<Step>)
    requires PendingOk(s, ext) && AllAllowed(s, ext, steps) && TraceOnly(steps)
    requires var t := PerformAll(s, steps); t.work == t.mutations == []
    ensures var t := PerformAll(s, steps);
      && PendingOk(t, ext) && SameObjects(s, t)
      && forall x :: x in s.heap && s.heap[x].rc > 0 ==> (Marked(t, x) <==> Shaded(s, x))
    decreases |steps|
  {
    if steps == [] {
      forall a | a in s.heap ensures RecolouredAt(s.heap, s.heap, a) {
      }
      forall x | x in s.heap && s.heap[x].rc > 0 ensures Marked(s, x) <==> Shaded(s, x) {
        DrainedMarksShaded(s, ext, x);
      }
    } else {
      var u := Perform(s, steps[0]);
      PerformKeeps(s, ext, steps[0]);
      StepSameObjects(s, ext, steps[0]);
      RestMarksShaded(u, ext, steps[1..]);
      SameObjectsTrans(s, u, PerformAll(s, steps));
      forall x | x in s.heap && s.heap[x].rc > 0 ensures Marked(PerformAll(s, steps), x) <==> Shaded(s, x) {
        assert RecolouredAt(s.heap, u.heap, x);
      }
    }
  }

  // ----- the reclaim after a disturbed trace -----

  /** The drained trace, handed over to the reclaim. */
  function HandedOver(s: Rt): Rt {
    s.(tracingState := Reclaiming)
  }

  lemma HandedOverOk(s: Rt, ext: Owners)
    requires TraceOk(s, ext) && s.work == s.mutations == s.lost == []
    requires forall i {:trigger s.candidates[i]} :: s.scan <= i < |s.candidates| ==> Marked(s, s.candidates[i])
    ensures ReclaimOk(HandedOver(s), ext)
  {
    var t := HandedOver(s);
    SameHeapSound(s, t, ext);
    forall a | a in t.heap ensures !t.heap[a].tracing {
      assert WorkAt(s, a);
    }
    forall a | a in Waiting(t) ensures a in t.heap && !t.heap[a].childrenReleased {
      WaitingIsDead(t, ext, a);
      StartIsWhole(s, ext, a);
    }
    forall i | t.scan <= i < |t.candidates| ensures Treated(t, t.candidates[i]) {
      assert Marked(s, s.candidates[i]);
    }
  }

  lemma SameReached(s: Rt, t: Rt, ext: Owners)
    requires TraceOk(s, ext) && TraceOk(t, ext) && SameObjects(s, t)
    ensures ReachedSet(t.heap, ext) == ReachedSet(s.heap, ext)
  {
    forall a | Ext(ext, a) > 0 ensures a in s.heap && a in t.heap && RecolouredAt(s.heap, t.heap, a) {
      assert ExactAt(s.heap, ext, a);
    }
    assert Roots(s.heap, ext) == Roots(t.heap, ext);
    forall a ensures a in ReachedSet(t.heap, ext) <==> a in ReachedSet(s.heap, ext) {
      if a in ReachedSet(s.heap, ext) {
        FewerEdgesReach(t.heap, s.heap, Roots(s.heap, ext), a);
        ReachedIsLive(s, ext, a);
      }
      if a in ReachedSet(t.heap, ext) {
        FewerEdgesReach(s.heap, t.heap, Roots(s.heap, ext), a);
      }
    }
  }

  /** The reclaim after a disturbed trace leaves everything untouched that the owners reach if and only if,
      when the mutator last acted, every registered object among them was still going to be come to. */
  lemma DisturbedSafeIff(s: Rt, ext: Owners, steps: seq<Step>, u: Rt)
    requires PendingOk(s, ext) && AllAllowed(s, ext, steps) && TraceOnly(steps) && NoneReleased(s.heap)
    requires s.lost == []
    requires forall i {:trigger s.candidates[i]} :: s.scan <= i < |s.candidates| ==> Marked(s, s.candidates[i])
    requires var t := PerformAll(s, steps); t.work == t.mutations == [] && Progress(HandedOver(t), u, ext)
    requires ReclaimDone(u)
    ensures ReachedSet(s.heap, ext) <= Untouched(u.heap) <==>
        forall a :: a in ReachedSet(s.heap, ext) && s.heap[a].candidate ==> Shaded(s, a)
  {
    var t := PerformAll(s, steps);
    RestMarksShaded(s, ext, steps);
    forall i | t.scan <= i < |t.candidates| ensures Marked(t, t.candidates[i]) {
      assert EntryOk(t, i) && Marked(s, s.candidates[i]);
    }
    HandedOverOk(t, ext);
    SameReached(s, t, ext);
    forall a | a in t.heap ensures !t.heap[a].childrenReleased {
      assert RecolouredAt(s.heap, t.heap, a);
    }
    ReclaimSafeIff(HandedOver(t), u, ext);
    forall a | a in ReachedSet(s.heap, ext)
      ensures s.heap[a].candidate ==> (Marked(HandedOver(t), a) <==> Shaded(s, a))
      ensures HandedOver(t).heap[a].candidate == s.heap[a].candidate
    {
      ReachedIsLive(s, ext, a);
      assert a in t.heap && RecolouredAt(s.heap, t.heap, a);
    }
  }

  // ----- at rest after a disturbed trace -----

  /** The trace ends with a mark on `a`. The dead keep the mark they have. */
  ghost predicate Coming(s: Rt, a: Addr) {
    a in s.heap && if s.heap[a].rc > 0 then Shaded(s, a) else Marked(s, a)
  }

  /** A cycle of own references without a registered object. */
  ghost predicate PlainCycle(s: Rt, c: seq<Addr>) {
    && IsCycle(OwnGraph(s.heap), c)
    && forall i {:trigger c[i]} :: 0 <= i < |c| ==> c[i] in s.heap && !s.heap[c[i]].candidate
  }

  /** The trace is going to come to all that owners and release lists hold, and to every cycle without a registered
      object. */
  ghost predicate AllComing(s: Rt, ext: Owners) {
    && (forall a :: a in HeldSet(s, ext) ==> Coming(s, a))
    && (forall c :: PlainCycle(s, c) ==> Coming(s, c[0]))
  }

  lemma SameCycle(s: Rt, t: Rt, c: seq<Addr>)
    requires SameEdges(s.heap, t.heap) && IsCycle(OwnGraph(s.heap), c)
    ensures IsCycle(OwnGraph(t.heap), c)
  {
    forall i | 0 < i < |c| ensures Edge(OwnGraph(t.heap), c[i - 1], c[i]) {
      var j := OwnEdgeField(s.heap, c[i - 1], c[i]);
      OwnEdge(t.heap, c[i - 1], j, c[i]);
    }
  }

  lemma SameHolders(s: Rt, t: Rt, ext: Owners)
    requires TraceOk(s, ext) && TraceOk(t, ext) && SameObjects(s, t)
    ensures Holders(t, ext) == Holders(s, ext)
  {
    forall a ensures a in Holders(t, ext) <==> a in Holders(s, ext) {
      if a in t.heap {
        assert RecolouredAt(s.heap, t.heap, a);
      }
      if a in Waiting(t) {
        WaitingIsDead(t, ext, a);
      } else if a in s.heap {
        assert ExactAt(s.heap, ext, a);
      }
    }
  }

  lemma SameHeld(s: Rt, t: Rt, ext: Owners, a: Addr)
    requires TraceOk(s, ext) && TraceOk(t, ext) && SameObjects(s, t)
    ensures Held(t, ext, a) <==> Held(s, ext, a)
  {
    SameHolders(s, t, ext);
    if Held(s, ext, a) {
      FewerEdgesReach(t.heap, s.heap, Holders(s, ext), a);
    }
    if Held(t, ext, a) {
      FewerEdgesReach(s.heap, t.heap, Holders(s, ext), a);
    }
  }

  /** What a chain of own references leads to is alive, unless it is where the chain starts. */
  lemma ReachedTargetLives(s: Rt, ext: Owners, r: Addr, a: Addr)
    requires Sound(s, ext) && Reaches(OwnGraph(s.heap), r, a)
    ensures a == r || (a in s.heap && s.heap[a].rc > 0)
  {
    if a != r {
      ReachesRefl(OwnGraph(s.heap), r);
      var p := WalkEndPredecessor(OwnGraph(s.heap), {r}, a);
      var i := OwnEdgeField(s.heap, p, a);
      assert TargetLive(s.heap, {}, p, i, a) && ExactAt(s.heap, ext, a);
    }
  }

  /** `t` is the drained trace of `s`. */
  ghost predicate Settled(s: Rt, t: Rt, ext: Owners) {
    && TraceOk(s, ext) && TraceOk(t, ext) && SameObjects(s, t) && NoneReleased(s.heap)
    && forall a :: a in t.heap ==> (Coming(s, a) <==> Marked(t, a))
  }

  lemma TraceSettles(s: Rt, ext: Owners, steps: seq<Step>)
    requires PendingOk(s, ext) && AllAllowed(s, ext, steps) && TraceOnly(steps) && NoneReleased(s.heap)
    requires var t := PerformAll(s, steps); t.work == t.mutations == []
    ensures Settled(s, PerformAll(s, steps), ext)
  {
    var t := PerformAll(s, steps);
    RestMarksShaded(s, ext, steps);
    forall a | a in t.heap ensures Coming(s, a) <==> Marked(t, a) {
      assert RecolouredAt(s.heap, t.heap, a);
    }
  }

  /** The members of a cycle are alive, and all shaded if one is. */
  lemma CycleShades(s: Rt, ext: Owners, c: seq<Addr>, i: nat, j: nat)
    requires Sound(s, ext) && IsCycle(OwnGraph(s.heap), c) && i < |c| && j < |c|
    ensures c[i] in s.heap && s.heap[c[i]].rc > 0 && (Shaded(s, c[i]) ==> Shaded(s, c[j]))
  {
    var k := if i == 0 then |c| - 1 else i;
    assert Edge(OwnGraph(s.heap), c[k - 1], c[k]);
    var f := OwnEdgeField(s.heap, c[k - 1], c[k]);
    OwnedIsLive(s, ext, c[k - 1], f, c[k]);
    if Shaded(s, c[i]) {
      CycleMutual(OwnGraph(s.heap), c, i, j);
      FromRootsStep(OwnGraph(s.heap), Shades(s), c[i], c[j]);
    }
  }

  lemma KeptCycleShades(s: Rt, t: Rt, ext: Owners, c: seq<Addr>, j: nat)
    requires Settled(s, t, ext) && AllComing(s, ext) && KeptCycle(t, c) && j < |c|
    ensures c[j] in s.heap && s.heap[c[j]].rc > 0 && Shaded(s, c[j])
  {
    SameCycle(t, s, c);
    CycleShades(s, ext, c, j, j);
    if PlainCycle(s, c) {
      CycleShades(s, ext, c, 0, j);
    } else {
      var i :| 0 <= i < |c| && !(c[i] in s.heap && !s.heap[c[i]].candidate);
      CycleShades(s, ext, c, i, j);
      assert Spared(t, c[i]) && RecolouredAt(s.heap, t.heap, c[i]);
    }
  }

  lemma AnchoredIsComing(s: Rt, t: Rt, ext: Owners, a: Addr)
    requires Settled(s, t, ext) && AllComing(s, ext) && a in AnchoredSet(t, ext)
    ensures Coming(s, a)
  {
    SameHeld(s, t, ext, a);
    if !Held(t, ext, a) {
      var r := FromSome(OwnGraph(t.heap), Anchors(t, ext), a);
      assert OnKeptCycle(t, r);
      KeptCycleLeads(s, t, ext, r, a);
    }
  }

  lemma KeptCycleLeads(s: Rt, t: Rt, ext: Owners, r: Addr, a: Addr)
    requires Settled(s, t, ext) && AllComing(s, ext) && OnKeptCycle(t, r) && Reaches(OwnGraph(t.heap), r, a)
    ensures Coming(s, a)
  {
    var c :| KeptCycle(t, c) && r in c;
    var j :| 0 <= j < |c| && c[j] == r;
    KeptCycleShades(s, t, ext, c, j);
    FewerEdgesReach(s.heap, t.heap, {r}, a);
    var _ := FromSome(OwnGraph(s.heap), {r}, a);
    FromRootsStep(OwnGraph(s.heap), Shades(s), r, a);
    ReachedTargetLives(s, ext, r, a);
  }

  lemma HeldIsComing(s: Rt, t: Rt, ext: Owners, a: Addr)
    requires Settled(s, t, ext) && AnchoredCurrent(t, ext) && a in HeldSet(s, ext)
    ensures Coming(s, a)
  {
    SameHeld(s, t, ext, a);
    var g := OwnGraph(t.heap);
    var r := FromSome(g, Holders(t, ext), a);
    ReachedTargetLives(t, ext, r, a);
    assert r in Anchors(t, ext);
    assert a in AnchoredSet(t, ext);
  }

  lemma PlainCycleIsComing(s: Rt, t: Rt, ext: Owners, c: seq<Addr>)
    requires Settled(s, t, ext) && AnchoredCurrent(t, ext) && PlainCycle(s, c)
    ensures Coming(s, c[0])
  {
    SameCycle(s, t, c);
    forall i | 0 <= i < |c| ensures Spared(t, c[i]) {
      CycleShades(t, ext, c, i, 0);
      assert RecolouredAt(s.heap, t.heap, c[i]) && DeadOk(t, {}, c[i]);
    }
    assert KeptCycle(t, c) && c[0] in c && OnKeptCycle(t, c[0]) && c[0] in Anchors(t, ext);
    ReachesRefl(OwnGraph(t.heap), c[0]);
    assert c[0] in AnchoredSet(t, ext);
  }

  lemma SameAnchored(t: Rt, ext: Owners)
    ensures AnchoredCurrent(HandedOver(t), ext) <==> AnchoredCurrent(t, ext)
  {
    var u := HandedOver(t);
    forall c ensures KeptCycle(u, c) <==> KeptCycle(t, c) {
    }
    assert Anchors(u, ext) == Anchors(t, ext);
    assert AnchoredSet(u, ext) == AnchoredSet(t, ext);
    assert forall a :: Current(u, a) <==> Current(t, a);
  }

  lemma CurrentIsComing(s: Rt, t: Rt, ext: Owners)
    requires Settled(s, t, ext) && AnchoredCurrent(t, ext)
    ensures AllComing(s, ext)
  {
    forall a | a in HeldSet(s, ext) ensures Coming(s, a) {
      HeldIsComing(s, t, ext, a);
    }
    forall c | PlainCycle(s, c) ensures Coming(s, c[0]) {
      PlainCycleIsComing(s, t, ext, c);
    }
  }

  lemma ComingIsCurrent(s: Rt, t: Rt, ext: Owners)
    requires Settled(s, t, ext) && AllComing(s, ext)
    ensures AnchoredCurrent(t, ext)
  {
    forall a | a in AnchoredSet(t, ext) ensures Current(t, a) {
      AnchoredIsComing(s, t, ext, a);
      ComingIsWhole(s, t, ext, a);
    }
  }

  lemma AnchorHolds(t: Rt, ext: Owners, r: Addr)
    requires Sound(t, ext) && NoneReleased(t.heap) && r in Anchors(t, ext)
    ensures Holding(t.heap[r])
  {
    if r in Waiting(t) {
      WaitingIsDead(t, ext, r);
    } else if r !in Roots(t.heap, ext) {
      var c :| KeptCycle(t, c) && r in c;
      var i :| 0 <= i < |c| && c[i] == r;
      assert Spared(t, c[i]);
    }
  }

  lemma ComingIsWhole(s: Rt, t: Rt, ext: Owners, a: Addr)
    requires Settled(s, t, ext) && a in AnchoredSet(t, ext) && Coming(s, a)
    ensures Current(t, a)
  {
    assert RecolouredAt(s.heap, t.heap, a) && DeadOk(t, {}, a);
    if t.heap[a].waitingRemove {
      var r := FromSome(OwnGraph(t.heap), Anchors(t, ext), a);
      ReachedTargetLives(t, ext, r, a);
      AnchorHolds(t, ext, r);
    }
  }

  /** Which disturbed collections leave every object whole and with the current mark, as the next one needs:
      those where, when the mutator last acted, the trace was still going to come to all that owners and
      release lists hold and to every cycle without a registered object. */
  lemma DisturbedRestIff(s: Rt, ext: Owners, steps: seq<Step>, u: Rt)
    requires PendingOk(s, ext) && AllAllowed(s, ext, steps) && TraceOnly(steps) && NoneReleased(s.heap)
    requires s.lost == []
    requires forall i {:trigger s.candidates[i]} :: s.scan <= i < |s.candidates| ==> Marked(s, s.candidates[i])
    requires var t := PerformAll(s, steps); t.work == t.mutations == [] && Progress(HandedOver(t), u, ext)
    requires ReclaimDone(u)
    ensures AllCurrent(u) <==> AllComing(s, ext)
  {
    var t := PerformAll(s, steps);
    TraceSettles(s, ext, steps);
    forall i | t.scan <= i < |t.candidates| ensures Marked(t, t.candidates[i]) {
      assert EntryOk(t, i) && Marked(s, s.candidates[i]);
    }
    HandedOverOk(t, ext);
    forall a | a in t.heap && Ext(ext, a) > 0 ensures Holding(HandedOver(t).heap[a]) {
      assert RecolouredAt(s.heap, t.heap, a) && ExactAt(t.heap, ext, a) && DeadOk(t, {}, a);
    }
    RestsCurrentIff(HandedOver(t), u, ext);
    SameAnchored(t, ext);
    if AnchoredCurrent(t, ext) {
      CurrentIsComing(s, t, ext);
    } else if AllComing(s, ext) {
      ComingIsCurrent(s, t, ext);
    }
  }
}
