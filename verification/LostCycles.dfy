/** Reclaiming the unmarked candidates after a finished trace. */
module LostCycles {
  import opened Graphs
  import opened Heap
  import opened Registry
  import opened Dismantle
  import opened Releasing

  /** Give up the object's own references once; the flag remembers it. */
  function ReleaseChildren(s: Rt, a: Addr): Rt
    requires a in s.heap
  {
    if s.heap[a].childrenReleased then s
    else
      var o := s.heap[a];
      DismantleFrom(Put(s, a, o.(childrenReleased := true)), o, 0, ToLost)
  }

  function EnqueueLost(s: Rt, a: Addr): Rt {
    if a !in s.heap || s.heap[a].rc != 0 then Fault(s) else s.(lost := s.lost + [a])
  }

  /** Look at the next candidate from the top. */
  function Scan(s: Rt): Rt {
    var top := if s.scan > |s.candidates| then |s.candidates| else s.scan;
    if top == 0 then s.(scan := 0)
    else
      var a := s.candidates[top - 1];
      var s1 := s.(scan := top - 1);
      if a !in s.heap then Fault(s1)
      else if Marked(s1, a) then s1
      else
        var s2 := ReleaseChildren(s1, a);
        if a !in s2.heap then Fault(s2)
        else if s2.heap[a].rc == 0 then EnqueueLost(s2, a) else s2
  }

  function FreeUnreachable(s: Rt): Rt {
    if s.lost == [] then Fault(s)
    else
      var a := s.lost[|s.lost| - 1];
      var s1 := s.(lost := s.lost[..|s.lost| - 1]);
      if a !in s1.heap then Fault(s1) else FreeReleased(ReleaseChildren(s1, a), a)
  }

  predicate ReclaimDone(s: Rt) {
    s.lost == [] && s.scan == 0
  }

  function ReclaimStep(s: Rt): Rt
    requires !ReclaimDone(s)
  {
    if s.lost != [] then FreeUnreachable(s) else Scan(s)
  }

  // ----- the invariant -----

  /** The objects on the two release lists. */
  ghost function Waiting(s: Rt): set<Addr> {
    set a | a in s.releasing + s.waiting
  }

  ghost predicate Treated(s: Rt, a: Addr) {
    Marked(s, a) || (a in s.heap && s.heap[a].childrenReleased)
  }

  ghost predicate ReclaimOk(s: Rt, ext: Owners) {
    && Sound(s, ext)
    && (forall a :: a in s.heap ==> !s.heap[a].tracing)
    && (forall a :: a in Waiting(s) ==> a in s.heap && !s.heap[a].childrenReleased)
    && (forall i {:trigger s.candidates[i]} :: s.scan <= i < |s.candidates| ==> Treated(s, s.candidates[i]))
  }

  /** The next scan would find an unmarked candidate whose whole count comes from
      itself. Its count is zero once its own fields are given up, yet it is queued
      already: on the lost list, or on a release list if it was dead before. */
  ghost predicate DoubleQueueNext(s: Rt) {
    && s.lost == [] && s.scan != 0 && |s.candidates| > 0
    && var a := s.candidates[ScanTop(s) - 1];
       && a in s.heap && !Marked(s, a) && !s.heap[a].childrenReleased
       && s.heap[a].rc == CountFrom(s.heap[a], 0, a)
  }

  /** Survivors keep fields, mark and registration; the released flag is never taken back. */
  ghost predicate Lasts(s: Rt, s': Rt) {
    && s' == s.(heap := s'.heap, candidates := s'.candidates, lost := s'.lost, scan := s'.scan,
        tracingState := s'.tracingState)
    && s'.heap.Keys <= s.heap.Keys
    && (forall a {:trigger LastsAt(s, s', a)} :: a in s'.heap ==> LastsAt(s, s', a))
  }

  ghost predicate LastsAt(s: Rt, s': Rt, a: Addr)
    requires a in s'.heap
  {
    && a in s.heap && var o, o' := s.heap[a], s'.heap[a];
    && o'.header == o.header && o'.slots == o.slots && o'.mark == o.mark && o'.candidate == o.candidate
    && o'.tracing == o.tracing && (o.childrenReleased ==> o'.childrenReleased)
  }

  lemma LastsTrans(s: Rt, t: Rt, u: Rt)
    requires Lasts(s, t) && Lasts(t, u)
    ensures Lasts(s, u)
  {
    forall a | a in u.heap ensures LastsAt(s, u, a) {
      assert LastsAt(t, u, a) && LastsAt(s, t, a);
    }
  }

  /** A self-supporting set whose registered members are marked; the dead members are on the release lists. */
  ghost predicate Protected(s: Rt, ext: Owners, members: set<Addr>) {
    && Supported(s.heap, ext, Kept(members, Waiting(s)))
    && forall a :: a in members && a in s.heap && s.heap[a].candidate ==> Marked(s, a)
  }

  lemma NotWaiting(s: Rt, a: Addr)
    requires QueuedOk(s, a) && a in s.lost
    ensures a !in Waiting(s)
  {
    assert multiset(s.releasing + s.waiting) == multiset(s.releasing) + multiset(s.waiting);
    assert a in Waiting(s) ==> a in multiset(s.releasing + s.waiting);
  }

  lemma ProtectedNotLost(s: Rt, ext: Owners, members: set<Addr>, a: Addr)
    requires Sound(s, ext) && Protected(s, ext, members) && a in members
    ensures a !in s.lost
  {
    var keep := Kept(members, Waiting(s));
    assert SupportedAt(s.heap, ext, keep, a) && ExactAt(s.heap, ext, a);
    if OwnedWithin(s.heap, members, a) {
      var q, i: nat :| q in members && HoldsEdge(s.heap, q, i, a);
      EdgeIn(s.heap, {}, q, i, a);
    }
    assert a in Queue(s) ==> QueuedOk(s, a);
    if a in s.lost && QueuedOk(s, a) {
      NotWaiting(s, a);
    }
  }

  /** What one step of the reclaim achieves. */
  ghost predicate StepGood(s: Rt, s': Rt, ext: Owners, members: set<Addr>) {
    && ReclaimOk(s', ext) && Protected(s', ext, members) && Lasts(s, s') && s'.tracingState == s.tracingState
    && (Alive(s'.heap) < Alive(s.heap)
        || (Alive(s'.heap) == Alive(s.heap) && |s'.lost| + s'.scan < |s.lost| + s.scan))
  }

  /** After a sound change, the scan's progress and the protected set carry over. */
  lemma Carries(s: Rt, s': Rt, ext: Owners, members: set<Addr>)
    requires ReclaimOk(s, ext) && Protected(s, ext, members) && Sound(s', ext) && Lasts(s, s')
    requires Supported(s'.heap, ext, Kept(members, Waiting(s)))
    requires EntriesMoveDown(s.candidates, s'.candidates) && s'.scan <= s.scan
    requires forall a :: a in s'.heap && a in Waiting(s) ==> !s'.heap[a].childrenReleased
    requires forall k ::
        s'.scan <= k < s.scan && k < |s.candidates| && s.candidates[k] in s'.heap ==> Treated(s', s.candidates[k])
    ensures ReclaimOk(s', ext) && Protected(s', ext, members)
  {
    forall a | a in s'.heap ensures !s'.heap[a].tracing {
      assert LastsAt(s, s', a);
    }
    forall i | s'.scan <= i < |s'.candidates| ensures Treated(s', s'.candidates[i]) {
      assert MovedFrom(s.candidates, s'.candidates[i], i) && EntryOk(s', i);
      var k :| i <= k < |s.candidates| && s.candidates[k] == s'.candidates[i];
      assert LastsAt(s, s', s.candidates[k]);
    }
    assert Waiting(s') == Waiting(s);
    forall a | a in Waiting(s')
      ensures a in s'.heap && !s'.heap[a].childrenReleased
    {
      assert a in s'.releasing + s'.waiting && a in Queue(s') && QueuedOk(s', a);
      assert LastsAt(s, s', a);
    }
    forall a | a in members && a in s'.heap && s'.heap[a].candidate ensures Marked(s', a) {
      assert LastsAt(s, s', a);
    }
  }

  lemma ShrinksLasts(s: Rt, s': Rt)
    requires Shrinks(s, s', ToLost) && forall a :: a in s.heap ==> !s.heap[a].tracing
    ensures Lasts(s, s') && s'.scan == s.scan
  {
    forall a | a in s'.heap ensures LastsAt(s, s', a) {
      assert SameShape(s.heap[a], s'.heap[a], s.bit, ToLost);
    }
  }

  /** A scan that finds nothing to do, or the end of the registry. */
  lemma ScanSkips(s: Rt, ext: Owners, members: set<Addr>)
    requires ReclaimOk(s, ext) && Protected(s, ext, members) && s.lost == [] && s.scan != 0
    requires |s.candidates| == 0 || Treated(s, s.candidates[ScanTop(s) - 1])
    ensures StepGood(s, Scan(s), ext, members)
  {
    var s' := Scan(s);
    if |s.candidates| > 0 {
      var a := s.candidates[ScanTop(s) - 1];
      assert EntryOk(s, ScanTop(s) - 1);
      if !Marked(s, a) {
        assert DeadOk(s, {}, a);
        assert a in Queue(s) ==> a in s.releasing + s.waiting;
      }
    }
    SameHeapSound(s, s', ext);
    ScanMoves(s, s');
    Carries(s, s', ext, members);
  }

  ghost function ScanTop(s: Rt): nat
    requires s.scan != 0
  {
    if s.scan > |s.candidates| then |s.candidates| else s.scan
  }

  lemma SameHeapSound(s: Rt, s': Rt, ext: Owners)
    requires Sound(s, ext) && s' == s.(scan := s'.scan, tracingState := s'.tracingState)
    ensures Sound(s', ext)
  {
    assert Queue(s') == Queue(s);
    forall i | 0 <= i < |s'.candidates| ensures EntryOk(s', i) {
      assert EntryOk(s, i);
    }
    forall b | b in s'.heap ensures FlagOk(s', b) && DeadOk(s', {}, b) {
      assert FlagOk(s, b) && DeadOk(s, {}, b);
    }
    forall a | a in Queue(s') ensures QueuedOk(s', a) {
      assert QueuedOk(s, a);
    }
  }

  lemma ScanMoves(s: Rt, s': Rt)
    requires s' == s.(scan := s'.scan)
    ensures Lasts(s, s') && EntriesMoveDown(s.candidates, s'.candidates)
  {
    forall a | a in s'.heap ensures LastsAt(s, s', a) {
    }
    forall i | 0 <= i < |s.candidates| ensures MovedFrom(s.candidates, s.candidates[i], i) {
    }
  }

  /** The state after the scan has released the fields of candidate `a`. */
  lemma FlagLasts(s: Rt, s1: Rt, a: Addr)
    requires a in s.heap && s1 == Put(s.(scan := s1.scan), a, s.heap[a].(childrenReleased := true))
    ensures Lasts(s, s1)
  {
    forall b | b in s1.heap ensures LastsAt(s, s1, b) {
    }
  }

  lemma ScanReleases(s: Rt, ext: Owners, members: set<Addr>) returns (s2: Rt)
    requires ReclaimOk(s, ext) && Protected(s, ext, members) && s.lost == [] && s.scan != 0
    requires |s.candidates| > 0 && !Treated(s, s.candidates[ScanTop(s) - 1])
    ensures var a := s.candidates[ScanTop(s) - 1];
      && a in s.heap && s2 == ReleaseChildren(s.(scan := ScanTop(s) - 1), a)
      && Sound(s2, ext) && Lasts(s, s2) && s2.tracingState == s.tracingState
      && (a !in Waiting(s) ==> ReclaimOk(s2, ext) && Protected(s2, ext, members))
      && a in s2.heap && s2.heap[a].rc == s.heap[a].rc - CountFrom(s.heap[a], 0, a)
      && s2.scan < s.scan && (s2.lost == s.lost || Alive(s2.heap) < Alive(s.heap)) && Alive(s2.heap) <= Alive(s.heap)
  {
    var a := s.candidates[ScanTop(s) - 1];
    assert EntryOk(s, ScanTop(s) - 1) && DeadOk(s, {}, a);
    var o := s.heap[a];
    var s1 := Put(s.(scan := ScanTop(s) - 1), a, o.(childrenReleased := true));
    var keep := Kept(members, Waiting(s));
    assert Queue(s1) == Queue(s);
    BeginDismantling(s, s1, ext, a, false);
    FlaggedSupported(s, s1, ext, a, members);
    DismantleKeeps(s1, ext, a, o, 0, false, ToLost, keep);
    s2 := DismantleFrom(s1, o, 0, ToLost);
    assert SameShape(s1.heap[a], s2.heap[a], s1.bit, ToLost);
    EndReleased(s2, ext, a, o);
    ShrinksLasts(s1, s2);
    FlagLasts(s, s1, a);
    LastsTrans(s, s1, s2);
    if a !in Waiting(s) {
      forall b | b in s2.heap && b in Waiting(s) ensures !s2.heap[b].childrenReleased {
        assert SameShape(s1.heap[b], s2.heap[b], s1.bit, ToLost);
      }
      Carries(s, s2, ext, members);
    }
    CountAfter(s1, s2, ext, a, o);
    AliveShrinks(s1, s2, ToLost);
    assert Alive(s1.heap) == Alive(s.heap);
  }

  lemma CountAfter(s1: Rt, s2: Rt, ext: Owners, a: Addr, o: Obj)
    requires SoundFrom(s1, ext, a, o, 0, false) && SoundFrom(s2, ext, a, o, |o.slots|, false)
    requires SameEdges(s1.heap, s2.heap)
    ensures s2.heap[a].rc == s1.heap[a].rc - CountFrom(o, 0, a)
  {
    assert ExactFromAt(s1.heap, ext, a, o, 0, a) && ExactFromAt(s2.heap, ext, a, o, |o.slots|, a);
    SameEdgesCounts(s1.heap, s2.heap, {a}, a);
    CountPastEnd(o, a);
  }

  /** Flagging an unmarked candidate takes nothing from a protected set. */
  lemma FlaggedSupported(s: Rt, s1: Rt, ext: Owners, a: Addr, members: set<Addr>)
    requires Protected(s, ext, members) && a in s.heap && a !in members
    requires s1.heap == s.heap[a := s.heap[a].(childrenReleased := true)]
    ensures Supported(s1.heap, ext, Kept(members, Waiting(s)))
  {
    var keep := Kept(members, Waiting(s));
    forall b | b in members ensures SupportedAt(s1.heap, ext, keep, b) {
      assert SupportedAt(s.heap, ext, keep, b);
      if OwnedWithin(s.heap, members, b) {
        var q, i: nat :| q in members && HoldsEdge(s.heap, q, i, b);
        assert HoldsEdge(s1.heap, q, i, b);
      }
    }
  }

  lemma LostBegins(s: Rt, s1: Rt, ext: Owners, a: Addr)
    requires ReclaimOk(s, ext) && s.lost != [] && a == s.lost[|s.lost| - 1]
    requires a in s.heap && Holding(s.heap[a]) && QueuedOk(s, a)
    requires s1 == Put(s.(lost := s.lost[..|s.lost| - 1]), a, s.heap[a].(childrenReleased := true))
    ensures SoundFrom(s1, ext, a, s.heap[a], 0, true)
  {
    assert s.lost == s.lost[..|s.lost| - 1] + [a];
    assert Queue(s) == Queue(s1) + multiset{a};
    BeginDismantling(s, s1, ext, a, true);
  }

  /** The top of the lost list, taken off and dismantled. */
  lemma LostDismantled(s: Rt, s1: Rt, ext: Owners, a: Addr, members: set<Addr>) returns (s2: Rt)
    requires ReclaimOk(s, ext) && Protected(s, ext, members) && s.lost != [] && a == s.lost[|s.lost| - 1]
    requires a in s.heap && a !in members && Holding(s.heap[a]) && QueuedOk(s, a)
    requires s1 == Put(s.(lost := s.lost[..|s.lost| - 1]), a, s.heap[a].(childrenReleased := true))
    ensures s2 == DismantleFrom(s1, s.heap[a], 0, ToLost) && Shrinks(s1, s2, ToLost)
    ensures SoundFrom(s2, ext, a, s.heap[a], |s.heap[a].slots|, true)
    ensures Supported(s2.heap, ext, Kept(members, Waiting(s)))
  {
    var o := s.heap[a];
    FlaggedSupported(s, s1, ext, a, members);
    LostBegins(s, s1, ext, a);
    DismantleKeeps(s1, ext, a, o, 0, true, ToLost, Kept(members, Waiting(s)));
    s2 := DismantleFrom(s1, o, 0, ToLost);
  }

  lemma LostAlreadyDismantled(s: Rt, s1: Rt, ext: Owners, a: Addr, members: set<Addr>)
    requires ReclaimOk(s, ext) && Protected(s, ext, members) && s.lost != [] && a == s.lost[|s.lost| - 1]
    requires a in s.heap && a !in members && s.heap[a].childrenReleased && QueuedOk(s, a)
    requires s1 == s.(lost := s.lost[..|s.lost| - 1])
    ensures SoundFrom(s1, ext, a, s.heap[a], |s.heap[a].slots|, true) && Shrinks(s1, s1, ToLost)
  {
    assert s.lost == s.lost[..|s.lost| - 1] + [a];
    assert Queue(s) == Queue(s1) + multiset{a};
    BeginReleased(s, s1, ext, a);
    ShrinksRefl(s1, ToLost);
  }

  /** Freeing the top of the lost list. */
  lemma FreeKeeps(s: Rt, ext: Owners, members: set<Addr>)
    requires ReclaimOk(s, ext) && Protected(s, ext, members) && s.lost != []
    ensures StepGood(s, FreeUnreachable(s), ext, members)
  {
    var a := s.lost[|s.lost| - 1];
    assert a in Queue(s) && QueuedOk(s, a);
    if a in members {
      ProtectedNotLost(s, ext, members, a);
    }
    NotWaiting(s, a);
    var o := s.heap[a];
    var s0 := s.(lost := s.lost[..|s.lost| - 1]);
    var s1 := Put(s0, a, o.(childrenReleased := true));
    if o.childrenReleased {
      assert s1 == s0;
      LostAlreadyDismantled(s, s0, ext, a, members);
      EndFreed(s0, ext, a, o, Kept(members, Waiting(s)));
      FreedSteps(s, s1, s0, ext, a, members);
    } else {
      var s2 := LostDismantled(s, s1, ext, a, members);
      assert s2 == ReleaseChildren(s0, a);
      EndFreed(s2, ext, a, o, Kept(members, Waiting(s)));
      FreedSteps(s, s1, s2, ext, a, members);
    }
  }

  lemma FreedSteps(s: Rt, s1: Rt, s2: Rt, ext: Owners, a: Addr, members: set<Addr>)
    requires ReclaimOk(s, ext) && Protected(s, ext, members) && a in s.heap && s.heap[a].rc == 0 && a !in Waiting(s)
    requires s.lost != [] && s1 == Put(s.(lost := s.lost[..|s.lost| - 1]), a, s.heap[a].(childrenReleased := true))
    requires Shrinks(s1, s2, ToLost) && a in s2.heap && s2.heap[a].rc == 0 && Freed(s2, FreeReleased(s2, a), a)
    requires Sound(FreeReleased(s2, a), ext) && Supported(FreeReleased(s2, a).heap, ext, Kept(members, Waiting(s)))
    ensures StepGood(s, FreeReleased(s2, a), ext, members)
  {
    var s3 := FreeReleased(s2, a);
    ShrinksLasts(s1, s2);
    forall b | b in s3.heap ensures LastsAt(s, s3, b) && s3.heap[b].childrenReleased == s.heap[b].childrenReleased {
      assert SameShape(s1.heap[b], s2.heap[b], s1.bit, ToLost);
      assert SameObject(s2.heap[b], s3.heap[b]);
    }
    EntriesMoveDownTrans(s.candidates, s2.candidates, s3.candidates);
    Carries(s, s3, ext, members);
    AliveShrinks(s1, s2, ToLost);
    assert Alive(s1.heap) == Alive(s.heap);
    assert Alive(s3.heap) == Alive(s2.heap) by {
      forall b ensures b in Alive(s3.heap) <==> b in Alive(s2.heap) {
        if b in s3.heap {
          assert SameObject(s2.heap[b], s3.heap[b]);
        }
      }
    }
  }

  /** Every step of the reclaim is sound, frees nothing protected, and makes
      progress, unless the scan is at a candidate that only owns itself. */
  lemma ReclaimStepKeeps(s: Rt, ext: Owners, members: set<Addr>)
    requires ReclaimOk(s, ext) && Protected(s, ext, members) && !ReclaimDone(s) && !DoubleQueueNext(s)
    ensures StepGood(s, ReclaimStep(s), ext, members)
  {
    if s.lost != [] {
      FreeKeeps(s, ext, members);
    } else if |s.candidates| == 0 || Treated(s, s.candidates[ScanTop(s) - 1]) {
      ScanSkips(s, ext, members);
    } else {
      NotDeadNotWaiting(s, ext);
      var _ := ScanReleases(s, ext, members);
    }
  }

  lemma NotDeadNotWaiting(s: Rt, ext: Owners)
    requires ReclaimOk(s, ext) && s.scan != 0 && s.lost == [] && !DoubleQueueNext(s) && |s.candidates| > 0
    requires !Treated(s, s.candidates[ScanTop(s) - 1])
    ensures s.candidates[ScanTop(s) - 1] !in Waiting(s)
  {
    var a := s.candidates[ScanTop(s) - 1];
    assert EntryOk(s, ScanTop(s) - 1);
    if a in Waiting(s) {
      WaitingIsDead(s, ext, a);
      assert ExactAt(s.heap, ext, a);
      SplitEdges(s.heap, a, a);
    }
  }

  lemma WaitingIsDead(s: Rt, ext: Owners, a: Addr)
    requires Sound(s, ext) && a in Waiting(s)
    ensures a in s.heap && s.heap[a].rc == 0 && Holding(s.heap[a]) == !s.heap[a].childrenReleased
  {
    assert a in s.releasing + s.waiting && a in Queue(s) && QueuedOk(s, a);
  }

  /** A step keeps the invariant exactly when the scanned candidate's count does
      not come from itself alone; otherwise the candidate ends up queued twice. */
  lemma StepSoundIff(s: Rt, ext: Owners)
    requires ReclaimOk(s, ext) && !ReclaimDone(s)
    ensures ReclaimOk(ReclaimStep(s), ext) <==> !DoubleQueueNext(s)
    ensures DoubleQueueNext(s) ==> Queue(ReclaimStep(s))[s.candidates[ScanTop(s) - 1]] >= 2
  {
    if DoubleQueueNext(s) {
      var a := s.candidates[ScanTop(s) - 1];
      var s2 := ScanReleases(s, ext, {});
      assert DeadOk(s2, {}, a) && LastsAt(s, s2, a);
      assert a in Queue(s2) && QueuedOk(s2, a);
      var s' := ReclaimStep(s);
      assert s' == s2.(lost := s2.lost + [a]);
      assert Queue(s') == Queue(s2) + multiset{a};
      assert a in Queue(s') && !QueuedOk(s', a);
    } else {
      ReclaimStepKeeps(s, ext, {});
    }
  }

  // ----- running the reclaim to its end -----

  /** No unmarked candidate owns itself or waits on a release list. */
  ghost predicate CleanCandidates(s: Rt) {
    forall a :: a in s.heap && s.heap[a].candidate && !Marked(s, a) ==>
      CountFrom(s.heap[a], 0, a) == 0 && a !in Waiting(s)
  }

  lemma CleanIsSafe(s: Rt, ext: Owners)
    requires ReclaimOk(s, ext) && CleanCandidates(s)
    ensures !DoubleQueueNext(s)
  {
    if s.lost == [] && s.scan != 0 && |s.candidates| > 0 {
      var a := s.candidates[ScanTop(s) - 1];
      assert EntryOk(s, ScanTop(s) - 1) && DeadOk(s, {}, a);
      assert a in s.releasing + s.waiting ==> a in Waiting(s);
      assert a in Queue(s) ==> a in s.releasing + s.waiting;
    }
  }

  lemma {:induction false} SameFieldsSameCount(o: Obj, o': Obj, i: nat, a: Addr)
    requires o'.header == o.header && o'.slots == o.slots
    ensures CountFrom(o', i, a) == CountFrom(o, i, a)
    decreases |o.slots| - i
  {
    if i < |o.slots| {
      SameFieldsSameCount(o, o', i + 1, a);
    }
  }

  lemma CleanLasts(s: Rt, s': Rt)
    requires CleanCandidates(s) && Lasts(s, s')
    ensures CleanCandidates(s')
  {
    assert Waiting(s') == Waiting(s);
    forall a | a in s'.heap && s'.heap[a].candidate && !Marked(s', a)
      ensures CountFrom(s'.heap[a], 0, a) == 0 && a !in Waiting(s')
    {
      assert LastsAt(s, s', a);
      SameFieldsSameCount(s.heap[a], s'.heap[a], 0, a);
    }
  }

  lemma ReclaimOwnedStay(s: Rt, ext: Owners)
    requires ReclaimOk(s, ext) && !ReclaimDone(s) && !DoubleQueueNext(s)
    ensures OwnedStay(s.heap, ReclaimStep(s).heap, ext)
  {
    if s.lost != [] {
      FreeOwnedStay(s, ext);
    } else if |s.candidates| > 0 && !Treated(s, s.candidates[ScanTop(s) - 1]) {
      var a := s.candidates[ScanTop(s) - 1];
      assert EntryOk(s, ScanTop(s) - 1) && DeadOk(s, {}, a);
      var s1 := Put(s.(scan := ScanTop(s) - 1), a, s.heap[a].(childrenReleased := true));
      assert Queue(s1) == Queue(s);
      BeginDismantling(s, s1, ext, a, false);
      DismantleOwnedStay(s1, ext, a, s.heap[a], 0, false, ToLost);
    }
  }

  lemma FreeOwnedStay(s: Rt, ext: Owners)
    requires ReclaimOk(s, ext) && s.lost != []
    ensures OwnedStay(s.heap, ReclaimStep(s).heap, ext)
  {
    var a := s.lost[|s.lost| - 1];
    assert a in Queue(s) && QueuedOk(s, a) && ExactAt(s.heap, ext, a);
    var s0 := s.(lost := s.lost[..|s.lost| - 1]);
    if s.heap[a].childrenReleased {
      LostAlreadyDismantled(s, s0, ext, a, {});
      FreeReleasedFacts(s0, a);
    } else {
      var s1 := Put(s0, a, s.heap[a].(childrenReleased := true));
      LostBegins(s, s1, ext, a);
      DismantledOwnedStay(s1, ext, a, s.heap[a]);
    }
  }

  lemma DismantledOwnedStay(s: Rt, ext: Owners, a: Addr, o: Obj)
    requires SoundFrom(s, ext, a, o, 0, true) && Ext(ext, a) == 0
    ensures var t := DismantleFrom(s, o, 0, ToLost); a in t.heap && OwnedStay(s.heap, FreeReleased(t, a).heap, ext)
  {
    DismantleOwnedStay(s, ext, a, o, 0, true, ToLost);
    DismantleKeeps(s, ext, a, o, 0, true, ToLost, Kept({}, {}));
    FreeReleasedFacts(DismantleFrom(s, o, 0, ToLost), a);
  }

  /** `t` is on the way from `s`: sound, with every protected set of `s` still protected. */
  ghost predicate Progress(s: Rt, t: Rt, ext: Owners) {
    && ReclaimOk(t, ext) && CleanCandidates(t) && Lasts(s, t) && OwnedStay(s.heap, t.heap, ext)
    && forall members {:trigger Protected(s, ext, members)} {:trigger Protected(t, ext, members)} ::
         Protected(s, ext, members) ==> Protected(t, ext, members)
  }

  lemma ProgressStarts(s: Rt, ext: Owners)
    requires ReclaimOk(s, ext) && CleanCandidates(s)
    ensures Progress(s, s, ext)
  {
    forall a | a in s.heap ensures LastsAt(s, s, a) {
    }
  }

  /** Every step makes progress, whatever was done before it. */
  lemma ProgressStep(s: Rt, t: Rt, ext: Owners)
    requires Progress(s, t, ext) && !ReclaimDone(t)
    ensures Progress(s, ReclaimStep(t), ext) && ReclaimStep(t).tracingState == t.tracingState
    ensures Alive(ReclaimStep(t).heap) < Alive(t.heap)
         || (Alive(ReclaimStep(t).heap) == Alive(t.heap)
             && |ReclaimStep(t).lost| + ReclaimStep(t).scan < |t.lost| + t.scan)
  {
    var u := ReclaimStep(t);
    CleanIsSafe(t, ext);
    assert Protected(t, ext, {});
    ReclaimStepKeeps(t, ext, {});
    ReclaimOwnedStay(t, ext);
    CleanLasts(t, u);
    LastsTrans(s, t, u);
    forall members | Protected(s, ext, members) ensures Protected(u, ext, members) {
      ReclaimStepKeeps(t, ext, members);
    }
  }

  /** The machine's state word plays no part in any of this. */
  lemma StateIgnored(s: Rt, t: Rt, ext: Owners, st: TracingState)
    requires Progress(s, t, ext)
    ensures Progress(s, t.(tracingState := st), ext)
  {
    var u := t.(tracingState := st);
    SameHeapSound(t, u, ext);
    forall a | a in u.heap ensures LastsAt(s, u, a) {
      assert LastsAt(s, t, a);
    }
    assert Waiting(u) == Waiting(t);
    forall i | u.scan <= i < |u.candidates| ensures Treated(u, u.candidates[i]) {
      assert Treated(t, t.candidates[i]);
    }
  }

  /** The reclaim as one run; it ends because live objects or pending work run out. */
  ghost function Reclaim(s: Rt, t: Rt, ext: Owners): (r: Rt)
    requires Progress(s, t, ext)
    ensures Progress(s, r, ext) && ReclaimDone(r)
    decreases |Alive(t.heap)|, |t.lost| + t.scan
  {
    if ReclaimDone(t) then t
    else
      ProgressStep(s, t, ext);
      AliveMeasure(t, ReclaimStep(t));
      Reclaim(s, ReclaimStep(t), ext)
  }

  lemma AliveMeasure(s: Rt, s': Rt)
    ensures Alive(s'.heap) < Alive(s.heap) ==> |Alive(s'.heap)| < |Alive(s.heap)|
  {
    if Alive(s'.heap) < Alive(s.heap) {
      ProperSubsetSmaller(Alive(s'.heap), Alive(s.heap));
    }
  }

  ghost function Untouched(h: Store): set<Addr> {
    set a | a in h && !h[a].childrenReleased
  }

  /** When the reclaim is over, what still holds its fields protects itself. */
  lemma DoneIsProtected(t: Rt, ext: Owners)
    requires ReclaimOk(t, ext) && ReclaimDone(t)
    ensures Protected(t, ext, Untouched(t.heap))
  {
    var u := Untouched(t.heap);
    var keep := Kept(u, Waiting(t));
    forall a | a in u ensures SupportedAt(t.heap, ext, keep, a) && (t.heap[a].candidate ==> Marked(t, a)) {
      assert DeadOk(t, {}, a) && ExactAt(t.heap, ext, a) && FlagOk(t, a);
      if t.heap[a].rc == 0 {
        assert a in t.releasing + t.waiting;
      } else if Ext(ext, a) == 0 {
        var q, i := SomeEdge(t.heap, {}, a);
        assert q in u;
      }
    }
  }

  lemma ProtectedBefore(s: Rt, t: Rt, ext: Owners, members: set<Addr>)
    requires Sound(s, ext) && Lasts(s, t) && Protected(t, ext, members)
    requires forall a :: a in s.heap ==> !s.heap[a].tracing
    requires forall a :: a in Waiting(s) && a in s.heap ==> s.heap[a].rc == 0
    ensures Protected(s, ext, members)
  {
    var keep := Kept(members, Waiting(s));
    assert Waiting(t) == Waiting(s);
    forall a | a in members ensures SupportedAt(s.heap, ext, keep, a) && (s.heap[a].candidate ==> Marked(s, a)) {
      assert SupportedAt(t.heap, ext, keep, a) && LastsAt(s, t, a) && DeadOk(s, {}, a);
      if OwnedWithin(t.heap, members, a) {
        var q, i: nat :| q in members && HoldsEdge(t.heap, q, i, a);
        assert SupportedAt(t.heap, ext, keep, q) && LastsAt(s, t, q) && DeadOk(s, {}, q);
        assert HoldsEdge(s.heap, q, i, a);
      }
    }
  }

  /** When a reclaim is over, it has left untouched exactly the members of protected sets. */
  lemma ReclaimExact(s: Rt, t: Rt, ext: Owners, a: Addr)
    requires ReclaimOk(s, ext) && Progress(s, t, ext) && ReclaimDone(t)
    ensures a in Untouched(t.heap) <==> exists members :: Protected(s, ext, members) && a in members
  {
    if a in Untouched(t.heap) {
      DoneIsProtected(t, ext);
      forall b | b in Waiting(s) && b in s.heap ensures s.heap[b].rc == 0 {
        WaitingIsDead(s, ext, b);
      }
      ProtectedBefore(s, t, ext, Untouched(t.heap));
    }
    if members :| Protected(s, ext, members) && a in members {
      assert SupportedAt(t.heap, ext, Kept(members, Waiting(t)), a);
    }
  }
}
