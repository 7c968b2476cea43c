/** What a reclaim does to the objects that are still in use, from whatever state it starts in:
    after an exact trace or one that the mutator disturbed, with or without objects on the release lists. */
module ReclaimResult {
  import opened Graphs
  import opened Heap
  import opened Registry
  import opened Dismantle
  import opened Releasing
  import opened LostCycles

  // ----- what holds on to an object -----

  /** A cycle of own references on which the scan finds nothing to release. */
  ghost predicate KeptCycle(s: Rt, c: seq<Addr>) {
    IsCycle(OwnGraph(s.heap), c) && forall i {:trigger c[i]} :: 0 <= i < |c| ==> Spared(s, c[i])
  }

  /** The scan passes the object by, and it has not been dismantled before. */
  ghost predicate Spared(s: Rt, a: Addr) {
    a in s.heap && Holding(s.heap[a]) && (s.heap[a].candidate ==> Marked(s, a))
  }

  ghost predicate OnKeptCycle(s: Rt, a: Addr) {
    exists c :: KeptCycle(s, c) && a in c
  }

  /** External owners and the release lists. */
  ghost function Holders(s: Rt, ext: Owners): set<Addr> {
    set a | a in s.heap && (a in Roots(s.heap, ext) || a in Waiting(s))
  }

  /** Those, and the cycles that the scan leaves alone. */
  ghost function Anchors(s: Rt, ext: Owners): set<Addr> {
    set a | a in s.heap && (a in Holders(s, ext) || OnKeptCycle(s, a))
  }

  /** Some chain of own references leads to `a` from an external owner or a release list. */
  ghost predicate Held(s: Rt, ext: Owners, a: Addr) {
    FromRoots(OwnGraph(s.heap), Holders(s, ext), a)
  }

  ghost predicate Anchored(s: Rt, ext: Owners, a: Addr) {
    FromRoots(OwnGraph(s.heap), Anchors(s, ext), a)
  }

  ghost function HeldSet(s: Rt, ext: Owners): set<Addr> {
    set a | a in s.heap && Held(s, ext, a)
  }

  ghost function AnchoredSet(s: Rt, ext: Owners): set<Addr> {
    set a | a in s.heap && Anchored(s, ext, a)
  }

  /** The scan passes by every object that external owners reach. */
  ghost predicate ReachedSpared(s: Rt, ext: Owners) {
    forall a :: a in ReachedSet(s.heap, ext) ==> Spared(s, a)
  }

  ghost predicate HeldSpared(s: Rt, ext: Owners) {
    forall a :: a in HeldSet(s, ext) ==> Spared(s, a)
  }

  ghost predicate AnchoredSpared(s: Rt, ext: Owners) {
    forall a :: a in AnchoredSet(s, ext) ==> Spared(s, a)
  }

  // ----- sets that are held are protected, and the other way round -----

  /** Whatever is reached from a set of anchors that contains its kept cycles is protected if it is spared. */
  lemma ReachProtected(s: Rt, ext: Owners, from: set<Addr>, all: set<Addr>)
    requires ReclaimOk(s, ext)
    requires forall a :: a in all <==> a in s.heap && FromRoots(OwnGraph(s.heap), from, a)
    requires forall a :: a in from ==>
        a in Roots(s.heap, ext) || a in Waiting(s) || HasPredecessorIn(OwnGraph(s.heap), from, a)
    requires forall a :: a in all ==> Spared(s, a)
    ensures Protected(s, ext, all)
  {
    var g := OwnGraph(s.heap);
    forall a | a in all ensures SupportedAt(s.heap, ext, Kept(all, Waiting(s)), a) {
      if a in Waiting(s) {
        WaitingIsDead(s, ext, a);
      } else if a !in Roots(s.heap, ext) {
        var p: Addr;
        if a in from {
          p :| p in from && Edge(g, p, a);
          ReachesRefl(g, p);
        } else {
          p := WalkEndPredecessor(g, from, a);
        }
        var i := OwnEdgeField(s.heap, p, a);
        assert p in all;
      }
    }
  }

  lemma ReachedProtected(s: Rt, ext: Owners)
    requires ReclaimOk(s, ext) && ReachedSpared(s, ext)
    ensures Protected(s, ext, ReachedSet(s.heap, ext))
  {
    ReachProtected(s, ext, Roots(s.heap, ext), ReachedSet(s.heap, ext));
  }

  lemma HeldProtected(s: Rt, ext: Owners)
    requires ReclaimOk(s, ext) && HeldSpared(s, ext)
    ensures Protected(s, ext, HeldSet(s, ext))
  {
    ReachProtected(s, ext, Holders(s, ext), HeldSet(s, ext));
  }

  lemma AnchorsHavePredecessors(s: Rt, ext: Owners, a: Addr)
    requires OnKeptCycle(s, a)
    ensures HasPredecessorIn(OwnGraph(s.heap), Anchors(s, ext), a)
  {
    var c :| KeptCycle(s, c) && a in c;
    var k :| 0 <= k < |c| && c[k] == a;
    var j := if k == 0 then |c| - 1 else k;
    assert Edge(OwnGraph(s.heap), c[j - 1], c[j]);
    assert c[j - 1] in c && Spared(s, c[j - 1]) && OnKeptCycle(s, c[j - 1]);
  }

  lemma AnchoredProtected(s: Rt, ext: Owners)
    requires ReclaimOk(s, ext) && AnchoredSpared(s, ext)
    ensures Protected(s, ext, AnchoredSet(s, ext))
  {
    forall a | a in Anchors(s, ext) && a !in Roots(s.heap, ext) && a !in Waiting(s)
      ensures HasPredecessorIn(OwnGraph(s.heap), Anchors(s, ext), a)
    {
      AnchorsHavePredecessors(s, ext, a);
    }
    ReachProtected(s, ext, Anchors(s, ext), AnchoredSet(s, ext));
  }

  /** Protected sets consist of what is anchored. */
  lemma ProtectedIsAnchored(s: Rt, ext: Owners, members: set<Addr>, a: Addr)
    requires ReclaimOk(s, ext) && Protected(s, ext, members) && a in members
    ensures a in AnchoredSet(s, ext)
  {
    var g, from, keep := OwnGraph(s.heap), Anchors(s, ext), Kept(members, Waiting(s));
    forall v | v in members ensures v in from || HasPredecessorIn(g, members, v) {
      assert SupportedAt(s.heap, ext, keep, v);
      if OwnedWithin(s.heap, members, v) {
        var q, i: nat :| q in members && HoldsEdge(s.heap, q, i, v);
        OwnEdge(s.heap, q, i, v);
      }
    }
    assert SupportedAt(s.heap, ext, keep, a);
    if !Anchored(s, ext, a) {
      var c := SupportedOrCyclic(g, from, members, a);
      forall i | 0 <= i < |c| ensures Spared(s, c[i]) {
        assert SupportedAt(s.heap, ext, keep, c[i]);
      }
      assert KeptCycle(s, c) && c[0] in c;
      assert c[0] in from;
      ReachesRefl(g, c[0]);
    }
  }

  // ----- safety -----

  /** At every moment of the reclaim, what the owners reach is there with its fields,
      if the scan was going to pass it by when the reclaim began. */
  lemma ReclaimSafe(s: Rt, t: Rt, ext: Owners, a: Addr)
    requires ReclaimOk(s, ext) && Progress(s, t, ext) && ReachedSpared(s, ext) && a in ReachedSet(s.heap, ext)
    ensures a in Untouched(t.heap) && t.heap[a].slots == s.heap[a].slots && (Marked(s, a) ==> Marked(t, a))
  {
    ReachedProtected(s, ext);
    assert SupportedAt(t.heap, ext, Kept(ReachedSet(s.heap, ext), Waiting(t)), a) && LastsAt(s, t, a);
  }

  lemma UntouchedIsSpared(s: Rt, t: Rt, ext: Owners, a: Addr)
    requires ReclaimOk(s, ext) && Progress(s, t, ext) && ReclaimDone(t) && a in Untouched(t.heap)
    ensures Spared(s, a) && a in AnchoredSet(s, ext)
  {
    ReclaimExact(s, t, ext, a);
    var members :| Protected(s, ext, members) && a in members;
    assert SupportedAt(s.heap, ext, Kept(members, Waiting(s)), a);
    ProtectedIsAnchored(s, ext, members, a);
  }

  /** However the trace before it went: a reclaim leaves everything untouched that external owners
      reach if and only if it began with every registered object among them marked. */
  lemma ReclaimSafeIff(s: Rt, t: Rt, ext: Owners)
    requires ReclaimOk(s, ext) && NoneReleased(s.heap) && Progress(s, t, ext) && ReclaimDone(t)
    ensures ReachedSet(s.heap, ext) <= Untouched(t.heap) <==>
        forall a :: a in ReachedSet(s.heap, ext) && s.heap[a].candidate ==> Marked(s, a)
  {
    forall a | a in s.heap ensures Holding(s.heap[a]) {
      assert DeadOk(s, {}, a);
    }
    if ReachedSet(s.heap, ext) <= Untouched(t.heap) {
      forall a | a in ReachedSet(s.heap, ext) ensures Spared(s, a) {
        UntouchedIsSpared(s, t, ext, a);
      }
    } else if ReachedSpared(s, ext) {
      forall a | a in ReachedSet(s.heap, ext) ensures a in Untouched(t.heap) {
        ReclaimSafe(s, t, ext, a);
      }
    }
  }

  // ----- what is left -----

  /** A finished reclaim leaves untouched exactly what is anchored if and only if all of that is spared. */
  lemma UntouchedIff(s: Rt, t: Rt, ext: Owners)
    requires ReclaimOk(s, ext) && Progress(s, t, ext) && ReclaimDone(t)
    ensures Untouched(t.heap) <= AnchoredSet(s, ext)
    ensures Untouched(t.heap) == AnchoredSet(s, ext) <==> AnchoredSpared(s, ext)
  {
    forall a | a in Untouched(t.heap) ensures Spared(s, a) && a in AnchoredSet(s, ext) {
      UntouchedIsSpared(s, t, ext, a);
    }
    if AnchoredSpared(s, ext) {
      AnchoredProtected(s, ext);
      forall a | a in AnchoredSet(s, ext) ensures a in Untouched(t.heap) {
        ReclaimExact(s, t, ext, a);
      }
    }
  }

  /** An anchor is never freed, and unless it is an owner's object it is never dismantled. */
  lemma AnchorStays(s: Rt, t: Rt, ext: Owners, a: Addr)
    requires ReclaimOk(s, ext) && Progress(s, t, ext) && ReclaimDone(t) && a in Anchors(s, ext)
    ensures a in t.heap
  {
    if a in Waiting(s) {
      assert a in Waiting(t);
    } else if a !in Roots(s.heap, ext) {
      var c :| KeptCycle(s, c) && a in c;
      CycleProtected(s, ext, c);
      ReclaimExact(s, t, ext, a);
      assert a in (set x | x in c);
    }
  }

  lemma CycleProtected(s: Rt, ext: Owners, c: seq<Addr>)
    requires ReclaimOk(s, ext) && KeptCycle(s, c)
    ensures Protected(s, ext, set x | x in c)
  {
    var g, members := OwnGraph(s.heap), set x | x in c;
    forall a | a in members ensures SupportedAt(s.heap, ext, Kept(members, Waiting(s)), a) {
      var k :| 0 <= k < |c| && c[k] == a;
      var j := if k == 0 then |c| - 1 else k;
      assert Edge(g, c[j - 1], c[j]);
      var i := OwnEdgeField(s.heap, c[j - 1], a);
      assert c[j - 1] in members && Spared(s, c[k]);
    }
  }

  /** The first object on a chain from an anchor that the reclaim has not left untouched is half dismantled. */
  lemma TouchedIsFlagged(s: Rt, t: Rt, ext: Owners, a: Addr)
    requires ReclaimOk(s, ext) && Progress(s, t, ext) && ReclaimDone(t)
    requires a in AnchoredSet(s, ext) && !Spared(s, a)
    ensures !NoneReleased(t.heap)
  {
    var g, u := OwnGraph(s.heap), Untouched(t.heap);
    var r := FromSome(g, Anchors(s, ext), a);
    AnchorStays(s, t, ext, r);
    if a in u {
      UntouchedIsSpared(s, t, ext, a);
    }
    if r in u {
      var x, y := ExitPoint(g, u, r, a);
      var i := OwnEdgeField(s.heap, x, y);
      assert LastsAt(s, t, x) && DeadOk(t, {}, x);
      assert HoldsEdge(t.heap, x, i, y) && TargetLive(t.heap, {}, x, i, y);
    }
  }

  /** No object with an external owner has been dismantled. */
  ghost predicate OwnersWhole(h: Store, ext: Owners) {
    forall a :: a in h && Ext(ext, a) > 0 ==> Holding(h[a])
  }

  /** A survivor is owned from outside, waits, or is owned by something untouched. */
  lemma SurvivorIsAnchored(s: Rt, t: Rt, ext: Owners, a: Addr)
    requires ReclaimOk(s, ext) && OwnersWhole(s.heap, ext) && Progress(s, t, ext) && ReclaimDone(t)
    requires a in t.heap && AnchoredSpared(s, ext)
    ensures a in AnchoredSet(s, ext)
  {
    UntouchedIff(s, t, ext);
    assert LastsAt(s, t, a) && DeadOk(t, {}, a) && ExactAt(t.heap, ext, a) && DeadOk(s, {}, a);
    var g := OwnGraph(s.heap);
    ReachesRefl(g, a);
    if t.heap[a].rc == 0 {
      assert a in t.releasing + t.waiting && a in Waiting(t) && a in Anchors(s, ext);
    } else if Ext(ext, a) > 0 {
      assert a in Roots(s.heap, ext) && a in Anchors(s, ext);
    } else {
      var q, i := SomeEdge(t.heap, {}, a);
      assert q in Untouched(t.heap) && LastsAt(s, t, q) && DeadOk(s, {}, q);
      assert HoldsEdge(s.heap, q, i, a) && q in AnchoredSet(s, ext);
      OwnEdge(s.heap, q, i, a);
      ReachesEdge(g, q, a);
      FromRootsStep(g, Anchors(s, ext), q, a);
    }
  }

  /** What a reclaim leaves to the releasing machine: no survivor is half dismantled if and only if no
      unmarked candidate is owned, directly or through others, by an external owner, by an object
      on a release list, or by a cycle that the scan leaves alone. */
  lemma LeftoversIff(s: Rt, t: Rt, ext: Owners)
    requires ReclaimOk(s, ext) && NoneReleased(s.heap) && Progress(s, t, ext) && ReclaimDone(t)
    ensures NoneReleased(t.heap) <==>
        forall a :: a in AnchoredSet(s, ext) && s.heap[a].candidate ==> Marked(s, a)
  {
    forall a | a in s.heap ensures Holding(s.heap[a]) {
      assert DeadOk(s, {}, a);
    }
    if a :| a in AnchoredSet(s, ext) && !Spared(s, a) {
      TouchedIsFlagged(s, t, ext, a);
    } else {
      UntouchedIff(s, t, ext);
      forall a | a in t.heap ensures !t.heap[a].childrenReleased {
        SurvivorIsAnchored(s, t, ext, a);
        assert a in Untouched(t.heap);
      }
    }
  }

  /** A cycle out of reach of owners and release lists that the scan leaves alone. */
  ghost predicate LeftCycle(s: Rt, ext: Owners, c: seq<Addr>) {
    KeptCycle(s, c) && !Held(s, ext, c[0])
  }

  lemma NoLeftCycle(s: Rt, ext: Owners)
    requires forall c :: !LeftCycle(s, ext, c)
    ensures AnchoredSet(s, ext) == HeldSet(s, ext)
  {
    var g := OwnGraph(s.heap);
    forall a | a in s.heap ensures Held(s, ext, a) <==> Anchored(s, ext, a) {
      if Held(s, ext, a) {
        var r := FromSome(g, Holders(s, ext), a);
        assert r in Anchors(s, ext);
      }
      if Anchored(s, ext, a) {
        var r := FromSome(g, Anchors(s, ext), a);
        if r in Holders(s, ext) {
          ReachesRefl(g, r);
        } else {
          var c :| KeptCycle(s, c) && r in c;
          var k :| 0 <= k < |c| && c[k] == r;
          CycleMutual(g, c, 0, k);
          assert !LeftCycle(s, ext, c);
          FromRootsStep(g, Holders(s, ext), c[0], r);
        }
        FromRootsStep(g, Holders(s, ext), r, a);
      }
    }
  }

  /** The reclaim leaves exactly what owners and release lists hold, and nothing half dismantled, if and only
      if it began with all of that spared and every other cycle held an unmarked candidate. */
  lemma ReclaimComplete(s: Rt, t: Rt, ext: Owners)
    requires ReclaimOk(s, ext) && NoneReleased(s.heap) && Progress(s, t, ext) && ReclaimDone(t)
    ensures t.heap.Keys == HeldSet(s, ext) && NoneReleased(t.heap) <==>
        HeldSpared(s, ext) && forall c :: !LeftCycle(s, ext, c)
  {
    UntouchedIff(s, t, ext);
    LeftoversIff(s, t, ext);
    forall a | a in s.heap ensures Holding(s.heap[a]) {
      assert DeadOk(s, {}, a);
    }
    if NoneReleased(t.heap) {
      assert Untouched(t.heap) == t.heap.Keys;
    }
    if c :| LeftCycle(s, ext, c) {
      assert c[0] in c && Spared(s, c[0]) && c[0] in Anchors(s, ext);
      AnchorStays(s, t, ext, c[0]);
    } else {
      NoLeftCycle(s, ext);
    }
  }

  // ----- at rest -----

  /** Every object is whole and carries the current mark, so that the next toggle whitens the whole heap. */
  ghost predicate AllCurrent(s: Rt) {
    forall a {:trigger Current(s, a)} :: a in s.heap ==> Current(s, a)
  }

  ghost predicate Current(s: Rt, a: Addr) {
    Marked(s, a) && Holding(s.heap[a])
  }

  ghost predicate AnchoredCurrent(s: Rt, ext: Owners) {
    forall a :: a in AnchoredSet(s, ext) ==> Current(s, a)
  }

  lemma CurrentAnchors(s: Rt, t: Rt, ext: Owners)
    requires ReclaimOk(s, ext) && Progress(s, t, ext) && ReclaimDone(t) && AllCurrent(t)
    ensures AnchoredCurrent(s, ext)
  {
    forall a | a in AnchoredSet(s, ext) ensures Current(s, a) {
      assert forall b :: b in t.heap ==> Current(t, b);
      if b :| b in AnchoredSet(s, ext) && !Spared(s, b) {
        TouchedIsFlagged(s, t, ext, b);
        assert false;
      }
      UntouchedIff(s, t, ext);
      assert a in Untouched(t.heap) && Spared(s, a) && Current(t, a) && LastsAt(s, t, a);
    }
  }

  /** However the trace before it went, and whatever the release lists hold: when a reclaim is over, every object
      that is left is whole and carries the current mark if and only if it began with a mark on everything that
      owners, release lists and the cycles that the scan leaves alone hold. */
  lemma RestsCurrentIff(s: Rt, t: Rt, ext: Owners)
    requires ReclaimOk(s, ext) && OwnersWhole(s.heap, ext) && Progress(s, t, ext) && ReclaimDone(t)
    ensures AllCurrent(t) <==> AnchoredCurrent(s, ext)
  {
    if AllCurrent(t) {
      CurrentAnchors(s, t, ext);
    } else if AnchoredCurrent(s, ext) {
      UntouchedIff(s, t, ext);
      forall a | a in t.heap ensures Current(t, a) {
        SurvivorIsAnchored(s, t, ext, a);
        assert a in Untouched(t.heap) && LastsAt(s, t, a) && Current(s, a) && DeadOk(t, {}, a);
      }
    }
  }
}
