/** The releasing pipeline: dead objects are dismantled and freed in bounded steps. */
module Releasing {
  import opened Graphs
  import opened Heap
  import opened Registry
  import opened Dismantle

  /** Fields a walk visits, which is what it charges to its budget. */
  function WalkCost(o: Obj): nat {
    match o.header.layout
    case MonoImm => 0
    case MonoRef => |o.slots|
    case MixedBitmap(_) => |o.slots|
    case MixedOrder(pointers) => pointers
  }

  function ReleaseStep(s: Rt): Rt {
    if s.releasing == [] then Fault(s)
    else
      var a := s.releasing[|s.releasing| - 1];
      var s1 := s.(releasing := s.releasing[..|s.releasing| - 1], releasingBudget := s.releasingBudget - 1);
      if a !in s1.heap then Fault(s1)
      else
        var o := s1.heap[a];
        var s2 := DismantleFrom(s1.(releasingBudget := s1.releasingBudget - WalkCost(o)), o, 0, ToWaitlist);
        if a !in s2.heap || s2.heap[a].rc != 0 then Fault(s2) else FreeReleased(s2, a)
  }

  /** The waiting list becomes the working list; the old working list is dropped. */
  function SetWorking(s: Rt): Rt {
    s.(releasing := s.waiting, waiting := [])
  }

  /** One turn of the releasing loop, or None when the call returns. */
  datatype Turn = Stop | Next(s: Rt)

  function ReleasingTurn(s: Rt, threshold: nat): Turn {
    if s.releasingBudget <= 0 then Stop
    else match s.releasingState
      case ReleasingIdle =>
        if |s.waiting| < threshold || |s.waiting| == 0 then Stop
        else Next(SetWorking(s).(releasingState := Releasing))
      case Releasing =>
        var t := ReleaseStep(s);
        Next(if t.releasing == [] then t.(releasingState := ReleasingIdle) else t)
  }

  ghost predicate NoneReleased(h: Store) {
    forall a :: a in h ==> !h[a].childrenReleased
  }

  /** Counts are exact, queues sound, and the machine's state matches its list. */
  ghost predicate ReleasingOk(s: Rt, ext: Owners) {
    && Sound(s, ext) && NoneReleased(s.heap)
    && (s.releasingState == Releasing <==> s.releasing != [])
  }

  /** Objects whose memory is still in use. */
  ghost function Present(h: Store): set<Addr> {
    set a | a in h && !h[a].waitingRemove
  }

  /** Survivors keep their fields. */
  ghost predicate Remains(h: Store, h': Store) {
    h'.Keys <= h.Keys && forall a {:trigger RemainsAt(h, h', a)} :: a in h' ==> RemainsAt(h, h', a)
  }

  ghost predicate RemainsAt(h: Store, h': Store, a: Addr)
    requires a in h'
  {
    && a in h && h'[a].header == h[a].header && h'[a].slots == h[a].slots
    && (h[a].waitingRemove ==> h'[a].waitingRemove)
  }

  lemma RemainsTrans(x: Store, y: Store, z: Store)
    requires Remains(x, y) && Remains(y, z)
    ensures Remains(x, z)
  {
    forall a | a in z ensures RemainsAt(x, z, a) {
      assert RemainsAt(y, z, a) && RemainsAt(x, y, a);
    }
  }

  /** The state right after the next object has been popped from the release list. */
  function Popped(s: Rt, a: Addr): Rt
    requires s.releasing != [] && a in s.heap
  {
    s.(releasing := s.releasing[..|s.releasing| - 1], releasingBudget := s.releasingBudget - 1 - WalkCost(s.heap[a]))
  }

  /** The next object to be released has not been dismantled before. */
  predicate TopWhole(s: Rt) {
    s.releasing != [] && var a := s.releasing[|s.releasing| - 1]; a in s.heap ==> !s.heap[a].childrenReleased
  }

  lemma PopStarts(s: Rt, ext: Owners) returns (a: Addr)
    requires Sound(s, ext) && TopWhole(s)
    ensures a == s.releasing[|s.releasing| - 1] && a in s.heap && a in s.releasing
    ensures SoundFrom(Popped(s, a), ext, a, s.heap[a], 0, true)
    ensures s.heap[a].rc == 0 && a in Present(s.heap)
  {
    a := s.releasing[|s.releasing| - 1];
    assert s.releasing == s.releasing[..|s.releasing| - 1] + [a];
    assert a in Queue(s) && QueuedOk(s, a);
    var o, s1 := s.heap[a], Popped(s, a);
    assert Queue(s) == Queue(s1) + multiset{a};
    assert s1.heap == s.heap[a := o.(childrenReleased := o.childrenReleased)];
    BeginDismantling(s, s1, ext, a, true);
  }

  /** One step keeps every count exact, frees only the popped object and children
      that lost their last owner, and never reaches a self-supporting set. */
  lemma ReleaseStepKeeps(s: Rt, ext: Owners, keep: Kept)
    requires Sound(s, ext) && TopWhole(s)
    requires Supported(s.heap, ext, keep) && s.releasing[|s.releasing| - 1] !in keep.members
    ensures Sound(ReleaseStep(s), ext) && (NoneReleased(s.heap) ==> NoneReleased(ReleaseStep(s).heap))
    ensures Supported(ReleaseStep(s).heap, ext, keep)
    ensures Remains(s.heap, ReleaseStep(s).heap)
    ensures Present(ReleaseStep(s).heap) < Present(s.heap)
    ensures ReleaseStep(s).releasing == s.releasing[..|s.releasing| - 1]
    ensures ReleaseStep(s).releasingState == s.releasingState && ReleaseStep(s).lost == s.lost
  {
    var a := PopStarts(s, ext);
    var o, s1 := s.heap[a], Popped(s, a);
    DismantleKeeps(s1, ext, a, o, 0, true, ToWaitlist, keep);
    var s2 := DismantleFrom(s1, o, 0, ToWaitlist);
    EndFreed(s2, ext, a, o, keep);
    var s3 := FreeReleased(s2, a);
    assert s3 == ReleaseStep(s);
    forall b | b in s3.heap
      ensures RemainsAt(s.heap, s3.heap, b) && s3.heap[b].childrenReleased == s.heap[b].childrenReleased
    {
      assert SameShape(s1.heap[b], s2.heap[b], s1.bit, ToWaitlist);
      assert b != a ==> SameObject(s2.heap[b], s3.heap[b]);
    }
    FewerPresent(s.heap, s3.heap, a);
  }

  /** What a release step may do to an object that survives it. */
  ghost predicate SurvivesAs(o: Obj, o': Obj, bit: bool) {
    && o'.header == o.header && o'.slots == o.slots && o'.tracing == o.tracing && o'.rc <= o.rc
    && o'.childrenReleased == o.childrenReleased && (o'.mark == o.mark || (o'.mark == bit && o'.rc == 0))
    && (o'.candidate ==> o.candidate) && (o'.candidate == o.candidate || o.tracing)
    && (o.waitingRemove ==> o'.waitingRemove) && (o'.waitingRemove && !o.waitingRemove ==> o.tracing && !o'.candidate)
  }

  /** A release step takes away the references of the popped object and nothing else that counts. */
  ghost predicate Releases(s: Rt, s': Rt, a: Addr) {
    && s' == s.(heap := s'.heap, candidates := s'.candidates, waiting := s'.waiting, releasing := s'.releasing,
        releasingBudget := s'.releasingBudget)
    && s'.heap.Keys <= s.heap.Keys
    && (forall b {:trigger s'.heap[b]} :: b in s'.heap ==> SurvivesAs(s.heap[b], s'.heap[b], s.bit))
    && (forall b :: b in s.heap && s.heap[b].tracing ==> b in s'.heap)
    && (forall q, i, b {:trigger HoldsEdge(s'.heap, q, i, b)} ::
          HoldsEdge(s'.heap, q, i, b) <==> q != a && HoldsEdge(s.heap, q, i, b))
    && EntriesMoveDown(s.candidates, s'.candidates)
  }

  lemma ReleaseStepEdges(s: Rt, ext: Owners)
    requires Sound(s, ext) && TopWhole(s)
    ensures var a, s' := s.releasing[|s.releasing| - 1], ReleaseStep(s);
      forall q, i, b {:trigger HoldsEdge(s'.heap, q, i, b)} ::
        HoldsEdge(s'.heap, q, i, b) <==> q != a && HoldsEdge(s.heap, q, i, b)
  {
    var a := PopStarts(s, ext);
    var o, s1 := s.heap[a], Popped(s, a);
    DismantleKeeps(s1, ext, a, o, 0, true, ToWaitlist, Kept({}, {}));
    var s2 := DismantleFrom(s1, o, 0, ToWaitlist);
    FreeReleasedFacts(s2, a);
    var s3 := FreeReleased(s2, a);
    forall q, i, b ensures HoldsEdge(s3.heap, q, i, b) <==> q != a && HoldsEdge(s.heap, q, i, b) {
      assert HoldsEdge(s1.heap, q, i, b) <==> HoldsEdge(s2.heap, q, i, b);
      if q != a && q in s2.heap {
        assert SameObject(s2.heap[q], s3.heap[q]);
      }
    }
  }

  lemma ReleaseStepReleases(s: Rt, ext: Owners)
    requires Sound(s, ext) && TopWhole(s)
    ensures Releases(s, ReleaseStep(s), s.releasing[|s.releasing| - 1])
  {
    var a := PopStarts(s, ext);
    var o, s1 := s.heap[a], Popped(s, a);
    DismantleKeeps(s1, ext, a, o, 0, true, ToWaitlist, Kept({}, {}));
    var s2 := DismantleFrom(s1, o, 0, ToWaitlist);
    assert RegistryOk(s2);
    FreeReleasedFacts(s2, a);
    var s3 := FreeReleased(s2, a);
    EntriesMoveDownTrans(s.candidates, s2.candidates, s3.candidates);
    forall b | b in s3.heap ensures SurvivesAs(s.heap[b], s3.heap[b], s.bit) {
      assert SameShape(s1.heap[b], s2.heap[b], s1.bit, ToWaitlist);
      assert b != a ==> SameObject(s2.heap[b], s3.heap[b]);
    }
    ReleaseStepEdges(s, ext);
    forall b | b in s.heap && s.heap[b].tracing ensures b in s3.heap {
      assert SameShape(s1.heap[b], s2.heap[b], s1.bit, ToWaitlist);
    }
  }

  /** An object that a release step queues was owned by the popped one. */
  lemma NewlyWaiting(s: Rt, s': Rt, ext: Owners, a: Addr, b: Addr)
    requires Sound(s, ext) && Sound(s', ext) && Releases(s, s', a) && b in s'.waiting && b !in s.waiting
    requires b !in s.releasing
    ensures Edge(OwnGraph(s.heap), a, b)
  {
    assert b in Queue(s') && QueuedOk(s', b) && SurvivesAs(s.heap[b], s'.heap[b], s.bit);
    assert DeadOk(s, {}, b) && ExactAt(s.heap, ext, b) && ExactAt(s'.heap, ext, b);
    assert b in s.lost ==> b in Queue(s);
    var q, i := SomeEdge(s.heap, {}, b);
    if q != a {
      assert HoldsEdge(s'.heap, q, i, b);
      EdgeIn(s'.heap, {}, q, i, b);
    }
    OwnEdge(s.heap, q, i, b);
  }

  lemma ReleaseOwnedStay(s: Rt, ext: Owners)
    requires Sound(s, ext) && TopWhole(s)
    ensures OwnedStay(s.heap, ReleaseStep(s).heap, ext)
  {
    var a := PopStarts(s, ext);
    var o, s1 := s.heap[a], Popped(s, a);
    DismantleOwnedStay(s1, ext, a, o, 0, true, ToWaitlist);
    DismantleKeeps(s1, ext, a, o, 0, true, ToWaitlist, Kept({}, {}));
    FreeReleasedFacts(DismantleFrom(s1, o, 0, ToWaitlist), a);
    assert ExactAt(s.heap, ext, a);
  }

  lemma FewerPresent(h: Store, h': Store, a: Addr)
    requires Remains(h, h') && a in Present(h) && a !in Present(h')
    ensures Present(h') < Present(h)
  {
    forall b | b in Present(h') ensures b in Present(h) {
      assert RemainsAt(h, h', b);
    }
  }

  lemma SetWorkingKeeps(s: Rt, ext: Owners)
    requires Sound(s, ext) && s.releasing == []
    ensures Sound(SetWorking(s), ext) && Queue(SetWorking(s)) == Queue(s)
  {
    var s' := SetWorking(s);
    assert Queue(s') == Queue(s);
    forall a | a in Queue(s') ensures QueuedOk(s', a) {
      assert QueuedOk(s, a);
    }
    forall a | a in s'.heap ensures DeadOk(s', {}, a) {
      assert DeadOk(s, {}, a);
    }
    OnlyListsChange(s, s');
  }

  lemma OnlyListsChange(s: Rt, s': Rt)
    requires RegistryOk(s) && s'.heap == s.heap && s'.candidates == s.candidates
    ensures RegistryOk(s')
  {
    forall i | 0 <= i < |s'.candidates| ensures EntryOk(s', i) {
      assert EntryOk(s, i);
    }
    forall b | b in s'.heap ensures FlagOk(s', b) {
      assert FlagOk(s, b);
    }
  }

  /** Every turn of the loop keeps the invariant; in particular no turn faults,
      pops an empty list or drops an entry when the lists are exchanged. */
  lemma TurnKeeps(s: Rt, ext: Owners, threshold: nat)
    requires ReleasingOk(s, ext) && ReleasingTurn(s, threshold).Next?
    ensures ReleasingOk(ReleasingTurn(s, threshold).s, ext)
    ensures s.releasingState == ReleasingIdle ==> Queue(ReleasingTurn(s, threshold).s) == Queue(s)
  {
    match s.releasingState
    case ReleasingIdle =>
      SetWorkingKeeps(s, ext);
      SoundIgnoresState(SetWorking(s), ext, Releasing);
    case Releasing =>
      ReleaseStepKeeps(s, ext, Kept({}, {}));
      SoundIgnoresState(ReleaseStep(s), ext, ReleasingIdle);
  }

  lemma SoundIgnoresState(s: Rt, ext: Owners, r: ReleasingState)
    requires Sound(s, ext)
    ensures Sound(s.(releasingState := r), ext)
  {
    var s' := s.(releasingState := r);
    OnlyListsChange(s, s');
    assert Queue(s') == Queue(s);
    forall a | a in Queue(s') ensures QueuedOk(s', a) {
      assert QueuedOk(s, a);
    }
    forall a | a in s'.heap ensures DeadOk(s', {}, a) {
      assert DeadOk(s, {}, a);
    }
  }

  // ----- running the pipeline until nothing is queued -----

  /** Release until both lists are empty. */
  ghost function Drain(s: Rt, ext: Owners): Rt
    requires Sound(s, ext) && NoneReleased(s.heap)
    decreases |Present(s.heap)|, |s.waiting|
  {
    if s.releasing != [] then
      ReleaseStepKeeps(s, ext, Kept({}, {}));
      ProperSubsetSmaller(Present(ReleaseStep(s).heap), Present(s.heap));
      Drain(ReleaseStep(s), ext)
    else if s.waiting != [] then
      SetWorkingKeeps(s, ext);
      Drain(SetWorking(s), ext)
    else s
  }

  /** A self-supporting set of live objects. */
  ghost predicate LiveSupported(h: Store, ext: Owners, keep: set<Addr>) {
    Supported(h, ext, Kept(keep, {}))
  }

  lemma LiveHasCount(s: Rt, ext: Owners, keep: set<Addr>, a: Addr)
    requires Sound(s, ext) && LiveSupported(s.heap, ext, keep) && a in keep
    ensures a in s.heap && s.heap[a].rc > 0 && a !in Queue(s) && a in Present(s.heap)
  {
    assert SupportedAt(s.heap, ext, Kept(keep, {}), a) && ExactAt(s.heap, ext, a) && DeadOk(s, {}, a);
    if OwnedWithin(s.heap, keep, a) {
      var q, i: nat :| q in keep && HoldsEdge(s.heap, q, i, a);
      EdgeIn(s.heap, {}, q, i, a);
    }
    assert a in Queue(s) ==> QueuedOk(s, a);
  }

  ghost predicate Drained(s: Rt, t: Rt, ext: Owners) {
    Sound(t, ext) && NoneReleased(t.heap) && t.releasing == t.waiting == [] && t.lost == s.lost
        && Remains(s.heap, t.heap)
  }

  lemma {:induction false} DrainKeeps(s: Rt, ext: Owners, keep: set<Addr>)
    requires Sound(s, ext) && NoneReleased(s.heap)
    requires LiveSupported(s.heap, ext, keep)
    ensures Drained(s, Drain(s, ext), ext) && LiveSupported(Drain(s, ext).heap, ext, keep)
    decreases |Present(s.heap)|, |s.waiting|
  {
    if s.releasing != [] {
      forall a | a in keep ensures a !in s.releasing {
        LiveHasCount(s, ext, keep, a);
        assert a in s.releasing ==> a in Queue(s);
      }
      ReleaseStepKeeps(s, ext, Kept(keep, {}));
      var s' := ReleaseStep(s);
      ProperSubsetSmaller(Present(s'.heap), Present(s.heap));
      DrainKeeps(s', ext, keep);
      RemainsTrans(s.heap, s'.heap, Drain(s, ext).heap);
    } else if s.waiting != [] {
      SetWorkingKeeps(s, ext);
      DrainKeeps(SetWorking(s), ext, keep);
    } else {
      forall a | a in s.heap ensures RemainsAt(s.heap, s.heap, a) {
      }
    }
  }

  /** In a drained state without lost objects every object in use supports itself. */
  lemma DrainedIsSupported(t: Rt, ext: Owners)
    requires Sound(t, ext) && NoneReleased(t.heap) && t.releasing == t.waiting == t.lost == []
    ensures LiveSupported(t.heap, ext, Present(t.heap))
  {
    var all := Present(t.heap);
    forall a | a in all ensures SupportedAt(t.heap, ext, Kept(all, {}), a) {
      assert DeadOk(t, {}, a) && ExactAt(t.heap, ext, a);
      if Ext(ext, a) == 0 {
        var q, i := SomeEdge(t.heap, {}, a);
        assert q in all;
      }
    }
  }

  lemma SupportedBefore(h: Store, h': Store, ext: Owners, keep: set<Addr>)
    requires LiveSupported(h', ext, keep) && Remains(h, h') && NoneReleased(h)
    ensures LiveSupported(h, ext, keep)
  {
    forall a | a in keep ensures SupportedAt(h, ext, Kept(keep, {}), a) {
      assert SupportedAt(h', ext, Kept(keep, {}), a) && RemainsAt(h, h', a);
      if OwnedWithin(h', keep, a) {
        var q, i: nat :| q in keep && HoldsEdge(h', q, i, a);
        assert SupportedAt(h', ext, Kept(keep, {}), q) && RemainsAt(h, h', q);
        assert HoldsEdge(h, q, i, a);
      }
    }
  }

  /** Draining leaves exactly the objects that belong to a self-supporting set. */
  lemma DrainLeavesSupported(s: Rt, ext: Owners, a: Addr)
    requires Sound(s, ext) && NoneReleased(s.heap) && s.lost == []
    ensures a in Present(Drain(s, ext).heap) <==> exists keep :: LiveSupported(s.heap, ext, keep) && a in keep
  {
    var t := Drain(s, ext);
    DrainKeeps(s, ext, {});
    if a in Present(t.heap) {
      DrainedIsSupported(t, ext);
      SupportedBefore(s.heap, t.heap, ext, Present(t.heap));
    }
    if keep :| LiveSupported(s.heap, ext, keep) && a in keep {
      DrainKeeps(s, ext, keep);
      LiveHasCount(t, ext, keep, a);
    }
  }

  // ----- reachability from the external owners -----

  ghost function Roots(h: Store, ext: Owners): set<Addr> {
    set a | a in h && Holding(h[a]) && Ext(ext, a) > 0
  }

  /** Some chain of own references leads to `a` from an external owner. */
  ghost predicate OwnedFromOutside(h: Store, ext: Owners, a: Addr) {
    FromRoots(OwnGraph(h), Roots(h, ext), a)
  }

  /** A cycle of own references that no external owner reaches. */
  ghost predicate LostCycle(h: Store, ext: Owners, c: seq<Addr>) {
    IsCycle(OwnGraph(h), c) && !OwnedFromOutside(h, ext, c[0])
  }

  ghost function ReachedSet(h: Store, ext: Owners): set<Addr> {
    set a | a in h && OwnedFromOutside(h, ext, a)
  }

  lemma WalkEndPredecessor(g: Graph<Addr>, roots: set<Addr>, a: Addr) returns (p: Addr)
    requires FromRoots(g, roots, a) && a !in roots
    ensures Edge(g, p, a) && FromRoots(g, roots, p)
  {
    var r :| r in roots && Reaches(g, r, a);
    var w :| WalkBetween(g, w, r, a);
    p := w[|w| - 2];
    WalkReaches(g, w, 0, |w| - 2);
    assert Edge(g, w[(|w| - 1) - 1], w[|w| - 1]);
  }

  lemma ReachedLiveSupported(s: Rt, ext: Owners)
    requires Sound(s, ext) && NoneReleased(s.heap)
    ensures LiveSupported(s.heap, ext, ReachedSet(s.heap, ext))
  {
    var g, roots, all := OwnGraph(s.heap), Roots(s.heap, ext), ReachedSet(s.heap, ext);
    forall a | a in all ensures SupportedAt(s.heap, ext, Kept(all, {}), a) {
      if a !in roots {
        var p := WalkEndPredecessor(g, roots, a);
        var i := OwnEdgeField(s.heap, p, a);
        EdgeIn(s.heap, {}, p, i, a);
        assert ExactAt(s.heap, ext, a) && DeadOk(s, {}, a);
        assert p in all;
      }
    }
  }

  lemma LostCycleLiveSupported(s: Rt, ext: Owners, c: seq<Addr>)
    requires Sound(s, ext) && NoneReleased(s.heap) && IsCycle(OwnGraph(s.heap), c)
    ensures LiveSupported(s.heap, ext, set x | x in c)
  {
    var g, keep := OwnGraph(s.heap), set x | x in c;
    forall a | a in keep ensures SupportedAt(s.heap, ext, Kept(keep, {}), a) {
      var k :| 0 <= k < |c| && c[k] == a;
      var j := if k == 0 then |c| - 1 else k;
      assert Edge(g, c[j - 1], c[j]);
      var i := OwnEdgeField(s.heap, c[j - 1], a);
      assert c[j - 1] in keep;
      assert TargetLive(s.heap, {}, c[j - 1], i, a);
      EdgeIn(s.heap, {}, c[j - 1], i, a);
      assert ExactAt(s.heap, ext, a) && DeadOk(s, {}, a);
    }
  }

  /** Draining leaves exactly the objects reachable from external owners if and
      only if no cycle of own references is out of the owners' reach. */
  lemma DrainExact(s: Rt, ext: Owners)
    requires Sound(s, ext) && NoneReleased(s.heap) && s.lost == []
    ensures (forall a :: a in Present(Drain(s, ext).heap) <==> a in s.heap && OwnedFromOutside(s.heap, ext, a))
       <==> (forall c :: !LostCycle(s.heap, ext, c))
  {
    var t := Drain(s, ext);
    if c :| LostCycle(s.heap, ext, c) {
      LostCycleLiveSupported(s, ext, c);
      DrainLeavesSupported(s, ext, c[0]);
      assert c[0] in (set x | x in c);
    } else {
      forall a ensures a in Present(t.heap) <==> a in s.heap && OwnedFromOutside(s.heap, ext, a) {
        DrainLeavesSupported(s, ext, a);
        if a in s.heap && OwnedFromOutside(s.heap, ext, a) {
          ReachedLiveSupported(s, ext);
          assert a in ReachedSet(s.heap, ext);
        }
        if keep :| LiveSupported(s.heap, ext, keep) && a in keep {
          SupportedIsReached(s, ext, keep, a);
        }
      }
    }
  }

  lemma SupportedIsReached(s: Rt, ext: Owners, keep: set<Addr>, a: Addr)
    requires LiveSupported(s.heap, ext, keep) && a in keep
    requires forall c :: !LostCycle(s.heap, ext, c)
    ensures a in s.heap && OwnedFromOutside(s.heap, ext, a)
  {
    assert SupportedAt(s.heap, ext, Kept(keep, {}), a);
    if !OwnedFromOutside(s.heap, ext, a) {
      var g, roots := OwnGraph(s.heap), Roots(s.heap, ext);
      forall v | v in keep ensures v in roots || HasPredecessorIn(g, keep, v) {
        assert SupportedAt(s.heap, ext, Kept(keep, {}), v);
        if OwnedWithin(s.heap, keep, v) {
          var q, i: nat :| q in keep && HoldsEdge(s.heap, q, i, v);
          OwnEdge(s.heap, q, i, v);
        }
      }
      var c := SupportedOrCyclic(g, roots, keep, a);
      assert LostCycle(s.heap, ext, c);
    }
  }
}
