/** The registry of cyclic candidates: entry i names an object that stores i,
    so removal can move the last entry into the gap. */
module Registry {
  import opened Heap

  function Register(s: Rt, a: Addr): Rt {
    if a !in s.heap then Fault(s)
    else if s.heap[a].candidate then s
    else
      Put(s, a, s.heap[a].(candidate := true, candidateIndex := |s.candidates|))
      .(candidates := s.candidates + [a])
  }

  function RemoveCandidateAt(s: Rt, index: nat): Rt {
    var n := |s.candidates|;
    if index >= n then Fault(s)
    else if index == n - 1 then s.(candidates := s.candidates[..n - 1])
    else
      var moved := s.candidates[n - 1];
      if moved !in s.heap then Fault(s)
      else
        Put(s, moved, s.heap[moved].(candidateIndex := index))
        .(candidates := s.candidates[..n - 1][index := moved])
  }

  /** Unregister a dead object and free it, unless it is still on the tracing worklist. */
  function FreeReleased(s: Rt, a: Addr): Rt {
    if a !in s.heap then Fault(s)
    else
      var s1 :=
        if s.heap[a].candidate then
          var r := RemoveCandidateAt(s, s.heap[a].candidateIndex);
          if a !in r.heap then Fault(r) else Put(r, a, r.heap[a].(candidate := false))
        else s;
      if a !in s1.heap then Fault(s1)
      else if s1.heap[a].tracing then Put(s1, a, s1.heap[a].(waitingRemove := true))
      else s1.(heap := s1.heap - {a})
  }

  /** Entry i's object stores i, and the flagged objects are exactly the entries. */
  ghost predicate RegistryOk(s: Rt) {
    && (forall i {:trigger EntryOk(s, i)} :: 0 <= i < |s.candidates| ==> EntryOk(s, i))
    && (forall a {:trigger FlagOk(s, a)} :: a in s.heap ==> FlagOk(s, a))
  }

  ghost predicate EntryOk(s: Rt, i: nat)
    requires i < |s.candidates|
  {
    var a := s.candidates[i];
    a in s.heap && s.heap[a].candidate && s.heap[a].candidateIndex == i
  }

  ghost predicate FlagOk(s: Rt, a: Addr)
    requires a in s.heap
  {
    s.heap[a].candidate ==> s.heap[a].candidateIndex < |s.candidates| && s.candidates[s.heap[a].candidateIndex] == a
  }

  lemma RegisterKeepsRegistry(s: Rt, a: Addr)
    requires RegistryOk(s) && a in s.heap
    ensures RegistryOk(Register(s, a))
    ensures Register(s, a).heap[a].candidate && a in Register(s, a).candidates
  {
    assert FlagOk(s, a);
    if !s.heap[a].candidate {
      var s' := Register(s, a);
      assert s'.candidates[|s.candidates|] == a;
      forall i | 0 <= i < |s'.candidates| ensures EntryOk(s', i) {
        if i < |s.candidates| {
          assert EntryOk(s, i);
        }
      }
      forall b | b in s'.heap ensures FlagOk(s', b) {
        assert b == a || FlagOk(s, b);
      }
    }
  }

  /** Equal but for the stored registry index. */
  ghost predicate SameObject(o: Obj, o': Obj) {
    o' == o.(candidateIndex := o'.candidateIndex)
  }

  /** Every entry after the removal was an entry at the same place or further up. */
  ghost predicate EntriesMoveDown(before: seq<Addr>, after: seq<Addr>) {
    |after| <= |before| && forall i {:trigger MovedFrom(before, after[i], i)} ::
        0 <= i < |after| ==> MovedFrom(before, after[i], i)
  }

  ghost predicate MovedFrom(before: seq<Addr>, a: Addr, i: nat) {
    exists k :: i <= k < |before| && before[k] == a
  }

  ghost predicate Freed(s: Rt, s': Rt, a: Addr)
    requires a in s.heap
  {
    && s' == s.(heap := s'.heap, candidates := s'.candidates)
    && s'.heap.Keys == (if s.heap[a].tracing then s.heap.Keys else s.heap.Keys - {a})
    && (forall b :: b in s'.heap && b != a ==> SameObject(s.heap[b], s'.heap[b]))
    && (s.heap[a].tracing ==>
          SameObject(s.heap[a].(candidate := false, waitingRemove := true), s'.heap[a]))
    && EntriesMoveDown(s.candidates, s'.candidates)
    && a !in s'.candidates
  }

  lemma RemoveFacts(s: Rt, a: Addr)
    requires RegistryOk(s) && a in s.heap && s.heap[a].candidate
    ensures var r := RemoveCandidateAt(s, s.heap[a].candidateIndex);
      && r == s.(heap := r.heap, candidates := r.candidates)
      && r.heap.Keys == s.heap.Keys
      && (forall b :: b in r.heap ==> SameObject(s.heap[b], r.heap[b]))
      && r.heap[a] == s.heap[a]
      && EntriesMoveDown(s.candidates, r.candidates) && a !in r.candidates
      && RegistryOk(Put(r, a, r.heap[a].(candidate := false)))
  {
    RemoveMoves(s, a);
    RemoveKeepsRegistry(s, a);
  }

  lemma RemoveMoves(s: Rt, a: Addr)
    requires RegistryOk(s) && a in s.heap && s.heap[a].candidate
    ensures var r := RemoveCandidateAt(s, s.heap[a].candidateIndex);
      && r == s.(heap := r.heap, candidates := r.candidates)
      && r.heap.Keys == s.heap.Keys
      && (forall b :: b in r.heap ==> SameObject(s.heap[b], r.heap[b]))
      && r.heap[a] == s.heap[a]
      && EntriesMoveDown(s.candidates, r.candidates) && a !in r.candidates
  {
    assert FlagOk(s, a);
    var index, n := s.heap[a].candidateIndex, |s.candidates|;
    assert EntryOk(s, index) && EntryOk(s, n - 1);
    var r := RemoveCandidateAt(s, index);
    forall i | 0 <= i < |r.candidates| ensures MovedFrom(s.candidates, r.candidates[i], i) && r.candidates[i] != a {
      assert EntryOk(s, i);
      assert r.candidates[i] == s.candidates[if i == index then n - 1 else i];
    }
  }

  lemma RemoveKeepsRegistry(s: Rt, a: Addr)
    requires RegistryOk(s) && a in s.heap && s.heap[a].candidate
    ensures var r := RemoveCandidateAt(s, s.heap[a].candidateIndex);
      a in r.heap && RegistryOk(Put(r, a, r.heap[a].(candidate := false)))
  {
    assert FlagOk(s, a);
    var index, n := s.heap[a].candidateIndex, |s.candidates|;
    assert EntryOk(s, index) && EntryOk(s, n - 1);
    var r := RemoveCandidateAt(s, index);
    var t := Put(r, a, r.heap[a].(candidate := false));
    forall i | 0 <= i < |t.candidates| ensures EntryOk(t, i) {
      assert EntryOk(s, i);
    }
    forall b | b in t.heap ensures FlagOk(t, b) {
      assert FlagOk(s, b);
      if t.heap[b].candidate {
        assert EntryOk(s, s.heap[b].candidateIndex);
      }
    }
  }

  lemma NotListed(s: Rt, a: Addr)
    requires RegistryOk(s) && a in s.heap && !s.heap[a].candidate
    ensures a !in s.candidates && EntriesMoveDown(s.candidates, s.candidates)
  {
    forall i | 0 <= i < |s.candidates| ensures s.candidates[i] != a {
      assert EntryOk(s, i);
    }
    forall i | 0 <= i < |s.candidates| ensures MovedFrom(s.candidates, s.candidates[i], i) {
    }
  }

  lemma FreeCandidate(s: Rt, a: Addr)
    requires RegistryOk(s) && a in s.heap && s.heap[a].candidate
    ensures Freed(s, FreeReleased(s, a), a) && RegistryOk(FreeReleased(s, a))
  {
    RemoveFacts(s, a);
    var r := RemoveCandidateAt(s, s.heap[a].candidateIndex);
    FreeUnregistered(Put(r, a, r.heap[a].(candidate := false)), a);
  }

  /** Freeing never faults on a sound registry, keeps it sound, and touches nothing else. */
  lemma FreeReleasedFacts(s: Rt, a: Addr)
    requires RegistryOk(s) && a in s.heap
    ensures Freed(s, FreeReleased(s, a), a) && RegistryOk(FreeReleased(s, a))
  {
    if s.heap[a].candidate {
      FreeCandidate(s, a);
    } else {
      NotListed(s, a);
      FreeUnregistered(s, a);
    }
  }

  lemma FreeUnregistered(s: Rt, a: Addr)
    requires RegistryOk(s) && a in s.heap && !s.heap[a].candidate
    ensures RegistryOk(
      if s.heap[a].tracing then Put(s, a, s.heap[a].(waitingRemove := true)) else s.(heap := s.heap - {a}))
  {
    var t := if s.heap[a].tracing then Put(s, a, s.heap[a].(waitingRemove := true)) else s.(heap := s.heap - {a});
    forall i | 0 <= i < |t.candidates| ensures EntryOk(t, i) {
      assert EntryOk(s, i);
    }
    forall b | b in t.heap ensures FlagOk(t, b) {
      assert FlagOk(s, b);
    }
  }
}
