/** The chunked vector of the runtime's work lists: a table of fixed-size chunks that never
    move once they are allocated. */
module ChunkVector {
  import opened Options

  const CHUNK_SIZE: nat := 512
  const INITIAL_CAPACITY: nat := 64

  /** The chunk and the offset of an element. */
  function IndexToChunk(index: nat): (r: (nat, nat))
    ensures r.1 < CHUNK_SIZE && r.0 * CHUNK_SIZE + r.1 == index
  {
    (index / CHUNK_SIZE, index % CHUNK_SIZE)
  }

  /** No two elements share a place, and a place below the end belongs to an element. */
  lemma PlacesAreElements(index: nat, chunk: nat, offset: nat)
    requires offset < CHUNK_SIZE
    ensures IndexToChunk(index) == (chunk, offset) <==> index == chunk * CHUNK_SIZE + offset
  {
  }

  class Vector<T(0)> {
    var chunks: array<array?<T>>
    var chunkCount: nat
    var capacity: nat
    var activeChunk: nat
    var activeOffset: nat
    var total: nat

    /** The allocated chunks, in table order. */
    ghost var store: seq<array<T>>

    ghost predicate Valid()
      reads this, chunks
    {
      && chunks.Length == capacity && 0 < chunkCount == |store| <= capacity
      && activeChunk < chunkCount && activeOffset <= CHUNK_SIZE
      && total == activeChunk * CHUNK_SIZE + activeOffset
      && (forall i :: 0 <= i < |store| ==> chunks[i] == store[i] && store[i].Length == CHUNK_SIZE)
      && (forall i, j :: 0 <= i < j < |store| ==> store[i] != store[j])
      && (forall c: object :: c in store ==> c != chunks)
    }

    ghost function Repr(): set<object>
      reads this
    {
      {this, chunks} + set c | c in store
    }

    ghost function ElementAt(i: nat): T
      reads this, chunks, store
      requires Valid() && i < total
    {
      var (c, o) := IndexToChunk(i);
      store[c][o]
    }

    ghost function Contents(): (s: seq<T>)
      reads this, chunks, store
      requires Valid()
      ensures |s| == total
    {
      seq(total, i requires 0 <= i < total reads this, chunks, store requires Valid() => ElementAt(i))
    }

    constructor ()
      ensures Valid() && Contents() == [] && fresh(Repr())
    {
      chunks := new array?<T>[INITIAL_CAPACITY](i => null);
      capacity := INITIAL_CAPACITY;
      activeChunk, activeOffset, total := 0, 0, 0;
      var first := new T[CHUNK_SIZE];
      chunkCount := 1;
      store := [first];
      new;
      chunks[0] := first;
    }

    /** A longer table that begins with the same entries. */
    static method Reallocate(before: array<array?<T>>, size: nat) returns (table: array<array?<T>>)
      requires before.Length <= size
      ensures fresh(table) && table.Length == size && forall i :: 0 <= i < before.Length ==> table[i] == before[i]
    {
      table := new array?<T>[size](i => null);
      forall i | 0 <= i < before.Length {
        table[i] := before[i];
      }
    }

    /** Make room at the active place: move on to the next chunk, doubling the table and
        allocating the chunk if need be. */
    method MakeRoom()
      requires Valid()
      modifies this, chunks
      ensures Valid() && activeOffset < CHUNK_SIZE
      ensures total == old(total) && old(store) <= store
      ensures fresh(Repr() - old(Repr()))
      ensures forall c :: c in old(store) ==> unchanged(c)
    {
      if activeOffset >= CHUNK_SIZE {
        activeChunk := activeChunk + 1;
        activeOffset := 0;
        if activeChunk >= capacity {
          capacity := capacity * 2;
          chunks := Reallocate(chunks, capacity);
        }
        if activeChunk >= chunkCount {
          var chunk := new T[CHUNK_SIZE];
          chunks[activeChunk] := chunk;
          chunkCount := chunkCount + 1;
          store := store + [chunk];
        }
      }
    }

    /** Growing moves no element. */
    twostate lemma SameElements()
      requires old(Valid()) && Valid() && total == old(total) && old(store) <= store
      requires forall c :: c in old(store) ==> unchanged(c)
      ensures Contents() == old(Contents())
    {
      forall i | 0 <= i < total ensures Contents()[i] == old(Contents()[i]) {
        var (c, o) := IndexToChunk(i);
        assert store[c] == old(store)[c] && old(store)[c] in old(store);
      }
    }

    method PushBack(value: T)
      requires Valid()
      modifies Repr()
      ensures Valid() && Contents() == old(Contents()) + [value]
      ensures old(store) <= store && fresh(Repr() - old(Repr()))
    {
      MakeRoom();
      SameElements();
      ghost var before := Contents();
      label room:
      chunks[activeChunk][activeOffset] := value;
      activeOffset := activeOffset + 1;
      total := total + 1;
      forall i | 0 <= i < total ensures Contents()[i] == (before + [value])[i] {
        var (c, o) := IndexToChunk(i);
        PlacesAreElements(i, activeChunk, activeOffset - 1);
        assert i < total - 1 ==> before[i] == old@room(ElementAt(i));
      }
    }

    /** The slot handed out is the new last element's place. */
    method AllocSlot() returns (chunk: array<T>, offset: nat)
      requires Valid()
      modifies this, chunks
      ensures Valid() && offset < chunk.Length && chunk in store
      ensures Contents() == old(Contents()) + [chunk[offset]]
      ensures IndexToChunk(total - 1) == (activeChunk, offset) && store[activeChunk] == chunk
      ensures old(store) <= store && fresh(Repr() - old(Repr()))
    {
      MakeRoom();
      SameElements();
      ghost var before := Contents();
      label room:
      chunk, offset := chunks[activeChunk], activeOffset;
      activeOffset := activeOffset + 1;
      total := total + 1;
      assert chunk == store[activeChunk];
      forall i | 0 <= i < total ensures Contents()[i] == (before + [chunk[offset]])[i] {
        PlacesAreElements(i, activeChunk, offset);
        assert i < total - 1 ==> before[i] == old@room(ElementAt(i));
      }
      PlacesAreElements(total - 1, activeChunk, offset);
    }

    /** Popping an empty vector does nothing; stepping back over a chunk boundary keeps the chunk. */
    method PopBack()
      requires Valid()
      modifies this
      ensures Valid() && store == old(store)
      ensures Contents() == if old(Contents()) == [] then [] else old(Contents())[..old(total) - 1]
    {
      if total == 0 {
        return;
      }
      total := total - 1;
      if activeOffset > 0 {
        activeOffset := activeOffset - 1;
      } else {
        activeChunk := activeChunk - 1;
        activeOffset := CHUNK_SIZE - 1;
      }
      forall i | 0 <= i < total ensures Contents()[i] == old(Contents())[i] {
        assert old(Contents())[i] == old(ElementAt(i));
      }
    }

    method At(index: nat) returns (r: Option<T>)
      requires Valid()
      ensures r == if index < |Contents()| then Some(Contents()[index]) else None
    {
      if index >= total {
        return None;
      }
      var (c, o) := IndexToChunk(index);
      assert c <= activeChunk;
      r := Some(chunks[c][o]);
    }

    method Back() returns (r: Option<T>)
      requires Valid()
      ensures r == if Contents() == [] then None else Some(Contents()[|Contents()| - 1])
    {
      if total == 0 {
        return None;
      }
      if activeOffset > 0 {
        PlacesAreElements(total - 1, activeChunk, activeOffset - 1);
        r := Some(chunks[activeChunk][activeOffset - 1]);
      } else {
        PlacesAreElements(total - 1, activeChunk - 1, CHUNK_SIZE - 1);
        r := Some(chunks[activeChunk - 1][CHUNK_SIZE - 1]);
      }
    }

    method Size() returns (n: nat)
      requires Valid()
      ensures n == |Contents()|
    {
      n := total;
    }

    method Empty() returns (e: bool)
      requires Valid()
      ensures e <==> Contents() == []
    {
      e := total == 0;
    }

    /** The chunks stay allocated for later pushes. */
    method Clear()
      requires Valid()
      modifies this
      ensures Valid() && Contents() == [] && store == old(store)
    {
      activeChunk, activeOffset, total := 0, 0, 0;
    }
  }
}
