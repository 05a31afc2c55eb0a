/** Index properties: a dense run of items at first, sorted chunks of 32 once the dense run would waste too much. Both
    stand for the same thing, a value or nothing at every index. */
module SparseArray {
  import opened Wrappers

  const CHUNK_SIZE: nat := 32
  const INITIAL_VALUE_SIZE: nat := 20
  const INITIAL_CHUNK_COUNT: nat := 10
  const MAX_ARRAY_SIZE: nat := 1024

  datatype Chunk<V> = Chunk(offset: nat, items: seq<Option<V>>)

  /** Where a chunk is, or where it would have to be inserted. */
  datatype ChunkIndex = ChunkIndex(index: nat, found: bool)

  datatype Key = Key(index: nat) | Missing

  function Offset(index: nat): (o: nat)
    ensures o <= index < o + CHUNK_SIZE && o % CHUNK_SIZE == 0
  {
    index - index % CHUNK_SIZE
  }

  function Nothing<V>(n: nat): (s: seq<Option<V>>)
    ensures |s| == n && forall k: nat :: k < n ==> s[k] == None
  {
    seq(n, _ => None)
  }

  // ---- What the representation stands for ----

  ghost predicate ChunkOk<V>(c: Chunk<V>) {
    c.offset % CHUNK_SIZE == 0 && |c.items| == CHUNK_SIZE
  }

  /** The chunks in use: offsets are strictly increasing multiples of 32. */
  ghost predicate Sorted<V>(cs: seq<Chunk<V>>) {
    && (forall k: nat {:trigger cs[k]} :: k < |cs| ==> ChunkOk(cs[k]))
    && (forall j: nat, k: nat {:trigger cs[j], cs[k]} :: j < k < |cs| ==> cs[j].offset < cs[k].offset)
  }

  ghost predicate Has<V>(cs: seq<Chunk<V>>, index: nat, k: nat) {
    k < |cs| && cs[k].offset == Offset(index)
  }

  /** The value at an index of the chunked form. */
  ghost function InChunks<V>(cs: seq<Chunk<V>>, index: nat): Option<V> {
    if cs == [] then None
    else if cs[0].offset == Offset(index) then
      (if index - Offset(index) < |cs[0].items| then cs[0].items[index - Offset(index)] else None)
    else InChunks(cs[1..], index)
  }

  lemma {:induction false} InChunksAt<V>(cs: seq<Chunk<V>>, index: nat, k: nat)
    requires Sorted(cs) && Has(cs, index, k)
    ensures |cs[k].items| == CHUNK_SIZE && InChunks(cs, index) == cs[k].items[index - Offset(index)]
  {
    if k > 0 {
      assert cs[0].offset < cs[k].offset;
      assert cs[1..][k - 1] == cs[k];
      InChunksAt(cs[1..], index, k - 1);
    }
  }

  lemma {:induction false} InNoChunk<V>(cs: seq<Chunk<V>>, index: nat)
    requires forall k: nat :: !Has(cs, index, k)
    ensures InChunks(cs, index) == None
  {
    if cs != [] {
      assert !Has(cs, index, 0);
      forall k: nat
        ensures !Has(cs[1..], index, k)
      {
        assert !Has(cs, index, k + 1);
      }
      InNoChunk(cs[1..], index);
    }
  }

  // ---- Changing chunks ----

  lemma SetInChunk<V>(cs: seq<Chunk<V>>, k: nat, index: nat, value: Option<V>)
    requires Sorted(cs) && Has(cs, index, k)
    ensures var cs' := cs[k := cs[k].(items := cs[k].items[index - Offset(index) := value])];
      Sorted(cs') && forall i: nat :: InChunks(cs', i) == if i == index then value else InChunks(cs, i)
  {
    var cs' := cs[k := cs[k].(items := cs[k].items[index - Offset(index) := value])];
    forall i: nat
      ensures InChunks(cs', i) == if i == index then value else InChunks(cs, i)
    {
      if j: nat :| Has(cs, i, j) {
        assert Has(cs', i, j);
        InChunksAt(cs, i, j);
        InChunksAt(cs', i, j);
        if j == k {
          SameOffset(i, index);
        }
      } else {
        InNoChunk(cs, i);
        assert forall j: nat :: Has(cs', i, j) ==> Has(cs, i, j);
        InNoChunk(cs', i);
      }
    }
  }

  lemma SameOffset(i: nat, j: nat)
    requires Offset(i) == Offset(j)
    ensures i - Offset(i) == j - Offset(j) <==> i == j
  {
  }

  function InsertAt<V>(cs: seq<Chunk<V>>, k: nat, c: Chunk<V>): seq<Chunk<V>>
    requires k <= |cs|
  {
    cs[..k] + [c] + cs[k..]
  }

  /** A new empty chunk changes nothing. */
  lemma InsertedChunk<V>(cs: seq<Chunk<V>>, k: nat, c: Chunk<V>)
    requires Sorted(cs) && k <= |cs| && ChunkOk(c) && c.items == Nothing(CHUNK_SIZE)
    requires forall j: nat {:trigger cs[j]} :: j < k ==> cs[j].offset < c.offset
    requires forall j: nat {:trigger cs[j]} :: k <= j < |cs| ==> cs[j].offset > c.offset
    ensures Sorted(InsertAt(cs, k, c)) && forall i: nat :: InChunks(InsertAt(cs, k, c), i) == InChunks(cs, i)
  {
    InsertedSorted(cs, k, c);
    forall i: nat
      ensures InChunks(InsertAt(cs, k, c), i) == InChunks(cs, i)
    {
      InsertedAt(cs, k, c, i);
    }
  }

  lemma InsertedSorted<V>(cs: seq<Chunk<V>>, k: nat, c: Chunk<V>)
    requires Sorted(cs) && k <= |cs| && ChunkOk(c)
    requires forall j: nat {:trigger cs[j]} :: j < k ==> cs[j].offset < c.offset
    requires forall j: nat {:trigger cs[j]} :: k <= j < |cs| ==> cs[j].offset > c.offset
    ensures Sorted(InsertAt(cs, k, c))
  {
    hide ChunkOk;
    var cs' := InsertAt(cs, k, c);
    forall j: nat {:trigger cs'[j]} | j < |cs'|
      ensures ChunkOk(cs'[j])
    {
      assert cs'[j] == if j < k then cs[j] else if j == k then c else cs[j - 1];
    }
    forall i: nat, j: nat {:trigger cs'[i], cs'[j]} | i < j < |cs'|
      ensures cs'[i].offset < cs'[j].offset
    {
      assert cs'[i] == if i < k then cs[i] else if i == k then c else cs[i - 1];
      assert cs'[j] == if j < k then cs[j] else if j == k then c else cs[j - 1];
    }
  }

  lemma InsertedAt<V>(cs: seq<Chunk<V>>, k: nat, c: Chunk<V>, i: nat)
    requires Sorted(cs) && k <= |cs| && ChunkOk(c) && c.items == Nothing(CHUNK_SIZE)
    requires Sorted(InsertAt(cs, k, c))
    ensures InChunks(InsertAt(cs, k, c), i) == InChunks(cs, i)
  {
    var cs' := InsertAt(cs, k, c);
    if j: nat :| Has(cs, i, j) {
      var j' := if j < k then j else j + 1;
      assert cs'[j'] == cs[j];
      InChunksAt(cs, i, j);
      InChunksAt(cs', i, j');
    } else {
      InNoChunk(cs, i);
      if j: nat :| Has(cs', i, j) {
        InChunksAt(cs', i, j);
        if j != k {
          assert cs'[j] == cs[if j < k then j else j - 1];
          assert Has(cs, i, if j < k then j else j - 1);
        }
      } else {
        InNoChunk(cs', i);
      }
    }
  }

  // ---- From dense to chunked ----

  /** The chunk of the i-th 32 items, filled up with nothing. */
  function Slice<V>(items: seq<Option<V>>, i: nat): (c: Chunk<V>)
    requires i * CHUNK_SIZE <= |items|
    ensures ChunkOk(c)
  {
    var offset := i * CHUNK_SIZE;
    var n := if |items| - offset < CHUNK_SIZE then |items| - offset else CHUNK_SIZE;
    Chunk(offset, items[offset..offset + n] + Nothing(CHUNK_SIZE - n))
  }

  lemma Sliced<V>(items: seq<Option<V>>, cs: seq<Chunk<V>>)
    requires |cs| == |items| / CHUNK_SIZE + 1 && forall k: nat {:trigger cs[k]} :: k < |cs| ==> cs[k] == Slice(items, k)
    ensures Sorted(cs) && forall i: nat :: InChunks(cs, i) == if i < |items| then items[i] else None
  {
    forall j: nat, k: nat {:trigger cs[j], cs[k]} | j < k < |cs|
      ensures cs[j].offset < cs[k].offset
    {
    }
    forall i: nat
      ensures InChunks(cs, i) == if i < |items| then items[i] else None
    {
      SlicedAt(items, cs, i);
    }
  }

  lemma SlicedAt<V>(items: seq<Option<V>>, cs: seq<Chunk<V>>, i: nat)
    requires |cs| == |items| / CHUNK_SIZE + 1 && forall k: nat {:trigger cs[k]} :: k < |cs| ==> cs[k] == Slice(items, k)
    requires Sorted(cs)
    ensures InChunks(cs, i) == if i < |items| then items[i] else None
  {
    var k := i / CHUNK_SIZE;
    assert Offset(i) == k * CHUNK_SIZE;
    if k < |cs| {
      assert Has(cs, i, k);
      InChunksAt(cs, i, k);
    } else {
      forall j: nat
        ensures !Has(cs, i, j)
      {
        assert j < |cs| ==> cs[j] == Slice(items, j);
      }
      InNoChunk(cs, i);
    }
  }

  // ---- Growing ----

  /** What decides how a store grows: its room and how often it was written to, until it is in chunks. */
  datatype Shape = Dense(room: nat, used: nat) | Chunked

  /** Whether a dense run gives way to chunks instead of doubling. */
  predicate Transfer(s: Shape, index: nat) {
    s.Dense? && index >= s.room && if s.room >= MAX_ARRAY_SIZE then 2 * (s.used + 1) < s.room else index >= s.room * 2
  }

  /** The run doubles once, which may not be enough when it is long and well filled. */
  predicate Overrun(s: Shape, index: nat) {
    s.Dense? && index >= s.room && !Transfer(s, index) && index >= 2 * s.room
  }

  /** After a write that had room. */
  function Grown(s: Shape, index: nat): Shape {
    if s.Chunked? || Transfer(s, index) then Chunked
    else Dense(if index < s.room then s.room else 2 * s.room, s.used + 1)
  }

  predicate Covers(s: Shape, index: nat) {
    s.Dense? ==> index < s.room
  }

  /** A store that has been written to since. */
  predicate Wider(s: Shape, t: Shape) {
    t.Dense? ==> s.Dense? && s.room <= t.room
  }

  /** A write overruns exactly if it is to twice the room or more of a run that is long and at least half used. */
  lemma OverrunsExactly(s: Shape, index: nat)
    ensures Overrun(s, index) <==> s.Dense? && s.room >= MAX_ARRAY_SIZE && 2 * (s.used + 1) >= s.room && index >= 2 * s.room
  {
  }

  /** So what is below an index that has room has room, and so has everything up to a large index. */
  lemma OverrunsAbove(s: Shape, i: nat, j: nat)
    requires Overrun(s, i) && i <= j
    ensures Overrun(s, j) && i >= 2 * MAX_ARRAY_SIZE
  {
  }

  lemma GrownCovers(s: Shape, index: nat)
    requires !Overrun(s, index)
    ensures Wider(s, Grown(s, index)) && Covers(Grown(s, index), index) && !Overrun(Grown(s, index), index)
  {
  }

  // ---- The array ----

  class SparseArray<V> {
    var dense: bool
    var items: seq<Option<V>>       // while dense
    var chunks: seq<Chunk<V>>       // allocated chunks, of which the first chunkCount are in use
    var chunkCount: nat
    var used: nat

    ghost predicate Valid()
      reads this
    {
      if dense then |items| > 0 else 0 < chunkCount <= |chunks| && Sorted(chunks[..chunkCount])
    }

    /** What is stored at an index. */
    ghost function At(index: nat): Option<V>
      requires Valid()
      reads this
    {
      if dense then (if index < |items| then items[index] else None) else InChunks(chunks[..chunkCount], index)
    }

    constructor ()
      ensures Valid() && ShapeNow() == Dense(INITIAL_VALUE_SIZE, 0) && forall i: nat :: At(i) == None
    {
      dense, items, chunks, chunkCount, used := true, Nothing(INITIAL_VALUE_SIZE), [], 0, 0;
    }

    function Capacity(): nat
      reads this
    {
      if dense then |items| else chunkCount * CHUNK_SIZE
    }

    /** Halves the range while it is long, then walks it: the chunk with that offset, or the place among the others
        where it belongs. No chunk past the count is looked at. */
    method FindChunk(offset: nat) returns (r: ChunkIndex)
      requires Valid() && !dense
      ensures r.index <= chunkCount
      ensures r.found ==> r.index < chunkCount && chunks[r.index].offset == offset
      ensures !r.found ==> forall k: nat {:trigger chunks[k]} :: k < r.index ==> chunks[k].offset < offset
      ensures !r.found ==> forall k: nat {:trigger chunks[k]} :: r.index <= k < chunkCount ==> chunks[k].offset > offset
    {
      Ascending();
      var lo, hi := 0, chunkCount;
      while hi - lo > 3
        invariant lo < hi <= chunkCount
        invariant forall k: nat {:trigger chunks[k]} :: k < lo ==> chunks[k].offset < offset
        invariant forall k: nat {:trigger chunks[k]} :: hi <= k < chunkCount ==> chunks[k].offset > offset
      {
        var pv := (hi + lo) / 2;
        var checkOffset := chunks[pv].offset;
        if offset == checkOffset {
          return ChunkIndex(pv, true);
        }
        if offset <= checkOffset {
          hi := pv;
        } else {
          lo := pv + 1;
        }
      }
      while lo < hi
        invariant lo <= hi <= chunkCount
        invariant forall k: nat {:trigger chunks[k]} :: k < lo ==> chunks[k].offset < offset
        invariant forall k: nat {:trigger chunks[k]} :: hi <= k < chunkCount ==> chunks[k].offset > offset
      {
        var checkOffset := chunks[lo].offset;
        if checkOffset == offset {
          return ChunkIndex(lo, true);
        }
        if checkOffset > offset {
          break;
        }
        lo := lo + 1;
      }
      return ChunkIndex(lo, false);
    }

    lemma Ascending()
      requires Valid() && !dense
      ensures forall j: nat, k: nat {:trigger chunks[j], chunks[k]} :: j < k < chunkCount ==> chunks[j].offset < chunks[k].offset
    {
      forall j: nat, k: nat {:trigger chunks[j], chunks[k]} | j < k < chunkCount
        ensures chunks[j].offset < chunks[k].offset
      {
        assert chunks[..chunkCount][j].offset < chunks[..chunkCount][k].offset;
      }
    }

    method GetValue(index: nat) returns (r: Option<V>)
      requires Valid()
      ensures r == At(index)
    {
      if dense {
        if index < |items| {
          return items[index];
        }
        return None;
      }
      var offset := Offset(index);
      var chunk := FindChunk(offset);
      ghost var cs := chunks[..chunkCount];
      if chunk.found {
        assert Has(cs, index, chunk.index);
        InChunksAt(cs, index, chunk.index);
        return chunks[chunk.index].items[index - offset];
      }
      assert forall k: nat :: k < |cs| ==> cs[k] == chunks[k];
      InNoChunk(cs, index);
      return None;
    }

    function ShapeNow(): Shape
      reads this
    {
      if dense then Dense(|items|, used) else Chunked
    }

    predicate Overruns(index: nat)
      reads this
    {
      Overrun(ShapeNow(), index)
    }

    /** Stores a value, or nothing, at an index; every other index keeps what it has. It fails, with an access out of
        bounds, exactly when doubling a long run once is not enough. */
    method SetValue(index: nat, value: Option<V>) returns (ok: bool)
      requires Valid()
      modifies this
      ensures ok <==> !old(Overruns(index))
      ensures ok ==> ShapeNow() == Grown(old(ShapeNow()), index)
      ensures Valid() && forall i: nat :: At(i) == if ok && i == index then value else old(At(i))
      ensures old(At(index).Some?) ==> ok && Capacity() == old(Capacity())
      ensures old(At(index).Some?) ==> forall o: nat {:trigger IndexAt(o)} :: o < Capacity() ==> IndexAt(o) == old(IndexAt(o))
    {
      if dense {
        used := used + 1;
        var len := |items|;
        if index < len {
          items := items[index := value];
          return true;
        }
        var transfer := if len >= MAX_ARRAY_SIZE then 2 * used < len else index >= len * 2;
        if !transfer {
          GrowItems();
          if index >= |items| {
            return false;
          }
          SetItem(index, value);
          return true;
        }
        TransferToChunks();
      }
      SetChunkItem(index, value);
      return true;
    }

    method SetItem(index: nat, value: Option<V>)
      requires Valid() && dense && index < |items|
      modifies this`items
      ensures Valid() && |items| == |old(items)| && forall i: nat :: At(i) == if i == index then value else old(At(i))
    {
      items := items[index := value];
    }

    /** The chunk is found or made, and the value stored in it. */
    method SetChunkItem(index: nat, value: Option<V>)
      requires Valid() && !dense
      modifies this`chunks, this`chunkCount
      ensures Valid() && forall i: nat :: At(i) == if i == index then value else old(At(i))
      ensures old(At(index).Some?) ==> chunkCount == old(chunkCount)
      ensures old(At(index).Some?) ==> forall k: nat {:trigger chunks[k]} :: k < chunkCount ==> chunks[k].offset == old(chunks)[k].offset
    {
      if At(index).Some? {
        var slot := EveryKey(index);
        assert chunks[slot / CHUNK_SIZE].offset == Offset(index) by { SlotOfChunk(slot); }
      }
      var offset := Offset(index);
      var chunk := FindOrCreateChunk(offset);
      ghost var cs := chunks[..chunkCount];
      assert Has(cs, index, chunk);
      SetInChunk(cs, chunk, index, value);
      chunks := chunks[chunk := chunks[chunk].(items := chunks[chunk].items[index - offset := value])];
      assert chunks[..chunkCount] == cs[chunk := cs[chunk].(items := cs[chunk].items[index - offset := value])];
    }

    method GrowItems()
      requires Valid() && dense
      modifies this`items
      ensures Valid() && |items| == 2 * |old(items)| && forall i: nat :: At(i) == old(At(i))
    {
      items := items + Nothing(|items|);
    }

    /** Copies the run into chunks of 32, the last of which may be partly or wholly empty. */
    method TransferToChunks()
      requires Valid() && dense
      modifies this
      ensures Valid() && !dense && used == old(used) && forall i: nat :: At(i) == old(At(i))
    {
      var count := |items| / CHUNK_SIZE + 1;
      var size := if count < INITIAL_CHUNK_COUNT then INITIAL_CHUNK_COUNT else count;
      var empty: Chunk<V> := Chunk(0, []);
      chunks := seq(size, _ => empty);
      var i := 0;
      while i < count
        invariant i <= count <= |chunks| && items == old(items) && dense && used == old(used)
        invariant forall k: nat {:trigger chunks[k]} :: k < i ==> chunks[k] == Slice(items, k)
      {
        chunks := chunks[i := Slice(items, i)];
        i := i + 1;
      }
      ghost var cs := chunks[..count];
      assert forall k: nat {:trigger cs[k]} :: k < |cs| ==> cs[k] == Slice(items, k);
      Sliced(items, cs);
      items, dense, chunkCount := [], false, count;
    }

    method FindOrCreateChunk(offset: nat) returns (index: nat)
      requires Valid() && !dense && offset % CHUNK_SIZE == 0
      modifies this`chunks, this`chunkCount
      ensures Valid() && !dense && index < chunkCount && chunks[index].offset == offset && forall i: nat :: At(i) == old(At(i))
      ensures (exists k: nat :: k < old(chunkCount) && old(chunks)[k].offset == offset) ==> chunkCount == old(chunkCount) && chunks == old(chunks)
    {
      var chunk := FindChunk(offset);
      index := chunk.index;
      if !chunk.found {
        InsertChunk(Chunk(offset, Nothing(CHUNK_SIZE)), index);
      }
    }

    /** Inserts an empty chunk, into a longer table if there is no room. */
    method InsertChunk(entry: Chunk<V>, index: nat)
      requires Valid() && !dense && index <= chunkCount && ChunkOk(entry) && entry.items == Nothing(CHUNK_SIZE)
      requires forall k: nat {:trigger chunks[k]} :: k < index ==> chunks[k].offset < entry.offset
      requires forall k: nat {:trigger chunks[k]} :: index <= k < chunkCount ==> chunks[k].offset > entry.offset
      modifies this`chunks, this`chunkCount
      ensures Valid() && chunkCount == old(chunkCount) + 1 && chunks[index] == entry && forall i: nat :: At(i) == old(At(i))
    {
      ghost var cs := chunks[..chunkCount];
      assert forall k: nat {:trigger cs[k]} :: k < |cs| ==> cs[k] == chunks[k];
      InsertedChunk(cs, index, entry);
      if |chunks| == chunkCount {
        var grown := chunkCount * 12 / 10;
        var size := if grown < chunkCount + 1 then chunkCount + 1 else grown;
        var rest: seq<Chunk<V>> := seq(size - chunkCount - 1, _ => entry);
        chunks := chunks[..index] + [entry] + chunks[index..chunkCount] + rest;
      } else {
        chunks := chunks[..index] + [entry] + chunks[index..chunkCount] + chunks[chunkCount + 1..];
      }
      chunkCount := chunkCount + 1;
      assert chunks[..chunkCount] == InsertAt(cs, index, entry);
    }

    // ---- Enumeration ----

    /** The index the offset-th slot stands for. */
    ghost function IndexAt(offset: nat): nat
      requires Valid() && offset < Capacity()
      reads this
    {
      if dense then offset else chunks[offset / CHUNK_SIZE].offset + offset % CHUNK_SIZE
    }

    method GetKey(offset: nat) returns (key: Key)
      requires Valid() && offset < Capacity()
      ensures key == if At(IndexAt(offset)).Some? then Key(IndexAt(offset)) else Missing
    {
      if dense {
        return if items[offset].Some? then Key(offset) else Missing;
      }
      var k := offset / CHUNK_SIZE;
      SlotOfChunk(offset);
      var o := offset % CHUNK_SIZE;
      return if chunks[k].items[o].Some? then Key(chunks[k].offset + o) else Missing;
    }

    lemma SlotOfChunk(offset: nat)
      requires Valid() && !dense && offset < Capacity()
      ensures var k, o := offset / CHUNK_SIZE, offset % CHUNK_SIZE;
        k < chunkCount && |chunks[k].items| == CHUNK_SIZE && Offset(IndexAt(offset)) == chunks[k].offset
        && At(IndexAt(offset)) == chunks[k].items[o]
    {
      var cs := chunks[..chunkCount];
      var k := offset / CHUNK_SIZE;
      assert ChunkOk(cs[k]);
      assert Has(cs, IndexAt(offset), k);
      InChunksAt(cs, IndexAt(offset), k);
    }

    /** Slots stand for strictly increasing indices. */
    lemma KeysIncrease(i: nat, j: nat)
      requires Valid() && i < j < Capacity()
      ensures IndexAt(i) < IndexAt(j)
    {
      if !dense {
        var a, b := i / CHUNK_SIZE, j / CHUNK_SIZE;
        var cs := chunks[..chunkCount];
        assert ChunkOk(cs[a]) && ChunkOk(cs[b]);
        if a < b {
          assert cs[a].offset < cs[b].offset;
        }
      }
    }

    lemma HeldIsCovered(index: nat)
      requires Valid() && At(index).Some?
      ensures Covers(ShapeNow(), index)
    {
    }

    /** Every index that holds a value has a slot. */
    lemma EveryKey(index: nat) returns (offset: nat)
      requires Valid() && At(index).Some?
      ensures offset < Capacity() && IndexAt(offset) == index
    {
      if dense {
        offset := index;
      } else {
        var cs := chunks[..chunkCount];
        if k: nat :| Has(cs, index, k) {
          offset := k * CHUNK_SIZE + (index - Offset(index));
          assert offset / CHUNK_SIZE == k && offset % CHUNK_SIZE == index - Offset(index);
        } else {
          InNoChunk(cs, index);
          assert false;
        }
      }
    }
  }

  /** A store that cannot take an index: a run that was filled from the start and is then written to far beyond. */
  method OverrunIsReachable(value: int) returns (ok: bool)
    ensures !ok
  {
    var a := new SparseArray<int>();
    var i := 0;
    while i < 641
      invariant i <= 641 && fresh(a) && a.Valid() && a.ShapeNow() == Dense(RoomFor(i), i)
    {
      RoomGrows(i);
      var stored := a.SetValue(i, Some(value));
      i := i + 1;
    }
    RoomGrows(641);
    assert RoomFor(641) == 1280;
    ok := a.SetValue(2560, Some(value));
  }

  /** The room of a run that was filled from the start, up to 1280 elements. */
  function RoomFor(n: nat): nat {
    if n <= 20 then 20 else if n <= 40 then 40 else if n <= 80 then 80 else if n <= 160 then 160
    else if n <= 320 then 320 else if n <= 640 then 640 else 1280
  }

  lemma RoomGrows(n: nat)
    requires n < 1280
    ensures var s := Dense(RoomFor(n), n);
      !Overrun(s, n) && Grown(s, n) == Dense(RoomFor(n + 1), n + 1)
  {
  }
}
