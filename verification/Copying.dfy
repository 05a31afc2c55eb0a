/** The copying strategy: allocation from a bump block, the size of the next heap, and the collection. */
module CopyingStrategy {
  import opened HeapModel
  import opened Cheney
  import opened Forwarding
  import opened CollectionResult
  import opened Collector
  import opened Finalizer

  const WORD := 8
  const PAGE_SIZE := 4096

  /** Mapped memory: where it is, how many bytes it has and the words in it. */
  datatype Memory = Memory(base: nat, size: nat, words: array<int>)

  datatype GcOpts = GcOpts(initialHeap: nat, initGc: real, slowGrowthFactor: real, fastGrowthFactor: real) {
    /** What the heap's constructor and the memory mapping insist on, or panic. */
    predicate Valid() {
      initialHeap > 0 && fastGrowthFactor > 1.0 && slowGrowthFactor > 1.0 && 0.0 <= initGc <= 1.0
    }
  }

  function Max(a: nat, b: nat): nat {
    if a >= b then a else b
  }

  function Percent(size: nat, factor: real): nat
    requires factor >= 0.0
  {
    size * (factor * 100.0).Floor / 100
  }

  function RoundToPage(size: nat): nat {
    (size + (PAGE_SIZE - 1)) / PAGE_SIZE * PAGE_SIZE
  }

  /** Bytes asked for the next to-space. */
  function TargetSize(opts: GcOpts, memorySize: nat, used: nat, lastFailed: nat, lastUsed: real): nat
    requires opts.Valid() && lastUsed >= 0.0
  {
    var size := Max(memorySize, used + lastFailed);
    var grown := if lastUsed > 0.5 then
        Percent(size, if lastUsed > 0.85 then opts.fastGrowthFactor else opts.slowGrowthFactor)
      else size;
    var filled := Max(grown, Percent(grown, lastUsed));
    RoundToPage(Max(filled, opts.initialHeap))
  }

  lemma PercentGrows(size: nat, factor: real)
    requires factor > 1.0
    ensures Percent(size, factor) >= size
  {
    var p := (factor * 100.0).Floor;
    assert p >= 100;
    assert size * p == size * 100 + size * (p - 100);
    assert size * (p - 100) >= 0;
  }

  lemma PercentShrinks(size: nat, factor: real)
    requires 0.0 <= factor <= 1.0
    ensures Percent(size, factor) <= size
  {
    var p := (factor * 100.0).Floor;
    assert 0 <= p <= 100;
    assert size * 100 == size * p + size * (100 - p);
    assert size * (100 - p) >= 0;
  }

  lemma RoundedUp(size: nat)
    ensures RoundToPage(size) >= size && RoundToPage(size) % PAGE_SIZE == 0
  {
  }

  /** To-space is a whole number of pages, never smaller than the initial heap, and always has room for
      everything in use plus the allocation that failed. */
  lemma TargetSizeSuffices(opts: GcOpts, memorySize: nat, used: nat, lastFailed: nat, lastUsed: real)
    requires opts.Valid() && lastUsed >= 0.0
    ensures var t := TargetSize(opts, memorySize, used, lastFailed, lastUsed);
      t >= used + lastFailed && t >= memorySize && t >= opts.initialHeap && t % PAGE_SIZE == 0
  {
    hide Percent, RoundToPage;
    var size := Max(memorySize, used + lastFailed);
    var grown := if lastUsed > 0.5 then
        Percent(size, if lastUsed > 0.85 then opts.fastGrowthFactor else opts.slowGrowthFactor)
      else size;
    RoundedUp(Max(Max(grown, Percent(grown, lastUsed)), opts.initialHeap));
    if lastUsed > 0.5 {
      PercentGrows(size, if lastUsed > 0.85 then opts.fastGrowthFactor else opts.slowGrowthFactor);
    }
  }

  /** The bytes of the space that is copied to: the spare one's if they are enough. */
  function NextSize(opts: GcOpts, memorySize: nat, spareSize: nat, used: nat, lastFailed: nat, lastUsed: real): nat
    requires opts.Valid() && lastUsed >= 0.0
  {
    Max(spareSize, TargetSize(opts, memorySize, used, lastFailed, lastUsed))
  }

  datatype Outcome = Allocated(ptr: nat) | OutOfMemory

  /** The words of a block for that many bytes, with what comes before them. */
  function WordsFor(size: nat): (words: nat)
    ensures words >= 2
  {
    (size + (WORD - 1)) / WORD + 2
  }

  /** The heap before an allocation: as it was if the block fits, and collected otherwise. */
  ghost predicate MadeRoom(w: Walker, fits: bool, o: Space, mid: Space, slots: seq<int>, walked: seq<nat>,
          slots': seq<int>,
          log: seq<Call>, fwd: map<nat, nat>) {
    if fits then mid == o && log == [] && slots' == slots
    else
      && Renamed(w, o, RootValues(slots, walked), mid, fwd) && RootsForwarded(o, mid.base, fwd, slots, walked, slots')
      && log == OwedFrom(w, o, 0, fwd.Keys) && mid.end + Remaining(o, 0, fwd.Keys) == o.end
  }

  /** One more block, of zeros, behind everything else. */
  ghost predicate HasOneMore(o: Space, n: Space, words: nat)
    requires words >= 2
  {
    && n.base == o.base && n.blocks == o.blocks + [o.end] && n.end == o.end + words <= |n.mem| && o.end <= |o.mem|
    && n.mem[..o.end] == o.mem[..o.end] && Size(n, o.end) == words
    && forall i: nat :: o.end + 2 <= i < n.end ==> n.mem[i] == 0
  }

  /** `fill` is the part of `size` bytes that so many words are. */
  ghost predicate FillIs(fill: real, size: nat, words: nat) {
    fill * size as real == (WORD * words) as real
  }

  lemma FillAfter(size: nat, words: nat)
    requires size > 0
    ensures FillIs((WORD * words) as real / size as real, size, words)
  {
  }

  /** The size to ask for when the last collection left so many words of the heap: the fast factor beyond 85 hundredths,
      the slow one beyond half. */
  function Growth(opts: GcOpts, size: nat, memorySize: nat, words: nat): nat
    requires opts.Valid()
  {
    if 100 * WORD * words > 85 * memorySize then Percent(size, opts.fastGrowthFactor)
    else if 2 * WORD * words > memorySize then Percent(size, opts.slowGrowthFactor)
    else size
  }

  /** The fill rate that a collection remembers makes exactly that choice. */
  lemma FillDecides(opts: GcOpts, memorySize: nat, used: nat, lastFailed: nat, fill: real, words: nat)
    requires opts.Valid() && fill >= 0.0 && memorySize > 0 && FillIs(fill, memorySize, words)
    requires WORD * words <= memorySize
    ensures TargetSize(opts, memorySize, used, lastFailed, fill)
      == RoundToPage(Max(Growth(opts, Max(memorySize, used + lastFailed), memorySize, words), opts.initialHeap))
  {
    hide Percent, RoundToPage;
    var size := Max(memorySize, used + lastFailed);
    Compares(fill, memorySize, words, 85);
    Compares(fill, memorySize, words, 50);
    Compares(fill, memorySize, words, 100);
    var grown := Growth(opts, size, memorySize, words);
    PercentShrinks(grown, fill);
  }

  /** One page that was left with 460 words is followed by two, and one that was left empty by one. */
  lemma FillMatters(fill: real)
    requires FillIs(fill, 4096, 460)
    ensures var opts := GcOpts(4096, 1.0, 1.5, 2.0);
      fill >= 0.0 && TargetSize(opts, 4096, 3680, 416, fill) == 8192 && TargetSize(opts, 4096, 3680, 416, 0.0) == 4096
  {
    var opts := GcOpts(4096, 1.0, 1.5, 2.0);
    assert fill >= 0.0;
    assert Percent(4096, opts.fastGrowthFactor) == 8192;
    FillDecides(opts, 4096, 3680, 416, fill, 460);
    FillDecides(opts, 4096, 3680, 416, 0.0, 0);
  }

  lemma Compares(fill: real, size: nat, words: nat, hundredths: nat)
    requires size > 0 && FillIs(fill, size, words)
    ensures 100.0 * fill > hundredths as real <==> 100 * WORD * words > hundredths * size
  {
    var f, h := 100.0 * fill, hundredths as real;
    assert f * size as real == (100 * WORD * words) as real;
    if f > h {
      assert (f - h) * size as real > 0.0;
    } else {
      assert (h - f) * size as real >= 0.0;
    }
  }

  /** The heap: one space to allocate in, a spare one to copy to, and the engine's walker. */
  class Copying {
    const opts: GcOpts
    const walker: Walker
    var memory: Memory
    var offset: nat          // words in use
    var highMark: nat        // bytes allocation may use
    var spare: Memory
    var lastUsed: real
    var lastFailed: nat
    ghost var blocks: seq<nat>

    ghost function Heap(): Space
      reads this, memory.words
    {
      Space(memory.base, memory.words[..], blocks, offset)
    }

    ghost predicate Valid()
      reads this, memory.words
    {
      && opts.Valid() && Stable(walker)
      && memory.words != spare.words
      && memory.words.Length == memory.size / WORD && spare.words.Length == spare.size / WORD
      && (spare.size > 0 ==> spare.base > 0)
      && highMark <= memory.size && memory.size > 0 && lastUsed >= 0.0
      && WellFormed(walker, Heap())
    }

    constructor (opts: GcOpts, walker: Walker, base: nat)
      requires opts.Valid() && Stable(walker) && base > 0
      ensures Valid() && Heap().blocks == [] && this.walker == walker && this.opts == opts
      ensures fresh(memory.words) && fresh(spare.words)
      ensures offset == 0 && memory.size == opts.initialHeap && spare.size == 0 && lastUsed == 0.0 && lastFailed == 0
      ensures highMark == Percent(opts.initialHeap, opts.initGc)
    {
      this.opts, this.walker := opts, walker;
      var words := new int[opts.initialHeap / WORD];
      var none := new int[0];
      PercentShrinks(opts.initialHeap, opts.initGc);
      memory := Memory(base, opts.initialHeap, words);
      highMark := Percent(opts.initialHeap, opts.initGc);
      offset := 0;
      spare := Memory(0, 0, none);
      lastUsed, lastFailed := 0.0, 0;
      blocks := [];
    }

    /** The space to copy to: the spare one when it is large enough, newly mapped memory otherwise. `osBase` is
        the address the operating system would give newly mapped memory. */
    method NextSpace(osBase: nat) returns (to: Memory)
      requires Valid() && osBase > 0
      modifies this`lastFailed
      ensures to.base > 0 && to.words.Length == to.size / WORD && to.words != memory.words
      ensures if spare.size >= TargetSize(opts, memory.size, WORD * offset, old(lastFailed), lastUsed) then to == spare
              else fresh(to.words) && to.base == osBase
      ensures to.size >= WORD * offset + old(lastFailed) && to.size >= memory.size
      ensures to.size == NextSize(opts, memory.size, spare.size, WORD * offset, old(lastFailed), lastUsed)
      ensures lastFailed == 0
    {
      hide WellFormed, Stable, Percent, RoundToPage;
      var targetSize := TargetSize(opts, memory.size, WORD * offset, lastFailed, lastUsed);
      TargetSizeSuffices(opts, memory.size, WORD * offset, lastFailed, lastUsed);
      lastFailed := 0;
      to := spare;
      if to.size < targetSize {
        var words := new int[targetSize / WORD];
        to := Memory(osBase, targetSize, words);
      }
    }

    /** Forwards the roots, scans the copies and finalizes what was left behind. */
    method Collect(slots: array<int>, walked: seq<nat>, to: Memory)
      returns (target: nat, log: seq<Call>, ghost fwd: map<nat, nat>, ghost starts: seq<nat>)
      requires Valid() && to.base > 0 && to.words != memory.words && to.words.Length >= offset
      requires slots != memory.words && slots != to.words
      requires WalkedOk(Heap(), slots[..], walked)
      modifies memory.words, to.words, slots
      ensures var n := Space(to.base, to.words[..], starts, target);
        WellFormed(walker, n) && Renamed(walker, old(Heap()), RootValues(old(slots[..]), walked), n, fwd)
      ensures RootsForwarded(old(Heap()), to.base, fwd, old(slots[..]), walked, slots[..])
      ensures target + Remaining(old(Heap()), 0, fwd.Keys) == old(offset)
      ensures log == OwedFrom(walker, old(Heap()), 0, fwd.Keys)
    {
      hide Renamed, WellFormed, Stable, Remaining, OwedFrom, Forwarded, Settled, PointerIn, IsUser, Inv, Scanned,
        RootValues, Grows, ScannedTo;
      ghost var o := Heap();
      BaseNotNull(walker, o);
      var f := new Forwarder(walker, o, RootValues(slots[..], walked), memory.words, memory.base, to.words, to.base);
      RootsAreValues(slots[..], walked);
      ForwardRoots(f, slots, walked);
      ghost var c0 := f.c;
      ScanToSpace(f, walker);
      SettleRoots(o, to.base, c0, f.c, old(slots[..]), walked);
      FinishedIsRenamed(walker, o, to.base, f.roots, f.c);
      Accounted(walker, o, to.base, f.roots, f.c);
      log := Sweep(f, walker, offset);
      target, fwd, starts := f.target, f.c.fwd, f.c.starts;
    }

    /** Replaces every object reachable from the walked slots by its copy in the other space and makes that the
        heap. */
    method Copy(slots: array<int>, walked: seq<nat>, osBase: nat) returns (log: seq<Call>, ghost fwd: map<nat, nat>)
      requires Valid() && osBase > 0
      requires slots != memory.words && slots != spare.words
      requires WalkedOk(Heap(), slots[..], walked)
      modifies this, memory.words, spare.words, slots
      ensures Valid()
      ensures Renamed(walker, old(Heap()), RootValues(old(slots[..]), walked), Heap(), fwd)
      ensures RootsForwarded(old(Heap()), memory.base, fwd, old(slots[..]), walked, slots[..])
      ensures offset + Remaining(old(Heap()), 0, fwd.Keys) == old(offset)
      ensures log == OwedFrom(walker, old(Heap()), 0, fwd.Keys)
      ensures memory.size >= WORD * old(offset) + old(lastFailed) && memory.size >= old(memory.size)
      ensures memory.size == NextSize(opts, old(memory.size), old(spare.size), WORD * old(offset), old(lastFailed), old(lastUsed))
      ensures highMark == Percent(memory.size, opts.initGc) && FillIs(lastUsed, memory.size, offset) && lastFailed == 0
      ensures spare == old(memory) && (memory == old(spare) || fresh(memory.words))
    {
      hide TargetSize, Renamed, WellFormed, Stable, Remaining, OwedFrom, RootsForwarded, Percent, NextSize, FillIs,
        WalkedOk;
      HeapFits();
      var to := NextSpace(osBase);
      ghost var starts;
      offset, log, fwd, starts := Collect(slots, walked, to);
      spare, memory := memory, to;
      blocks := starts;
      PercentShrinks(memory.size, opts.initGc);
      highMark := Percent(memory.size, opts.initGc);
      lastUsed := (WORD * offset) as real / memory.size as real;
      FillAfter(memory.size, offset);
    }

    /** Two collections one after the other: what the first leaves in use decides how much larger the second one's
        space is. */
    method CollectTwice(slots: array<int>, walked: seq<nat>, osBase: nat, again: nat) returns (ghost size: nat,
            ghost left: nat)
      requires Valid() && osBase > 0 && again > 0
      requires slots != memory.words && slots != spare.words
      requires WalkedOk(Heap(), slots[..], walked)
      modifies this, memory.words, spare.words, slots
      ensures Valid() && left <= old(offset)
      ensures size == NextSize(opts, old(memory.size), old(spare.size), WORD * old(offset), old(lastFailed), old(lastUsed))
      ensures memory.size == Max(old(memory.size), RoundToPage(Max(Growth(opts, size, size, left), opts.initialHeap)))
    {
      hide TargetSize, Renamed, WellFormed, Stable, Remaining, OwedFrom, Percent, RoundToPage, FillIs, RootsForwarded,
        WalkedOk;
      ghost var o, was := Heap(), slots[..];
      var log;
      ghost var fwd;
      log, fwd := Copy(slots, walked, osBase);
      size, left := memory.size, offset;
      HeapFits();
      StillWalked(walker, o, Heap(), fwd, was, walked, slots[..]);
      FillDecides(opts, memory.size, WORD * offset, lastFailed, lastUsed, offset);
      log, fwd := Copy(slots, walked, again);
    }

    lemma HeapFits()
      requires Valid()
      ensures WORD * offset <= memory.size && memory.base > 0
    {
      hide BlockOk, Stable;
    }

    /** Takes `size` bytes, rounded up to words and with the block's prolog on top, from the heap; 0 when they do
        not fit below the high mark. The block starts as zeros. */
    method AllocRaw(size: nat) returns (result: nat)
      requires Valid() && size >= WORD
      modifies this`lastFailed, this`blocks, this`offset, memory.words
      ensures Valid()
      ensures var words := (size + (WORD - 1)) / WORD;
        if WORD * (old(offset) + words + 2) > highMark then
          result == 0 && lastFailed == WORD * words && Heap() == old(Heap())
        else
          && result == memory.base + old(offset) + 2 && lastFailed == old(lastFailed)
          && Heap().blocks == old(Heap().blocks) + [old(offset)] && offset == old(offset) + words + 2
          && Heap().mem[..old(offset)] == old(Heap().mem[..offset])
          && Size(Heap(), old(offset)) == words + 2
          && forall i: nat :: old(offset) + 2 <= i < offset ==> Heap().mem[i] == 0
    {
      hide WellFormed, Stable;
      var words := (size + (WORD - 1)) / WORD;
      var size' := words + 2;
      if WORD * (offset + size') > highMark {
        lastFailed := WORD * words;
        return 0;
      }
      ghost var o := Heap();
      Room(offset + size', highMark, memory.size);
      var m := memory.words;
      m[offset], m[offset + 1] := 0, size';
      forall i | offset + 2 <= i < offset + size' {
        m[i] := 0;
      }
      result := memory.base + offset + 2;
      blocks := blocks + [offset];
      offset := offset + size';
      AllocWellFormed(walker, o, Heap(), size');
    }

    /** Takes `size` bytes, after a collection if they do not fit at first. None if they do not fit then either, on which
        the engine panics: exactly if what was reachable and the new block are beyond the high mark of the next space. */
    method AllocCollecting(size: nat, slots: array<int>, walked: seq<nat>, osBase: nat)
      returns (result: Outcome, log: seq<Call>, ghost mid: Space, ghost fwd: map<nat, nat>)
      requires Valid() && size >= WORD && osBase > 0
      requires slots != memory.words && slots != spare.words
      requires WalkedOk(Heap(), slots[..], walked)
      modifies this, memory.words, spare.words, slots
      ensures Valid()
      ensures MadeRoom(walker, old(Fits(size)), old(Heap()), mid, old(slots[..]), walked, slots[..], log, fwd)
      ensures result == OutOfMemory
        <==> !old(Fits(size)) && WORD * (mid.end + WordsFor(size)) > Percent(old(SizeAfter(size)), opts.initGc)
      ensures result == OutOfMemory ==>
        WORD * (old(offset) + WordsFor(size)) > Percent(old(SizeAfter(size)), opts.initGc)
      ensures old(Fits(size)) ==>
        memory == old(memory) && spare == old(spare) && highMark == old(highMark) && lastUsed == old(lastUsed)
      ensures !old(Fits(size)) ==>
        memory.size == old(SizeAfter(size)) && spare == old(memory) && highMark == Percent(memory.size, opts.initGc)
      ensures !old(Fits(size)) ==> FillIs(lastUsed, memory.size, mid.end)
      ensures memory.words == old(memory.words) || memory.words == old(spare.words) || fresh(memory.words)
      ensures result == OutOfMemory ==> Heap() == mid
      ensures result != OutOfMemory ==> result == Allocated(memory.base + mid.end + 2) && HasOneMore(mid, Heap(), WordsFor(size))
    {
      hide Renamed, WellFormed, Stable, Remaining, OwedFrom, RootsForwarded, Percent, TargetSize, RootValues, FillIs;
      log, mid, fwd := [], Heap(), map[];
      HeapFits();
      var ptr := AllocRaw(size);
      if ptr == 0 {
        log, fwd := Copy(slots, walked, osBase);
        mid := Heap();
        HeapFits();
        ptr := AllocRaw(size);
      }
      HeapFits();
      result := if ptr == 0 then OutOfMemory else Allocated(ptr);
    }

    /** Whether an allocation fits as the heap is. */
    ghost predicate Fits(size: nat)
      reads this
    {
      WORD * (offset + WordsFor(size)) <= highMark
    }

    /** The bytes of the heap after a collection for an allocation that failed. */
    ghost function SizeAfter(size: nat): nat
      requires opts.Valid() && lastUsed >= 0.0
      reads this
    {
      NextSize(opts, memory.size, spare.size, WORD * offset, WORD * (WordsFor(size) - 2), lastUsed)
    }

    /** Allocates an object of `size` bytes of type `ty`, or an array of `count` such elements, after a collection if
        there is no room at first. */
    method Alloc(ty: nat, size: nat, isArray: bool, count: nat, slots: array<int>, walked: seq<nat>, osBase: nat)
      returns (result: Outcome, log: seq<Call>, ghost mid: Space, ghost fwd: map<nat, nat>)
      requires Valid() && ty < 128 && size < 0x1000000 && size % WORD == 0 && (!isArray ==> count == 1) && osBase > 0
      requires slots != memory.words && slots != spare.words
      requires WalkedOk(Heap(), slots[..], walked)
      modifies this, memory.words, spare.words, slots
      ensures Valid()
      ensures var bytes := Bytes(size, isArray, count);
        MadeRoom(walker, old(Fits(bytes)), old(Heap()), mid, old(slots[..]), walked, slots[..], log, fwd)
      ensures var bytes := Bytes(size, isArray, count);
        result == OutOfMemory
        <==> !old(Fits(bytes)) && WORD * (mid.end + WordsFor(bytes)) > Percent(old(SizeAfter(bytes)), opts.initGc)
      ensures old(Fits(Bytes(size, isArray, count))) ==>
        memory == old(memory) && spare == old(spare) && highMark == old(highMark) && lastUsed == old(lastUsed)
      ensures !old(Fits(Bytes(size, isArray, count))) ==>
        memory.size == old(SizeAfter(Bytes(size, isArray, count))) && spare == old(memory)
        && highMark == Percent(memory.size, opts.initGc) && FillIs(lastUsed, memory.size, mid.end)
      ensures result == OutOfMemory ==> Heap() == mid
      ensures result != OutOfMemory ==>
        result == Allocated(memory.base + mid.end + PROLOG) && HasNew(mid, Heap(), ty, size, isArray, count)
    {
      hide WellFormed, Stable, MadeRoom, Percent, TargetSize, Bytes, HasNew, FillIs;
      var bytes := Bytes(size, isArray, count);
      AllocSize(size, isArray, count);
      result, log, mid, fwd := AllocCollecting(bytes, slots, walked, osBase);
      if result == OutOfMemory {
        return;
      }
      WriteHeader(result.ptr - memory.base, ty, size, isArray, count, mid);
      result := Allocated(result.ptr + 1);
    }

    method WriteHeader(at: nat, ty: nat, size: nat, isArray: bool, count: nat, ghost mid: Space)
      requires Valid() && ty < 128 && size < 0x1000000 && size % WORD == 0 && (!isArray ==> count == 1)
      requires HasOneMore(mid, Heap(), Payload(size, isArray, count) + PROLOG) && at == mid.end + 2
      modifies memory.words
      ensures Valid() && HasNew(mid, Heap(), ty, size, isArray, count)
    {
      hide WellFormed, Stable;
      HeapFits();
      ghost var o := Heap();
      var m := memory.words;
      m[at] := NewMemHeader(ty, size, isArray);
      if isArray {
        m[at + 1] := count;
      }
      HeaderWellFormed(walker, o, Heap(), ty, size, isArray, count);
    }
  }

  /** The words of an object, or of an array with its element count. */
  function Payload(size: nat, isArray: bool, count: nat): nat {
    if isArray then ElementAt(size / WORD, count) else size / WORD
  }

  /** The new block has its header, its element count if it is an array, and zeros. */
  ghost predicate HasNew(mid: Space, n: Space, ty: nat, size: nat, isArray: bool, count: nat) {
    && n.blocks == mid.blocks + [mid.end] && mid.end <= |n.mem| && mid.end <= |mid.mem| && n.mem[..mid.end] == mid.mem[..mid.end]
    && Head(n, mid.end) == NewMemHeader(ty, size, isArray) && |Data(n, mid.end)| == Payload(size, isArray, count)
    && forall q: nat {:trigger Data(n, mid.end)[q]} :: q < |Data(n, mid.end)| ==>
         Data(n, mid.end)[q] == if isArray && q == 0 then count else 0
  }

  /** The bytes asked for: the type header, for an array the element count, and the elements. */
  function Bytes(size: nat, isArray: bool, count: nat): nat {
    WORD + (if isArray then WORD + size * count else size)
  }

  /** The walked slots hold user pointers again after a collection. */
  lemma StillWalked(w: Walker, o: Space, n: Space, fwd: map<nat, nat>, slots: seq<int>, walked: seq<nat>,
          slots': seq<int>)
    requires WalkedOk(o, slots, walked) && Renamed(w, o, RootValues(slots, walked), n, fwd)
    requires RootsForwarded(o, n.base, fwd, slots, walked, slots') && o.base > 0
    ensures WalkedOk(n, slots', walked)
  {
    hide Renamed, RootValues, IsUser, Forwarded, Settled;
    forall i: nat | i < |walked|
      ensures walked[i] < |slots'| && IsUser(n, slots'[walked[i]])
    {
      StillUser(w, o, RootValues(slots, walked), n, fwd, slots[walked[i]]);
      assert slots'[walked[i]] == Forwarded(o, n.base, fwd, slots[walked[i]]);
    }
  }

  lemma StillUser(w: Walker, o: Space, roots: seq<int>, n: Space, fwd: map<nat, nat>, v: int)
    requires Renamed(w, o, roots, n, fwd) && IsUser(o, v) && Settled(o, fwd, v) && o.base > 0
    ensures IsUser(n, Forwarded(o, n.base, fwd, v))
  {
    hide SameBlock;
    CopyThere(w, o, v - o.base - PROLOG, n, fwd);
  }

  lemma CopyThere(w: Walker, o: Space, s: nat, n: Space, fwd: map<nat, nat>)
    requires SameBlock(w, o, s, n, fwd)
    ensures s in fwd && fwd[s] in n.blocks
  {
  }

  /** An empty heap of one page cannot take 4000 bytes, although a collection asks for that much: the high mark stays at
      95 hundredths of the page. */
  method PanicsOnEmptyHeap() returns (r: Outcome)
    ensures r == OutOfMemory
  {
    hide Copying.Valid, WellFormed, MadeRoom;
    RtWalkerStable();
    var opts := GcOpts(4096, 0.95, 1.5, 3.0);
    var c := new Copying(opts, RtWalker, 4096);
    var slots := new int[0];
    Page();
    var log;
    ghost var mid, fwd;
    r, log, mid, fwd := c.AllocCollecting(4000, slots, [], 8192);
  }

  lemma Page()
    ensures var opts := GcOpts(4096, 0.95, 1.5, 3.0);
      opts.Valid() && Percent(4096, opts.initGc) == 3891 && NextSize(opts, 4096, 0, 0, 4000, 0.0) == 4096 && WordsFor(4000) == 502
  {
    assert (0.95 * 100.0).Floor == 95;
  }

  /** What the root walkers hand to the collector: distinct slots, each holding a user pointer. */
  ghost predicate WalkedOk(o: Space, slots: seq<int>, walked: seq<nat>) {
    && (forall i: nat :: i < |walked| ==> walked[i] < |slots| && IsUser(o, slots[walked[i]]))
    && (forall i: nat, j: nat :: i < j < |walked| ==> walked[i] != walked[j])
  }

  /** Every walked slot now holds the new address of what it pointed to, and the other slots are untouched. */
  ghost predicate RootsForwarded(o: Space, tb: nat, fwd: map<nat, nat>, slots: seq<int>, walked: seq<nat>,
          slots': seq<int>) {
    && |slots'| == |slots|
    && (forall j: nat :: j < |slots| ==> slots'[j] == if j in walked then Forwarded(o, tb, fwd, slots[j]) else slots[j])
    && (forall i: nat :: i < |walked| && walked[i] < |slots| ==> Settled(o, fwd, slots[walked[i]]))
  }

  /** The values in the walked slots. */
  ghost function RootValues(slots: seq<int>, walked: seq<nat>): (roots: seq<int>)
    ensures |roots| == |walked|
  {
    seq(|walked|, i requires 0 <= i < |walked| => if walked[i] < |slots| then slots[walked[i]] else 0)
  }

  lemma RootsAreValues(slots: seq<int>, walked: seq<nat>)
    requires forall i: nat :: i < |walked| ==> walked[i] < |slots|
    ensures forall i: nat :: i < |walked| ==> slots[walked[i]] in RootValues(slots, walked)
  {
    forall i: nat | i < |walked|
      ensures slots[walked[i]] in RootValues(slots, walked)
    {
      assert RootValues(slots, walked)[i] == slots[walked[i]];
    }
  }

  lemma BaseNotNull(w: Walker, o: Space)
    requires WellFormed(w, o)
    ensures o.base > 0 && o.end <= |o.mem|
  {
    hide BlockOk;
  }

  /** What the root slots point to has been copied, and stays where it was copied to. */
  lemma SettleRoots(o: Space, tb: nat, a: State, c: State, slots: seq<int>, walked: seq<nat>)
    requires Grows(a, c) && o.base > 0
    requires forall i: nat :: i < |walked| ==> walked[i] < |slots| && IsUser(o, slots[walked[i]]) && Settled(o, a.fwd, slots[walked[i]])
    ensures forall r: nat :: IsRoot(o, RootValues(slots, walked), r) ==> r in c.fwd
    ensures forall i: nat :: i < |walked| ==> Settled(o, c.fwd, slots[walked[i]])
    ensures forall j: nat :: j < |slots| && j in walked ==> Forwarded(o, tb, c.fwd, slots[j]) == Forwarded(o, tb, a.fwd, slots[j])
  {
    forall r: nat | IsRoot(o, RootValues(slots, walked), r)
      ensures r in c.fwd
    {
      var i: nat :| i < |walked| && RootValues(slots, walked)[i] == o.base + r + PROLOG;
      assert Settled(o, a.fwd, slots[walked[i]]);
    }
    forall i: nat | i < |walked|
      ensures Settled(o, c.fwd, slots[walked[i]])
      ensures Forwarded(o, tb, c.fwd, slots[walked[i]]) == Forwarded(o, tb, a.fwd, slots[walked[i]])
    {
      assert Settled(o, a.fwd, slots[walked[i]]);
    }
  }

  lemma Accounted(w: Walker, o: Space, tb: nat, roots: seq<int>, c: State)
    requires Inv(w, o, tb, roots, c)
    ensures c.target + Remaining(o, 0, c.fwd.Keys) == o.end
  {
    hide Copies, AllReachable, Layout, FromOk, Orders;
  }

  lemma Room(words: nat, highMark: nat, size: nat)
    requires WORD * words <= highMark <= size
    ensures words <= size / WORD
  {
  }

  lemma AllocSize(size: nat, isArray: bool, count: nat)
    requires size % WORD == 0 && (!isArray ==> count == 1)
    ensures Bytes(size, isArray, count) >= WORD
    ensures WordsFor(Bytes(size, isArray, count)) == Payload(size, isArray, count) + PROLOG
  {
    ElementAtIsProduct(size / WORD, count);
    assert size == WORD * (size / WORD);
    assert size * count == WORD * (size / WORD * count);
  }

  /** A block whose words are unchanged stays as good as it was when no block is lost. */
  lemma KeepsBlock(w: Walker, o: Space, n: Space, s: nat)
    requires BlockOk(w, o, s) && s + Size(o, s) <= |o.mem| && s + Size(o, s) <= |n.mem|
    requires n.mem[s..s + Size(o, s)] == o.mem[s..s + Size(o, s)]
    requires n.base == o.base && forall b: nat :: b in o.blocks ==> b in n.blocks
    ensures BlockOk(w, n, s) && Size(n, s) == Size(o, s)
  {
    hide PointerWord, WordsFit;
    var a, b := o.mem[s..s + Size(o, s)], n.mem[s..s + Size(o, s)];
    assert a[0] == o.mem[s] && a[1] == o.mem[s + 1] && a[2] == o.mem[s + 2];
    assert Data(o, s) == a[PROLOG..] == Data(n, s);
    forall q: nat | PointerIn(w, n, s, q)
      ensures Data(n, s)[q] == 0 || IsUser(n, Data(n, s)[q])
    {
      assert PointerIn(w, o, s, q);
    }
  }

  /** A block of zeros, apart from an element count, has no dangling pointers. */
  lemma ZeroBlockOk(w: Walker, n: Space, s: nat)
    requires s < |n.mem| && n.mem[s] == 0 && WordsFit(Head(n, s), Data(n, s))
    requires forall q: nat {:trigger Data(n, s)[q]} :: q < |Data(n, s)| && !(IsArray(Head(n, s)) && q == 0) ==> Data(n, s)[q] == 0
    ensures BlockOk(w, n, s)
  {
    hide PointerWord, WordsFit, Data, Head;
    forall q: nat | PointerIn(w, n, s, q)
      ensures Data(n, s)[q] == 0
    {
      PointerWordInBlock(w, Head(n, s), Data(n, s), q);
    }
  }

  lemma AllocLayout(o: Space, n: Space, words: nat)
    requires Layout(o) && words >= PROLOG && n.end == o.end + words <= |n.mem| && |n.mem| == |o.mem|
    requires n.blocks == o.blocks + [o.end] && n.mem[..o.end] == o.mem[..o.end] && n.mem[o.end + 1] == words
    ensures Layout(n) && Size(n, o.end) == words
    ensures forall s: nat :: s in o.blocks ==> s + Size(o, s) <= o.end
  {
    hide Contiguous, Size;
    forall k: nat | k < |n.blocks|
      ensures Contiguous(n, k) && Size(n, o.end) == words
      ensures k < |o.blocks| ==> Size(n, o.blocks[k]) == Size(o, o.blocks[k]) && o.blocks[k] + Size(o, o.blocks[k]) <= o.end
    {
      AllocContiguous(o, n, words, k);
    }
    assert n.blocks[|o.blocks|] == o.end;
  }

  lemma AllocContiguous(o: Space, n: Space, words: nat, k: nat)
    requires Layout(o) && words >= PROLOG && n.end == o.end + words <= |n.mem| && |n.mem| == |o.mem|
    requires n.blocks == o.blocks + [o.end] && n.mem[..o.end] == o.mem[..o.end] && n.mem[o.end + 1] == words
    requires k < |n.blocks|
    ensures Contiguous(n, k) && Size(n, o.end) == words
    ensures k < |o.blocks| ==> Size(n, o.blocks[k]) == Size(o, o.blocks[k]) && o.blocks[k] + Size(o, o.blocks[k]) <= o.end
  {
    if k < |o.blocks| {
      assert Contiguous(o, k);
      var s := o.blocks[k];
      assert n.mem[..o.end][s + 1] == o.mem[..o.end][s + 1];
    }
  }

  lemma AllocWellFormed(w: Walker, o: Space, n: Space, words: nat)
    requires WellFormed(w, o) && words >= PROLOG && n.end == o.end + words <= |n.mem| && |n.mem| == |o.mem|
    requires n.base == o.base
    requires n.blocks == o.blocks + [o.end] && n.mem[..o.end] == o.mem[..o.end]
    requires n.mem[o.end] == 0 && n.mem[o.end + 1] == words
    requires forall i: nat :: o.end + 2 <= i < n.end ==> n.mem[i] == 0
    ensures WellFormed(w, n) && Size(n, o.end) == words
  {
    hide BlockOk, Size, Contiguous;
    AllocLayout(o, n, words);
    forall s: nat | s in n.blocks
      ensures BlockOk(w, n, s)
    {
      if s == o.end {
        RawBlockOk(w, n, s, words);
      } else {
        SamePrefix(n.mem, o.mem, o.end, s, s + Size(o, s));
        KeepsBlock(w, o, n, s);
      }
    }
  }

  lemma SamePrefix(a: seq<int>, b: seq<int>, end: nat, i: nat, j: nat)
    requires end <= |a| && end <= |b| && a[..end] == b[..end] && i <= j <= end
    ensures a[i..j] == b[i..j]
  {
    forall x: nat | x < j - i
      ensures a[i..j][x] == b[i..j][x]
    {
      assert a[..end][i + x] == b[..end][i + x];
    }
  }

  lemma RawBlockOk(w: Walker, n: Space, s: nat, words: nat)
    requires words >= PROLOG && s + words <= |n.mem| && n.mem[s] == 0 && n.mem[s + 1] == words
    requires forall i: nat :: s + 2 <= i < s + words ==> n.mem[i] == 0
    ensures BlockOk(w, n, s)
  {
    hide BlockOk, PointerWord;
    assert Size(n, s) == words && Head(n, s) == 0;
    ZeroBlockOk(w, n, s);
  }

  /** Writing the type header, and for an array the element count, into a fresh block. */
  lemma HeaderWellFormed(w: Walker, o: Space, n: Space, ty: nat, size: nat, isArray: bool, count: nat)
    requires WellFormed(w, o) && |o.blocks| > 0 && ty < 128 && size < 0x1000000
    requires var s := o.blocks[|o.blocks| - 1]; var len := if isArray then ElementAt(size / WORD, count) else size / WORD;
      && Size(o, s) == len + PROLOG && s + Size(o, s) == o.end <= |o.mem|
      && (forall i: nat :: s + PROLOG <= i < o.end ==> o.mem[i] == 0)
      && n == o.(mem := n.mem) && n.mem == (if isArray then o.mem[s + 2 := NewMemHeader(ty, size, isArray)][s + PROLOG := count]
                                            else o.mem[s + 2 := NewMemHeader(ty, size, isArray)])
    ensures var s := o.blocks[|o.blocks| - 1]; var len := if isArray then ElementAt(size / WORD, count) else size / WORD;
      && WellFormed(w, n) && Head(n, s) == NewMemHeader(ty, size, isArray) && |Data(n, s)| == len
      && forall q: nat {:trigger Data(n, s)[q]} :: q < len ==> Data(n, s)[q] == if isArray && q == 0 then count else 0
  {
    hide BlockOk, Contiguous, NewMemHeader;
    var k := |o.blocks| - 1;
    var s := o.blocks[k];
    MemHeaderRoundTrip(ty, size, isArray);
    HeaderLayout(o, n, s);
    NotForwardedYet(w, o, s);
    FreshBlock(w, n, s, ty, size, isArray, count, o.end);
    forall b: nat | b in n.blocks
      ensures BlockOk(w, n, b)
    {
      if b != s {
        var i: nat :| i < |o.blocks| && o.blocks[i] == b;
        assert b + Size(o, b) <= s;
        assert n.mem[b..b + Size(o, b)] == o.mem[b..b + Size(o, b)];
        KeepsBlock(w, o, n, b);
      }
    }
  }

  lemma NotForwardedYet(w: Walker, o: Space, s: nat)
    requires BlockOk(w, o, s)
    ensures s < |o.mem| && o.mem[s] == 0
  {
  }

  lemma HeaderLayout(o: Space, n: Space, s: nat)
    requires Layout(o) && |o.blocks| > 0 && s == o.blocks[|o.blocks| - 1] && n == o.(mem := n.mem) && |n.mem| == |o.mem|
    requires s + 2 <= |o.mem| && n.mem[..s + 2] == o.mem[..s + 2]
    ensures Layout(n) && Size(n, s) == Size(o, s)
  {
    hide Contiguous;
    forall k: nat | k < |n.blocks|
      ensures Contiguous(n, k) && Size(n, n.blocks[k]) == Size(o, o.blocks[k])
    {
      HeaderContiguous(o, n, s, k);
    }
  }

  lemma HeaderContiguous(o: Space, n: Space, s: nat, k: nat)
    requires Layout(o) && |o.blocks| > 0 && s == o.blocks[|o.blocks| - 1] && n == o.(mem := n.mem) && |n.mem| == |o.mem|
    requires s + 2 <= |o.mem| && n.mem[..s + 2] == o.mem[..s + 2] && k < |o.blocks|
    ensures Contiguous(n, k) && Size(n, n.blocks[k]) == Size(o, o.blocks[k])
  {
    assert Contiguous(o, k);
    var b := o.blocks[k];
    assert b <= s;
    assert n.mem[..s + 2][b + 1] == o.mem[..s + 2][b + 1];
  }

  lemma FreshBlock(w: Walker, n: Space, s: nat, ty: nat, size: nat, isArray: bool, count: nat, end: nat)
    requires var len := if isArray then ElementAt(size / WORD, count) else size / WORD;
      && Size(n, s) == len + PROLOG && s + Size(n, s) == end <= |n.mem| && n.mem[s] == 0
    requires var h := NewMemHeader(ty, size, isArray);
      n.mem[s + 2] == h && IsArray(h) == isArray && ElementSize(h) == size
    requires forall i: nat :: s + PROLOG <= i < end ==> n.mem[i] == if isArray && i == s + PROLOG then count else 0
    ensures BlockOk(w, n, s) && Head(n, s) == NewMemHeader(ty, size, isArray)
    ensures var len := if isArray then ElementAt(size / WORD, count) else size / WORD;
      |Data(n, s)| == len && forall q: nat {:trigger Data(n, s)[q]} :: q < len ==> Data(n, s)[q] == if isArray && q == 0 then count else 0
  {
    hide BlockOk, NewMemHeader, IsArray, ElementSize;
    ZeroBlockOk(w, n, s);
  }
}
