/** The sweep over from-space that finalizes what was not forwarded. */
module Finalizer {
  import opened HeapModel
  import opened Cheney
  import opened Forwarding

  /** A call of the walker's finalizer: the type and the user pointer it was given. */
  datatype Call = Call(ty: nat, ptr: int)

  /** The finalizer calls the objects in block `s` are owed. */
  ghost function Owed(w: Walker, o: Space, s: nat): seq<Call> {
    var h, ty := Head(o, s), TypeId(Head(o, s));
    var user := o.base + s + PROLOG;
    if !w.finalizable(ty) then []
    else if !IsArray(h) then [Call(ty, user)]
    else if |Data(o, s)| > 0 && Data(o, s)[0] >= 0 && ElementWords(h) > 0 then
      seq(Data(o, s)[0] as nat, (j: nat) => Call(ty, user + ElementAt(ElementWords(h), j)))
    else []
  }

  /** What is owed for the blocks from the k-th on that are not in `kept`. */
  ghost function OwedFrom(w: Walker, o: Space, k: nat, kept: set<nat>): seq<Call>
    decreases |o.blocks| - k
  {
    if k >= |o.blocks| then []
    else (if o.blocks[k] in kept then [] else Owed(w, o, o.blocks[k])) + OwedFrom(w, o, k + 1, kept)
  }

  // ---- Exactly the blocks left behind, each object once ----

  lemma {:induction false} OwedFromIs(w: Walker, o: Space, k: nat, kept: set<nat>, e: Call)
    ensures e in OwedFrom(w, o, k, kept)
      <==> exists i: nat :: k <= i < |o.blocks| && o.blocks[i] !in kept && e in Owed(w, o, o.blocks[i])
    decreases |o.blocks| - k
  {
    hide Owed;
    if k < |o.blocks| {
      OwedFromIs(w, o, k + 1, kept, e);
    }
  }

  lemma OwedInside(w: Walker, o: Space, s: nat, i: nat)
    requires WordsFit(Head(o, s), Data(o, s)) && i < |Owed(w, o, s)| && |Data(o, s)| == Size(o, s) - PROLOG
    ensures o.base + s + PROLOG <= Owed(w, o, s)[i].ptr <= o.base + s + Size(o, s)
    ensures forall j: nat :: i < j < |Owed(w, o, s)| ==> Owed(w, o, s)[i].ptr < Owed(w, o, s)[j].ptr
  {
    hide Data, Head, Size;
    var h, d := Head(o, s), Data(o, s);
    if IsArray(h) {
      ElementFits(ElementWords(h), i, d[0]);
      forall j: nat | i < j < |Owed(w, o, s)|
        ensures Owed(w, o, s)[i].ptr < Owed(w, o, s)[j].ptr
      {
        ElementFits(ElementWords(h), i, j);
      }
    }
  }

  ghost predicate Increasing(calls: seq<Call>) {
    forall i: nat, j: nat :: i < j < |calls| ==> calls[i].ptr < calls[j].ptr
  }

  /** The calls go through the blocks upwards, so no object is finalized twice. */
  lemma {:induction false} OwedIncreasing(w: Walker, o: Space, k: nat, kept: set<nat>)
    requires WellFormed(w, o)
    ensures Increasing(OwedFrom(w, o, k, kept))
    ensures forall i: nat :: k < |o.blocks| && i < |OwedFrom(w, o, k, kept)| ==> OwedFrom(w, o, k, kept)[i].ptr >= o.base + o.blocks[k] + PROLOG
    decreases |o.blocks| - k
  {
    hide Owed, PointerIn, IsUser;
    if k < |o.blocks| {
      var s := o.blocks[k];
      OwedIncreasing(w, o, k + 1, kept);
      OwedInBlock(w, o, k);
      var here, rest := if s in kept then [] else Owed(w, o, s), OwedFrom(w, o, k + 1, kept);
      if k + 1 < |o.blocks| {
        assert o.blocks[k] + Size(o, s) <= o.blocks[k + 1];
      }
      IncreasingJoin(here, rest, o.base + s + Size(o, s));
    }
  }

  lemma IncreasingJoin(a: seq<Call>, b: seq<Call>, mid: int)
    requires Increasing(a) && Increasing(b)
    requires forall i: nat :: i < |a| ==> a[i].ptr <= mid
    requires forall i: nat :: i < |b| ==> b[i].ptr > mid
    ensures Increasing(a + b)
  {
  }

  lemma OwedInBlock(w: Walker, o: Space, k: nat)
    requires WellFormed(w, o) && k < |o.blocks|
    ensures Increasing(Owed(w, o, o.blocks[k]))
    ensures forall i: nat :: i < |Owed(w, o, o.blocks[k])| ==>
      o.base + o.blocks[k] + PROLOG <= Owed(w, o, o.blocks[k])[i].ptr <= o.base + o.blocks[k] + Size(o, o.blocks[k])
  {
    hide Owed, PointerIn, WordsFit;
    var s := o.blocks[k];
    assert Contiguous(o, k);
    assert BlockOk(w, o, s);
    assert |Data(o, s)| == Size(o, s) - PROLOG;
    forall i: nat | i < |Owed(w, o, s)|
      ensures o.base + s + PROLOG <= Owed(w, o, s)[i].ptr <= o.base + s + Size(o, s)
      ensures forall j: nat :: i < j < |Owed(w, o, s)| ==> Owed(w, o, s)[i].ptr < Owed(w, o, s)[j].ptr
    {
      OwedInside(w, o, s, i);
    }
  }

  /** The sweep's calls are owed to exactly the blocks that are not kept, and every call is made once. */
  lemma FinalizesExactly(w: Walker, o: Space, kept: set<nat>, e: Call)
    requires WellFormed(w, o)
    ensures multiset(OwedFrom(w, o, 0, kept))[e] == if exists s: nat :: s in o.blocks && s !in kept && e in Owed(w, o, s) then 1 else 0
  {
    hide Owed, WellFormed;
    var calls := OwedFrom(w, o, 0, kept);
    OwedFromIs(w, o, 0, kept, e);
    OwedIncreasing(w, o, 0, kept);
    IncreasingOnce(calls, e);
    if e in calls {
      var i: nat :| i < |o.blocks| && o.blocks[i] !in kept && e in Owed(w, o, o.blocks[i]);
      assert o.blocks[i] in o.blocks;
    }
  }

  lemma {:induction false} IncreasingOnce(calls: seq<Call>, e: Call)
    requires Increasing(calls)
    ensures multiset(calls)[e] == if e in calls then 1 else 0
  {
    if calls != [] {
      var rest := calls[1..];
      assert calls == [calls[0]] + rest;
      IncreasingOnce(rest, e);
      if e in rest {
        var i: nat :| i < |rest| && rest[i] == e;
        assert calls[i + 1] == e;
      }
    }
  }

  // ---- The sweep ----

  method FinalizeArray(wk: Walker, ty: nat, ptr: int, count: nat, size: nat, log: seq<Call>) returns (log': seq<Call>)
    ensures log' == log + if wk.finalizable(ty) && size / 8 > 0 then seq(count, (j: nat) => Call(ty, ptr + ElementAt(size / 8, j))) else []
  {
    var words := size / 8;
    var child, end := ptr + 1, ptr + 1 + count * words;
    ElementAtIsProduct(words, count);
    log' := log;
    var index := 0;
    while child < end
      invariant index <= count && child == ptr + ElementAt(words, index)
      invariant log' == log + seq(index, (j: nat) => Call(ty, ptr + ElementAt(words, j)))
      invariant words == 0 ==> index == 0
      invariant index > 0 ==> wk.finalizable(ty)
      decreases count - index
    {
      if !wk.finalizable(ty) {
        break;
      }
      log' := log' + [Call(ty, child)];
      child := child + words;
      index := index + 1;
    }
    if index < count && words > 0 && wk.finalizable(ty) {
      ElementFits(words, index, count);
    }
  }

  method FinalizeBlock(f: Forwarder, wk: Walker, ptr: nat, ghost s: nat, log: seq<Call>) returns (log': seq<Call>)
    requires f.Valid() && wk == f.w && s in f.o.blocks && ptr == s + PROLOG
    ensures log' == log + Owed(f.w, f.o, s)
  {
    hide Inv, Stable, PointerIn, Reachable, IsUser, Layout;
    BlockHeader(f.w, f.o, f.toBase, f.roots, f.c, s);
    var gcHeader := f.from[ptr - 1];
    var ty := TypeId(gcHeader);
    var size := ElementSize(gcHeader);
    var user := f.fromBase + ptr;
    if IsArray(gcHeader) {
      log' := FinalizeArray(wk, ty, user, f.from[ptr], size, log);
    } else if wk.finalizable(ty) {
      log' := log + [Call(ty, user)];
    } else {
      log' := log;
    }
  }

  lemma BlockHeader(w: Walker, o: Space, tb: nat, roots: seq<int>, c: State, s: nat)
    requires Inv(w, o, tb, roots, c) && WellFormed(w, o) && s in o.blocks
    ensures s + PROLOG <= |c.from| && c.from[s + 1] == Size(o, s) && c.from[s + 2] == Head(o, s)
    ensures WordsFit(Head(o, s), Data(o, s)) && c.from[s] == if s in c.fwd then tb + c.fwd[s] else 0
    ensures IsArray(Head(o, s)) ==> s + PROLOG < |c.from| && c.from[s + PROLOG] == Data(o, s)[0]
  {
    hide Copies, AllReachable, Bounded, PointerIn, IsUser;
    BlockWords(w, o, tb, roots, c, s);
    assert BlockOk(w, o, s);
    var kept := o.mem[s + 1..s + Size(o, s)];
    assert c.from[s + 1..s + Size(o, s)] == kept;
    if IsArray(Head(o, s)) {
      assert kept[2] == Data(o, s)[0];
    }
  }

  /** Finalizes the from-space blocks whose forwarding pointer is still null. */
  method Sweep(f: Forwarder, wk: Walker, offset: nat) returns (log: seq<Call>)
    requires f.Valid() && wk == f.w && offset == f.o.end
    ensures log == OwedFrom(f.w, f.o, 0, f.c.fwd.Keys)
  {
    hide Inv, Stable, PointerIn, Reachable, IsUser, Size, Owed, WellFormed, Next;
    log := [];
    var ptr := 0;
    ghost var k := 0;
    SweepAt(f.w, f.o, 0);
    while ptr < offset
      invariant k <= |f.o.blocks| && ptr == Next(f.o, k - 1)
      invariant log + OwedFrom(f.w, f.o, k, f.c.fwd.Keys) == OwedFrom(f.w, f.o, 0, f.c.fwd.Keys)
      decreases offset - ptr
    {
      SweepAt(f.w, f.o, k);
      BlockHeader(f.w, f.o, f.toBase, f.roots, f.c, ptr);
      if f.from[ptr] == 0 {
        NotForwarded(f, ptr);
        log := FinalizeBlock(f, wk, ptr + PROLOG, ptr, log);
      }
      ptr := ptr + f.from[ptr + 1];
      k := k + 1;
    }
    SweepAt(f.w, f.o, k);
    assert OwedFrom(f.w, f.o, k, f.c.fwd.Keys) == [];
  }

  lemma NotForwarded(f: Forwarder, s: nat)
    requires f.Valid() && s < |f.c.from| && f.c.from[s] == if s in f.c.fwd then f.toBase + f.c.fwd[s] else 0
    ensures f.from[s] == 0 <==> s !in f.c.fwd
  {
    hide Inv, WellFormed, Stable;
  }

  /** Where the sweep stands before the k-th block. */
  lemma SweepAt(w: Walker, o: Space, k: nat)
    requires WellFormed(w, o) && k <= |o.blocks|
    ensures Next(o, k - 1) < o.end <==> k < |o.blocks|
    ensures k < |o.blocks| ==> Next(o, k - 1) == o.blocks[k] && o.blocks[k] + Size(o, o.blocks[k]) == Next(o, k) <= o.end
    ensures Next(o, -1) == 0
  {
    hide BlockOk;
    if k < |o.blocks| {
      assert Contiguous(o, k);
    }
  }
}
