/** The collection itself: forward the roots, scan to-space, finalize what was left behind, swap the spaces. */
module Collector {
  import opened HeapModel
  import opened Cheney
  import opened CollectionResult
  import opened Forwarding

  /** The array whose elements are being scanned: the k-th copy, its header and its from-space data. */
  ghost predicate InArray(f: Forwarder, k: nat, s: nat, p: nat)
    reads f
  {
    && k < |f.c.order| && k < |f.c.starts| && k < |f.c.lim|
    && s == f.c.order[k] && p == f.c.starts[k] + PROLOG
    && IsArray(Head(f.o, s)) && WordsFit(Head(f.o, s), Data(f.o, s))
  }

  lemma StillInArray(f: Forwarder, k: nat, s: nat, p: nat, c: State)
    requires k < |c.order| && k < |c.starts| && c.order[k] == s && c.starts[k] + PROLOG == p
    requires IsArray(Head(f.o, s)) && WordsFit(Head(f.o, s), Data(f.o, s)) && ExtendsBut(c, f.c, k)
    ensures InArray(f, k, s, p)
  {
    hide Head, Data, WordsFit, IsArray, LimitsGrow;
  }

  method ScanElement(f: Forwarder, wk: Walker, p: nat, child: nat, ty: nat, ptrs: nat, ghost k: nat, ghost s: nat,
          ghost j: nat)
    returns (more: bool)
    requires f.Valid() && wk == f.w && InArray(f, k, s, p)
    requires ty == TypeId(Head(f.o, s)) && ptrs == ElementWords(Head(f.o, s)) && j < Data(f.o, s)[0]
    requires child == p + ElementAt(ptrs, j) && f.c.lim[k] == ElementAt(ptrs, j)
    requires ReachesElement(f.w, Head(f.o, s), Data(f.o, s), j)
    modifies f, f.from, f.to
    ensures f.Valid() && InArray(f, k, s, p) && ExtendsBut(old(f.c), f.c, k) && f.c.lim[k] == ElementAt(ptrs, j + 1)
    ensures more == ReachesElement(f.w, Head(f.o, s), Data(f.o, s), j + 1)
  {
    hide Inv, Stable, PointerIn, Reachable, WellFormed, LimitsGrow, Grows, Data, PointerWord, Element, ReachesElement,
      Head, ExtendsBut, ElementOf;
    ghost var e := Element(Head(f.o, s), Data(f.o, s), j);
    ElementIsElementOf(f.w, f.o, s, j);
    more := f.ProcessBlock(wk, child, ty, ptrs, k, ElementAt(ptrs, j), e);
    StillInArray(f, k, s, p, old(f.c));
    NextElement(f.w, Head(f.o, s), Data(f.o, s), j);
  }

  /** Scans the elements of an array block up to the first one whose walk ends with EndArray. */
  method ScanArray(f: Forwarder, wk: Walker, p: nat, ty: nat, size: nat, ghost k: nat, ghost s: nat)
    requires f.Valid() && wk == f.w && InArray(f, k, s, p) && f.c.lim[k] == 0
    requires ty == TypeId(Head(f.o, s)) && size == ElementSize(Head(f.o, s))
    modifies f, f.from, f.to
    ensures f.Valid() && ExtendsBut(old(f.c), f.c, k) && f.c.lim[k] == |Data(f.o, s)|
  {
    hide Inv, Stable, PointerIn, Reachable, WellFormed, LimitsGrow, Grows, Data, PointerWord, Element, ReachesElement,
      Head, ExtendsBut;
    var ptrs := size / 8;
    NextWord(f.w, f.o, f.toBase, f.roots, f.c, k, 0);
    var count := f.to[p];
    CountIsNoPointer(f.w, f.o, s);
    f.SkipOver(k, 1);
    StillInArray(f, k, s, p, old(f.c));
    ghost var j := 0;
    FirstElement(f.w, Head(f.o, s), Data(f.o, s));
    var child, end := p + 1, p + 1 + count * ptrs;
    ElementAtIsProduct(ptrs, count);
    while child < end
      invariant f.Valid() && InArray(f, k, s, p) && ExtendsBut(old(f.c), f.c, k)
      invariant j <= count && child == p + ElementAt(ptrs, j) && f.c.lim[k] == ElementAt(ptrs, j)
      invariant ReachesElement(f.w, Head(f.o, s), Data(f.o, s), j)
      decreases count - j
    {
      ghost var before := f.c;
      var more := ScanElement(f, wk, p, child, ty, ptrs, k, s, j);
      ExtendsTrans(old(f.c), before, f.c, k);
      j := j + 1;
      if !more {
        break;
      }
      child := child + ptrs;
    }
    if j < count {
      ElementFits(ptrs, j, count);
    }
    NoPointersAfter(f.w, f.o, s, j);
    ghost var before := f.c;
    LimitInBlock(f.w, f.o, s, j);
    f.SkipOver(k, |Data(f.o, s)|);
    ExtendsTrans(old(f.c), before, f.c, k);
  }

  lemma LimitInBlock(w: Walker, o: Space, s: nat, j: nat)
    requires IsArray(Head(o, s)) && WordsFit(Head(o, s), Data(o, s)) && j <= Data(o, s)[0]
    ensures ElementAt(ElementWords(Head(o, s)), j) <= |Data(o, s)|
  {
    if j < Data(o, s)[0] {
      ElementFits(ElementWords(Head(o, s)), j, Data(o, s)[0]);
    }
  }

  lemma CountIsNoPointer(w: Walker, o: Space, s: nat)
    requires IsArray(Head(o, s))
    ensures !PointerIn(w, o, s, 0)
  {
    if PointerIn(w, o, s, 0) {
      PointerWordInBlock(w, Head(o, s), Data(o, s), 0);
    }
  }

  lemma FirstElement(w: Walker, h: int, d: seq<int>)
    requires WordsFit(h, d) && IsArray(h)
    ensures ReachesElement(w, h, d, 0)
  {
  }

  lemma NextElement(w: Walker, h: int, d: seq<int>, j: nat)
    requires WordsFit(h, d) && IsArray(h) && j < d[0] && ReachesElement(w, h, d, j)
    ensures ReachesElement(w, h, d, j + 1) == !StopsArray(w, TypeId(h), Element(h, d, j))
  {
    hide StopsArray;
  }

  lemma ElementIsElementOf(w: Walker, o: Space, s: nat, j: nat)
    requires IsArray(Head(o, s)) && WordsFit(Head(o, s), Data(o, s)) && j < Data(o, s)[0]
    requires ReachesElement(w, Head(o, s), Data(o, s), j)
    ensures ElementOf(w, o, s, ElementAt(ElementWords(Head(o, s)), j), TypeId(Head(o, s)), Element(Head(o, s), Data(o, s), j))
  {
    hide ReachesElement, Head, Data, PointerWord, Visited;
    var h, d := Head(o, s), Data(o, s);
    var b, e := ElementAt(ElementWords(h), j), Element(h, d, j);
    ElementFits(ElementWords(h), j, d[0]);
    forall p: nat | p < |e|
      ensures PointerIn(w, o, s, b + p) <==> Visited(w, TypeId(h), e, p)
    {
      PointerWordInElement(w, h, d, j, p);
    }
  }

  lemma NoPointersAfter(w: Walker, o: Space, s: nat, j: nat)
    requires IsArray(Head(o, s)) && WordsFit(Head(o, s), Data(o, s))
    requires j >= Data(o, s)[0] || ElementWords(Head(o, s)) == 0 || !ReachesElement(w, Head(o, s), Data(o, s), j)
    ensures forall q: nat {:trigger PointerIn(w, o, s, q)} :: q >= ElementAt(ElementWords(Head(o, s)), j) ==> !PointerIn(w, o, s, q)
  {
    hide ReachesElement, Head, Data, PointerWord;
    forall q: nat | q >= ElementAt(ElementWords(Head(o, s)), j)
      ensures !PointerIn(w, o, s, q)
    {
      NoPointersPast(w, Head(o, s), Data(o, s), j, q);
    }
  }

  /** Scans the copy whose user pointer is word `ptr` of to-space. */
  method ScanBlock(f: Forwarder, wk: Walker, ptr: nat, ghost k: nat, ghost s: nat)
    requires f.Valid() && wk == f.w && k < |f.c.order| && k < |f.c.starts| && k < |f.c.lim| && f.c.lim[k] == 0
    requires s == f.c.order[k] && ptr == f.c.starts[k] + PROLOG
    modifies f, f.from, f.to
    ensures f.Valid() && ExtendsBut(old(f.c), f.c, k) && f.c.lim[k] == |Data(f.o, s)|
  {
    hide Inv, Stable, PointerIn, Reachable, WellFormed, LimitsGrow, Grows, Data, PointerWord, Head, ExtendsBut,
      ElementOf;
    CopyHeader(f.w, f.o, f.toBase, f.roots, f.c, k);
    var gcHeader := f.to[ptr - 1];
    var ty := TypeId(gcHeader);
    var size := ElementSize(gcHeader);
    if IsArray(gcHeader) {
      ScanArray(f, wk, ptr, ty, size, k, s);
    } else {
      PlainElement(f.w, f.o, s);
      var more := f.ProcessBlock(wk, ptr, ty, size / 8, k, 0, Data(f.o, s)[..size / 8]);
      ghost var before := f.c;
      LimitStays(old(f.c), before, k);
      f.SkipOver(k, |Data(f.o, s)|);
      ExtendsTrans(old(f.c), before, f.c, k);
    }
  }

  lemma LimitStays(a: State, b: State, k: nat)
    requires ExtendsBut(a, b, k)
    ensures k < |a.order| && k < |b.order| && k < |b.starts| && k < |b.lim| && b.order[k] == a.order[k]
  {
  }

  lemma CopyHeader(w: Walker, o: Space, tb: nat, roots: seq<int>, c: State, k: nat)
    requires Inv(w, o, tb, roots, c) && WellFormed(w, o) && k < |c.order|
    ensures c.starts[k] + PROLOG <= |c.to| && c.to[c.starts[k] + 1] == Size(o, c.order[k])
    ensures c.to[c.starts[k] + 2] == Head(o, c.order[k])
    ensures WordsFit(Head(o, c.order[k]), Data(o, c.order[k]))
  {
    hide Bounded, AllReachable, Layout, FromOk, CopyWord, PointerIn, WordsFit;
    CopyAt(w, o, tb, c, k);
    assert BlockOk(w, o, c.order[k]);
  }

  lemma PlainElement(w: Walker, o: Space, s: nat)
    requires !IsArray(Head(o, s)) && WordsFit(Head(o, s), Data(o, s))
    ensures ElementWords(Head(o, s)) <= |Data(o, s)|
    ensures ElementOf(w, o, s, 0, TypeId(Head(o, s)), Data(o, s)[..ElementWords(Head(o, s))])
    ensures forall q: nat {:trigger PointerIn(w, o, s, q)} :: q >= ElementWords(Head(o, s)) ==> !PointerIn(w, o, s, q)
  {
    hide Data, Head;
    var h, d := Head(o, s), Data(o, s);
    var e := d[..ElementWords(h)];
    assert e == d[0..0 + |e|];
    forall p: nat | p < |e|
      ensures PointerIn(w, o, s, 0 + p) <==> Visited(w, TypeId(h), e, p)
    {
    }
  }

  /** Copies before the k-th are scanned to their ends, the others not at all. */
  ghost predicate ScannedTo(o: Space, c: State, k: nat) {
    && |c.lim| == |c.order| == |c.starts| && k <= |c.order|
    && forall i: nat {:trigger c.lim[i]} :: i < |c.order| ==> c.lim[i] == if i < k then |Data(o, c.order[i])| else 0
  }

  lemma ScannedOneMore(o: Space, a: State, c: State, k: nat)
    requires ScannedTo(o, a, k) && ExtendsBut(a, c, k) && c.lim[k] == |Data(o, a.order[k])|
    ensures ScannedTo(o, c, k + 1)
  {
    hide Data;
    forall i: nat {:trigger c.lim[i]} | i < |c.order|
      ensures c.lim[i] == if i < k + 1 then |Data(o, c.order[i])| else 0
    {
      if i != k {
        assert c.lim[k := a.lim[k]][i] == c.lim[i];
        if i < |a.lim| {
          assert a.lim[i] == c.lim[i];
        }
      }
    }
  }

  /** Word k of to-space's block list: where the scan stands. */
  ghost function ScanAt(c: State, k: nat): nat {
    if k < |c.starts| then c.starts[k] else c.target
  }

  lemma ScanMoves(w: Walker, o: Space, tb: nat, roots: seq<int>, a: State, c: State, k: nat)
    requires Inv(w, o, tb, roots, c) && ExtendsBut(a, c, k) && k < |a.starts|
    ensures a.starts[k] + 1 < |c.to|
    ensures k < |c.starts| && c.starts[k] == a.starts[k] && c.starts[k] + Size(o, c.order[k]) == ScanAt(c, k + 1)
    ensures c.to[c.starts[k] + 1] == Size(o, c.order[k])
    ensures c.starts[k] < c.target <= o.end
  {
    hide FromOk, AllReachable, PointerIn, CopyWord, Size, Head, Data, LimitsGrow;
    assert Contiguous(ToSpace(tb, c), k);
    CopySize(w, o, tb, roots, c, k);
    CopyAt(w, o, tb, c, k);
  }

  lemma TargetBound(w: Walker, o: Space, tb: nat, roots: seq<int>, c: State, k: nat)
    requires Inv(w, o, tb, roots, c) && k <= |c.order|
    ensures c.target <= o.end && (k < |c.starts| <==> ScanAt(c, k) < c.target)
    ensures k < |c.starts| ==> k < |c.order| && k < |c.lim|
  {
    hide FromOk, AllReachable, Copies, Size;
    if k < |c.starts| {
      assert Contiguous(ToSpace(tb, c), k);
      if k + 1 < |c.starts| {
        assert Contiguous(ToSpace(tb, c), k + 1);
        LastStart(ToSpace(tb, c), k + 1);
      }
    }
  }

  lemma LastStart(sp: Space, k: nat)
    requires Layout(sp) && k < |sp.blocks|
    ensures sp.blocks[k] < sp.end
  {
    hide Contiguous;
    assert Contiguous(sp, |sp.blocks| - 1);
    BlockInside(sp, |sp.blocks| - 1);
  }

  lemma BlockInside(sp: Space, k: nat)
    requires Layout(sp) && Contiguous(sp, k)
    ensures sp.blocks[k] + Size(sp, sp.blocks[k]) <= sp.end
  {
  }

  /** Forwards every walked root slot, in the order the root walkers return them. */
  method ForwardRoots(f: Forwarder, slots: array<int>, walked: seq<nat>)
    requires f.Valid() && slots != f.from && slots != f.to && f.c.order == []
    requires forall i: nat :: i < |walked| ==> walked[i] < slots.Length && IsUser(f.o, slots[walked[i]])
    requires forall i: nat, j: nat :: i < j < |walked| ==> walked[i] != walked[j]
    requires forall i: nat :: i < |walked| ==> slots[walked[i]] in f.roots
    modifies f, f.from, f.to, slots
    ensures f.Valid() && ScannedTo(f.o, f.c, 0)
    ensures forall i: nat :: i < |walked| ==> Settled(f.o, f.c.fwd, old(slots[walked[i]]))
    ensures forall j: nat :: j < slots.Length ==>
      slots[j] == if j in walked then Forwarded(f.o, f.toBase, f.c.fwd, old(slots[j])) else old(slots[j])
  {
    hide Inv, Stable, PointerIn, Reachable, WellFormed, LimitsGrow, Grows, Data, Forwarded, Settled, IsUser;
    ExtendsItself(f.w, f.o, f.toBase, f.roots, f.c);
    for i := 0 to |walked|
      invariant f.Valid() && Extends(old(f.c), f.c)
      invariant forall m: nat {:trigger walked[m]} :: m < i ==> Settled(f.o, f.c.fwd, old(slots[walked[m]]))
      invariant forall m: nat {:trigger walked[m]} :: m < i ==>
        slots[walked[m]] == Forwarded(f.o, f.toBase, f.c.fwd, old(slots[walked[m]]))
      invariant forall j: nat :: j < slots.Length && j !in walked[..i] ==> slots[j] == old(slots[j])
    {
      ghost var before := f.c;
      var ptr := slots[walked[i]];
      RootIsReachable(f.w, f.o, f.roots, ptr);
      var r := f.Forward(ptr);
      slots[walked[i]] := r;
      ExtendsExtends(old(f.c), before, f.c);
      forall m: nat | m < i
        ensures Settled(f.o, f.c.fwd, old(slots[walked[m]]))
          && Forwarded(f.o, f.toBase, f.c.fwd, old(slots[walked[m]])) == Forwarded(f.o, f.toBase, before.fwd, old(slots[walked[m]]))
      {
        SettledStays(f.o, f.toBase, before, f.c, old(slots[walked[m]]));
      }
      NowSettled(f.o, f.c.fwd, ptr);
    }
    NothingScanned(f.o, old(f.c), f.c);
    assert walked[..|walked|] == walked;
  }

  lemma RootIsReachable(w: Walker, o: Space, roots: seq<int>, v: int)
    requires IsUser(o, v) && v in roots
    ensures v - o.base - PROLOG >= 0 && Reachable(w, o, roots, v - o.base - PROLOG)
  {
    hide Reachable;
    RootReachable(w, o, roots, v - o.base - PROLOG);
  }

  lemma ExtendsExtends(a: State, b: State, c: State)
    requires Extends(a, b) && Extends(b, c)
    ensures Extends(a, c)
  {
  }

  lemma SettledStays(o: Space, tb: nat, a: State, b: State, v: int)
    requires Extends(a, b) && Settled(o, a.fwd, v)
    ensures Settled(o, b.fwd, v) && Forwarded(o, tb, b.fwd, v) == Forwarded(o, tb, a.fwd, v)
  {
  }

  lemma NowSettled(o: Space, fwd: map<nat, nat>, v: int)
    requires IsUser(o, v) && v - o.base - PROLOG in fwd
    ensures Settled(o, fwd, v)
  {
  }

  lemma NothingScanned(o: Space, a: State, c: State)
    requires a.order == [] && Extends(a, c)
    ensures ScannedTo(o, c, 0)
  {
  }

  /** Walks to-space until the scan catches up with the forwarder. */
  method ScanToSpace(f: Forwarder, wk: Walker)
    requires f.Valid() && wk == f.w && ScannedTo(f.o, f.c, 0)
    modifies f, f.from, f.to
    ensures f.Valid() && Scanned(f.o, f.c) && Grows(old(f.c), f.c)
  {
    hide Inv, Stable, PointerIn, Reachable, WellFormed, LimitsGrow, Grows, Data, Head, Size, ScannedTo, ScanAt,
      ExtendsBut;
    var ptr := 0;
    ghost var k := 0;
    ScanStart(f.w, f.o, f.toBase, f.roots, f.c);
    while ptr < f.target
      invariant f.Valid() && ScannedTo(f.o, f.c, k) && ptr == ScanAt(f.c, k) && Grows(old(f.c), f.c)
      decreases f.o.end - ptr
    {
      ghost var before := f.c;
      ScanBounds(f.o, f.c, k);
      TargetBound(f.w, f.o, f.toBase, f.roots, f.c, k);
      ScanHere(f.o, f.c, k);
      ScanBlock(f, wk, ptr + PROLOG, k, f.c.order[k]);
      ScannedOneMore(f.o, before, f.c, k);
      ScanMoves(f.w, f.o, f.toBase, f.roots, before, f.c, k);
      GrowsOn(old(f.c), before, f.c, k);
      ptr := ptr + f.to[ptr + 1];
      k := k + 1;
    }
    ScanBounds(f.o, f.c, k);
    TargetBound(f.w, f.o, f.toBase, f.roots, f.c, k);
    AllScanned(f.o, f.c, k);
  }

  lemma ScanStart(w: Walker, o: Space, tb: nat, roots: seq<int>, c: State)
    requires Inv(w, o, tb, roots, c)
    ensures ScanAt(c, 0) == 0 && Grows(c, c)
  {
    hide FromOk, AllReachable, Copies, Size;
    if |c.starts| > 0 {
      assert Contiguous(ToSpace(tb, c), 0);
    }
  }

  lemma ScanBounds(o: Space, c: State, k: nat)
    requires ScannedTo(o, c, k)
    ensures k <= |c.order|
  {
  }

  lemma ScanHere(o: Space, c: State, k: nat)
    requires ScannedTo(o, c, k) && k < |c.order| && k < |c.starts|
    ensures k < |c.lim| && c.lim[k] == 0 && ScanAt(c, k) == c.starts[k]
  {
  }

  lemma GrowsOn(a: State, b: State, c: State, k: nat)
    requires Grows(a, b) && ExtendsBut(b, c, k)
    ensures Grows(a, c)
  {
  }

  lemma AllScanned(o: Space, c: State, k: nat)
    requires ScannedTo(o, c, k) && k >= |c.starts|
    ensures Scanned(o, c)
  {
  }
}
