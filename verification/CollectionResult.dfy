/** What a finished collection means: the new space is the reachable part of the old one, renamed. */
module CollectionResult {
  import opened HeapModel
  import opened Cheney

  /** Space `n` is the part of space `o` that is reachable from `roots`, moved by `fwd`: block for block, word for
      word, each block exactly once, and nothing else. */
  ghost predicate Renamed(w: Walker, o: Space, roots: seq<int>, n: Space, fwd: map<nat, nat>) {
    && (forall s: nat :: s in fwd <==> s in o.blocks && Reachable(w, o, roots, s))
    && (forall s: nat, t: nat :: s in fwd && t in fwd && fwd[s] == fwd[t] ==> s == t)
    && (forall t: nat :: t in n.blocks ==> exists s: nat :: s in fwd && fwd[s] == t)
    && (forall s: nat :: s in fwd ==> SameBlock(w, o, s, n, fwd))
  }

  /** The copy of block `s`: same size, same header, same plain words, and pointer words renamed. */
  ghost predicate SameBlock(w: Walker, o: Space, s: nat, n: Space, fwd: map<nat, nat>) {
    && s in fwd && fwd[s] in n.blocks
    && Size(n, fwd[s]) == Size(o, s) && Head(n, fwd[s]) == Head(o, s) && |Data(n, fwd[s])| == |Data(o, s)|
    && forall q: nat {:trigger Data(o, s)[q]} {:trigger PointerIn(w, o, s, q)} {:trigger PointerIn(w, n, fwd[s], q)} ::
         q < |Data(o, s)| ==>
           && (PointerIn(w, n, fwd[s], q) <==> PointerIn(w, o, s, q))
           && Data(n, fwd[s])[q] == (if PointerIn(w, o, s, q) then Forwarded(o, n.base, fwd, Data(o, s)[q]) else Data(o, s)[q])
           && (PointerIn(w, o, s, q) ==> Settled(o, fwd, Data(o, s)[q]))
  }

  // ---- Overwriting pointer words does not change which words are pointer words ----

  lemma SameVisits(w: Walker, ty: nat, e: seq<int>, e': seq<int>)
    requires |e| == |e'| && SameWalk(w, ty, e, e')
    ensures forall p: nat :: Visited(w, ty, e, p) <==> Visited(w, ty, e', p)
    ensures StopsArray(w, ty, e) == StopsArray(w, ty, e')
  {
    forall k: nat | k < |e|
      ensures Reaches(w, ty, e, k) == Reaches(w, ty, e', k)
    {
    }
  }

  ghost predicate PointersOverwritten(w: Walker, h: int, d: seq<int>, d': seq<int>) {
    WordsFit(h, d) && |d| == |d'| && forall q: nat {:trigger d[q]} {:trigger d'[q]} :: q < |d| && d[q] != d'[q] ==> PointerWord(w, h, d, q)
  }

  lemma OverwrittenFits(w: Walker, h: int, d: seq<int>, d': seq<int>)
    requires PointersOverwritten(w, h, d, d')
    ensures WordsFit(h, d) && WordsFit(h, d') && (IsArray(h) ==> d'[0] == d[0])
  {
    hide PointerWord;
    if IsArray(h) && d[0] != d'[0] {
      PointerWordInBlock(w, h, d, 0);
    }
  }

  lemma SameElementWalk(w: Walker, h: int, d: seq<int>, d': seq<int>, j: nat)
    requires Stable(w) && PointersOverwritten(w, h, d, d') && IsArray(h) && j < d[0] && WordsFit(h, d') && d'[0] == d[0]
    ensures var e, e' := Element(h, d, j), Element(h, d', j);
      && (forall p: nat :: Visited(w, TypeId(h), e, p) <==> Visited(w, TypeId(h), e', p))
      && StopsArray(w, TypeId(h), e) == StopsArray(w, TypeId(h), e')
  {
    hide PointerWord, StopsArray, ReachesElement;
    var e, e', b := Element(h, d, j), Element(h, d', j), ElementAt(ElementWords(h), j);
    ElementFits(ElementWords(h), j, d[0]);
    forall p: nat | p < |e| && e[p] != e'[p]
      ensures w.walk(TypeId(h), e, p) == Pointer
    {
      assert d[b + p] != d'[b + p];
      PointerWordInElement(w, h, d, j, p);
    }
    assert PointerDiff(w, TypeId(h), e, e');
    SameVisits(w, TypeId(h), e, e');
  }

  lemma SamePointerWords(w: Walker, h: int, d: seq<int>, d': seq<int>, q: nat)
    requires Stable(w) && PointersOverwritten(w, h, d, d')
    ensures WordsFit(h, d') && (PointerWord(w, h, d', q) <==> PointerWord(w, h, d, q))
  {
    hide Visited, StopsArray, Stable, PointersOverwritten;
    OverwrittenFits(w, h, d, d');
    if IsArray(h) {
      forall j: nat | j < d[0]
        ensures StopsArray(w, TypeId(h), Element(h, d, j)) == StopsArray(w, TypeId(h), Element(h, d', j))
        ensures forall p: nat :: Visited(w, TypeId(h), Element(h, d, j), p) <==> Visited(w, TypeId(h), Element(h, d', j), p)
      {
        SameElementWalk(w, h, d, d', j);
      }
      SameReach(w, h, d, d');
    } else {
      SamePlainWalk(w, h, d, d', q);
    }
  }

  lemma SameReach(w: Walker, h: int, d: seq<int>, d': seq<int>)
    requires WordsFit(h, d) && WordsFit(h, d') && IsArray(h) && d[0] == d'[0]
    requires forall j: nat {:trigger Element(h, d, j)} {:trigger Element(h, d', j)} :: j < d[0] ==>
      StopsArray(w, TypeId(h), Element(h, d, j)) == StopsArray(w, TypeId(h), Element(h, d', j))
    ensures forall j: nat :: ReachesElement(w, h, d, j) == ReachesElement(w, h, d', j)
  {
    hide StopsArray;
  }

  lemma SamePlainWalk(w: Walker, h: int, d: seq<int>, d': seq<int>, q: nat)
    requires Stable(w) && PointersOverwritten(w, h, d, d') && !IsArray(h) && WordsFit(h, d')
    ensures PointerWord(w, h, d', q) <==> PointerWord(w, h, d, q)
  {
    var e, e' := d[..ElementWords(h)], d'[..ElementWords(h)];
    forall p: nat | p < |e| && e[p] != e'[p]
      ensures w.walk(TypeId(h), e, p) == Pointer
    {
      assert d[p] != d'[p];
    }
    assert PointerDiff(w, TypeId(h), e, e');
    SameVisits(w, TypeId(h), e, e');
  }

  // ---- A finished collection ----

  /** Every copy has been scanned to its end. */
  ghost predicate Scanned(o: Space, c: State) {
    |c.lim| == |c.order| && forall k: nat {:trigger c.order[k]} {:trigger c.lim[k]} :: k < |c.order| ==> c.lim[k] == |Data(o, c.order[k])|
  }

  lemma CopyIsSameBlock(w: Walker, o: Space, tb: nat, roots: seq<int>, c: State, k: nat)
    requires Stable(w) && WellFormed(w, o) && Inv(w, o, tb, roots, c) && Scanned(o, c) && k < |c.order|
    ensures SameBlock(w, o, c.order[k], ToSpace(tb, c), c.fwd)
    ensures BlockOk(w, ToSpace(tb, c), c.starts[k])
  {
    hide Copies, AllReachable, Bounded, Layout, FromOk, Settled, PointerIn, PointerWord, Forwarded, Reachable,
      WordsFit, Stable;
    var s, t, n := c.order[k], c.starts[k], ToSpace(tb, c);
    assert BlockAt(w, o, tb, c.to, c.fwd, s, t, c.lim[k]) by {
      assert c.lim[k] == c.lim[k];
      assert Copies(w, o, tb, c);
      CopyAt(w, o, tb, c, k);
    }
    assert BlockOk(w, o, s);
    CopyData(w, o, tb, c.to, c.fwd, s, t, c.starts, c.target);
    FinishedBlock(w, o, s, n, c.fwd);
    CopyPointsIn(w, o, tb, roots, c, k);
  }

  lemma CopyAt(w: Walker, o: Space, tb: nat, c: State, k: nat)
    requires Orders(o, c) && Copies(w, o, tb, c) && k < |c.order|
    ensures BlockAt(w, o, tb, c.to, c.fwd, c.order[k], c.starts[k], c.lim[k])
  {
    hide BlockAt;
    assert c.order[k] == c.order[k];
  }

  /** The words of a fully scanned copy, read as a block of the new space. */
  lemma CopyData(w: Walker, o: Space, tb: nat, to: seq<int>, fwd: map<nat, nat>, s: nat, t: nat, starts: seq<nat>,
          target: nat)
    requires BlockAt(w, o, tb, to, fwd, s, t, |Data(o, s)|) && t in starts && s in fwd && fwd[s] == t
    ensures var n := Space(tb, to, starts, target);
      && Size(n, t) == Size(o, s) && Head(n, t) == Head(o, s) && |Data(n, t)| == |Data(o, s)| && t < |to| && to[t] == 0
      && forall q: nat {:trigger Data(o, s)[q]} {:trigger Data(n, t)[q]} :: q < |Data(o, s)| ==>
           Data(n, t)[q] == CopyWord(w, o, tb, fwd, s, |Data(o, s)|, q)
  {
    hide PointerIn, Settled, CopyWord;
    var n := Space(tb, to, starts, target);
    assert Size(n, t) == Size(o, s);
    forall q: nat {:trigger Data(o, s)[q]} | q < |Data(o, s)|
      ensures Data(n, t)[q] == to[t + PROLOG + q]
    {
    }
  }

  lemma FinishedBlock(w: Walker, o: Space, s: nat, n: Space, fwd: map<nat, nat>)
    requires Stable(w) && s in fwd && fwd[s] in n.blocks && WordsFit(Head(o, s), Data(o, s))
    requires Size(n, fwd[s]) == Size(o, s) && Head(n, fwd[s]) == Head(o, s) && |Data(n, fwd[s])| == |Data(o, s)|
    requires forall q: nat {:trigger Data(o, s)[q]} {:trigger Data(n, fwd[s])[q]} :: q < |Data(o, s)| ==>
      Data(n, fwd[s])[q] == CopyWord(w, o, n.base, fwd, s, |Data(o, s)|, q)
    requires forall q: nat {:trigger PointerIn(w, o, s, q)} :: q < |Data(o, s)| && PointerIn(w, o, s, q) ==> Settled(o, fwd, Data(o, s)[q])
    ensures SameBlock(w, o, s, n, fwd) && WordsFit(Head(n, fwd[s]), Data(n, fwd[s]))
  {
    hide PointerWord, Forwarded, Settled, Stable, Data, Head, Size, WordsFit;
    var h, d, d' := Head(o, s), Data(o, s), Data(n, fwd[s]);
    assert PointersOverwritten(w, h, d, d');
    OverwrittenFits(w, h, d, d');
    forall q: nat
      ensures WordsFit(h, d') && (PointerWord(w, h, d', q) <==> PointerWord(w, h, d, q))
    {
      SamePointerWords(w, h, d, d', q);
    }
  }

  /** The pointer words of a copy point to copies. */
  lemma CopyPointsIn(w: Walker, o: Space, tb: nat, roots: seq<int>, c: State, k: nat)
    requires Inv(w, o, tb, roots, c) && k < |c.order| && SameBlock(w, o, c.order[k], ToSpace(tb, c), c.fwd)
    requires WordsFit(Head(ToSpace(tb, c), c.starts[k]), Data(ToSpace(tb, c), c.starts[k]))
    requires c.starts[k] < |c.to| && c.to[c.starts[k]] == 0
    ensures BlockOk(w, ToSpace(tb, c), c.starts[k])
  {
    hide Copies, AllReachable, Bounded, Layout, FromOk, PointerIn, Reachable, WordsFit, Data, Head, Size;
    var n, s, t := ToSpace(tb, c), c.order[k], c.starts[k];
    forall q: nat | PointerIn(w, n, t, q)
      ensures q < |Data(n, t)| && (Data(n, t)[q] == 0 || IsUser(n, Data(n, t)[q]))
    {
      PointerInData(w, n, t, q);
      assert PointerIn(w, o, s, q);
      var v := Data(o, s)[q];
      if v != 0 {
        var r := v - o.base - PROLOG;
        var i: nat :| i < |c.order| && c.order[i] == r;
        assert c.starts[i] in n.blocks;
      } else {
        ZeroStaysZero(o, n.base, c.fwd);
      }
    }
  }

  lemma PointerInData(w: Walker, o: Space, s: nat, q: nat)
    requires PointerIn(w, o, s, q)
    ensures q < |Data(o, s)|
  {
  }

  lemma ZeroStaysZero(o: Space, tb: nat, fwd: map<nat, nat>)
    ensures Forwarded(o, tb, fwd, 0) == 0
  {
  }

  /** Nothing reachable is left behind. */
  lemma AllCopied(w: Walker, o: Space, roots: seq<int>, n: Space, fwd: map<nat, nat>, s: nat)
    requires forall r: nat :: r in fwd ==> SameBlock(w, o, r, n, fwd)
    requires forall r: nat :: IsRoot(o, roots, r) ==> r in fwd
    requires Reachable(w, o, roots, s)
    ensures s in fwd
  {
    hide IsRoot, PointerIn, Head, Size;
    forall a: nat, b: nat | a in fwd.Keys && Edge(w, o, a, b)
      ensures b in fwd.Keys
    {
      EdgeCopied(w, o, n, fwd, a, b);
    }
    var path :| ReachedBy(w, o, roots, path, s);
    ClosedHoldsReachable(w, o, roots, fwd.Keys, path, s);
  }

  lemma EdgeCopied(w: Walker, o: Space, n: Space, fwd: map<nat, nat>, a: nat, b: nat)
    requires SameBlock(w, o, a, n, fwd) && Edge(w, o, a, b)
    ensures b in fwd
  {
    hide Head, Size, Data, PointerWord, WordsFit;
    var q: nat :| PointerIn(w, o, a, q) && Data(o, a)[q] == o.base + b + PROLOG;
    PointerInData(w, o, a, q);
    assert Settled(o, fwd, Data(o, a)[q]);
  }

  /** The result of a collection that scanned everything it copied. */
  lemma FinishedIsRenamed(w: Walker, o: Space, tb: nat, roots: seq<int>, c: State)
    requires tb > 0 && Stable(w) && WellFormed(w, o) && Inv(w, o, tb, roots, c) && Scanned(o, c)
    requires forall r: nat :: IsRoot(o, roots, r) ==> r in c.fwd
    ensures Renamed(w, o, roots, ToSpace(tb, c), c.fwd)
    ensures WellFormed(w, ToSpace(tb, c))
  {
    hide Copies, Bounded, Layout, FromOk, SameBlock, Reachable, IsRoot, BlockOk, WellFormed, Stable, Scanned,
      AllReachable;
    var n := ToSpace(tb, c);
    forall k: nat | k < |c.order|
      ensures SameBlock(w, o, c.order[k], n, c.fwd) && BlockOk(w, n, c.starts[k])
      ensures c.order[k] in o.blocks && Reachable(w, o, roots, c.order[k])
    {
      CopyIsSameBlock(w, o, tb, roots, c, k);
      OrderReachable(w, o, roots, c, k);
    }
    CopiesBackwards(o, c);
    forall s: nat | Reachable(w, o, roots, s)
      ensures s in c.fwd
    {
      AllCopied(w, o, roots, n, c.fwd, s);
    }
    StartsInjective(w, o, tb, roots, c);
    NewWellFormed(w, n);
  }

  lemma OrderReachable(w: Walker, o: Space, roots: seq<int>, c: State, k: nat)
    requires AllReachable(w, o, roots, c) && k < |c.order|
    ensures Reachable(w, o, roots, c.order[k])
  {
    hide Reachable;
  }

  lemma NewWellFormed(w: Walker, n: Space)
    requires n.base > 0 && Layout(n) && forall k: nat {:trigger n.blocks[k]} :: k < |n.blocks| ==> BlockOk(w, n, n.blocks[k])
    ensures WellFormed(w, n)
  {
    hide Layout, BlockOk;
  }

  /** Every copied block and every copy is the k-th one for some k. */
  lemma CopiesBackwards(o: Space, c: State)
    requires Orders(o, c)
    ensures forall s: nat :: s in c.fwd ==> exists k: nat :: k < |c.order| && c.order[k] == s
    ensures forall t: nat :: t in c.starts ==> exists s: nat :: s in c.fwd && c.fwd[s] == t
  {
    forall t: nat | t in c.starts
      ensures exists s: nat :: s in c.fwd && c.fwd[s] == t
    {
      var k: nat :| k < |c.starts| && c.starts[k] == t;
      assert c.order[k] in c.fwd && c.fwd[c.order[k]] == t;
    }
  }

  lemma StartsInjective(w: Walker, o: Space, tb: nat, roots: seq<int>, c: State)
    requires Orders(o, c) && Layout(ToSpace(tb, c))
    ensures forall s: nat, t: nat :: s in c.fwd && t in c.fwd && c.fwd[s] == c.fwd[t] ==> s == t
  {
    hide Contiguous;
    forall s: nat, t: nat | s in c.fwd && t in c.fwd && c.fwd[s] == c.fwd[t]
      ensures s == t
    {
      var i: nat :| i < |c.order| && c.order[i] == s;
      var j: nat :| j < |c.order| && c.order[j] == t;
      assert c.starts[i] == c.starts[j];
    }
  }
}
