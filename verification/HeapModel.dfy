/** The memory the copying collector works on, as values.

    A space is a run of machine words. A block at word `s` is laid out as the collector lays it out:
    word s is the forwarding pointer, word s+1 the block's size, word s+2 the packed type header, and the
    user data follows. Sizes and addresses count 8-byte words instead of bytes. */
module HeapModel {
  /** The forwarding pointer, the size and the type header. */
  const PROLOG := 3

  datatype GcWalk = Pointer | Skip | End | EndArray

  /** The engine's walker: for a type, an element's words and an index, what the word is; and whether a type
      has a finalizer. */
  datatype Walker = Walker(walk: (nat, seq<int>, nat) -> GcWalk, finalizable: nat -> bool)

  // ---- The packed type header ----

  function NewMemHeader(ty: nat, size: nat, isArray: bool): (h: nat) {
    ty % 128 * 2 + size % 0x1000000 * 256 + (if isArray then 1 else 0)
  }

  function TypeId(h: int): nat {
    h / 2 % 128
  }

  function ElementSize(h: int): nat {
    h / 256 % 0x1000000
  }

  predicate IsArray(h: int) {
    h % 2 != 0
  }

  /** Packing loses nothing as long as the type fits 7 bits and the size 24 bits. */
  lemma MemHeaderRoundTrip(ty: nat, size: nat, isArray: bool)
    ensures TypeId(NewMemHeader(ty, size, isArray)) == ty <==> ty < 128
    ensures ElementSize(NewMemHeader(ty, size, isArray)) == size <==> size < 0x1000000
    ensures IsArray(NewMemHeader(ty, size, isArray)) == isArray
  {
    var h := NewMemHeader(ty, size, isArray);
    var b := if isArray then 1 else 0;
    assert h == b + 2 * (ty % 128 + 128 * (size % 0x1000000));
    assert h / 2 == ty % 128 + 128 * (size % 0x1000000);
    assert h / 256 == size % 0x1000000;
  }

  /** Words of one element. */
  function ElementWords(h: int): nat {
    ElementSize(h) / 8
  }

  // ---- Which words of an element and of a block are pointers ----

  /** The walk of element `e` gets as far as word `i`. */
  ghost predicate Reaches(w: Walker, ty: nat, e: seq<int>, i: nat) {
    forall k: nat :: k < i && k < |e| ==> w.walk(ty, e, k) == Skip || w.walk(ty, e, k) == Pointer
  }

  ghost predicate Visited(w: Walker, ty: nat, e: seq<int>, i: nat) {
    i < |e| && Reaches(w, ty, e, i) && w.walk(ty, e, i) == Pointer
  }

  /** The walk of `e` ends with EndArray: no later element of the array holds a pointer. */
  ghost predicate StopsArray(w: Walker, ty: nat, e: seq<int>) {
    exists k: nat :: k < |e| && Reaches(w, ty, e, k) && w.walk(ty, e, k) == EndArray
  }

  /** First word of element `j` of an array, counted from the user pointer: the element count comes first. */
  function ElementAt(es: nat, j: nat): (r: nat)
    ensures r >= 1
  {
    if j == 0 then 1 else ElementAt(es, j - 1) + es
  }

  /** The element that holds the q-th word after the count, and the word's place in it. */
  function ElementIndex(es: nat, q: nat): nat
    requires es > 0
  {
    if q < es then 0 else ElementIndex(es, q - es) + 1
  }

  function ElementOffset(es: nat, q: nat): (r: nat)
    requires es > 0
    ensures r < es
  {
    if q < es then q else ElementOffset(es, q - es)
  }

  lemma {:induction false} ElementAtIsProduct(es: nat, j: nat)
    ensures ElementAt(es, j) == 1 + j * es
  {
    if j > 0 {
      ElementAtIsProduct(es, j - 1);
      assert j * es == (j - 1) * es + es;
    }
  }

  ghost predicate WordsFit(h: int, d: seq<int>) {
    if IsArray(h) then |d| >= 1 && d[0] >= 0 && ElementAt(ElementWords(h), d[0]) <= |d|
    else ElementWords(h) <= |d|
  }

  lemma {:induction false} ElementFits(es: nat, j: nat, n: nat)
    requires j < n
    ensures ElementAt(es, j) + es == ElementAt(es, j + 1) <= ElementAt(es, n)
  {
    if j + 1 < n {
      ElementFits(es, j, n - 1);
    }
  }

  ghost function Element(h: int, d: seq<int>, j: nat): (e: seq<int>)
    requires WordsFit(h, d) && IsArray(h) && j < d[0]
    ensures |e| == ElementWords(h)
  {
    ElementFits(ElementWords(h), j, d[0]);
    d[ElementAt(ElementWords(h), j)..ElementAt(ElementWords(h), j) + ElementWords(h)]
  }

  /** The collector's loop over an array gets as far as element `j`. */
  ghost predicate ReachesElement(w: Walker, h: int, d: seq<int>, j: nat)
    requires WordsFit(h, d) && IsArray(h)
  {
    forall k: nat {:trigger Element(h, d, k)} :: k < j && k < d[0] ==> !StopsArray(w, TypeId(h), Element(h, d, k))
  }

  /** Word `q` of the user data `d` of a block with header `h` is a pointer word. */
  ghost predicate PointerWord(w: Walker, h: int, d: seq<int>, q: nat)
    requires WordsFit(h, d)
  {
    if IsArray(h) then
      var es := ElementWords(h);
      q >= 1 && es > 0 &&
      var j := ElementIndex(es, q - 1);
      j < d[0] && ReachesElement(w, h, d, j) && Visited(w, TypeId(h), Element(h, d, j), ElementOffset(es, q - 1))
    else
      Visited(w, TypeId(h), d[..ElementWords(h)], q)
  }

  lemma {:induction false} ElementPlace(es: nat, j: nat, p: nat)
    requires p < es
    ensures ElementIndex(es, ElementAt(es, j) + p - 1) == j && ElementOffset(es, ElementAt(es, j) + p - 1) == p
  {
    if j > 0 {
      ElementPlace(es, j - 1, p);
    }
  }

  lemma {:induction false} ElementPlaced(es: nat, q: nat)
    requires es > 0
    ensures q == ElementAt(es, ElementIndex(es, q)) - 1 + ElementOffset(es, q)
  {
    if q >= es {
      ElementPlaced(es, q - es);
    }
  }

  /** Inside element `j`, being a pointer word is what the walk of that element says. */
  lemma PointerWordInElement(w: Walker, h: int, d: seq<int>, j: nat, p: nat)
    requires WordsFit(h, d) && IsArray(h) && j < d[0] && p < ElementWords(h)
    ensures PointerWord(w, h, d, ElementAt(ElementWords(h), j) + p)
      <==> ReachesElement(w, h, d, j) && Visited(w, TypeId(h), Element(h, d, j), p)
  {
    hide Visited, ReachesElement, StopsArray;
    ElementPlace(ElementWords(h), j, p);
  }

  /** Past the last element, and past an element that stops the array, there are no pointer words. */
  lemma NoPointersPast(w: Walker, h: int, d: seq<int>, j: nat, q: nat)
    requires WordsFit(h, d) && IsArray(h) && q >= ElementAt(ElementWords(h), j)
    requires j >= d[0] || ElementWords(h) == 0 || !ReachesElement(w, h, d, j)
    ensures !PointerWord(w, h, d, q)
  {
    hide Visited, StopsArray;
    var es := ElementWords(h);
    if es > 0 {
      ElementPlaced(es, q - 1);
      if ElementIndex(es, q - 1) < j {
        ElementFits(es, ElementIndex(es, q - 1), j);
      }
    }
  }

  /** A pointer word lies inside the block, and is never the element count of an array. */
  lemma PointerWordInBlock(w: Walker, h: int, d: seq<int>, q: nat)
    requires WordsFit(h, d) && PointerWord(w, h, d, q)
    ensures q < |d|
    ensures IsArray(h) ==> q >= 1
  {
    if IsArray(h) {
      var es := ElementWords(h);
      ElementPlaced(es, q - 1);
      ElementFits(es, ElementIndex(es, q - 1), d[0]);
    }
  }

  // ---- Walkers whose answer does not depend on pointer words ----

  /** `e'` is `e` with some pointer words overwritten. */
  ghost predicate PointerDiff(w: Walker, ty: nat, e: seq<int>, e': seq<int>) {
    |e| == |e'| && forall k: nat :: k < |e| && e[k] != e'[k] ==> w.walk(ty, e, k) == Pointer
  }

  ghost predicate SameWalk(w: Walker, ty: nat, e: seq<int>, e': seq<int>) {
    forall k: nat :: k < |e| ==> w.walk(ty, e, k) == w.walk(ty, e', k)
  }

  ghost predicate Stable(w: Walker) {
    forall ty: nat, e, e' :: PointerDiff(w, ty, e, e') ==> SameWalk(w, ty, e, e')
  }

  // ---- The engine's own walker ----

  function RtWalk(ty: nat, e: seq<int>, index: nat): GcWalk {
    match ty
    case 1 => if index == 0 || index == 1 then Pointer else Skip              // GC_ARRAY_STORE
    case 2 => if (index == 3 && IsValuePtr(e, 2)) || (index == 5 && IsValuePtr(e, 4)) then Pointer else Skip // GC_ENTRY
    case 3 => if index == 0 then Pointer else Skip                            // GC_HASH_STORE
    case 4 => if index == 0 || index == 3 then Pointer else Skip              // GC_ITERATOR
    case 5 => if (index == 3 && IsValuePtr(e, 2)) || index in {6, 7, 9} then Pointer else Skip // GC_OBJECT
    case 6 => if index == 0 then Pointer else Skip                            // GC_SCOPE
    case 7 => if index == 0 then Pointer else Skip                            // GC_STRING
    case 8 => EndArray                                                        // GC_U16
    case 9 => EndArray                                                        // GC_U32
    case 10 => if index == 1 && IsValuePtr(e, 0) then Pointer else Skip       // GC_VALUE
    case 11 => if index == 1 then Pointer else Skip                           // GC_ARRAY_CHUNK
    case 12 => if index == 0 || index == 1 then Pointer else Skip             // GC_SPARSE_ARRAY
    case 13 => if index == 0 || index == 1 then Pointer else Skip             // GC_REGEXP
    case _ => End  // the engine allocates no other type; it panics there
  }

  /** The tag word of an embedded value is one of the pointer types String to RegExp. */
  predicate IsValuePtr(e: seq<int>, offset: nat) {
    offset < |e| && 4 <= e[offset] <= 8
  }

  // ---- What the objects look like ----

  /** A word that is never a pointer, one that always is, and the two words of an embedded value. */
  datatype Field = Plain | Ref | Tag | Pointed

  /** The words of the engine's structures, in the order of their fields. */
  function Fields(ty: nat): seq<Field> {
    match ty
    case 1 => [Ref, Ref]                                                     // array store: sparse array, other properties
    case 2 => [Plain, Plain, Tag, Pointed, Tag, Pointed]                     // entry: name, flags and link, two values
    case 3 => [Ref, Plain]                                                   // hash store: entries, count
    case 4 => [Ref, Plain, Plain, Ref, Plain]                                // iterator: target, name, offset, seen, length
    case 5 => [Plain, Plain, Tag, Pointed, Plain, Plain, Ref, Ref, Plain, Ref]  // object: value, function, prototype, scope, store
    case 6 => [Ref]                                                          // scope: items
    case 7 => [Ref]                                                          // string: characters
    case 10 => [Tag, Pointed]                                                // value
    case 11 => [Plain, Ref]                                                  // chunk: offset, items
    case 12 => [Ref, Ref, Plain, Plain]                                      // sparse array: items, chunks, count, use
    case 13 => [Ref, Ref, Plain, Plain]                                      // regular expression: pattern, flags
    case _ => []
  }

  /** The walker finds exactly the references, and the payloads whose tag is that of a pointer; arrays of numbers end at
      once. */
  lemma RtWalkIsLayout(ty: nat, e: seq<int>, k: nat)
    requires 1 <= ty <= 13
    ensures ty == 8 || ty == 9 <==> RtWalk(ty, e, k) == EndArray
    ensures RtWalk(ty, e, k) == Pointer
      <==> k < |Fields(ty)| && (Fields(ty)[k] == Ref || (k > 0 && Fields(ty)[k] == Pointed && IsValuePtr(e, k - 1)))
  {
  }

  const RtWalker := Walker(RtWalk, (ty: nat) => ty == 13 || ty == 5)

  /** The engine's walker decides by type, index and tag words only, so it is stable. */
  lemma RtWalkerStable()
    ensures Stable(RtWalker)
  {
    forall ty: nat, e, e' | PointerDiff(RtWalker, ty, e, e')
      ensures SameWalk(RtWalker, ty, e, e')
    {
      forall k: nat | k < |e| && e[k] != e'[k]
        ensures RtWalk(ty, e, k) == Pointer
      {
        assert RtWalker.walk(ty, e, k) == Pointer;
      }
      forall o: nat | o in {0, 2, 4}
        ensures ty in {2, 5, 10} && (ty == 10 ==> o == 0) && (ty == 5 ==> o == 2) && (ty == 2 ==> o >= 2)
            ==> IsValuePtr(e, o) == IsValuePtr(e', o)
      {
        if o < |e| && e[o] != e'[o] {
          assert RtWalk(ty, e, o) == Pointer;
        }
      }
      forall k: nat | k < |e|
        ensures RtWalker.walk(ty, e, k) == RtWalker.walk(ty, e', k)
      {
        assert RtWalk(ty, e, k) == RtWalk(ty, e', k);
      }
    }
  }

  // ---- Spaces ----

  /** A snapshot of a space: its base address, its words, the starts of its blocks and the first free word. */
  datatype Space = Space(base: nat, mem: seq<int>, blocks: seq<nat>, end: nat)

  ghost function Next(sp: Space, k: int): nat
    requires k >= -1
  {
    if k + 1 < |sp.blocks| then sp.blocks[k + 1] else sp.end
  }

  ghost function Size(sp: Space, s: nat): (n: nat)
    ensures n >= PROLOG
  {
    if s + 1 < |sp.mem| && sp.mem[s + 1] >= PROLOG then sp.mem[s + 1] else PROLOG
  }

  ghost function Head(sp: Space, s: nat): int {
    if s + 2 < |sp.mem| then sp.mem[s + 2] else 0
  }

  ghost function Data(sp: Space, s: nat): seq<int> {
    if s + Size(sp, s) <= |sp.mem| then sp.mem[s + PROLOG..s + Size(sp, s)] else []
  }

  /** The k-th block ends where the next one starts. */
  ghost predicate Contiguous(sp: Space, k: nat) {
    k < |sp.blocks| && sp.blocks[k] + PROLOG <= |sp.mem| && sp.mem[sp.blocks[k] + 1] == Size(sp, sp.blocks[k])
    && sp.blocks[k] + Size(sp, sp.blocks[k]) == Next(sp, k) <= sp.end
  }

  /** The blocks fill the space from word 0 to `end`. */
  ghost predicate Layout(sp: Space) {
    && sp.end <= |sp.mem|
    && (if |sp.blocks| == 0 then sp.end == 0 else sp.blocks[0] == 0)
    && (forall k: nat {:trigger Contiguous(sp, k)} :: k < |sp.blocks| ==> Contiguous(sp, k))
    && (forall i: nat, j: nat :: i < j < |sp.blocks| ==> sp.blocks[i] + Size(sp, sp.blocks[i]) <= sp.blocks[j])
  }

  /** `v` is the user pointer of a block of the space. */
  ghost predicate IsUser(sp: Space, v: int) {
    v >= sp.base + PROLOG && v - sp.base - PROLOG in sp.blocks
  }

  ghost predicate PointerIn(w: Walker, sp: Space, s: nat, q: nat) {
    WordsFit(Head(sp, s), Data(sp, s)) && PointerWord(w, Head(sp, s), Data(sp, s), q) && q < |Data(sp, s)|
  }

  /** Not forwarded, large enough for its elements, and no dangling pointer words. */
  ghost predicate BlockOk(w: Walker, sp: Space, s: nat) {
    && s < |sp.mem| && sp.mem[s] == 0
    && WordsFit(Head(sp, s), Data(sp, s))
    && forall q: nat {:trigger PointerIn(w, sp, s, q)} ::
         PointerIn(w, sp, s, q) ==> Data(sp, s)[q] == 0 || IsUser(sp, Data(sp, s)[q])
  }

  /** Between collections: contiguous blocks, none forwarded, and every non-null pointer word points to a block. */
  ghost predicate WellFormed(w: Walker, sp: Space) {
    sp.base > 0 && Layout(sp) && forall s: nat :: s in sp.blocks ==> BlockOk(w, sp, s)
  }

  // ---- Reachability ----

  /** Some pointer word of block `s` points to block `t`. */
  ghost predicate Edge(w: Walker, sp: Space, s: nat, t: nat) {
    s in sp.blocks && t in sp.blocks
    && exists q: nat :: PointerIn(w, sp, s, q) && Data(sp, s)[q] == sp.base + t + PROLOG
  }

  ghost predicate IsRoot(sp: Space, roots: seq<int>, s: nat) {
    s in sp.blocks && sp.base + s + PROLOG in roots
  }

  ghost predicate IsPath(w: Walker, sp: Space, path: seq<nat>) {
    forall i: nat {:trigger path[i]} :: 0 < i < |path| ==> Edge(w, sp, path[i - 1], path[i])
  }

  ghost predicate ReachedBy(w: Walker, sp: Space, roots: seq<int>, path: seq<nat>, s: nat) {
    |path| > 0 && IsRoot(sp, roots, path[0]) && path[|path| - 1] == s && IsPath(w, sp, path)
  }

  /** Some chain of pointer words leads from a root slot to block `s`. */
  ghost predicate Reachable(w: Walker, sp: Space, roots: seq<int>, s: nat) {
    exists path :: ReachedBy(w, sp, roots, path, s)
  }

  lemma RootReachable(w: Walker, sp: Space, roots: seq<int>, s: nat)
    requires IsRoot(sp, roots, s)
    ensures Reachable(w, sp, roots, s)
  {
    assert ReachedBy(w, sp, roots, [s], s);
  }

  lemma EdgeReachable(w: Walker, sp: Space, roots: seq<int>, s: nat, t: nat)
    requires Reachable(w, sp, roots, s) && Edge(w, sp, s, t)
    ensures Reachable(w, sp, roots, t)
  {
    hide Edge, IsRoot;
    var path :| ReachedBy(w, sp, roots, path, s);
    assert ReachedBy(w, sp, roots, path + [t], t);
  }

  /** A set that holds the roots and is closed under edges holds every reachable block. */
  lemma {:induction false} ClosedHoldsReachable(w: Walker, sp: Space, roots: seq<int>, c: set<nat>, path: seq<nat>,
          s: nat)
    requires forall r: nat :: IsRoot(sp, roots, r) ==> r in c
    requires forall a: nat, b: nat :: a in c && Edge(w, sp, a, b) ==> b in c
    requires ReachedBy(w, sp, roots, path, s)
    ensures s in c
  {
    hide Edge, IsRoot;
    var n := |path| - 1;
    if n > 0 {
      var prev := path[..n];
      assert ReachedBy(w, sp, roots, prev, path[n - 1]);
      ClosedHoldsReachable(w, sp, roots, c, prev, path[n - 1]);
      assert Edge(w, sp, path[n - 1], path[n]);
    }
  }
}
