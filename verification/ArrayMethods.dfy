/** The methods of Array.prototype that move elements in place, section 15.4.4 of ECMA-262 5.1. */
module ArrayMethods {
  import opened Wrappers
  import opened Properties
  import opened ObjectRules
  import opened JsObject
  import opened SparseArray

  /** An array without getters and setters on which nothing happened that is not permitted. */
  ghost predicate Sound(a: JsObject, before: View)
    reads a, a.items
  {
    a.Valid() && a.isArray && AllData(a.Props()) && Permitted(before, a.Props(), a.extensible)
  }

  // ---- Room in the store ----

  /** An index that is none, or that doubling the store once does not reach. */
  ghost predicate NoRoom(s: Shape, i: nat) {
    i >= MAX_LENGTH || Overrun(s, i)
  }

  ghost predicate NoneFrom(v: View, at: nat) {
    forall j: nat {:trigger Item(v, j)} :: j >= at ==> Item(v, j).None?
  }

  /** Some element from an index on is to be moved up to where the store has no room for it. */
  ghost predicate Blocked(s: Shape, v: View, at: nat, up: nat) {
    exists j: nat {:trigger Item(v, j)} :: j >= at && Item(v, j).Some? && Overrun(s, j + up)
  }

  ghost predicate HasRoom(s: Shape, n: nat) {
    s.Dense? ==> n <= s.room
  }

  ghost predicate NeverOverrun(s: Shape, n: nat) {
    forall i: nat {:trigger Overrun(s, i)} :: i < n ==> !Overrun(s, i)
  }

  /** While elements are moved up: there is room for all that are still to come, or nothing has been written yet. */
  ghost predicate UpRoom(s: Shape, t: Shape, v: View, at: nat, n: nat) {
    (HasRoom(t, n) && NeverOverrun(s, n)) || (t == s && NoneFrom(v, at))
  }

  lemma UpRoomStep(s: Shape, t: Shape, t': Shape, v: View, w: View, at: nat, up: nat)
    requires up > 0 && UpRoom(s, t, v, at + 1, at + 1 + up) && !Blocked(s, v, at + 1, up)
    requires Item(w, at) == Item(v, at) && Item(w, at + up) == Item(v, at + up)
    requires Item(w, at + up).Some? ==> Covers(t, at + up)
    requires !(Item(w, at).Some? && Overrun(t, at + up)) && MovedRoom(t, t', w, at, at + up)
    ensures UpRoom(s, t', v, at, at + up) && !Blocked(s, v, at, up)
  {
    var to := at + up;
    hide Item;
    if Item(w, at).Some? {
      if t == s && NoneFrom(v, at + 1) {
        forall i: nat | i < to
          ensures !Overrun(s, i)
        {
          if Overrun(s, i) {
            OverrunsAbove(s, i, to);
          }
        }
      }
      assert !Overrun(s, to);
    } else if !(HasRoom(t, at + 1 + up) && NeverOverrun(s, at + 1 + up)) {
      assert t == s && Item(v, to).None?;
    }
  }

  /** Where a move up finds no room, it is because of the store as it was at first. */
  lemma UpRoomBlocks(s: Shape, t: Shape, v: View, at: nat, up: nat)
    requires UpRoom(s, t, v, at + 1, at + 1 + up) && Item(v, at).Some? && Overrun(t, at + up)
    ensures Blocked(s, v, at, up)
  {
  }

  /** Afterwards the next index has room if it had before. */
  lemma UpRoomStarts(s: Shape, t: Shape, v: View, at: nat, n: nat, start: nat)
    requires UpRoom(s, t, v, at, n) && start < n
    ensures Overrun(t, start) <==> Overrun(s, start)
  {
  }

  lemma BlockedFrom(s: Shape, v: View, at: nat, start: nat, up: nat)
    requires Blocked(s, v, at, up) && start <= at
    ensures Blocked(s, v, start, up)
  {
  }

  lemma HeldHasRoom(a: JsObject, i: nat)
    requires a.Valid() && a.isArray
    ensures a.Props()[Index(i)].Some? ==> Covers(a.Room(), i) && !Overrun(a.Room(), i)
  {
    if a.Props()[Index(i)].Some? {
      a.HeldIsCovered(i);
    }
  }

  // ---- Single elements ----

  method GetElement(a: JsObject, i: nat) returns (x: Option<Val>)
    requires a.Valid() && AllData(a.Props())
    ensures x == Item(a.Props(), i)
  {
    var p := a.GetOwnProperty(Index(i));
    assert a.Props()[Index(i)] == p;
    x := if p.Some? then Some(p.value.value) else None;
  }

  method PutElement(a: JsObject, i: nat, x: Val, ghost origin: View) returns (r: Answer)
    requires Sound(a, origin)
    modifies a`props, a`names, a.items
    ensures Sound(a, origin)
    ensures r == Done(true) ==> i < MAX_LENGTH
    ensures Plain(old(a.Props()), a.extensible) ==> (r == Panics <==> NoRoom(old(a.Room()), i))
    ensures Plain(old(a.Props()), a.extensible) && r != Panics ==>
              r == Done(true) && PutAt(old(a.Props()), a.Props(), a.extensible, i, x) && TookRoom(old(a.Room()), a.Room(), i, i + 1)
  {
    if i >= MAX_LENGTH {
      return Panics;
    }
    hide PutAt, Plain, DefineElement, Permitted, Wider, Covers, Grown, Overrun, JsObject.Room;
    ghost var v, full := a.Props(), a.CannotTake(Index(i));
    a.CannotTakeExactly(i);
    HeldHasRoom(a, i);
    ghost var l, limit;
    r, l, limit := a.Put(Index(i), x, true);
    PutEffect(v, a.Props(), a.extensible, i, x, full, l, r);
    PermittedTrans(origin, v, a.Props(), a.extensible);
  }

  lemma PutEffect(v: View, w: View, extensible: bool, i: nat, x: Val, full: bool, l: nat, r: Answer)
    requires AllData(v) && i < MAX_LENGTH
    requires !CanPut(v[Index(i)], extensible) ==> r == TypeError && w == v
    requires CanPut(v[Index(i)], extensible) ==> Sized(v, l) && DefineElement(v, w, extensible, i, PutRequest(v[Index(i)], x), true, full, l, r)
    ensures AllData(w) && (Plain(v, extensible) ==> CanPut(v[Index(i)], extensible))
    ensures Plain(v, extensible) ==> r == if full && v[Index(i)].None? then Panics else Done(true)
    ensures Plain(v, extensible) && r != Panics ==> PutAt(v, w, extensible, i, x)
  {
    hide PutAt, DefineElement, Sized;
    if CanPut(v[Index(i)], extensible) {
      if v[Index(i)].Some? {
        PutExisting(v, w, extensible, i, x, full, l, r);
      } else {
        PutMissing(v, w, extensible, i, x, true, full, l, r);
      }
    }
  }

  method DeleteElement(a: JsObject, i: nat, ghost origin: View) returns (r: Answer)
    requires Sound(a, origin)
    modifies a`props, a`names, a.items
    ensures Sound(a, origin)
    ensures r == Done(true) ==> i < MAX_LENGTH
    ensures Plain(old(a.Props()), a.extensible) ==> (r == Panics <==> i >= MAX_LENGTH)
    ensures Plain(old(a.Props()), a.extensible) && r != Panics ==>
              r == Done(true) && DeletedAt(old(a.Props()), a.Props(), a.extensible, i)
    ensures Plain(old(a.Props()), a.extensible) && r != Panics ==>
              a.Room() == Cleared(old(a.Room()), old(a.Props()), i)
  {
    if i >= MAX_LENGTH {
      return Panics;
    }
    hide DeletedAt, Permitted, ObjectDelete, Grown, JsObject.Room;
    ghost var v := a.Props();
    assert v[Index(i)] == a.Own(Index(i));
    r := a.DeleteProperty(Index(i), true);
    DeletePlain(v, a.Props(), a.extensible, i, r);
    PermittedTrans(origin, v, a.Props(), a.extensible);
  }

  /** The store after an index was cleared, which writes to it only if something was there. */
  ghost function Cleared(s: Shape, v: View, i: nat): Shape {
    if Item(v, i).Some? then Grown(s, i) else s
  }

  /** The store after an element, or a hole, was moved to an index. */
  ghost predicate MovedRoom(s: Shape, t: Shape, v: View, from: nat, to: nat) {
    if Item(v, from).Some? then Wider(s, t) && Covers(t, to) else t == Cleared(s, v, to)
  }

  /** Puts what is there, hole or not, at another index. */
  method MoveElement(a: JsObject, from: nat, to: nat, ghost origin: View) returns (r: Answer)
    requires Sound(a, origin)
    modifies a`props, a`names, a.items
    ensures Sound(a, origin)
    ensures r == Done(true) ==> to < MAX_LENGTH
    ensures Plain(old(a.Props()), a.extensible) ==>
              (r == Panics <==> to >= MAX_LENGTH || (Item(old(a.Props()), from).Some? && Overrun(old(a.Room()), to)))
    ensures Plain(old(a.Props()), a.extensible) && r != Panics ==>
              r == Done(true) && MovedTo(old(a.Props()), a.Props(), a.extensible, from, to)
    ensures Plain(old(a.Props()), a.extensible) && r != Panics ==> MovedRoom(old(a.Room()), a.Room(), old(a.Props()), from, to)
  {
    hide AllData, Permitted, Sized, Wider, Covers, Grown, Overrun, JsObject.Room;
    var x := GetElement(a, from);
    if x.Some? {
      r := PutElement(a, to, x.value, origin);
    } else {
      r := DeleteElement(a, to, origin);
    }
  }

  ghost predicate MovedTo(v: View, w: View, extensible: bool, from: nat, to: nat) {
    && Plain(w, extensible)
    && forall j: nat {:trigger Item(w, j)} :: Item(w, j) == if j == to then Item(v, from) else Item(v, j)
  }

  // ---- Splice, section 15.4.4.12 ----

  /** Where a relative index lies in an array. */
  function ActualStart(len: nat, relative: int): (start: nat)
    ensures start <= len
  {
    if relative < 0 then (if len + relative < 0 then 0 else len + relative) else if relative < len then relative else len
  }

  function ActualDeleteCount(len: nat, start: nat, deleteCount: int): (del: nat)
    requires start <= len
    ensures start + del <= len
  {
    var count := if deleteCount < 0 then 0 else deleteCount;
    if count < len - start then count else len - start
  }

  /** Counted from the front if it is not negative and from the end if it is, and cut off at both ends. */
  ghost predicate StartsAt(len: nat, relative: int, start: nat) {
    && (0 <= relative <= len ==> start == relative) && (relative < 0 && len + relative >= 0 ==> start - len == relative)
    && (relative > len ==> start == len) && (len + relative < 0 ==> start == 0)
  }

  /** As many as are asked for and are there, and none for a negative number. */
  ghost predicate Removes(len: nat, start: nat, deleteCount: int, del: nat) {
    && start + del <= len && (deleteCount < 0 ==> del == 0) && (deleteCount >= 0 ==> del <= deleteCount)
    && (del == deleteCount || del == len - start || deleteCount < 0)
  }

  lemma StartIs(len: nat, relative: int)
    ensures StartsAt(len, relative, ActualStart(len, relative))
  {
  }

  lemma DeleteCountIs(len: nat, start: nat, deleteCount: int)
    requires start <= len
    ensures Removes(len, start, deleteCount, ActualDeleteCount(len, start, deleteCount))
  {
  }

  /** No larger number would do. */
  lemma RemovesMost(len: nat, start: nat, deleteCount: int, del: nat, more: nat)
    requires Removes(len, start, deleteCount, del) && start + more <= len && more <= deleteCount
    ensures more <= del
  {
  }

  /** Splicing at `r` and at `r` counted from the end is the same. */
  lemma FromTheEnd(len: nat, r: nat, start: nat, other: nat)
    requires r < len && StartsAt(len, r, start) && StartsAt(len, r - len, other)
    ensures start == other == r
  {
  }

  /** The elements of the array after a splice: prefix, items, suffix. */
  ghost function Spliced(v: View, start: nat, del: nat, items: seq<Val>, j: nat): Option<Val> {
    if j < start then Item(v, j)
    else if j < start + |items| then Some(items[j - start])
    else Item(v, j - |items| + del)
  }

  /** Moving towards the front, from the front: what is at `k + del` and beyond has not been overwritten. */
  ghost predicate MovedDown(v: View, w: View, start: nat, del: nat, count: nat, k: nat) {
    forall j: nat {:trigger Item(w, j)} :: Item(w, j) == if start + count <= j < k + count then Item(v, j - count + del) else Item(v, j)
  }

  /** Moving towards the back, from the back: what is below `k + count` has not been overwritten. */
  ghost predicate MovedUp(v: View, w: View, len: nat, del: nat, count: nat, k: nat)
    requires del <= len
  {
    forall j: nat {:trigger Item(w, j)} :: Item(w, j) == if k + count <= j < len - del + count then Item(v, j - count + del) else Item(v, j)
  }

  lemma DownStep(v: View, w: View, w': View, extensible: bool, start: nat, del: nat, count: nat, k: nat)
    requires MovedDown(v, w, start, del, count, k) && MovedTo(w, w', extensible, k + del, k + count) && start <= k
    requires count < del
    ensures MovedDown(v, w', start, del, count, k + 1) && Plain(w', extensible)
  {
    hide Plain, Item;
  }

  lemma UpStep(v: View, w: View, w': View, extensible: bool, len: nat, del: nat, count: nat, k: nat)
    requires del < count && del <= len && 0 < k <= len - del && MovedUp(v, w, len, del, count, k)
    requires MovedTo(w, w', extensible, k + del - 1, k + count - 1)
    ensures MovedUp(v, w', len, del, count, k - 1) && Plain(w', extensible)
  {
    hide Plain, Item;
  }

  /** The suffix is in its new place and the prefix in its old one. */
  ghost predicate Shifted(v: View, w: View, start: nat, del: nat, count: nat, len: nat)
    requires del <= len
  {
    forall j: nat {:trigger Item(w, j)} :: j < len - del + count ==>
      (j < start ==> Item(w, j) == Item(v, j)) && (j >= start + count ==> Item(w, j) == Item(v, j - count + del))
  }

  method MoveSuffixDown(a: JsObject, start: nat, del: nat, count: nat, len: nat, ghost origin: View) returns (r: Answer)
    requires Sound(a, origin) && start + del <= len <= MAX_LENGTH && count < del
    modifies a`props, a`names, a.items
    ensures Sound(a, origin)
    ensures Plain(old(a.Props()), a.extensible) ==>
              r == Done(true) && Plain(a.Props(), a.extensible) && MovedDown(old(a.Props()), a.Props(), start, del, count, len - del)
    ensures Plain(old(a.Props()), a.extensible) ==> DownRoom(old(a.Room()), a.Room(), old(a.Props()), start)
  {
    hide AllData, Permitted, Sized, Plain, MovedDown, MovedTo, JsObject.Own, JsObject.Slots, JsObject.SlotAt,
      EnumeratedOnce;
    hide DownRoom, MovedRoom, Overrun, Covers, Item, JsObject.Room;
    ghost var v, ext, s := a.Props(), a.extensible, a.Room();
    NothingMovedDown(v, start, del, count);
    NothingDown(s, v, start);
    r := Done(true);
    var k := start;
    while k < len - del
      invariant start <= k <= len - del && Sound(a, origin) && r == Done(true)
      invariant Plain(v, ext) ==> Plain(a.Props(), ext) && MovedDown(v, a.Props(), start, del, count, k)
      invariant Plain(v, ext) ==> DownRoom(s, a.Room(), v, start)
    {
      ghost var w, t := a.Props(), a.Room();
      ItemHasRoom(a, k + del, k + count);
      ItemHasRoom(a, k + count, k + count);
      r := MoveElement(a, k + del, k + count, origin);
      if r != Done(true) {
        return;
      }
      if Plain(v, ext) {
        DownRoomStep(s, t, a.Room(), v, w, start, del, count, k);
        DownStep(v, w, a.Props(), ext, start, del, count, k);
      }
      k := k + 1;
    }
  }

  /** While elements are moved down or deleted: the store has not shrunk, and is untouched if there was nothing. */
  ghost predicate DownRoom(s: Shape, t: Shape, v: View, start: nat) {
    Wider(s, t) && (NoneFrom(v, start) ==> t == s)
  }

  lemma NothingDown(s: Shape, v: View, start: nat)
    ensures DownRoom(s, s, v, start)
  {
  }

  lemma ItemHasRoom(a: JsObject, i: nat, j: nat)
    requires a.Valid() && a.isArray && j <= i
    ensures Item(a.Props(), i).Some? ==> Covers(a.Room(), i) && !Overrun(a.Room(), i) && !Overrun(a.Room(), j)
  {
    HeldHasRoom(a, i);
  }

  lemma DownRoomStep(s: Shape, t: Shape, t': Shape, v: View, w: View, start: nat, del: nat, count: nat, k: nat)
    requires DownRoom(s, t, v, start) && MovedDown(v, w, start, del, count, k)
    requires MovedRoom(t, t', w, k + del, k + count)
    requires start <= k && count < del
    requires Item(w, k + count).Some? ==> Covers(t, k + count)
    ensures DownRoom(s, t', v, start)
  {
    hide Item;
    assert Item(w, k + del) == Item(v, k + del) && Item(w, k + count) == Item(v, k + count);
  }

  lemma DownRoomStarts(s: Shape, t: Shape, v: View, start: nat)
    requires DownRoom(s, t, v, start) && (forall j: nat {:trigger Item(v, j)} :: Item(v, j).Some? ==> Covers(s, j))
    ensures Overrun(t, start) <==> Overrun(s, start)
  {
    hide Item;
    if j: nat :| j >= start && Item(v, j).Some? {
      assert Covers(s, j);
    }
  }

  /** Deletes the elements from the end down to a length. */
  method DeleteTail(a: JsObject, from: nat, to: nat, ghost origin: View) returns (r: Answer)
    requires Sound(a, origin) && to <= from <= MAX_LENGTH
    modifies a`props, a`names, a.items
    ensures Sound(a, origin)
    ensures Plain(old(a.Props()), a.extensible) ==>
              r == Done(true) && Plain(a.Props(), a.extensible) && SameBelow(old(a.Props()), a.Props(), to)
    ensures Plain(old(a.Props()), a.extensible) ==> DownRoom(old(a.Room()), a.Room(), old(a.Props()), to)
  {
    hide AllData, Permitted, Sized, Plain, SameBelow, DeletedAt, JsObject.Own, JsObject.Slots, JsObject.SlotAt,
      EnumeratedOnce;
    hide DownRoom, Cleared, Item, JsObject.Room;
    ghost var v, ext, s := a.Props(), a.extensible, a.Room();
    SameBelowAtFirst(v, from);
    NothingDown(s, v, to);
    r := Done(true);
    var k := from;
    while k > to
      invariant to <= k <= from && Sound(a, origin) && r == Done(true)
      invariant Plain(v, ext) ==> Plain(a.Props(), ext) && SameBelow(v, a.Props(), k)
      invariant Plain(v, ext) ==> DownRoom(s, a.Room(), v, to)
    {
      ghost var w, t := a.Props(), a.Room();
      ItemHasRoom(a, k - 1, k - 1);
      r := DeleteElement(a, k - 1, origin);
      if r != Done(true) {
        return;
      }
      if Plain(v, ext) {
        DeleteRoomStep(s, t, a.Room(), v, w, to, k - 1);
        DeletedBelow(v, w, a.Props(), ext, k - 1);
      }
      k := k - 1;
    }
  }

  lemma DeleteRoomStep(s: Shape, t: Shape, t': Shape, v: View, w: View, to: nat, k: nat)
    requires DownRoom(s, t, v, to) && SameBelow(v, w, k + 1) && to <= k && t' == Cleared(t, w, k)
    requires Item(w, k).Some? ==> Covers(t, k)
    ensures DownRoom(s, t', v, to)
  {
    hide Item;
    assert Item(w, k) == Item(v, k);
  }

  lemma NothingMovedDown(v: View, start: nat, del: nat, count: nat)
    ensures MovedDown(v, v, start, del, count, start)
  {
  }

  ghost predicate SameBelow(v: View, w: View, k: nat) {
    forall j: nat {:trigger Item(w, j)} :: j < k ==> Item(w, j) == Item(v, j)
  }

  lemma SameBelowAtFirst(v: View, k: nat)
    ensures SameBelow(v, v, k)
  {
  }

  lemma DeletedBelow(v: View, w: View, w': View, extensible: bool, k: nat)
    requires SameBelow(v, w, k + 1) && DeletedAt(w, w', extensible, k)
    ensures Plain(w', extensible) && SameBelow(v, w', k)
  {
    hide Plain, Item, Sized;
  }

  lemma DownShifts(v: View, moved: View, w: View, start: nat, del: nat, count: nat, len: nat)
    requires start + del <= len && count < del
    requires MovedDown(v, moved, start, del, count, len - del) && SameBelow(moved, w, len - del + count)
    ensures Shifted(v, w, start, del, count, len)
  {
    hide Item;
  }

  method MoveSuffixUp(a: JsObject, start: nat, del: nat, count: nat, len: nat, ghost origin: View) returns (r: Answer)
    requires Sound(a, origin) && start + del <= len && del < count && Sized(a.Props(), len)
    modifies a`props, a`names, a.items
    ensures Sound(a, origin)
    ensures r == Done(true) && start + del < len ==> len - del + count <= MAX_LENGTH
    ensures Plain(old(a.Props()), a.extensible) ==>
              (r == Panics <==> (start + del < len && len - del + count > MAX_LENGTH)
                                || Blocked(old(a.Room()), old(a.Props()), start + del, count - del))
    ensures Plain(old(a.Props()), a.extensible) && r != Panics ==>
              r == Done(true) && Plain(a.Props(), a.extensible) && MovedUp(old(a.Props()), a.Props(), len, del, count, start)
    ensures Plain(old(a.Props()), a.extensible) && r != Panics ==>
              (Overrun(a.Room(), start) <==> Overrun(old(a.Room()), start))
  {
    hide AllData, Permitted, Sized, Plain, MovedUp, MovedTo, JsObject.Own, JsObject.Slots, JsObject.SlotAt,
      EnumeratedOnce;
    hide UpRoom, Blocked, MovedRoom, Overrun, Covers, Item, JsObject.Room;
    ghost var v, ext, s, more := a.Props(), a.extensible, a.Room(), count - del;
    NothingMovedUp(v, len, del, count);
    UpRoomAtFirst(s, v, len, more);
    r := Done(true);
    var k := len - del;
    while k > start
      invariant start <= k <= len - del && Sound(a, origin) && r == Done(true)
      invariant k < len - del ==> len - del + count <= MAX_LENGTH
      invariant Plain(v, ext) ==> Plain(a.Props(), ext) && MovedUp(v, a.Props(), len, del, count, k)
      invariant Plain(v, ext) ==> UpRoom(s, a.Room(), v, k + del, k + del + more) && !Blocked(s, v, k + del, more)
    {
      ghost var w, t, at := a.Props(), a.Room(), k + del - 1;
      ItemHasRoom(a, at + more, at + more);
      r := MoveElement(a, k + del - 1, k + count - 1, origin);
      if Plain(v, ext) {
        MovedUpAt(v, w, len, del, count, k);
        if r == Panics {
          if at + more < MAX_LENGTH {
            UpRoomBlocks(s, t, v, at, more);
            BlockedFrom(s, v, at, start + del, more);
          }
        } else {
          UpRoomStep(s, t, a.Room(), v, w, at, more);
          UpStep(v, w, a.Props(), ext, len, del, count, k);
        }
      }
      if r != Done(true) {
        return;
      }
      k := k - 1;
    }
    if Plain(v, ext) {
      UpRoomStarts(s, a.Room(), v, start + del, start + count, start);
    }
  }

  lemma UpRoomAtFirst(s: Shape, v: View, len: nat, up: nat)
    requires Sized(v, len)
    ensures UpRoom(s, s, v, len, len + up) && !Blocked(s, v, len, up)
  {
  }

  lemma MovedUpAt(v: View, w: View, len: nat, del: nat, count: nat, k: nat)
    requires del < count && del <= len && 0 < k <= len - del && MovedUp(v, w, len, del, count, k)
    ensures Item(w, k + del - 1) == Item(v, k + del - 1) && Item(w, k + count - 1) == Item(v, k + count - 1)
  {
    hide Item;
  }

  lemma NothingMovedUp(v: View, len: nat, del: nat, count: nat)
    requires del <= len
    ensures MovedUp(v, v, len, del, count, len - del)
  {
  }

  lemma UpShifts(v: View, w: View, start: nat, del: nat, count: nat, len: nat)
    requires start + del <= len && MovedUp(v, w, len, del, count, start)
    ensures Shifted(v, w, start, del, count, len)
  {
    hide Item;
  }

  /** Items were put from an index on. */
  ghost predicate Filled(v: View, w: View, start: nat, items: seq<Val>, i: nat)
    requires i <= |items|
  {
    forall j: nat {:trigger Item(w, j)} :: Item(w, j) == if start <= j < start + i then Some(items[j - start]) else Item(v, j)
  }

  lemma FillStep(v: View, w: View, w': View, extensible: bool, start: nat, items: seq<Val>, i: nat)
    requires i < |items| && Filled(v, w, start, items, i) && PutAt(w, w', extensible, start + i, items[i])
    ensures Filled(v, w', start, items, i + 1) && Plain(w', extensible)
  {
    hide Plain, Item, Sized;
  }

  lemma NothingFilled(v: View, start: nat, items: seq<Val>)
    ensures Filled(v, v, start, items, 0)
  {
  }

  method PutItems(a: JsObject, start: nat, items: seq<Val>, ghost origin: View) returns (r: Answer)
    requires Sound(a, origin)
    modifies a`props, a`names, a.items
    ensures Sound(a, origin)
    ensures r == Done(true) && items != [] ==> start + |items| <= MAX_LENGTH
    ensures Plain(old(a.Props()), a.extensible) ==>
              (r == Panics <==> items != [] && (start + |items| > MAX_LENGTH || Overrun(old(a.Room()), start)))
    ensures Plain(old(a.Props()), a.extensible) && r != Panics ==>
              r == Done(true) && Plain(a.Props(), a.extensible) && Filled(old(a.Props()), a.Props(), start, items, |items|)
  {
    hide AllData, Permitted, Sized, Plain, PutAt, Filled, JsObject.Own, JsObject.Slots, JsObject.SlotAt, EnumeratedOnce;
    hide Overrun, Covers, JsObject.Room;
    ghost var v, ext, s := a.Props(), a.extensible, a.Room();
    NothingFilled(v, start, items);
    r := Done(true);
    for i := 0 to |items|
      invariant Sound(a, origin) && r == Done(true) && (i > 0 ==> start + i <= MAX_LENGTH)
      invariant Plain(v, ext) ==> Plain(a.Props(), ext) && Filled(v, a.Props(), start, items, i)
      invariant Plain(v, ext) ==> if i == 0 then a.Room() == s else !Overrun(s, start) && Covers(a.Room(), start + i - 1)
    {
      ghost var w := a.Props();
      if i > 0 {
        NextHasRoom(a.Room(), start + i - 1);
      }
      r := PutElement(a, start + i, items[i], origin);
      if r != Done(true) {
        return;
      }
      if Plain(v, ext) {
        FillStep(v, w, a.Props(), ext, start, items, i);
      }
    }
  }

  lemma NextHasRoom(s: Shape, i: nat)
    ensures Covers(s, i) ==> !Overrun(s, i + 1)
  {
  }

  method PutLength(a: JsObject, newLen: nat, ghost origin: View) returns (r: Answer)
    requires Sound(a, origin) && newLen <= MAX_LENGTH
    modifies a`props, a`names, a.items
    ensures Sound(a, origin)
    ensures Plain(old(a.Props()), a.extensible) ==>
              r == Done(true) && Plain(a.Props(), a.extensible) && Ended(old(a.Props()), a.Props(), newLen)
    ensures Plain(old(a.Props()), a.extensible) && (forall l: nat :: Sized(old(a.Props()), l) ==> newLen >= l) ==>
              a.Room() == old(a.Room())
  {
    hide Plain, Permitted, DefineLength, Ended;
    ghost var v := a.Props();
    ghost var l, limit;
    LengthThere(a);
    r, l, limit := a.Put(LENGTH, Num(newLen as real), true);
    LengthEffect(v, a.Props(), a.extensible, newLen, l, limit, r);
    PermittedTrans(origin, v, a.Props(), a.extensible);
  }

  lemma LengthThere(a: JsObject)
    requires a.Valid() && a.isArray
    ensures a.Props()[LENGTH].Some?
  {
  }

  ghost predicate Ended(v: View, w: View, newLen: nat) {
    Sized(w, newLen) && forall j: nat {:trigger Item(w, j)} :: Item(w, j) == if j < newLen then Item(v, j) else None
  }

  lemma LengthEffect(v: View, w: View, extensible: bool, newLen: nat, l: nat, limit: nat, r: Answer)
    requires AllData(v) && newLen <= MAX_LENGTH && v[LENGTH].Some?
    requires !CanPut(v[LENGTH], extensible) ==> r == TypeError && w == v
    requires CanPut(v[LENGTH], extensible) ==> Sized(v, l) && DefineLength(v, w, extensible, ValueRequest(Num(newLen as real)), true, l, limit, r)
    ensures AllData(w)
    ensures Plain(v, extensible) ==> r == Done(true) && Plain(w, extensible) && Ended(v, w, newLen)
  {
    hide DefineLength, Sized;
    if CanPut(v[LENGTH], extensible) {
      PutLengthPlain(v, w, extensible, newLen, l, limit, r);
    }
  }

  // ---- The deleted elements ----

  /** The first `k` elements from an index on, holes included; the length is just enough for them. */
  ghost predicate Copied(v: View, w: View, start: nat, k: nat) {
    && Plain(w, true) && (forall j: nat {:trigger Item(w, j)} :: Item(w, j) == if j < k then Item(v, start + j) else None)
    && exists m: nat :: m <= k && Sized(w, m) && (m > 0 ==> Item(w, m - 1).Some?)
  }

  method CopyElements(a: JsObject, start: nat, del: nat) returns (r: Answer, result: JsObject)
    requires a.Valid() && AllData(a.Props()) && del <= MAX_LENGTH
    ensures fresh(result) && fresh(result.items) && result.Valid() && result.isArray
    ensures r == Panics <==> CopyRoom(a.Props(), start, del).None?
    ensures r != Panics ==> r == Done(true) && Copied(a.Props(), result.Props(), start, del)
  {
    hide AllData, Copied, Plain, Sized, JsObject.Own, JsObject.Slots, JsObject.SlotAt, JsObject.Props, EnumeratedOnce;
    hide CopyRoom, Overrun, Grown, JsObject.Room, Item;
    ghost var v := a.Props();
    result := new JsObject.Array();
    EmptyCopy(v, result.Props(), start);
    CopyStart(v, start);
    r := Done(true);
    for k := 0 to del
      invariant fresh(result) && fresh(result.items) && r == Done(true) && a.Valid() && a.Props() == v
      invariant result.Valid() && result.isArray && result.extensible && Copied(v, result.Props(), start, k)
      invariant CopyRoom(v, start, k) == Some(result.Room())
    {
      var x := GetElement(a, start + k);
      CopyNext(v, start, k);
      if x.Some? {
        r := CopyElement(result, k, x.value, v, start);
        if r == Panics {
          CopyFails(v, start, k + 1, del);
          return;
        }
      } else {
        CopiedHole(v, result.Props(), start, k);
      }
    }
  }

  method CopyElement(result: JsObject, k: nat, x: Val, ghost v: View, ghost start: nat) returns (r: Answer)
    requires result.Valid() && result.isArray && result.extensible && Copied(v, result.Props(), start, k)
    requires k < MAX_LENGTH && Item(v, start + k) == Some(x)
    modifies result`props, result`names, result.items
    ensures result.Valid() && (r == Panics <==> Overrun(old(result.Room()), k))
    ensures r != Panics ==> r == Done(true) && Copied(v, result.Props(), start, k + 1)
    ensures r != Panics ==> result.Room() == Grown(old(result.Room()), k)
  {
    hide Copied, Plain, Sized, DefineElement, Permitted, Overrun, Grown, Wider, Covers, JsObject.Room;
    ghost var w, full := result.Props(), result.CannotTake(Index(k));
    result.CannotTakeExactly(k);
    ghost var l, limit;
    r, l, limit := result.DefineOwnProperty(Index(k), SimpleRequest(x), false);
    CopiedItem(v, w, result.Props(), start, k, full, l, r);
  }

  lemma EmptyCopy(v: View, w: View, start: nat)
    requires forall n: Name :: w[n] == if n == LENGTH then Some(Data(Num(0.0), true, false, false)) else None
    ensures Copied(v, w, start, 0)
  {
    assert Sized(w, 0);
  }

  lemma CopiedHole(v: View, w: View, start: nat, k: nat)
    requires Copied(v, w, start, k) && Item(v, start + k).None?
    ensures Copied(v, w, start, k + 1)
  {
    hide Plain, Item, Sized;
  }

  lemma CopiedItem(v: View, w: View, w': View, start: nat, k: nat, full: bool, l: nat, r: Answer)
    requires Copied(v, w, start, k) && k < MAX_LENGTH && Item(v, start + k).Some? && Sized(w, l)
    requires DefineElement(w, w', true, k, SimpleRequest(Item(v, start + k).value), false, full, l, r)
    ensures w[Index(k)].None? && l <= k && r == if full then Panics else Done(true)
    ensures r != Panics ==> Copied(v, w', start, k + 1)
  {
    hide DefineElement, Sized;
    CopiedLength(v, w, start, k, l);
    assert Item(w, k) == None;
    assert w[Index(k)].None?;
    PutMissing(w, w', true, k, Item(v, start + k).value, false, full, l, r);
    if r == Done(true) {
      CopiedPut(v, w, w', start, k);
    }
  }

  lemma CopyStart(v: View, start: nat)
    ensures CopyRoom(v, start, 0) == Some(Dense(INITIAL_VALUE_SIZE, 0))
  {
  }

  lemma CopyNext(v: View, start: nat, k: nat)
    ensures var before := CopyRoom(v, start, k);
      CopyRoom(v, start, k + 1) == if before.None? || Item(v, start + k).None? then before
                                   else if Overrun(before.value, k) then None else Some(Grown(before.value, k))
  {
  }

  lemma CopiedLength(v: View, w: View, start: nat, k: nat, l: nat)
    requires Copied(v, w, start, k) && Sized(w, l)
    ensures l <= k
  {
  }

  lemma {:induction false} CopyFails(v: View, start: nat, k: nat, del: nat)
    requires k <= del && CopyRoom(v, start, k).None?
    ensures CopyRoom(v, start, del).None?
    decreases del - k
  {
    if k < del {
      CopyFails(v, start, k + 1, del);
    }
  }

  lemma CopiedPut(v: View, w: View, w': View, start: nat, k: nat)
    requires Copied(v, w, start, k) && Item(v, start + k).Some? && PutAt(w, w', true, k, Item(v, start + k).value)
    ensures Copied(v, w', start, k + 1)
  {
    hide Plain, Item, Sized;
    var m: nat :| m <= k && Sized(w, m) && (m > 0 ==> Item(w, m - 1).Some?);
    assert Sized(w', k + 1) && Item(w', k).Some?;
  }

  // ---- Putting it together ----

  /** What keeps the suffix from being moved. */
  ghost predicate MovePanics(s: Shape, v: View, start: nat, del: nat, count: nat, len: nat)
    requires start + del <= len
  {
    count > del && ((start + del < len && len - del + count > MAX_LENGTH) || Blocked(s, v, start + del, count - del))
  }

  /** What keeps the elements from being replaced: too long an array, a store that cannot take the first item, or one
      that cannot take an element where it has to be moved to. */
  ghost predicate ReplacePanics(s: Shape, v: View, start: nat, del: nat, count: nat, len: nat)
    requires start + del <= len
  {
    || len - del + count > MAX_LENGTH
    || (count > 0 && Overrun(s, start))
    || (count > del && Blocked(s, v, start + del, count - del))
  }

  /** The store of the deleted elements after the first `k` of them, if it had room for them. */
  ghost function CopyRoom(v: View, start: nat, k: nat): Option<Shape> {
    if k == 0 then Some(Dense(INITIAL_VALUE_SIZE, 0))
    else
      var before := CopyRoom(v, start, k - 1);
      if before.None? || Item(v, start + k - 1).None? then before
      else if Overrun(before.value, k - 1) then None
      else Some(Grown(before.value, k - 1))
  }

  ghost predicate SplicePanics(s: Shape, v: View, start: nat, del: nat, count: nat, len: nat)
    requires start + del <= len
  {
    CopyRoom(v, start, del).None? || ReplacePanics(s, v, start, del, count, len)
  }

  /** Arrays up to 2048 elements long, before and after, always have room. */
  lemma ShortSplices(s: Shape, v: View, start: nat, del: nat, count: nat, len: nat)
    requires Sized(v, len) && start + del <= len <= 2048 && len - del + count <= 2048
    ensures !SplicePanics(s, v, start, del, count, len)
  {
    forall i: nat, t: Shape {:trigger Overrun(t, i)} | Overrun(t, i)
      ensures i >= 2048
    {
      OverrunsExactly(t, i);
    }
    ShortCopies(v, start, del);
  }

  lemma {:induction false} ShortCopies(v: View, start: nat, k: nat)
    requires k <= 2048
    ensures CopyRoom(v, start, k).Some?
  {
    if k > 0 {
      ShortCopies(v, start, k - 1);
      var before := CopyRoom(v, start, k - 1).value;
      if Overrun(before, k - 1) {
        OverrunsAbove(before, k - 1, k - 1);
      }
    }
  }

  /** A store in chunks always has room: only the copy and the length can be in the way. */
  lemma ChunkedSplices(v: View, start: nat, del: nat, count: nat, len: nat)
    requires start + del <= len
    ensures SplicePanics(Chunked, v, start, del, count, len) <==>
      CopyRoom(v, start, del).None? || len - del + count > MAX_LENGTH
  {
  }

  /** The whole array after a splice: its length, and every element up to it. */
  ghost predicate SplicedTo(v: View, w: View, start: nat, del: nat, items: seq<Val>, len: nat)
    requires del <= len
  {
    && Sized(w, len - del + |items|)
    && forall j: nat {:trigger Item(w, j)} :: Item(w, j) == if j < len - del + |items| then Spliced(v, start, del, items, j) else None
  }

  /** Splicing replaces a run of elements by the items, in place, whichever way the rest has to move, and gives back
      the elements it took out. On every plain array it does so exactly if the stores have room. */
  method Splice(a: JsObject, relative: int, deleteCount: int, items: seq<Val>) returns (r: Answer, result: JsObject,
          ghost len: nat, ghost start: nat, ghost del: nat)
    requires a.Valid() && a.isArray && AllData(a.Props())
    modifies a`props, a`names, a.items
    ensures Sound(a, old(a.Props())) && Sized(old(a.Props()), len)
    ensures fresh(result) && fresh(result.items) && result.Valid() && result.isArray
    ensures StartsAt(len, relative, start) && Removes(len, start, deleteCount, del)
    ensures Plain(old(a.Props()), a.extensible) ==>
              (r == Panics <==> SplicePanics(old(a.Room()), old(a.Props()), start, del, |items|, len))
    ensures Plain(old(a.Props()), a.extensible) && r != Panics ==>
              r == Done(true) && SplicedTo(old(a.Props()), a.Props(), start, del, items, len)
              && Copied(old(a.Props()), result.Props(), start, del)
  {
    hide ReplacePanics, CopyRoom, JsObject.Room;
    hide AllData, Permitted, Plain, Sized, Copied, SplicedTo, ActualStart, ActualDeleteCount, JsObject.Own,
      JsObject.Slots, JsObject.SlotAt, EnumeratedOnce;
    ghost var v := a.Props();
    PermittedSame(v, a.extensible);
    var length, current := a.ReadLength();
    len := length;
    LengthBound(v, len);
    var actualStart := ActualStart(length, relative);
    var actualDeleteCount := ActualDeleteCount(length, actualStart, deleteCount);
    start, del := actualStart, actualDeleteCount;
    StartIs(length, relative);
    DeleteCountIs(length, actualStart, deleteCount);
    r, result := CopyElements(a, actualStart, actualDeleteCount);
    if r == Done(true) {
      r := Replace(a, actualStart, actualDeleteCount, items, length, v);
    }
  }

  method Replace(a: JsObject, start: nat, del: nat, items: seq<Val>, len: nat, ghost origin: View) returns (r: Answer)
    requires Sound(a, origin) && start + del <= len && Sized(a.Props(), len)
    modifies a`props, a`names, a.items
    ensures Sound(a, origin)
    ensures Plain(old(a.Props()), a.extensible) ==>
              (r == Panics <==> ReplacePanics(old(a.Room()), old(a.Props()), start, del, |items|, len))
    ensures Plain(old(a.Props()), a.extensible) && r != Panics ==>
              r == Done(true) && SplicedTo(old(a.Props()), a.Props(), start, del, items, len)
  {
    hide AllData, Permitted, Plain, Sized, Shifted, Filled, Ended, SplicedTo, Blocked, Overrun, JsObject.Room;
    hide JsObject.Own, JsObject.Slots, JsObject.SlotAt, EnumeratedOnce;
    ghost var v := a.Props();
    LengthBound(v, len);
    r := MoveSuffix(a, start, del, |items|, len, origin);
    if r != Done(true) {
      return;
    }
    ghost var shifted := a.Props();
    r := PutItems(a, start, items, origin);
    if r != Done(true) {
      return;
    }
    ghost var filled := a.Props();
    r := PutLength(a, len - del + |items|, origin);
    if Plain(v, a.extensible) {
      Assembled(v, shifted, filled, a.Props(), start, del, items, len);
    }
  }

  lemma LengthBound(v: View, l: nat)
    requires Sized(v, l)
    ensures l <= MAX_LENGTH
  {
  }

  /** Moves what follows the deleted elements to where it goes. */
  method MoveSuffix(a: JsObject, start: nat, del: nat, count: nat, len: nat, ghost origin: View) returns (r: Answer)
    requires Sound(a, origin) && start + del <= len && Sized(a.Props(), len)
    modifies a`props, a`names, a.items
    ensures Sound(a, origin)
    ensures r == Done(true) && (start + del < len || count == 0) ==> len - del + count <= MAX_LENGTH
    ensures Plain(old(a.Props()), a.extensible) ==>
              (r == Panics <==> MovePanics(old(a.Room()), old(a.Props()), start, del, count, len))
    ensures Plain(old(a.Props()), a.extensible) && r != Panics ==>
              r == Done(true) && Plain(a.Props(), a.extensible) && Shifted(old(a.Props()), a.Props(), start, del, count, len)
    ensures Plain(old(a.Props()), a.extensible) && r != Panics ==>
              (Overrun(a.Room(), start) <==> Overrun(old(a.Room()), start))
  {
    hide AllData, Permitted, Plain, Sized, Shifted, MovedUp, MovedDown, SameBelow, Blocked, DownRoom, Overrun;
    hide Covers, Item, JsObject.Room;
    ghost var v, ext, s := a.Props(), a.extensible, a.Room();
    LengthBound(v, len);
    if count < del {
      r := MoveDown(a, start, del, count, len, origin);
    } else if count > del {
      r := MoveSuffixUp(a, start, del, count, len, origin);
      if r == Done(true) && Plain(v, ext) {
        UpShifts(v, a.Props(), start, del, count, len);
      }
    } else {
      r := Done(true);
      NothingShifted(v, start, del, len);
    }
  }

  /** Moves the suffix down and deletes what is left behind it. */
  method MoveDown(a: JsObject, start: nat, del: nat, count: nat, len: nat, ghost origin: View) returns (r: Answer)
    requires Sound(a, origin) && start + del <= len <= MAX_LENGTH && count < del
    modifies a`props, a`names, a.items
    ensures Sound(a, origin)
    ensures Plain(old(a.Props()), a.extensible) ==>
              r == Done(true) && Plain(a.Props(), a.extensible) && Shifted(old(a.Props()), a.Props(), start, del, count, len)
    ensures Plain(old(a.Props()), a.extensible) ==> (Overrun(a.Room(), start) <==> Overrun(old(a.Room()), start))
  {
    hide AllData, Permitted, Plain, Sized, Shifted, MovedDown, SameBelow, DownRoom, Overrun, Covers, Item,
      JsObject.Room;
    ghost var v, ext, s := a.Props(), a.extensible, a.Room();
    AllHaveRoom(a);
    r := MoveSuffixDown(a, start, del, count, len, origin);
    if r != Done(true) {
      return;
    }
    ghost var moved, t := a.Props(), a.Room();
    r := DeleteTail(a, len, len - del + count, origin);
    if Plain(v, ext) {
      DownShifts(v, moved, a.Props(), start, del, count, len);
      DownRoomThen(s, t, a.Room(), v, moved, start, del, count, len);
      DownRoomStarts(s, a.Room(), v, start);
    }
  }

  lemma AllHaveRoom(a: JsObject)
    requires a.Valid() && a.isArray
    ensures forall j: nat {:trigger Item(a.Props(), j)} :: Item(a.Props(), j).Some? ==> Covers(a.Room(), j)
  {
    hide Item, Covers, Overrun, JsObject.Room;
    forall j: nat | Item(a.Props(), j).Some?
      ensures Covers(a.Room(), j)
    {
      ItemHasRoom(a, j, j);
    }
  }

  lemma DownRoomThen(s: Shape, t: Shape, u: Shape, v: View, moved: View, start: nat, del: nat, count: nat, len: nat)
    requires start + del <= len && count < del
    requires DownRoom(s, t, v, start) && MovedDown(v, moved, start, del, count, len - del)
    requires DownRoom(t, u, moved, len - del + count)
    ensures DownRoom(s, u, v, start)
  {
    hide Item;
    if NoneFrom(v, start) {
      assert NoneFrom(moved, len - del + count);
    }
  }

  lemma NothingShifted(v: View, start: nat, del: nat, len: nat)
    requires del <= len
    ensures Shifted(v, v, start, del, del, len)
  {
  }

  lemma Assembled(v: View, shifted: View, filled: View, w: View, start: nat, del: nat, items: seq<Val>, len: nat)
    requires start + del <= len && Shifted(v, shifted, start, del, |items|, len)
    requires Filled(shifted, filled, start, items, |items|) && Ended(filled, w, len - del + |items|)
    ensures SplicedTo(v, w, start, del, items, len)
  {
    hide Item, Sized;
  }

  // ---- A splice without room ----

  /** An array of `n` elements written one after the other. */
  method FilledArray(x: Val, n: nat) returns (a: JsObject)
    requires n <= 1280
    ensures fresh(a) && fresh(a.items) && a.Valid() && a.isArray && Plain(a.Props(), a.extensible)
    ensures Sized(a.Props(), n)
    ensures forall j: nat :: Item(a.Props(), j) == if j < n then Some(x) else None
    ensures a.Room() == Dense(RoomFor(n), n)
  {
    hide JsObject.Own, JsObject.Slots, JsObject.SlotAt, JsObject.Props, JsObject.Room, EnumeratedOnce, Overrun, Grown;
    hide Copied, Plain, Sized, RoomFor;
    a := new JsObject.Array();
    ghost var v: View := imap n: Name :: Everywhere(n, x);
    EmptyCopy(v, a.Props(), 0);
    NoRoomAtFirst();
    for k := 0 to n
      invariant fresh(a) && fresh(a.items) && a.Valid() && a.isArray && a.extensible && Copied(v, a.Props(), 0, k)
      invariant a.Room() == Dense(RoomFor(k), k)
    {
      RoomGrows(k);
      assert Item(v, 0 + k) == Some(x);
      var r := CopyElement(a, k, x, v, 0);
    }
    CopiedAll(v, a.Props(), x, n);
  }

  ghost function Everywhere(n: Name, x: Val): Option<Property> {
    Some(Data(x, true, true, true))
  }

  lemma NoRoomAtFirst()
    ensures RoomFor(0) == INITIAL_VALUE_SIZE
  {
  }

  lemma CopiedAll(v: View, w: View, x: Val, n: nat)
    requires Copied(v, w, 0, n) && forall j: nat :: Item(v, j) == Some(x)
    ensures Plain(w, true) && Sized(w, n) && forall j: nat :: Item(w, j) == if j < n then Some(x) else None
  {
    hide Plain;
    var m: nat :| m <= n && Sized(w, m) && (m > 0 ==> Item(w, m - 1).Some?);
    if n > 0 {
      assert Item(w, n - 1).Some?;
    }
  }

  /** Two thousand items in front of 641 elements: the last element has to go to index 2640, but a run of 1280 that is
      half used is doubled to 2560. */
  method SpliceWithoutRoom(x: Val) returns (r: Answer)
    ensures r == Panics
  {
    hide JsObject.Own, JsObject.Slots, JsObject.SlotAt, JsObject.Props, JsObject.Room, EnumeratedOnce;
    hide Plain, Sized, Item, CopyRoom, SplicePanics;
    var a := FilledArray(x, 641);
    ghost var v, s := a.Props(), a.Room();
    PlainData(v, a.extensible);
    Blocks641(s, v);
    var items := seq(2000, _ => x);
    var result;
    ghost var len, start, del;
    r, result, len, start, del := Splice(a, 0, 0, items);
    OneSize(v, 641, len);
  }

  lemma Blocks641(s: Shape, v: View)
    requires s == Dense(RoomFor(641), 641) && Item(v, 640).Some?
    ensures SplicePanics(s, v, 0, 0, 2000, 641)
  {
    hide Item, CopyRoom;
    assert Overrun(s, 640 + 2000);
    assert Blocked(s, v, 0, 2000);
  }

  lemma PlainData(v: View, extensible: bool)
    requires Plain(v, extensible)
    ensures AllData(v)
  {
  }

  lemma OneSize(v: View, l: nat, m: nat)
    requires Sized(v, l) && Sized(v, m)
    ensures l == m
  {
  }

  // ---- Reverse, section 15.4.4.8 ----

  /** The outer `lower` elements on both sides have changed places. */
  ghost predicate ReversedTo(v: View, w: View, len: nat, lower: nat) {
    forall j: nat {:trigger Item(w, j)} :: Item(w, j) == if j < len && (j < lower || j >= len - lower) then Item(v, len - 1 - j) else Item(v, j)
  }

  ghost predicate Swapped(v: View, w: View, extensible: bool, i: nat, k: nat) {
    && Plain(w, extensible) && (forall l: nat :: Sized(v, l) && i < l && k < l ==> Sized(w, l))
    && forall j: nat {:trigger Item(w, j)} :: Item(w, j) == if j == i then Item(v, k) else if j == k then Item(v, i) else Item(v, j)
  }

  /** Exchanges what is at two indices, where either may be a hole. */
  method SwapElements(a: JsObject, lower: nat, upper: nat, ghost origin: View) returns (r: Answer)
    requires Sound(a, origin) && lower < upper < MAX_LENGTH
    modifies a`props, a`names, a.items
    ensures Sound(a, origin)
    ensures Plain(old(a.Props()), a.extensible) ==>
              (r == Panics <==> Item(old(a.Props()), lower).Some? && Overrun(UsedOnce(old(a.Room())), upper))
    ensures Plain(old(a.Props()), a.extensible) && r != Panics ==>
              r == Done(true) && Swapped(old(a.Props()), a.Props(), a.extensible, lower, upper)
    ensures Plain(old(a.Props()), a.extensible) && r != Panics ==>
              SwapRoom(old(a.Room()), a.Room(), old(a.Props()), lower, upper)
  {
    hide Overrun, Covers, Wider, Grown, UsedOnce, JsObject.Room, SwapRoom, PutAt, DeletedAt;
    hide AllData, Permitted, Plain, Sized, Item, Swapped, JsObject.Own, JsObject.Slots, JsObject.SlotAt, EnumeratedOnce;
    ghost var v, s := a.Props(), a.Room();
    ItemHasRoom(a, lower, lower);
    ItemHasRoom(a, upper, upper);
    ItemHasRoom(a, upper, lower);
    var lowerValue := GetElement(a, lower);
    var upperValue := GetElement(a, upper);
    if upperValue.Some? {
      CoveredHasRoom(s, s, upper);
      r := PutElement(a, lower, upperValue.value, origin);
    } else if lowerValue.Some? {
      ClearedOnce(s, lower);
      r := DeleteElement(a, lower, origin);
    } else {
      r := Done(true);
    }
    if r != Done(true) {
      return;
    }
    ghost var w, t := a.Props(), a.Room();
    if Plain(v, a.extensible) {
      TookPlain(v, w, a.extensible, lower, upperValue);
      if upperValue.Some? {
        CoveredHasRoom(s, t, upper);
      }
    }
    if lowerValue.Some? {
      r := PutElement(a, upper, lowerValue.value, origin);
    } else if upperValue.Some? {
      r := DeleteElement(a, upper, origin);
    }
    if Plain(v, a.extensible) && r == Done(true) {
      SwapEffect(v, w, a.Props(), a.extensible, lower, upper);
      SwapsRoom(s, t, a.Room(), v, w, lower, upper);
    }
  }

  ghost function UsedOnce(s: Shape): Shape {
    if s.Dense? then Dense(s.room, s.used + 1) else Chunked
  }

  /** The store after two elements changed places: there is room for both, or there was nothing. */
  ghost predicate SwapRoom(s: Shape, t: Shape, v: View, lower: nat, upper: nat) {
    if Item(v, lower).None? && Item(v, upper).None? then t == s else Wider(s, t) && Covers(t, upper)
  }

  lemma CoveredHasRoom(s: Shape, t: Shape, i: nat)
    requires Covers(s, i) && Wider(s, t)
    ensures Covers(t, i) && !Overrun(t, i) && !Overrun(UsedOnce(s), i)
  {
  }

  lemma SwapsRoom(s: Shape, t: Shape, u: Shape, v: View, w: View, lower: nat, upper: nat)
    requires lower < upper && (Item(v, upper).Some? ==> Covers(s, upper)) && (Item(v, lower).Some? ==> Covers(s, lower))
    requires if Item(v, upper).Some? then Wider(s, t) else t == Cleared(s, v, lower)
    requires if Item(v, lower).Some? then TookRoom(t, u, upper, upper + 1)
             else if Item(v, upper).Some? then u == Cleared(t, w, upper) else u == t
    ensures SwapRoom(s, u, v, lower, upper)
  {
    hide Item;
  }

  lemma ClearedOnce(s: Shape, i: nat)
    requires Covers(s, i)
    ensures Grown(s, i) == UsedOnce(s) && Wider(s, UsedOnce(s)) && Covers(UsedOnce(s), i)
  {
  }

  /** An index was given what another one held, which may have been nothing. */
  ghost predicate Took(v: View, w: View, extensible: bool, i: nat, x: Option<Val>) {
    if x.Some? then PutAt(v, w, extensible, i, x.value) else DeletedAt(v, w, extensible, i) || (w == v && Item(v, i) == None && Plain(w, extensible))
  }

  lemma TookPlain(v: View, w: View, extensible: bool, i: nat, x: Option<Val>)
    requires Took(v, w, extensible, i, x)
    ensures Plain(w, extensible)
  {
    hide Plain, Item, Sized;
  }

  lemma SwapEffect(v: View, w: View, w': View, extensible: bool, i: nat, k: nat)
    requires i < k && Took(v, w, extensible, i, Item(v, k)) && Took(w, w', extensible, k, Item(v, i))
    ensures Swapped(v, w', extensible, i, k)
  {
    hide Item, Sized, Plain;
  }

  lemma ReverseStep(v: View, w: View, w': View, extensible: bool, len: nat, lower: nat)
    requires lower < len / 2 && ReversedTo(v, w, len, lower) && Swapped(w, w', extensible, lower, len - lower - 1)
    ensures ReversedTo(v, w', len, lower + 1) && Plain(w', extensible) && (Sized(w, len) ==> Sized(w', len))
  {
    hide Item, Sized, Plain;
  }

  lemma NothingReversed(v: View, len: nat)
    ensures ReversedTo(v, v, len, 0)
  {
  }

  lemma AllReversed(v: View, w: View, len: nat, j: nat)
    requires ReversedTo(v, w, len, len / 2) && j < len
    ensures Item(w, j) == Item(v, len - 1 - j)
  {
    hide Item;
    assert j < len / 2 || j >= len - len / 2 || len - 1 - j == j;
  }

  /** Some element of the first half is to go where the store, written to once more, has no room for it. */
  ghost predicate ReversePanics(s: Shape, v: View, len: nat) {
    exists j: nat {:trigger Item(v, j)} :: j < len / 2 && Item(v, j).Some? && Overrun(UsedOnce(s), len - 1 - j)
  }

  /** While an array is reversed: there is room for all that is still to come, or nothing has been met yet. */
  ghost predicate ReverseRoom(s: Shape, t: Shape, v: View, len: nat, lower: nat)
    requires lower <= len / 2
  {
    && (forall j: nat {:trigger Item(v, j)} :: j < lower && Item(v, j).Some? ==> !Overrun(UsedOnce(s), len - 1 - j))
    && if t == s then true else HasRoom(t, len - lower) && NeverOverrun(UsedOnce(s), len - lower)
  }

  lemma ReverseRoomStep(s: Shape, t: Shape, u: Shape, v: View, w: View, len: nat, lower: nat)
    requires lower < len / 2 && ReverseRoom(s, t, v, len, lower) && ReversedTo(v, w, len, lower)
    requires SwapRoom(t, u, w, lower, len - 1 - lower)
    requires !(Item(w, lower).Some? && Overrun(UsedOnce(t), len - 1 - lower))
    requires Item(w, len - 1 - lower).Some? ==> Covers(t, len - 1 - lower)
    ensures ReverseRoom(s, u, v, len, lower + 1)
  {
    hide Item;
    assert Item(w, lower) == Item(v, lower) && Item(w, len - 1 - lower) == Item(v, len - 1 - lower);
    if u != s {
      forall i: nat | t == s && i < len - 1 - lower
        ensures !Overrun(UsedOnce(s), i)
      {
        if Overrun(UsedOnce(s), i) {
          OverrunsAbove(UsedOnce(s), i, len - 1 - lower);
        }
      }
    }
  }

  lemma ReverseRoomAtFirst(s: Shape, v: View, len: nat)
    ensures ReverseRoom(s, s, v, len, 0)
  {
  }

  lemma ReverseBlocks(s: Shape, t: Shape, v: View, w: View, len: nat, lower: nat)
    requires lower < len / 2 && ReverseRoom(s, t, v, len, lower) && ReversedTo(v, w, len, lower)
    requires Item(w, lower).Some? && Overrun(UsedOnce(t), len - 1 - lower)
    ensures ReversePanics(s, v, len)
  {
    hide Item;
    assert Item(w, lower) == Item(v, lower);
  }

  lemma ReverseHadRoom(s: Shape, t: Shape, v: View, len: nat)
    requires ReverseRoom(s, t, v, len, len / 2)
    ensures !ReversePanics(s, v, len)
  {
  }

  /** Arrays of up to 2048 elements, and those in chunks, are always reversed. */
  lemma ShortReverses(s: Shape, v: View, len: nat)
    requires len <= 2048 || s.Chunked?
    ensures !ReversePanics(s, v, len)
  {
    if j: nat :| j < len / 2 && Item(v, j).Some? && Overrun(UsedOnce(s), len - 1 - j) {
      OverrunsAbove(UsedOnce(s), len - 1 - j, len);
    }
  }

  /** Reverses an array in place, holes included. On every plain array it does so exactly if the store has room. */
  method Reverse(a: JsObject) returns (r: Answer, ghost len: nat)
    requires a.Valid() && a.isArray && AllData(a.Props())
    modifies a`props, a`names, a.items
    ensures Sound(a, old(a.Props())) && Sized(old(a.Props()), len)
    ensures Plain(old(a.Props()), a.extensible) ==> (r == Panics <==> ReversePanics(old(a.Room()), old(a.Props()), len))
    ensures Plain(old(a.Props()), a.extensible) && r != Panics ==> r == Done(true) && Sized(a.Props(), len)
    ensures Plain(old(a.Props()), a.extensible) && r != Panics ==> forall j: nat :: j < len ==> Item(a.Props(), j) == Item(old(a.Props()), len - 1 - j)
  {
    hide ReverseRoom, ReversePanics, SwapRoom, Overrun, Covers, UsedOnce, Item, JsObject.Room;
    hide AllData, Permitted, Plain, Sized, Swapped, ReversedTo, JsObject.Own, JsObject.Slots, JsObject.SlotAt,
      EnumeratedOnce;
    ghost var v, ext, s := a.Props(), a.extensible, a.Room();
    PermittedSame(v, ext);
    var length, current := a.ReadLength();
    len := length;
    LengthBound(v, len);
    NothingReversed(v, len);
    ReverseRoomAtFirst(s, v, len);
    r := Done(true);
    var lower := 0;
    while lower != length / 2
      invariant lower <= length / 2 && Sound(a, v) && r == Done(true)
      invariant Plain(v, ext) ==> Plain(a.Props(), ext) && Sized(a.Props(), len) && ReversedTo(v, a.Props(), len, lower)
      invariant Plain(v, ext) ==> ReverseRoom(s, a.Room(), v, len, lower)
      decreases length / 2 - lower
    {
      ghost var w, t := a.Props(), a.Room();
      ItemHasRoom(a, length - lower - 1, length - lower - 1);
      r := SwapElements(a, lower, length - lower - 1, v);
      if r != Done(true) {
        if Plain(v, ext) {
          ReverseBlocks(s, t, v, w, len, lower);
        }
        return;
      }
      if Plain(v, ext) {
        ReverseRoomStep(s, t, a.Room(), v, w, len, lower);
        ReverseStep(v, w, a.Props(), ext, len, lower);
      }
      lower := lower + 1;
    }
    if Plain(v, ext) {
      ReverseHadRoom(s, a.Room(), v, len);
    }
    forall j: nat | Plain(v, ext) && j < len
      ensures Item(a.Props(), j) == Item(v, len - 1 - j)
    {
      AllReversed(v, a.Props(), len, j);
    }
  }

  /** 641 elements in an array of length 3000: the first element has to go to index 2999. */
  method ReverseWithoutRoom(x: Val) returns (r: Answer)
    ensures r == Panics
  {
    hide JsObject.Own, JsObject.Slots, JsObject.SlotAt, JsObject.Props, JsObject.Room, EnumeratedOnce;
    hide Plain, Sized, Item, ReversePanics, Ended, Permitted, AllData;
    var a := FilledArray(x, 641);
    ghost var v, s := a.Props(), a.Room();
    PlainData(v, a.extensible);
    PermittedSame(v, a.extensible);
    LongerThan(v, 641, 3000);
    var done := PutLength(a, 3000, v);
    LongBlocks(s, v, a.Props(), x);
    ghost var w := a.Props();
    ghost var len;
    r, len := Reverse(a);
    OneSize(w, 3000, len);
  }

  lemma LongerThan(v: View, len: nat, newLen: nat)
    requires Sized(v, len) && newLen >= len
    ensures forall l: nat :: Sized(v, l) ==> newLen >= l
  {
    hide Sized;
    forall l: nat | Sized(v, l)
      ensures newLen >= l
    {
      OneSize(v, l, len);
    }
  }

  lemma LongBlocks(s: Shape, v: View, w: View, x: Val)
    requires s == Dense(RoomFor(641), 641) && Ended(v, w, 3000) && Item(v, 0) == Some(x)
    ensures ReversePanics(s, w, 3000) && Sized(w, 3000)
  {
    hide Item, Sized;
    assert Item(w, 0).Some? && Overrun(UsedOnce(s), 3000 - 1 - 0);
  }
}
