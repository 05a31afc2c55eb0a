/** Objects and arrays: defining and deleting properties, the length of an array, and freezing. */
module JsObject {
  import opened Wrappers
  import opened Properties
  import opened ObjectRules
  import SparseArray

  datatype StoreKey = End | Missing | Key(name: Name, enumerable: bool)

  /** A step of a run. */
  datatype Op = Define(n: Name, d: Descriptor, throws: bool) | Remove(n: Name, throws: bool) | Freezes {
    predicate Possible() {
      Define? ==> n.Possible() && d.OneKind()
    }
  }

  ghost predicate EnumeratedOnce(names: seq<Name>, props: map<Name, Property>) {
    && (forall n: Name {:trigger n in props} {:trigger n in names} :: n in names <==> n in props)
    && (forall i: nat, j: nat :: i < j < |names| ==> names[i] != names[j])
  }

  class JsObject {
    const isArray: bool
    const items: SparseArray.SparseArray<Property>
    var props: map<Name, Property>
    var names: seq<Name>    // the order in which props are enumerated
    var extensible: bool

    /** Index properties of an array live in the sparse array, everything else in the table. */
    ghost predicate Base()
      reads this, items
    {
      && items.Valid() && EnumeratedOnce(names, props)
      && (isArray ==> forall n: Name :: n in props ==> n.Named?)
      && (!isArray ==> forall i: nat :: items.At(i) == None)
    }

    ghost function Own(n: Name): Option<Property>
      requires Base()
      reads this, items
    {
      if isArray && n.Index? then items.At(n.i) else if n in props then Some(props[n]) else None
    }

    ghost function Props(): (v: View)
      requires Base()
      reads this, items
      ensures forall n: Name :: v[n] == Own(n)
    {
      imap n: Name :: Own(n)
    }

    constructor Object()
      ensures !isArray && Valid() && extensible && fresh(items) && forall n: Name :: Props()[n] == None
    {
      isArray, props, names, extensible := false, map[], [], true;
      items := new SparseArray.SparseArray<Property>();
    }

    constructor Array()
      ensures isArray && Valid() && extensible && fresh(items)
      ensures Room() == SparseArray.Dense(SparseArray.INITIAL_VALUE_SIZE, 0)
      ensures forall n: Name :: Props()[n] == if n == LENGTH then Some(Data(Num(0.0), true, false, false)) else None
    {
      isArray, extensible := true, true;
      props, names := map[LENGTH := Data(Num(0.0), true, false, false)], [LENGTH];
      items := new SparseArray.SparseArray<Property>();
      new;
      assert Sized(Props(), 0);
    }

    // ---- Enumeration ----

    /** The names in the order of enumeration, slot by slot: first the items, then the table. */
    ghost function Slots(): seq<Option<Name>>
      requires Base()
      reads this, items
    {
      seq(items.Capacity() + |names|, o requires Base() && 0 <= o < items.Capacity() + |names| reads this, items => SlotAt(o))
    }

    ghost function SlotAt(o: nat): Option<Name>
      requires Base() && o < items.Capacity() + |names|
      reads this, items
    {
      if o < items.Capacity() then (if items.At(items.IndexAt(o)).Some? then Some(Index(items.IndexAt(o))) else None)
      else Some(names[o - items.Capacity()])
    }

    method GetKey(o: nat) returns (key: StoreKey)
      requires Base()
      ensures key.End? <==> o >= |Slots()|
      ensures key.Missing? ==> Slots()[o].None?
      ensures key.Key? ==> Slots()[o] == Some(key.name) && Own(key.name).Some? && key.enumerable == Own(key.name).value.enumerable
    {
      var count := items.Capacity();
      if o < count {
        var k := items.GetKey(o);
        if k.Missing? {
          return Missing;
        }
        var p := items.GetValue(k.index);
        return Key(Index(k.index), p.value.enumerable);
      }
      if o - count < |names| {
        assert names[o - count] in names;
        return Key(names[o - count], props[names[o - count]].enumerable);
      }
      return End;
    }

    /** The slots name exactly the properties there are. */
    lemma EveryName(n: Name)
      requires Base()
      ensures Some(n) in Slots() <==> Own(n).Some?
    {
      if Own(n).Some? {
        var o := SlotFor(n);
        assert Slots()[o] == Some(n);
      }
      if Some(n) in Slots() {
        var o: nat :| o < |Slots()| && Slots()[o] == Some(n);
        assert SlotAt(o) == Some(n);
        if o >= items.Capacity() {
          assert n in names;
        }
      }
    }

    lemma EveryNameHasSlot()
      requires Base()
      ensures forall n: Name :: Props()[n].Some? ==> Some(n) in Slots()
    {
      forall n: Name
        ensures Props()[n].Some? ==> Some(n) in Slots()
      {
        EveryName(n);
      }
    }

    lemma SlotFor(n: Name) returns (o: nat)
      requires Base() && Own(n).Some?
      ensures o < items.Capacity() + |names| && SlotAt(o) == Some(n)
    {
      if isArray && n.Index? {
        o := items.EveryKey(n.i);
      } else {
        assert n in names;
        var k: nat :| k < |names| && names[k] == n;
        o := items.Capacity() + k;
      }
    }

    // ---- The store ----

    ghost function Room(): SparseArray.Shape
      reads items
    {
      items.ShapeNow()
    }

    /** The store after one write, which only an index of an array makes to it. */
    ghost function Written(s: SparseArray.Shape, n: Name): SparseArray.Shape {
      if isArray && n.Index? then SparseArray.Grown(s, n.i) else s
    }

    lemma HeldIsCovered(i: nat)
      requires Base() && isArray && Own(Index(i)).Some?
      ensures SparseArray.Covers(Room(), i)
    {
      items.HeldIsCovered(i);
    }

    method GetOwnProperty(n: Name) returns (p: Option<Property>)
      requires Base()
      ensures p == Own(n)
    {
      if isArray && n.Index? {
        p := items.GetValue(n.i);
      } else {
        p := if n in props then Some(props[n]) else None;
      }
    }

    /** An array may be unable to take a new index. */
    ghost predicate CannotTake(n: Name)
      requires Base()
      reads this, items
    {
      isArray && n.Index? && Own(n).None? && items.Overruns(n.i)
    }

    lemma CannotTakeExactly(i: nat)
      requires Base() && isArray
      ensures CannotTake(Index(i)) <==> Props()[Index(i)].None? && SparseArray.Overrun(Room(), i)
    {
    }

    /** Adds or replaces a property. */
    method StoreProperty(n: Name, p: Property) returns (ok: bool)
      requires Base()
      modifies this`props, this`names, items
      ensures Base() && ok == !old(CannotTake(n)) && (ok ==> Room() == Written(old(Room()), n))
      ensures Props() == if ok then old(Props())[n := Some(p)] else old(Props())
      ensures old(Own(n)).Some? ==> Slots() == old(Slots())
    {
      hide Base, Slots, SlotAt;
      if isArray && n.Index? {
        ok := SetItem(n.i, Some(p));
      } else {
        StoreNamed(n, p);
        ok := true;
      }
    }

    /** Sets or clears an item of an array. */
    method SetItem(i: nat, p: Option<Property>) returns (ok: bool)
      requires Base() && isArray
      modifies items
      ensures Base() && ok == !old(items.Overruns(i)) && (ok ==> Room() == SparseArray.Grown(old(Room()), i))
      ensures Props() == if ok then old(Props())[Index(i) := p] else old(Props())
      ensures old(Own(Index(i))).Some? ==> ok && items.Capacity() == old(items.Capacity())
      ensures old(Own(Index(i))).Some? ==> forall o: nat {:trigger items.IndexAt(o)} :: o < items.Capacity() ==> items.IndexAt(o) == old(items.IndexAt(o))
      ensures old(Own(Index(i))).Some? && p.Some? ==> Slots() == old(Slots())
    {
      hide EnumeratedOnce, SparseArray.SparseArray.Valid, SparseArray.SparseArray.Overruns, SparseArray.SparseArray.At;
      ghost var before := Props();
      ok := items.SetValue(i, p);
      assert forall k: nat :: items.At(k) == if ok && k == i then p else before[Index(k)];
    }

    method StoreNamed(n: Name, p: Property)
      requires Base() && !(isArray && n.Index?)
      modifies this`props, this`names
      ensures Base() && Props() == old(Props())[n := Some(p)]
      ensures old(Own(n)).Some? ==> Slots() == old(Slots())
    {
      hide Base, Slots, SlotAt, EnumeratedOnce;
      if n in props {
        ReplaceNamed(n, p);
      } else {
        AddNamed(n, p);
      }
    }

    method ReplaceNamed(n: Name, p: Property)
      requires Base() && !(isArray && n.Index?) && n in props
      modifies this`props
      ensures Base() && Props() == old(Props())[n := Some(p)] && Slots() == old(Slots())
    {
      StoredOnce(names, n, p, props);
      hide EnumeratedOnce;
      props := props[n := p];
    }

    method AddNamed(n: Name, p: Property)
      requires Base() && !(isArray && n.Index?) && n !in props
      modifies this`props, this`names
      ensures Base() && Props() == old(Props())[n := Some(p)]
    {
      StoredOnce(names, n, p, props);
      hide Slots, SlotAt, EnumeratedOnce;
      names := names + [n];
      props := props[n := p];
    }

    /** Removes a property that is there. */
    method RemoveProperty(n: Name)
      requires Base() && Own(n).Some?
      modifies this`props, this`names, items
      ensures Base() && Props() == old(Props())[n := None] && Room() == Written(old(Room()), n)
      ensures isArray && n.Index? ==> props == old(props) && names == old(names)
      ensures isArray && n.Index? ==> items.Capacity() == old(items.Capacity())
      ensures isArray && n.Index? ==> forall o: nat {:trigger items.IndexAt(o)} :: o < items.Capacity() ==> items.IndexAt(o) == old(items.IndexAt(o))
    {
      hide Base, Slots, SlotAt;
      if isArray && n.Index? {
        var ok := SetItem(n.i, None);
      } else {
        RemoveNamed(n);
      }
    }

    method RemoveNamed(n: Name)
      requires Base() && !(isArray && n.Index?) && Own(n).Some?
      modifies this`props, this`names
      ensures Base() && Props() == old(Props())[n := None]
    {
      hide SlotAt, Slots;
      assert n in names;
      var k: nat :| k < |names| && names[k] == n;
      RemovedOnce(names, k, props);
      hide EnumeratedOnce;
      names := names[..k] + names[k + 1..];
      props := props - {n};
    }

    // ---- Section 8.12 ----

    method Delete(n: Name, throws: bool) returns (r: Answer)
      requires Base()
      modifies this`props, this`names, items
      ensures Base()
      ensures ObjectDelete(old(Props()), Props(), n, throws, r)
      ensures Room() == if old(Own(n)).Some? && old(Own(n)).value.configurable then Written(old(Room()), n) else old(Room())
      ensures isArray && n.Index? ==> props == old(props) && names == old(names)
      ensures isArray && n.Index? ==> items.Capacity() == old(items.Capacity())
      ensures isArray && n.Index? ==> forall o: nat {:trigger items.IndexAt(o)} :: o < items.Capacity() ==> items.IndexAt(o) == old(items.IndexAt(o))
    {
      var p := GetOwnProperty(n);
      if p.None? {
        return Done(true);
      }
      if p.value.configurable {
        RemoveProperty(n);
        return Done(true);
      }
      return Refuse(throws);
    }

    /** [[DefineOwnProperty]] for ordinary objects. */
    method DefineOwnObject(n: Name, d: Descriptor, throws: bool) returns (r: Answer)
      requires Base() && d.OneKind()
      modifies this`props, this`names, items
      ensures Base()
      ensures ObjectDefine(old(Props()), Props(), extensible, n, d, throws, old(CannotTake(n)), r)
      ensures old(Own(n)).Some? ==> Slots() == old(Slots())
      ensures r == Done(true) ==> Room() == Written(old(Room()), n) || (old(Own(n)).Some? && Room() == old(Room()))
      ensures r != Done(true) && r != Panics ==> Room() == old(Room())
    {
      hide Decide, Target, MayBecome;
      var current := GetOwnProperty(n);
      var decision := Decide(current, extensible, d);
      DecidesExactly(current, extensible, d);
      match decision
      case Reject => return Refuse(throws);
      case Keep =>
        assert Defined(Props(), n, d) == Props();
        return Done(true);
      case Store(p) =>
        var ok := StoreProperty(n, p);
        return if ok then Done(true) else Panics;
    }

    // ---- Section 15.4.5.1 ----

    ghost predicate Valid()
      reads this, items
    {
      Base() && (isArray ==> exists l: nat :: Sized(Props(), l))
    }

    method ReadLength() returns (l: nat, desc: Descriptor)
      requires Valid() && isArray
      ensures Sized(Props(), l) && desc == AsProperty(Props()[LENGTH].value)
    {
      ghost var k: nat :| Sized(Props(), k);
      var p := GetOwnProperty(LENGTH);
      LengthOf(k);
      l, desc := AsLength(p.value.value).value, AsProperty(p.value);
    }

    /** `now` is what the array holds and `index` what its slots stand for. */
    ghost predicate Mirrors(now: imap<nat, Option<Property>>, index: imap<nat, nat>)
      reads this, items
    {
      && items.Valid() && (forall k: nat {:trigger items.At(k)} :: items.At(k) == Held(now, k))
      && (forall o: nat {:trigger items.IndexAt(o)} :: o < items.Capacity() ==> items.IndexAt(o) == SlotOf(index, o))
    }

    ghost method Snapshot() returns (now: imap<nat, Option<Property>>, index: imap<nat, nat>)
      requires Base()
      ensures Mirrors(now, index) && Down(now, now, index, items.Capacity(), 0, items.Capacity())
    {
      now := imap k: nat | true :: items.At(k);
      index := imap o: nat | o < items.Capacity() :: items.IndexAt(o);
      forall i: nat, j: nat | i < j < items.Capacity()
        ensures SlotOf(index, i) < SlotOf(index, j)
      {
        items.KeysIncrease(i, j);
      }
      forall k: nat | Held(now, k).Some?
        ensures HadSlot(index, items.Capacity(), k)
      {
        var o := items.EveryKey(k);
        assert SlotOf(index, o) == k;
      }
    }

    /** Deletes the property at an index the array holds. */
    method DeleteIndex(at: nat, ghost now: imap<nat, Option<Property>>, ghost index: imap<nat, nat>) returns (ok: bool)
      requires Base() && isArray && Mirrors(now, index) && Held(now, at).Some?
      modifies this`props, this`names, items
      ensures Base() && props == old(props) && names == old(names) && items.Capacity() == old(items.Capacity())
      ensures ok == Held(now, at).value.configurable && Mirrors(if ok then now[at := None] else now, index)
    {
      assert items.At(at) == Own(Index(at));
      var r := Delete(Index(at), false);
      assert forall k: nat {:trigger items.At(k)} :: items.At(k) == Own(Index(k));
      ok := r == Done(true);
    }

    /** Deletes index properties from the top down to the new length, or to the first that will not go. */
    method DeleteDown(newLen: nat) returns (stuck: Option<nat>, ghost was: imap<nat, Option<Property>>,
            ghost now: imap<nat, Option<Property>>)
      requires Base() && isArray
      modifies this`props, this`names, items
      ensures Base() && props == old(props) && names == old(names)
      ensures forall k: nat {:trigger Held(was, k)} :: Held(was, k) == old(items.At(k))
      ensures forall k: nat {:trigger items.At(k)} :: items.At(k) == Held(now, k)
      ensures Cut(now, was, if stuck.Some? then stuck.value + 1 else newLen)
      ensures stuck.Some? ==> stuck.value >= newLen && Held(was, stuck.value).Some? && !Held(was, stuck.value).value.configurable
    {
      hide Held, SlotOf, Down, Cut, Base;
      ghost var index;
      was, index := Snapshot();
      now := was;
      var i := items.Capacity();
      ghost var cap := i;
      AnyLength(was, index, cap, newLen);
      while i > 0
        invariant Base() && props == old(props) && names == old(names) && i <= cap == items.Capacity()
        invariant Mirrors(now, index) && Down(now, was, index, cap, newLen, i)
      {
        i := i - 1;
        BaseItems();
        var key := items.GetKey(i);
        assert items.IndexAt(i) == SlotOf(index, i) && items.At(items.IndexAt(i)) == Held(now, SlotOf(index, i));
        if key.Missing? {
          StepEmpty(now, was, index, cap, newLen, i);
          continue;
        }
        if key.index < newLen {
          StopAt(now, was, index, cap, newLen, i);
          return None, was, now;
        }
        var ok := DeleteIndex(key.index, now, index);
        if !ok {
          StopAt(now, was, index, cap, newLen, i);
          StuckAt(now, was, index, cap, newLen, i);
          return Some(key.index), was, now;
        }
        StepDeleted(now, was, index, cap, newLen, i);
        now := now[key.index := None];
      }
      StopAtBottom(now, was, index, cap, newLen);
      return None, was, now;
    }

    /** Deletes the index properties from a length on, in terms of the properties. */
    method DeleteFrom(newLen: nat) returns (stuck: Option<nat>)
      requires Base() && isArray
      modifies this`props, this`names, items
      ensures Base()
      ensures var limit := if stuck.Some? then stuck.value + 1 else newLen;
        Shortened(old(Props()), Props(), limit) && StopsAt(old(Props()), newLen, limit)
      ensures stuck.Some? ==> stuck.value >= newLen
    {
      ghost var before := Props();
      ghost var was, now;
      stuck, was, now := DeleteDown(newLen);
      assert forall i: nat {:trigger before[Index(i)]} :: before[Index(i)] == Held(was, i);
      assert forall i: nat {:trigger Props()[Index(i)]} :: Props()[Index(i)] == items.At(i);
      assert forall n: Name {:trigger Props()[n]} :: n.Named? ==> Props()[n] == before[n];
    }

    /** A definition of the length that there is. */
    method ChangeLength(d: Descriptor, throws: bool) returns (r: Answer)
      requires Base() && Props()[LENGTH].Some? && d.OneKind()
      modifies this`props, this`names, items
      ensures Base() && Slots() == old(Slots()) && Room() == old(Room())
      ensures ObjectDefine(old(Props()), Props(), extensible, LENGTH, d, throws, false, r)
      ensures var p := old(Props())[LENGTH];
        if MayBecome(p.value, Target(p, d)) then r == Done(true) && Props() == old(Props())[LENGTH := Some(Target(p, d))]
        else r == Refuse(throws) && Props() == old(Props())
    {
      hide Target, MayBecome;
      r := DefineOwnObject(LENGTH, d, throws);
    }

    /** A smaller length. */
    method Shrink(d: Descriptor, newLen: nat, throws: bool) returns (r: Answer, ghost limit: nat)
      requires Base() && isArray && d.OneKind() && d.value.Some? && AsLength(d.value.value) == Some(newLen)
      requires Props()[LENGTH].Some? && Props()[LENGTH].value.Data? && Props()[LENGTH].value.writable
      requires !Props()[LENGTH].value.configurable
      modifies this`props, this`names, items
      ensures Base() && ShrinkLength(old(Props()), Props(), d, newLen, throws, limit, r)
    {
      hide Base, Target, MayBecome, Shortened, CutTo, StopsAt, ObjectDefine, AsLength, Unlocked, Restored;
      ghost var v := Props();
      limit := 0;
      UnlockedOneKind(d);
      r := ChangeLength(Unlocked(d), throws);
      if r != Done(true) {
        r := Refuse(throws);
        return;
      }
      LengthUnlocked(v, d, newLen);
      ghost var unlocked := Props();
      var stuck := DeleteFrom(newLen);
      limit := if stuck.Some? then stuck.value + 1 else newLen;
      ghost var cut := Props();
      LengthKept(unlocked, cut, limit);
      r := Relock(d, stuck, newLen, throws, v, cut, limit);
      Assembled(v, unlocked, cut, Props(), newLen, limit, d.writable != Some(false));
    }

    /** After the deletions: the length stays at `stuck`, and is made read-only if that was asked for. */
    method Relock(d: Descriptor, stuck: Option<nat>, newLen: nat, throws: bool, ghost v: View, ghost cut: View,
            ghost limit: nat) returns (r: Answer)
      requires Base() && Props() == cut && d.OneKind() && d.value.Some? && v[LENGTH].Some?
      requires cut[LENGTH] == LengthProperty(v, newLen, true)
      requires d.configurable != Some(true) && (d.enumerable.Some? ==> d.enumerable.value == v[LENGTH].value.enumerable)
      requires limit == if stuck.Some? then stuck.value + 1 else newLen
      modifies this`props, this`names, items
      ensures Base() && Props() == cut[LENGTH := LengthProperty(v, limit, d.writable != Some(false))]
      ensures r == if stuck.Some? then Refuse(throws) else Done(true)
    {
      hide Base, Target, MayBecome, ObjectDefine, Unlocked, Restored;
      if stuck.Some? {
        LengthRestored(v, cut, d, newLen, limit);
        r := ChangeLength(Restored(d, stuck.value + 1), false);
        r := Refuse(throws);
      } else {
        if d.writable == Some(false) {
          LengthLocked(v, cut, newLen);
          r := ChangeLength(DEFAULT.(writable := Some(false)), false);
        }
        r := Done(true);
      }
    }

    /** [[DefineOwnProperty]] of an array for "length", with a value. */
    method DefineLengthProperty(d: Descriptor, throws: bool) returns (r: Answer, ghost l: nat, ghost limit: nat)
      requires Valid() && isArray && d.OneKind() && d.value.Some?
      modifies this`props, this`names, items
      ensures Base() && Sized(old(Props()), l)
      ensures DefineLength(old(Props()), Props(), extensible, d, throws, l, limit, r)
      ensures AsLength(d.value.value).Some? && AsLength(d.value.value).value >= l ==> Slots() == old(Slots()) && Room() == old(Room())
    {
      hide Base, Target, MayBecome, ObjectDefine, ShrinkLength, AsLength;
      var len, current := ReadLength();
      l, limit := len, 0;
      var newLen := AsLength(d.value.value);
      if newLen.None? {
        r := RangeError;
      } else if newLen.value >= len {
        r := ChangeLength(d, throws);
      } else if !current.IsWritable() {
        r := Refuse(throws);
        NotShrunk(Props(), d, newLen.value, throws, limit);
      } else {
        r, limit := Shrink(d, newLen.value, throws);
      }
    }

    /** [[DefineOwnProperty]] of an array for an index. */
    method DefineElementProperty(i: nat, d: Descriptor, throws: bool) returns (r: Answer, ghost l: nat)
      requires Valid() && isArray && d.OneKind()
      modifies this`props, this`names, items
      ensures Base() && Sized(old(Props()), l)
      ensures DefineElement(old(Props()), Props(), extensible, i, d, throws, old(CannotTake(Index(i))), l, r)
      ensures r == Done(true) ==> TookRoom(old(Room()), Room(), i, l)
      ensures old(Own(Index(i))).Some? ==> Slots() == old(Slots())
    {
      hide Base, Target, MayBecome, CannotTake, Slots, SlotAt, Own, Props, ObjectRules.Sized;
      ghost var v := Props();
      var len, current := ReadLength();
      l := len;
      SizedParts(v, l, i);
      if i >= len && !current.IsWritable() {
        r := Refuse(throws);
        return;
      }
      ghost var room := Room();
      ghost var taken := v[Index(i)].Some?;
      CannotTakeExactly(i);
      if taken {
        HeldIsCovered(i);
      }
      r := DefineOwnObject(Index(i), d, false);
      ghost var v' := Props();
      ghost var room' := Room();
      if r == Done(true) {
        TakesRoom(room, room', i, taken);
      }
      if r == Panics {
      } else if r != Done(true) {
        r := Refuse(throws);
      } else if i >= len {
        LengthExtended(v, i + 1);
        r := ChangeLength(current.(value := Some(Num((i + 1) as real))), false);
        r := Done(true);
      } else {
        ghost var full := CannotTake(Index(i));
        r := DefineOwnObject(Index(i), d, throws);
        DefinedAgain(v, v', Props(), extensible, Index(i), d, throws, full, r);
        TakesRoom(room', Room(), i, true);
        WiderTrans(room, room', Room());
      }
    }

    method DefineOwnArray(n: Name, d: Descriptor, throws: bool) returns (r: Answer, ghost l: nat, ghost limit: nat)
      requires Valid() && isArray && d.OneKind()
      modifies this`props, this`names, items
      ensures Base() && Sized(old(Props()), l)
      ensures ArrayDefine(old(Props()), Props(), extensible, n, d, throws, old(CannotTake(n)), l, limit, r)
      ensures n.Index? && r == Done(true) ==> TookRoom(old(Room()), Room(), n.i, l)
      ensures n == LENGTH && d.value.Some? && Lengthens(d.value.value, l) ==> Room() == old(Room())
      ensures old(Own(n)).Some? && (n == LENGTH && d.value.Some? ==> d.value == Some(Num(l as real))) ==> Slots() == old(Slots())
    {
      hide Base, Target, MayBecome, CannotTake, DefineLength, DefineElement, ObjectDefine;
      limit := 0;
      if n == LENGTH && d.value.Some? {
        r, l, limit := DefineLengthProperty(d, throws);
        LengthOf(l);
      } else if n.Index? {
        r, l := DefineElementProperty(n.i, d, throws);
      } else {
        ghost var k: nat :| Sized(Props(), k);
        l := k;
        r := DefineOwnObject(n, d, throws);
      }
    }

    /** Defining a property does what section 8.12.9 says for an object and section 15.4.5.1 for an array, and does
        nothing that is not permitted. */
    method DefineOwnProperty(n: Name, d: Descriptor, throws: bool) returns (r: Answer, ghost l: nat, ghost limit: nat)
      requires Valid() && (isArray ==> n.Possible()) && d.OneKind()
      modifies this`props, this`names, items
      ensures Valid() && Permitted(old(Props()), Props(), extensible)
      ensures isArray ==> Sized(old(Props()), l)
      ensures isArray ==> ArrayDefine(old(Props()), Props(), extensible, n, d, throws, old(CannotTake(n)), l, limit, r)
      ensures isArray && n.Index? && r == Done(true) ==> TookRoom(old(Room()), Room(), n.i, l)
      ensures isArray && n == LENGTH && d.value.Some? && Lengthens(d.value.value, l) ==> Room() == old(Room())
      ensures !isArray ==> ObjectDefine(old(Props()), Props(), extensible, n, d, throws, false, r)
      ensures old(Own(n)).Some? && (isArray && n == LENGTH && d.value.Some? ==> d.value == Some(Num(l as real))) ==> Slots() == old(Slots())
    {
      hide Base, Target, MayBecome, ObjectDefine, ArrayDefine, ObjectRules.Sized, Permitted;
      ghost var v := Props();
      ghost var full := CannotTake(n);
      if isArray {
        r, l, limit := DefineOwnArray(n, d, throws);
        DefineArrayPermitted(v, Props(), extensible, n, d, throws, full, l, limit, r);
      } else {
        l, limit := 0, 0;
        r := DefineOwnObject(n, d, throws);
        DefineObjectPermitted(v, Props(), extensible, n, d, throws, full, r);
      }
    }

    method DeleteProperty(n: Name, throws: bool) returns (r: Answer)
      requires Valid()
      modifies this`props, this`names, items
      ensures Valid() && Permitted(old(Props()), Props(), extensible)
      ensures ObjectDelete(old(Props()), Props(), n, throws, r)
      ensures Room() == if old(Own(n)).Some? && old(Own(n)).value.configurable then Written(old(Room()), n) else old(Room())
    {
      hide Base, ObjectDelete, ObjectRules.Sized, Permitted;
      ghost var v := Props();
      r := Delete(n, throws);
      DeletePermitted(v, Props(), extensible, n, throws, r);
    }

    /** [[Put]] of a data property. */
    method Put(n: Name, x: Val, throws: bool) returns (r: Answer, ghost l: nat, ghost limit: nat)
      requires Valid() && (isArray ==> n.Possible()) && (Own(n).Some? ==> Own(n).value.Data?)
      modifies this`props, this`names, items
      ensures Valid() && Permitted(old(Props()), Props(), extensible)
      ensures !CanPut(old(Own(n)), extensible) ==> r == Refuse(throws) && Props() == old(Props())
      ensures CanPut(old(Own(n)), extensible) && isArray ==>
                Sized(old(Props()), l) && ArrayDefine(old(Props()), Props(), extensible, n, PutRequest(old(Own(n)), x), throws, old(CannotTake(n)), l, limit, r)
      ensures CanPut(old(Own(n)), extensible) && isArray && n.Index? && r == Done(true) ==> TookRoom(old(Room()), Room(), n.i, l)
      ensures CanPut(old(Own(n)), extensible) && isArray && n == LENGTH && Lengthens(x, l) ==> Room() == old(Room())
      ensures CanPut(old(Own(n)), extensible) && !isArray ==>
                ObjectDefine(old(Props()), Props(), extensible, n, PutRequest(old(Own(n)), x), throws, false, r)
      ensures old(Own(n)).None? && r == Done(true) ==> Own(n) == Some(Data(x, true, true, true))
    {
      hide Base, ObjectDefine, ArrayDefine, ObjectRules.Sized, Permitted;
      ghost var v, full := Props(), CannotTake(n);
      l, limit := 0, 0;
      var p := GetOwnProperty(n);
      if (if p.Some? then !p.value.writable else !extensible) {
        PermittedSame(Props(), extensible);
        r := Refuse(throws);
      } else {
        r, l, limit := DefineOwnProperty(n, PutRequest(p, x), throws);
        if p.None? && r == Done(true) {
          if isArray {
            PutMakesElement(v, Props(), extensible, n, x, throws, full, l, limit, r);
          } else {
            PutMakes(v, Props(), extensible, n, x, throws, false, r);
          }
        }
      }
    }

    // ---- Object.freeze and Object.isFrozen ----

    /** Freezing always succeeds, freezes every property as it stands, and adds none. */
    method Freeze()
      requires Valid()
      modifies this`props, this`names, this`extensible, items
      ensures Valid() && !extensible && Frozen(Props(), extensible)
      ensures forall n: Name {:trigger Props()[n]} :: Props()[n] == Freezing(old(Props())[n])
    {
      hide Base, FrozenUpTo, Frozen, Permitted, Slots, SlotAt, Own, Props, ObjectRules.Sized, Freezing;
      ghost var v, slots := Props(), Slots();
      var o := 0;
      EveryNameHasSlot();
      FreezeStart(v, slots);
      while true
        invariant Valid() && Slots() == slots && o <= |slots| && FrozenUpTo(v, Props(), slots, o)
        decreases |slots| - o
      {
        var key := GetKey(o);
        match key {
        case End => break;
        case Missing =>
          FreezeStep(v, Props(), Props(), slots, o);
        case Key(name, _) =>
          ghost var w := Props();
          FreezeProperty(name);
          FreezeStep(v, w, Props(), slots, o);
        }
        o := o + 1;
      }
      FreezeDone(v, Props(), slots);
      PreventExtensions();
    }

    method PreventExtensions()
      requires Valid()
      modifies this`extensible
      ensures Valid() && !extensible && Props() == old(Props())
    {
      extensible := false;
      ghost var l: nat :| isArray ==> Sized(old(Props()), l);
      assert Props() == old(Props());
    }

    method FreezeProperty(n: Name)
      requires Valid() && Own(n).Some?
      modifies this`props, this`names, items
      ensures Valid() && Slots() == old(Slots()) && Props() == old(Props())[n := Freezing(old(Props())[n])]
    {
      hide Base, ObjectDefine, ArrayDefine;
      var p := GetOwnProperty(n);
      var request := FreezeRequest(p.value);
      ghost var v, full := Props(), CannotTake(n);
      assert v[n].Some?;
      ghost var l, limit;
      var r;
      r, l, limit := DefineOwnProperty(n, request, true);
      if isArray {
        FreezeArray(v, Props(), extensible, n, full, l, limit, r);
      } else {
        FreezeObject(v, Props(), extensible, n, false, r);
      }
    }

    /** Tells whether the object is frozen. */
    method IsFrozen() returns (b: bool)
      requires Valid()
      ensures b <==> Frozen(Props(), extensible)
    {
      hide Base, SlotAt, Own, ObjectRules.Sized;
      var o := 0;
      while true
        invariant o <= |Slots()| && forall n: Name {:trigger Props()[n]} :: Some(n) in Slots()[..o] ==> Props()[n].Some? && Fixed(Props()[n].value)
        decreases |Slots()| - o
      {
        var key := GetKey(o);
        assert o < |Slots()| ==> Slots()[..o + 1] == Slots()[..o] + [Slots()[o]];
        match key {
        case End => break;
        case Missing =>
        case Key(name, _) =>
          assert Some(name) in Slots();
          EveryName(name);
          var p := GetOwnProperty(name);
          var desc := AsProperty(p.value);
          if desc.IsData() && desc.IsWritable() {
            return false;
          }
          if desc.IsConfigurable() {
            return false;
          }
        }
        o := o + 1;
      }
      assert Slots()[..o] == Slots();
      forall n: Name | Props()[n].Some?
        ensures Fixed(Props()[n].value)
      {
        EveryName(n);
      }
      b := !extensible;
    }

    // ---- Runs ----

    /** Over any run of definitions, deletions and freezing: a property that is not configurable only changes as it
        may, and a frozen object stays exactly as it is. */
    method Perform(ops: seq<Op>)
      requires Valid() && forall op: Op :: op in ops ==> op.Possible()
      modifies this`props, this`names, this`extensible, items
      ensures Valid() && Permitted(old(Props()), Props(), old(extensible)) && (extensible ==> old(extensible))
      ensures old(Frozen(Props(), extensible)) ==> Props() == old(Props())
    {
      hide Base, Permitted, Frozen, ArrayDefine, ObjectDefine, ObjectDelete;
      ghost var v, ext := Props(), extensible;
      PermittedSame(v, ext);
      for i := 0 to |ops|
        invariant Valid() && Permitted(v, Props(), ext) && (extensible ==> ext)
      {
        ghost var w, now := Props(), extensible;
        match ops[i] {
        case Define(n, d, throws) =>
          assert ops[i] in ops;
          var r;
          ghost var l, limit;
          r, l, limit := DefineOwnProperty(n, d, throws);
        case Remove(n, throws) =>
          var r := DeleteProperty(n, throws);
        case Freezes =>
          Freeze();
          FreezePermitted(w, Props(), now);
        }
        PermittedEarlier(w, Props(), now, ext);
        PermittedTrans(v, w, Props(), ext);
      }
      if Frozen(v, ext) {
        FrozenStays(v, Props(), ext);
      }
    }

    lemma NotShrunk(v: View, d: Descriptor, newLen: nat, throws: bool, limit: nat)
      requires v[LENGTH].Some? && v[LENGTH].value.Data? && !v[LENGTH].value.writable
      ensures ShrinkLength(v, v, d, newLen, throws, limit, Refuse(throws))
    {
    }

    lemma UnlockedOneKind(d: Descriptor)
      requires d.OneKind() && d.value.Some?
      ensures Unlocked(d).OneKind()
    {
    }

    lemma LengthKept(v: View, w: View, limit: nat)
      requires Shortened(v, w, limit)
      ensures w[LENGTH] == v[LENGTH]
    {
    }

    lemma BaseItems()
      requires Base()
      ensures items.Valid()
    {
    }
  }

  ghost predicate Lengthens(x: Val, l: nat) {
    AsLength(x).Some? && AsLength(x).value >= l
  }

  /** The store after an index was defined: it has room for the index, and a new one past the length was written once. */
  ghost predicate TookRoom(s: SparseArray.Shape, t: SparseArray.Shape, i: nat, l: nat) {
    SparseArray.Wider(s, t) && SparseArray.Covers(t, i) && (i >= l ==> t == SparseArray.Grown(s, i))
  }

  lemma TakesRoom(s: SparseArray.Shape, t: SparseArray.Shape, i: nat, taken: bool)
    requires t == SparseArray.Grown(s, i) || (taken && t == s)
    requires if taken then SparseArray.Covers(s, i) else !SparseArray.Overrun(s, i)
    ensures SparseArray.Wider(s, t) && SparseArray.Covers(t, i)
  {
    if !taken {
      SparseArray.GrownCovers(s, i);
    }
  }

  lemma WiderTrans(s: SparseArray.Shape, t: SparseArray.Shape, u: SparseArray.Shape)
    requires SparseArray.Wider(s, t) && SparseArray.Wider(t, u)
    ensures SparseArray.Wider(s, u)
  {
  }

  lemma StoredOnce(names: seq<Name>, n: Name, p: Property, props: map<Name, Property>)
    requires EnumeratedOnce(names, props)
    ensures EnumeratedOnce(if n in props then names else names + [n], props[n := p])
  {
  }

  lemma RemovedOnce(names: seq<Name>, k: nat, props: map<Name, Property>)
    requires EnumeratedOnce(names, props) && k < |names|
    ensures EnumeratedOnce(names[..k] + names[k + 1..], props - {names[k]})
  {
  }

  // ---- Deleting downwards ----

  /** Slots stand for strictly increasing indices, and every index that held something has one. */
  ghost predicate Enumerates(was: imap<nat, Option<Property>>, index: imap<nat, nat>, cap: nat) {
    && (forall i: nat, j: nat {:trigger SlotOf(index, i), SlotOf(index, j)} :: i < j < cap ==> SlotOf(index, i) < SlotOf(index, j))
    && (forall k: nat {:trigger Held(was, k)} :: Held(was, k).Some? ==> HadSlot(index, cap, k))
  }

  /** While deleting downwards: the slots from the i-th on are empty, those before are as they were, and what is gone
      was configurable and at or above the new length. */
  ghost predicate Down(now: imap<nat, Option<Property>>, was: imap<nat, Option<Property>>, index: imap<nat, nat>,
          cap: nat, newLen: nat, i: nat) {
    && Enumerates(was, index, cap) && i <= cap
    && (forall k: nat {:trigger Held(now, k)} :: Held(now, k).Some? ==> Held(now, k) == Held(was, k))
    && (forall k: nat {:trigger Held(now, k)} :: Held(was, k).Some? && Held(now, k).None? ==> k >= newLen && Held(was, k).value.configurable)
    && (forall o: nat {:trigger SlotOf(index, o)} :: o < cap ==>
          Held(now, SlotOf(index, o)) == if o < i then Held(was, SlotOf(index, o)) else None)
  }

  /** The array has been cut down to its first `limit` indices. */
  ghost predicate Cut(now: imap<nat, Option<Property>>, was: imap<nat, Option<Property>>, limit: nat) {
    && (forall k: nat {:trigger Held(now, k)} :: Held(now, k) == if k < limit then Held(was, k) else None)
    && (forall k: nat {:trigger Held(was, k)} :: k >= limit && Held(was, k).Some? ==> Held(was, k).value.configurable)
  }

  lemma AnyLength(was: imap<nat, Option<Property>>, index: imap<nat, nat>, cap: nat, newLen: nat)
    requires Down(was, was, index, cap, 0, cap)
    ensures Down(was, was, index, cap, newLen, cap)
  {
  }

  /** Stopping at slot `i`: everything beyond its index is gone and nothing up to it is. */
  lemma StopAt(now: imap<nat, Option<Property>>, was: imap<nat, Option<Property>>, index: imap<nat, nat>, cap: nat,
          newLen: nat, i: nat)
    requires Down(now, was, index, cap, newLen, i + 1) && i < cap && Held(now, SlotOf(index, i)).Some?
    ensures Cut(now, was, if SlotOf(index, i) < newLen then newLen else SlotOf(index, i) + 1)
  {
    hide Held, SlotOf;
    var at := SlotOf(index, i);
    forall k: nat
      ensures Held(now, k) == if k <= at then Held(was, k) else None
      ensures k > at && Held(was, k).Some? ==> k >= newLen && Held(was, k).value.configurable
    {
      SlotDecides(now, was, index, cap, newLen, i, k);
    }
  }

  lemma SlotDecides(now: imap<nat, Option<Property>>, was: imap<nat, Option<Property>>, index: imap<nat, nat>,
          cap: nat, newLen: nat, i: nat, k: nat)
    requires Down(now, was, index, cap, newLen, i + 1) && i < cap
    ensures Held(now, k) == if k <= SlotOf(index, i) then Held(was, k) else None
    ensures k > SlotOf(index, i) && Held(was, k).Some? ==> k >= newLen && Held(was, k).value.configurable
  {
    hide Held, SlotOf;
    if Held(was, k).Some? {
      var o: nat :| o < cap && SlotOf(index, o) == k;
      if o < i {
        assert SlotOf(index, o) < SlotOf(index, i);
      } else if o > i {
        assert SlotOf(index, i) < SlotOf(index, o);
      }
    }
  }

  lemma StuckAt(now: imap<nat, Option<Property>>, was: imap<nat, Option<Property>>, index: imap<nat, nat>, cap: nat,
          newLen: nat, i: nat)
    requires Down(now, was, index, cap, newLen, i + 1) && i < cap && Held(now, SlotOf(index, i)).Some?
    ensures Held(was, SlotOf(index, i)) == Held(now, SlotOf(index, i))
  {
  }

  lemma StopAtBottom(now: imap<nat, Option<Property>>, was: imap<nat, Option<Property>>, index: imap<nat, nat>,
          cap: nat, newLen: nat)
    requires Down(now, was, index, cap, newLen, 0)
    ensures Cut(now, was, newLen)
  {
    hide Held, SlotOf;
    forall k: nat
      ensures Held(now, k).None? && (Held(was, k).Some? ==> k >= newLen && Held(was, k).value.configurable)
    {
      if Held(was, k).Some? {
        var o: nat :| o < cap && SlotOf(index, o) == k;
      }
    }
  }

  lemma StepEmpty(now: imap<nat, Option<Property>>, was: imap<nat, Option<Property>>, index: imap<nat, nat>, cap: nat,
          newLen: nat, i: nat)
    requires Down(now, was, index, cap, newLen, i + 1) && i < cap && Held(now, SlotOf(index, i)).None?
    ensures Down(now, was, index, cap, newLen, i)
  {
    hide Held, SlotOf;
  }

  lemma StepDeleted(now: imap<nat, Option<Property>>, was: imap<nat, Option<Property>>, index: imap<nat, nat>,
          cap: nat, newLen: nat, i: nat)
    requires Down(now, was, index, cap, newLen, i + 1) && i < cap && SlotOf(index, i) >= newLen
    requires Held(now, SlotOf(index, i)).Some? && Held(now, SlotOf(index, i)).value.configurable
    ensures Down(now[SlotOf(index, i) := None], was, index, cap, newLen, i)
  {
    var at := SlotOf(index, i);
    var after := now[at := None];
    assert forall k: nat :: Held(after, k) == if k == at then None else Held(now, k);
    hide Held, SlotOf;
    forall o: nat | o < cap
      ensures Held(after, SlotOf(index, o)) == if o < i then Held(was, SlotOf(index, o)) else None
    {
      if o < i {
        assert SlotOf(index, o) < SlotOf(index, i);
      } else if o > i {
        assert SlotOf(index, i) < SlotOf(index, o);
      }
    }
  }

  ghost function Held(was: imap<nat, Option<Property>>, k: nat): Option<Property> {
    if k in was then was[k] else None
  }

  ghost function SlotOf(index: imap<nat, nat>, o: nat): nat {
    if o in index then index[o] else 0
  }

  ghost predicate HadSlot(index: imap<nat, nat>, capacity: nat, k: nat) {
    exists o: nat :: o < capacity && SlotOf(index, o) == k
  }

  lemma DecidesExactly(current: Option<Property>, extensible: bool, d: Descriptor)
    requires d.OneKind()
    ensures var accepts := if current.None? then extensible else MayBecome(current.value, Target(current, d));
      var decision := Decide(current, extensible, d);
      && (decision.Reject? <==> !accepts) && (accepts ==> After(current, decision) == Some(Target(current, d)))
      && (decision.Keep? ==> current.Some?)
  {
    hide Target, MayBecome;
    if current.Some? {
      DefinesExactly(current.value, extensible, d);
    } else {
      DefinesNew(extensible, d);
    }
  }
}
