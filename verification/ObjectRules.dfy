/** What defining and deleting properties may do to an object, section 8.12 of ECMA-262 5.1, and to an array, section
    15.4.5.1, said about the properties before and after. */
module ObjectRules {
  import opened Wrappers
  import opened Properties

  datatype Name = Index(i: nat) | Named(id: nat) {
    /** An index name holds less than the largest unsigned 32-bit integer. */
    predicate Possible() {
      Index? ==> i < MAX_LENGTH
    }
  }

  const LENGTH := Named(0)

  /** The largest array length; indices are less than it. */
  const MAX_LENGTH: nat := 0xFFFF_FFFF

  datatype Answer = Done(b: bool) | TypeError | RangeError | Panics

  function Refuse(throws: bool): Answer {
    if throws then TypeError else Done(false)
  }

  /** The own properties of an object. */
  type View = v: imap<Name, Option<Property>> | forall n: Name :: n in v ghost witness imap n: Name :: None

  /** The array length a number is, if it is one: conversion to an unsigned 32-bit integer leaves it as it is. */
  function AsLength(v: Val): Option<nat> {
    if v.Num? && 0.0 <= v.n <= MAX_LENGTH as real && v.n.Floor as real == v.n then Some(v.n.Floor) else None
  }

  /** Exactly the whole numbers up to the largest length are lengths. */
  lemma AsLengthExactly(v: Val, l: nat)
    ensures AsLength(v) == Some(l) <==> v == Num(l as real) && l <= MAX_LENGTH
  {
  }

  lemma LengthOf(l: nat)
    requires l <= MAX_LENGTH
    ensures AsLength(Num(l as real)) == Some(l)
  {
  }

  // ---- Section 8.12.9 ----

  ghost predicate Accepts(v: View, extensible: bool, n: Name, d: Descriptor) {
    if v[n].None? then extensible else MayBecome(v[n].value, Target(v[n], d))
  }

  ghost function Defined(v: View, n: Name, d: Descriptor): View {
    v[n := Some(Target(v[n], d))]
  }

  /** Defining a property of an ordinary object takes `v` to `w`, or panics if a new property has no room. */
  ghost predicate ObjectDefine(v: View, w: View, extensible: bool, n: Name, d: Descriptor, throws: bool, full: bool,
          r: Answer) {
    if !Accepts(v, extensible, n, d) then r == Refuse(throws) && w == v
    else if v[n].None? && full then r == Panics && w == v
    else r == Done(true) && w == Defined(v, n, d)
  }

  // ---- Section 15.4.5.1 ----

  /** A length that is plain data, cannot be deleted, and is more than every index. */
  ghost predicate Sized(v: View, l: nat) {
    && v[LENGTH].Some? && v[LENGTH].value.Data? && v[LENGTH].value.value == Num(l as real)
    && !v[LENGTH].value.configurable && l <= MAX_LENGTH
    && (forall i: nat {:trigger v[Index(i)]} :: v[Index(i)].Some? ==> i < l)
  }

  ghost function LengthProperty(v: View, l: nat, writable: bool): Option<Property>
    requires v[LENGTH].Some?
  {
    Some(Data(Num(l as real), writable, v[LENGTH].value.enumerable, false))
  }

  /** The indices from `limit` on are gone, `limit` is the new length, and nothing else is different. */
  ghost predicate CutTo(v: View, w: View, limit: nat, writable: bool)
    requires v[LENGTH].Some?
  {
    && w[LENGTH] == LengthProperty(v, limit, writable)
    && (forall i: nat {:trigger w[Index(i)]} :: w[Index(i)] == if i < limit then v[Index(i)] else None)
    && (forall i: nat {:trigger v[Index(i)]} :: i >= limit && v[Index(i)].Some? ==> v[Index(i)].value.configurable)
    && (forall n: Name {:trigger w[n]} :: n.Named? && n != LENGTH ==> w[n] == v[n])
  }

  ghost predicate Shortened(v: View, w: View, limit: nat) {
    && (forall i: nat {:trigger w[Index(i)]} :: w[Index(i)] == if i < limit then v[Index(i)] else None)
    && (forall i: nat {:trigger v[Index(i)]} :: i >= limit && v[Index(i)].Some? ==> v[Index(i)].value.configurable)
    && (forall n: Name {:trigger w[n]} :: n.Named? ==> w[n] == v[n])
  }

  /** Shrinking to a length stops above the last index that may not be deleted. */
  ghost predicate StopsAt(v: View, newLen: nat, limit: nat) {
    limit >= newLen && (limit > newLen ==> v[Index(limit - 1)].Some? && !v[Index(limit - 1)].value.configurable)
  }

  /** What a request for a smaller length asks of the length itself while elements are being deleted. */
  function Unlocked(d: Descriptor): Descriptor {
    if d.writable == Some(false) then d.(writable := Some(true)) else d
  }

  /** The request that sets the length above what could not be deleted. */
  function Restored(d: Descriptor, limit: nat): Descriptor {
    var u := Unlocked(d);
    u.(value := Some(Num(limit as real)), writable := if d.writable == Some(false) then Some(false) else u.writable)
  }

  ghost predicate ShrinkLength(v: View, w: View, d: Descriptor, newLen: nat, throws: bool, limit: nat, r: Answer)
    requires v[LENGTH].Some? && v[LENGTH].value.Data?
  {
    if !v[LENGTH].value.writable || !MayBecome(v[LENGTH].value, Target(v[LENGTH], Unlocked(d))) then r == Refuse(throws) && w == v
    else
      && StopsAt(v, newLen, limit) && CutTo(v, w, limit, d.writable != Some(false))
      && r == if limit == newLen then Done(true) else Refuse(throws)
  }

  ghost predicate DefineLength(v: View, w: View, extensible: bool, d: Descriptor, throws: bool, l: nat, limit: nat,
          r: Answer)
    requires Sized(v, l) && d.value.Some?
  {
    match AsLength(d.value.value)
    case None => r == RangeError && w == v
    case Some(newLen) =>
      if newLen >= l then ObjectDefine(v, w, extensible, LENGTH, d, throws, false, r)
      else ShrinkLength(v, w, d, newLen, throws, limit, r)
  }

  ghost predicate DefineElement(v: View, w: View, extensible: bool, i: nat, d: Descriptor, throws: bool, full: bool,
          l: nat, r: Answer)
    requires Sized(v, l)
  {
    if i < l then ObjectDefine(v, w, extensible, Index(i), d, throws, full, r)
    else if !v[LENGTH].value.writable || !extensible then r == Refuse(throws) && w == v
    else if full then r == Panics && w == v
    else r == Done(true) && w == Defined(v, Index(i), d)[LENGTH := LengthProperty(v, i + 1, true)]
  }

  ghost predicate ArrayDefine(v: View, w: View, extensible: bool, n: Name, d: Descriptor, throws: bool, full: bool,
          l: nat, limit: nat, r: Answer)
    requires Sized(v, l)
  {
    if n == LENGTH && d.value.Some? then DefineLength(v, w, extensible, d, throws, l, limit, r)
    else if n.Index? then DefineElement(v, w, extensible, n.i, d, throws, full, l, r)
    else ObjectDefine(v, w, extensible, n, d, throws, full, r)
  }

  // ---- Section 8.12.7 ----

  ghost predicate Deletable(v: View, n: Name) {
    v[n].Some? ==> v[n].value.configurable
  }

  ghost predicate ObjectDelete(v: View, w: View, n: Name, throws: bool, r: Answer) {
    if Deletable(v, n) then r == Done(true) && w == v[n := None] else r == Refuse(throws) && w == v
  }

  // ---- What every step keeps ----

  /** Nothing that is not configurable goes away or changes in a way it may not, and an object that is not extensible
      gets nothing new. */
  ghost predicate Permitted(v: View, w: View, extensible: bool) {
    && (forall n: Name {:trigger w[n]} :: v[n].Some? && !v[n].value.configurable ==> w[n].Some? && MayBecome(v[n].value, w[n].value))
    && (!extensible ==> forall n: Name {:trigger w[n]} :: w[n].Some? ==> v[n].Some?)
  }

  /** Frozen: not extensible, and no property can be changed or deleted. */
  ghost predicate Frozen(v: View, extensible: bool) {
    !extensible && forall n: Name {:trigger v[n]} :: v[n].Some? ==> Fixed(v[n].value)
  }

  lemma PermittedTrans(u: View, v: View, w: View, extensible: bool)
    requires Permitted(u, v, extensible) && Permitted(v, w, extensible)
    ensures Permitted(u, w, extensible)
  {
    hide MayBecome;
    forall n: Name
      ensures u[n].Some? && !u[n].value.configurable ==> w[n].Some? && MayBecome(u[n].value, w[n].value)
      ensures !extensible && w[n].Some? ==> u[n].Some?
    {
      if u[n].Some? && !u[n].value.configurable {
        assert v[n].Some? && MayBecome(u[n].value, v[n].value);
        StaysFixed(u[n].value, v[n].value);
        assert w[n].Some? && MayBecome(v[n].value, w[n].value);
        MayBecomeTrans(u[n].value, v[n].value, w[n].value);
      }
    }
  }

  lemma PermittedSame(v: View, extensible: bool)
    ensures Permitted(v, v, extensible)
  {
  }

  /** What is permitted now was permitted while the object was still extensible. */
  lemma PermittedEarlier(v: View, w: View, extensible: bool, earlier: bool)
    requires Permitted(v, w, extensible) && (extensible ==> earlier)
    ensures Permitted(v, w, earlier)
  {
  }

  lemma FreezePermitted(v: View, w: View, extensible: bool)
    requires forall n: Name {:trigger w[n]} :: w[n] == Freezing(v[n])
    ensures Permitted(v, w, extensible)
  {
  }

  lemma StaysFixed(p: Property, q: Property)
    requires MayBecome(p, q) && !p.configurable
    ensures !q.configurable
  {
  }

  lemma DefineObjectPermitted(v: View, w: View, extensible: bool, n: Name, d: Descriptor, throws: bool, full: bool,
          r: Answer)
    requires ObjectDefine(v, w, extensible, n, d, throws, full, r)
    ensures Permitted(v, w, extensible)
  {
    hide Target;
  }

  /** Whatever is defined on an array, what may not change does not, and the length stays more than every index. */
  lemma DefineArrayPermitted(v: View, w: View, extensible: bool, n: Name, d: Descriptor, throws: bool, full: bool,
          l: nat, limit: nat, r: Answer)
    requires Sized(v, l) && n.Possible() && ArrayDefine(v, w, extensible, n, d, throws, full, l, limit, r)
    ensures Permitted(v, w, extensible) && exists m: nat :: Sized(w, m)
  {
    if n == LENGTH && d.value.Some? {
      LengthPermitted(v, w, extensible, d, throws, l, limit, r);
    } else if n.Index? && n.i >= l {
      ElementPermitted(v, w, extensible, n.i, d, throws, full, l, r);
    } else {
      DefineObjectPermitted(v, w, extensible, n, d, throws, full, r);
      PlainSized(v, w, extensible, n, d, throws, full, l, r);
    }
  }

  lemma PlainSized(v: View, w: View, extensible: bool, n: Name, d: Descriptor, throws: bool, full: bool, l: nat,
          r: Answer)
    requires Sized(v, l) && ObjectDefine(v, w, extensible, n, d, throws, full, r)
    requires (n == LENGTH ==> d.value.None?) && (n.Index? ==> n.i < l)
    ensures Sized(w, l)
  {
  }

  lemma ElementPermitted(v: View, w: View, extensible: bool, i: nat, d: Descriptor, throws: bool, full: bool, l: nat,
          r: Answer)
    requires Sized(v, l) && l <= i < MAX_LENGTH && DefineElement(v, w, extensible, i, d, throws, full, l, r)
    ensures Permitted(v, w, extensible) && exists m: nat :: Sized(w, m)
  {
    if w == v {
      assert Sized(w, l);
    } else {
      hide Target;
      assert v[Index(i)].None?;
      assert Sized(w, i + 1);
    }
  }

  lemma LengthPermitted(v: View, w: View, extensible: bool, d: Descriptor, throws: bool, l: nat, limit: nat, r: Answer)
    requires Sized(v, l) && d.value.Some? && DefineLength(v, w, extensible, d, throws, l, limit, r)
    ensures Permitted(v, w, extensible) && exists m: nat :: Sized(w, m)
  {
    var len := AsLength(d.value.value);
    if w == v {
      assert Sized(w, l);
    } else if len.value >= l {
      DefineObjectPermitted(v, w, extensible, LENGTH, d, throws, false, r);
      LengthGrows(v, d, l, len.value);
      assert Sized(w, len.value);
    } else {
      LimitBelow(v, len.value, limit, l);
      assert Sized(w, limit);
    }
  }

  lemma LengthGrows(v: View, d: Descriptor, l: nat, newLen: nat)
    requires Sized(v, l) && d.value.Some? && AsLength(d.value.value) == Some(newLen) && newLen >= l
    requires MayBecome(v[LENGTH].value, Target(v[LENGTH], d))
    ensures Sized(Defined(v, LENGTH, d), newLen)
  {
  }

  /** The length after the first of the definitions that shrink an array. */
  lemma LengthUnlocked(v: View, d: Descriptor, newLen: nat)
    requires v[LENGTH].Some? && v[LENGTH].value.Data? && v[LENGTH].value.writable && !v[LENGTH].value.configurable
    requires d.OneKind() && d.value.Some? && AsLength(d.value.value) == Some(newLen)
    requires MayBecome(v[LENGTH].value, Target(v[LENGTH], Unlocked(d)))
    ensures Unlocked(d).OneKind() && Target(v[LENGTH], Unlocked(d)) == LengthProperty(v, newLen, true).value
    ensures d.configurable != Some(true) && (d.enumerable.Some? ==> d.enumerable.value == v[LENGTH].value.enumerable)
  {
  }

  lemma LengthRestored(v: View, u: View, d: Descriptor, newLen: nat, limit: nat)
    requires v[LENGTH].Some? && u[LENGTH] == LengthProperty(v, newLen, true)
    requires d.OneKind() && d.value.Some? && d.configurable != Some(true) && (d.enumerable.Some? ==> d.enumerable.value == v[LENGTH].value.enumerable)
    ensures var last := Restored(d, limit);
      && last.OneKind() && MayBecome(u[LENGTH].value, Target(u[LENGTH], last))
      && Some(Target(u[LENGTH], last)) == LengthProperty(v, limit, d.writable != Some(false))
  {
  }

  lemma SizedParts(v: View, l: nat, i: nat)
    requires Sized(v, l)
    ensures v[LENGTH].Some? && v[LENGTH].value.Data? && !v[LENGTH].value.configurable && (i >= l ==> v[Index(i)].None?)
  {
  }

  lemma LengthExtended(v: View, l: nat)
    requires v[LENGTH].Some? && v[LENGTH].value.Data? && v[LENGTH].value.writable && !v[LENGTH].value.configurable
    ensures var last := AsProperty(v[LENGTH].value).(value := Some(Num(l as real)));
      && last.OneKind() && MayBecome(v[LENGTH].value, Target(v[LENGTH], last))
      && Some(Target(v[LENGTH], last)) == LengthProperty(v, l, true)
  {
  }

  lemma LengthLocked(v: View, u: View, newLen: nat)
    requires v[LENGTH].Some? && u[LENGTH] == LengthProperty(v, newLen, true)
    ensures var last := DEFAULT.(writable := Some(false));
      && last.OneKind() && MayBecome(u[LENGTH].value, Target(u[LENGTH], last))
      && Some(Target(u[LENGTH], last)) == LengthProperty(v, newLen, false)
  {
  }

  lemma Assembled(v: View, unlocked: View, cut: View, w: View, newLen: nat, limit: nat, writable: bool)
    requires v[LENGTH].Some? && unlocked == v[LENGTH := LengthProperty(v, newLen, true)]
    requires Shortened(unlocked, cut, limit) && StopsAt(unlocked, newLen, limit)
    requires w == cut[LENGTH := LengthProperty(v, limit, writable)]
    ensures CutTo(v, w, limit, writable) && StopsAt(v, newLen, limit)
  {
    assert forall i: nat {:trigger v[Index(i)]} :: unlocked[Index(i)] == v[Index(i)];
  }

  /** Shrinking never ends up longer than before. */
  lemma LimitBelow(v: View, newLen: nat, limit: nat, l: nat)
    requires Sized(v, l) && newLen < l && StopsAt(v, newLen, limit)
    ensures limit <= l
  {
  }

  /** The limit is the smallest length above everything that may not be deleted, so there is one answer. */
  lemma LimitUnique(v: View, w: View, w': View, newLen: nat, a: nat, b: nat, writable: bool)
    requires v[LENGTH].Some? && StopsAt(v, newLen, a) && StopsAt(v, newLen, b)
    requires CutTo(v, w, a, writable) && CutTo(v, w', b, writable)
    ensures a == b
  {
  }

  lemma DeletePermitted(v: View, w: View, extensible: bool, n: Name, throws: bool, r: Answer)
    requires ObjectDelete(v, w, n, throws, r)
    ensures Permitted(v, w, extensible) && forall l: nat :: Sized(v, l) ==> Sized(w, l)
  {
  }

  /** Permitted steps leave a frozen object as it is. */
  lemma FrozenStays(v: View, w: View, extensible: bool)
    requires Frozen(v, extensible) && Permitted(v, w, extensible)
    ensures w == v
  {
    forall n: Name
      ensures w[n] == v[n]
    {
      if v[n].Some? {
        assert w[n].Some? && MayBecome(v[n].value, w[n].value);
      }
    }
  }

  /** Defining the same thing twice in a row is defining it once. */
  lemma DefinedAgain(v: View, v': View, w: View, extensible: bool, n: Name, d: Descriptor, throws: bool, full: bool,
          r: Answer)
    requires d.OneKind() && Accepts(v, extensible, n, d) && v' == Defined(v, n, d)
    requires ObjectDefine(v', w, extensible, n, d, throws, full, r)
    ensures w == Defined(v, n, d) && r == Done(true)
  {
    hide Target;
    TargetAgain(v[n], d);
    assert v'[n] == Some(Target(v[n], d));
  }

  // ---- Freezing ----

  function Freezing(p: Option<Property>): Option<Property> {
    if p.Some? then Some(FrozenForm(p.value)) else None
  }

  /** The properties in the first slots are frozen, the others are as they were. */
  ghost predicate FrozenUpTo(v: View, w: View, slots: seq<Option<Name>>, o: nat)
    requires o <= |slots|
  {
    forall n: Name {:trigger w[n]} :: w[n] == if Some(n) in slots[..o] then Freezing(v[n]) else v[n]
  }

  lemma FreezeStart(v: View, slots: seq<Option<Name>>)
    ensures FrozenUpTo(v, v, slots, 0)
  {
  }

  lemma FreezeStep(v: View, w: View, w': View, slots: seq<Option<Name>>, o: nat)
    requires o < |slots| && FrozenUpTo(v, w, slots, o)
    requires slots[o].Some? ==> w' == w[slots[o].value := Freezing(w[slots[o].value])]
    requires slots[o].None? ==> w' == w
    ensures FrozenUpTo(v, w', slots, o + 1)
  {
    assert slots[..o + 1] == slots[..o] + [slots[o]];
  }

  lemma FreezeDone(v: View, w: View, slots: seq<Option<Name>>)
    requires FrozenUpTo(v, w, slots, |slots|) && forall n: Name :: v[n].Some? ==> Some(n) in slots
    ensures (forall n: Name :: w[n] == Freezing(v[n])) && Frozen(w, false) && Permitted(v, w, false)
  {
    assert slots[..|slots|] == slots;
  }

  /** The definition with which Object.freeze freezes a property freezes exactly it. */
  lemma FreezeObject(v: View, w: View, extensible: bool, n: Name, full: bool, r: Answer)
    requires v[n].Some? && ObjectDefine(v, w, extensible, n, FreezeRequest(v[n].value), true, full, r)
    ensures r == Done(true) && w == v[n := Freezing(v[n])]
  {
    hide Target, MayBecome, Decide;
    var p := v[n].value;
    DefinesExactly(p, extensible, FreezeRequest(p));
    FreezeAccepted(p, extensible);
  }

  lemma FreezeArray(v: View, w: View, extensible: bool, n: Name, full: bool, l: nat, limit: nat, r: Answer)
    requires v[n].Some? && Sized(v, l)
    requires ArrayDefine(v, w, extensible, n, FreezeRequest(v[n].value), true, full, l, limit, r)
    ensures r == Done(true) && w == v[n := Freezing(v[n])]
  {
    LengthOf(l);
    hide Target, MayBecome, AsLength, ShrinkLength;
    if n == LENGTH {
      assert FreezeRequest(v[n].value).value == Some(Num(l as real));
      FreezeObject(v, w, extensible, n, false, r);
    } else {
      FreezeObject(v, w, extensible, n, full, r);
    }
  }

  // ---- Arrays of values ----

  /** No getters or setters. */
  ghost predicate AllData(v: View) {
    forall n: Name {:trigger v[n]} :: v[n].Some? ==> v[n].value.Data?
  }

  /** An array whose elements can all be changed and deleted, and whose length can be changed. */
  ghost predicate Plain(v: View, extensible: bool) {
    && extensible && AllData(v) && v[LENGTH].Some? && v[LENGTH].value.writable
    && (forall i: nat {:trigger v[Index(i)]} :: v[Index(i)].Some? ==> v[Index(i)].value.writable && v[Index(i)].value.configurable)
  }

  /** The element at an index, or a hole. */
  ghost function Item(v: View, i: nat): Option<Val> {
    if v[Index(i)].Some? && v[Index(i)].value.Data? then Some(v[Index(i)].value.value) else None
  }

  /** An element was put at an index, past the end if need be. */
  ghost predicate PutAt(v: View, w: View, extensible: bool, i: nat, x: Val) {
    && Plain(w, extensible) && (forall j: nat {:trigger Item(w, j)} :: Item(w, j) == if j == i then Some(x) else Item(v, j))
    && (forall l: nat :: Sized(v, l) ==> Sized(w, if i < l then l else i + 1))
  }

  ghost predicate DeletedAt(v: View, w: View, extensible: bool, i: nat) {
    && Plain(w, extensible) && (forall j: nat {:trigger Item(w, j)} :: Item(w, j) == if j == i then None else Item(v, j))
    && (forall l: nat :: Sized(v, l) ==> Sized(w, l))
  }

  ghost predicate CanPut(p: Option<Property>, extensible: bool) {
    if p.Some? then p.value.Data? && p.value.writable else extensible
  }

  /** The definition that [[Put]] makes. */
  function PutRequest(p: Option<Property>, x: Val): (d: Descriptor)
    ensures d.OneKind()
  {
    if p.Some? then ValueRequest(x) else SimpleRequest(x)
  }

  /** The request of [[Put]] for a property that is there. */
  function ValueRequest(x: Val): (d: Descriptor)
    ensures d.OneKind()
  {
    DEFAULT.(value := Some(x))
  }

  /** The request of [[Put]] for a new property. */
  function SimpleRequest(x: Val): (d: Descriptor)
    ensures d.OneKind()
  {
    Descriptor(Some(x), None, None, Some(true), Some(true), Some(true))
  }

  /** A property that is made by putting a value is plain data that can be changed, enumerated and deleted. */
  lemma PutMakes(v: View, w: View, extensible: bool, n: Name, x: Val, throws: bool, full: bool, r: Answer)
    requires v[n].None? && ObjectDefine(v, w, extensible, n, PutRequest(v[n], x), throws, full, r) && r == Done(true)
    ensures w[n] == Some(Data(x, true, true, true))
  {
  }

  lemma PutMakesElement(v: View, w: View, extensible: bool, n: Name, x: Val, throws: bool, full: bool, l: nat,
          limit: nat, r: Answer)
    requires v[n].None? && Sized(v, l) && r == Done(true)
    requires ArrayDefine(v, w, extensible, n, PutRequest(v[n], x), throws, full, l, limit, r)
    ensures w[n] == Some(Data(x, true, true, true))
  {
    if !n.Index? {
      PutMakes(v, w, extensible, n, x, throws, full, r);
    }
  }

  lemma PutExisting(v: View, w: View, extensible: bool, i: nat, x: Val, full: bool, l: nat, r: Answer)
    requires Sized(v, l) && v[Index(i)].Some? && v[Index(i)].value.Data? && v[Index(i)].value.writable
    requires DefineElement(v, w, extensible, i, ValueRequest(x), true, full, l, r)
    ensures r == Done(true) && w == v[Index(i) := Some(v[Index(i)].value.(value := x))]
    ensures Plain(v, extensible) ==> PutAt(v, w, extensible, i, x)
  {
  }

  lemma PutMissing(v: View, w: View, extensible: bool, i: nat, x: Val, throws: bool, full: bool, l: nat, r: Answer)
    requires Sized(v, l) && v[Index(i)].None? && i < MAX_LENGTH
    requires DefineElement(v, w, extensible, i, SimpleRequest(x), throws, full, l, r)
    ensures AllData(v) ==> AllData(w)
    ensures Plain(v, extensible) ==> r == if full then Panics else Done(true)
    ensures Plain(v, extensible) && r == Done(true) ==> PutAt(v, w, extensible, i, x)
  {
  }

  lemma DeletePlain(v: View, w: View, extensible: bool, i: nat, r: Answer)
    requires ObjectDelete(v, w, Index(i), true, r)
    ensures AllData(v) ==> AllData(w)
    ensures Plain(v, extensible) ==> r == Done(true) && DeletedAt(v, w, extensible, i)
  {
  }

  /** Putting a length cuts off what is beyond it. */
  lemma PutLengthPlain(v: View, w: View, extensible: bool, newLen: nat, l: nat, limit: nat, r: Answer)
    requires Sized(v, l) && newLen <= MAX_LENGTH && v[LENGTH].value.writable
    requires DefineLength(v, w, extensible, ValueRequest(Num(newLen as real)), true, l, limit, r)
    ensures AllData(v) ==> AllData(w)
    ensures Plain(v, extensible) ==> r == Done(true) && Plain(w, extensible) && Sized(w, newLen)
    ensures Plain(v, extensible) ==> forall j: nat {:trigger Item(w, j)} :: Item(w, j) == if j < newLen then Item(v, j) else None
  {
    LengthOf(newLen);
  }
}
