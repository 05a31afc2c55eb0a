/** Property descriptors and what defining a property decides, section 8.12.9 of ECMA-262 5.1. */
module Properties {
  import opened Wrappers

  datatype Val = Undefined | Num(n: real) | Ref(id: nat)

  /** A request: every part may be missing. */
  datatype Descriptor = Descriptor(value: Option<Val>, getter: Option<Val>, setter: Option<Val>,
                                   writable: Option<bool>, enumerable: Option<bool>, configurable: Option<bool>) {
    predicate IsAccessor() {
      getter.Some? || setter.Some?
    }

    predicate IsData() {
      writable.Some? || value.Some?
    }

    predicate IsGeneric() {
      !IsAccessor() && !IsData()
    }

    predicate IsEmpty() {
      value.None? && getter.None? && setter.None? && writable.None? && enumerable.None? && configurable.None?
    }

    /** What ToPropertyDescriptor lets through: not both kinds at once. */
    predicate OneKind() {
      !(IsAccessor() && IsData())
    }

    predicate IsWritable() {
      writable == Some(true)
    }

    predicate IsEnumerable() {
      enumerable == Some(true)
    }

    predicate IsConfigurable() {
      configurable == Some(true)
    }

    /** This request over what is already there. */
    function Merge(other: Descriptor): Descriptor {
      Descriptor(Or(value, other.value), Or(getter, other.getter), Or(setter, other.setter),
                 Or(writable, other.writable), Or(enumerable, other.enumerable), Or(configurable, other.configurable))
    }
  }

  function Or<T>(a: Option<T>, b: Option<T>): Option<T> {
    if a.Some? then a else b
  }

  function OrUndefined(v: Option<Val>): Val {
    if v.Some? then v.value else Undefined
  }

  const DEFAULT := Descriptor(None, None, None, None, None, None)

  /** A stored property. */
  datatype Property =
    | Data(value: Val, writable: bool, enumerable: bool, configurable: bool)
    | Accessor(getter: Val, setter: Val, enumerable: bool, configurable: bool)

  /** The stored form of a descriptor: an accessor if it has a getter or a setter. */
  function FromDescriptor(d: Descriptor): Property {
    if d.IsAccessor() then Accessor(OrUndefined(d.getter), OrUndefined(d.setter), d.IsEnumerable(), d.IsConfigurable())
    else Data(OrUndefined(d.value), d.IsWritable(), d.IsEnumerable(), d.IsConfigurable())
  }

  function AsProperty(p: Property): (d: Descriptor)
    ensures d.OneKind() && d.IsAccessor() == p.Accessor? && FromDescriptor(d) == p
  {
    match p
    case Data(v, w, e, c) => Descriptor(Some(v), None, None, Some(w), Some(e), Some(c))
    case Accessor(g, s, e, c) => Descriptor(None, Some(g), Some(s), None, Some(e), Some(c))
  }

  // ---- Deciding ----

  datatype Decision = Reject | Keep | Store(p: Property)

  /** The steps of [[DefineOwnProperty]] for an ordinary object. */
  function Decide(current: Option<Property>, extensible: bool, d: Descriptor): Decision {
    if current.None? then
      if !extensible then Reject
      else if d.IsGeneric() || d.IsData() then
        Store(FromDescriptor(Descriptor(Some(OrUndefined(d.value)), None, None, Some(d.IsWritable()), Some(d.IsEnumerable()), Some(d.IsConfigurable()))))
      else
        Store(FromDescriptor(Descriptor(None, Some(OrUndefined(d.getter)), Some(OrUndefined(d.setter)), Some(d.IsWritable()), Some(d.IsEnumerable()), Some(d.IsConfigurable()))))
    else DecideExisting(AsProperty(current.value), d)
  }

  function DecideExisting(current: Descriptor, d: Descriptor): Decision {
    if d.IsEmpty() || current == d then Keep
    else if !current.IsConfigurable() && d.IsConfigurable() then Reject
    else if !current.IsConfigurable() && d.enumerable.Some? && d.IsEnumerable() != current.IsEnumerable() then Reject
    else if d.IsGeneric() then Store(FromDescriptor(d.Merge(current)))
    else if current.IsData() != d.IsData() then
      if !current.IsConfigurable() then Reject
      else Store(FromDescriptor(d.Merge(DEFAULT.(enumerable := current.enumerable, configurable := current.configurable))))
    else if current.IsData() then
      if !current.IsConfigurable() && !current.IsWritable() && (d.IsWritable() || (d.value.Some? && d.value != current.value)) then Reject
      else Store(FromDescriptor(d.Merge(current)))
    else if !current.IsConfigurable() && ((d.setter.Some? && d.setter != current.setter) || (d.getter.Some? && d.getter != current.getter)) then Reject
    else Store(FromDescriptor(d.Merge(current)))
  }

  // ---- What the decision means ----

  /** The property asked for: requested parts as requested, other parts as they are, or at their defaults if the kind
      changes or there is nothing yet. */
  ghost function Target(current: Option<Property>, d: Descriptor): Property {
    var data := if d.IsGeneric() then current.None? || current.value.Data? else d.IsData();
    var e := if d.enumerable.Some? then d.enumerable.value else current.Some? && current.value.enumerable;
    var c := if d.configurable.Some? then d.configurable.value else current.Some? && current.value.configurable;
    if data then
      var was := if current.Some? && current.value.Data? then current.value else Data(Undefined, false, false, false);
      Data(if d.value.Some? then d.value.value else was.value, if d.writable.Some? then d.writable.value else was.writable, e, c)
    else
      var was := if current.Some? && current.value.Accessor? then current.value else Accessor(Undefined, Undefined, false, false);
      Accessor(if d.getter.Some? then d.getter.value else was.getter, if d.setter.Some? then d.setter.value else was.setter, e, c)
  }

  /** What a property may become: anything if it is configurable; otherwise it stays that way, keeps its kind and
      whether it is enumerable, an accessor keeps its functions, and data that is not writable stays as it is. */
  ghost predicate MayBecome(p: Property, q: Property) {
    !p.configurable ==>
      && !q.configurable && q.enumerable == p.enumerable
      && (p.Data? ==> q.Data? && (!p.writable ==> q.value == p.value && !q.writable))
      && (p.Accessor? ==> q.Accessor? && q.getter == p.getter && q.setter == p.setter)
  }

  /** What is stored if the decision is not to reject. */
  ghost function After(current: Option<Property>, decision: Decision): Option<Property> {
    if decision.Store? then Some(decision.p) else current
  }

  /** A definition is accepted exactly if the property may become what is asked for, and then it does. */
  lemma DefinesExactly(current: Property, extensible: bool, d: Descriptor)
    requires d.OneKind()
    ensures Decide(Some(current), extensible, d) != Reject <==> MayBecome(current, Target(Some(current), d))
    ensures Decide(Some(current), extensible, d) != Reject ==> After(Some(current), Decide(Some(current), extensible, d)) == Some(Target(Some(current), d))
  {
    if current.Data? {
      DefinesData(current, extensible, d);
    } else {
      DefinesAccessor(current, extensible, d);
    }
  }

  lemma DefinesData(current: Property, extensible: bool, d: Descriptor)
    requires d.OneKind() && current.Data?
    ensures Decide(Some(current), extensible, d) != Reject <==> MayBecome(current, Target(Some(current), d))
    ensures Decide(Some(current), extensible, d) != Reject ==> After(Some(current), Decide(Some(current), extensible, d)) == Some(Target(Some(current), d))
  {
  }

  lemma DefinesAccessor(current: Property, extensible: bool, d: Descriptor)
    requires d.OneKind() && current.Accessor?
    ensures Decide(Some(current), extensible, d) != Reject <==> MayBecome(current, Target(Some(current), d))
    ensures Decide(Some(current), extensible, d) != Reject ==> After(Some(current), Decide(Some(current), extensible, d)) == Some(Target(Some(current), d))
  {
  }

  /** A new property is accepted exactly if the object is extensible. */
  lemma DefinesNew(extensible: bool, d: Descriptor)
    requires d.OneKind()
    ensures Decide(None, extensible, d) == if extensible then Store(Target(None, d)) else Reject
  {
  }

  /** Defining the same thing again changes nothing and is accepted. */
  lemma DefiningAgain(current: Option<Property>, extensible: bool, d: Descriptor)
    requires d.OneKind() && Decide(current, extensible, d) != Reject
    ensures var p := After(current, Decide(current, extensible, d));
      p.Some? && Decide(p, extensible, d) != Reject && After(p, Decide(p, extensible, d)) == p
  {
    hide Decide;
    if current.Some? {
      DefinesExactly(current.value, extensible, d);
    } else {
      DefinesNew(extensible, d);
    }
    var q := Target(current, d);
    TargetAgain(current, d);
    DefinesExactly(q, extensible, d);
  }

  lemma TargetAgain(current: Option<Property>, d: Descriptor)
    requires d.OneKind()
    ensures Target(Some(Target(current, d)), d) == Target(current, d)
    ensures MayBecome(Target(current, d), Target(current, d))
  {
  }

  /** Over any number of definitions: what a property may become is reflexive and transitive. */
  lemma MayBecomeTrans(p: Property, q: Property, r: Property)
    requires MayBecome(p, q) && MayBecome(q, r)
    ensures MayBecome(p, r)
  {
  }

  // ---- Frozen properties ----

  ghost predicate Fixed(p: Property) {
    !p.configurable && (p.Data? ==> !p.writable)
  }

  /** The same property, frozen. */
  function FrozenForm(p: Property): Property {
    match p
    case Data(v, _, e, _) => Data(v, false, e, false)
    case Accessor(g, s, e, _) => Accessor(g, s, e, false)
  }

  /** What Object.freeze asks for. */
  function FreezeRequest(p: Property): (d: Descriptor)
    ensures d.OneKind()
  {
    var d := AsProperty(p);
    (if d.IsData() then d.(writable := Some(false)) else d).(configurable := Some(false))
  }

  lemma FreezeAccepted(p: Property, extensible: bool)
    ensures Decide(Some(p), extensible, FreezeRequest(p)) != Reject
    ensures After(Some(p), Decide(Some(p), extensible, FreezeRequest(p))) == Some(FrozenForm(p)) && Fixed(FrozenForm(p))
  {
    hide Decide;
    DefinesExactly(p, extensible, FreezeRequest(p));
  }

  /** No definition changes a frozen property. */
  lemma FixedStays(p: Property, extensible: bool, d: Descriptor)
    requires Fixed(p) && d.OneKind()
    ensures After(Some(p), Decide(Some(p), extensible, d)) == Some(p)
  {
    hide Decide;
    DefinesExactly(p, extensible, d);
  }
}
