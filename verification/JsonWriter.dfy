/** JSON.stringify: writing the values reachable from a value, unless one of them contains itself. */
module JsonWriter {
  import opened Wrappers
  import opened JsonText

  datatype Value = Undefined | NullValue | Boolean(b: bool) | Number(i: int) | NotFinite | StringValue(s: string) | Ref(id: nat)

  datatype Property = Property(name: string, value: Value, enumerable: bool) {
    /** Properties that are not enumerable are not visited, and undefined values are ignored. */
    predicate IsWritten() {
      enumerable && value != Undefined
    }
  }

  datatype Object = ArrayObject(elements: seq<Value>) | PlainObject(properties: seq<Property>)

  type Heap = map<nat, Object>

  ghost predicate Closed(h: Heap) {
    && (forall id: nat, k: nat {:trigger h[id].elements[k]} :: id in h && h[id].ArrayObject? && k < |h[id].elements| ==> Inside(h, h[id].elements[k]))
    && (forall id: nat, k: nat {:trigger h[id].properties[k]} :: id in h && h[id].PlainObject? && k < |h[id].properties| ==> Inside(h, h[id].properties[k].value))
  }

  ghost predicate Inside(h: Heap, v: Value) {
    v.Ref? ==> v.id in h
  }

  // ---- The tree a value unfolds to ----

  ghost predicate AllInside(h: Heap, vs: seq<Value>) {
    forall k: nat {:trigger vs[k]} :: k < |vs| ==> Inside(h, vs[k])
  }

  ghost predicate PropertiesInside(h: Heap, ps: seq<Property>) {
    forall k: nat {:trigger ps[k]} :: k < |ps| ==> Inside(h, ps[k].value)
  }

  /** The tree of a value, none if an object on the way to it is met again. */
  ghost function Unfold(h: Heap, v: Value, path: set<nat>): Option<Tree>
    requires Closed(h) && Inside(h, v)
    decreases h.Keys - path, 1, 0
  {
    match v
    case Undefined => Some(Null)
    case NullValue => Some(Null)
    case NotFinite => Some(Null)
    case Boolean(b) => Some(Bool(b))
    case Number(i) => Some(Int(i))
    case StringValue(s) => Some(Str(s))
    case Ref(id) => if id in path then None else UnfoldObject(h, id, path)
  }

  ghost function UnfoldObject(h: Heap, id: nat, path: set<nat>): Option<Tree>
    requires Closed(h) && id in h && id !in path
    decreases h.Keys - path, 0, 0
  {
    assert h.Keys - (path + {id}) < h.Keys - path by { assert id in h.Keys - path; }
    match h[id]
    case ArrayObject(vs) =>
      (var es := UnfoldElements(h, vs, path + {id}); if es.None? then None else Some(Arr(es.value)))
    case PlainObject(ps) =>
      (var ms := UnfoldMembers(h, ps, path + {id}); if ms.None? then None else Some(Obj(ms.value)))
  }

  ghost function UnfoldElements(h: Heap, vs: seq<Value>, path: set<nat>): Option<seq<Tree>>
    requires Closed(h) && AllInside(h, vs)
    decreases h.Keys - path, 2, |vs|
  {
    if vs == [] then Some([])
    else
      var last := Unfold(h, vs[|vs| - 1], path);
      var before := UnfoldElements(h, vs[..|vs| - 1], path);
      if before.None? || last.None? then None else Some(before.value + [last.value])
  }

  ghost function UnfoldMembers(h: Heap, ps: seq<Property>, path: set<nat>): Option<seq<Member>>
    requires Closed(h) && PropertiesInside(h, ps)
    decreases h.Keys - path, 2, |ps|
  {
    if ps == [] then Some([])
    else
      var last := ps[|ps| - 1];
      var before := UnfoldMembers(h, ps[..|ps| - 1], path);
      if !last.IsWritten() || before.None? then before
      else
        var t := Unfold(h, last.value, path);
        if t.None? then None else Some(before.value + [Member(last.name, t.value)])
  }

  /** One element that does not unfold is enough. */
  lemma {:induction false} ElementsUnfold(h: Heap, vs: seq<Value>, path: set<nat>)
    requires Closed(h) && AllInside(h, vs)
    ensures UnfoldElements(h, vs, path).Some? <==> forall k: nat {:trigger vs[k]} :: k < |vs| ==> Unfold(h, vs[k], path).Some?
  {
    hide Unfold;
    if vs != [] {
      var before := vs[..|vs| - 1];
      ElementsUnfold(h, before, path);
      assert forall k: nat {:trigger vs[k]} :: k < |before| ==> vs[k] == before[k];
    }
  }

  lemma {:induction false} MembersUnfold(h: Heap, ps: seq<Property>, path: set<nat>)
    requires Closed(h) && PropertiesInside(h, ps)
    ensures UnfoldMembers(h, ps, path).Some? <==>
      forall k: nat {:trigger ps[k]} :: k < |ps| && ps[k].IsWritten() ==> Unfold(h, ps[k].value, path).Some?
  {
    hide Unfold;
    if ps != [] {
      var before := ps[..|ps| - 1];
      MembersUnfold(h, before, path);
      assert forall k: nat {:trigger ps[k]} :: k < |before| ==> ps[k] == before[k];
    }
  }

  // ---- What is rejected ----

  /** Writing the object `a` writes the object `b`. */
  ghost predicate Child(h: Heap, a: nat, b: nat)
    requires a in h
  {
    match h[a]
    case ArrayObject(vs) => exists k: nat :: k < |vs| && vs[k] == Ref(b)
    case PlainObject(ps) => exists k: nat :: k < |ps| && ps[k].IsWritten() && ps[k].value == Ref(b)
  }

  ghost predicate Chain(h: Heap, ids: seq<nat>) {
    (forall id: nat :: id in ids ==> id in h) && forall k: nat {:trigger ids[k]} :: 0 < k < |ids| ==> Child(h, ids[k - 1], ids[k])
  }

  /** A way down that ends where it has been before. */
  ghost predicate Revisits(ids: seq<nat>, path: set<nat>) {
    |ids| > 0 && (ids[|ids| - 1] in path || ids[|ids| - 1] in ids[..|ids| - 1])
  }

  ghost predicate Cyclic(h: Heap, v: Value) {
    v.Ref? && exists ids: seq<nat> :: Chain(h, ids) && Revisits(ids, {}) && ids[0] == v.id
  }

  /** JSON.stringify fails exactly if an object that is written contains itself. */
  lemma RejectsExactlyCycles(h: Heap, v: Value)
    requires Closed(h) && Inside(h, v)
    ensures Unfold(h, v, {}).None? <==> Cyclic(h, v)
  {
    if Unfold(h, v, {}).None? {
      var ids := FindsCycle(h, v, {});
    }
    if Cyclic(h, v) {
      var ids :| Chain(h, ids) && Revisits(ids, {}) && ids[0] == v.id;
      RejectsCycle(h, v, {}, ids);
    }
  }

  lemma FindsCycle(h: Heap, v: Value, path: set<nat>) returns (ids: seq<nat>)
    requires Closed(h) && Inside(h, v) && Unfold(h, v, path).None?
    ensures v.Ref? && Chain(h, ids) && Revisits(ids, path) && ids[0] == v.id
    decreases h.Keys - path
  {
    if v.id in path {
      ids := [v.id];
    } else {
      assert v.id in h.Keys - path;
      var child := RejectedChild(h, v.id, path + {v.id});
      var rest := FindsCycle(h, Ref(child), path + {v.id});
      ids := [v.id] + rest;
      ChainExtended(h, v.id, rest);
      RevisitsExtended(v.id, rest, path);
    }
  }

  lemma RejectedChild(h: Heap, id: nat, path: set<nat>) returns (child: nat)
    requires Closed(h) && id in h
    requires h[id].ArrayObject? ==> UnfoldElements(h, h[id].elements, path).None?
    requires h[id].PlainObject? ==> UnfoldMembers(h, h[id].properties, path).None?
    ensures child in h && Child(h, id, child) && Unfold(h, Ref(child), path).None?
  {
    ObjectInside(h, id);
    match h[id]
    case ArrayObject(vs) =>
      ElementsUnfold(h, vs, path);
      var k: nat :| k < |vs| && Unfold(h, vs[k], path).None?;
      child := vs[k].id;
    case PlainObject(ps) =>
      MembersUnfold(h, ps, path);
      var k: nat :| k < |ps| && ps[k].IsWritten() && Unfold(h, ps[k].value, path).None?;
      child := ps[k].value.id;
  }

  lemma ChainExtended(h: Heap, id: nat, rest: seq<nat>)
    requires Chain(h, rest) && rest != [] && id in h && Child(h, id, rest[0])
    ensures Chain(h, [id] + rest)
  {
    hide Child;
    var ids := [id] + rest;
    forall k: nat | 0 < k < |ids|
      ensures Child(h, ids[k - 1], ids[k])
    {
      assert ids[k] == rest[k - 1];
    }
  }

  lemma RevisitsExtended(id: nat, rest: seq<nat>, path: set<nat>)
    requires rest != []
    ensures Revisits([id] + rest, path) <==> Revisits(rest, path + {id})
  {
    var ids := [id] + rest;
    assert ids[..|ids| - 1] == [id] + rest[..|rest| - 1];
  }

  lemma {:induction false} RejectsCycle(h: Heap, v: Value, path: set<nat>, ids: seq<nat>)
    requires Closed(h) && Inside(h, v) && Chain(h, ids) && Revisits(ids, path) && v == Ref(ids[0])
    ensures Unfold(h, v, path).None?
    decreases |ids|
  {
    if v.id !in path {
      assert |ids| > 1;
      var rest := ids[1..];
      assert [v.id] + rest == ids;
      RevisitsExtended(v.id, rest, path);
      assert Chain(h, rest) by {
        forall k: nat | 0 < k < |rest|
          ensures Child(h, rest[k - 1], rest[k])
        {
          assert rest[k] == ids[k + 1];
        }
      }
      RejectsCycle(h, Ref(ids[1]), path + {v.id}, rest);
      assert Child(h, ids[0], ids[1]);
      ChildRejected(h, v.id, ids[1], path + {v.id});
    }
  }

  lemma ChildRejected(h: Heap, id: nat, child: nat, path: set<nat>)
    requires Closed(h) && id in h && child in h && Child(h, id, child) && Unfold(h, Ref(child), path).None?
    ensures h[id].ArrayObject? ==> AllInside(h, h[id].elements) && UnfoldElements(h, h[id].elements, path).None?
    ensures h[id].PlainObject? ==> PropertiesInside(h, h[id].properties) && UnfoldMembers(h, h[id].properties, path).None?
  {
    ObjectInside(h, id);
    match h[id]
    case ArrayObject(vs) => ElementsUnfold(h, vs, path);
    case PlainObject(ps) => MembersUnfold(h, ps, path);
  }

  // ---- What is written ----

  /** The numbers are 64-bit integers, and an object has one property of a name. */
  ghost predicate Writable(h: Heap) {
    && (forall id: nat, k: nat {:trigger h[id].elements[k]} :: id in h && h[id].ArrayObject? && k < |h[id].elements| ==> InRange(h[id].elements[k]))
    && (forall id: nat, k: nat {:trigger h[id].properties[k]} :: id in h && h[id].PlainObject? && k < |h[id].properties| ==> InRange(h[id].properties[k].value))
    && (forall id: nat {:trigger h[id]} :: id in h && h[id].PlainObject? ==> DistinctNames(h[id].properties))
  }

  predicate InRange(v: Value) {
    v.Number? ==> -0x8000_0000_0000_0000 <= v.i < 0x8000_0000_0000_0000
  }

  predicate DistinctNames(ps: seq<Property>) {
    forall j: nat, k: nat :: j < k < |ps| ==> ps[j].name != ps[k].name
  }

  lemma UnfoldsWellFormed(h: Heap, v: Value, path: set<nat>)
    requires Closed(h) && Inside(h, v) && Writable(h) && InRange(v) && Unfold(h, v, path).Some?
    ensures WellFormed(Unfold(h, v, path).value)
    decreases h.Keys - path, 1, 0
  {
    if v.Ref? {
      assert v.id in h.Keys - path;
      ObjectInside(h, v.id);
      match h[v.id]
      case ArrayObject(vs) => ElementsWellFormed(h, vs, path + {v.id});
      case PlainObject(ps) => MembersWellFormed(h, ps, path + {v.id});
    }
  }

  lemma ElementsWellFormed(h: Heap, vs: seq<Value>, path: set<nat>)
    requires Closed(h) && AllInside(h, vs) && Writable(h) && (forall k: nat {:trigger vs[k]} :: k < |vs| ==> InRange(vs[k]))
    requires UnfoldElements(h, vs, path).Some?
    ensures forall k: nat :: k < |UnfoldElements(h, vs, path).value| ==> WellFormed(UnfoldElements(h, vs, path).value[k])
    decreases h.Keys - path, 2, |vs|
  {
    hide Closed, Writable;
    if vs != [] {
      ElementsWellFormed(h, vs[..|vs| - 1], path);
      UnfoldsWellFormed(h, vs[|vs| - 1], path);
    }
  }

  lemma MembersWellFormed(h: Heap, ps: seq<Property>, path: set<nat>)
    requires Closed(h) && PropertiesInside(h, ps) && Writable(h) && (forall k: nat {:trigger ps[k]} :: k < |ps| ==> InRange(ps[k].value))
    requires UnfoldMembers(h, ps, path).Some? && DistinctNames(ps)
    ensures var ms := UnfoldMembers(h, ps, path).value;
      && (forall k: nat :: k < |ms| ==> WellFormed(ms[k].value)) && DistinctKeys(ms)
      && (forall k: nat :: k < |ms| ==> HasName(ps, ms[k].key))
    decreases h.Keys - path, 2, |ps|
  {
    hide Closed, Writable, Unfold;
    if ps != [] {
      var before, last := ps[..|ps| - 1], ps[|ps| - 1];
      MembersWellFormed(h, before, path);
      assert forall name: string :: HasName(before, name) ==> HasName(ps, name) && name != last.name;
      if last.IsWritten() {
        UnfoldsWellFormed(h, last.value, path);
        assert HasName(ps, last.name) by {
          assert ps[|ps| - 1].name == last.name;
        }
      }
    }
  }

  ghost predicate HasName(ps: seq<Property>, name: string) {
    exists k: nat :: k < |ps| && ps[k].name == name
  }

  lemma ObjectInside(h: Heap, id: nat)
    requires Closed(h) && id in h
    ensures h[id].ArrayObject? ==> AllInside(h, h[id].elements)
    ensures h[id].PlainObject? ==> PropertiesInside(h, h[id].properties)
  {
  }

  lemma NoElements(h: Heap, path: set<nat>)
    requires Closed(h)
    ensures UnfoldElements(h, [], path) == Some([]) && ElementsText([]) == ""
  {
  }

  lemma NextElement(h: Heap, vs: seq<Value>, i: nat, path: set<nat>)
    requires Closed(h) && AllInside(h, vs) && i < |vs|
    ensures var before, after, t := UnfoldElements(h, vs[..i], path), UnfoldElements(h, vs[..i + 1], path), Unfold(h, vs[i], path);
      after == if before.None? || t.None? then None else Some(before.value + [t.value])
  {
    hide Unfold;
    assert vs[..i + 1][..i] == vs[..i];
  }

  lemma NoMembers(h: Heap, path: set<nat>)
    requires Closed(h)
    ensures UnfoldMembers(h, [], path) == Some([]) && MembersText([]) == ""
  {
  }

  lemma NextMember(h: Heap, ps: seq<Property>, i: nat, path: set<nat>)
    requires Closed(h) && PropertiesInside(h, ps) && i < |ps|
    ensures var before, after, t := UnfoldMembers(h, ps[..i], path), UnfoldMembers(h, ps[..i + 1], path), Unfold(h, ps[i].value, path);
      after == if !ps[i].IsWritten() || before.None? then before else if t.None? then None else Some(before.value + [Member(ps[i].name, t.value)])
  {
    hide Unfold;
    assert ps[..i + 1][..i] == ps[..i];
  }

  lemma NextChar(before: string, s: string, i: nat)
    requires i < |s|
    ensures before + EscapeText(s[i..]) == before + EscapeChar(s[i]) + EscapeText(s[i + 1..])
  {
    assert s[i..][0] == s[i] && s[i..][1..] == s[i + 1..];
    hide EscapeChar;
    assert before + (EscapeChar(s[i]) + EscapeText(s[i + 1..])) == before + EscapeChar(s[i]) + EscapeText(s[i + 1..]);
  }

  lemma Closing(before: string, now: string, text: string)
    requires now + EscapeText("") == before + "\"" + text
    ensures now + "\"" == before + ("\"" + text + "\"")
  {
    assert now + "" == now;
  }

  // ---- Writing ----

  lemma Joined(a: string, b: string, c: string, d: string, e: string)
    ensures a + b + c + d + e == a + b + (c + d + e)
  {
  }

  class Writer {
    const heap: Heap
    var stack: seq<nat>
    var json: string

    constructor (heap: Heap)
      ensures this.heap == heap && stack == [] && json == ""
    {
      this.heap, stack, json := heap, [], "";
    }

    ghost function Path(): set<nat>
      reads this`stack
    {
      set id | id in stack
    }

    /** Writes a string with its special characters escaped. */
    method WriteString(value: string)
      modifies this`json
      ensures json == old(json) + Quoted(value)
    {
      json := json + "\"";
      for i := 0 to |value|
        invariant json + EscapeText(value[i..]) == old(json) + "\"" + EscapeText(value)
      {
        NextChar(json, value, i);
        json := json + EscapeChar(value[i]);
      }
      Closing(old(json), json, EscapeText(value));
      json := json + "\"";
    }

    /** Writes a value, or fails if an object contains itself. */
    method WriteValue(v: Value) returns (ok: bool)
      requires Closed(heap) && Inside(heap, v) && v != Undefined
      modifies this`json, this`stack
      ensures ok == Unfold(heap, v, old(Path())).Some?
      ensures ok ==> stack == old(stack) && json == old(json) + Text(Unfold(heap, v, old(Path())).value)
      decreases heap.Keys - Path(), 2, 0
    {
      ok := true;
      match v
      case NullValue => json := json + "null";
      case NotFinite => json := json + "null";
      case Boolean(b) => json := json + if b then "true" else "false";
      case Number(i) => json := json + IntText(i);
      case StringValue(s) => WriteString(s);
      case Ref(id) =>
        if heap[id].ArrayObject? {
          ok := WriteArray(id);
        } else {
          ok := WriteObject(id);
        }
    }

    method WriteArray(id: nat) returns (ok: bool)
      requires Closed(heap) && id in heap && heap[id].ArrayObject?
      modifies this`json, this`stack
      ensures ok == Unfold(heap, Ref(id), old(Path())).Some?
      ensures ok ==> stack == old(stack) && json == old(json) + Text(Unfold(heap, Ref(id), old(Path())).value)
      decreases heap.Keys - Path(), 1, 0
    {
      hide UnfoldElements, UnfoldMembers, ElementsText, MembersText, Closed;
      if id in stack {
        return false;
      }
      ObjectInside(heap, id);
      ghost var path := Path() + {id};
      stack := stack + [id];
      assert Path() == path;
      json := json + "[";
      ok := WriteElements(heap[id].elements, path);
      if ok {
        json := json + "]";
        stack := stack[..|stack| - 1];
      }
    }

    method WriteElements(vs: seq<Value>, ghost path: set<nat>) returns (ok: bool)
      requires Closed(heap) && AllInside(heap, vs) && path == Path()
      modifies this`json, this`stack
      ensures ok == UnfoldElements(heap, vs, path).Some?
      ensures ok ==> stack == old(stack) && json == old(json) + ElementsText(UnfoldElements(heap, vs, path).value)
      decreases heap.Keys - path, 3, 0
    {
      hide Unfold, UnfoldElements, ElementsText, Text, Path, Closed;
      ghost var done: seq<Tree> := [];
      NoElements(heap, path);
      SameStack(stack);
      ghost var ids := stack;
      for i := 0 to |vs|
        invariant stack == ids && Path() == path && UnfoldElements(heap, vs[..i], path) == Some(done)
        invariant |done| == i && json == old(json) + ElementsText(done)
      {
        NextElement(heap, vs, i, path);
        if i > 0 {
          json := json + ",";
        }
        ghost var t;
        ok, t := WriteElement(vs[i], path);
        if !ok {
          ElementsUnfold(heap, vs, path);
          return;
        }
        SameStack(ids);
        ElementAppended(done, t);
        done := done + [t];
      }
      assert vs[..|vs|] == vs;
      ok := true;
    }

    method WriteElement(v: Value, ghost path: set<nat>) returns (ok: bool, ghost t: Tree)
      requires Closed(heap) && Inside(heap, v) && path == Path()
      modifies this`json, this`stack
      ensures ok == Unfold(heap, v, path).Some?
      ensures ok ==> stack == old(stack) && Unfold(heap, v, path) == Some(t) && json == old(json) + Text(t)
      decreases heap.Keys - path, 2, 1
    {
      ok, t := true, Null;
      if v == Undefined {
        json := json + "null";
      } else {
        ok := WriteValue(v);
        t := if ok then Unfold(heap, v, path).value else Null;
      }
    }

    method WriteObject(id: nat) returns (ok: bool)
      requires Closed(heap) && id in heap && heap[id].PlainObject?
      modifies this`json, this`stack
      ensures ok == Unfold(heap, Ref(id), old(Path())).Some?
      ensures ok ==> stack == old(stack) && json == old(json) + Text(Unfold(heap, Ref(id), old(Path())).value)
      decreases heap.Keys - Path(), 1, 0
    {
      hide UnfoldElements, UnfoldMembers, ElementsText, MembersText, Closed;
      if id in stack {
        return false;
      }
      ObjectInside(heap, id);
      ghost var path := Path() + {id};
      stack := stack + [id];
      assert Path() == path;
      json := json + "{";
      ok := WriteMembers(heap[id].properties, path);
      if ok {
        json := json + "}";
        stack := stack[..|stack| - 1];
      }
    }

    method WriteMembers(ps: seq<Property>, ghost path: set<nat>) returns (ok: bool)
      requires Closed(heap) && PropertiesInside(heap, ps) && path == Path()
      modifies this`json, this`stack
      ensures ok == UnfoldMembers(heap, ps, path).Some?
      ensures ok ==> stack == old(stack) && json == old(json) + MembersText(UnfoldMembers(heap, ps, path).value)
      decreases heap.Keys - path, 3, 0
    {
      hide Unfold, UnfoldMembers, MembersText, MemberText, Path, Closed, EscapeText;
      ghost var done: seq<Member> := [];
      var hadOne := false;
      NoMembers(heap, path);
      SameStack(stack);
      ghost var ids := stack;
      for i := 0 to |ps|
        invariant stack == ids && Path() == path && UnfoldMembers(heap, ps[..i], path) == Some(done)
        invariant hadOne == (done != []) && json == old(json) + MembersText(done)
      {
        NextMember(heap, ps, i, path);
        if ps[i].IsWritten() {
          ghost var m;
          ok, m := WriteMember(ps[i], hadOne, path);
          if !ok {
            MembersUnfold(heap, ps, path);
            return;
          }
          SameStack(ids);
          hadOne := true;
          MemberAppended(done, m);
          done := done + [m];
        }
      }
      assert ps[..|ps|] == ps;
      ok := true;
    }

    lemma SameStack(ids: seq<nat>)
      requires stack == ids
      ensures Path() == set id | id in ids
    {
    }

    method WriteMember(p: Property, hadOne: bool, ghost path: set<nat>) returns (ok: bool, ghost m: Member)
      requires Closed(heap) && Inside(heap, p.value) && p.IsWritten() && path == Path()
      modifies this`json, this`stack
      ensures ok == Unfold(heap, p.value, path).Some?
      ensures ok ==> stack == old(stack) && Some(m.value) == Unfold(heap, p.value, path) && m.key == p.name
      ensures ok ==> json == old(json) + Separator(!hadOne) + MemberText(m)
      decreases heap.Keys - path, 2, 1
    {
      hide Unfold, Quoted, Text;
      m := Member(p.name, Null);
      if hadOne {
        json := json + ",";
      }
      WriteString(p.name);
      json := json + ":";
      ghost var before := json;
      ok := WriteValue(p.value);
      if ok {
        m := Member(p.name, Unfold(heap, p.value, path).value);
        Joined(old(json), Separator(!hadOne), Quoted(p.name), ":", Text(m.value));
      }
    }
  }
}
