/** The table of exception blocks: how the builder records and sorts it, how the interpreter searches it, and that
    the search finds the handler lexical nesting prescribes. */
module ExceptionTable {
  import opened Ast
  import opened Wrappers

  datatype IrRange = IrRange(start: nat, end: nat) {
    predicate Contains(offset: nat) {
      start <= offset < end
    }
  }

  datatype TryCatch = TryCatch(body: IrRange, handler: Option<IrRange>, finally: Option<IrRange>) {
    predicate InHandler(offset: nat) {
      handler.Some? && handler.value.Contains(offset)
    }

    predicate InFinally(offset: nat) {
      finally.Some? && finally.value.Contains(offset)
    }
  }

  // ---- Sorting ----

  /** The builder's order: later starts first, and of blocks that start together the shorter first. */
  predicate Before(x: TryCatch, y: TryCatch) {
    x.body.start > y.body.start || (x.body.start == y.body.start && x.body.end < y.body.end)
  }

  function Insert(x: TryCatch, table: seq<TryCatch>): seq<TryCatch> {
    if table == [] || Before(x, table[0]) then [x] + table else [table[0]] + Insert(x, table[1..])
  }

  function Sort(table: seq<TryCatch>): seq<TryCatch> {
    if table == [] then [] else Insert(table[0], Sort(table[1..]))
  }

  // ---- Searching ----

  /** Where the interpreter goes when the instruction at `ip` throws. */
  function ThrowTarget(table: seq<TryCatch>, ip: nat): Option<nat> {
    if table == [] then None
    else if Catches(table[0], ip) then Some(Entry(table[0], ip))
    else ThrowTarget(table[1..], ip)
  }

  predicate Catches(e: TryCatch, ip: nat) {
    e.body.Contains(ip) || (e.InHandler(ip) && e.finally.Some?)
  }

  function Entry(e: TryCatch, ip: nat): nat {
    if e.body.Contains(ip) then
      if e.handler.Some? then e.handler.value.start else if e.finally.Some? then e.finally.value.start else 0
    else if e.finally.Some? then e.finally.value.start else 0
  }

  /** Where the EndFinally at `ip` goes when an error is in flight: the entry whose finally block holds it is
      passed first. */
  function EndFinallyTarget(table: seq<TryCatch>, ip: nat): Option<nat> {
    if table == [] then None
    else if table[0].InFinally(ip) then ThrowTarget(table[1..], ip)
    else EndFinallyTarget(table[1..], ip)
  }

  // ---- Properly bracketed code ----

  /** Code with nested exception blocks. A body and a handler end with a Leave, a finally block with an EndFinally,
      which take one instruction each. */
  datatype Code =
    | Plain(n: nat)
    | Seq(first: Code, second: Code)
    | TryCode(body: Code, handler: Option<Code>, finally: Option<Code>)

  function Length(c: Code): nat {
    match c
    case Plain(n) => n
    case Seq(a, b) => Length(a) + Length(b)
    case TryCode(b, h, f) =>
      Length(b) + 1 + (if h.Some? then Length(h.value) + 1 else 0) + (if f.Some? then Length(f.value) + 1 else 0)
  }

  predicate Bracketed(c: Code) {
    match c
    case Plain(_) => true
    case Seq(a, b) => Bracketed(a) && Bracketed(b)
    case TryCode(b, h, f) =>
      (h.Some? || f.Some?) && Bracketed(b) && (h.Some? ==> Bracketed(h.value)) && (f.Some? ==> Bracketed(f.value))
  }

  function HandlerStart(c: Code, at: nat): nat
    requires c.TryCode?
  {
    at + Length(c.body) + 1
  }

  function FinallyStart(c: Code, at: nat): nat
    requires c.TryCode?
  {
    HandlerStart(c, at) + (if c.handler.Some? then Length(c.handler.value) + 1 else 0)
  }

  /** The record of the exception block that starts at `at`. */
  function Record(c: Code, at: nat): TryCatch
    requires c.TryCode?
  {
    TryCatch(IrRange(at, HandlerStart(c, at)),
             if c.handler.Some? then Some(IrRange(HandlerStart(c, at), FinallyStart(c, at))) else None,
             if c.finally.Some? then Some(IrRange(FinallyStart(c, at), at + Length(c))) else None)
  }

  /** The records of the code at `at`, in the order the blocks are closed. */
  function Records(c: Code, at: nat): seq<TryCatch> {
    match c
    case Plain(_) => []
    case Seq(a, b) => Records(a, at) + Records(b, at + Length(a))
    case TryCode(b, h, f) =>
      Records(b, at)
      + (if h.Some? then Records(h.value, HandlerStart(c, at)) else [])
      + (if f.Some? then Records(f.value, FinallyStart(c, at)) else [])
      + [Record(c, at)]
  }

  /** What nesting prescribes for an error thrown at `ip`: `outer` is where the enclosing blocks would take it. */
  function Lexical(c: Code, at: nat, ip: nat, outer: Option<nat>): Option<nat> {
    match c
    case Plain(_) => outer
    case Seq(a, b) => if ip < at + Length(a) then Lexical(a, at, ip, outer) else Lexical(b, at + Length(a), ip, outer)
    case TryCode(b, h, f) =>
      var finally := if f.Some? then Some(FinallyStart(c, at)) else outer;
      if ip < at + Length(b) then Lexical(b, at, ip, if h.Some? then Some(HandlerStart(c, at)) else finally)
      else if ip < HandlerStart(c, at) then if h.Some? then Some(HandlerStart(c, at)) else finally
      else if h.Some? && ip < FinallyStart(c, at) - 1 then Lexical(h.value, HandlerStart(c, at), ip, finally)
      else if ip < FinallyStart(c, at) then finally
      else if f.Some? && ip < at + Length(c) - 1 then Lexical(f.value, FinallyStart(c, at), ip, outer)
      else outer
  }

  // ---- The first match in sorted order is the best match ----

  /** `e` is the record the search stops at: it catches, and every other catching record is sorted behind it. */
  ghost predicate IsBest(table: seq<TryCatch>, ip: nat, e: TryCatch) {
    e in table && Catches(e, ip) && forall x :: x in table && Catches(x, ip) ==> x == e || Before(e, x)
  }

  ghost predicate NoneCatches(table: seq<TryCatch>, ip: nat) {
    forall x :: x in table ==> !Catches(x, ip)
  }

  lemma {:induction false} InsertHolds(x: TryCatch, table: seq<TryCatch>, y: TryCatch)
    ensures y in Insert(x, table) <==> y == x || y in table
  {
    if table != [] && !Before(x, table[0]) {
      InsertHolds(x, table[1..], y);
      assert table == [table[0]] + table[1..];
    }
  }

  lemma {:induction false} SortHolds(table: seq<TryCatch>, y: TryCatch)
    ensures y in Sort(table) <==> y in table
  {
    if table != [] {
      SortHolds(table[1..], y);
      InsertHolds(table[0], Sort(table[1..]), y);
      assert table == [table[0]] + table[1..];
    }
  }

  ghost predicate Ordered(table: seq<TryCatch>) {
    forall i: nat, j: nat :: i < j < |table| ==> !Before(table[j], table[i])
  }

  lemma {:induction false} InsertOrdered(x: TryCatch, table: seq<TryCatch>)
    requires Ordered(table)
    ensures Ordered(Insert(x, table))
  {
    if table != [] && !Before(x, table[0]) {
      var rest := Insert(x, table[1..]);
      InsertOrdered(x, table[1..]);
      forall j: nat | j < |rest|
        ensures !Before(rest[j], table[0])
      {
        InsertHolds(x, table[1..], rest[j]);
        assert rest[j] in rest;
        if rest[j] != x {
          var i: nat :| i < |table[1..]| && table[1..][i] == rest[j];
          assert table[i + 1] == rest[j];
        }
      }
    }
  }

  lemma {:induction false} SortOrdered(table: seq<TryCatch>)
    ensures Ordered(Sort(table))
  {
    if table != [] {
      SortOrdered(table[1..]);
      InsertOrdered(table[0], Sort(table[1..]));
    }
  }

  lemma {:induction false} FirstIsBest(table: seq<TryCatch>, ip: nat, e: TryCatch)
    requires Ordered(table) && IsBest(table, ip, e)
    ensures ThrowTarget(table, ip) == Some(Entry(e, ip))
  {
    assert table == [table[0]] + table[1..];
    var k: nat :| k < |table| && table[k] == e;
    assert k > 0 ==> !Before(table[k], table[0]);
    if !Catches(table[0], ip) {
      TailOrdered(table);
      FirstIsBest(table[1..], ip, e);
    }
  }

  /** Searching the sorted table ends at the best match, whatever order the blocks were closed in. */
  lemma SortedSearch(table: seq<TryCatch>, ip: nat, e: TryCatch)
    requires IsBest(table, ip, e)
    ensures ThrowTarget(Sort(table), ip) == Some(Entry(e, ip))
  {
    SortOrdered(table);
    forall y: TryCatch
      ensures y in Sort(table) <==> y in table
    {
      SortHolds(table, y);
    }
    FirstIsBest(Sort(table), ip, e);
  }

  lemma {:induction false} SearchFails(table: seq<TryCatch>, ip: nat)
    requires NoneCatches(table, ip)
    ensures ThrowTarget(table, ip) == None
  {
    if table != [] {
      assert table == [table[0]] + table[1..];
      SearchFails(table[1..], ip);
    }
  }

  lemma SortedSearchFails(table: seq<TryCatch>, ip: nat)
    requires NoneCatches(table, ip)
    ensures ThrowTarget(Sort(table), ip) == None
  {
    forall y: TryCatch
      ensures y in Sort(table) <==> y in table
    {
      SortHolds(table, y);
    }
    SearchFails(Sort(table), ip);
  }

  // ---- Lexical nesting ----

  ghost predicate Inside(table: seq<TryCatch>, at: nat, end: nat) {
    forall x :: x in table ==>
      && at <= x.body.start < x.body.end < end
      && (x.handler.Some? ==> at <= x.handler.value.start <= x.handler.value.end <= end)
      && (x.finally.Some? ==> at <= x.finally.value.start <= x.finally.value.end <= end)
  }

  /** The three parts of an exception block's table: body, handler and finally. */
  ghost function BodyRecords(c: Code, at: nat): seq<TryCatch>
    requires c.TryCode?
  {
    Records(c.body, at)
  }

  ghost function HandlerRecords(c: Code, at: nat): seq<TryCatch>
    requires c.TryCode?
  {
    if c.handler.Some? then Records(c.handler.value, HandlerStart(c, at)) else []
  }

  ghost function FinallyRecords(c: Code, at: nat): seq<TryCatch>
    requires c.TryCode?
  {
    if c.finally.Some? then Records(c.finally.value, FinallyStart(c, at)) else []
  }

  lemma {:induction false} PartsInside(c: Code, at: nat)
    requires Bracketed(c) && c.TryCode?
    ensures Inside(BodyRecords(c, at), at, HandlerStart(c, at) - 1)
    ensures Inside(HandlerRecords(c, at), HandlerStart(c, at), FinallyStart(c, at) - 1)
    ensures Inside(FinallyRecords(c, at), FinallyStart(c, at), at + Length(c) - 1)
    ensures at < HandlerStart(c, at) <= FinallyStart(c, at) <= at + Length(c)
    ensures Records(c, at) == BodyRecords(c, at) + HandlerRecords(c, at) + FinallyRecords(c, at) + [Record(c, at)]
    decreases c, 0
  {
    hide Inside;
    RecordsInside(c.body, at);
    if c.handler.Some? {
      RecordsInside(c.handler.value, HandlerStart(c, at));
    } else {
      InsideEmpty(HandlerStart(c, at), FinallyStart(c, at) - 1);
    }
    if c.finally.Some? {
      RecordsInside(c.finally.value, FinallyStart(c, at));
    } else {
      InsideEmpty(FinallyStart(c, at), at + Length(c) - 1);
    }
  }

  lemma InsideEmpty(at: int, end: int)
    requires at >= 0 && end >= 0
    ensures Inside([], at, end)
  {
  }

  lemma InsideWiden(table: seq<TryCatch>, at: nat, end: nat, at': nat, end': nat)
    requires Inside(table, at, end) && at' <= at && end <= end'
    ensures Inside(table, at', end')
  {
  }

  lemma InsideJoin(a: seq<TryCatch>, b: seq<TryCatch>, at: nat, end: nat)
    requires Inside(a, at, end) && Inside(b, at, end)
    ensures Inside(a + b, at, end)
  {
  }

  lemma {:induction false} RecordsInside(c: Code, at: nat)
    requires Bracketed(c)
    ensures Inside(Records(c, at), at, at + Length(c))
    decreases c, 2
  {
    hide Inside;
    match c
    case Plain(_) =>
      InsideEmpty(at, at + Length(c));
    case Seq(a, b) =>
      RecordsInside(a, at);
      RecordsInside(b, at + Length(a));
      InsideWiden(Records(a, at), at, at + Length(a), at, at + Length(c));
      InsideWiden(Records(b, at + Length(a)), at + Length(a), at + Length(c), at, at + Length(c));
      InsideJoin(Records(a, at), Records(b, at + Length(a)), at, at + Length(c));
    case TryCode(b, h, f) =>
      TryInside(c, at);
  }

  lemma {:induction false} TryInside(c: Code, at: nat)
    requires Bracketed(c) && c.TryCode?
    ensures Inside(Records(c, at), at, at + Length(c))
    decreases c, 1
  {
    hide Inside, Bracketed, Length;
    var end := at + Length(c);
    var xb, xh, xf := BodyRecords(c, at), HandlerRecords(c, at), FinallyRecords(c, at);
    PartsInside(c, at);
    InsideWiden(xb, at, HandlerStart(c, at) - 1, at, end);
    InsideWiden(xh, HandlerStart(c, at), FinallyStart(c, at) - 1, at, end);
    InsideWiden(xf, FinallyStart(c, at), end - 1, at, end);
    InsideJoin(xb, xh, at, end);
    InsideJoin(xb + xh, xf, at, end);
    RecordInside(c, at);
    InsideJoin(xb + xh + xf, [Record(c, at)], at, end);
  }

  lemma RecordInside(c: Code, at: nat)
    requires Bracketed(c) && c.TryCode?
    ensures Inside([Record(c, at)], at, at + Length(c))
  {
    assert HandlerStart(c, at) <= FinallyStart(c, at) <= at + Length(c);
  }

  lemma InsideCatches(table: seq<TryCatch>, at: nat, end: nat, ip: nat)
    requires Inside(table, at, end) && !(at <= ip < end)
    ensures NoneCatches(table, ip)
  {
  }

  /** The search result for one piece of a table, and that the other pieces do not interfere. */
  ghost predicate Finds(table: seq<TryCatch>, ip: nat, outer: Option<nat>, target: Option<nat>) {
    (NoneCatches(table, ip) && target == outer)
    || exists e :: IsBest(table, ip, e) && target == Some(Entry(e, ip))
  }

  lemma FindsNothing(ip: nat, outer: Option<nat>)
    ensures Finds([], ip, outer, outer)
  {
    assert NoneCatches([], ip);
  }

  lemma FindsLeft(a: seq<TryCatch>, b: seq<TryCatch>, ip: nat, outer: Option<nat>, target: Option<nat>)
    requires Finds(a, ip, outer, target) && NoneCatches(b, ip)
    ensures Finds(a + b, ip, outer, target) && Finds(b + a, ip, outer, target)
  {
    if e :| IsBest(a, ip, e) && target == Some(Entry(e, ip)) {
      assert IsBest(a + b, ip, e) && IsBest(b + a, ip, e);
    }
  }

  /** A record around a piece catches what the piece does not. */
  lemma FindsAround(inner: seq<TryCatch>, e: TryCatch, ip: nat, target: Option<nat>)
    requires Catches(e, ip) && Finds(inner, ip, Some(Entry(e, ip)), target)
    requires forall x :: x in inner && Catches(x, ip) ==> Before(x, e)
    ensures exists x :: IsBest(inner + [e], ip, x) && target == Some(Entry(x, ip))
  {
    if x :| IsBest(inner, ip, x) && target == Some(Entry(x, ip)) {
      assert IsBest(inner + [e], ip, x);
    } else {
      assert IsBest(inner + [e], ip, e);
    }
  }

  lemma FindsBehind(inner: seq<TryCatch>, e: TryCatch, ip: nat, outer: Option<nat>, target: Option<nat>)
    requires !Catches(e, ip) && Finds(inner, ip, outer, target)
    ensures Finds(inner + [e], ip, outer, target)
  {
    if x :| IsBest(inner, ip, x) && target == Some(Entry(x, ip)) {
      assert IsBest(inner + [e], ip, x);
    }
  }

  /** For an error thrown anywhere in the code, the best matching record is the one nesting prescribes. */
  lemma {:induction false} LexicalIsBest(c: Code, at: nat, ip: nat, outer: Option<nat>)
    requires Bracketed(c) && at <= ip < at + Length(c)
    ensures Finds(Records(c, at), ip, outer, Lexical(c, at, ip, outer))
    decreases c, 2
  {
    hide Inside, Finds, NoneCatches;
    match c
    case Plain(_) =>
      FindsNothing(ip, outer);
    case Seq(a, b) =>
      RecordsInside(a, at);
      RecordsInside(b, at + Length(a));
      if ip < at + Length(a) {
        LexicalIsBest(a, at, ip, outer);
        InsideCatches(Records(b, at + Length(a)), at + Length(a), at + Length(c), ip);
        FindsLeft(Records(a, at), Records(b, at + Length(a)), ip, outer, Lexical(c, at, ip, outer));
      } else {
        LexicalIsBest(b, at + Length(a), ip, outer);
        InsideCatches(Records(a, at), at, at + Length(a), ip);
        FindsLeft(Records(b, at + Length(a)), Records(a, at), ip, outer, Lexical(c, at, ip, outer));
      }
    case TryCode(b, h, f) =>
      LexicalTry(c, at, ip, outer);
  }

  lemma {:induction false} LexicalTry(c: Code, at: nat, ip: nat, outer: Option<nat>)
    requires Bracketed(c) && c.TryCode? && at <= ip < at + Length(c)
    ensures Finds(Records(c, at), ip, outer, Lexical(c, at, ip, outer))
    decreases c, 1
  {
    var e, target := Record(c, at), Lexical(c, at, ip, outer);
    var xb, xh, xf := BodyRecords(c, at), HandlerRecords(c, at), FinallyRecords(c, at);
    PartsInside(c, at);
    if ip < HandlerStart(c, at) {
      InsideCatches(xh, HandlerStart(c, at), FinallyStart(c, at) - 1, ip);
      InsideCatches(xf, FinallyStart(c, at), at + Length(c) - 1, ip);
      if ip < at + Length(c.body) {
        LexicalIsBest(c.body, at, ip, Some(Entry(e, ip)));
      } else {
        InsideCatches(xb, at, HandlerStart(c, at) - 1, ip);
      }
      FindsLeft(xb, xh, ip, Some(Entry(e, ip)), target);
      FindsLeft(xb + xh, xf, ip, Some(Entry(e, ip)), target);
      FindsAround(xb + xh + xf, e, ip, target);
    } else {
      InsideCatches(xb, at, HandlerStart(c, at) - 1, ip);
      LexicalRest(c, at, ip, outer);
    }
  }

  /** The cases in which the error is thrown in the handler or in the finally block. */
  lemma {:induction false} LexicalRest(c: Code, at: nat, ip: nat, outer: Option<nat>)
    requires Bracketed(c) && c.TryCode? && HandlerStart(c, at) <= ip < at + Length(c)
    requires NoneCatches(BodyRecords(c, at), ip)
    ensures Finds(Records(c, at), ip, outer, Lexical(c, at, ip, outer))
    decreases c, 0
  {
    var e, target := Record(c, at), Lexical(c, at, ip, outer);
    var xb, xh, xf := BodyRecords(c, at), HandlerRecords(c, at), FinallyRecords(c, at);
    PartsInside(c, at);
    if ip < FinallyStart(c, at) {
      var next := if c.finally.Some? then Some(FinallyStart(c, at)) else outer;
      InsideCatches(xf, FinallyStart(c, at), at + Length(c) - 1, ip);
      if ip < FinallyStart(c, at) - 1 {
        LexicalIsBest(c.handler.value, HandlerStart(c, at), ip, next);
      } else {
        InsideCatches(xh, HandlerStart(c, at), FinallyStart(c, at) - 1, ip);
      }
      FindsLeft(xh, xb, ip, next, target);
      FindsLeft(xb + xh, xf, ip, next, target);
      if c.finally.Some? {
        FindsAround(xb + xh + xf, e, ip, target);
      } else {
        FindsBehind(xb + xh + xf, e, ip, outer, target);
      }
    } else {
      InsideCatches(xh, HandlerStart(c, at), FinallyStart(c, at) - 1, ip);
      if ip < at + Length(c) - 1 {
        LexicalIsBest(c.finally.value, FinallyStart(c, at), ip, outer);
      } else {
        InsideCatches(xf, FinallyStart(c, at), at + Length(c) - 1, ip);
      }
      FindsLeft(xf, xb + xh, ip, outer, target);
      FindsBehind(xb + xh + xf, e, ip, outer, target);
    }
  }

  /** For any properly bracketed code, an error goes to exactly the handler that nesting prescribes, and out of
      the function when there is none. */
  lemma ThrowIsLexical(c: Code, ip: nat)
    requires Bracketed(c) && ip < Length(c)
    ensures ThrowTarget(Sort(Records(c, 0)), ip) == Lexical(c, 0, ip, None)
  {
    LexicalIsBest(c, 0, ip, None);
    if NoneCatches(Records(c, 0), ip) && Lexical(c, 0, ip, None) == None {
      SortedSearchFails(Records(c, 0), ip);
    } else {
      var e :| IsBest(Records(c, 0), ip, e) && Lexical(c, 0, ip, None) == Some(Entry(e, ip));
      SortedSearch(Records(c, 0), ip, e);
    }
  }

  // ---- EndFinally with an error in flight ----

  /** The instruction at `ip` is the EndFinally of some exception block. */
  predicate EndsFinally(c: Code, at: nat, ip: nat) {
    match c
    case Plain(_) => false
    case Seq(a, b) => EndsFinally(a, at, ip) || EndsFinally(b, at + Length(a), ip)
    case TryCode(b, h, f) =>
      || (f.Some? && ip == at + Length(c) - 1)
      || EndsFinally(b, at, ip)
      || (h.Some? && EndsFinally(h.value, HandlerStart(c, at), ip))
      || (f.Some? && EndsFinally(f.value, FinallyStart(c, at), ip))
  }

  /** `e` is the innermost block whose finally block holds `ip`, and every other block around `ip` encloses it. */
  ghost predicate Innermost(table: seq<TryCatch>, ip: nat, e: TryCatch) {
    e in table && e.InFinally(ip) && !Catches(e, ip)
    && forall x :: x in table && x != e && (Catches(x, ip) || x.InFinally(ip)) ==> Before(e, x)
  }

  ghost predicate Quiet(table: seq<TryCatch>, ip: nat) {
    forall x :: x in table ==> !Catches(x, ip) && !x.InFinally(ip)
  }

  lemma InsideQuiet(table: seq<TryCatch>, at: nat, end: nat, ip: nat)
    requires Inside(table, at, end) && !(at <= ip < end)
    ensures Quiet(table, ip)
  {
  }

  lemma InnermostLeft(a: seq<TryCatch>, b: seq<TryCatch>, ip: nat, e: TryCatch)
    requires Innermost(a, ip, e) && Quiet(b, ip)
    ensures Innermost(a + b, ip, e) && Innermost(b + a, ip, e)
  {
  }

  lemma InnermostAround(inner: seq<TryCatch>, o: TryCatch, ip: nat, e: TryCatch)
    requires Innermost(inner, ip, e) && Before(e, o)
    ensures Innermost(inner + [o], ip, e)
  {
  }

  lemma {:induction false} EndsFinallyInside(c: Code, at: nat, ip: nat)
    requires EndsFinally(c, at, ip)
    ensures at <= ip < at + Length(c)
  {
    match c
    case Plain(_) =>
    case Seq(a, b) =>
      if EndsFinally(a, at, ip) {
        EndsFinallyInside(a, at, ip);
      } else {
        EndsFinallyInside(b, at + Length(a), ip);
      }
    case TryCode(b, h, f) =>
      if f.Some? && ip == at + Length(c) - 1 {
      } else if EndsFinally(b, at, ip) {
        EndsFinallyInside(b, at, ip);
      } else if h.Some? && EndsFinally(h.value, HandlerStart(c, at), ip) {
        EndsFinallyInside(h.value, HandlerStart(c, at), ip);
      } else {
        EndsFinallyInside(f.value, FinallyStart(c, at), ip);
      }
  }

  lemma {:induction false} FindInnermost(c: Code, at: nat, ip: nat) returns (e: TryCatch)
    requires Bracketed(c) && EndsFinally(c, at, ip)
    ensures Innermost(Records(c, at), ip, e)
    decreases c, 2
  {
    hide Inside, Innermost, Quiet;
    match c
    case Seq(a, b) =>
      RecordsInside(a, at);
      RecordsInside(b, at + Length(a));
      if EndsFinally(a, at, ip) {
        e := FindInnermost(a, at, ip);
        EndsFinallyInside(a, at, ip);
        InsideQuiet(Records(b, at + Length(a)), at + Length(a), at + Length(c), ip);
        InnermostLeft(Records(a, at), Records(b, at + Length(a)), ip, e);
      } else {
        e := FindInnermost(b, at + Length(a), ip);
        EndsFinallyInside(b, at + Length(a), ip);
        InsideQuiet(Records(a, at), at, at + Length(a), ip);
        InnermostLeft(Records(b, at + Length(a)), Records(a, at), ip, e);
      }
    case TryCode(b, h, f) =>
      e := FindInnermostInTry(c, at, ip);
  }

  lemma {:induction false} FindInnermostInTry(c: Code, at: nat, ip: nat) returns (e: TryCatch)
    requires Bracketed(c) && c.TryCode? && EndsFinally(c, at, ip)
    ensures Innermost(Records(c, at), ip, e)
    decreases c, 1
  {
    hide Inside, Innermost, Quiet;
    var xb, xh, xf := BodyRecords(c, at), HandlerRecords(c, at), FinallyRecords(c, at);
    PartsInside(c, at);
    if c.finally.Some? && ip == at + Length(c) - 1 {
      e := Record(c, at);
      InsideQuiet(xb, at, HandlerStart(c, at) - 1, ip);
      InsideQuiet(xh, HandlerStart(c, at), FinallyStart(c, at) - 1, ip);
      InsideQuiet(xf, FinallyStart(c, at), at + Length(c) - 1, ip);
      OwnIsInnermost(xb, xh, xf, e, ip);
    } else if EndsFinally(c.body, at, ip) {
      e := FindInnermost(c.body, at, ip);
      EndsFinallyInside(c.body, at, ip);
      InsideQuiet(xh, HandlerStart(c, at), FinallyStart(c, at) - 1, ip);
      InsideQuiet(xf, FinallyStart(c, at), at + Length(c) - 1, ip);
      InnermostLeft(xb, xh, ip, e);
      InnermostLeft(xb + xh, xf, ip, e);
      PartBefore(xb, at, HandlerStart(c, at) - 1, ip, e, Record(c, at));
      InnermostAround(xb + xh + xf, Record(c, at), ip, e);
    } else {
      e := FindInnermostLater(c, at, ip);
    }
  }

  lemma {:induction false} FindInnermostLater(c: Code, at: nat, ip: nat) returns (e: TryCatch)
    requires Bracketed(c) && c.TryCode?
    requires (c.handler.Some? && EndsFinally(c.handler.value, HandlerStart(c, at), ip))
      || (c.finally.Some? && EndsFinally(c.finally.value, FinallyStart(c, at), ip))
    ensures Innermost(Records(c, at), ip, e)
    decreases c, 0
  {
    hide Inside, Innermost, Quiet;
    var xb, xh, xf := BodyRecords(c, at), HandlerRecords(c, at), FinallyRecords(c, at);
    PartsInside(c, at);
    if c.handler.Some? && EndsFinally(c.handler.value, HandlerStart(c, at), ip) {
      e := FindInnermost(c.handler.value, HandlerStart(c, at), ip);
      EndsFinallyInside(c.handler.value, HandlerStart(c, at), ip);
      InsideQuiet(xb, at, HandlerStart(c, at) - 1, ip);
      InsideQuiet(xf, FinallyStart(c, at), at + Length(c) - 1, ip);
      InnermostLeft(xh, xb, ip, e);
      InnermostLeft(xb + xh, xf, ip, e);
      PartBefore(xh, HandlerStart(c, at), FinallyStart(c, at) - 1, ip, e, Record(c, at));
    } else {
      e := FindInnermost(c.finally.value, FinallyStart(c, at), ip);
      EndsFinallyInside(c.finally.value, FinallyStart(c, at), ip);
      InsideQuiet(xb, at, HandlerStart(c, at) - 1, ip);
      InsideQuiet(xh, HandlerStart(c, at), FinallyStart(c, at) - 1, ip);
      assert Quiet(xb + xh, ip) by {
        QuietJoin(xb, xh, ip);
      }
      InnermostLeft(xf, xb + xh, ip, e);
      PartBefore(xf, FinallyStart(c, at), at + Length(c) - 1, ip, e, Record(c, at));
    }
    InnermostAround(xb + xh + xf, Record(c, at), ip, e);
  }

  lemma QuietJoin(a: seq<TryCatch>, b: seq<TryCatch>, ip: nat)
    requires Quiet(a, ip) && Quiet(b, ip)
    ensures Quiet(a + b, ip)
  {
  }

  lemma OwnIsInnermost(a: seq<TryCatch>, b: seq<TryCatch>, c: seq<TryCatch>, e: TryCatch, ip: nat)
    requires Quiet(a, ip) && Quiet(b, ip) && Quiet(c, ip) && e.InFinally(ip) && !Catches(e, ip)
    ensures Innermost(a + b + c + [e], ip, e)
  {
  }

  /** A record of a part of an exception block sorts before the block's own record. */
  lemma PartBefore(part: seq<TryCatch>, at: nat, end: nat, ip: nat, e: TryCatch, o: TryCatch)
    requires Inside(part, at, end) && Innermost(part, ip, e)
    requires o.body.start < at || (o.body.start == at && end <= o.body.end)
    ensures Before(e, o)
  {
  }

  lemma {:induction false} EndFinallySkips(table: seq<TryCatch>, ip: nat, e: TryCatch)
    requires Ordered(table) && Innermost(table, ip, e)
    ensures EndFinallyTarget(table, ip) == ThrowTarget(table, ip)
  {
    assert table == [table[0]] + table[1..];
    var k: nat :| k < |table| && table[k] == e;
    assert k > 0 ==> !Before(table[k], table[0]);
    if table[0] != e {
      assert !Catches(table[0], ip) && !table[0].InFinally(ip);
      TailOrdered(table);
      EndFinallySkips(table[1..], ip, e);
    }
  }

  lemma TailOrdered(table: seq<TryCatch>)
    requires Ordered(table) && table != []
    ensures Ordered(table[1..])
  {
    forall i: nat, j: nat | i < j < |table[1..]|
      ensures !Before(table[1..][j], table[1..][i])
    {
      assert !Before(table[j + 1], table[i + 1]);
    }
  }

  /** With an error in flight, the end of a finally block passes it to exactly the handler that nesting prescribes
      for that place. */
  lemma EndFinallyIsLexical(c: Code, ip: nat)
    requires Bracketed(c) && EndsFinally(c, 0, ip)
    ensures EndFinallyTarget(Sort(Records(c, 0)), ip) == Lexical(c, 0, ip, None)
  {
    hide Innermost;
    EndsFinallyInside(c, 0, ip);
    ThrowIsLexical(c, ip);
    var e := FindInnermost(c, 0, ip);
    SortOrdered(Records(c, 0));
    SortInnermost(Records(c, 0), ip, e);
    EndFinallySkips(Sort(Records(c, 0)), ip, e);
  }

  lemma SortInnermost(table: seq<TryCatch>, ip: nat, e: TryCatch)
    requires Innermost(table, ip, e)
    ensures Innermost(Sort(table), ip, e)
  {
    forall y: TryCatch
      ensures y in Sort(table) <==> y in table
    {
      SortHolds(table, y);
    }
  }
}
