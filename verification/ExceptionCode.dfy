/** The builder's calls for exception blocks: nested bodies, handlers and finally parts leave the records of the code
    they bracket, so an error in what was built goes to the handler that nesting prescribes. */
module ExceptionCode {
  import opened Wrappers
  import opened ExceptionTable
  import opened IrBuilder
  import opened CodeEmitter

  /** Emits code of that shape. Only where instructions are matters here, not what they do. */
  method EmitCode(b: Builder, c: Code)
    requires Bracketed(c)
    modifies b`ir, b`open, b`table
    ensures |b.ir| == |old(b.ir)| + Length(c) && b.open == old(b.open)
    ensures b.table == old(b.table) + Records(c, |old(b.ir)|)
    decreases c, 1
  {
    match c
    case Plain(n) =>
      for k := 0 to n
        invariant |b.ir| == |old(b.ir)| + k && b.open == old(b.open) && b.table == old(b.table)
      {
        b.Emit(Nop);
      }
    case Seq(first, second) =>
      EmitCode(b, first);
      EmitCode(b, second);
    case TryCode(body, handler, finally) => EmitTryCode(b, c);
  }

  method EmitTryCode(b: Builder, c: Code)
    requires Bracketed(c) && c.TryCode?
    modifies b`ir, b`open, b`table
    ensures |b.ir| == |old(b.ir)| + Length(c) && b.open == old(b.open)
    ensures b.table == old(b.table) + Records(c, |old(b.ir)|)
    decreases c, 0
  {
    hide Records;
    ghost var at, open, table := |b.ir|, b.open, b.table;
    PartsInside(c, at);
    b.StartExceptionBlock();
    EmitPart(b, c.body);
    ghost var body := b.table;
    if c.handler.Some? {
      b.StartCatch();
      assert b.open == open + [TryCatch(IrRange(at, HandlerStart(c, at)), Some(IrRange(HandlerStart(c, at), 0)), None)];
      EmitPart(b, c.handler.value);
    }
    ghost var handler := b.table;
    assert handler == table + BodyRecords(c, at) + HandlerRecords(c, at);
    if c.finally.Some? {
      b.StartFinally();
      EmitPart(b, c.finally.value);
    }
    assert b.table == handler + FinallyRecords(c, at);
    assert b.open[..|open|] == open;
    b.EndExceptionBlock();
    assert b.table == handler + FinallyRecords(c, at) + [Record(c, at)];
  }

  /** A part of an exception block and the instruction that ends it. */
  method EmitPart(b: Builder, c: Code)
    requires Bracketed(c)
    modifies b`ir, b`open, b`table
    ensures |b.ir| == |old(b.ir)| + Length(c) + 1 && b.open == old(b.open)
    ensures b.table == old(b.table) + Records(c, |old(b.ir)|)
    decreases c, 2
  {
    hide Records, Length;
    EmitCode(b, c);
    b.Emit(Leave(0));
  }

  /** What is built from such calls sends every error where nesting prescribes. */
  method BuildCode(c: Code) returns (block: Block)
    requires Bracketed(c)
    ensures |block.ir| == Length(c) && block.table == Sort(Records(c, 0))
    ensures forall ip: nat :: ip < Length(c) ==> ThrowTarget(block.table, ip) == Lexical(c, 0, ip, None)
  {
    hide Records, Length, Sort, ThrowTarget, Lexical;
    var b := new Builder();
    EmitCode(b, c);
    assert b.table == [] + Records(c, 0) == Records(c, 0);
    block := b.Build();
    forall ip: nat | ip < Length(c)
      ensures ThrowTarget(block.table, ip) == Lexical(c, 0, ip, None)
    {
      ThrowIsLexical(c, ip);
    }
  }
}
