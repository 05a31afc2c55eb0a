/** The instruction set of the fragment and the state of the code generator, as a value. */
module IrBuilder {
  import opened Ast
  import opened ExceptionTable
  import opened Wrappers

  datatype BinaryIr =
    | Add | BitAnd | BitOr | BitXOr | Divide | Eq | Ge | Gt | In | InstanceOf | Le | Lsh | Lt | Modulus | Multiply
    | Ne | Rsh | RshZeroFill | StrictEq | StrictNe | Subtract

  datatype UnaryIr = BitNot | Negative | Not | Positive | ToBoolean | ToNumber | Typeof

  /** Until the block is built the target of a jump is a label; after that it is an instruction offset. */
  datatype Ir =
    | BinaryOp(b: BinaryIr)
    | UnaryOp(u: UnaryIr)
    | Nop  // Debugger
    | Dup
    | Jump(target: nat)
    | JumpStrictEq(target: nat)
    | JumpFalse(target: nat)
    | JumpTrue(target: nat)
    | Leave(target: nat)
    | LoadException
    | LoadF64(f: real)
    | LoadFalse
    | LoadI32(i: int)
    | LoadI64(i: int)
    | LoadLocal(slot: nat)
    | LoadNull
    | LoadString(name: nat)
    | LoadTrue
    | LoadUndefined
    | Pop
    | ReturnIr
    | StoreLocal(slot: nat)
    | ThrowIr

  function LabelAt(labels: seq<nat>, l: int): nat {
    if 0 <= l < |labels| then labels[l] else 0
  }

  function FixupLabel(i: Ir, labels: seq<nat>): Ir {
    match i
    case Jump(l) => Jump(LabelAt(labels, l))
    case JumpStrictEq(l) => JumpStrictEq(LabelAt(labels, l))
    case JumpFalse(l) => JumpFalse(LabelAt(labels, l))
    case JumpTrue(l) => JumpTrue(LabelAt(labels, l))
    case Leave(l) => Leave(LabelAt(labels, l))
    case _ => i
  }

  /** A break or continue target: its name, its label and how deep in exception blocks it is. */
  datatype NamedLabel = NamedLabel(name: Option<Label>, at: nat, depth: nat)

  datatype ReturnTarget = ReturnTarget(at: nat, slot: nat)

  datatype Gen = Gen(ir: seq<Ir>, locals: nat, labels: seq<nat>, open: seq<TryCatch>, table: seq<TryCatch>,
                     breaks: seq<NamedLabel>, continues: seq<NamedLabel>, depth: nat, ret: Option<ReturnTarget>) {
    function Emit(i: Ir): Gen {
      this.(ir := ir + [i])
    }

    function NewLabel(): Gen {
      this.(labels := labels + [0])
    }

    function Mark(l: int): Gen {
      if 0 <= l < |labels| then this.(labels := labels[l := |ir|]) else this
    }

    function NewLocal(): Gen {
      this.(locals := locals + 1)
    }

    function PushBreak(name: Option<Label>): Gen {
      this.(breaks := breaks + [NamedLabel(name, |labels|, depth)], labels := labels + [0])
    }

    function PushContinue(name: Option<Label>): Gen {
      this.(continues := continues + [NamedLabel(name, |labels|, depth)], labels := labels + [0])
    }

    function PopBreak(): Gen {
      if breaks == [] then this else this.(breaks := breaks[..|breaks| - 1])
    }

    function PopContinue(): Gen {
      if continues == [] then this else this.(continues := continues[..|continues| - 1])
    }

    function Enter(): Gen {
      this.(depth := depth + 1)
    }

    function Exit(): Gen {
      if depth == 0 then this else this.(depth := depth - 1)
    }

    function StartExceptionBlock(): Gen {
      this.(open := open + [TryCatch(IrRange(|ir|, 0), None, None)])
    }

    function StartCatch(): Gen {
      if open == [] then this
      else
        var top := |open| - 1;
        this.(open := open[top := TryCatch(IrRange(open[top].body.start, |ir|), Some(IrRange(|ir|, 0)), open[top].finally)])
    }

    function EndExceptionBlock(): Gen {
      if open == [] then this
      else
        var top := |open| - 1;
        var e := open[top];
        var closed := if e.handler.Some? then e.(handler := Some(IrRange(e.handler.value.start, |ir|))) else e;
        this.(open := open[..top], table := table + [closed])
    }
  }

  /** A finished block: code with resolved targets, the number of locals and the sorted exception table. */
  datatype Block = Block(ir: seq<Ir>, locals: nat, table: seq<TryCatch>)

  function Fixup(ir: seq<Ir>, labels: seq<nat>): (r: seq<Ir>)
    ensures |r| == |ir|
    ensures forall i :: 0 <= i < |ir| ==> r[i] == FixupLabel(ir[i], labels)
  {
    seq(|ir|, i requires 0 <= i < |ir| => FixupLabel(ir[i], labels))
  }

  function Build(g: Gen): Block {
    Block.Block(Fixup(g.ir, g.labels), g.locals, Sort(g.table))
  }
}
