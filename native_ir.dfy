/** A symbolic stand-in for the native IR the compiler builds: values,
    instructions of the single entry block, and function objects. */
module NativeIR {

  /** An IR value: the 64-bit integer constant `v`, or the result of an add
      or multiply instruction over two earlier values. */
  datatype Value =
    | ConstI64(v: int)
    | AddOf(lhs: Value, rhs: Value)
    | MulOf(lhs: Value, rhs: Value)

  /** An instruction appended to a basic block by the builder. */
  datatype Inst =
    | Add(lhs: Value, rhs: Value)
    | Mul(lhs: Value, rhs: Value)
    | RetVoid

  /** 2^64: integer constants and arithmetic on them are 64 bits wide. */
  const Word: int := 0x1_0000_0000_0000_0000

  // The instruction builder uses the default constant folder: an add or a
  // multiply of two constants is folded into a constant holding the wrapped
  // 64-bit result and emits nothing; any other add or multiply is emitted as
  // one instruction whose result is the new value.

  function CreateAdd(a: Value, b: Value): (Value, seq<Inst>)
  {
    if a.ConstI64? && b.ConstI64? then (ConstI64((a.v % Word + b.v % Word) % Word), [])
    else (AddOf(a, b), [Add(a, b)])
  }

  function CreateMul(a: Value, b: Value): (Value, seq<Inst>)
  {
    if a.ConstI64? && b.ConstI64? then (ConstI64((a.v % Word) * (b.v % Word) % Word), [])
    else (MulOf(a, b), [Mul(a, b)])
  }

  datatype Ty = Void | I64

  datatype FnType = FnType(result: Ty, params: seq<Ty>, isVarArg: bool)

  /** The type every declared function gets: `void ()`. */
  const VoidNoArgs: FnType := FnType(Void, [], false)

  datatype Linkage = ExternalLinkage

  /** A native function. Its name is not modelled: functions are identified
      by their position in the compiler's function list. Each `blocks` entry
      is one basic block, in creation order. */
  class Function {
    const ty: FnType
    const linkage: Linkage
    var blocks: seq<seq<Inst>>

    constructor (ty: FnType, linkage: Linkage)
      ensures this.ty == ty && this.linkage == linkage && blocks == []
    {
      this.ty := ty;
      this.linkage := linkage;
      blocks := [];
    }
  }
}
