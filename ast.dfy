/** The typed abstract syntax tree, and the type-erased cell a visitor
    returns it in. Every node exclusively owns its children. */
module Ast {

  datatype BinaryOperator = Add | Mul

  datatype IdNode = IdNode(id: string)

  datatype ParamNode = ParamNode(name: string)

  /** The destination operand; it carries no data yet. */
  datatype LValueNode = LValueNode

  /** A source operand that is not a literal; it carries no data yet. */
  datatype RValueNode = RValueNode

  /** A numeric literal stored as a double or as a signed 64-bit integer.
      The parsed number is not modelled: the literal's text stands for it. */
  datatype ImmediateNode = DoubleImmediate(text: string) | LongImmediate(text: string)

  datatype ArgNode = RValueArg(rvalue: RValueNode) | ImmediateArg(immediate: ImmediateNode)

  datatype BinaryNode = BinaryNode(op: BinaryOperator, lhs: LValueNode, arg1: ArgNode, arg2: ArgNode)

  /** Only the binary variant is ever constructed; the others are declared
      placeholders. */
  datatype InstructionNode = Binary(binary: BinaryNode) | NoArg | Arrow | Print | Memory

  datatype FunctionNode = FunctionNode(id: IdNode, parameters: seq<ParamNode>, body: seq<InstructionNode>)

  datatype TypeDefinitionNode = TypeDefinitionNode

  datatype StatementNode =
    | FunctionStatement(fn: FunctionNode)
    | TypeDefinitionStatement(typeDefinition: TypeDefinitionNode)

  datatype ProgramNode = ProgramNode(statements: seq<StatementNode>)

  /** The type-erased result of a visit: one variant per type a visitor
      stores in it. `AnyInstructionPtr` is a non-null shared pointer,
      `AnyNullptr` the null pointer literal, `AnyInt` a plain integer and
      `AnyEmpty` a cell holding nothing. */
  datatype Any =
    | AnyProgram(program: ProgramNode)
    | AnyStatement(statement: StatementNode)
    | AnyInstructionList(instructions: seq<InstructionNode>)
    | AnyInstructionPtr(instruction: InstructionNode)
    | AnyNullptr
    | AnyBinary(binary: BinaryNode)
    | AnyOperator(op: BinaryOperator)
    | AnyLValue(lvalue: LValueNode)
    | AnyArg(arg: ArgNode)
    | AnyRValue(rvalue: RValueNode)
    | AnyImmediate(immediate: ImmediateNode)
    | AnyInt(i: int)
    | AnyEmpty

  /** The outcome of a visit: a value, or the failed cast that aborts
      lowering. A failure propagates through every enclosing visit. */
  datatype Result<+T> = Ok(value: T) | TypeMismatch

  // Unpacking a visit result at the type the call site expects.

  function CastStatement(r: Result<Any>): Result<StatementNode>
  {
    if r.Ok? && r.value.AnyStatement? then Ok(r.value.statement) else TypeMismatch
  }

  function CastInstructionPtr(r: Result<Any>): Result<InstructionNode>
  {
    if r.Ok? && r.value.AnyInstructionPtr? then Ok(r.value.instruction) else TypeMismatch
  }

  function CastBinary(r: Result<Any>): Result<BinaryNode>
  {
    if r.Ok? && r.value.AnyBinary? then Ok(r.value.binary) else TypeMismatch
  }

  function CastOperator(r: Result<Any>): Result<BinaryOperator>
  {
    if r.Ok? && r.value.AnyOperator? then Ok(r.value.op) else TypeMismatch
  }

  function CastLValue(r: Result<Any>): Result<LValueNode>
  {
    if r.Ok? && r.value.AnyLValue? then Ok(r.value.lvalue) else TypeMismatch
  }

  function CastArg(r: Result<Any>): Result<ArgNode>
  {
    if r.Ok? && r.value.AnyArg? then Ok(r.value.arg) else TypeMismatch
  }

  function CastRValue(r: Result<Any>): Result<RValueNode>
  {
    if r.Ok? && r.value.AnyRValue? then Ok(r.value.rvalue) else TypeMismatch
  }

  function CastImmediate(r: Result<Any>): Result<ImmediateNode>
  {
    if r.Ok? && r.value.AnyImmediate? then Ok(r.value.immediate) else TypeMismatch
  }
}
