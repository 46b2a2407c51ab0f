/** The concrete syntax tree the grammar's parser produces, one datatype per
    production the lowering visits. Optional children are `Option`s; token
    text is a string. */
module Cst {
  import opened Wrappers
  import opened Ast

  datatype ProgramContext = ProgramContext(statements: seq<StatementContext>)

  /** A statement holds a function definition or a type definition. */
  datatype StatementContext =
    | FunctionDefinitionChild(definition: FunctionDefinitionContext)
    | TypeDefinitionChild(typeDefinition: TypeDefinitionContext)

  /** A type definition is lowered by the parser library's default child
      traversal, which is not modelled: `childrenResult` is what that
      traversal yields. */
  datatype TypeDefinitionContext = TypeDefinitionContext(childrenResult: Any)

  datatype FunctionDefinitionContext = FunctionDefinitionContext(
    id: string,
    parameterList: Option<ParameterListContext>,
    instructions: InstructionsContext)

  datatype ParameterListContext = ParameterListContext(names: seq<string>)

  datatype InstructionsContext = InstructionsContext(instructions: seq<InstructionContext>)

  /** An instruction holds exactly one of the instruction forms. */
  datatype InstructionContext =
    | BinaryOperatorChild(binary: BinaryOperatorInstructionContext)
    | NoArgChild(text: string)
    | ArrowChild(text: string)
    | PrintChild(text: string)
    | MemoryChild(text: string)

  /** `op arg1, arg2, arg3`: the operator keyword, a destination and two
      sources. */
  datatype BinaryOperatorInstructionContext = BinaryOperatorInstructionContext(
    op: BinaryOperatorContext,
    arg1: AnyLvalueContext,
    arg2: AnyArgumentContext,
    arg3: AnyArgumentContext)

  datatype BinaryOperatorContext = BinaryOperatorContext(text: string)

  datatype AnyLvalueContext = AnyLvalueContext(text: string)

  /** An argument's two optional children, as the parser exposes them. */
  datatype AnyArgumentContext = AnyArgumentContext(
    rvalue: Option<AnyRvalueContext>,
    number: Option<AnyNumberContext>)

  datatype AnyRvalueContext = AnyRvalueContext(text: string)

  datatype AnyNumberContext = AnyNumberContext(text: string)
}
