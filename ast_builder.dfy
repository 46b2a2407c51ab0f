/** Lowering of the concrete syntax tree to the AST: one visit per grammar
    production, each returning a type-erased result that its caller casts to
    the node type it expects. A failed cast aborts the whole lowering. */
module AstBuilder {
  import opened Wrappers
  import opened Ast
  import opened Cst

  /** The value `std::string::find` returns when the character is absent. */
  const Npos: nat := 0xFFFF_FFFF_FFFF_FFFF

  /** The position of the first `c` in `s`, or `Npos`. */
  function Find(s: string, c: char): (r: nat)
    requires |s| < Npos
    ensures r == Npos <==> c !in s
    ensures r != Npos ==> r < |s| && s[r] == c && c !in s[..r]
  {
    if s == [] then Npos
    else if s[0] == c then 0
    else
      var k := Find(s[1..], c);
      if k == Npos then Npos
      else
        assert s[..k + 1] == [s[0]] + s[1..][..k];
        k + 1
  }

  /** Every r-value lowers to the same empty node; the context is not read,
      and may even be absent. */
  function VisitAnyRvalue(ctx: Option<AnyRvalueContext>): (r: Result<Any>)
    ensures CastRValue(r) == Ok(RValueNode)
    ensures CastImmediate(r) == TypeMismatch
  {
    Ok(AnyRValue(RValueNode))
  }

  /** Every l-value lowers to the same empty node, whatever its text. */
  function VisitAnyLvalue(ctx: AnyLvalueContext): (r: Result<Any>)
    ensures CastLValue(r) == Ok(LValueNode)
  {
    Ok(AnyLValue(LValueNode))
  }

  /** The literal's text chooses between the double and the integer form by
      testing the POSITION of the first '.' for being non-zero. */
  function VisitAnyNumber(ctx: AnyNumberContext): (r: Result<Any>)
    requires |ctx.text| < Npos
    ensures r.Ok? && r.value.AnyImmediate? && r.value.immediate.text == ctx.text
    ensures r.value.immediate.DoubleImmediate? <==> !(|ctx.text| > 0 && ctx.text[0] == '.')
  {
    if Find(ctx.text, '.') != 0 then Ok(AnyImmediate(DoubleImmediate(ctx.text)))
    else Ok(AnyImmediate(LongImmediate(ctx.text)))
  }

  /** "mul" is the only keyword that yields `Mul`; "add" and every other
      text yield `Add`. */
  function VisitBinaryOperator(ctx: BinaryOperatorContext): (r: Result<Any>)
    ensures r.Ok? && r.value.AnyOperator?
    ensures r.value.op == Mul <==> ctx.text == "mul"
  {
    if ctx.text == "add" then Ok(AnyOperator(Add))
    else if ctx.text == "mul" then Ok(AnyOperator(Mul))
    else Ok(AnyOperator(Add))
  }

  /** An r-value child yields an r-value argument. A number child goes
      through the r-value visit, whose result never casts to an immediate.
      With neither child the result is the integer 0, not an argument. */
  function VisitAnyArgument(ctx: AnyArgumentContext): (r: Result<Any>)
    ensures ctx.rvalue.Some? ==> r == Ok(AnyArg(RValueArg(RValueNode)))
    ensures ctx.rvalue.None? && ctx.number.Some? ==> r == TypeMismatch
    ensures ctx.rvalue.None? && ctx.number.None? ==> r.Ok? && !r.value.AnyArg?
  {
    if ctx.rvalue.Some? then
      match CastRValue(VisitAnyRvalue(ctx.rvalue))
      case TypeMismatch => TypeMismatch
      case Ok(v) => Ok(AnyArg(RValueArg(v)))
    else if ctx.number.Some? then
      match CastImmediate(VisitAnyRvalue(ctx.rvalue))
      case TypeMismatch => TypeMismatch
      case Ok(v) => Ok(AnyArg(ImmediateArg(v)))
    else
      Ok(AnyInt(0))
  }

  /** Whether an argument lowers: only when it has an r-value child. */
  predicate ArgumentLowers(ctx: AnyArgumentContext)
  {
    ctx.rvalue.Some?
  }

  /** The destination is always the empty l-value; the first source comes
      from the second operand and the second source from the third. */
  function VisitBinaryOperatorInstruction(ctx: BinaryOperatorInstructionContext): (r: Result<Any>)
    ensures r.Ok? <==> ArgumentLowers(ctx.arg2) && ArgumentLowers(ctx.arg3)
    ensures r.Ok? ==>
      r.value.AnyBinary? &&
      (r.value.binary.op == Mul <==> ctx.op.text == "mul") &&
      r.value.binary.lhs == LValueNode &&
      r.value.binary.arg1 == RValueArg(RValueNode) &&
      r.value.binary.arg2 == RValueArg(RValueNode)
  {
    match (CastOperator(VisitBinaryOperator(ctx.op)), CastLValue(VisitAnyLvalue(ctx.arg1)),
           CastArg(VisitAnyArgument(ctx.arg2)), CastArg(VisitAnyArgument(ctx.arg3)))
    case (Ok(op), Ok(lhs), Ok(arg1), Ok(arg2)) => Ok(AnyBinary(BinaryNode(op, lhs, arg1, arg2)))
    case _ => TypeMismatch
  }

  /** A binary-operator instruction yields a pointer to an instruction node
      wrapping its binary node; every other form yields the null pointer.
      The default child traversal returns the result of the instruction's
      one child, so the binary form is visited directly. */
  function VisitInstruction(ctx: InstructionContext): (r: Result<Any>)
    ensures !ctx.BinaryOperatorChild? ==> r == Ok(AnyNullptr)
    ensures ctx.BinaryOperatorChild? ==>
      (r.Ok? <==> VisitBinaryOperatorInstruction(ctx.binary).Ok?) &&
      (r.Ok? ==> r.value == AnyInstructionPtr(Binary(VisitBinaryOperatorInstruction(ctx.binary).value.binary)))
  {
    if ctx.BinaryOperatorChild? then
      match CastBinary(VisitBinaryOperatorInstruction(ctx.binary))
      case TypeMismatch => TypeMismatch
      case Ok(b) => Ok(AnyInstructionPtr(Binary(b)))
    else
      Ok(AnyNullptr)
  }

  /** The instruction list, each entry the cast of its instruction's visit
      to an instruction pointer. */
  function LowerInstructions(xs: seq<InstructionContext>): (r: Result<seq<InstructionNode>>)
    ensures r.Ok? ==> |r.value| == |xs|
  {
    if xs == [] then Ok([])
    else
      match (CastInstructionPtr(VisitInstruction(xs[0])), LowerInstructions(xs[1..]))
      case (Ok(first), Ok(rest)) => Ok([first] + rest)
      case _ => TypeMismatch
  }

  /** Visits every instruction in order, appending each result. */
  method VisitInstructions(ctx: InstructionsContext) returns (r: Result<Any>)
    ensures r == (var l := LowerInstructions(ctx.instructions);
                  if l.Ok? then Ok(AnyInstructionList(l.value)) else TypeMismatch)
  {
    var xs := ctx.instructions;
    var instructions: seq<InstructionNode> := [];
    assert xs[0..] == xs;
    assert LowerInstructions(xs).Ok? ==> [] + LowerInstructions(xs).value == LowerInstructions(xs).value;
    for i := 0 to |xs|
      invariant LowerInstructions(xs).Ok? <==> LowerInstructions(xs[i..]).Ok?
      invariant LowerInstructions(xs).Ok? ==> LowerInstructions(xs).value == instructions + LowerInstructions(xs[i..]).value
    {
      assert xs[i..][0] == xs[i] && xs[i..][1..] == xs[i + 1..];
      var c := CastInstructionPtr(VisitInstruction(xs[i]));
      if c.TypeMismatch? {
        assert LowerInstructions(xs[i..]) == TypeMismatch;
        return TypeMismatch;
      }
      if LowerInstructions(xs).Ok? {
        var rest := LowerInstructions(xs[i + 1..]).value;
        assert instructions + ([c.value] + rest) == (instructions + [c.value]) + rest;
      }
      instructions := instructions + [c.value];
    }
    assert xs[|xs|..] == [] && LowerInstructions(xs[|xs|..]) == Ok([]);
    assert instructions + [] == instructions;
    r := Ok(AnyInstructionList(instructions));
  }

  /** Whether an instruction lowers: only a binary-operator instruction
      whose two sources are r-values does. */
  predicate InstructionLowers(ctx: InstructionContext)
  {
    ctx.BinaryOperatorChild? && ArgumentLowers(ctx.binary.arg2) && ArgumentLowers(ctx.binary.arg3)
  }

  /** The instruction list lowers exactly when every instruction does; it
      then holds one binary node per instruction, in order, each with the
      tag of its operator keyword. */
  lemma {:induction false} InstructionsPreserveOrder(xs: seq<InstructionContext>)
    ensures LowerInstructions(xs).Ok? <==> forall i :: 0 <= i < |xs| ==> InstructionLowers(xs[i])
    ensures LowerInstructions(xs).Ok? ==>
      forall i :: 0 <= i < |xs| ==>
        LowerInstructions(xs).value[i] ==
          Binary(BinaryNode(if xs[i].binary.op.text == "mul" then Mul else Add,
                            LValueNode, RValueArg(RValueNode), RValueArg(RValueNode)))
    decreases |xs|
  {
    if xs != [] {
      InstructionsPreserveOrder(xs[1..]);
      assert forall i :: 1 <= i < |xs| ==> xs[i] == xs[1..][i - 1];
      if LowerInstructions(xs).Ok? {
        var v := LowerInstructions(xs).value;
        assert v[1..] == LowerInstructions(xs[1..]).value;
        assert forall i :: 1 <= i < |xs| ==> v[i] == LowerInstructions(xs[1..]).value[i - 1];
      }
    }
  }

  /** The id is the token text, the parameters stay empty even when a
      parameter list is present, and the body is the lowered instruction
      list. */
  function VisitFunctionDefinition(ctx: FunctionDefinitionContext): (r: Result<Any>)
    ensures r.Ok? <==> LowerInstructions(ctx.instructions.instructions).Ok?
    ensures r.Ok? ==>
      r.value.AnyStatement? && r.value.statement.FunctionStatement? &&
      r.value.statement.fn.id == IdNode(ctx.id) &&
      r.value.statement.fn.parameters == [] &&
      r.value.statement.fn.body == LowerInstructions(ctx.instructions.instructions).value
  {
    // The visit of the instruction list returns the list type this cast
    // expects, so only the list's own failures propagate.
    match LowerInstructions(ctx.instructions.instructions)
    case TypeMismatch => TypeMismatch
    case Ok(body) => Ok(AnyStatement(FunctionStatement(FunctionNode(IdNode(ctx.id), [], body))))
  }

  /** The default child traversal returns the result of the statement's one
      child. */
  function VisitStatement(ctx: StatementContext): (r: Result<Any>)
    ensures ctx.FunctionDefinitionChild? ==>
      (CastStatement(r).Ok? <==> LowerInstructions(ctx.definition.instructions.instructions).Ok?) &&
      (CastStatement(r).Ok? ==> CastStatement(r).value.FunctionStatement? &&
                                CastStatement(r).value.fn.id == IdNode(ctx.definition.id))
    ensures ctx.TypeDefinitionChild? ==> r == Ok(ctx.typeDefinition.childrenResult)
  {
    match ctx
    case FunctionDefinitionChild(d) => VisitFunctionDefinition(d)
    case TypeDefinitionChild(t) => Ok(t.childrenResult)
  }

  /** The statement list, each entry the cast of its statement's visit to a
      statement node. */
  function LowerStatements(xs: seq<StatementContext>): (r: Result<seq<StatementNode>>)
    ensures r.Ok? ==> |r.value| == |xs|
  {
    if xs == [] then Ok([])
    else
      match (CastStatement(VisitStatement(xs[0])), LowerStatements(xs[1..]))
      case (Ok(first), Ok(rest)) => Ok([first] + rest)
      case _ => TypeMismatch
  }

  /** Visits every statement in order, appending each result. */
  method VisitProgram(ctx: ProgramContext) returns (r: Result<Any>)
    ensures r == (var l := LowerStatements(ctx.statements);
                  if l.Ok? then Ok(AnyProgram(ProgramNode(l.value))) else TypeMismatch)
  {
    var xs := ctx.statements;
    var statements: seq<StatementNode> := [];
    assert xs[0..] == xs;
    assert LowerStatements(xs).Ok? ==> [] + LowerStatements(xs).value == LowerStatements(xs).value;
    for i := 0 to |xs|
      invariant LowerStatements(xs).Ok? <==> LowerStatements(xs[i..]).Ok?
      invariant LowerStatements(xs).Ok? ==> LowerStatements(xs).value == statements + LowerStatements(xs[i..]).value
    {
      assert xs[i..][0] == xs[i] && xs[i..][1..] == xs[i + 1..];
      var c := CastStatement(VisitStatement(xs[i]));
      if c.TypeMismatch? {
        assert LowerStatements(xs[i..]) == TypeMismatch;
        return TypeMismatch;
      }
      if LowerStatements(xs).Ok? {
        var rest := LowerStatements(xs[i + 1..]).value;
        assert statements + ([c.value] + rest) == (statements + [c.value]) + rest;
      }
      statements := statements + [c.value];
    }
    assert xs[|xs|..] == [] && LowerStatements(xs[|xs|..]) == Ok([]);
    assert statements + [] == statements;
    r := Ok(AnyProgram(ProgramNode(statements)));
  }

  /** Whether a statement lowers: a function definition whose instructions
      all lower, or a type definition whose traversal yields a statement. */
  predicate StatementLowers(ctx: StatementContext)
  {
    match ctx
    case FunctionDefinitionChild(d) =>
      forall i :: 0 <= i < |d.instructions.instructions| ==> InstructionLowers(d.instructions.instructions[i])
    case TypeDefinitionChild(t) => t.childrenResult.AnyStatement?
  }

  /** The program lowers exactly when every statement does; it then holds
      one statement node per statement, in order, each the lowering of that
      statement. */
  lemma {:induction false} StatementsPreserveOrder(xs: seq<StatementContext>)
    ensures LowerStatements(xs).Ok? <==> forall i :: 0 <= i < |xs| ==> StatementLowers(xs[i])
    ensures LowerStatements(xs).Ok? ==>
      forall i :: 0 <= i < |xs| ==>
        VisitStatement(xs[i]) == Ok(AnyStatement(LowerStatements(xs).value[i]))
    decreases |xs|
  {
    if xs != [] {
      StatementsPreserveOrder(xs[1..]);
      assert forall i :: 1 <= i < |xs| ==> xs[i] == xs[1..][i - 1];
      match xs[0] {
        case FunctionDefinitionChild(d) => InstructionsPreserveOrder(d.instructions.instructions);
        case TypeDefinitionChild(_) =>
      }
      if LowerStatements(xs).Ok? {
        var v := LowerStatements(xs).value;
        assert v[1..] == LowerStatements(xs[1..]).value;
        assert forall i :: 1 <= i < |xs| ==> v[i] == LowerStatements(xs[1..]).value[i - 1];
      }
    }
  }

  // Concrete trees.

  function Rvalue(text: string): AnyArgumentContext
  {
    AnyArgumentContext(Some(AnyRvalueContext(text)), None)
  }

  function Number(text: string): AnyArgumentContext
  {
    AnyArgumentContext(None, Some(AnyNumberContext(text)))
  }

  function SingleInstructionFunction(name: string, ins: BinaryOperatorInstructionContext): StatementContext
  {
    FunctionDefinitionChild(FunctionDefinitionContext(name, None,
      InstructionsContext([BinaryOperatorChild(ins)])))
  }

  /** `function f: mul x, y, z` lowers to a function `f` whose body is one
      multiply with two r-value sources. */
  lemma RvalueFunctionLowers()
    ensures LowerStatements([SingleInstructionFunction("f",
              BinaryOperatorInstructionContext(BinaryOperatorContext("mul"),
                AnyLvalueContext("x"), Rvalue("y"), Rvalue("z")))])
         == Ok([FunctionStatement(FunctionNode(IdNode("f"), [],
              [Binary(BinaryNode(Mul, LValueNode, RValueArg(RValueNode), RValueArg(RValueNode)))]))])
  {
    var ins := [BinaryOperatorChild(BinaryOperatorInstructionContext(BinaryOperatorContext("mul"),
                 AnyLvalueContext("x"), Rvalue("y"), Rvalue("z")))];
    var node := Binary(BinaryNode(Mul, LValueNode, RValueArg(RValueNode), RValueArg(RValueNode)));
    var b := ins[0].binary;
    assert VisitBinaryOperator(b.op) == Ok(AnyOperator(Mul));
    assert VisitAnyArgument(b.arg2) == Ok(AnyArg(RValueArg(RValueNode)));
    assert VisitAnyArgument(b.arg3) == Ok(AnyArg(RValueArg(RValueNode)));
    assert VisitBinaryOperatorInstruction(b) == Ok(AnyBinary(node.binary));
    assert CastInstructionPtr(VisitInstruction(ins[0])) == Ok(node);
    assert ins[1..] == [];
    assert LowerInstructions(ins[1..]) == Ok([]);
    assert LowerInstructions(ins) == Ok([node] + []);
    assert [node] + [] == [node];
    var st := [SingleInstructionFunction("f", ins[0].binary)];
    assert st[1..] == [];
    assert LowerStatements(st[1..]) == Ok([]);
    assert st[0].definition.instructions.instructions == ins;
    assert VisitFunctionDefinition(st[0].definition)
        == Ok(AnyStatement(FunctionStatement(FunctionNode(IdNode("f"), [], [node]))));
    assert CastStatement(VisitStatement(st[0])) == Ok(FunctionStatement(FunctionNode(IdNode("f"), [], [node])));
    var fnStatement := FunctionStatement(FunctionNode(IdNode("f"), [], [node]));
    assert LowerStatements(st) == Ok([fnStatement] + []);
    assert [fnStatement] + [] == [fnStatement];
  }

  /** `function f: mul x, 2, 3` does not lower: its numeric sources fail
      their cast. */
  lemma NumberFunctionFails()
    ensures LowerStatements([SingleInstructionFunction("f",
              BinaryOperatorInstructionContext(BinaryOperatorContext("mul"),
                AnyLvalueContext("x"), Number("2"), Number("3")))])
         == TypeMismatch
  {
  }

  /** A literal without a '.' still takes the double branch, since the
      position `find` returns for an absent character is not zero. */
  lemma DotlessNumberIsDouble(text: string)
    requires |text| < Npos && '.' !in text
    ensures VisitAnyNumber(AnyNumberContext(text)).value.immediate.DoubleImmediate?
  {
  }

  /** Only a literal that begins with '.' takes the integer branch. */
  lemma LeadingDotIsLong(text: string)
    requires |text| < Npos && |text| > 0 && text[0] == '.'
    ensures VisitAnyNumber(AnyNumberContext(text)).value.immediate.LongImmediate?
  {
  }
}
