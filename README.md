# beautiful-asm: the two lowering stages

This project models the two lowering stages of the beautiful-asm toolchain
and proves properties of them.

- **Native code generation** (`src/codegen/codegen.cc`). A bytecode
  executable is a list of chunks, one per function. The `Codegen` object
  first declares one `void ()` function per chunk. It then lowers each chunk
  into its function's entry block. To do so it walks the opcodes and keeps a
  compile-time operand stack of IR values. LLVM is replaced by a symbolic IR
  (`NativeIR`): a value is a 64-bit integer constant or an add or
  multiply of two earlier values, and a block is a list of `Add`, `Mul` and
  `RetVoid` instructions. The builder folds constants as LLVM's default
  `IRBuilder<>` does: an add or multiply of two constants yields a constant
  and emits no instruction. A `Function` object records the blocks emitted
  into it. The stack discipline is specified by a pure lowering function,
  `StackLowering.Emit`, which is compared with the documented stack effect
  of each opcode and with a reference stack machine over 64-bit words.
  Popping from a stack that is too shallow is undefined behaviour in the
  source. Here it is the `Undefined` outcome of `Emit`, and the methods that
  emit code require chunks that avoid it.
- **Syntax-tree to AST lowering** (`src/parser/ast_builder_visitor.cc`).
  The concrete tree (`Cst`) has one datatype per grammar production the
  visitor reads. Each visit returns a type-erased cell (`Ast.Any`), and the
  caller casts it to the type it expects. A failed cast aborts lowering; it
  is the `TypeMismatch` outcome of `Ast.Result`, and it propagates through
  every enclosing visit. The two list visits (`VisitProgram`,
  `VisitInstructions`) are accumulation loops. Each is proved equal to a
  recursive specification function (`LowerStatements`, `LowerInstructions`),
  and order and count are proved about those functions.

The behaviour is modelled as the code has it, including where it departs
from the documented intent of the toolchain:

- a `Return` does not stop emission;
- zero is the only immediate and every add or multiply of constants is
  folded, so an entry block holds nothing but one `ret void` per `Return`
  (`StackLowering.EntryBlockIsReturns`);
- an argument with a numeric child always fails its cast, because it is
  routed through the r-value visit;
- a number literal is classified by the position `find('.')` returns, so
  only a literal that starts with `.` takes the integer branch;
- an instruction that is not a binary-operator instruction yields a null
  pointer, and that null pointer then fails the cast in the instruction-list
  visit;
- any operator keyword other than `mul` yields `Add`.

The toolchain's documentation has `function f: mul x, 2, 3` lower to a
binary node with immediates 2 and 3. The code as written rejects it
(`AstBuilder.NumberFunctionFails`).

## Model

| member | source | states |
|---|---|---|
| `Codegen.PopTwo` | src/codegen/codegen.cc:20-25 | on a stack of depth at least two, returns the entry below the top and the top, and leaves the stack without them and otherwise unchanged |
| `StackLowering.Step` | src/codegen/codegen.cc:78-124 | each opcode changes the stack depth by its pushes minus its pops, and leaves every entry below its operands unchanged; AddLong/MulLong replace the two top entries by a value denoting the wrapped sum/product of (second, top): for two constants a folded constant with no instruction emitted, otherwise Add/Mul(second, top) with exactly that instruction appended; ImmByte pushes the i64 constant 0 whatever its operand; Dup pushes a copy of the top; Return appends RetVoid and keeps the stack; every other opcode changes nothing |
| `StackLowering.FoldMeaning` | src/codegen/codegen.cc:98-103 | what the builder returns for an add or multiply, folded or not, denotes the 64-bit wrapped sum or product of its operands |
| `StackLowering.Emit` | src/codegen/codegen.cc:75-126 | lowering a run of instructions ends with the starting depth plus the net stack effect of the run, and only appends to the block |
| `StackLowering.EmitAppend` | src/codegen/codegen.cc:77-126 | lowering `a + b` is lowering `a` and then `b` from the resulting stack and block |
| `StackLowering.UndefinedIff` | src/codegen/codegen.cc:96-115 | a chunk's lowering is undefined exactly when some AddLong or MulLong meets a stack shallower than 2, or a Dup meets an empty stack; the depth at each point is computed from the stack-effect table |
| `StackLowering.ConstantsFold` | src/codegen/codegen.cc:82-115 | from a stack of constants every value produced is a constant, and the block gains exactly one void return per Return opcode and nothing else |
| `StackLowering.EntryBlockIsReturns` | src/codegen/codegen.cc:77-126 | every chunk's entry block is exactly one void return per Return opcode: no arithmetic survives folding, emission continues past a Return, and a chunk without Return gets no terminator |
| `StackLowering.IgnoredAreInvisible` | src/codegen/codegen.cc:79-124 | deleting Trap, Breakpoint, PrintLong, PrintChar, Nop, Rot2, Rot3 and unknown opcodes from a chunk does not change its lowering |
| `StackLowering.StepMatchesEvalOne` | src/codegen/codegen.cc:96-115 | one lowering step and one reference-machine step agree on the denoted stack, and both fail on the same stacks |
| `StackLowering.EmitMatchesEval` | src/codegen/codegen.cc:82-115 | on chunks of Nop, Return, ImmByte, Dup, AddLong and MulLong whose immediates are zero, the lowered stack computes what a reference 64-bit stack machine computes, and the lowering is undefined exactly when the machine underflows |
| `StackLowering.AddOfTwoImmediates` | src/codegen/codegen.cc:96-115 | `ImmByte; ImmByte; AddLong; Return` leaves the folded constant 0 on the stack and the block `ret void` |
| `StackLowering.ReturnDoesNotEndEmission` | src/codegen/codegen.cc:82-84 | instructions after a Return are still lowered: a second Return emits a second terminator |
| `StackLowering.ShallowStackIsUndefined` | src/codegen/codegen.cc:96-115 | an add with one operand, or a Dup on an empty stack, has no defined lowering |
| `Codegen.EmitBody` | src/codegen/codegen.cc:72-126 | the loop over the chunk, with its operand stack, produces exactly the entry block the lowering specification gives |
| `Codegen.Codegen.constructor` | src/codegen/codegen.cc:131-135 | a new compiler holds the executable and no functions |
| `Codegen.Codegen.DeclareFunctions` | src/codegen/codegen.cc:46-57 | with functions already declared, nothing changes; otherwise there is afterwards exactly one fresh, empty, externally linked `void ()` function per chunk, all distinct |
| `Codegen.Codegen.DefineFunctions` | src/codegen/codegen.cc:59-69 | with a function count different from the chunk count, no function changes; otherwise function i gains exactly one block, the entry block of chunk i, for every i |
| `Codegen.Codegen.EmitFunction` | src/codegen/codegen.cc:71-129 | the function gains one new block, the entry block of the chunk, and keeps its earlier blocks |
| `Codegen.Codegen.Generate` | src/codegen/codegen.cc:137-140 | from no functions, ends with one function per chunk whose only block is that chunk's entry block; run again, keeps the same functions and appends a second entry block to each; with a count mismatch, changes nothing |
| `AstBuilder.Find` | src/parser/ast_builder_visitor.cc:91 | returns npos exactly when the character is absent, and otherwise the position of its first occurrence |
| `AstBuilder.VisitAnyNumber` | src/parser/ast_builder_visitor.cc:90-94 | a literal lowers to the double form unless its text begins with '.', and keeps its text |
| `AstBuilder.DotlessNumberIsDouble` | src/parser/ast_builder_visitor.cc:90-94 | a literal with no '.' still takes the double branch |
| `AstBuilder.LeadingDotIsLong` | src/parser/ast_builder_visitor.cc:90-94 | only a literal that begins with '.' takes the integer branch |
| `AstBuilder.VisitAnyRvalue` | src/parser/ast_builder_visitor.cc:86-88 | whatever the context, even an absent one, the result casts to the empty r-value node and never to an immediate node |
| `AstBuilder.VisitAnyLvalue` | src/parser/ast_builder_visitor.cc:74-76 | whatever the l-value's text, the result casts to the empty l-value node |
| `AstBuilder.VisitBinaryOperator` | src/parser/ast_builder_visitor.cc:68-72 | always yields an operator tag, and the tag is Mul exactly when the text is "mul"; "add" and every other text yield Add |
| `AstBuilder.VisitAnyArgument` | src/parser/ast_builder_visitor.cc:78-88 | an r-value child yields an r-value argument; a number child without an r-value child always fails its cast; with neither child the result is not an argument |
| `AstBuilder.VisitBinaryOperatorInstruction` | src/parser/ast_builder_visitor.cc:56-76 | succeeds exactly when the second and third operands are r-values; the node then has the keyword's tag, the empty l-value and two r-value sources, whatever the first operand is |
| `AstBuilder.VisitInstruction` | src/parser/ast_builder_visitor.cc:40-45 | a binary-operator instruction yields a non-null instruction node wrapping its binary node, or fails with it; every other form yields the null pointer |
| `AstBuilder.LowerInstructions` | src/parser/ast_builder_visitor.cc:32-38 | a lowered instruction list has one entry per instruction |
| `AstBuilder.VisitInstructions` | src/parser/ast_builder_visitor.cc:32-38 | the accumulation loop yields exactly the list the instruction-list specification gives, or fails when it does |
| `AstBuilder.InstructionsPreserveOrder` | src/parser/ast_builder_visitor.cc:32-45 | the list lowers exactly when every instruction is a binary-operator instruction with r-value sources; entry i is then the binary node of instruction i, tagged by its keyword |
| `AstBuilder.VisitFunctionDefinition` | src/parser/ast_builder_visitor.cc:18-26 | the statement is a function whose id is the token text, whose parameters are empty even when a parameter list is present, and whose body is the lowered instruction list; it fails exactly when the list does |
| `AstBuilder.VisitStatement` | src/parser/ast_builder_visitor.cc:13 | a function-definition statement casts to a statement exactly when its instruction list lowers, and is then a function named by its id token; a type definition yields what its default child traversal yields |
| `AstBuilder.LowerStatements` | src/parser/ast_builder_visitor.cc:10-16 | a lowered statement list has one entry per statement |
| `AstBuilder.VisitProgram` | src/parser/ast_builder_visitor.cc:10-16 | the accumulation loop yields a program node holding exactly the list the statement-list specification gives, or fails when it does |
| `AstBuilder.StatementsPreserveOrder` | src/parser/ast_builder_visitor.cc:10-16 | the program lowers exactly when every statement does; entry i is then the lowering of statement i |
| `AstBuilder.RvalueFunctionLowers` | src/parser/ast_builder_visitor.cc:18-63 | `function f: mul x, y, z` lowers to function f with one multiply over two r-values and no parameters |
| `AstBuilder.NumberFunctionFails` | src/parser/ast_builder_visitor.cc:78-84 | `function f: mul x, 2, 3` fails with a type mismatch |

## Left out

- `Codegen::writeObject` and `codegen::Generate` (src/codegen/codegen.cc:142-192): target lookup, target machine, data layout, file output and the emission pass are I/O and calls into LLVM.
- `verifyFunction` (src/codegen/codegen.cc:128): its result is discarded, so it changes nothing the model tracks. The model does not state LLVM's well-formedness rules. `StackLowering.EntryBlockIsReturns` shows where they would fail: a block with no Return or with several.
- The LLVM context, module and builder (src/codegen/codegen.cc:131-135). A block is a list of instructions, and the builder's insertion point is not modelled. `Codegen.Codegen.EmitFunction` builds the block and then attaches it to the function. The source attaches the block first and then fills it; the final state is the same.
- Function names: `"fn" + i` is pointer arithmetic on a string literal, and it is undefined behaviour from index 3 on. Functions are identified by their position in `functions`.
- `Codegen.Codegen.DefineFunctions`: the ascending order of emission is not stated, because each chunk writes to a different function and the final state does not depend on the order.
- The chunk's `Address` and each instruction's operand bytes are carried through unread, as in the source.
- `Codegen.EmitBody` and the methods that call it require a chunk whose lowering is defined. The source has undefined behaviour there, so no result is modelled.
- `std::stod` and `std::stol` (src/parser/ast_builder_visitor.cc:92-93): the parsed number and the exceptions these calls throw on malformed text are not modelled. An immediate node carries the literal's text.
- ANTLR internals. `visitStatement` and the call `visitChildren` inside `visitInstruction` use the library's default traversal. This model assumes that a statement and an instruction each have exactly one child, and that the traversal returns that child's result. The grammar file is not part of this model.
- `visitType_definition` (src/parser/ast_builder_visitor.cc:28-30) returns the default traversal of its children. The model does not compute that result: it is a field of the type-definition node (`childrenResult`).
- `shared_ptr` ownership: the trees are acyclic and exclusively owned, so they are plain datatypes. An instruction pointer made by `make_shared` is never null.
- `AstBuilder.VisitAnyNumber`: the integer branch is taken only for text that begins with '.', and `std::stol` throws `std::invalid_argument` on every such text, so the source never actually produces the integer immediate the model returns there; the model stops at the branch choice.
