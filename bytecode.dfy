/** The bytecode program handed to the native compiler: one chunk per
    function, each paired with an opaque address. */
module Bytecode {

  /** The opcodes the native compiler dispatches on. `Unknown` stands for
      every opcode value outside the named set, which the compiler accepts
      and ignores. */
  datatype Opcode =
    | Trap
    | Return
    | Breakpoint
    | PrintLong
    | PrintChar
    | Nop
    | AddLong
    | MulLong
    | ImmByte
    | Dup
    | Rot2
    | Rot3
    | Unknown(code: nat)

  /** One bytecode instruction: its opcode and its inline operand bytes.
      The native compiler never reads the operand bytes. */
  datatype Instruction = Instruction(opcode: Opcode, operand: seq<bv8>)

  datatype BytecodeChunk = BytecodeChunk(code: seq<Instruction>)

  /** A link- or load-time location marker, carried through unread. */
  datatype Address = Address(location: nat)

  datatype BytecodeExecutable = BytecodeExecutable(chunks: seq<(BytecodeChunk, Address)>)

  /** The opcodes whose native lowering is empty: no stack change and no
      emitted instruction. */
  predicate IsIgnored(op: Opcode)
  {
    !(op.Return? || op.AddLong? || op.MulLong? || op.ImmByte? || op.Dup?)
  }
}
