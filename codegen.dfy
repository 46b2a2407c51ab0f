/** The native compiler: declares one function per bytecode chunk, then
    lowers each chunk into its function's entry block through a compile-time
    operand stack. The IR context, module and builder are abstracted: a
    function is the list of blocks emitted into it. */
module Codegen {
  import opened Bytecode
  import opened NativeIR
  import opened StackLowering

  /** Removes the two topmost stack entries and returns them, the one below
      the top first. */
  method PopTwo(stack: seq<Value>) returns (a: Value, b: Value, rest: seq<Value>)
    requires |stack| >= 2
    ensures rest + [a, b] == stack
  {
    var n := |stack|;
    a := stack[n - 2];
    b := stack[n - 1];
    rest := stack[..n - 2];
  }

  /** Walks a chunk once, keeping the operand stack and appending to the
      entry block as each opcode dictates. */
  method EmitBody(chunk: BytecodeChunk) returns (block: seq<Inst>)
    requires Lowerable(chunk)
    ensures block == EntryBlock(chunk)
  {
    var code := chunk.code;
    var stack: seq<Value> := [];
    block := [];
    assert code[..0] == [];
    for i := 0 to |code|
      invariant Emit(code[..i], Start) == Lowered(Frame(stack, block))
    {
      assert code == code[..i] + code[i..];
      EmitAppend(code[..i], code[i..], Start);
      assert Defined(code[i].opcode, |stack|);
      EmitSnoc(code, i, Start, Frame(stack, block));
      match code[i].opcode {
        case Return =>
          block := block + [RetVoid];
        case AddLong =>
          var a, b, rest := PopTwo(stack);
          var (v, emitted) := CreateAdd(a, b);
          block := block + emitted;
          stack := rest + [v];
        case MulLong =>
          var a, b, rest := PopTwo(stack);
          var (v, emitted) := CreateMul(a, b);
          block := block + emitted;
          stack := rest + [v];
        case ImmByte =>
          stack := stack + [ConstI64(0)];
        case Dup =>
          stack := stack + [stack[|stack| - 1]];
        case _ =>
      }
    }
    assert code[..|code|] == code;
  }

  class Codegen {
    const bytecode: BytecodeExecutable
    var functions: seq<Function>

    /** Distinct positions hold distinct functions. */
    ghost predicate Valid()
      reads this
    {
      forall i, j :: 0 <= i < j < |functions| ==> functions[i] != functions[j]
    }

    /** Every chunk lowers without an undefined stack access. */
    predicate ChunksLowerable()
    {
      forall i :: 0 <= i < |bytecode.chunks| ==> Lowerable(bytecode.chunks[i].0)
    }

    constructor (bytecode: BytecodeExecutable)
      ensures Valid()
      ensures this.bytecode == bytecode && functions == []
    {
      this.bytecode := bytecode;
      functions := [];
    }

    /** Creates one `void ()` function per chunk, unless functions were
        already declared. */
    method DeclareFunctions()
      requires Valid()
      modifies this
      ensures Valid()
      ensures old(functions) != [] ==> functions == old(functions)
      ensures old(functions) == [] ==>
        |functions| == |bytecode.chunks| &&
        forall i :: 0 <= i < |functions| ==>
          fresh(functions[i]) && functions[i].ty == VoidNoArgs &&
          functions[i].linkage == ExternalLinkage && functions[i].blocks == []
    {
      if |functions| > 0 {
        return;
      }
      for i := 0 to |bytecode.chunks|
        invariant Valid()
        invariant |functions| == i
        invariant forall k :: 0 <= k < i ==>
          fresh(functions[k]) && functions[k].ty == VoidNoArgs &&
          functions[k].linkage == ExternalLinkage && functions[k].blocks == []
      {
        var f := new Function(VoidNoArgs, ExternalLinkage);
        functions := functions + [f];
      }
    }

    /** Emits chunk `i` into function `i` for every `i`, provided there is
        exactly one function per chunk; otherwise does nothing. */
    method DefineFunctions()
      requires Valid()
      requires |functions| == |bytecode.chunks| ==> ChunksLowerable()
      modifies functions
      ensures |functions| != |bytecode.chunks| ==>
        forall i :: 0 <= i < |functions| ==> functions[i].blocks == old(functions[i].blocks)
      ensures |functions| == |bytecode.chunks| ==>
        forall i :: 0 <= i < |functions| ==>
          functions[i].blocks == old(functions[i].blocks) + [EntryBlock(bytecode.chunks[i].0)]
    {
      if |bytecode.chunks| != |functions| {
        return;
      }
      for i := 0 to |bytecode.chunks|
        invariant forall k :: 0 <= k < i ==>
          functions[k].blocks == old(functions[k].blocks) + [EntryBlock(bytecode.chunks[k].0)]
        invariant forall k :: i <= k < |functions| ==> functions[k].blocks == old(functions[k].blocks)
      {
        var (chunk, address) := bytecode.chunks[i];
        EmitFunction(functions[i], chunk, address);
      }
    }

    /** Creates the entry block of `f` and fills it from `chunk`. */
    method EmitFunction(f: Function, chunk: BytecodeChunk, address: Address)
      requires Lowerable(chunk)
      modifies f
      ensures f.blocks == old(f.blocks) + [EntryBlock(chunk)]
    {
      var block := EmitBody(chunk);
      f.blocks := f.blocks + [block];
    }

    /** Declaration followed by definition. */
    method Generate()
      requires Valid()
      requires functions == [] || |functions| == |bytecode.chunks| ==> ChunksLowerable()
      modifies this, functions
      ensures Valid()
      ensures old(functions) == [] ==>
        |functions| == |bytecode.chunks| &&
        forall i :: 0 <= i < |functions| ==>
          fresh(functions[i]) && functions[i].ty == VoidNoArgs &&
          functions[i].blocks == [EntryBlock(bytecode.chunks[i].0)]
      ensures old(functions) != [] ==> functions == old(functions)
      ensures old(functions) != [] && |functions| == |bytecode.chunks| ==>
        forall i :: 0 <= i < |functions| ==>
          functions[i].blocks == old(functions[i].blocks) + [EntryBlock(bytecode.chunks[i].0)]
      ensures old(functions) != [] && |functions| != |bytecode.chunks| ==>
        forall i :: 0 <= i < |functions| ==> functions[i].blocks == old(functions[i].blocks)
    {
      DeclareFunctions();
      DefineFunctions();
    }
  }
}
