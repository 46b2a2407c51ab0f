/** The specification of how one bytecode chunk is lowered: a compile-time
    operand stack of IR values and the instruction list of the entry block,
    advanced one opcode at a time. */
module StackLowering {
  import opened Bytecode
  import opened NativeIR
  import opened Wrappers

  /** The lowering state after a prefix of a chunk. */
  datatype Frame = Frame(stack: seq<Value>, block: seq<Inst>)

  /** `Undefined` marks a chunk that pops from a stack too shallow for the
      opcode, which has no defined behaviour in the compiler. */
  datatype Outcome = Lowered(frame: Frame) | Undefined

  const Start: Frame := Frame([], [])

  // The documented stack effect of each opcode the compiler implements;
  // every other opcode is lowered to nothing.

  function Pops(op: Opcode): nat
  {
    if op.AddLong? || op.MulLong? then 2 else 0
  }

  function Pushes(op: Opcode): nat
  {
    if op.AddLong? || op.MulLong? || op.ImmByte? || op.Dup? then 1 else 0
  }

  /** The stack depth the lowering of `op` reads from. */
  function Needs(op: Opcode): nat
  {
    if op.AddLong? || op.MulLong? then 2 else if op.Dup? then 1 else 0
  }

  predicate Defined(op: Opcode, depth: nat)
  {
    depth >= Needs(op)
  }

  /** Lowering one opcode. Add and multiply take the entry below the top as
      their first operand and the top as their second, and go through the
      builder, which folds two constant operands. */
  function Step(fr: Frame, op: Opcode): (r: Frame)
    requires Defined(op, |fr.stack|)
    ensures |r.stack| == |fr.stack| - Pops(op) + Pushes(op)
    ensures r.stack[..|fr.stack| - Pops(op)] == fr.stack[..|fr.stack| - Pops(op)]
    ensures op.AddLong? ==> var n := |fr.stack|;
      Denote(r.stack[n - 2]) == (Denote(fr.stack[n - 2]) + Denote(fr.stack[n - 1])) % Word
    ensures op.MulLong? ==> var n := |fr.stack|;
      Denote(r.stack[n - 2]) == Denote(fr.stack[n - 2]) * Denote(fr.stack[n - 1]) % Word
    ensures op.AddLong? || op.MulLong? ==> var n := |fr.stack|;
      fr.stack[n - 2].ConstI64? && fr.stack[n - 1].ConstI64? ==> r.stack[n - 2].ConstI64? && r.block == fr.block
    ensures op.AddLong? ==> var n := |fr.stack|; var a, b := fr.stack[n - 2], fr.stack[n - 1];
      !(a.ConstI64? && b.ConstI64?) ==> r.stack[n - 2] == AddOf(a, b) && r.block == fr.block + [Add(a, b)]
    ensures op.MulLong? ==> var n := |fr.stack|; var a, b := fr.stack[n - 2], fr.stack[n - 1];
      !(a.ConstI64? && b.ConstI64?) ==> r.stack[n - 2] == MulOf(a, b) && r.block == fr.block + [Mul(a, b)]
    ensures op.ImmByte? ==> r.stack[|fr.stack|] == ConstI64(0) && r.block == fr.block
    ensures op.Dup? ==> r.stack[|fr.stack|] == fr.stack[|fr.stack| - 1] && r.block == fr.block
    ensures op.Return? ==> r.stack == fr.stack && r.block == fr.block + [RetVoid]
    ensures IsIgnored(op) ==> r == fr
  {
    var n := |fr.stack|;
    match op
    case Return => fr.(block := fr.block + [RetVoid])
    case AddLong =>
      FoldMeaning(fr.stack[n - 2], fr.stack[n - 1]);
      var (v, emitted) := CreateAdd(fr.stack[n - 2], fr.stack[n - 1]);
      Frame(fr.stack[..n - 2] + [v], fr.block + emitted)
    case MulLong =>
      FoldMeaning(fr.stack[n - 2], fr.stack[n - 1]);
      var (v, emitted) := CreateMul(fr.stack[n - 2], fr.stack[n - 1]);
      Frame(fr.stack[..n - 2] + [v], fr.block + emitted)
    case ImmByte => fr.(stack := fr.stack + [ConstI64(0)])
    case Dup => fr.(stack := fr.stack + [fr.stack[n - 1]])
    case _ => fr
  }

  /** The net change in stack depth over a run of instructions. */
  function Net(code: seq<Instruction>): int
  {
    if code == [] then 0 else Pushes(code[0].opcode) - Pops(code[0].opcode) + Net(code[1..])
  }

  /** Lowering a run of instructions in order, starting from `fr`. Every
      instruction is processed, including those after a `Return`. */
  function Emit(code: seq<Instruction>, fr: Frame): (r: Outcome)
    ensures r.Lowered? ==> |r.frame.stack| == |fr.stack| + Net(code)
    ensures r.Lowered? ==> fr.block <= r.frame.block
    decreases |code|
  {
    if code == [] then Lowered(fr)
    else if !Defined(code[0].opcode, |fr.stack|) then Undefined
    else Emit(code[1..], Step(fr, code[0].opcode))
  }

  /** A chunk whose lowering has defined behaviour. */
  predicate Lowerable(chunk: BytecodeChunk)
  {
    Emit(chunk.code, Start).Lowered?
  }

  /** The entry block the compiler builds for a chunk. */
  function EntryBlock(chunk: BytecodeChunk): seq<Inst>
    requires Lowerable(chunk)
  {
    Emit(chunk.code, Start).frame.block
  }

  /** Lowering a concatenation is lowering the first part, then the second
      from where the first left off. */
  lemma {:induction false} EmitAppend(a: seq<Instruction>, b: seq<Instruction>, fr: Frame)
    ensures Emit(a + b, fr) ==
      match Emit(a, fr)
      case Undefined => Undefined
      case Lowered(g) => Emit(b, g)
    decreases |a|
  {
    if a == [] {
      assert a + b == b;
    } else {
      assert (a + b)[0] == a[0];
      assert (a + b)[1..] == a[1..] + b;
      if Defined(a[0].opcode, |fr.stack|) {
        EmitAppend(a[1..], b, Step(fr, a[0].opcode));
      }
    }
  }

  /** Extending a lowered prefix by one instruction is one `Step`. */
  lemma EmitSnoc(code: seq<Instruction>, i: nat, fr: Frame, g: Frame)
    requires i < |code| && Emit(code[..i], fr) == Lowered(g)
    ensures Emit(code[..i + 1], fr) ==
      if Defined(code[i].opcode, |g.stack|) then Lowered(Step(g, code[i].opcode)) else Undefined
  {
    assert code[..i + 1] == code[..i] + [code[i]];
    EmitAppend(code[..i], [code[i]], fr);
    assert [code[i]][1..] == [];
  }

  /** A chunk's lowering is undefined exactly when some opcode finds fewer
      entries on the stack than it reads, the depth before instruction `i`
      being the starting depth plus the net effect of the instructions
      before it. */
  lemma {:induction false} UndefinedIff(code: seq<Instruction>, fr: Frame)
    ensures Emit(code, fr).Undefined? <==>
      exists i :: 0 <= i < |code| && |fr.stack| + Net(code[..i]) < Needs(code[i].opcode)
    decreases |code|
  {
    if code != [] {
      var op := code[0].opcode;
      assert code[..0] == [];
      if Defined(op, |fr.stack|) {
        var g := Step(fr, op);
        UndefinedIff(code[1..], g);
        forall i | 1 <= i <= |code|
          ensures Net(code[..i]) == Pushes(op) - Pops(op) + Net(code[1..][..i - 1])
        {
          assert code[..i][1..] == code[1..][..i - 1];
        }
        if Emit(code, fr).Undefined? {
          var j :| 0 <= j < |code| - 1 && |g.stack| + Net(code[1..][..j]) < Needs(code[1..][j].opcode);
          assert |fr.stack| + Net(code[..j + 1]) < Needs(code[j + 1].opcode);
        }
        if exists i :: 0 <= i < |code| && |fr.stack| + Net(code[..i]) < Needs(code[i].opcode) {
          var i :| 0 <= i < |code| && |fr.stack| + Net(code[..i]) < Needs(code[i].opcode);
          assert i != 0;
          assert |g.stack| + Net(code[1..][..i - 1]) < Needs(code[1..][i - 1].opcode);
        }
      }
    }
  }

  /** The number of `Return` opcodes in a run of instructions. */
  function ReturnCount(code: seq<Instruction>): nat
  {
    if code == [] then 0 else (if code[0].opcode.Return? then 1 else 0) + ReturnCount(code[1..])
  }

  predicate AllConstant(s: seq<Value>)
  {
    forall k :: 0 <= k < |s| ==> s[k].ConstI64?
  }

  function Returns(n: nat): seq<Inst>
  {
    seq(n, _ => RetVoid)
  }

  /** From a stack of constants, every value the lowering produces is a
      constant, since zero is the only immediate and the builder folds every
      add and multiply of constants. The block then gains one void return
      per `Return` opcode and nothing else. */
  lemma {:induction false} ConstantsFold(code: seq<Instruction>, fr: Frame)
    requires AllConstant(fr.stack) && Emit(code, fr).Lowered?
    ensures AllConstant(Emit(code, fr).frame.stack)
    ensures Emit(code, fr).frame.block == fr.block + Returns(ReturnCount(code))
    decreases |code|
  {
    if code == [] {
      assert Returns(0) == [];
    } else {
      var op := code[0].opcode;
      var g := Step(fr, op);
      var n := |fr.stack|;
      if op.AddLong? || op.MulLong? {
        assert fr.stack[n - 2].ConstI64? && fr.stack[n - 1].ConstI64?;
      }
      assert AllConstant(g.stack) by {
        forall k | 0 <= k < |g.stack| ensures g.stack[k].ConstI64? {
          if k < n - Pops(op) {
            assert g.stack[k] == g.stack[..n - Pops(op)][k];
          }
        }
      }
      ConstantsFold(code[1..], g);
      var m := ReturnCount(code[1..]);
      if op.Return? {
        assert [RetVoid] + Returns(m) == Returns(m + 1);
        assert fr.block + [RetVoid] + Returns(m) == fr.block + ([RetVoid] + Returns(m));
      }
    }
  }

  /** The entry block of every chunk is one void return per `Return` opcode:
      no arithmetic instruction survives folding, a chunk without `Return`
      gets a block with no terminator, and one with several `Return`s gets
      several terminators. */
  lemma EntryBlockIsReturns(chunk: BytecodeChunk)
    requires Lowerable(chunk)
    ensures EntryBlock(chunk) == Returns(ReturnCount(chunk.code))
  {
    ConstantsFold(chunk.code, Start);
    assert Start.block + Returns(ReturnCount(chunk.code)) == Returns(ReturnCount(chunk.code));
  }

  /** The chunk with every ignored opcode removed. */
  function WithoutIgnored(code: seq<Instruction>): (r: seq<Instruction>)
    ensures forall k :: 0 <= k < |r| ==> !IsIgnored(r[k].opcode)
    ensures |r| <= |code|
  {
    if code == [] then []
    else if IsIgnored(code[0].opcode) then WithoutIgnored(code[1..])
    else [code[0]] + WithoutIgnored(code[1..])
  }

  /** Opcodes the compiler ignores (the debugging, printing and rotation
      opcodes, `Trap`, `Nop` and unknown opcodes) may be deleted from a chunk
      without changing its lowering. */
  lemma {:induction false} IgnoredAreInvisible(code: seq<Instruction>, fr: Frame)
    ensures Emit(code, fr) == Emit(WithoutIgnored(code), fr)
    decreases |code|
  {
    if code != [] {
      var op := code[0].opcode;
      if IsIgnored(op) {
        IgnoredAreInvisible(code[1..], fr);
      } else {
        var w := [code[0]] + WithoutIgnored(code[1..]);
        assert w[0] == code[0] && w[1..] == WithoutIgnored(code[1..]);
        if Defined(op, |fr.stack|) {
          IgnoredAreInvisible(code[1..], Step(fr, op));
        }
      }
    }
  }

  // A reference stack machine over 64-bit words, for the opcodes the
  // compiler implements, and the meaning of symbolic IR values.

  /** The 64-bit value an IR value computes; integer add and multiply wrap. */
  function Denote(v: Value): (r: int)
    ensures 0 <= r < Word
  {
    match v
    case ConstI64(c) => c % Word
    case AddOf(a, b) => (Denote(a) + Denote(b)) % Word
    case MulOf(a, b) => (Denote(a) * Denote(b)) % Word
  }

  /** Folding preserves meaning: the folded constant denotes the wrapped
      sum or product of what the operands denote. */
  lemma FoldMeaning(a: Value, b: Value)
    ensures Denote(CreateAdd(a, b).0) == (Denote(a) + Denote(b)) % Word
    ensures Denote(CreateMul(a, b).0) == Denote(a) * Denote(b) % Word
  {
    if a.ConstI64? && b.ConstI64? {
      var x, y := (a.v % Word + b.v % Word) % Word, (a.v % Word) * (b.v % Word) % Word;
      assert 0 <= x < Word && 0 <= y < Word;
      assert Denote(ConstI64(x)) == x;
      assert Denote(ConstI64(y)) == y;
    }
  }

  function DenoteAll(s: seq<Value>): (r: seq<int>)
    ensures |r| == |s|
  {
    seq(|s|, i requires 0 <= i < |s| => Denote(s[i]))
  }

  /** The opcodes the reference machine runs. */
  predicate InMachineSubset(op: Opcode)
  {
    op.Nop? || op.Return? || op.ImmByte? || op.Dup? || op.AddLong? || op.MulLong?
  }

  /** Runs a chunk on a stack of words. `imm` decodes an `ImmByte`
      instruction's immediate. `Return` leaves the stack as it is. `None` is a stack underflow or an opcode
      outside the machine's subset. */
  function Eval(code: seq<Instruction>, stack: seq<int>, imm: Instruction -> int): Option<seq<int>>
    decreases |code|
  {
    if code == [] then Some(stack)
    else
      match EvalOne(code[0], stack, imm)
      case None => None
      case Some(next) => Eval(code[1..], next, imm)
  }

  /** One instruction of the reference machine. */
  function EvalOne(ins: Instruction, stack: seq<int>, imm: Instruction -> int): Option<seq<int>>
  {
    var n := |stack|;
    match ins.opcode
    case Nop => Some(stack)
    case Return => Some(stack)
    case ImmByte => Some(stack + [imm(ins) % Word])
    case Dup => if n < 1 then None else Some(stack + [stack[n - 1]])
    case AddLong => if n < 2 then None else Some(stack[..n - 2] + [(stack[n - 2] + stack[n - 1]) % Word])
    case MulLong => if n < 2 then None else Some(stack[..n - 2] + [stack[n - 2] * stack[n - 1] % Word])
    case _ => None
  }

  /** One lowering step and one machine step agree on the denoted stack. */
  lemma StepMatchesEvalOne(fr: Frame, ins: Instruction, imm: Instruction -> int)
    requires InMachineSubset(ins.opcode)
    requires ins.opcode.ImmByte? ==> imm(ins) == 0
    ensures EvalOne(ins, DenoteAll(fr.stack), imm) ==
      if Defined(ins.opcode, |fr.stack|) then Some(DenoteAll(Step(fr, ins.opcode).stack)) else None
  {
    var op, s, n := ins.opcode, fr.stack, |fr.stack|;
    if Defined(op, n) {
      var g := Step(fr, op);
      if op.AddLong? || op.MulLong? {
        assert DenoteAll(g.stack) == DenoteAll(s)[..n - 2] + [Denote(g.stack[n - 2])];
      } else if op.ImmByte? || op.Dup? {
        assert DenoteAll(g.stack) == DenoteAll(s) + [Denote(g.stack[n])];
      }
    }
  }

  /** On chunks within the reference machine's subset whose immediates are
      all zero (the only constant the compiler materialises), the lowered
      stack computes what the reference machine computes, and the lowering is
      undefined exactly when the machine underflows. */
  lemma {:induction false} EmitMatchesEval(code: seq<Instruction>, fr: Frame, imm: Instruction -> int)
    requires forall k :: 0 <= k < |code| ==> InMachineSubset(code[k].opcode)
    requires forall k :: 0 <= k < |code| && code[k].opcode.ImmByte? ==> imm(code[k]) == 0
    ensures Eval(code, DenoteAll(fr.stack), imm) ==
      match Emit(code, fr)
      case Undefined => None
      case Lowered(g) => Some(DenoteAll(g.stack))
    decreases |code|
  {
    if code != [] {
      StepMatchesEvalOne(fr, code[0], imm);
      if Defined(code[0].opcode, |fr.stack|) {
        EmitMatchesEval(code[1..], Step(fr, code[0].opcode), imm);
      }
    }
  }

  // Concrete chunks.

  function Op(op: Opcode): Instruction
  {
    Instruction(op, [])
  }

  /** `ImmByte; ImmByte; AddLong; Return` lowers to a block holding only a
      void return: the add of the two zero constants is folded to the
      constant 0. */
  lemma AddOfTwoImmediates()
    ensures Emit([Op(ImmByte), Op(ImmByte), Op(AddLong), Op(Return)], Start)
         == Lowered(Frame([ConstI64(0)], [RetVoid]))
  {
  }

  /** A `Return` does not end emission: a second `Return` after it emits a
      second terminator. */
  lemma ReturnDoesNotEndEmission()
    ensures Lowerable(BytecodeChunk([Op(Return), Op(ImmByte), Op(Dup), Op(MulLong), Op(Return)]))
    ensures EntryBlock(BytecodeChunk([Op(Return), Op(ImmByte), Op(Dup), Op(MulLong), Op(Return)]))
         == [RetVoid, RetVoid]
  {
  }

  /** An add with one operand on the stack, or a duplicate of an empty
      stack, has no defined lowering. */
  lemma ShallowStackIsUndefined()
    ensures !Lowerable(BytecodeChunk([Op(ImmByte), Op(AddLong)]))
    ensures !Lowerable(BytecodeChunk([Op(Dup)]))
  {
  }
}
