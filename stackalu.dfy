// The toolkit assembler's stack ALU macro (toolkit/src/asm/stack/alu.rs):
// the operands come off the stack, one ALU instruction combines them in R2,
// and the result goes back on the stack. A binary operation pops its right
// operand into R3 first; an operation whose second source is fixed uses that
// register instead and pops only one value.
module StackAlu {
  import opened Base
  import opened Cpu
  import opened ToolkitErrors
  import opened Words
  import opened Semantics
  import StackBase
  import StackMem

  /** `StackAluInstruction`: the operation and its `x`, `y`, `o` flags. */
  datatype StackAluInstruction = StackAluInstruction(op: AluOperation, nx: bool, ny: bool, no: bool)

  /** `set_flags_from_str`: each flag is whether its letter occurs. */
  function FlagsFromStr(ins: StackAluInstruction, s: string): (r: StackAluInstruction)
    ensures r.op == ins.op
    ensures (r.nx <==> 'X' in s) && (r.ny <==> 'Y' in s) && (r.no <==> 'O' in s)
  {
    ins.(nx := Contains(s, 'X'), ny := Contains(s, 'Y'), no := Contains(s, 'O'))
  }

  /** The mutable builder `StackAluInstruction`. */
  class StackAluBuilder {
    var op: AluOperation
    var nx: bool
    var ny: bool
    var no: bool

    function Value(): StackAluInstruction
      reads this
    {
      StackAluInstruction(op, nx, ny, no)
    }

    /** `new`: all three flags cleared. */
    constructor (o: AluOperation)
      ensures Value() == StackAluInstruction(o, false, false, false)
    {
      op, nx, ny, no := o, false, false, false;
    }

    /** `set_flags`: overwrites the three flags, nothing else. */
    method SetFlags(x: bool, y: bool, o: bool)
      modifies this
      ensures Value() == old(Value()).(nx := x, ny := y, no := o)
    {
      nx, ny, no := x, y, o;
    }

    /** `set_flags_from_str`. */
    method SetFlagsFromStr(s: string)
      modifies this
      ensures Value() == FlagsFromStr(old(Value()), s)
    {
      SetFlags(Contains(s, 'X'), Contains(s, 'Y'), Contains(s, 'O'));
    }
  }

  /** `parse_asm`: a fresh instruction whose flags are the letters of `flags`. */
  method ParseAsm(op: AluOperation, flags: string) returns (r: StackAluBuilder)
    ensures fresh(r)
    ensures r.Value() == StackAluInstruction(op, 'X' in flags, 'Y' in flags, 'O' in flags)
  {
    r := new StackAluBuilder(op);
    r.SetFlagsFromStr(flags);
  }

  // --- Compilation ---------------------------------------------------------

  /** The second source: R3, popped first, when the operation has no fixed
      second register (`second` stands for `get_second_reg(R2)`, whose table
      is not part of this model). */
  function SecondReg(second: Option<Register>): Register {
    if second.None? then R3 else second.value
  }

  /** The words of the expansion, written out. */
  function Emitted(ins: StackAluInstruction, second: Option<Register>): seq<Word> {
    (if second.None? then StackBase.PopWords(R3) else [])
    + StackBase.PopWords(R2)
    + [AluWord(ins.op, Flags(ins.nx, ins.ny, ins.no), R2, R2, SecondReg(second))]
    + StackBase.PushWords(R2)
  }

  /** `compile`: every sub-instruction compiles, so the expansion always
      succeeds: an optional `POP R3`, then `POP R2`, the ALU word
      `op R2, R2, second` with the flags, and `PUSH R2`. */
  function Compile(ins: StackAluInstruction, second: Option<Register>): (r: Result<seq<Word>, CompileError>)
    ensures r.Ok? && r.value == Emitted(ins, second)
    ensures |r.value| == if second.None? then 7 else 5
    ensures second.None? <==> r.value[..2] == StackBase.PopWords(R3)
    ensures r.value[|r.value| - 2..] == StackBase.PushWords(R2)
    ensures r.value[|r.value| - 3] == AluWord(ins.op, Flags(ins.nx, ins.ny, ins.no), R2, R2, SecondReg(second))
  {
    var w := Emitted(ins, second);
    assert w[|w| - 2..] == StackBase.PushWords(R2);
    assert second.Some? ==> w[0] == Mem(MemOperation.LOAD, R2, SP, -1);
    Ok(w)
  }

  // --- What the words do ----------------------------------------------------

  /** A binary operation without flags replaces the two top cells by one:
      the second value combined with the top one (`a - b` for SUB, where `b`
      was on top). */
  lemma BinaryMeaning(op: AluOperation, image: Image, s: State)
    requires op != AluOperation.AND && Valid(s)
    requires Holds(image, Emitted(StackAluInstruction(op, false, false, false), None), s.pc)
    requires s.pc as int + 7 < 0x1_0000
    ensures var t := Steps(image, s, 7);
      var v := AluValue(op, StackMem.Second(image, s), StackMem.Top(image, s)).value;
      t.Some? && t.value.pc as int == s.pc as int + 7
      && t.value.mem == s.mem[WrapSub(Get(s, SP), 2) := v]
      && Get(t.value, SP) == WrapSub(Get(s, SP), 1)
      && Keeps(s, t.value, {SP, R2, R3})
  {
    var pops := StackBase.PopWords(R3) + StackBase.PopWords(R2);
    var rest := [Alu(op, R2, R2, R3)] + StackBase.PushWords(R2);
    assert Emitted(StackAluInstruction(op, false, false, false), None) == pops + rest;
    Split(image, pops, rest, s.pc);
    StackMem.PopBoth(image, s);
    var t := Steps(image, s, 4);
    assert t.Some? && t.value.pc == At(s.pc, 4);
    assert Holds(image, rest, t.value.pc);
    BinaryAfter(op, image, s);
  }

  /** The ALU word and push of a binary operation, once both pops have run. */
  lemma BinaryAfter(op: AluOperation, image: Image, s: State)
    requires op != AluOperation.AND
    requires Valid(s) && s.pc as int + 7 < 0x1_0000
    requires var t := Steps(image, s, 4);
      t.Some? && t.value.pc as int == s.pc as int + 4 && t.value.mem == s.mem
      && Get(t.value, SP) == WrapSub(Get(s, SP), 2)
      && Get(t.value, R3) == StackMem.Top(image, s) && Get(t.value, R2) == StackMem.Second(image, s)
      && Keeps(s, t.value, {SP, R2, R3})
    requires Holds(image, [Alu(op, R2, R2, R3)] + StackBase.PushWords(R2), Steps(image, s, 4).value.pc)
    ensures var t := Steps(image, s, 7);
      var v := AluValue(op, StackMem.Second(image, s), StackMem.Top(image, s)).value;
      t.Some? && t.value.pc as int == s.pc as int + 7
      && t.value.mem == s.mem[WrapSub(Get(s, SP), 2) := v]
      && Get(t.value, SP) == WrapSub(Get(s, SP), 1)
      && Keeps(s, t.value, {SP, R2, R3})
  {
    var t := Steps(image, s, 4).value;
    OpPush(op, R3, image, t);
    StepsAdd(image, s, 4, 3);
    StackMem.DownTwice(Get(s, SP));
  }

  /** `op R2, R2, b; PUSH R2` pushes R2 combined with `b`. */
  lemma OpPush(op: AluOperation, b: Register, image: Image, t: State)
    requires op != AluOperation.AND
    requires Valid(t) && t.pc as int + 3 < 0x1_0000
    requires Holds(image, [Alu(op, R2, R2, b)] + StackBase.PushWords(R2), t.pc)
    ensures var u := Steps(image, t, 3);
      var v := AluValue(op, Get(t, R2), Get(t, b)).value;
      u.Some? && u.value.pc as int == t.pc as int + 3
      && u.value.mem == t.mem[Get(t, SP) := v]
      && Get(u.value, SP) == WrapAdd(Get(t, SP), 1)
      && Keeps(t, u.value, {R2, SP})
  {
    Split(image, [Alu(op, R2, R2, b)], StackBase.PushWords(R2), t.pc);
    HoldsAt(image, [Alu(op, R2, R2, b)], t.pc, 0);
    AluStep(image, t, op, R2, R2, b);
    var t1 := WriteBack(t, R2, AluValue(op, Get(t, R2), Get(t, b)).value);
    StackBase.PushMeaning(R2, image, t1);
    StepsAdd(image, t, 1, 2);
  }

  /** An operation with a fixed second register `b` (neither R2 nor SP nor
      PC) and no flags replaces the top cell by it combined with `b`; SP ends
      where it started. */
  lemma UnaryMeaning(op: AluOperation, b: Register, image: Image, s: State)
    requires op != AluOperation.AND && b != R2 && b != SP && b != PC && Valid(s)
    requires Holds(image, Emitted(StackAluInstruction(op, false, false, false), Some(b)), s.pc)
    requires s.pc as int + 5 < 0x1_0000
    ensures var t := Steps(image, s, 5);
      var v := AluValue(op, StackMem.Top(image, s), Get(s, b)).value;
      t.Some? && t.value.pc as int == s.pc as int + 5
      && t.value.mem == s.mem[WrapSub(Get(s, SP), 1) := v]
      && Get(t.value, SP) == Get(s, SP)
      && Keeps(s, t.value, {SP, R2})
  {
    var rest := [Alu(op, R2, R2, b)] + StackBase.PushWords(R2);
    assert Emitted(StackAluInstruction(op, false, false, false), Some(b)) == StackBase.PopWords(R2) + rest;
    Split(image, StackBase.PopWords(R2), rest, s.pc);
    StackBase.PopMeaning(R2, image, s);
    var t := Steps(image, s, 2);
    assert t.Some? && t.value.pc == At(s.pc, 2);
    assert Holds(image, rest, t.value.pc);
    UnaryAfter(op, b, image, s);
  }

  /** The ALU word and push of `UnaryMeaning`, once `POP R2` has run. */
  lemma UnaryAfter(op: AluOperation, b: Register, image: Image, s: State)
    requires op != AluOperation.AND && b != R2 && b != SP && b != PC
    requires Valid(s) && s.pc as int + 5 < 0x1_0000
    requires var t := Steps(image, s, 2);
      t.Some? && t.value.pc as int == s.pc as int + 2 && t.value.mem == s.mem
      && Get(t.value, SP) == WrapSub(Get(s, SP), 1)
      && Get(t.value, R2) == StackMem.Top(image, s)
      && Keeps(s, t.value, {SP, R2})
    requires Holds(image, [Alu(op, R2, R2, b)] + StackBase.PushWords(R2), Steps(image, s, 2).value.pc)
    ensures var t := Steps(image, s, 5);
      var v := AluValue(op, StackMem.Top(image, s), Get(s, b)).value;
      t.Some? && t.value.pc as int == s.pc as int + 5
      && t.value.mem == s.mem[WrapSub(Get(s, SP), 1) := v]
      && Get(t.value, SP) == Get(s, SP)
      && Keeps(s, t.value, {SP, R2})
  {
    var t := Steps(image, s, 2).value;
    OpPush(op, b, image, t);
    StepsAdd(image, s, 2, 3);
  }
}
