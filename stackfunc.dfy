// The function-frame macros `$FUNC locals, args, returned` and `$RET`
// (easycpu_lib/src/asm/stack/func.rs). A caller pushes the arguments and
// reserves a cell for the return address (`$CALL`); FUNC then pushes the
// value SP must have after the return (the arguments dropped, `returned`
// cells kept) and opens a LOCINIT frame. RET closes the frame, reloads that
// SP and jumps to the saved return address.
module StackFunction {
  import opened Base
  import opened Cpu
  import opened Errors
  import opened Words
  import opened AsmInst
  import opened Semantics
  import LoadConst
  import StackBase
  import StackLocal

  datatype StackFunctionOperation = INIT | RETURN

  /** The mnemonic of each operation. */
  function Name(op: StackFunctionOperation): string {
    match op
    case INIT => "FUNC"
    case RETURN => "RET"
  }

  /** `parse_operation`: exactly FUNC and RET are recognised. */
  function ParseOperation(s: string): (r: Option<StackFunctionOperation>)
    ensures r.Some? ==> Name(r.value) == s
    ensures forall op :: s == Name(op) ==> r == Some(op)
  {
    match s
    case "FUNC" => Some(INIT)
    case "RET" => Some(RETURN)
    case _ => None
  }

  datatype StackFunctionInstruction = StackFunctionInstruction(
    op: StackFunctionOperation, locals: u16, args: u16, returned: u16)

  /** `parse_asm`: FUNC reads three constants, the local count, the argument
      count and the returned count, in that order, and the first failed read
      is the error; RET reads nothing and has all three zero. The operand
      reader is not part of this model: `first`, `second` and `third` are
      what its three reads return. */
  function ParseAsm(op: StackFunctionOperation, first: Result<u16, CompileError>,
                    second: Result<u16, CompileError>, third: Result<u16, CompileError>)
    : (r: Result<StackFunctionInstruction, CompileError>)
    ensures op == RETURN ==> r == Ok(StackFunctionInstruction(RETURN, 0, 0, 0))
    ensures op == INIT && first.Err? ==> r == Err(first.error)
    ensures op == INIT && first.Ok? && second.Err? ==> r == Err(second.error)
    ensures op == INIT && first.Ok? && second.Ok? && third.Err? ==> r == Err(third.error)
    ensures op == INIT && first.Ok? && second.Ok? && third.Ok? ==>
      r == Ok(StackFunctionInstruction(INIT, first.value, second.value, third.value))
  {
    match op
    case RETURN => Ok(StackFunctionInstruction(RETURN, 0, 0, 0))
    case INIT =>
      var locals :- first;
      var args :- second;
      var returned :- third;
      Ok(StackFunctionInstruction(INIT, locals, args, returned))
  }

  /** `0 - (args + 1) + returned`, wrapping. The source's `args + 1` is a
      plain `u16` addition, which overflows only for `args = 0xFFFF`. */
  function ReturnShift(args: u16, returned: u16): u16 {
    WrapAdd(WrapSub(0, WrapAdd(args, 1)), returned)
  }

  /** Added to SP, the shift gives `SP + returned - args - 1` modulo 2^16. */
  lemma ReturnShiftMeaning(sp: u16, args: u16, returned: u16)
    ensures WrapAdd(sp, ReturnShift(args, returned)) as int
      == (sp as int + returned as int - args as int - 1) % 0x1_0000
  {
    var a1 := WrapAdd(args, 1);
    var n := WrapSub(0, a1);
    var sh := WrapAdd(n, returned);
    assert a1 as int == (args as int + 1) % 0x1_0000;
    assert n as int == (0x1_0000 - a1 as int) % 0x1_0000;
    assert sh as int == (n as int + returned as int) % 0x1_0000;
    assert WrapAdd(sp, sh) as int == (sp as int + sh as int) % 0x1_0000;
  }

  /** `LCONST R2, shift; ADD R2, R2, SP`: R2 gets the SP to return with. */
  function FrontWords(args: u16, returned: u16): seq<Word> {
    LoadConst.Emitted(LoadConst.Load, R2, ReturnShift(args, returned)) + [Alu(AluOperation.ADD, R2, R2, SP)]
  }

  /** The front followed by `PUSH R2`. */
  function FrameWords(args: u16, returned: u16): seq<Word> {
    FrontWords(args, returned) + StackBase.PushWords(R2)
  }

  function FuncWords(locals: u16, args: u16, returned: u16): seq<Word> {
    FrameWords(args, returned) + StackLocal.LocinitWords(locals)
  }

  const RetTailWords := [Mem(MemOperation.LOAD, R2, SP, -2), Mem(MemOperation.LOAD, SP, SP, -1), Alu(MOV, PC, R2, ZX)]

  const RetWords := StackLocal.LocendWords + RetTailWords

  /** The words of each operation, written out. */
  function Emitted(ins: StackFunctionInstruction): seq<Word> {
    match ins.op
    case INIT => FuncWords(ins.locals, ins.args, ins.returned)
    case RETURN => RetWords
  }

  /** `compile`: the sub-instructions compiled in order. Both operations
      compile, to the words `Emitted` lists; RET always to exactly six. */
  function Compile(ins: StackFunctionInstruction): (r: Result<seq<Word>, CompileError>)
    ensures r == Ok(Emitted(ins))
    ensures ins.op == RETURN ==> |r.value| == 6
  {
    match ins.op
    case INIT => CompileFunc(ins.locals, ins.args, ins.returned)
    case RETURN => CompileRet()
  }

  function CompileFunc(locals: u16, args: u16, returned: u16): (r: Result<seq<Word>, CompileError>)
    ensures r == Ok(FuncWords(locals, args, returned))
  {
    Join(CompileFrame(args, returned), StackLocal.Compile(StackLocal.StackLocalInstruction(StackLocal.LOCINIT, locals)))
  }

  function CompileFrame(args: u16, returned: u16): (r: Result<seq<Word>, CompileError>)
    ensures r == Ok(FrameWords(args, returned))
  {
    Join(CompileFront(args, returned), StackBase.Compile(StackBase.StackBaseInstruction(StackBase.PUSH, R2)))
  }

  function CompileFront(args: u16, returned: u16): (r: Result<seq<Word>, CompileError>)
    ensures r == Ok(FrontWords(args, returned))
  {
    var add := [AluLeaf(AluOperation.ADD, R2, R2, SP)];
    CompilesTo(add, [Alu(AluOperation.ADD, R2, R2, SP)]);
    Join(LoadConst.Compile(LoadConst.Load, R2, ReturnShift(args, returned)), CompileLeaves(add))
  }

  function CompileRet(): (r: Result<seq<Word>, CompileError>)
    ensures r == Ok(RetWords)
  {
    var tail := [MemLeaf(MemOperation.LOAD, R2, SP, -2), MemLeaf(MemOperation.LOAD, SP, SP, -1), AluLeaf(MOV, PC, R2, ZX)];
    CompilesTo(tail, RetTailWords);
    Join(StackLocal.Compile(StackLocal.StackLocalInstruction(StackLocal.LOCEND, 0)), CompileLeaves(tail))
  }

  // --- What the words do ----------------------------------------------------

  /** The SP a FUNC run from `s` arranges to return with. */
  function ReturnSp(args: u16, returned: u16, s: State): u16
    requires Valid(s)
  {
    WrapAdd(Get(s, SP), ReturnShift(args, returned))
  }

  function FrontSteps(args: u16, returned: u16): nat {
    LoadConst.StepCount(LoadConst.Load, R2, ReturnShift(args, returned)) + 1
  }

  function FrameSteps(args: u16, returned: u16): nat {
    FrontSteps(args, returned) + 2
  }

  function FuncSteps(locals: u16, args: u16, returned: u16): nat {
    FrameSteps(args, returned) + StackLocal.LocinitSteps(locals)
  }

  /** The front leaves the return SP in R2 and changes nothing else. */
  lemma FrontMeaning(args: u16, returned: u16, image: Image, s: State)
    requires Valid(s) && Holds(image, FrontWords(args, returned), s.pc)
    requires s.pc as int + |FrontWords(args, returned)| < 0x1_0000
    ensures Sets(image, s, FrontSteps(args, returned), |FrontWords(args, returned)|, R2, ReturnSp(args, returned, s))
  {
    var shift := ReturnShift(args, returned);
    var lc := LoadConst.Emitted(LoadConst.Load, R2, shift);
    var add := [Alu(AluOperation.ADD, R2, R2, SP)];
    Split(image, lc, add, s.pc);
    LoadConst.CompiledMeaning(LoadConst.Load, R2, shift, image, s);
    LoadConst.AddAfter(R2, SP, |lc|, LoadConst.StepCount(LoadConst.Load, R2, shift), shift, image, s);
  }

  /** The front and its push: the return SP is pushed. */
  lemma FrameMeaning(args: u16, returned: u16, image: Image, s: State)
    requires Valid(s) && Holds(image, FrameWords(args, returned), s.pc)
    requires s.pc as int + |FrameWords(args, returned)| < 0x1_0000
    ensures var t := Steps(image, s, FrameSteps(args, returned));
      var v := ReturnSp(args, returned, s);
      t.Some? && t.value.pc as int == s.pc as int + |FrameWords(args, returned)|
      && t.value.mem == s.mem[Get(s, SP) := v]
      && Get(t.value, SP) == WrapAdd(Get(s, SP), 1)
      && Get(t.value, R2) == v
      && Keeps(s, t.value, {R2, SP})
  {
    var fw := FrontWords(args, returned);
    Split(image, fw, StackBase.PushWords(R2), s.pc);
    FrontMeaning(args, returned, image, s);
    StackBase.PushAfter(|fw|, FrontSteps(args, returned), R2, ReturnSp(args, returned, s), image, s);
  }

  /** The frame FUNC leaves, seen from the state `s` it ran from: the
      return SP `v` in the cell SP pointed at, the caller's LP in the next
      one, LP just above both, `locals` cells reserved above that, R2 = `v`,
      and no other register changed. */
  predicate Framed(s: State, t: State, v: u16, locals: u16)
    requires Valid(s) && Valid(t)
  {
    var sp := Get(s, SP);
    t.mem == s.mem[sp := v][WrapAdd(sp, 1) := Get(s, LP)]
    && Get(t, LP) == WrapAdd(WrapAdd(sp, 1), 1)
    && Get(t, SP) == WrapAdd(WrapAdd(WrapAdd(sp, 1), 1), locals)
    && Get(t, R2) == v
    && Keeps(s, t, {R2, LP, SP})
  }

  /** FUNC, run at `s`, builds the frame `Framed` describes, with the return
      SP of `ReturnSp`. */
  lemma FuncMeaning(locals: u16, args: u16, returned: u16, image: Image, s: State)
    requires Valid(s) && Holds(image, FuncWords(locals, args, returned), s.pc)
    requires s.pc as int + |FuncWords(locals, args, returned)| < 0x1_0000
    ensures var t := Steps(image, s, FuncSteps(locals, args, returned));
      t.Some? && t.value.pc as int == s.pc as int + |FuncWords(locals, args, returned)|
      && Framed(s, t.value, ReturnSp(args, returned, s), locals)
  {
    FrameOfFunc(locals, args, returned, image, s);
    LocinitAfter(|FrameWords(args, returned)|, FrameSteps(args, returned), FuncSteps(locals, args, returned), |FuncWords(locals, args, returned)|, ReturnSp(args, returned, s), locals, image, s);
  }

  /** The frame words that open FUNC push the return SP and leave LOCINIT
      at the new PC. */
  lemma FrameOfFunc(locals: u16, args: u16, returned: u16, image: Image, s: State)
    requires Valid(s) && Holds(image, FuncWords(locals, args, returned), s.pc)
    requires s.pc as int + |FuncWords(locals, args, returned)| < 0x1_0000
    ensures FuncSteps(locals, args, returned) == FrameSteps(args, returned) + StackLocal.LocinitSteps(locals)
    ensures |FuncWords(locals, args, returned)| == |FrameWords(args, returned)| + |StackLocal.LocinitWords(locals)|
    ensures var t := Steps(image, s, FrameSteps(args, returned));
      var v := ReturnSp(args, returned, s);
      t.Some? && t.value.pc as int == s.pc as int + |FrameWords(args, returned)|
      && t.value.mem == s.mem[Get(s, SP) := v]
      && Get(t.value, SP) == WrapAdd(Get(s, SP), 1)
      && Get(t.value, R2) == v
      && Keeps(s, t.value, {R2, SP})
    ensures Holds(image, StackLocal.LocinitWords(locals), Steps(image, s, FrameSteps(args, returned)).value.pc)
  {
    var fw := FrameWords(args, returned);
    var li := StackLocal.LocinitWords(locals);
    Split(image, fw, li, s.pc);
    FrameMeaning(args, returned, image, s);
  }

  /** LOCINIT run after a block of `len` words that pushed `v` and left it
      in R2. */
  lemma LocinitAfter(len: nat, n: nat, steps: nat, size: nat, v: u16, locals: u16, image: Image, s: State)
    requires steps == n + StackLocal.LocinitSteps(locals) && size == len + |StackLocal.LocinitWords(locals)|
    requires Valid(s) && s.pc as int + size < 0x1_0000
    requires var t := Steps(image, s, n);
      t.Some? && t.value.pc as int == s.pc as int + len
      && t.value.mem == s.mem[Get(s, SP) := v] && Get(t.value, SP) == WrapAdd(Get(s, SP), 1)
      && Get(t.value, R2) == v && Keeps(s, t.value, {R2, SP})
    requires Holds(image, StackLocal.LocinitWords(locals), Steps(image, s, n).value.pc)
    ensures var t := Steps(image, s, steps);
      t.Some? && t.value.pc as int == s.pc as int + size
      && Framed(s, t.value, v, locals)
  {
    var t := Steps(image, s, n).value;
    var m := StackLocal.LocinitSteps(locals);
    StackLocal.LocinitMeaning(locals, image, t);
    var u := Steps(image, t, m).value;
    StepsAfter(image, s, n, m, steps);
    FrameComposes(s, t, u, v, locals);
  }

  /** The state algebra of `FuncMeaning`. */
  lemma FrameComposes(s: State, t: State, u: State, v: u16, locals: u16)
    requires Valid(s) && Valid(t) && Valid(u)
    requires t.mem == s.mem[Get(s, SP) := v] && Get(t, SP) == WrapAdd(Get(s, SP), 1)
    requires Get(t, R2) == v && Keeps(s, t, {R2, SP})
    requires u.mem == t.mem[Get(t, SP) := Get(t, LP)]
    requires Get(u, LP) == WrapAdd(Get(t, SP), 1) && Get(u, SP) == WrapAdd(WrapAdd(Get(t, SP), 1), locals)
    requires Keeps(t, u, {LP, SP})
    ensures Framed(s, u, v, locals)
  {
    assert Get(t, LP) == Get(s, LP);
  }

  /** The three words after LOCEND: R2 := [SP-2], SP := [SP-1], PC := R2. */
  lemma RetTailMeaning(image: Image, s: State)
    requires Valid(s) && Holds(image, RetTailWords, s.pc) && s.pc as int + 3 < 0x1_0000
    ensures var t := Steps(image, s, 3);
      var ret := Read(image, s, WrapSub(Get(s, SP), 2));
      t.Some? && t.value.pc == ret && Get(t.value, R2) == ret
      && Get(t.value, SP) == Read(image, s, WrapSub(Get(s, SP), 1))
      && t.value.mem == s.mem && Keeps(s, t.value, {R2, SP})
  {
    HoldsAt(image, RetTailWords, s.pc, 0);
    HoldsAt(image, RetTailWords, s.pc, 1);
    HoldsAt(image, RetTailWords, s.pc, 2);
    LoadStep(image, s, R2, SP, -2);
    var s1 := WriteBack(s, R2, Read(image, s, Offset(Get(s, SP), -2)));
    assert s1.pc == At(s.pc, 1) && Get(s1, SP) == Get(s, SP);
    RetLastTwo(image, s1);
    StepsAfter(image, s, 1, 2, 3);
    assert Offset(Get(s, SP), -2) == WrapSub(Get(s, SP), 2) && Offset(Get(s, SP), -1) == WrapSub(Get(s, SP), 1);
  }

  /** The last two words of RET: SP := [SP-1], PC := R2. */
  lemma RetLastTwo(image: Image, s: State)
    requires Valid(s) && s.pc as int + 2 < 0x1_0000
    requires s.pc in image && image[s.pc] == Mem(MemOperation.LOAD, SP, SP, -1)
    requires At(s.pc, 1) in image && image[At(s.pc, 1)] == Alu(MOV, PC, R2, ZX)
    ensures var t := Steps(image, s, 2);
      t.Some? && t.value.pc == Get(s, R2) && Get(t.value, R2) == Get(s, R2)
      && Get(t.value, SP) == Read(image, s, Offset(Get(s, SP), -1))
      && t.value.mem == s.mem && Keeps(s, t.value, {SP})
  {
    LoadStep(image, s, SP, SP, -1);
    var s1 := WriteBack(s, SP, Read(image, s, Offset(Get(s, SP), -1)));
    AluStep(image, s1, MOV, PC, R2, ZX);
    StepsAfter(image, s, 1, 1, 2);
  }

  /** What RET does, from `s` to `t`: with `f` the cell just below LP, it
      jumps to the address in `f - 2`, reloads SP from `f - 1` and LP from
      `f`, and leaves memory and the other registers but R2 unchanged. */
  predicate Returned(image: Image, s: State, t: State)
    requires Valid(s) && Valid(t)
  {
    var f := WrapSub(Get(s, LP), 1);
    t.pc == Read(image, s, WrapSub(f, 2))
    && Get(t, SP) == Read(image, s, WrapSub(f, 1))
    && Get(t, LP) == Read(image, s, f)
    && t.mem == s.mem && Keeps(s, t, {R2, LP, SP})
  }

  /** RET, run at `s`, does what `Returned` describes in six steps; its last
      word is the one that writes PC. */
  lemma RetMeaning(image: Image, s: State)
    requires Valid(s) && Holds(image, RetWords, s.pc) && s.pc as int + 6 < 0x1_0000
    ensures RetWords[5] == Alu(MOV, PC, R2, ZX)
    ensures Steps(image, s, 6).Some? && Returned(image, s, Steps(image, s, 6).value)
  {
    RetSplit(image, s.pc);
    LocendOfRet(image, s);
    RetTailAfter(image, s);
    RetLastWord();
  }

  lemma RetLastWord()
    ensures RetWords[5] == Alu(MOV, PC, R2, ZX)
  {
    assert RetWords[5] == RetTailWords[2];
  }

  /** The LOCEND that opens RET, with the rest of RET at the new PC. */
  lemma LocendOfRet(image: Image, s: State)
    requires Valid(s) && s.pc as int + 6 < 0x1_0000
    requires Holds(image, StackLocal.LocendWords, s.pc) && Holds(image, RetTailWords, At(s.pc, 3))
    ensures var t := Steps(image, s, 3);
      t.Some? && t.value.pc as int == s.pc as int + 3
      && t.value.mem == s.mem
      && Get(t.value, SP) == WrapSub(Get(s, LP), 1)
      && Get(t.value, LP) == Read(image, s, WrapSub(Get(s, LP), 1))
      && Keeps(s, t.value, {LP, SP})
    ensures Holds(image, RetTailWords, Steps(image, s, 3).value.pc)
  {
    StackLocal.LocendMeaning(image, s);
    assert Steps(image, s, 3).value.pc == At(s.pc, 3);
  }

  /** RET's words are LOCEND's followed by the three of its tail. */
  lemma RetSplit(image: Image, base: u16)
    requires Holds(image, RetWords, base) && base as int + 6 < 0x1_0000
    ensures Holds(image, StackLocal.LocendWords, base) && Holds(image, RetTailWords, At(base, 3))
  {
    Split(image, StackLocal.LocendWords, RetTailWords, base);
  }

  /** The last three words of RET, run after its LOCEND. */
  lemma RetTailAfter(image: Image, s: State)
    requires Valid(s) && s.pc as int + 6 < 0x1_0000
    requires var t := Steps(image, s, 3);
      t.Some? && t.value.pc as int == s.pc as int + 3
      && t.value.mem == s.mem
      && Get(t.value, SP) == WrapSub(Get(s, LP), 1)
      && Get(t.value, LP) == Read(image, s, WrapSub(Get(s, LP), 1))
      && Keeps(s, t.value, {LP, SP})
    requires Holds(image, RetTailWords, Steps(image, s, 3).value.pc)
    ensures Steps(image, s, 6).Some? && Returned(image, s, Steps(image, s, 6).value)
  {
    var t := Steps(image, s, 3).value;
    RetTailMeaning(image, t);
    StepsAfter(image, s, 3, 3, 6);
    RetComposes(image, s, t, Steps(image, t, 3).value);
  }

  /** The state algebra of `RetMeaning`. */
  lemma RetComposes(image: Image, s: State, t: State, u: State)
    requires Valid(s) && Valid(t) && Valid(u)
    requires t.mem == s.mem && Get(t, SP) == WrapSub(Get(s, LP), 1)
    requires Get(t, LP) == Read(image, s, WrapSub(Get(s, LP), 1)) && Keeps(s, t, {LP, SP})
    requires u.pc == Read(image, t, WrapSub(Get(t, SP), 2))
    requires Get(u, SP) == Read(image, t, WrapSub(Get(t, SP), 1))
    requires u.mem == t.mem && Keeps(t, u, {R2, SP})
    ensures Returned(image, s, u)
  {
    assert Get(u, LP) == Get(t, LP);
  }

  /** The three cells FUNC's frame uses, below, at and above `sp`. */
  lemma FrameCells(sp: u16)
    ensures WrapSub(WrapAdd(WrapAdd(sp, 1), 1), 1) == WrapAdd(sp, 1)
    ensures WrapSub(WrapAdd(sp, 1), 1) == sp && WrapSub(WrapAdd(sp, 1), 2) == WrapSub(sp, 1)
    ensures WrapAdd(sp, 1) != sp && WrapSub(sp, 1) != sp && WrapSub(sp, 1) != WrapAdd(sp, 1)
  {
  }

  /** RET undoes FUNC: run from any later state whose LP is still the one
      FUNC set and whose three cells below it still hold what the call and
      FUNC put there, it jumps to the return address the call saved (in the
      cell below the one SP pointed at on entry to FUNC), leaves SP at the
      return SP, `SP + returned - args - 1` of that entry
      (`ReturnShiftMeaning`), and restores the caller's LP. */
  lemma FuncThenRet(locals: u16, args: u16, returned: u16, image: Image, s: State, u: State)
    requires Valid(s) && Valid(u)
    requires Holds(image, RetWords, u.pc) && u.pc as int + 6 < 0x1_0000
    requires Get(u, LP) == WrapAdd(WrapAdd(Get(s, SP), 1), 1)
    requires Read(image, u, WrapAdd(Get(s, SP), 1)) == Get(s, LP)
    requires Read(image, u, Get(s, SP)) == ReturnSp(args, returned, s)
    requires Read(image, u, WrapSub(Get(s, SP), 1)) == Read(image, s, WrapSub(Get(s, SP), 1))
    ensures var t := Steps(image, u, 6);
      t.Some? && t.value.pc == Read(image, s, WrapSub(Get(s, SP), 1))
      && Get(t.value, SP) == ReturnSp(args, returned, s)
      && Get(t.value, LP) == Get(s, LP)
  {
    RetMeaning(image, u);
    FrameCells(Get(s, SP));
  }

  /** Right after FUNC the frame is as `FuncThenRet` needs it, when the
      three cells involved are data cells. */
  lemma FuncLeavesFrame(locals: u16, args: u16, returned: u16, image: Image, s: State)
    requires Valid(s) && Holds(image, FuncWords(locals, args, returned), s.pc)
    requires s.pc as int + |FuncWords(locals, args, returned)| < 0x1_0000
    requires DataCell(image, WrapSub(Get(s, SP), 1)) && DataCell(image, Get(s, SP)) && DataCell(image, WrapAdd(Get(s, SP), 1))
    ensures var t := Steps(image, s, FuncSteps(locals, args, returned));
      var sp := Get(s, SP);
      t.Some? && Get(t.value, LP) == WrapAdd(WrapAdd(sp, 1), 1)
      && Read(image, t.value, WrapAdd(sp, 1)) == Get(s, LP)
      && Read(image, t.value, sp) == ReturnSp(args, returned, s)
      && Read(image, t.value, WrapSub(sp, 1)) == Read(image, s, WrapSub(sp, 1))
  {
    FuncMeaning(locals, args, returned, image, s);
    var t := Steps(image, s, FuncSteps(locals, args, returned)).value;
    FrameCells(Get(s, SP));
    FrameReads(image, s, t, ReturnSp(args, returned, s));
  }

  /** Reading the frame cells after FUNC's two stores. */
  lemma FrameReads(image: Image, s: State, t: State, v: u16)
    requires Valid(s) && Valid(t)
    requires DataCell(image, WrapSub(Get(s, SP), 1)) && DataCell(image, Get(s, SP)) && DataCell(image, WrapAdd(Get(s, SP), 1))
    requires t.mem == s.mem[Get(s, SP) := v][WrapAdd(Get(s, SP), 1) := Get(s, LP)]
    ensures Read(image, t, WrapAdd(Get(s, SP), 1)) == Get(s, LP)
    ensures Read(image, t, Get(s, SP)) == v
    ensures Read(image, t, WrapSub(Get(s, SP), 1)) == Read(image, s, WrapSub(Get(s, SP), 1))
  {
    FrameCells(Get(s, SP));
  }
}
