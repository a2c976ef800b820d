// The frame macros `$LOCINIT`, `$LOCEND` and the local-variable and
// argument accessors `$LVAR/$SVAR/$AVAR` and `$LARG/$SARG/$AARG`
// (easycpu_lib/src/asm/stack/local.rs). LOCINIT saves LP on the stack,
// points LP just above the saved value and reserves `idx` cells; LOCEND
// undoes it. Variable `idx` lives at LP + idx, argument `idx` at
// LP - 4 - idx, both addressed through R3.
module StackLocal {
  import opened Base
  import opened Cpu
  import opened Errors
  import opened Words
  import opened AsmInst
  import opened Semantics
  import LoadConst
  import StackBase

  datatype StackLocalMode = VAR | ARG

  datatype StackLocalOperation =
    | LOCINIT
    | LOCEND
    | LOAD(mode: StackLocalMode)
    | STORE(mode: StackLocalMode)
    | ADDR(mode: StackLocalMode)

  /** The mnemonic of each operation. */
  function Name(op: StackLocalOperation): string {
    match op
    case LOCINIT => "LOCINIT"
    case LOCEND => "LOCEND"
    case LOAD(VAR) => "LVAR" case STORE(VAR) => "SVAR" case ADDR(VAR) => "AVAR"
    case LOAD(ARG) => "LARG" case STORE(ARG) => "SARG" case ADDR(ARG) => "AARG"
  }

  /** `parse_operation`: exactly the eight mnemonics are recognised, each as
      its own operation. */
  function ParseOperation(s: string): (r: Option<StackLocalOperation>)
    ensures r.Some? ==> Name(r.value) == s
    ensures forall op :: s == Name(op) ==> r == Some(op)
  {
    match s
    case "LOCINIT" => Some(LOCINIT)
    case "LOCEND" => Some(LOCEND)
    case "LVAR" => Some(StackLocalOperation.LOAD(VAR))
    case "SVAR" => Some(StackLocalOperation.STORE(VAR))
    case "AVAR" => Some(ADDR(VAR))
    case "LARG" => Some(StackLocalOperation.LOAD(ARG))
    case "SARG" => Some(StackLocalOperation.STORE(ARG))
    case "AARG" => Some(ADDR(ARG))
    case _ => None
  }

  datatype StackLocalInstruction = StackLocalInstruction(op: StackLocalOperation, idx: u16)

  /** `parse_asm`: LOCEND reads no operand and gets index 0; every other
      operation reads a constant, and a failed read is the error. The
      operand reader is not part of this model: `constant` is what it
      returns. */
  function ParseAsm(op: StackLocalOperation, constant: Result<u16, CompileError>): (r: Result<StackLocalInstruction, CompileError>)
    ensures op == LOCEND ==> r == Ok(StackLocalInstruction(LOCEND, 0))
    ensures op != LOCEND && constant.Ok? ==> r == Ok(StackLocalInstruction(op, constant.value))
    ensures op != LOCEND && constant.Err? ==> r == Err(constant.error)
  {
    if op == LOCEND then Ok(StackLocalInstruction(LOCEND, 0))
    else
      match constant
      case Err(e) => Err(e)
      case Ok(idx) => Ok(StackLocalInstruction(op, idx))
  }

  /** The offset from LP: `idx` for a variable, `0 - 4 - idx` (wrapping)
      for an argument. */
  function Shift(mode: StackLocalMode, idx: u16): (r: u16)
    ensures mode == VAR ==> r == idx
    ensures mode == ARG ==> forall lp: u16 :: WrapAdd(lp, r) == WrapSub(WrapSub(lp, 4), idx)
  {
    match mode
    case VAR => idx
    case ARG => WrapSub(WrapSub(0, 4), idx)
  }

  /** `load_address`: `LCONST R3, shift; ADD R3, R3, LP`. */
  function AddressWords(mode: StackLocalMode, idx: u16): (w: seq<Word>)
    ensures 2 <= |w| <= 4
  {
    LoadConst.Emitted(LoadConst.Load, R3, Shift(mode, idx)) + [Alu(AluOperation.ADD, R3, R3, LP)]
  }

  /** `load_address` as the source builds it: the LCONST, then the ADD. */
  function LoadAddress(mode: StackLocalMode, idx: u16): (r: Result<seq<Word>, CompileError>)
    ensures r == Ok(AddressWords(mode, idx))
  {
    Join(LoadConst.Compile(LoadConst.Load, R3, Shift(mode, idx)), Ok([Alu(AluOperation.ADD, R3, R3, LP)]))
  }

  const LocendWords := [Alu(MOV, SP, LP, ZX)] + StackBase.PopWords(LP)

  function LocinitWords(idx: u16): seq<Word> {
    StackBase.PushWords(LP) + [Alu(MOV, LP, SP, ZX)] + LoadConst.Emitted(LoadConst.Add, SP, idx)
  }

  /** The words of each operation, written out. */
  function Emitted(op: StackLocalOperation, idx: u16): seq<Word> {
    match op
    case LOCINIT => LocinitWords(idx)
    case LOCEND => LocendWords
    case LOAD(mode) => AddressWords(mode, idx) + [Mem(MemOperation.LOAD, R2, R3, 0)] + StackBase.PushWords(R2)
    case STORE(mode) => AddressWords(mode, idx) + StackBase.PopWords(R2) + [Mem(MemOperation.STORE, R2, R3, 0)]
    case ADDR(mode) => AddressWords(mode, idx) + StackBase.PushWords(R3)
  }

  /** `compile`: the sub-instructions compiled in order into the context.
      Every operation compiles, to the words `Emitted` lists. */
  function Compile(ins: StackLocalInstruction): (r: Result<seq<Word>, CompileError>)
    ensures r == Ok(Emitted(ins.op, ins.idx))
  {
    match ins.op
    case LOCINIT => CompileLocinit(ins.idx)
    case LOCEND => CompileLocend()
    case LOAD(mode) => CompileLoad(mode, ins.idx)
    case STORE(mode) => CompileStore(mode, ins.idx)
    case ADDR(mode) => CompileAddr(mode, ins.idx)
  }

  function CompileLocinit(idx: u16): (r: Result<seq<Word>, CompileError>)
    ensures r == Ok(LocinitWords(idx))
  {
    Join(Join(StackBase.Compile(StackBase.StackBaseInstruction(StackBase.PUSH, LP)), Ok([Alu(MOV, LP, SP, ZX)])),
         LoadConst.Compile(LoadConst.Add, SP, idx))
  }

  function CompileLocend(): (r: Result<seq<Word>, CompileError>)
    ensures r == Ok(LocendWords)
  {
    Join(Ok([Alu(MOV, SP, LP, ZX)]), StackBase.Compile(StackBase.StackBaseInstruction(StackBase.POP, LP)))
  }

  function CompileLoad(mode: StackLocalMode, idx: u16): (r: Result<seq<Word>, CompileError>)
    ensures r == Ok(Emitted(StackLocalOperation.LOAD(mode), idx))
  {
    Join(Join(LoadAddress(mode, idx), Ok([Mem(MemOperation.LOAD, R2, R3, 0)])),
         StackBase.Compile(StackBase.StackBaseInstruction(StackBase.PUSH, R2)))
  }

  function CompileStore(mode: StackLocalMode, idx: u16): (r: Result<seq<Word>, CompileError>)
    ensures r == Ok(Emitted(StackLocalOperation.STORE(mode), idx))
  {
    Join(Join(LoadAddress(mode, idx), StackBase.Compile(StackBase.StackBaseInstruction(StackBase.POP, R2))),
         Ok([Mem(MemOperation.STORE, R2, R3, 0)]))
  }

  function CompileAddr(mode: StackLocalMode, idx: u16): (r: Result<seq<Word>, CompileError>)
    ensures r == Ok(Emitted(ADDR(mode), idx))
  {
    Join(LoadAddress(mode, idx), StackBase.Compile(StackBase.StackBaseInstruction(StackBase.PUSH, R3)))
  }

  // --- What the words do ----------------------------------------------------

  /** The address of local `idx` in mode `mode` for the frame base (LP) of `s`. */
  function Address(mode: StackLocalMode, idx: u16, s: State): u16
    requires Valid(s)
  {
    WrapAdd(Get(s, LP), Shift(mode, idx))
  }

  function AddressSteps(mode: StackLocalMode, idx: u16): nat {
    LoadConst.StepCount(LoadConst.Load, R3, Shift(mode, idx)) + 1
  }

  /** The address words leave the local's address in R3 and change nothing
      else. */
  lemma AddressMeaning(mode: StackLocalMode, idx: u16, image: Image, s: State)
    requires Valid(s) && Holds(image, AddressWords(mode, idx), s.pc)
    requires s.pc as int + |AddressWords(mode, idx)| < 0x1_0000
    ensures Sets(image, s, AddressSteps(mode, idx), |AddressWords(mode, idx)|, R3, Address(mode, idx, s))
  {
    AddressSplit(mode, idx, image, s.pc);
    AddressLoads(mode, idx, image, s);
  }

  /** The address words are the constant load, then the add. */
  lemma AddressSplit(mode: StackLocalMode, idx: u16, image: Image, base: u16)
    requires Holds(image, AddressWords(mode, idx), base)
    requires base as int + |AddressWords(mode, idx)| < 0x1_0000
    ensures var lc := LoadConst.Emitted(LoadConst.Load, R3, Shift(mode, idx));
      |AddressWords(mode, idx)| == |lc| + 1 && Holds(image, lc, base)
      && Holds(image, [Alu(AluOperation.ADD, R3, R3, LP)], At(base, |lc|))
  {
    var lc := LoadConst.Emitted(LoadConst.Load, R3, Shift(mode, idx));
    Split(image, lc, [Alu(AluOperation.ADD, R3, R3, LP)], base);
  }

  /** The constant load puts the offset in R3 and the add moves it by LP. */
  lemma AddressLoads(mode: StackLocalMode, idx: u16, image: Image, s: State)
    requires Valid(s)
    requires var lc := LoadConst.Emitted(LoadConst.Load, R3, Shift(mode, idx));
      s.pc as int + |lc| + 1 < 0x1_0000
      && Holds(image, lc, s.pc) && Holds(image, [Alu(AluOperation.ADD, R3, R3, LP)], At(s.pc, |lc|))
    ensures Sets(image, s, AddressSteps(mode, idx), |LoadConst.Emitted(LoadConst.Load, R3, Shift(mode, idx))| + 1, R3, Address(mode, idx, s))
  {
    var shift := Shift(mode, idx);
    LoadConst.CompiledMeaning(LoadConst.Load, R3, shift, image, s);
    LoadConst.AddAfter(R3, LP, |LoadConst.Emitted(LoadConst.Load, R3, shift)|, LoadConst.StepCount(LoadConst.Load, R3, shift), shift, image, s);
  }

  /** An argument lives 4 + idx cells below the frame base (LP). */
  lemma ArgumentAddress(idx: u16, s: State)
    requires Valid(s)
    ensures Address(ARG, idx, s) == WrapSub(WrapSub(Get(s, LP), 4), idx)
    ensures Address(VAR, idx, s) == WrapAdd(Get(s, LP), idx)
  {
  }

  /** LOAD pushes the value of the local. */
  lemma LoadMeaning(mode: StackLocalMode, idx: u16, image: Image, s: State)
    requires Valid(s) && Holds(image, Emitted(StackLocalOperation.LOAD(mode), idx), s.pc)
    requires s.pc as int + |Emitted(StackLocalOperation.LOAD(mode), idx)| < 0x1_0000
    ensures var t := Steps(image, s, AddressSteps(mode, idx) + 3);
      var v := Read(image, s, Address(mode, idx, s));
      t.Some? && t.value.pc as int == s.pc as int + |Emitted(StackLocalOperation.LOAD(mode), idx)|
      && t.value.mem == s.mem[Get(s, SP) := v]
      && Get(t.value, SP) == WrapAdd(Get(s, SP), 1)
      && Keeps(s, t.value, {R2, R3, SP})
  {
    var aw := AddressWords(mode, idx);
    var tail := [Mem(MemOperation.LOAD, R2, R3, 0)] + StackBase.PushWords(R2);
    assert Emitted(StackLocalOperation.LOAD(mode), idx) == aw + tail;
    Split(image, aw, tail, s.pc);
    AddressMeaning(mode, idx, image, s);
    LoadThrough(|aw|, AddressSteps(mode, idx), Address(mode, idx, s), image, s);
  }

  /** `LOAD R2, [R3+0]; PUSH R2` after a block that left `addr` in R3. */
  lemma LoadThrough(len: nat, n: nat, addr: u16, image: Image, s: State)
    requires Valid(s) && s.pc as int + len + 3 < 0x1_0000
    requires Sets(image, s, n, len, R3, addr)
    requires Holds(image, [Mem(MemOperation.LOAD, R2, R3, 0)] + StackBase.PushWords(R2), Steps(image, s, n).value.pc)
    ensures var t := Steps(image, s, n + 3);
      t.Some? && t.value.pc as int == s.pc as int + len + 3
      && t.value.mem == s.mem[Get(s, SP) := Read(image, s, addr)]
      && Get(t.value, SP) == WrapAdd(Get(s, SP), 1)
      && Keeps(s, t.value, {R2, R3, SP})
  {
    var t1 := Steps(image, s, n).value;
    LoadPush(image, t1);
    StepsAdd(image, s, n, 3);
    PushedAfter(image, s, t1, Steps(image, t1, 3).value, R2, Read(image, s, addr), addr);
  }

  /** The state after `t`'s push, seen from `s`, where `t` differs from
      `s` only in R3, which holds `addr`. */
  lemma PushedAfter(image: Image, s: State, t: State, u: State, r: Register, v: u16, addr: u16)
    requires Valid(s) && Valid(t) && Valid(u)
    requires Get(t, R3) == addr && t.mem == s.mem && Keeps(s, t, {R3})
    requires r != SP && r != PC
    requires u.mem == t.mem[Get(t, SP) := v] && Get(u, SP) == WrapAdd(Get(t, SP), 1) && Keeps(t, u, {r, SP})
    ensures u.mem == s.mem[Get(s, SP) := v] && Get(u, SP) == WrapAdd(Get(s, SP), 1)
    ensures Keeps(s, u, {r, R3, SP})
  {
    assert Get(t, SP) == Get(s, SP);
  }

  /** `LOAD R2, [R3+0]; PUSH R2`. */
  lemma LoadPush(image: Image, s: State)
    requires Valid(s) && Holds(image, [Mem(MemOperation.LOAD, R2, R3, 0)] + StackBase.PushWords(R2), s.pc)
    requires s.pc as int + 3 < 0x1_0000
    ensures var t := Steps(image, s, 3);
      t.Some? && t.value.pc as int == s.pc as int + 3
      && t.value.mem == s.mem[Get(s, SP) := Read(image, s, Get(s, R3))]
      && Get(t.value, SP) == WrapAdd(Get(s, SP), 1)
      && Keeps(s, t.value, {R2, SP})
  {
    var ld := [Mem(MemOperation.LOAD, R2, R3, 0)];
    HoldsAt(image, ld + StackBase.PushWords(R2), s.pc, 0);
    LoadStep(image, s, R2, R3, 0);
    var s1 := WriteBack(s, R2, Read(image, s, Get(s, R3)));
    HoldsSuffix(image, ld, StackBase.PushWords(R2), s.pc);
    StackBase.PushMeaning(R2, image, s1);
    StepsAdd(image, s, 1, 2);
  }

  /** STORE pops the top of the stack into the local. */
  lemma StoreMeaning(mode: StackLocalMode, idx: u16, image: Image, s: State)
    requires Valid(s) && Holds(image, Emitted(StackLocalOperation.STORE(mode), idx), s.pc)
    requires s.pc as int + |Emitted(StackLocalOperation.STORE(mode), idx)| < 0x1_0000
    ensures var t := Steps(image, s, AddressSteps(mode, idx) + 3);
      var v := Read(image, s, WrapSub(Get(s, SP), 1));
      t.Some? && t.value.pc as int == s.pc as int + |Emitted(StackLocalOperation.STORE(mode), idx)|
      && t.value.mem == s.mem[Address(mode, idx, s) := v]
      && Get(t.value, SP) == WrapSub(Get(s, SP), 1)
      && Keeps(s, t.value, {R2, R3, SP})
  {
    var aw := AddressWords(mode, idx);
    var tail := StackBase.PopWords(R2) + [Mem(MemOperation.STORE, R2, R3, 0)];
    assert Emitted(StackLocalOperation.STORE(mode), idx) == aw + tail;
    Split(image, aw, tail, s.pc);
    AddressMeaning(mode, idx, image, s);
    StoreThrough(|aw|, AddressSteps(mode, idx), Address(mode, idx, s), image, s);
  }

  /** `POP R2; STORE R2, [R3+0]` after a block that left `addr` in R3. */
  lemma StoreThrough(len: nat, n: nat, addr: u16, image: Image, s: State)
    requires Valid(s) && s.pc as int + len + 3 < 0x1_0000
    requires Sets(image, s, n, len, R3, addr)
    requires Holds(image, StackBase.PopWords(R2) + [Mem(MemOperation.STORE, R2, R3, 0)], Steps(image, s, n).value.pc)
    ensures var t := Steps(image, s, n + 3);
      t.Some? && t.value.pc as int == s.pc as int + len + 3
      && t.value.mem == s.mem[addr := Read(image, s, WrapSub(Get(s, SP), 1))]
      && Get(t.value, SP) == WrapSub(Get(s, SP), 1)
      && Keeps(s, t.value, {R2, R3, SP})
  {
    var t1 := Steps(image, s, n).value;
    PopStore(image, t1);
    StepsAdd(image, s, n, 3);
    PoppedAfter(image, s, t1, Steps(image, t1, 3).value, addr);
  }

  lemma PoppedAfter(image: Image, s: State, t: State, u: State, addr: u16)
    requires Valid(s) && Valid(t) && Valid(u)
    requires Get(t, R3) == addr && t.mem == s.mem && Keeps(s, t, {R3})
    requires u.mem == t.mem[Get(t, R3) := Read(image, t, WrapSub(Get(t, SP), 1))]
    requires Get(u, SP) == WrapSub(Get(t, SP), 1) && Keeps(t, u, {R2, SP})
    ensures u.mem == s.mem[addr := Read(image, s, WrapSub(Get(s, SP), 1))]
    ensures Get(u, SP) == WrapSub(Get(s, SP), 1)
    ensures Keeps(s, u, {R2, R3, SP})
  {
    assert Get(t, SP) == Get(s, SP);
  }

  /** `POP R2; STORE R2, [R3+0]`. */
  lemma PopStore(image: Image, s: State)
    requires Valid(s) && Holds(image, StackBase.PopWords(R2) + [Mem(MemOperation.STORE, R2, R3, 0)], s.pc)
    requires s.pc as int + 3 < 0x1_0000
    ensures var t := Steps(image, s, 3);
      t.Some? && t.value.pc as int == s.pc as int + 3
      && t.value.mem == s.mem[Get(s, R3) := Read(image, s, WrapSub(Get(s, SP), 1))]
      && Get(t.value, SP) == WrapSub(Get(s, SP), 1)
      && Keeps(s, t.value, {R2, SP})
  {
    var pop := StackBase.PopWords(R2);
    var st := [Mem(MemOperation.STORE, R2, R3, 0)];
    HoldsPrefix(image, pop, st, s.pc);
    StackBase.PopMeaning(R2, image, s);
    Then(image, pop, st, s, 2, 1);
    var s2 := Steps(image, s, 2).value;
    HoldsAt(image, st, s2.pc, 0);
    StoreStep(image, s2, R2, R3, 0);
  }

  /** ADDR pushes the local's address. */
  lemma AddrMeaning(mode: StackLocalMode, idx: u16, image: Image, s: State)
    requires Valid(s) && Holds(image, Emitted(ADDR(mode), idx), s.pc)
    requires s.pc as int + |Emitted(ADDR(mode), idx)| < 0x1_0000
    ensures var t := Steps(image, s, AddressSteps(mode, idx) + 2);
      t.Some? && t.value.pc as int == s.pc as int + |Emitted(ADDR(mode), idx)|
      && t.value.mem == s.mem[Get(s, SP) := Address(mode, idx, s)]
      && Get(t.value, SP) == WrapAdd(Get(s, SP), 1)
      && Keeps(s, t.value, {R3, SP})
  {
    var aw := AddressWords(mode, idx);
    Split(image, aw, StackBase.PushWords(R3), s.pc);
    AddressMeaning(mode, idx, image, s);
    StackBase.PushAfter(|aw|, AddressSteps(mode, idx), R3, Address(mode, idx, s), image, s);
  }

  function LocinitSteps(idx: u16): nat {
    3 + LoadConst.StepCount(LoadConst.Add, SP, idx)
  }

  /** LOCINIT saves LP in the cell SP points at, points LP just above it
      and reserves `idx` cells above that. */
  lemma LocinitMeaning(idx: u16, image: Image, s: State)
    requires Valid(s) && Holds(image, LocinitWords(idx), s.pc)
    requires s.pc as int + |LocinitWords(idx)| < 0x1_0000
    ensures var t := Steps(image, s, LocinitSteps(idx));
      t.Some? && t.value.pc as int == s.pc as int + |LocinitWords(idx)|
      && t.value.mem == s.mem[Get(s, SP) := Get(s, LP)]
      && Get(t.value, LP) == WrapAdd(Get(s, SP), 1)
      && Get(t.value, SP) == WrapAdd(WrapAdd(Get(s, SP), 1), idx)
      && Keeps(s, t.value, {LP, SP})
  {
    var head := StackBase.PushWords(LP) + [Alu(MOV, LP, SP, ZX)];
    var ac := LoadConst.Emitted(LoadConst.Add, SP, idx);
    HoldsPrefix(image, head, ac, s.pc);
    HoldsPrefix(image, StackBase.PushWords(LP), [Alu(MOV, LP, SP, ZX)], s.pc);
    StackBase.PushMeaning(LP, image, s);
    Then(image, StackBase.PushWords(LP), [Alu(MOV, LP, SP, ZX)], s, 2, 1);
    var t1 := Steps(image, s, 2).value;
    HoldsAt(image, [Alu(MOV, LP, SP, ZX)], t1.pc, 0);
    AluStep(image, t1, MOV, LP, SP, ZX);
    Then(image, head, ac, s, 3, LoadConst.StepCount(LoadConst.Add, SP, idx));
    LoadConst.CompiledMeaning(LoadConst.Add, SP, idx, image, Steps(image, s, 3).value);
  }

  /** LOCEND moves SP down to just below LP and reloads LP from that cell. */
  lemma LocendMeaning(image: Image, s: State)
    requires Valid(s) && Holds(image, LocendWords, s.pc) && s.pc as int + 3 < 0x1_0000
    ensures var t := Steps(image, s, 3);
      t.Some? && t.value.pc as int == s.pc as int + 3
      && t.value.mem == s.mem
      && Get(t.value, SP) == WrapSub(Get(s, LP), 1)
      && Get(t.value, LP) == Read(image, s, WrapSub(Get(s, LP), 1))
      && Keeps(s, t.value, {LP, SP})
  {
    var mv := [Alu(MOV, SP, LP, ZX)];
    HoldsAt(image, LocendWords, s.pc, 0);
    AluStep(image, s, MOV, SP, LP, ZX);
    Then(image, mv, StackBase.PopWords(LP), s, 1, 2);
    StackBase.PopMeaning(LP, image, Steps(image, s, 1).value);
  }

  /** LOCEND undoes LOCINIT: run from any later state whose LP is still the
      one LOCINIT set and whose saved cell still holds the old LP, it puts
      SP and LP back where they were before LOCINIT. LOCINIT sets LP to
      one above the old SP (`LocinitMeaning`). */
  lemma FrameRestored(idx: u16, image: Image, s: State, u: State)
    requires Valid(s) && Holds(image, LocinitWords(idx), s.pc)
    requires s.pc as int + |LocinitWords(idx)| < 0x1_0000
    requires Valid(u) && Holds(image, LocendWords, u.pc) && u.pc as int + 3 < 0x1_0000
    requires Get(u, LP) == WrapAdd(Get(s, SP), 1)
    requires Read(image, u, Get(s, SP)) == Get(s, LP)
    ensures var t := Steps(image, u, 3);
      t.Some? && Get(t.value, SP) == Get(s, SP) && Get(t.value, LP) == Get(s, LP)
  {
    LocinitMeaning(idx, image, s);
    LocendMeaning(image, u);
  }

  /** LOCINIT of `idx` words immediately followed by LOCEND. */
  function FrameWords(idx: u16): seq<Word> {
    LocinitWords(idx) + LocendWords
  }

  /** LOCINIT immediately followed by LOCEND leaves SP and LP as they were,
      when the saved cell is a data cell. */
  lemma LocinitThenLocend(idx: u16, image: Image, s: State)
    requires Valid(s) && Holds(image, FrameWords(idx), s.pc)
    requires s.pc as int + |FrameWords(idx)| < 0x1_0000
    requires DataCell(image, Get(s, SP))
    ensures var t := Steps(image, s, LocinitSteps(idx) + 3);
      t.Some? && Get(t.value, SP) == Get(s, SP) && Get(t.value, LP) == Get(s, LP)
      && t.value.mem == s.mem[Get(s, SP) := Get(s, LP)]
  {
    LocinitFirst(idx, image, s);
    LocendAfter(LocinitSteps(idx), LocinitSteps(idx) + 3, image, s);
  }

  /** The LOCINIT half of `LocinitThenLocend`. */
  lemma LocinitFirst(idx: u16, image: Image, s: State)
    requires Valid(s) && Holds(image, FrameWords(idx), s.pc)
    requires s.pc as int + |FrameWords(idx)| < 0x1_0000
    ensures var t := Steps(image, s, LocinitSteps(idx));
      t.Some? && t.value.pc as int + 3 < 0x1_0000
      && t.value.mem == s.mem[Get(s, SP) := Get(s, LP)]
      && Get(t.value, LP) == WrapAdd(Get(s, SP), 1)
    ensures Holds(image, LocendWords, Steps(image, s, LocinitSteps(idx)).value.pc)
  {
    HoldsPrefix(image, LocinitWords(idx), LocendWords, s.pc);
    LocinitMeaning(idx, image, s);
    Then(image, LocinitWords(idx), LocendWords, s, LocinitSteps(idx), 3);
  }

  /** LOCEND run after `n` steps that saved LP in the data cell SP pointed
      at and set LP just above it. */
  lemma LocendAfter(n: nat, total: nat, image: Image, s: State)
    requires Valid(s) && total == n + 3 && DataCell(image, Get(s, SP))
    requires var t := Steps(image, s, n);
      t.Some? && t.value.pc as int + 3 < 0x1_0000
      && t.value.mem == s.mem[Get(s, SP) := Get(s, LP)]
      && Get(t.value, LP) == WrapAdd(Get(s, SP), 1)
    requires Holds(image, LocendWords, Steps(image, s, n).value.pc)
    ensures var t := Steps(image, s, total);
      t.Some? && Get(t.value, SP) == Get(s, SP) && Get(t.value, LP) == Get(s, LP)
      && t.value.mem == s.mem[Get(s, SP) := Get(s, LP)]
  {
    var u := Steps(image, s, n).value;
    LocendMeaning(image, u);
    StepsAfter(image, s, n, 3, total);
    assert WrapSub(Get(u, LP), 1) == Get(s, SP);
  }
}
