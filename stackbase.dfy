// The basic stack macros `$INIT`, `$PUSH`, `$POP`, `$DUP` and `$SWP`
// (easycpu_lib/src/asm/stack/base.rs). The stack lives in data memory, SP
// points at the first free cell and the stack grows towards higher
// addresses; LP is the frame base. R2 and R3 are the macros' scratch
// registers.
module StackBase {
  import opened Base
  import opened Cpu
  import opened Errors
  import opened Words
  import opened AsmInst
  import opened Semantics
  import LoadConst

  datatype StackBaseOperation = INIT | PUSH | POP | DUP | SWP

  /** The mnemonic of each operation. */
  function Name(op: StackBaseOperation): string {
    match op
    case INIT => "INIT" case PUSH => "PUSH" case POP => "POP" case DUP => "DUP" case SWP => "SWP"
  }

  /** `parse_operation`: exactly the five mnemonics are recognised, each as
      its own operation. */
  function ParseOperation(s: string): (r: Option<StackBaseOperation>)
    ensures r.Some? ==> Name(r.value) == s
    ensures forall op :: s == Name(op) ==> r == Some(op)
  {
    match s
    case "INIT" => Some(INIT)
    case "PUSH" => Some(PUSH)
    case "POP" => Some(POP)
    case "DUP" => Some(DUP)
    case "SWP" => Some(SWP)
    case _ => None
  }

  datatype StackBaseInstruction = StackBaseInstruction(op: StackBaseOperation, reg: Register)

  /** `parse_asm`: INIT, DUP and SWP read no operand and use ZX; PUSH and
      POP read a register, and a failed read is the error. The operand
      reader is not part of this model: `register` is what it returns. */
  function ParseAsm(op: StackBaseOperation, register: Result<Register, CompileError>): (r: Result<StackBaseInstruction, CompileError>)
    ensures (op == INIT || op == DUP || op == SWP) ==> r == Ok(StackBaseInstruction(op, ZX))
    ensures (op == PUSH || op == POP) && register.Ok? ==> r == Ok(StackBaseInstruction(op, register.value))
    ensures (op == PUSH || op == POP) && register.Err? ==> r == Err(register.error)
  {
    if op == INIT || op == DUP || op == SWP then Ok(StackBaseInstruction(op, ZX))
    else
      match register
      case Err(e) => Err(e)
      case Ok(reg) => Ok(StackBaseInstruction(op, reg))
  }

  /** The instruction objects each operation is built from, other than
      INIT's leading `LCONST SP, 0x4000`. */
  function Leaves(op: StackBaseOperation, reg: Register): seq<Leaf> {
    match op
    case INIT => [AluLeaf(MOV, LP, SP, ZX)]
    case PUSH => [MemLeaf(MemOperation.STORE, reg, SP, 0), AluLeaf(INC, SP, SP, ZX)]
    case POP => [MemLeaf(MemOperation.LOAD, reg, SP, -1), AluLeaf(DEC, SP, SP, ZX)]
    case DUP => [MemLeaf(MemOperation.LOAD, R2, SP, -1), MemLeaf(MemOperation.STORE, R2, SP, 0), AluLeaf(INC, SP, SP, ZX)]
    case SWP =>
      [MemLeaf(MemOperation.LOAD, R2, SP, -1), MemLeaf(MemOperation.LOAD, R3, SP, -2),
       MemLeaf(MemOperation.STORE, R3, SP, -1), MemLeaf(MemOperation.STORE, R2, SP, -2)]
  }

  /** The stack base, `LCONST SP, 0x4000`. */
  const StackBase: u16 := 0x4000

  function PushWords(reg: Register): seq<Word> {
    [Mem(MemOperation.STORE, reg, SP, 0), Alu(INC, SP, SP, ZX)]
  }

  function PopWords(reg: Register): seq<Word> {
    [Mem(MemOperation.LOAD, reg, SP, -1), Alu(DEC, SP, SP, ZX)]
  }

  const DupWords := [Mem(MemOperation.LOAD, R2, SP, -1), Mem(MemOperation.STORE, R2, SP, 0), Alu(INC, SP, SP, ZX)]

  const SwpWords :=
    [Mem(MemOperation.LOAD, R2, SP, -1), Mem(MemOperation.LOAD, R3, SP, -2),
     Mem(MemOperation.STORE, R3, SP, -1), Mem(MemOperation.STORE, R2, SP, -2)]

  const InitWords := LoadConst.Emitted(LoadConst.Load, SP, StackBase) + [Alu(MOV, LP, SP, ZX)]

  /** The words of each operation, written out. */
  function Emitted(op: StackBaseOperation, reg: Register): seq<Word> {
    match op
    case INIT => InitWords
    case PUSH => PushWords(reg)
    case POP => PopWords(reg)
    case DUP => DupWords
    case SWP => SwpWords
  }

  /** `compile`: the sub-instructions compiled in order. Every operation
      compiles, to the words `Emitted` lists: INIT to four, PUSH and POP to
      two, DUP to three, SWP to four. */
  function Compile(ins: StackBaseInstruction): (r: Result<seq<Word>, CompileError>)
    ensures r == Ok(Emitted(ins.op, ins.reg))
    ensures |r.value| == match ins.op case INIT => 4 case PUSH => 2 case POP => 2 case DUP => 3 case SWP => 4
  {
    var ls := Leaves(ins.op, ins.reg);
    match ins.op
    case PUSH => CompilesTo(ls, PushWords(ins.reg)); CompileLeaves(ls)
    case POP => CompilesTo(ls, PopWords(ins.reg)); CompileLeaves(ls)
    case DUP => CompilesTo(ls, DupWords); CompileLeaves(ls)
    case SWP => CompilesTo(ls, SwpWords); CompileLeaves(ls)
    case INIT =>
      CompilesTo(ls, [Alu(MOV, LP, SP, ZX)]);
      match LoadConst.Compile(LoadConst.Load, SP, StackBase)
      case Err(e) => Err(e)
      case Ok(lc) =>
        match CompileLeaves(ls)
        case Err(e) => Err(e)
        case Ok(mv) => Ok(lc + mv)
  }

  // --- What the words do ----------------------------------------------------

  /** PUSH stores the register in the cell SP points at and moves SP one
      cell up: the stack grows towards higher addresses. */
  lemma PushMeaning(reg: Register, image: Image, s: State)
    requires Valid(s) && Holds(image, PushWords(reg), s.pc) && s.pc as int + 2 < 0x1_0000
    ensures var t := Steps(image, s, 2);
      t.Some? && t.value.pc as int == s.pc as int + 2
      && t.value.mem == s.mem[Get(s, SP) := Get(s, reg)]
      && Get(t.value, SP) == WrapAdd(Get(s, SP), 1)
      && Keeps(s, t.value, {SP})
  {
    var w := PushWords(reg);
    HoldsAt(image, w, s.pc, 0);
    HoldsAt(image, w, s.pc, 1);
    StoreStep(image, s, reg, SP, 0);
    var s1 := s.(mem := s.mem[Get(s, SP) := Get(s, reg)], pc := WrapAdd(s.pc, 1));
    AluStep(image, s1, INC, SP, SP, ZX);
    StepsAdd(image, s, 1, 1);
  }

  /** PUSH r run after a block that left `v` in `r`: `v` is pushed. */
  lemma PushAfter(len: nat, n: nat, r: Register, v: u16, image: Image, s: State)
    requires Valid(s) && r != SP && r != PC && r != ZX && s.pc as int + len + 2 < 0x1_0000
    requires Sets(image, s, n, len, r, v)
    requires Holds(image, PushWords(r), Steps(image, s, n).value.pc)
    ensures var t := Steps(image, s, n + 2);
      t.Some? && t.value.pc as int == s.pc as int + len + 2
      && t.value.mem == s.mem[Get(s, SP) := v]
      && Get(t.value, SP) == WrapAdd(Get(s, SP), 1)
      && Get(t.value, r) == v
      && Keeps(s, t.value, {r, SP})
  {
    var t1 := Steps(image, s, n).value;
    PushMeaning(r, image, t1);
    StepsAdd(image, s, n, 2);
    PushComposes(s, t1, Steps(image, t1, 2).value, r);
  }

  /** The state algebra of `PushAfter`. */
  lemma PushComposes(s: State, t: State, u: State, r: Register)
    requires Valid(s) && Valid(t) && Valid(u) && r != SP && r != PC
    requires t.mem == s.mem && Keeps(s, t, {r})
    requires u.mem == t.mem[Get(t, SP) := Get(t, r)] && Get(u, SP) == WrapAdd(Get(t, SP), 1) && Keeps(t, u, {SP})
    ensures u.mem == s.mem[Get(s, SP) := Get(t, r)] && Get(u, SP) == WrapAdd(Get(s, SP), 1)
    ensures Get(u, r) == Get(t, r) && Keeps(s, u, {r, SP})
  {
    assert Get(t, SP) == Get(s, SP);
  }

  /** POP loads the cell below SP into the register and moves SP one cell
      down; memory is unchanged. (POP SP and POP PC are not covered.) */
  lemma PopMeaning(reg: Register, image: Image, s: State)
    requires Valid(s) && reg != SP && reg != PC
    requires Holds(image, PopWords(reg), s.pc) && s.pc as int + 2 < 0x1_0000
    ensures var t := Steps(image, s, 2);
      t.Some? && t.value.pc as int == s.pc as int + 2
      && t.value.mem == s.mem
      && Get(t.value, SP) == WrapSub(Get(s, SP), 1)
      && (reg != ZX ==> Get(t.value, reg) == Read(image, s, WrapSub(Get(s, SP), 1)))
      && Keeps(s, t.value, {SP, reg})
  {
    var w := PopWords(reg);
    HoldsAt(image, w, s.pc, 0);
    HoldsAt(image, w, s.pc, 1);
    LoadStep(image, s, reg, SP, -1);
    var s1 := WriteBack(s, reg, Read(image, s, Offset(Get(s, SP), -1)));
    AluStep(image, s1, DEC, SP, SP, ZX);
    StepsAdd(image, s, 1, 1);
  }

  /** POP undoes PUSH: a PUSH followed by a POP copies the pushed register
      into the popped one and leaves SP where it was. */
  lemma PopAfterPush(src: Register, dst: Register, image: Image, s: State)
    requires Valid(s) && dst != SP && dst != PC && DataCell(image, Get(s, SP))
    requires Holds(image, PushWords(src) + PopWords(dst), s.pc) && s.pc as int + 4 < 0x1_0000
    ensures var t := Steps(image, s, 4);
      t.Some? && t.value.pc as int == s.pc as int + 4
      && Get(t.value, SP) == Get(s, SP)
      && (dst != ZX ==> Get(t.value, dst) == Get(s, src))
      && t.value.mem == s.mem[Get(s, SP) := Get(s, src)]
      && Keeps(s, t.value, {dst})
  {
    HoldsPrefix(image, PushWords(src), PopWords(dst), s.pc);
    PushMeaning(src, image, s);
    var t1 := Steps(image, s, 2).value;
    HoldsSuffix(image, PushWords(src), PopWords(dst), s.pc);
    PopMeaning(dst, image, t1);
    StepsAdd(image, s, 2, 2);
  }

  /** DUP pushes a copy of the top of the stack (through R2). */
  lemma DupMeaning(image: Image, s: State)
    requires Valid(s) && Holds(image, DupWords, s.pc) && s.pc as int + 3 < 0x1_0000
    ensures var t := Steps(image, s, 3); var top := Read(image, s, WrapSub(Get(s, SP), 1));
      t.Some? && t.value.pc as int == s.pc as int + 3
      && t.value.mem == s.mem[Get(s, SP) := top]
      && Get(t.value, SP) == WrapAdd(Get(s, SP), 1)
      && Get(t.value, R2) == top
      && Keeps(s, t.value, {SP, R2})
  {
    var load := [Mem(MemOperation.LOAD, R2, SP, -1)];
    assert DupWords == load + PushWords(R2);
    HoldsAt(image, DupWords, s.pc, 0);
    LoadStep(image, s, R2, SP, -1);
    var s1 := WriteBack(s, R2, Read(image, s, WrapSub(Get(s, SP), 1)));
    HoldsSuffix(image, load, PushWords(R2), s.pc);
    PushMeaning(R2, image, s1);
    StepsAdd(image, s, 1, 2);
  }

  /** SWP's two loads: the two cells below SP into R2 and R3. */
  lemma SwpLoads(image: Image, s: State)
    requires Valid(s) && s.pc as int + 2 < 0x1_0000
    requires Holds(image, [Mem(MemOperation.LOAD, R2, SP, -1), Mem(MemOperation.LOAD, R3, SP, -2)], s.pc)
    ensures var t := Steps(image, s, 2);
      t.Some? && t.value.pc as int == s.pc as int + 2 && t.value.mem == s.mem
      && Get(t.value, R2) == Read(image, s, Offset(Get(s, SP), -1))
      && Get(t.value, R3) == Read(image, s, Offset(Get(s, SP), -2))
      && Keeps(s, t.value, {R2, R3})
  {
    var w := [Mem(MemOperation.LOAD, R2, SP, -1), Mem(MemOperation.LOAD, R3, SP, -2)];
    HoldsAt(image, w, s.pc, 0);
    HoldsAt(image, w, s.pc, 1);
    LoadStep(image, s, R2, SP, -1);
    var s1 := WriteBack(s, R2, Read(image, s, Offset(Get(s, SP), -1)));
    LoadStep(image, s1, R3, SP, -2);
    StepsAdd(image, s, 1, 1);
  }

  /** SWP's two stores: R3 into the cell below SP, R2 into the one below that. */
  lemma SwpStores(image: Image, s: State)
    requires Valid(s) && s.pc as int + 2 < 0x1_0000
    requires Holds(image, [Mem(MemOperation.STORE, R3, SP, -1), Mem(MemOperation.STORE, R2, SP, -2)], s.pc)
    ensures var t := Steps(image, s, 2);
      t.Some? && t.value.pc as int == s.pc as int + 2
      && t.value.mem == s.mem[Offset(Get(s, SP), -1) := Get(s, R3)][Offset(Get(s, SP), -2) := Get(s, R2)]
      && Keeps(s, t.value, {})
  {
    var w := [Mem(MemOperation.STORE, R3, SP, -1), Mem(MemOperation.STORE, R2, SP, -2)];
    HoldsAt(image, w, s.pc, 0);
    HoldsAt(image, w, s.pc, 1);
    StoreStep(image, s, R3, SP, -1);
    var s1 := s.(mem := s.mem[Offset(Get(s, SP), -1) := Get(s, R3)], pc := WrapAdd(s.pc, 1));
    assert Get(s1, SP) == Get(s, SP) && Get(s1, R2) == Get(s, R2);
    StoreStep(image, s1, R2, SP, -2);
    StepsAdd(image, s, 1, 1);
  }

  /** SWP exchanges the two cells below SP (through R2 and R3) and leaves
      SP where it was. */
  lemma SwpMeaning(image: Image, s: State)
    requires Valid(s) && Holds(image, SwpWords, s.pc) && s.pc as int + 4 < 0x1_0000
    ensures var t := Steps(image, s, 4);
      var a1 := Offset(Get(s, SP), -1); var a2 := Offset(Get(s, SP), -2);
      var v1 := Read(image, s, a1); var v2 := Read(image, s, a2);
      t.Some? && t.value.pc as int == s.pc as int + 4
      && t.value.mem == s.mem[a1 := v2][a2 := v1]
      && Get(t.value, SP) == Get(s, SP)
      && Get(t.value, R2) == v1 && Get(t.value, R3) == v2
      && Keeps(s, t.value, {R2, R3})
  {
    var loads := [Mem(MemOperation.LOAD, R2, SP, -1), Mem(MemOperation.LOAD, R3, SP, -2)];
    var stores := [Mem(MemOperation.STORE, R3, SP, -1), Mem(MemOperation.STORE, R2, SP, -2)];
    assert SwpWords == loads + stores;
    HoldsPrefix(image, loads, stores, s.pc);
    SwpLoads(image, s);
    var s2 := Steps(image, s, 2).value;
    HoldsSuffix(image, loads, stores, s.pc);
    SwpStores(image, s2);
    StepsAdd(image, s, 2, 2);
  }

  /** After SWP the two cells read back exchanged, when they are data
      cells. */
  lemma SwpExchanges(image: Image, s: State)
    requires Valid(s) && Holds(image, SwpWords, s.pc) && s.pc as int + 4 < 0x1_0000
    requires DataCell(image, Offset(Get(s, SP), -1)) && DataCell(image, Offset(Get(s, SP), -2))
    ensures var t := Steps(image, s, 4);
      var a1 := Offset(Get(s, SP), -1); var a2 := Offset(Get(s, SP), -2);
      t.Some? && Read(image, t.value, a1) == Read(image, s, a2) && Read(image, t.value, a2) == Read(image, s, a1)
  {
    SwpMeaning(image, s);
  }

  /** INIT puts both SP and LP at the stack base 0x4000. */
  lemma InitMeaning(image: Image, s: State)
    requires Valid(s) && Holds(image, InitWords, s.pc) && s.pc as int + 4 < 0x1_0000
    ensures var t := Steps(image, s, 3);
      t.Some? && t.value.pc as int == s.pc as int + 4
      && Get(t.value, SP) == StackBase && Get(t.value, LP) == StackBase
      && t.value.mem == s.mem
      && Keeps(s, t.value, {SP, LP})
  {
    var lc := LoadConst.Emitted(LoadConst.Load, SP, StackBase);
    var mv := [Alu(MOV, LP, SP, ZX)];
    assert |lc| == 3 && LoadConst.StepCount(LoadConst.Load, SP, StackBase) == 2;
    HoldsPrefix(image, lc, mv, s.pc);
    LoadConst.CompiledMeaning(LoadConst.Load, SP, StackBase, image, s);
    var t1 := Steps(image, s, 2).value;
    HoldsSuffix(image, lc, mv, s.pc);
    HoldsAt(image, mv, t1.pc, 0);
    AluStep(image, t1, MOV, LP, SP, ZX);
    StepsAdd(image, s, 2, 1);
  }
}
