// `LLABEL dst, label` (easycpu_lib/src/asm/load_label.rs): puts the address
// of a label into a register. The label resolves to its offset from the
// instruction's first word; `MOV dst, PC` puts that word's address into
// `dst` and `ACONST dst, offset` adds the offset. For dst = PC the MOV is
// left out and the ACONST jumps to the label.
module LoadLabel {
  import opened Base
  import opened Cpu
  import opened Errors
  import opened Words
  import opened Semantics
  import LoadConst

  /** `LoadLabelInstruction`, over the unresolved label type `L`. */
  datatype LoadLabelInstruction<L> = LoadLabelInstruction(dst: Register, target: L)

  /** `parse_asm`: the register is read before the label, so its error wins.
      The operand readers are not part of this model; `register` and
      `target` are what the two reads return. */
  function ParseAsm<L>(register: Result<Register, CompileError>, target: Result<L, CompileError>)
    : (r: Result<LoadLabelInstruction<L>, CompileError>)
    ensures register.Err? ==> r == Err(register.error)
    ensures register.Ok? && target.Err? ==> r == Err(target.error)
    ensures register.Ok? && target.Ok? ==> r == Ok(LoadLabelInstruction(register.value, target.value))
  {
    match register
    case Err(e) => Err(e)
    case Ok(dst) =>
      match target
      case Err(e) => Err(e)
      case Ok(t) => Ok(LoadLabelInstruction(dst, t))
  }

  /** The MOV that copies the instruction's address, absent for dst = PC. */
  function Prefix(dst: Register): (w: seq<Word>)
    ensures |w| == (if dst == PC then 0 else 1)
  {
    if dst != PC then [Alu(MOV, dst, PC, ZX)] else []
  }

  /** `compile` with the label already resolved to `offset` (or the
      resolution error, which aborts the compile). */
  function Compile(dst: Register, offset: Result<u16, CompileError>): (r: Result<seq<Word>, CompileError>)
    ensures offset.Err? ==> r == Err(offset.error)
    ensures offset.Ok? ==> r.Ok? && r.value == Prefix(dst) + LoadConst.Emitted(LoadConst.Add, dst, offset.value)
    ensures offset.Ok? ==> 1 <= |r.value| <= 4
  {
    match offset
    case Err(e) => Err(e)
    case Ok(off) =>
      match LoadConst.Compile(LoadConst.Add, dst, off)
      case Err(e) => Err(e)
      case Ok(ll) => Ok(Prefix(dst) + ll)
  }

  /** Steps until control leaves the sequence: the MOV, then the ACONST's. */
  function StepCount(dst: Register, off: u16): nat {
    (if dst == PC then 0 else 1) + LoadConst.StepCount(LoadConst.Add, dst, off)
  }

  /** Running the compiled words from their first address leaves the label's
      address (the first word plus the offset) in `dst`, changes no other
      register and no memory, and continues after the sequence unless `dst`
      is PC, in which case it is at the label. */
  lemma CompiledMeaning(dst: Register, off: u16, image: Image, s: State)
    requires Valid(s) && dst != ZX
    requires Holds(image, Compile(dst, Ok(off)).value, s.pc)
    requires s.pc as int + |Compile(dst, Ok(off)).value| < 0x1_0000
    ensures var t := Steps(image, s, StepCount(dst, off));
      t.Some?
      && Get(t.value, dst) == WrapAdd(s.pc, off)
      && (dst != PC ==> t.value.pc as int == s.pc as int + |Compile(dst, Ok(off)).value|)
      && (forall q :: q != dst && q != PC ==> Get(t.value, q) == Get(s, q))
      && t.value.mem == s.mem
  {
    if dst == PC {
      assert Compile(dst, Ok(off)).value == LoadConst.Emitted(LoadConst.Add, PC, off);
      LoadConst.CompiledMeaning(LoadConst.Add, PC, off, image, s);
    } else {
      RegisterMeaning(dst, off, image, s);
    }
  }

  lemma RegisterMeaning(dst: Register, off: u16, image: Image, s: State)
    requires Valid(s) && dst != ZX && dst != PC
    requires Holds(image, Compile(dst, Ok(off)).value, s.pc)
    requires s.pc as int + |Compile(dst, Ok(off)).value| < 0x1_0000
    ensures var t := Steps(image, s, StepCount(dst, off));
      t.Some?
      && Get(t.value, dst) == WrapAdd(s.pc, off)
      && t.value.pc as int == s.pc as int + |Compile(dst, Ok(off)).value|
      && (forall q :: q != dst && q != PC ==> Get(t.value, q) == Get(s, q))
      && t.value.mem == s.mem
  {
    var ll := LoadConst.Emitted(LoadConst.Add, dst, off);
    var w := [Alu(MOV, dst, PC, ZX)] + ll;
    assert Compile(dst, Ok(off)).value == w;
    var s1 := CopyPc(dst, w, image, s);
    HoldsSuffix(image, [Alu(MOV, dst, PC, ZX)], ll, s.pc);
    LoadConst.CompiledMeaning(LoadConst.Add, dst, off, image, s1);
    StepsAdd(image, s, 1, LoadConst.StepCount(LoadConst.Add, dst, off));
  }

  /** The first step, `MOV dst, PC`, copies the instruction's address. */
  lemma CopyPc(dst: Register, w: seq<Word>, image: Image, s: State) returns (s1: State)
    requires Valid(s) && dst != ZX && dst != PC
    requires |w| > 0 && w[0] == Alu(MOV, dst, PC, ZX)
    requires Holds(image, w, s.pc) && s.pc as int + |w| < 0x1_0000
    ensures Valid(s1) && Steps(image, s, 1) == Some(s1)
    ensures s1.pc == At(s.pc, 1) && Get(s1, dst) == s.pc && s1.mem == s.mem
    ensures forall q :: q != dst && q != PC ==> Get(s1, q) == Get(s, q)
  {
    HoldsAt(image, w, s.pc, 0);
    s1 := WriteBack(s, dst, s.pc);
  }
}
