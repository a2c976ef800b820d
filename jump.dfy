// The jump macros JMP, JEQ, JGT, JLT, JLE, JGE, JNE
// (easycpu_lib/src/asm/jump.rs). A target within 31 words becomes one
// BRANCH; any other target becomes a BRANCH on the complemented condition
// that skips a long jump, `ACONST PC, offset - 1`.
module Jump {
  import opened Base
  import opened Cpu
  import opened Errors
  import opened Words
  import opened Semantics
  import Branch
  import LoadConst

  datatype JumpOperation = JMP | JEQ | JGT | JLT | JLE | JGE | JNE

  datatype FlagTriple = FlagTriple(eq: bool, gt: bool, lt: bool)

  /** `get_flags`: the conditions (zero, positive, negative) each jump takes. */
  function Flags(op: JumpOperation): FlagTriple {
    match op
    case JMP => FlagTriple(true, true, true)
    case JEQ => FlagTriple(true, false, false)
    case JGT => FlagTriple(false, true, false)
    case JLT => FlagTriple(false, false, true)
    case JGE => FlagTriple(true, true, false)
    case JLE => FlagTriple(true, false, true)
    case JNE => FlagTriple(false, true, true)
  }

  function Complement(f: FlagTriple): FlagTriple {
    FlagTriple(!f.eq, !f.gt, !f.lt)
  }

  /** JEQ/JNE, JGT/JLE and JLT/JGE test complementary conditions, and JMP
      tests every condition. */
  lemma FlagsComplementary()
    ensures Complement(Flags(JEQ)) == Flags(JNE) && Complement(Flags(JNE)) == Flags(JEQ)
    ensures Complement(Flags(JGT)) == Flags(JLE) && Complement(Flags(JLE)) == Flags(JGT)
    ensures Complement(Flags(JLT)) == Flags(JGE) && Complement(Flags(JGE)) == Flags(JLT)
    ensures Flags(JMP) == FlagTriple(true, true, true)
  {
  }

  /** `parse_operation`. */
  function ParseOperation(s: string): (r: Option<JumpOperation>)
    ensures r.Some? <==> s in {"JMP", "JEQ", "JGT", "JLT", "JLE", "JGE", "JNE"}
    ensures r == Some(JMP) <==> s == "JMP"
    ensures r == Some(JNE) <==> s == "JNE"
  {
    match s
    case "JMP" => Some(JMP)
    case "JEQ" => Some(JEQ)
    case "JGT" => Some(JGT)
    case "JLT" => Some(JLT)
    case "JLE" => Some(JLE)
    case "JGE" => Some(JGE)
    case "JNE" => Some(JNE)
    case _ => None
  }

  /** `JumpInstruction`, over the unresolved label type `L`. */
  datatype JumpInstruction<L> = JumpInstruction(op: JumpOperation, targ: L, cond: Register)

  /** `parse_asm`: JMP tests ZX and reads only the label; the others read a
      register and then the label. The operand readers are not part of this
      model: `register` and `target` are what the reads return in that order. */
  function ParseAsm<L>(op: JumpOperation, register: Result<Register, CompileError>, target: Result<L, CompileError>)
    : (r: Result<JumpInstruction<L>, CompileError>)
    ensures op == JMP ==> r == (if target.Err? then Err(target.error) else Ok(JumpInstruction(JMP, target.value, ZX)))
    ensures op != JMP && register.Err? ==> r == Err(register.error)
    ensures op != JMP && register.Ok? && target.Err? ==> r == Err(target.error)
    ensures op != JMP && register.Ok? && target.Ok? ==> r == Ok(JumpInstruction(op, target.value, register.value))
  {
    var cond :- if op == JMP then Ok(ZX) else register;
    var targ :- target;
    Ok(JumpInstruction(op, targ, cond))
  }

  /** `convert_u16_to_shift`: a wrapped word offset as a BRANCH shift. */
  function ConvertToShift(inp: u16): (r: Result<i8, CompileError>)
    ensures r.Ok? <==> inp < 32 || inp > 0xFFE0
    ensures r.Ok? ==> r.value as int == if inp < 32 then inp as int else inp as int - 0x1_0000
    ensures r.Ok? ==> -31 <= r.value <= 31
    ensures r.Err? ==> r.error == ShiftIsTooBig(0x7f)
  {
    if inp < 32 then Ok(inp as int as i8)
    else if inp > 0xFFE0 then
      var conv := WrapSub(0xFFFF, inp) as int as i8;
      Ok(-conv - 1)
    else Err(ShiftIsTooBig(0x7f))
  }

  /** A converted shift moves any address exactly as the wrapped offset does. */
  lemma ShiftMeaning(inp: u16, a: u16)
    requires ConvertToShift(inp).Ok?
    ensures Offset(a, ConvertToShift(inp).value) == WrapAdd(a, inp)
  {
  }

  function WithFlags(b: BranchInstruction, f: FlagTriple): BranchInstruction {
    b.(eq := f.eq, gt := f.gt, lt := f.lt)
  }

  /** The long jump: `ACONST PC, targ - 1`, placed one word after the jump. */
  function LongJump(targ: u16): seq<Word> {
    LoadConst.Emitted(LoadConst.Add, PC, WrapSub(targ, 1))
  }

  /** `JumpInstruction::compile` with the label already resolved to the
      offset `targ` from the jump's own address (or the resolution error). */
  function Compile(op: JumpOperation, cond: Register, targ: Result<u16, CompileError>): (r: Result<seq<Word>, CompileError>)
    ensures targ.Err? ==> r == Err(targ.error)
    ensures targ.Ok? && ConvertToShift(targ.value).Ok? ==>
      r == Ok([Machine(BRANCH(WithFlags(BranchInstruction(true, true, true, cond, ConvertToShift(targ.value).value), Flags(op))))])
    ensures targ.Ok? && ConvertToShift(targ.value).Err? ==>
      var ll := LongJump(targ.value);
      2 <= 1 + |ll| <= 4 &&
      r == Ok([Machine(BRANCH(WithFlags(BranchInstruction(true, true, true, cond, (|ll| + 1) as i8), Complement(Flags(op)))))] + ll)
  {
    match targ
    case Err(e) => Err(e)
    case Ok(t) =>
      var f := Flags(op);
      match ConvertToShift(t)
      case Ok(converted) =>
        (match Branch.NewValue(cond, converted)
         case Err(e) => Err(e)
         case Ok(b) => Branch.Compile(WithFlags(b, f)))
      case Err(_) =>
        match LoadConst.Compile(LoadConst.Add, PC, WrapSub(t, 1))
        case Err(e) => Err(e)
        case Ok(ll) =>
          match Branch.NewValue(cond, |ll| as i8 + 1)
          case Err(e) => Err(e)
          case Ok(b) =>
            match Branch.Compile(WithFlags(b, Complement(f)))
            case Err(e) => Err(e)
            case Ok(br) => Ok(br + ll)
  }

  /** The jump's condition holds for the value of its condition register. */
  predicate Jumps(op: JumpOperation, cond: Register, s: State)
    requires Valid(s)
  {
    Taken(WithFlags(BranchInstruction(true, true, true, cond, 0), Flags(op)), Get(s, cond))
  }

  /** The number of words run before control leaves the jump: one, unless
      the long jump is taken. */
  function StepCount(op: JumpOperation, cond: Register, targ: u16, s: State): nat
    requires Valid(s)
  {
    if ConvertToShift(targ).Ok? then 1 else if Jumps(op, cond, s) then 2 else 1
  }

  /** What the jump achieves, in either form: control moves `targ` words
      from the jump when the condition register satisfies the jump's
      condition, and to the word after the sequence otherwise; no register
      other than PC and no memory cell changes. */
  lemma CompiledMeaning(op: JumpOperation, cond: Register, targ: u16, image: Image, s: State)
    requires Valid(s)
    requires Holds(image, Compile(op, cond, Ok(targ)).value, s.pc)
    requires s.pc as int + |Compile(op, cond, Ok(targ)).value| < 0x1_0000
    ensures var t := Steps(image, s, StepCount(op, cond, targ, s));
      t.Some?
      && (Jumps(op, cond, s) ==> t.value.pc == WrapAdd(s.pc, targ))
      && (!Jumps(op, cond, s) ==> t.value.pc as int == s.pc as int + |Compile(op, cond, Ok(targ)).value|)
      && (forall q :: q != PC ==> Get(t.value, q) == Get(s, q))
      && t.value.mem == s.mem
  {
    if ConvertToShift(targ).Ok? {
      ShortMeaning(op, cond, targ, image, s);
    } else {
      LongMeaning(op, cond, targ, image, s);
    }
  }

  /** The short form: one BRANCH by the converted shift. */
  lemma ShortMeaning(op: JumpOperation, cond: Register, targ: u16, image: Image, s: State)
    requires Valid(s) && ConvertToShift(targ).Ok?
    requires Holds(image, Compile(op, cond, Ok(targ)).value, s.pc)
    requires s.pc as int + |Compile(op, cond, Ok(targ)).value| < 0x1_0000
    ensures StepCount(op, cond, targ, s) == 1
    ensures var t := Steps(image, s, 1);
      t.Some?
      && (Jumps(op, cond, s) ==> t.value.pc == WrapAdd(s.pc, targ))
      && (!Jumps(op, cond, s) ==> t.value.pc as int == s.pc as int + |Compile(op, cond, Ok(targ)).value|)
      && (forall q :: q != PC ==> Get(t.value, q) == Get(s, q))
      && t.value.mem == s.mem
  {
    var b := WithFlags(BranchInstruction(true, true, true, cond, ConvertToShift(targ).value), Flags(op));
    assert Compile(op, cond, Ok(targ)).value == [Machine(BRANCH(b))];
    HoldsAt(image, [Machine(BRANCH(b))], s.pc, 0);
    ShiftMeaning(targ, s.pc);
    OneBranch(b, image, s);
  }

  /** The long form: the complemented BRANCH skips the long jump when the
      condition fails, and falls into it when the condition holds. */
  lemma LongMeaning(op: JumpOperation, cond: Register, targ: u16, image: Image, s: State)
    requires Valid(s) && ConvertToShift(targ).Err?
    requires Holds(image, Compile(op, cond, Ok(targ)).value, s.pc)
    requires s.pc as int + |Compile(op, cond, Ok(targ)).value| < 0x1_0000
    ensures var t := Steps(image, s, StepCount(op, cond, targ, s));
      t.Some?
      && (Jumps(op, cond, s) ==> t.value.pc == WrapAdd(s.pc, targ))
      && (!Jumps(op, cond, s) ==> t.value.pc as int == s.pc as int + |Compile(op, cond, Ok(targ)).value|)
      && (forall q :: q != PC ==> Get(t.value, q) == Get(s, q))
      && t.value.mem == s.mem
  {
    if Jumps(op, cond, s) {
      LongJumpTaken(op, cond, targ, image, s);
    } else {
      LongJumpSkipped(op, cond, targ, image, s);
    }
  }

  /** The complemented BRANCH of the long form, and its block. */
  function LongBranch(op: JumpOperation, cond: Register, targ: u16): (b: BranchInstruction)
    requires ConvertToShift(targ).Err?
    ensures Compile(op, cond, Ok(targ)).value == [Machine(BRANCH(b))] + LongJump(targ)
    ensures b.cond == cond && b.shift as int == 1 + |LongJump(targ)|
  {
    WithFlags(BranchInstruction(true, true, true, cond, (|LongJump(targ)| + 1) as i8), Complement(Flags(op)))
  }

  lemma LongJumpTaken(op: JumpOperation, cond: Register, targ: u16, image: Image, s: State)
    requires Valid(s) && ConvertToShift(targ).Err? && Jumps(op, cond, s)
    requires Holds(image, Compile(op, cond, Ok(targ)).value, s.pc)
    requires s.pc as int + |Compile(op, cond, Ok(targ)).value| < 0x1_0000
    ensures StepCount(op, cond, targ, s) == 2
    ensures var t := Steps(image, s, 2);
      t.Some?
      && t.value.pc == WrapAdd(s.pc, targ)
      && (forall q :: q != PC ==> Get(t.value, q) == Get(s, q))
      && t.value.mem == s.mem
  {
    var b := LongBranch(op, cond, targ);
    TakenComplement(WithFlags(BranchInstruction(true, true, true, cond, 0), Flags(op)), Get(s, cond));
    LongTaken(b, targ, image, s);
  }

  lemma LongJumpSkipped(op: JumpOperation, cond: Register, targ: u16, image: Image, s: State)
    requires Valid(s) && ConvertToShift(targ).Err? && !Jumps(op, cond, s)
    requires Holds(image, Compile(op, cond, Ok(targ)).value, s.pc)
    requires s.pc as int + |Compile(op, cond, Ok(targ)).value| < 0x1_0000
    ensures StepCount(op, cond, targ, s) == 1
    ensures var t := Steps(image, s, 1);
      t.Some?
      && t.value.pc as int == s.pc as int + |Compile(op, cond, Ok(targ)).value|
      && (forall q :: q != PC ==> Get(t.value, q) == Get(s, q))
      && t.value.mem == s.mem
  {
    var b := LongBranch(op, cond, targ);
    var w := Compile(op, cond, Ok(targ)).value;
    TakenComplement(WithFlags(BranchInstruction(true, true, true, cond, 0), Flags(op)), Get(s, cond));
    HoldsAt(image, w, s.pc, 0);
    LongSkipped(b, |w|, image, s);
  }

  /** A block starting with a BRANCH: one step either jumps by its shift or
      falls through. */
  lemma OneBranch(b: BranchInstruction, image: Image, s: State)
    requires Valid(s) && s.pc in image && image[s.pc] == Machine(BRANCH(b)) && s.pc < 0xFFFF
    ensures var t := Steps(image, s, 1);
      t.Some?
      && t.value.pc == (if Taken(b, Get(s, b.cond)) then Offset(s.pc, b.shift) else s.pc + 1)
      && (forall q :: q != PC ==> Get(t.value, q) == Get(s, q))
      && t.value.mem == s.mem
  {
  }

  /** A BRANCH over the rest of its block that is not taken. */
  lemma LongSkipped(b: BranchInstruction, len: nat, image: Image, s: State)
    requires Valid(s) && s.pc in image && image[s.pc] == Machine(BRANCH(b)) && s.pc < 0xFFFF
    requires Taken(b, Get(s, b.cond)) && b.shift as int == len && s.pc as int + len < 0x1_0000
    ensures var t := Steps(image, s, 1);
      t.Some?
      && t.value.pc as int == s.pc as int + len
      && (forall q :: q != PC ==> Get(t.value, q) == Get(s, q))
      && t.value.mem == s.mem
  {
    OneBranch(b, image, s);
  }

  /** The complemented BRANCH falls through and the long jump runs. */
  lemma LongTaken(b: BranchInstruction, targ: u16, image: Image, s: State)
    requires Valid(s) && ConvertToShift(targ).Err? && !Taken(b, Get(s, b.cond))
    requires Holds(image, [Machine(BRANCH(b))] + LongJump(targ), s.pc)
    requires s.pc as int + 1 + |LongJump(targ)| < 0x1_0000
    ensures var t := Steps(image, s, 2);
      t.Some?
      && t.value.pc == WrapAdd(s.pc, targ)
      && (forall q :: q != PC ==> Get(t.value, q) == Get(s, q))
      && t.value.mem == s.mem
  {
    var ll := LongJump(targ);
    HoldsAt(image, [Machine(BRANCH(b))] + ll, s.pc, 0);
    var s1 := Step(image, s).value;
    assert s1 == s.(pc := At(s.pc, 1));
    HoldsSuffix(image, [Machine(BRANCH(b))], ll, s.pc);
    var t1 := WrapSub(targ, 1);
    LoadConst.CompiledMeaning(LoadConst.Add, PC, t1, image, s1);
    assert LoadConst.StepCount(LoadConst.Add, PC, t1) == 1;
    StepsAdd(image, s, 1, 1);
  }
}
