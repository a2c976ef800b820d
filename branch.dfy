// The assembler's BRANCH instruction (easycpu_lib/src/asm/branch.rs): a
// builder whose setters overwrite the three condition flags in place, and a
// compile step that validates the shift through the machine encoder.
module Branch {
  import opened Base
  import opened Cpu
  import opened Errors
  import opened Words

  // --- Range check of `BranchInstruction::new` -----------------------------

  /** The check as written: `(shift < -31) && (shift > 31)`, which no shift
      satisfies, so `new` never fails. */
  function NewCheckAsWritten(shift: i8): (r: Result<(), CompileError>)
  {
    if shift < -31 && shift > 31 then Err(ShiftIsTooBig(shift)) else Ok(())
  }

  lemma NewCheckAsWrittenNeverFails(shift: i8)
    ensures NewCheckAsWritten(shift).Ok?
  {
  }

  /** An input the written check lets through although it cannot be encoded. */
  lemma NewCheckAsWrittenAccepts100()
    ensures NewCheckAsWritten(100).Ok?
    ensures Encode(BRANCH(BranchInstruction(true, true, true, ZX, 100))).Err?
  {
  }

  /** The evidently intended check, `(shift < -31) || (shift > 31)`. */
  function NewCheck(shift: i8): (r: Result<(), CompileError>)
    ensures r.Ok? <==> -31 <= shift <= 31
    ensures r.Err? ==> r.error == ShiftIsTooBig(shift)
  {
    if shift < -31 || shift > 31 then Err(ShiftIsTooBig(shift)) else Ok(())
  }

  /** `BranchInstruction::new` with the corrected check: all three flags set. */
  function NewValue(cond: Register, shift: i8): (r: Result<BranchInstruction, CompileError>)
    ensures r.Ok? <==> -31 <= shift <= 31
    ensures r.Ok? ==> r.value == BranchInstruction(true, true, true, cond, shift)
    ensures r.Ok? ==> ValidShift(BRANCH(r.value))
  {
    match NewCheck(shift)
    case Err(e) => Err(e)
    case Ok(_) => Ok(BranchInstruction(true, true, true, cond, shift))
  }

  /** A branch the corrected `new` accepts always passes the encoder's validation. */
  lemma NewValueEncodes(cond: Register, shift: i8)
    requires NewValue(cond, shift).Ok?
    ensures Encode(BRANCH(NewValue(cond, shift).value)).Ok?
  {
  }

  // --- Flag letters --------------------------------------------------------

  /** `set_flags_from_str`: when any of `E`, `G`, `L` occurs, each flag becomes
      "its letter occurs"; otherwise the flags are left alone. */
  function FlagsFromStr(b: BranchInstruction, s: string): (r: BranchInstruction)
    ensures r.cond == b.cond && r.shift == b.shift
    ensures ('E' in s || 'G' in s || 'L' in s) ==> (r.eq <==> 'E' in s) && (r.gt <==> 'G' in s) && (r.lt <==> 'L' in s)
    ensures !('E' in s || 'G' in s || 'L' in s) ==> r == b
  {
    if Contains(s, 'E') || Contains(s, 'G') || Contains(s, 'L') then
      b.(eq := Contains(s, 'E'), gt := Contains(s, 'G'), lt := Contains(s, 'L'))
    else b
  }

  /** Applying the same flag string twice changes nothing more. */
  lemma {:induction false} FlagsFromStrIdempotent(b: BranchInstruction, s: string)
    ensures FlagsFromStr(FlagsFromStr(b, s), s) == FlagsFromStr(b, s)
  {
    var once := FlagsFromStr(b, s);
    if 'E' in s || 'G' in s || 'L' in s {
      assert once.eq == ('E' in s) && once.gt == ('G' in s) && once.lt == ('L' in s);
    } else {
      assert once == b;
    }
  }

  // --- Compilation ---------------------------------------------------------

  /** `compile`: one BRANCH word, or the encoder's validation error. */
  function Compile(b: BranchInstruction): (r: Result<seq<Word>, CompileError>)
    ensures r.Ok? <==> -31 <= b.shift <= 31
    ensures r.Ok? ==> r.value == [Machine(BRANCH(b))] && Encode(BRANCH(b)).Ok?
    ensures r.Err? ==> r.error == InvalidInstruction(InvalidShift)
  {
    match Validate(BRANCH(b))
    case Err(e) => Err(InvalidInstruction(e))
    case Ok(_) => Ok([Machine(BRANCH(b))])
  }

  /** The mutable builder `BranchInstruction`. */
  class BranchBuilder {
    var eq: bool
    var gt: bool
    var lt: bool
    var cond: Register
    var shift: i8

    function Value(): BranchInstruction
      reads this
    {
      BranchInstruction(eq, gt, lt, cond, shift)
    }

    constructor (b: BranchInstruction)
      ensures Value() == b
    {
      eq, gt, lt, cond, shift := b.eq, b.gt, b.lt, b.cond, b.shift;
    }

    /** `set_flags`: overwrites the three flags, nothing else. */
    method SetFlags(e: bool, g: bool, l: bool)
      modifies this
      ensures Value() == old(Value()).(eq := e, gt := g, lt := l)
    {
      eq, gt, lt := e, g, l;
    }

    /** `set_flags_from_str`. */
    method SetFlagsFromStr(s: string)
      modifies this
      ensures Value() == FlagsFromStr(old(Value()), s)
      ensures cond == old(cond) && shift == old(shift)
    {
      if Contains(s, 'E') || Contains(s, 'G') || Contains(s, 'L') {
        SetFlags(Contains(s, 'E'), Contains(s, 'G'), Contains(s, 'L'));
      }
    }
  }

  /** `BranchInstruction::new` (with the corrected range check). */
  method New(cond: Register, shift: i8) returns (r: Result<BranchBuilder, CompileError>)
    ensures r.Ok? <==> NewValue(cond, shift).Ok?
    ensures r.Ok? ==> fresh(r.value) && r.value.Value() == NewValue(cond, shift).value
    ensures r.Err? ==> r.error == ShiftIsTooBig(shift)
  {
    var v := NewValue(cond, shift);
    if v.Err? {
      return Err(v.error);
    }
    var b := new BranchBuilder(v.value);
    return Ok(b);
  }

  /** `BranchInstruction::parse_asm`: the condition register is read before
      the shift, so its error wins; then `new`, then the flag letters. The
      operand readers (`ParseParts`) are not part of this model and arrive as
      their results. */
  method ParseAsm(flags: string, cond: Result<Register, CompileError>, shift: Result<i8, CompileError>)
    returns (r: Result<BranchBuilder, CompileError>)
    ensures cond.Err? ==> r == Err(cond.error)
    ensures cond.Ok? && shift.Err? ==> r == Err(shift.error)
    ensures cond.Ok? && shift.Ok? ==> (r.Ok? <==> -31 <= shift.value <= 31)
    ensures cond.Ok? && shift.Ok? && r.Ok? ==>
      fresh(r.value) && r.value.Value() == ParsedValue(flags, cond.value, shift.value)
  {
    if cond.Err? { return Err(cond.error); }
    if shift.Err? { return Err(shift.error); }
    r := New(cond.value, shift.value);
    if r.Ok? {
      r.value.SetFlagsFromStr(flags);
    }
  }

  /** What `parse_asm` builds from accepted operands. */
  function ParsedValue(flags: string, cond: Register, shift: i8): (b: BranchInstruction)
    ensures b.cond == cond && b.shift == shift
    ensures !('E' in flags || 'G' in flags || 'L' in flags) ==> b.eq && b.gt && b.lt
  {
    FlagsFromStr(BranchInstruction(true, true, true, cond, shift), flags)
  }
}
