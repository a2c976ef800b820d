// The easyCpu machine instruction set and its 16-bit encoder
// (toolkit/src/cpu.rs; easycpu_lib uses an identical `cpu` module).
//
// Word layout, most significant nibble first:
//   NOP    0000 0000 0000 0000
//   BRANCH 0001 e g l ccc s aaaaa     (s = shift is negative, a = |shift|)
//   LOAD   0010 h l w ddd rrr s aa
//   STORE  0011 h l w ddd rrr s aa
//   AND    0100 x y o ddd aaa bbb
//   ADD    0101 x y o ddd aaa bbb
//   CUSTOM the raw 16-bit word
module Cpu {
  import opened Base

  datatype Register = ZX | PC | R2 | R3 | R4 | R5 | LP | SP

  /** The discriminant `r as u16`. */
  function Code(r: Register): (c: bv16)
    ensures c < 8
  {
    match r
    case ZX => 0 case PC => 1 case R2 => 2 case R3 => 3
    case R4 => 4 case R5 => 5 case LP => 6 case SP => 7
  }

  /** The register whose discriminant is `c` (the inverse of `Code`). */
  function RegisterOf(c: bv16): (r: Register)
    requires c < 8
    ensures Code(r) == c
  {
    if c == 0 then ZX else if c == 1 then PC else if c == 2 then R2
    else if c == 3 then R3 else if c == 4 then R4 else if c == 5 then R5
    else if c == 6 then LP else SP
  }

  lemma CodeInjective(r: Register, q: Register)
    ensures Code(r) == Code(q) <==> r == q
  {
    if Code(r) == Code(q) {
      assert RegisterOf(Code(r)) == r by { RegisterRoundTrip(r); }
      assert RegisterOf(Code(q)) == q by { RegisterRoundTrip(q); }
    }
  }

  lemma RegisterRoundTrip(r: Register)
    ensures RegisterOf(Code(r)) == r
  {
    match r
    case ZX => case PC => case R2 => case R3 =>
    case R4 => case R5 => case LP => case SP =>
  }

  datatype AluInstruction = AluInstruction(nx: bool, ny: bool, no: bool, dst: Register, srcA: Register, srcB: Register)

  datatype MemInstruction = MemInstruction(hi: bool, lo: bool, sw: bool, dst: Register, addr: Register, shift: i8)

  datatype BranchInstruction = BranchInstruction(eq: bool, gt: bool, lt: bool, cond: Register, shift: i8)

  datatype Instruction =
    | NOP
    | AND(alu: AluInstruction)
    | ADD(alu: AluInstruction)
    | LOAD(mem: MemInstruction)
    | STORE(mem: MemInstruction)
    | BRANCH(branch: BranchInstruction)
    | CUSTOM(raw: u16)

  datatype InstructionError = InvalidShift

  function Bit(b: bool): (w: bv16)
    ensures w < 2
  {
    if b then 1 else 0
  }

  /** `|x|` as an exact integer: the absolute value the validators mean. */
  function Abs(x: i8): (r: nat)
    ensures r <= 128
    ensures r as int == x as int || r as int == - (x as int)
  {
    if x < 0 then - (x as int) else x as int
  }

  function U16ToWord(x: u16): bv16 { x as int as bv16 }

  function EncodeAlu(ins: AluInstruction): (w: bv16)
    ensures w < 0x1000
  {
    (Bit(ins.nx) << 11) | (Bit(ins.ny) << 10) | (Bit(ins.no) << 9)
    | (Code(ins.dst) << 6) | (Code(ins.srcA) << 3) | Code(ins.srcB)
  }

  /** MEM payload; the shift magnitude is placed as the validated two bits. */
  function EncodeMem(ins: MemInstruction): (w: bv16)
    requires Abs(ins.shift) < 4
    ensures w < 0x1000
  {
    (Bit(ins.hi) << 11) | (Bit(ins.lo) << 10) | (Bit(ins.sw) << 9)
    | (Code(ins.dst) << 6) | (Code(ins.addr) << 3)
    | (Bit(ins.shift < 0) << 2) | (Abs(ins.shift) as bv16)
  }

  function EncodeBranch(ins: BranchInstruction): (w: bv16)
    requires Abs(ins.shift) <= 31
    ensures w < 0x1000
  {
    (Bit(ins.eq) << 11) | (Bit(ins.gt) << 10) | (Bit(ins.lt) << 9)
    | (Code(ins.cond) << 6) | (Bit(ins.shift < 0) << 5) | (Abs(ins.shift) as bv16)
  }

  /** `MemInstruction::validate` and `BranchInstruction::validate`, with the
      absolute value taken exactly (see `AbsWrapping` for the code as written). */
  function Validate(i: Instruction): (r: Result<(), InstructionError>)
    ensures r.Ok? <==> ValidShift(i)
  {
    match i
    case LOAD(m) => if Abs(m.shift) >= 4 then Err(InvalidShift) else Ok(())
    case STORE(m) => if Abs(m.shift) >= 4 then Err(InvalidShift) else Ok(())
    case BRANCH(b) => if Abs(b.shift) > 31 then Err(InvalidShift) else Ok(())
    case _ => Ok(())
  }

  /** The shift bound each variant accepts, written as a range. */
  predicate ValidShift(i: Instruction) {
    match i
    case LOAD(m) => -3 <= m.shift <= 3
    case STORE(m) => -3 <= m.shift <= 3
    case BRANCH(b) => -31 <= b.shift <= 31
    case _ => true
  }

  function EncodeUnsafe(i: Instruction): (w: bv16)
    requires ValidShift(i)
  {
    match i
    case NOP => 0
    case AND(a) => 0x4000 | EncodeAlu(a)
    case ADD(a) => 0x5000 | EncodeAlu(a)
    case LOAD(m) => 0x2000 | EncodeMem(m)
    case STORE(m) => 0x3000 | EncodeMem(m)
    case BRANCH(b) => 0x1000 | EncodeBranch(b)
    case CUSTOM(x) => U16ToWord(x)
  }

  /** `Instruction::encode`: validate, then encode. */
  function Encode(i: Instruction): (r: Result<bv16, InstructionError>)
    ensures r.Ok? <==> ValidShift(i)
    ensures r.Ok? && !i.CUSTOM? ==> r.value >> 12 == Opcode(i)
    ensures r.Ok? && i.CUSTOM? ==> r.value == U16ToWord(i.raw)
  {
    match Validate(i)
    case Err(e) => Err(e)
    case Ok(_) => Ok(EncodeUnsafe(i))
  }

  /** Encoding a list of instructions, `map(encode)` collected into a
      `Result`: every word, or the first error. */
  function EncodeAll(ins: seq<Instruction>): (r: Result<seq<bv16>, InstructionError>)
    ensures r.Ok? <==> forall k :: 0 <= k < |ins| ==> Encode(ins[k]).Ok?
    ensures r.Ok? ==> |r.value| == |ins| && forall k :: 0 <= k < |ins| ==> r.value[k] == Encode(ins[k]).value
  {
    if ins == [] then Ok([])
    else
      match Encode(ins[0])
      case Err(e) => Err(e)
      case Ok(w) =>
        match EncodeAll(ins[1..])
        case Err(e) => Err(e)
        case Ok(ws) => Ok([w] + ws)
  }

  /** The opcode nibble each variant is documented to occupy. */
  function Opcode(i: Instruction): bv16 {
    match i
    case NOP => 0 case BRANCH(_) => 1 case LOAD(_) => 2 case STORE(_) => 3
    case AND(_) => 4 case ADD(_) => 5 case CUSTOM(x) => U16ToWord(x) >> 12
  }

  // A reference decoder: it recovers every field from the bits the encoder
  // wrote, which shows that the fields occupy disjoint bit ranges.

  function DecodeAlu(w: bv16): AluInstruction {
    AluInstruction((w >> 11) & 1 == 1, (w >> 10) & 1 == 1, (w >> 9) & 1 == 1,
      RegisterOf((w >> 6) & 7), RegisterOf((w >> 3) & 7), RegisterOf(w & 7))
  }

  function SignedShift(neg: bool, mag: bv16): i8
    requires mag < 32
  {
    if neg then - (mag as int) as i8 else mag as int as i8
  }

  function DecodeMem(w: bv16): MemInstruction {
    MemInstruction((w >> 11) & 1 == 1, (w >> 10) & 1 == 1, (w >> 9) & 1 == 1,
      RegisterOf((w >> 6) & 7), RegisterOf((w >> 3) & 7), SignedShift((w >> 2) & 1 == 1, w & 3))
  }

  function DecodeBranch(w: bv16): BranchInstruction {
    BranchInstruction((w >> 11) & 1 == 1, (w >> 10) & 1 == 1, (w >> 9) & 1 == 1,
      RegisterOf((w >> 6) & 7), SignedShift((w >> 5) & 1 == 1, w & 31))
  }

  /** Decodes by opcode nibble; a non-zero word with nibble 0 or a nibble
      above 5 is data. A `CUSTOM` word is indistinguishable from the
      instruction with the same bits, so only the other variants round-trip. */
  function Decode(w: bv16): Instruction {
    var op := w >> 12;
    if w == 0 then NOP
    else if op == 1 then BRANCH(DecodeBranch(w))
    else if op == 2 then LOAD(DecodeMem(w))
    else if op == 3 then STORE(DecodeMem(w))
    else if op == 4 then AND(DecodeAlu(w))
    else if op == 5 then ADD(DecodeAlu(w))
    else CUSTOM(w as int as u16)
  }

  /** Six fields packed as nibble | 1+1+1+3+3+3 bits come back out unchanged. */
  lemma PackFields(base: bv16, f1: bv16, f2: bv16, f3: bv16, f4: bv16, f5: bv16, f6: bv16)
    requires base & 0xFFF == 0 && f1 < 2 && f2 < 2 && f3 < 2 && f4 < 8 && f5 < 8 && f6 < 8
    ensures var w := base | ((f1 << 11) | (f2 << 10) | (f3 << 9) | (f4 << 6) | (f5 << 3) | f6);
      w >> 12 == base >> 12 && (w >> 11) & 1 == f1 && (w >> 10) & 1 == f2 && (w >> 9) & 1 == f3
      && (w >> 6) & 7 == f4 && (w >> 3) & 7 == f5 && w & 7 == f6
  {
  }

  /** The BRANCH shift: sign in bit 5, magnitude in bits 0-4. */
  lemma PackBranch(base: bv16, f1: bv16, f2: bv16, f3: bv16, f4: bv16, s: bv16, m: bv16)
    requires base & 0xFFF == 0 && f1 < 2 && f2 < 2 && f3 < 2 && f4 < 8 && s < 2 && m < 32
    ensures var w := base | ((f1 << 11) | (f2 << 10) | (f3 << 9) | (f4 << 6) | (s << 5) | m);
      w >> 12 == base >> 12 && (w >> 11) & 1 == f1 && (w >> 10) & 1 == f2 && (w >> 9) & 1 == f3
      && (w >> 6) & 7 == f4 && (w >> 5) & 1 == s && w & 31 == m
  {
  }

  lemma MagnitudeRoundTrip(n: nat)
    requires n < 32
    ensures (n as bv16) as int == n
  {
  }

  /** The MEM shift: sign in bit 2, magnitude in bits 0-1. */
  lemma PackMem(base: bv16, f1: bv16, f2: bv16, f3: bv16, f4: bv16, f5: bv16, s: bv16, m: bv16)
    requires base & 0xFFF == 0 && f1 < 2 && f2 < 2 && f3 < 2 && f4 < 8 && f5 < 8 && s < 2 && m < 4
    ensures var w := base | ((f1 << 11) | (f2 << 10) | (f3 << 9) | (f4 << 6) | (f5 << 3) | (s << 2) | m);
      w >> 12 == base >> 12 && (w >> 11) & 1 == f1 && (w >> 10) & 1 == f2 && (w >> 9) & 1 == f3
      && (w >> 6) & 7 == f4 && (w >> 3) & 7 == f5 && (w >> 2) & 1 == s && w & 3 == m
  {
  }

  lemma AluFields(a: AluInstruction, base: bv16)
    requires base == 0x4000 || base == 0x5000
    ensures (base | EncodeAlu(a)) >> 12 == base >> 12
    ensures DecodeAlu(base | EncodeAlu(a)) == a
  {
    PackFields(base, Bit(a.nx), Bit(a.ny), Bit(a.no), Code(a.dst), Code(a.srcA), Code(a.srcB));
    RegisterRoundTrip(a.dst);
    RegisterRoundTrip(a.srcA);
    RegisterRoundTrip(a.srcB);
  }

  lemma MemFields(m: MemInstruction, base: bv16)
    requires base == 0x2000 || base == 0x3000
    requires Abs(m.shift) < 4
    ensures (base | EncodeMem(m)) >> 12 == base >> 12
    ensures DecodeMem(base | EncodeMem(m)) == m
  {
    var sign, mag := Bit(m.shift < 0), Abs(m.shift) as bv16;
    MagnitudeRoundTrip(Abs(m.shift));
    PackMem(base, Bit(m.hi), Bit(m.lo), Bit(m.sw), Code(m.dst), Code(m.addr), sign, mag);
    RegisterRoundTrip(m.dst);
    RegisterRoundTrip(m.addr);
  }

  lemma BranchFields(b: BranchInstruction)
    requires Abs(b.shift) <= 31
    ensures (0x1000 | EncodeBranch(b)) >> 12 == 1
    ensures DecodeBranch(0x1000 | EncodeBranch(b)) == b
  {
    PackBranch(0x1000, Bit(b.eq), Bit(b.gt), Bit(b.lt), Code(b.cond), Bit(b.shift < 0), Abs(b.shift) as bv16);
    MagnitudeRoundTrip(Abs(b.shift));
    RegisterRoundTrip(b.cond);
  }

  /** Every encodable instruction other than raw data decodes back to itself. */
  lemma EncodeDecode(i: Instruction)
    requires ValidShift(i) && !i.CUSTOM?
    ensures Encode(i).Ok? && Decode(Encode(i).value) == i
    ensures Encode(i).value >> 12 == Opcode(i)
  {
    match i
    case NOP =>
    case AND(a) => AluEncodeDecode(a, 0x4000);
    case ADD(a) => AluEncodeDecode(a, 0x5000);
    case LOAD(m) => MemEncodeDecode(m, 0x2000);
    case STORE(m) => MemEncodeDecode(m, 0x3000);
    case BRANCH(b) => BranchEncodeDecode(b);
  }

  lemma AluEncodeDecode(a: AluInstruction, base: bv16)
    requires base == 0x4000 || base == 0x5000
    ensures var i := if base == 0x4000 then AND(a) else ADD(a);
      Encode(i) == Ok(base | EncodeAlu(a)) && Decode(base | EncodeAlu(a)) == i
  {
    AluFields(a, base);
    DecodeOpcode(base | EncodeAlu(a));
  }

  lemma MemEncodeDecode(m: MemInstruction, base: bv16)
    requires base == 0x2000 || base == 0x3000
    requires -3 <= m.shift <= 3
    ensures var i := if base == 0x2000 then LOAD(m) else STORE(m);
      Encode(i) == Ok(base | EncodeMem(m)) && Decode(base | EncodeMem(m)) == i
  {
    MemFields(m, base);
    DecodeOpcode(base | EncodeMem(m));
  }

  lemma BranchEncodeDecode(b: BranchInstruction)
    requires -31 <= b.shift <= 31
    ensures Encode(BRANCH(b)) == Ok(0x1000 | EncodeBranch(b)) && Decode(0x1000 | EncodeBranch(b)) == BRANCH(b)
  {
    BranchFields(b);
    DecodeOpcode(0x1000 | EncodeBranch(b));
  }

  /** Which variant `Decode` picks, by opcode nibble. */
  lemma DecodeOpcode(w: bv16)
    requires 1 <= w >> 12 <= 5
    ensures w >> 12 == 1 ==> Decode(w) == BRANCH(DecodeBranch(w))
    ensures w >> 12 == 2 ==> Decode(w) == LOAD(DecodeMem(w))
    ensures w >> 12 == 3 ==> Decode(w) == STORE(DecodeMem(w))
    ensures w >> 12 == 4 ==> Decode(w) == AND(DecodeAlu(w))
    ensures w >> 12 == 5 ==> Decode(w) == ADD(DecodeAlu(w))
  {
    assert w != 0;
  }

  /** Distinct non-data instructions get distinct words. */
  lemma EncodeInjective(i: Instruction, j: Instruction)
    requires ValidShift(i) && !i.CUSTOM? && ValidShift(j) && !j.CUSTOM?
    ensures Encode(i).value == Encode(j).value ==> i == j
  {
    EncodeDecode(i);
    EncodeDecode(j);
  }

  // The shift magnitude as the Rust code computes it: `i8::abs` wraps for
  // -128 in a release build (a debug build panics instead), and `as u16`
  // sign-extends the result.

  /** `i8::abs` with wrapping overflow. */
  function AbsWrapping(x: i8): (r: i8)
    ensures x != -128 ==> r as int == Abs(x)
    ensures x == -128 ==> r == -128
  {
    if x == -128 then -128 else if x < 0 then -x else x
  }

  /** `MemInstruction::validate` as written: `shift.abs() >= 4`. */
  function MemValidateAsWritten(m: MemInstruction): (r: Result<(), InstructionError>)
    ensures m.shift != -128 ==> (r.Ok? <==> -3 <= m.shift <= 3)
  {
    if AbsWrapping(m.shift) >= 4 then Err(InvalidShift) else Ok(())
  }

  /** `MemInstruction::encode` as written, shift field `shift.abs() as u16`. */
  function EncodeMemAsWritten(m: MemInstruction): (w: bv16)
    ensures -3 <= m.shift <= 3 ==> w == EncodeMem(m)
  {
    (Bit(m.hi) << 11) | (Bit(m.lo) << 10) | (Bit(m.sw) << 9)
    | (Code(m.dst) << 6) | (Code(m.addr) << 3)
    | (Bit(m.shift < 0) << 2) | U16ToWord(I8AsU16(AbsWrapping(m.shift)))
  }

  /** A LOAD with shift -128 passes the written validation, and its encoding
      no longer carries the LOAD opcode: the sign-extended magnitude 0xFF80
      overwrites the opcode nibble. The exact validator rejects it. */
  lemma MemShiftMinus128(m: MemInstruction)
    requires m == MemInstruction(false, false, false, ZX, ZX, -128)
    ensures MemValidateAsWritten(m).Ok?
    ensures (0x2000 | EncodeMemAsWritten(m)) >> 12 == 0xF
    ensures Validate(LOAD(m)) == Err(InvalidShift)
  {
    assert U16ToWord(I8AsU16(AbsWrapping(m.shift))) == 0xFF80;
  }

  /** `BranchInstruction::validate` as written: `shift.abs() > 31`. */
  function BranchValidateAsWritten(b: BranchInstruction): (r: Result<(), InstructionError>)
    ensures b.shift != -128 ==> (r.Ok? <==> -31 <= b.shift <= 31)
  {
    if AbsWrapping(b.shift) > 31 then Err(InvalidShift) else Ok(())
  }

  /** `BranchInstruction::encode` as written, shift field `shift.abs() as u16`. */
  function EncodeBranchAsWritten(b: BranchInstruction): (w: bv16)
    ensures -31 <= b.shift <= 31 ==> w == EncodeBranch(b)
  {
    (Bit(b.eq) << 11) | (Bit(b.gt) << 10) | (Bit(b.lt) << 9)
    | (Code(b.cond) << 6) | (Bit(b.shift < 0) << 5) | U16ToWord(I8AsU16(AbsWrapping(b.shift)))
  }

  /** A BRANCH with shift -128 passes the written validation, and its
      encoding carries the nibble 0xF instead of the BRANCH opcode 1. The
      exact validator rejects it. */
  lemma BranchShiftMinus128(b: BranchInstruction)
    requires b == BranchInstruction(false, false, false, ZX, -128)
    ensures BranchValidateAsWritten(b).Ok?
    ensures (0x1000 | EncodeBranchAsWritten(b)) >> 12 == 0xF
    ensures Validate(BRANCH(b)) == Err(InvalidShift)
  {
    assert U16ToWord(I8AsU16(AbsWrapping(b.shift))) == 0xFF80;
  }
}
