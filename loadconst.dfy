// `LCONST dst, v` and `ACONST dst, v` (easycpu_lib/src/asm/load_const.rs):
// load a 16-bit constant into a register, or add one to it, with the cheapest
// sequence available. The strategies, in order:
//   0, 1, 2, 0xFFFF        one or two ALU words (ADD/INC/INC INC/DEC from src)
//   v < 4096               LOAD/LADD dst,[PC+1] followed by the value, whose
//                          zero opcode nibble lets it execute as NOP
//   -v < 4096, LCONST      MOV dst,ZX; LSUB dst,[PC+1]; -v   (not for dst = PC)
//   -v < 4096, ACONST      LSUB dst,[PC+1]; -v
//   otherwise              LOAD/LADD dst,[PC+2]; BRANCH ZX,+2; v
// where src is ZX for LCONST and dst for ACONST.
module LoadConst {
  import opened Base
  import opened Cpu
  import opened Errors
  import opened Words
  import opened AsmInst
  import opened Semantics
  import Branch

  datatype LoadConstOperation = Load | Add

  /** `LoadConstOperation::parse_operation`. */
  function ParseOperation(s: string): (r: Option<LoadConstOperation>)
    ensures r == Some(Load) <==> s == "LCONST"
    ensures r == Some(Add) <==> s == "ACONST"
    ensures r.None? <==> s != "LCONST" && s != "ACONST"
  {
    if s == "LCONST" then Some(Load) else if s == "ACONST" then Some(Add) else None
  }

  /** `u16::MAX.wrapping_sub(v).wrapping_add(1)`: the two's-complement negation. */
  function Negate(v: u16): (r: u16)
    ensures r as int == if v == 0 then 0 else 0x1_0000 - v as int
  {
    WrapAdd(WrapSub(0xFFFF, v), 1)
  }

  /** `short_variant`. */
  function ShortVariant(val: u16, dst: Register, src: Register): (r: Option<seq<Leaf>>)
    ensures r.Some? <==> val == 0 || val == 1 || val == 2 || val == 0xFFFF
    ensures r.Some? ==> 1 <= |r.value| <= 2
  {
    if val == 0 then Some([AluLeaf(AluOperation.ADD, dst, src, ZX)])
    else if val == 1 then Some([AluLeaf(INC, dst, src, ZX)])
    else if val == 2 then Some([AluLeaf(INC, dst, src, ZX), AluLeaf(INC, dst, dst, ZX)])
    else if val == 0xFFFF then Some([AluLeaf(DEC, dst, src, ZX)])
    else None
  }

  function MemOp(op: LoadConstOperation): MemOperation {
    if op == Load then MemOperation.LOAD else LADD
  }

  function Source(op: LoadConstOperation, dst: Register): Register {
    if op == Load then ZX else dst
  }

  /** The long form's jump over the value: `BranchInstruction::new(ZX, 2)`. */
  const SkipValue := BranchInstruction(true, true, true, ZX, 2)

  lemma SkipValueIsNew()
    ensures Branch.NewValue(ZX, 2) == Ok(SkipValue)
  {
  }

  /** The strategies after the short forms, shared by both versions below. */
  function LongForm(op: LoadConstOperation, dst: Register, val: u16): seq<Leaf> {
    var neg := Negate(val);
    if val < 4096 then [MemLeaf(MemOp(op), dst, PC, 1), CustomLeaf(val)]
    else if neg < 4096 && op == Load && dst != PC then
      [AluLeaf(MOV, dst, ZX, ZX), MemLeaf(LSUB, dst, PC, 1), CustomLeaf(neg)]
    else if neg < 4096 && op == Add then [MemLeaf(LSUB, dst, PC, 1), CustomLeaf(neg)]
    else [MemLeaf(MemOp(op), dst, PC, 2), BranchLeaf(SkipValue), CustomLeaf(val)]
  }

  /** The strategy selection as written. */
  function ExpandAsWritten(op: LoadConstOperation, dst: Register, val: u16): (r: seq<Leaf>)
    ensures 1 <= |r| <= 3
  {
    match ShortVariant(val, dst, Source(op, dst))
    case Some(v) => v
    case None => LongForm(op, dst, val)
  }

  /** The strategy selection with `LCONST PC, 2` kept out of the two-word
      short form, whose first INC already jumps (see `LconstPc2AsWritten`). */
  function Expand(op: LoadConstOperation, dst: Register, val: u16): (r: seq<Leaf>)
    ensures 1 <= |r| <= 3
    ensures !(op == Load && dst == PC && val == 2) ==> r == ExpandAsWritten(op, dst, val)
  {
    if op == Load && dst == PC && val == 2 then LongForm(op, dst, val)
    else ExpandAsWritten(op, dst, val)
  }

  /** `LoadConstInstruction::compile`. Every strategy compiles, to the words
      `Emitted` lists. */
  function Compile(op: LoadConstOperation, dst: Register, val: u16): (r: Result<seq<Word>, CompileError>)
    ensures r.Ok? && r.value == Emitted(op, dst, val)
  {
    CompileEmits(op, dst, val);
    CompileLeaves(Expand(op, dst, val))
  }

  /** The words each strategy stands for, written out. */
  function Emitted(op: LoadConstOperation, dst: Register, val: u16): (w: seq<Word>)
    ensures 1 <= |w| <= 3
  {
    var src := Source(op, dst);
    var neg := Negate(val);
    if op == Load && dst == PC && val == 2 then [Mem(MemOperation.LOAD, PC, PC, 1), Custom(2)]
    else if val == 0 then [Alu(AluOperation.ADD, dst, src, ZX)]
    else if val == 1 then [Alu(INC, dst, src, ZX)]
    else if val == 2 then [Alu(INC, dst, src, ZX), Alu(INC, dst, dst, ZX)]
    else if val == 0xFFFF then [Alu(DEC, dst, src, ZX)]
    else if val < 4096 then [Mem(MemOp(op), dst, PC, 1), Custom(val)]
    else if neg < 4096 && op == Load && dst != PC then
      [Alu(MOV, dst, ZX, ZX), Mem(LSUB, dst, PC, 1), Custom(neg)]
    else if neg < 4096 && op == Add then [Mem(LSUB, dst, PC, 1), Custom(neg)]
    else [Mem(MemOp(op), dst, PC, 2), Machine(BRANCH(SkipValue)), Custom(val)]
  }

  lemma CompileEmits(op: LoadConstOperation, dst: Register, val: u16)
    ensures CompileLeaves(Expand(op, dst, val)) == Ok(Emitted(op, dst, val))
  {
    var ls := Expand(op, dst, val);
    if op == Load && dst == PC && val == 2 {
      LongFormEmits(op, dst, val);
    } else if val == 0 || val == 1 || val == 2 || val == 0xFFFF {
      var src := Source(op, dst);
      assert ls == ShortVariant(val, dst, src).value;
      if val == 0 {
        CompilesTo(ls, [Alu(AluOperation.ADD, dst, src, ZX)]);
      } else if val == 1 {
        CompilesTo(ls, [Alu(INC, dst, src, ZX)]);
      } else if val == 2 {
        CompilesTo(ls, [Alu(INC, dst, src, ZX), Alu(INC, dst, dst, ZX)]);
      } else {
        CompilesTo(ls, [Alu(DEC, dst, src, ZX)]);
      }
    } else {
      LongFormEmits(op, dst, val);
    }
  }

  lemma LongFormEmits(op: LoadConstOperation, dst: Register, val: u16)
    requires 2 < val < 0xFFFF || (op == Load && dst == PC && val == 2)
    ensures CompileLeaves(LongForm(op, dst, val)) == Ok(Emitted(op, dst, val))
  {
    var neg := Negate(val);
    if val < 4096 {
      NearEmits(op, dst, val);
    } else if neg < 4096 && op == Load && dst != PC {
      NegatedEmits(op, dst, val);
    } else if neg < 4096 && op == Add {
      NegatedEmits(op, dst, val);
    } else {
      FarEmits(op, dst, val);
    }
  }

  lemma NearEmits(op: LoadConstOperation, dst: Register, val: u16)
    requires 2 < val < 4096 || (op == Load && dst == PC && val == 2)
    ensures CompileLeaves(LongForm(op, dst, val)) == Ok(Emitted(op, dst, val))
  {
    CompilesTo([MemLeaf(MemOp(op), dst, PC, 1), CustomLeaf(val)], [Mem(MemOp(op), dst, PC, 1), Custom(val)]);
  }

  lemma NegatedEmits(op: LoadConstOperation, dst: Register, val: u16)
    requires 4096 <= val < 0xFFFF && Negate(val) < 4096 && (op == Add || dst != PC)
    ensures CompileLeaves(LongForm(op, dst, val)) == Ok(Emitted(op, dst, val))
  {
    var neg := Negate(val);
    if op == Load {
      CompilesTo([AluLeaf(MOV, dst, ZX, ZX), MemLeaf(LSUB, dst, PC, 1), CustomLeaf(neg)],
                 [Alu(MOV, dst, ZX, ZX), Mem(LSUB, dst, PC, 1), Custom(neg)]);
    } else {
      CompilesTo([MemLeaf(LSUB, dst, PC, 1), CustomLeaf(neg)], [Mem(LSUB, dst, PC, 1), Custom(neg)]);
    }
  }

  lemma FarEmits(op: LoadConstOperation, dst: Register, val: u16)
    requires 4096 <= val < 0xFFFF && !(Negate(val) < 4096 && (op == Add || dst != PC))
    ensures CompileLeaves(LongForm(op, dst, val)) == Ok(Emitted(op, dst, val))
  {
    CompilesTo([MemLeaf(MemOp(op), dst, PC, 2), BranchLeaf(SkipValue), CustomLeaf(val)],
               [Mem(MemOp(op), dst, PC, 2), Machine(BRANCH(SkipValue)), Custom(val)]);
  }

  /** What the destination holds afterwards: `val` for LCONST, its old value
      plus `val` for ACONST (for PC, the address of the first word). */
  function Target(op: LoadConstOperation, dst: Register, val: u16, s: State): u16
    requires Valid(s)
  {
    if op == Load then val else WrapAdd(Get(s, dst), val)
  }

  /** The number of words executed before control leaves the sequence: all
      of them except a trailing data word, and only the first one when it
      already writes PC (ACONST PC, 2 runs both of its INCs). */
  function StepCount(op: LoadConstOperation, dst: Register, val: u16): (n: nat)
    ensures 1 <= n <= |Emitted(op, dst, val)|
  {
    if dst == PC then (if op == Add && val == 2 then 2 else 1)
    else if val <= 2 || val == 0xFFFF then |Emitted(op, dst, val)|
    else if val >= 4096 && Negate(val) < 4096 && op == Load then 3
    else 2
  }

  /** After a sequence of `len` words ran from `s` to `t`: `dst` holds `v`,
      no other register and no memory cell changed, and (unless `dst` is PC)
      execution continues right after the sequence. */
  predicate Effect(dst: Register, v: u16, len: nat, s: State, t: State)
    requires Valid(s) && Valid(t)
  {
    Get(t, dst) == v
    && (dst != PC ==> t.pc as int == s.pc as int + len)
    && (forall q :: q != dst && q != PC ==> Get(t, q) == Get(s, q))
    && t.mem == s.mem
  }

  /** The effect the instruction promises. */
  predicate Achieves(op: LoadConstOperation, dst: Register, val: u16, s: State, t: State)
    requires Valid(s) && Valid(t)
  {
    Effect(dst, Target(op, dst, val, s), |Emitted(op, dst, val)|, s, t)
  }

  /** Running the compiled words from their first address achieves the
      instruction's effect on every register but the zero register, for every
      strategy and every value. The words must not end at the top of memory. */
  lemma CompiledMeaning(op: LoadConstOperation, dst: Register, val: u16, image: Image, s: State)
    requires Valid(s) && dst != ZX
    requires Holds(image, Emitted(op, dst, val), s.pc) && s.pc as int + |Emitted(op, dst, val)| < 0x1_0000
    ensures Steps(image, s, StepCount(op, dst, val)).Some?
    ensures Achieves(op, dst, val, s, Steps(image, s, StepCount(op, dst, val)).value)
  {
    var neg := Negate(val);
    if op == Load && dst == PC && val == 2 {
      NearMeaning(op, dst, val, image, s);
    } else if val == 0 || val == 1 || val == 0xFFFF {
      ShortMeaning(op, dst, val, image, s);
    } else if val == 2 {
      TwoMeaning(op, dst, image, s);
    } else if val < 4096 {
      NearMeaning(op, dst, val, image, s);
    } else if neg < 4096 && (op == Add || dst != PC) {
      NegatedMeaning(op, dst, val, image, s);
    } else {
      FarMeaning(op, dst, val, image, s);
    }
  }

  lemma ShortMeaning(op: LoadConstOperation, dst: Register, val: u16, image: Image, s: State)
    requires Valid(s) && dst != ZX && (val == 0 || val == 1 || val == 0xFFFF)
    requires Holds(image, Emitted(op, dst, val), s.pc) && s.pc as int + |Emitted(op, dst, val)| < 0x1_0000
    ensures Steps(image, s, StepCount(op, dst, val)).Some?
    ensures Achieves(op, dst, val, s, Steps(image, s, StepCount(op, dst, val)).value)
  {
    ShortStepCount(op, dst, val, image, s);
    OneWordMeaning(op, dst, val, image, s);
  }

  /** A one-word expansion runs for exactly one step. */
  lemma ShortStepCount(op: LoadConstOperation, dst: Register, val: u16, image: Image, s: State)
    requires Valid(s) && dst != ZX && (val == 0 || val == 1 || val == 0xFFFF)
    ensures Steps(image, s, StepCount(op, dst, val)) == Steps(image, s, 1)
  {
    assert StepCount(op, dst, val) == 1;
  }

  /** The single ALU word of 0, 1 and -1 achieves the effect in its step. */
  lemma OneWordMeaning(op: LoadConstOperation, dst: Register, val: u16, image: Image, s: State)
    requires Valid(s) && dst != ZX && (val == 0 || val == 1 || val == 0xFFFF)
    requires Holds(image, Emitted(op, dst, val), s.pc) && s.pc as int + |Emitted(op, dst, val)| < 0x1_0000
    ensures Steps(image, s, 1).Some?
    ensures Achieves(op, dst, val, s, Steps(image, s, 1).value)
  {
    var src := Source(op, dst);
    if val == 0 {
      AluForm(AluOperation.ADD, dst, src, Target(op, dst, 0, s), image, s);
    } else if val == 1 {
      AluForm(INC, dst, src, Target(op, dst, 1, s), image, s);
    } else {
      AluForm(DEC, dst, src, Target(op, dst, 0xFFFF, s), image, s);
    }
  }

  lemma TwoMeaning(op: LoadConstOperation, dst: Register, image: Image, s: State)
    requires Valid(s) && dst != ZX && !(op == Load && dst == PC)
    requires Holds(image, Emitted(op, dst, 2), s.pc) && s.pc as int + |Emitted(op, dst, 2)| < 0x1_0000
    ensures Steps(image, s, StepCount(op, dst, 2)).Some?
    ensures Achieves(op, dst, 2, s, Steps(image, s, StepCount(op, dst, 2)).value)
  {
    TwoIncrements(dst, Source(op, dst), image, s);
  }

  lemma NearMeaning(op: LoadConstOperation, dst: Register, val: u16, image: Image, s: State)
    requires Valid(s) && dst != ZX && (2 < val < 4096 || (op == Load && dst == PC && val == 2))
    requires Holds(image, Emitted(op, dst, val), s.pc) && s.pc as int + |Emitted(op, dst, val)| < 0x1_0000
    ensures Steps(image, s, StepCount(op, dst, val)).Some?
    ensures Achieves(op, dst, val, s, Steps(image, s, StepCount(op, dst, val)).value)
  {
    NearForm(MemOp(op), dst, val, Target(op, dst, val, s), image, s);
  }

  lemma NegatedMeaning(op: LoadConstOperation, dst: Register, val: u16, image: Image, s: State)
    requires Valid(s) && dst != ZX && 4096 <= val < 0xFFFF && Negate(val) < 4096 && (op == Add || dst != PC)
    requires Holds(image, Emitted(op, dst, val), s.pc) && s.pc as int + |Emitted(op, dst, val)| < 0x1_0000
    ensures Steps(image, s, StepCount(op, dst, val)).Some?
    ensures Achieves(op, dst, val, s, Steps(image, s, StepCount(op, dst, val)).value)
  {
    if op == Load {
      NegatedLoad(dst, val, image, s);
    } else {
      NearForm(LSUB, dst, Negate(val), Target(op, dst, val, s), image, s);
    }
  }

  lemma FarMeaning(op: LoadConstOperation, dst: Register, val: u16, image: Image, s: State)
    requires Valid(s) && dst != ZX && 4096 <= val < 0xFFFF && !(Negate(val) < 4096 && (op == Add || dst != PC))
    requires Holds(image, Emitted(op, dst, val), s.pc) && s.pc as int + |Emitted(op, dst, val)| < 0x1_0000
    ensures Steps(image, s, StepCount(op, dst, val)).Some?
    ensures Achieves(op, dst, val, s, Steps(image, s, StepCount(op, dst, val)).value)
  {
    FarForm(MemOp(op), dst, val, Target(op, dst, val, s), image, s);
  }

  /** One ALU word `op dst, src, ZX` whose result is `v`. */
  lemma AluForm(op: AluOperation, dst: Register, src: Register, v: u16, image: Image, s: State)
    requires Valid(s) && dst != ZX && op != AluOperation.AND
    requires AluValue(op, Get(s, src), 0) == Some(v)
    requires Holds(image, [Alu(op, dst, src, ZX)], s.pc) && s.pc as int + 1 < 0x1_0000
    ensures Steps(image, s, 1).Some? && Effect(dst, v, 1, s, Steps(image, s, 1).value)
  {
    HoldsAt(image, [Alu(op, dst, src, ZX)], s.pc, 0);
  }

  /** INC dst, src; INC dst, dst: `src + 2` (two steps even when dst is PC,
      since the second INC then is the word jumped to). */
  lemma TwoIncrements(dst: Register, src: Register, image: Image, s: State)
    requires Valid(s) && dst != ZX && (dst == PC ==> src == PC)
    requires Holds(image, [Alu(INC, dst, src, ZX), Alu(INC, dst, dst, ZX)], s.pc) && s.pc as int + 2 < 0x1_0000
    ensures Steps(image, s, 2).Some? && Effect(dst, WrapAdd(Get(s, src), 2), 2, s, Steps(image, s, 2).value)
  {
    var w := [Alu(INC, dst, src, ZX), Alu(INC, dst, dst, ZX)];
    HoldsAt(image, w, s.pc, 0);
    HoldsAt(image, w, s.pc, 1);
    var s1 := Step(image, s).value;
    assert s1.pc == At(s.pc, 1);
    assert Get(s1, dst) == WrapAdd(Get(s, src), 1);
    StepsAdd(image, s, 1, 1);
  }

  /** `op dst,[PC+1]` followed by a 12-bit data word: the data word is read
      and then executed as NOP. */
  lemma NearForm(op: MemOperation, dst: Register, val: u16, v: u16, image: Image, s: State)
    requires Valid(s) && dst != ZX && val < 4096 && op != MemOperation.STORE
    requires v == if op == MemOperation.LOAD then val
                  else if op == LADD then WrapAdd(Get(s, dst), val)
                  else WrapSub(Get(s, dst), val)
    requires Holds(image, [Mem(op, dst, PC, 1), Custom(val)], s.pc) && s.pc as int + 2 < 0x1_0000
    ensures Steps(image, s, if dst == PC then 1 else 2).Some?
    ensures Effect(dst, v, 2, s, Steps(image, s, if dst == PC then 1 else 2).value)
  {
    var w := [Mem(op, dst, PC, 1), Custom(val)];
    HoldsAt(image, w, s.pc, 0);
    HoldsAt(image, w, s.pc, 1);
    assert Offset(s.pc, 1) == At(s.pc, 1);
    assert Read(image, s, At(s.pc, 1)) == val;
    var s1 := Step(image, s).value;
    assert Get(s1, dst) == v;
    if dst != PC {
      assert s1.pc == At(s.pc, 1);
      StepsAdd(image, s, 1, 1);
      assert Step(image, s1) == Some(s1.(pc := At(s.pc, 2)));
    }
  }

  /** MOV dst, ZX; LSUB dst,[PC+1]; -val. */
  lemma NegatedLoad(dst: Register, val: u16, image: Image, s: State)
    requires Valid(s) && dst != ZX && dst != PC && Negate(val) < 4096
    requires Holds(image, [Alu(MOV, dst, ZX, ZX), Mem(LSUB, dst, PC, 1), Custom(Negate(val))], s.pc)
    requires s.pc as int + 3 < 0x1_0000
    ensures Steps(image, s, 3).Some? && Effect(dst, val, 3, s, Steps(image, s, 3).value)
  {
    var w := [Alu(MOV, dst, ZX, ZX), Mem(LSUB, dst, PC, 1), Custom(Negate(val))];
    HoldsAt(image, w, s.pc, 0);
    HoldsAt(image, w, s.pc, 1);
    HoldsAt(image, w, s.pc, 2);
    NegatedTwo(dst, val, image, s);
    var s2 := Steps(image, s, 2).value;
    var s3 := Step(image, s2).value;
    assert s3 == s2.(pc := At(s.pc, 3));
    StepsAfter(image, s, 2, 1, 3);
  }

  /** The MOV and the LSUB of `NegatedLoad`: `dst` ends up holding `val`. */
  lemma NegatedTwo(dst: Register, val: u16, image: Image, s: State)
    requires Valid(s) && dst != ZX && dst != PC && Negate(val) < 4096 && s.pc as int + 3 < 0x1_0000
    requires s.pc in image && image[s.pc] == Alu(MOV, dst, ZX, ZX)
    requires At(s.pc, 1) in image && image[At(s.pc, 1)] == Mem(LSUB, dst, PC, 1)
    requires At(s.pc, 2) in image && image[At(s.pc, 2)] == Custom(Negate(val))
    ensures var t := Steps(image, s, 2);
      t.Some? && t.value.pc == At(s.pc, 2) && Effect(dst, val, 2, s, t.value)
  {
    var s1 := Step(image, s).value;
    assert Get(s1, dst) == 0 && s1.pc == At(s.pc, 1);
    assert Offset(s1.pc, 1) == At(s.pc, 2);
    var s2 := Step(image, s1).value;
    assert Get(s2, dst) == val && s2.pc == At(s.pc, 2);
    StepsAfter(image, s, 1, 1, 2);
  }

  /** `op dst,[PC+2]; BRANCH ZX,+2; val`: the branch skips the data word. */
  lemma FarForm(op: MemOperation, dst: Register, val: u16, v: u16, image: Image, s: State)
    requires Valid(s) && dst != ZX && (op == MemOperation.LOAD || op == LADD)
    requires v == if op == MemOperation.LOAD then val else WrapAdd(Get(s, dst), val)
    requires Holds(image, [Mem(op, dst, PC, 2), Machine(BRANCH(SkipValue)), Custom(val)], s.pc)
    requires s.pc as int + 3 < 0x1_0000
    ensures Steps(image, s, if dst == PC then 1 else 2).Some?
    ensures Effect(dst, v, 3, s, Steps(image, s, if dst == PC then 1 else 2).value)
  {
    var w := [Mem(op, dst, PC, 2), Machine(BRANCH(SkipValue)), Custom(val)];
    HoldsAt(image, w, s.pc, 0);
    HoldsAt(image, w, s.pc, 1);
    HoldsAt(image, w, s.pc, 2);
    assert Offset(s.pc, 2) == At(s.pc, 2);
    var s1 := Step(image, s).value;
    assert Get(s1, dst) == v;
    if dst != PC {
      assert s1.pc == At(s.pc, 1);
      assert Offset(s1.pc, 2) == At(s.pc, 3);
      StepsAdd(image, s, 1, 1);
    }
  }

  /** As written, `LCONST PC, 2` compiles to INC PC,ZX,ZX; INC PC,PC,ZX: the
      first word already sets PC to 1, so control lands on address 1 instead
      of 2 and the second INC is never executed there. */
  lemma LconstPc2AsWritten(image: Image, s: State)
    requires Valid(s) && s.pc == 100
    requires Holds(image, [Alu(INC, PC, ZX, ZX), Alu(INC, PC, PC, ZX)], s.pc)
    ensures CompileLeaves(ExpandAsWritten(Load, PC, 2)) == Ok([Alu(INC, PC, ZX, ZX), Alu(INC, PC, PC, ZX)])
    ensures Steps(image, s, 1) == Some(s.(pc := 1))
  {
    var ls := ExpandAsWritten(Load, PC, 2);
    assert ls == [AluLeaf(INC, PC, ZX, ZX), AluLeaf(INC, PC, PC, ZX)];
    CompilesTo(ls, [Alu(INC, PC, ZX, ZX), Alu(INC, PC, PC, ZX)]);
    HoldsAt(image, [Alu(INC, PC, ZX, ZX), Alu(INC, PC, PC, ZX)], s.pc, 0);
  }

  /** `ADD r, r, b` run after a block that loaded `val` into `r`: `r` ends
      up holding `val + b`, and nothing else has changed. */
  lemma AddAfter(r: Register, b: Register, len: nat, n: nat, val: u16, image: Image, s: State)
    requires Valid(s) && r != ZX && r != PC && b != PC && r != b && s.pc as int + len + 1 < 0x1_0000
    requires Steps(image, s, n).Some? && Effect(r, val, len, s, Steps(image, s, n).value)
    requires Holds(image, [Alu(AluOperation.ADD, r, r, b)], Steps(image, s, n).value.pc)
    ensures Sets(image, s, n + 1, len + 1, r, WrapAdd(Get(s, b), val))
  {
    var t1 := Steps(image, s, n).value;
    HoldsAt(image, [Alu(AluOperation.ADD, r, r, b)], t1.pc, 0);
    AluStep(image, t1, AluOperation.ADD, r, r, b);
    StepsAdd(image, s, n, 1);
    assert Get(t1, b) == Get(s, b);
    assert WrapAdd(val, Get(s, b)) as int == WrapAdd(Get(s, b), val) as int;
  }

  /** Once a sequence achieved `Effect` on a register other than PC, that
      register is the only one it set. */
  lemma EffectSets(r: Register, v: u16, len: nat, n: nat, image: Image, s: State)
    requires Valid(s) && r != PC
    requires var t := Steps(image, s, n); t.Some? && Effect(r, v, len, s, t.value)
    ensures Sets(image, s, n, len, r, v)
  {
  }

  /** Every memory word of the expansion addresses PC: a constant is only
      ever read from the instruction stream. */
  lemma OnlyPcLoads(op: LoadConstOperation, dst: Register, val: u16)
    ensures forall k :: 0 <= k < |Emitted(op, dst, val)| && Emitted(op, dst, val)[k].MemWord? ==>
      Emitted(op, dst, val)[k].addr == PC
  {
  }
}
