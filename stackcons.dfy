// The constant macros `$PCONST v`, `$ACONST v` and `$PLABEL label`
// (easycpu_lib/src/asm/stack/cons.rs): push a constant, add a constant to the
// top of the stack, or push a label's address, all through R2.
module StackConst {
  import opened Base
  import opened Cpu
  import opened Errors
  import opened Words
  import opened AsmInst
  import opened Semantics
  import LoadConst
  import LoadLabel
  import StackBase

  datatype StackConstOperation = CONST | ACONST | LABEL

  /** The mnemonic of each operation. */
  function Name(op: StackConstOperation): string {
    match op
    case CONST => "PCONST"
    case ACONST => "ACONST"
    case LABEL => "PLABEL"
  }

  /** `parse_operation`: exactly the three mnemonics are recognised. */
  function ParseOperation(s: string): (r: Option<StackConstOperation>)
    ensures r.Some? ==> Name(r.value) == s
    ensures forall op :: s == Name(op) ==> r == Some(op)
  {
    match s
    case "PCONST" => Some(CONST)
    case "PLABEL" => Some(LABEL)
    case "ACONST" => Some(ACONST)
    case _ => None
  }

  /** `ConstInternalOp`, over the unresolved label type `L`. */
  datatype ConstInternalOp<L> = Label(target: L) | Const(val: u16) | AConst(val: u16)

  /** `parse_asm`: PCONST and ACONST read a constant, PLABEL a label; a
      failed read is the error. The operand readers are not part of this
      model: `constant` and `target` are what the read returns. */
  function ParseAsm<L>(op: StackConstOperation, constant: Result<u16, CompileError>, target: Result<L, CompileError>)
    : (r: Result<ConstInternalOp<L>, CompileError>)
    ensures op == CONST ==> r == (if constant.Ok? then Ok(Const(constant.value)) else Err(constant.error))
    ensures op == ACONST ==> r == (if constant.Ok? then Ok(AConst(constant.value)) else Err(constant.error))
    ensures op == LABEL ==> r == (if target.Ok? then Ok(Label(target.value)) else Err(target.error))
  {
    match op
    case CONST => var v :- constant; Ok(Const(v))
    case ACONST => var v :- constant; Ok(AConst(v))
    case LABEL => var l :- target; Ok(Label(l))
  }

  /** The expansion of PCONST: `LCONST R2, v; PUSH R2`. */
  function PconstWords(v: u16): seq<Word> {
    LoadConst.Emitted(LoadConst.Load, R2, v) + StackBase.PushWords(R2)
  }

  /** The expansion of ACONST: `POP R2; ACONST R2, v; PUSH R2`. */
  function AconstWords(v: u16): seq<Word> {
    StackBase.PopWords(R2) + LoadConst.Emitted(LoadConst.Add, R2, v) + StackBase.PushWords(R2)
  }

  /** The expansion of PLABEL for a label at `off` words from its first
      word: `LLABEL R2, label; PUSH R2`. */
  function PlabelWords(off: u16): seq<Word> {
    LoadLabel.Prefix(R2) + LoadConst.Emitted(LoadConst.Add, R2, off) + StackBase.PushWords(R2)
  }

  /** `compile`: a POP R2 for ACONST only, the load, and always one PUSH R2.
      `offset` is what the label resolves to at the instruction's first word
      (nothing is emitted before the LLABEL); only PLABEL uses it, and its
      error aborts the compile. */
  function Compile<L>(ins: ConstInternalOp<L>, offset: Result<u16, CompileError>): (r: Result<seq<Word>, CompileError>)
    ensures ins.Const? ==> r == Ok(PconstWords(ins.val))
    ensures ins.AConst? ==> r == Ok(AconstWords(ins.val))
    ensures ins.Label? && offset.Err? ==> r == Err(offset.error)
    ensures ins.Label? && offset.Ok? ==> r == Ok(PlabelWords(offset.value))
  {
    var push := StackBase.Compile(StackBase.StackBaseInstruction(StackBase.PUSH, R2));
    match ins
    case Const(v) => Join(LoadConst.Compile(LoadConst.Load, R2, v), push)
    case AConst(v) => Join(Join(StackBase.Compile(StackBase.StackBaseInstruction(StackBase.POP, R2)),
                                LoadConst.Compile(LoadConst.Add, R2, v)), push)
    case Label(_) => Join(LoadLabel.Compile(R2, offset), push)
  }

  /** Only ACONST reads the stack first, and every expansion ends with the
      one `PUSH R2`. */
  lemma PushLast<L>(ins: ConstInternalOp<L>, off: u16)
    ensures var w := Compile(ins, Ok(off)).value;
      |w| >= 3 && w[|w| - 2..] == StackBase.PushWords(R2)
      && (w[..2] == StackBase.PopWords(R2) <==> ins.AConst?)
  {
    match ins
    case Const(v) => PconstShape(v);
    case AConst(v) => AconstShape(v);
    case Label(_) => PlabelShape(off);
  }

  /** The shape of PCONST's expansion. */
  lemma PconstShape(v: u16)
    ensures var w := PconstWords(v);
      |w| >= 3 && w[|w| - 2..] == StackBase.PushWords(R2) && w[..2] != StackBase.PopWords(R2)
  {
    var lc := LoadConst.Emitted(LoadConst.Load, R2, v);
    LoadConst.OnlyPcLoads(LoadConst.Load, R2, v);
    EndsWith(lc, StackBase.PushWords(R2));
    assert PconstWords(v)[..2][0] == lc[0];
  }

  /** The shape of ACONST's expansion. */
  lemma AconstShape(v: u16)
    ensures var w := AconstWords(v);
      |w| >= 3 && w[|w| - 2..] == StackBase.PushWords(R2) && w[..2] == StackBase.PopWords(R2)
  {
    var head := StackBase.PopWords(R2) + LoadConst.Emitted(LoadConst.Add, R2, v);
    EndsWith(head, StackBase.PushWords(R2));
    assert (head + StackBase.PushWords(R2))[..2] == StackBase.PopWords(R2);
  }

  /** The shape of PLABEL's expansion. */
  lemma PlabelShape(off: u16)
    ensures var w := PlabelWords(off);
      |w| >= 3 && w[|w| - 2..] == StackBase.PushWords(R2) && w[..2] != StackBase.PopWords(R2)
  {
    var head := LoadLabel.Prefix(R2) + LoadConst.Emitted(LoadConst.Add, R2, off);
    EndsWith(head, StackBase.PushWords(R2));
    assert (head + StackBase.PushWords(R2))[0] == Alu(MOV, R2, PC, ZX);
    assert PlabelWords(off)[..2][0] == Alu(MOV, R2, PC, ZX);
  }

  lemma EndsWith(head: seq<Word>, tail: seq<Word>)
    ensures (head + tail)[|head + tail| - |tail|..] == tail
    ensures |head| > 0 ==> (head + tail)[0] == head[0]
  {
    assert (head + tail)[|head|..] == tail;
  }

  // --- What the words do ----------------------------------------------------

  /** The steps of the load and the push. */
  function LoadPushSteps(op: LoadConst.LoadConstOperation, v: u16): nat {
    LoadConst.StepCount(op, R2, v) + 2
  }

  /** `LCONST R2, v; PUSH R2` or `ACONST R2, v; PUSH R2` pushes the value the
      load leaves in R2. */
  lemma LoadPushMeaning(op: LoadConst.LoadConstOperation, v: u16, image: Image, s: State)
    requires Valid(s)
    requires Holds(image, LoadConst.Emitted(op, R2, v) + StackBase.PushWords(R2), s.pc)
    requires s.pc as int + |LoadConst.Emitted(op, R2, v)| + 2 < 0x1_0000
    ensures var t := Steps(image, s, LoadPushSteps(op, v));
      var x := LoadConst.Target(op, R2, v, s);
      t.Some? && t.value.pc as int == s.pc as int + |LoadConst.Emitted(op, R2, v)| + 2
      && t.value.mem == s.mem[Get(s, SP) := x]
      && Get(t.value, SP) == WrapAdd(Get(s, SP), 1)
      && Get(t.value, R2) == x && Keeps(s, t.value, {R2, SP})
  {
    LoadOfLoadPush(op, v, image, s);
    StackBase.PushAfter(|LoadConst.Emitted(op, R2, v)|, LoadConst.StepCount(op, R2, v), R2, LoadConst.Target(op, R2, v, s), image, s);
  }

  /** The constant load leaves its target in R2 and the PUSH at the new PC. */
  lemma LoadOfLoadPush(op: LoadConst.LoadConstOperation, v: u16, image: Image, s: State)
    requires Valid(s)
    requires Holds(image, LoadConst.Emitted(op, R2, v) + StackBase.PushWords(R2), s.pc)
    requires s.pc as int + |LoadConst.Emitted(op, R2, v)| + 2 < 0x1_0000
    ensures Sets(image, s, LoadConst.StepCount(op, R2, v), |LoadConst.Emitted(op, R2, v)|, R2, LoadConst.Target(op, R2, v, s))
    ensures Holds(image, StackBase.PushWords(R2), Steps(image, s, LoadConst.StepCount(op, R2, v)).value.pc)
  {
    var lc := LoadConst.Emitted(op, R2, v);
    Split(image, lc, StackBase.PushWords(R2), s.pc);
    LoadConst.CompiledMeaning(op, R2, v, image, s);
    LoadConst.EffectSets(R2, LoadConst.Target(op, R2, v, s), |lc|, LoadConst.StepCount(op, R2, v), image, s);
  }

  /** PCONST pushes `v`. */
  lemma PconstMeaning(v: u16, image: Image, s: State)
    requires Valid(s) && Holds(image, PconstWords(v), s.pc) && s.pc as int + |PconstWords(v)| < 0x1_0000
    ensures var t := Steps(image, s, LoadPushSteps(LoadConst.Load, v));
      t.Some? && t.value.pc as int == s.pc as int + |PconstWords(v)|
      && t.value.mem == s.mem[Get(s, SP) := v]
      && Get(t.value, SP) == WrapAdd(Get(s, SP), 1)
      && Keeps(s, t.value, {R2, SP})
  {
    LoadPushMeaning(LoadConst.Load, v, image, s);
  }

  /** ACONST adds `v` to the top of the stack in place; SP is unchanged. */
  lemma AconstMeaning(v: u16, image: Image, s: State)
    requires Valid(s) && Holds(image, AconstWords(v), s.pc) && s.pc as int + |AconstWords(v)| < 0x1_0000
    ensures var t := Steps(image, s, 2 + LoadPushSteps(LoadConst.Add, v));
      var top := WrapSub(Get(s, SP), 1);
      t.Some? && t.value.pc as int == s.pc as int + |AconstWords(v)|
      && t.value.mem == s.mem[top := WrapAdd(Read(image, s, top), v)]
      && Get(t.value, SP) == Get(s, SP)
      && Keeps(s, t.value, {R2})
  {
    PopOfAconst(v, image, s);
    AddPushAfterPop(v, image, s);
  }

  /** The POP that opens ACONST leaves the top of the stack in R2 and the
      rest of the expansion at the new PC. */
  lemma PopOfAconst(v: u16, image: Image, s: State)
    requires Valid(s) && Holds(image, AconstWords(v), s.pc) && s.pc as int + |AconstWords(v)| < 0x1_0000
    ensures |AconstWords(v)| == 2 + |LoadConst.Emitted(LoadConst.Add, R2, v)| + 2
    ensures var t := Steps(image, s, 2);
      t.Some? && t.value.pc as int == s.pc as int + 2 && t.value.mem == s.mem
      && Get(t.value, SP) == WrapSub(Get(s, SP), 1)
      && Get(t.value, R2) == Read(image, s, WrapSub(Get(s, SP), 1))
      && Keeps(s, t.value, {SP, R2})
    ensures Holds(image, LoadConst.Emitted(LoadConst.Add, R2, v) + StackBase.PushWords(R2), Steps(image, s, 2).value.pc)
  {
    var rest := LoadConst.Emitted(LoadConst.Add, R2, v) + StackBase.PushWords(R2);
    assert AconstWords(v) == StackBase.PopWords(R2) + rest;
    Split(image, StackBase.PopWords(R2), rest, s.pc);
    StackBase.PopMeaning(R2, image, s);
  }

  /** The load and push of ACONST run after its POP. */
  lemma AddPushAfterPop(v: u16, image: Image, s: State)
    requires Valid(s) && s.pc as int + 2 + |LoadConst.Emitted(LoadConst.Add, R2, v)| + 2 < 0x1_0000
    requires var t := Steps(image, s, 2);
      t.Some? && t.value.pc as int == s.pc as int + 2 && t.value.mem == s.mem
      && Get(t.value, SP) == WrapSub(Get(s, SP), 1)
      && Get(t.value, R2) == Read(image, s, WrapSub(Get(s, SP), 1))
      && Keeps(s, t.value, {SP, R2})
    requires Holds(image, LoadConst.Emitted(LoadConst.Add, R2, v) + StackBase.PushWords(R2), Steps(image, s, 2).value.pc)
    ensures var t := Steps(image, s, 2 + LoadPushSteps(LoadConst.Add, v));
      var top := WrapSub(Get(s, SP), 1);
      t.Some? && t.value.pc as int == s.pc as int + 2 + |LoadConst.Emitted(LoadConst.Add, R2, v)| + 2
      && t.value.mem == s.mem[top := WrapAdd(Read(image, s, top), v)]
      && Get(t.value, SP) == Get(s, SP)
      && Keeps(s, t.value, {R2})
  {
    var t := Steps(image, s, 2).value;
    LoadPushMeaning(LoadConst.Add, v, image, t);
    StepsAdd(image, s, 2, LoadPushSteps(LoadConst.Add, v));
    AddComposes(s, t, Steps(image, t, LoadPushSteps(LoadConst.Add, v)).value, Read(image, s, WrapSub(Get(s, SP), 1)), v);
  }

  /** The state algebra of `AddPushAfterPop`. */
  lemma AddComposes(s: State, t: State, u: State, top: u16, v: u16)
    requires Valid(s) && Valid(t) && Valid(u)
    requires t.mem == s.mem && Get(t, SP) == WrapSub(Get(s, SP), 1) && Get(t, R2) == top && Keeps(s, t, {SP, R2})
    requires u.mem == t.mem[Get(t, SP) := WrapAdd(Get(t, R2), v)]
    requires Get(u, SP) == WrapAdd(Get(t, SP), 1) && Keeps(t, u, {R2, SP})
    ensures u.mem == s.mem[WrapSub(Get(s, SP), 1) := WrapAdd(top, v)]
    ensures Get(u, SP) == Get(s, SP) && Keeps(s, u, {R2})
  {
  }

  /** PLABEL pushes the label's address: the instruction's first word plus
      the offset the label resolved to. */
  lemma PlabelMeaning(off: u16, image: Image, s: State)
    requires Valid(s) && Holds(image, PlabelWords(off), s.pc) && s.pc as int + |PlabelWords(off)| < 0x1_0000
    ensures var t := Steps(image, s, LoadLabel.StepCount(R2, off) + 2);
      t.Some? && t.value.pc as int == s.pc as int + |PlabelWords(off)|
      && t.value.mem == s.mem[Get(s, SP) := WrapAdd(s.pc, off)]
      && Get(t.value, SP) == WrapAdd(Get(s, SP), 1)
      && Keeps(s, t.value, {R2, SP})
  {
    PlabelLoads(off, image, s);
    StackBase.PushAfter(|PlabelWords(off)| - 2, LoadLabel.StepCount(R2, off), R2, WrapAdd(s.pc, off), image, s);
  }

  /** The LLABEL that opens PLABEL leaves the label's address in R2 and the
      PUSH at the new PC. */
  lemma PlabelLoads(off: u16, image: Image, s: State)
    requires Valid(s) && Holds(image, PlabelWords(off), s.pc) && s.pc as int + |PlabelWords(off)| < 0x1_0000
    ensures |PlabelWords(off)| >= 2
    ensures Sets(image, s, LoadLabel.StepCount(R2, off), |PlabelWords(off)| - 2, R2, WrapAdd(s.pc, off))
    ensures Holds(image, StackBase.PushWords(R2), Steps(image, s, LoadLabel.StepCount(R2, off)).value.pc)
  {
    var ll := LoadLabel.Compile(R2, Ok(off)).value;
    PlabelSplit(off, image, s.pc);
    LoadLabel.CompiledMeaning(R2, off, image, s);
    LoadConst.EffectSets(R2, WrapAdd(s.pc, off), |ll|, LoadLabel.StepCount(R2, off), image, s);
  }

  /** PLABEL's words are LLABEL's followed by the PUSH. */
  lemma PlabelSplit(off: u16, image: Image, base: u16)
    requires Holds(image, PlabelWords(off), base) && base as int + |PlabelWords(off)| < 0x1_0000
    ensures var ll := LoadLabel.Compile(R2, Ok(off)).value;
      |PlabelWords(off)| == |ll| + 2 && Holds(image, ll, base)
      && Holds(image, StackBase.PushWords(R2), At(base, |ll|))
  {
    var ll := LoadLabel.Compile(R2, Ok(off)).value;
    assert PlabelWords(off) == ll + StackBase.PushWords(R2);
    Split(image, ll, StackBase.PushWords(R2), base);
  }
}
