// The stack jump macros `$JMP`, `$JEQ`, ... (easycpu_lib/src/asm/stack/jump.rs):
// a conditional jump pops its condition into R2 and tests it; JMP pops
// nothing and tests ZX. The jump itself is the ordinary jump macro, compiled
// at the address just past the pop.
module StackJump {
  import opened Base
  import opened Cpu
  import opened Errors
  import opened Words
  import opened AsmInst
  import opened Semantics
  import Jump
  import StackBase
  import StackMem

  /** `StackJumpInstruction`, over the unresolved label type `L`. */
  datatype StackJumpInstruction<L> = StackJumpInstruction(op: Jump.JumpOperation, targ: L)

  /** `parse_asm`: only the label is read. The operand reader is not part of
      this model: `target` is what it returns. */
  function ParseAsm<L>(op: Jump.JumpOperation, target: Result<L, CompileError>): (r: Result<StackJumpInstruction<L>, CompileError>)
    ensures r.Ok? <==> target.Ok?
    ensures r.Ok? ==> r.value == StackJumpInstruction(op, target.value)
    ensures r.Err? ==> r.error == target.error
  {
    var t :- target;
    Ok(StackJumpInstruction(op, t))
  }

  /** The register the jump tests. */
  function CondReg(op: Jump.JumpOperation): Register {
    if op == Jump.JMP then ZX else R2
  }

  /** What is emitted before the jump: `POP R2` for every conditional jump. */
  function PopPart(op: Jump.JumpOperation): seq<Word> {
    if op == Jump.JMP then [] else StackBase.PopWords(R2)
  }

  /** `compile` at address `pc`: the pop, then the jump compiled at the
      address just past it. `resolve` maps an address to what the label
      resolves to from there (the label table is not part of this model);
      its error aborts. The address sum is taken as wrapping. */
  function Compile<L>(ins: StackJumpInstruction<L>, pc: u16, resolve: u16 -> Result<u16, CompileError>)
    : (r: Result<seq<Word>, CompileError>)
    ensures var at := WrapAdd(pc, |PopPart(ins.op)| as u16);
      (r.Ok? <==> resolve(at).Ok?)
      && (r.Err? ==> r.error == resolve(at).error)
      && (r.Ok? ==> r.value == PopPart(ins.op) + Jump.Compile(ins.op, CondReg(ins.op), resolve(at)).value)
  {
    var pop := if ins.op == Jump.JMP then Ok([])
               else StackBase.Compile(StackBase.StackBaseInstruction(StackBase.POP, R2));
    match pop
    case Err(e) => Err(e)
    case Ok(p) =>
      Join(Ok(p), Jump.Compile(ins.op, CondReg(ins.op), resolve(WrapAdd(pc, |p| as u16))))
  }

  // --- What the words do ----------------------------------------------------

  /** The condition a popped value `v` must satisfy for the jump to be taken. */
  predicate Passes(op: Jump.JumpOperation, v: u16) {
    Taken(Jump.WithFlags(BranchInstruction(true, true, true, R2, 0), Jump.Flags(op)), v)
  }

  /** The steps of a conditional jump: the pop, then one step, or two when
      the long form's jump is taken. */
  function StepCount(op: Jump.JumpOperation, targ: u16, v: u16): nat {
    2 + (if Jump.ConvertToShift(targ).Ok? then 1 else if Passes(op, v) then 2 else 1)
  }

  /** `$JMP` always goes to the target and changes nothing else. */
  lemma JmpMeaning(targ: u16, image: Image, s: State)
    requires Valid(s)
    requires Holds(image, Jump.Compile(Jump.JMP, ZX, Ok(targ)).value, s.pc)
    requires s.pc as int + |Jump.Compile(Jump.JMP, ZX, Ok(targ)).value| < 0x1_0000
    ensures var t := Steps(image, s, Jump.StepCount(Jump.JMP, ZX, targ, s));
      t.Some? && t.value.pc == WrapAdd(s.pc, targ)
      && (forall q :: q != PC ==> Get(t.value, q) == Get(s, q))
      && t.value.mem == s.mem
  {
    Jump.CompiledMeaning(Jump.JMP, ZX, targ, image, s);
  }

  /** A conditional stack jump removes the top of the stack and jumps to the
      target (the jump word's address plus the offset) exactly when that
      value passes the condition; otherwise control reaches the word after
      the sequence. Memory is unchanged. */
  lemma CondMeaning(op: Jump.JumpOperation, targ: u16, image: Image, s: State)
    requires op != Jump.JMP && Valid(s)
    requires Holds(image, StackBase.PopWords(R2) + Jump.Compile(op, R2, Ok(targ)).value, s.pc)
    requires s.pc as int + 2 + |Jump.Compile(op, R2, Ok(targ)).value| < 0x1_0000
    ensures var t := Steps(image, s, StepCount(op, targ, StackMem.Top(image, s)));
      var v := StackMem.Top(image, s);
      t.Some?
      && (Passes(op, v) ==> t.value.pc == WrapAdd(At(s.pc, 2), targ))
      && (!Passes(op, v) ==> t.value.pc as int == s.pc as int + 2 + |Jump.Compile(op, R2, Ok(targ)).value|)
      && Get(t.value, SP) == WrapSub(Get(s, SP), 1)
      && Get(t.value, R2) == v
      && Keeps(s, t.value, {SP, R2})
      && t.value.mem == s.mem
  {
    var jw := Jump.Compile(op, R2, Ok(targ)).value;
    Split(image, StackBase.PopWords(R2), jw, s.pc);
    StackBase.PopMeaning(R2, image, s);
    var t := Steps(image, s, 2);
    assert t.Some? && t.value.pc == At(s.pc, 2);
    assert Holds(image, jw, t.value.pc);
    JumpAfterPop(op, targ, image, s);
  }

  /** The jump of `CondMeaning`, once `POP R2` has run. */
  lemma JumpAfterPop(op: Jump.JumpOperation, targ: u16, image: Image, s: State)
    requires Valid(s) && s.pc as int + 2 + |Jump.Compile(op, R2, Ok(targ)).value| < 0x1_0000
    requires var t := Steps(image, s, 2);
      t.Some? && t.value.pc as int == s.pc as int + 2 && t.value.mem == s.mem
      && Get(t.value, SP) == WrapSub(Get(s, SP), 1)
      && Get(t.value, R2) == StackMem.Top(image, s)
      && Keeps(s, t.value, {SP, R2})
      && Holds(image, Jump.Compile(op, R2, Ok(targ)).value, t.value.pc)
    ensures var t := Steps(image, s, StepCount(op, targ, StackMem.Top(image, s)));
      var v := StackMem.Top(image, s);
      t.Some?
      && (Passes(op, v) ==> t.value.pc == WrapAdd(At(s.pc, 2), targ))
      && (!Passes(op, v) ==> t.value.pc as int == s.pc as int + 2 + |Jump.Compile(op, R2, Ok(targ)).value|)
      && Get(t.value, SP) == WrapSub(Get(s, SP), 1)
      && Get(t.value, R2) == v
      && Keeps(s, t.value, {SP, R2})
      && t.value.mem == s.mem
  {
    var t := Steps(image, s, 2).value;
    var v := StackMem.Top(image, s);
    var m := Jump.StepCount(op, R2, targ, t);
    assert Jump.Jumps(op, R2, t) == Passes(op, v);
    Jump.CompiledMeaning(op, R2, targ, image, t);
    StepsAfter(image, s, 2, m, StepCount(op, targ, v));
    JumpKeeps(s, t, Steps(image, t, m).value);
  }

  /** The state algebra of `JumpAfterPop`: the jump changes only PC. */
  lemma JumpKeeps(s: State, t: State, u: State)
    requires Valid(s) && Valid(t) && Valid(u)
    requires Keeps(s, t, {SP, R2})
    requires forall q :: q != PC ==> Get(u, q) == Get(t, q)
    ensures Keeps(s, u, {SP, R2}) && Get(u, SP) == Get(t, SP) && Get(u, R2) == Get(t, R2)
  {
  }
}
