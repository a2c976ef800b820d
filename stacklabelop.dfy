// The label operation of the stack virtual instruction set
// (easycpu_lib/src/stack/instr/label.rs): it pushes the address of a label,
// identified by the number its resolution gave, loaded into the output
// register the compiler hands out.
module StackLabelOp {
  import opened Base
  import opened Cpu
  import opened Errors
  import opened Words
  import opened StackSig

  /** `LabelStackOp`: the label's identifier. Copying it (`duplicate`) is
      copying this value. */
  datatype LabelStackOp = LabelStackOp(labelId: nat)

  /** `signature`: pushes one value, takes none, no temps, no flags. */
  function Signature(op: LabelStackOp): (sig: StackSig.Signature)
    ensures Unflagged(sig) && sig.takes == 0 && sig.pushes == 1 && sig.temps == 0
  {
    Plain(0, 1)
  }

  /** `LoadLabelInstruction::instr` (its revision is not part of this
      model): the words that load label `id` into a register, or the error
      of resolving it. */
  type LabelCode = (Register, nat) -> Result<seq<Word>, CompileError>

  /** `execute`: the label is loaded into `outs[0]`; an error of the load
      is the result, and then nothing is emitted. */
  method Execute<O>(op: LabelStackOp, stack: StackExecCtx, comp: CompContext<O>, labelCode: LabelCode) returns (r: Result<(), CompileError>)
    requires |stack.outs| >= 1
    modifies comp
    ensures var code := labelCode(stack.outs[0], op.labelId);
      (r.Ok? <==> code.Ok?)
      && (r.Err? ==> r.error == code.error && comp.words == old(comp.words))
      && (r.Ok? ==> comp.words == old(comp.words) + code.value)
    ensures comp.stacked == old(comp.stacked)
  {
    var code := labelCode(stack.outs[0], op.labelId);
    if code.Err? {
      return Err(code.error);
    }
    comp.InstructAll(code.value);
    r := Ok(());
  }

  /** `StackLabelInstruction`, over the unresolved label type `L`. */
  datatype StackLabelInstruction<L> = StackLabelInstruction(target: L)

  /** `parse_asm`: one label operand, or the reader's error. The operand
      reader is not part of this model: `target` is what it returns. */
  function ParseAsm<L>(target: Result<L, CompileError>): (r: Result<StackLabelInstruction<L>, CompileError>)
    ensures r.Ok? <==> target.Ok?
    ensures r.Ok? ==> r.value.target == target.value
    ensures r.Err? ==> r.error == target.error
  {
    match target
    case Err(e) => Err(e)
    case Ok(l) => Ok(StackLabelInstruction(l))
  }

  /** `compile`: resolves the label to its identifier (`resolve` stands for
      `ParsedLabel::resolve`, which is not part of this model) and hands one
      label operation with it to the compile context, emitting no word. A
      resolution error aborts with nothing handed on. `wrap` is how the
      context's operation type holds a label operation. */
  method Compile<L, O>(ins: StackLabelInstruction<L>, resolve: L -> Result<nat, CompileError>,
                       wrap: LabelStackOp -> O, comp: CompContext<O>) returns (r: Result<(), CompileError>)
    modifies comp
    ensures r.Ok? <==> resolve(ins.target).Ok?
    ensures r.Err? ==> r.error == resolve(ins.target).error && comp.stacked == old(comp.stacked)
    ensures r.Ok? ==> comp.stacked == old(comp.stacked) + [wrap(LabelStackOp(resolve(ins.target).value))]
    ensures comp.words == old(comp.words)
  {
    var id := resolve(ins.target);
    if id.Err? {
      return Err(id.error);
    }
    comp.Stack(wrap(LabelStackOp(id.value)));
    r := Ok(());
  }
}
