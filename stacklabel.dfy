// The stack label macro of easycpu_lib/src/asm/stack/label.rs: `LLABEL R2,
// label` followed by `PUSH R2`, the same words as `$PLABEL`.
module StackLabel {
  import opened Base
  import opened Cpu
  import opened Errors
  import opened Words
  import opened AsmInst
  import LoadLabel
  import StackBase
  import StackConst

  /** `StackLabelInstruction`, over the unresolved label type `L`. */
  datatype StackLabelInstruction<L> = StackLabelInstruction(target: L)

  /** `parse_asm`: reads one label; a failed read is the error. */
  function ParseAsm<L>(target: Result<L, CompileError>): (r: Result<StackLabelInstruction<L>, CompileError>)
    ensures target.Ok? ==> r == Ok(StackLabelInstruction(target.value))
    ensures target.Err? ==> r == Err(target.error)
  {
    var t :- target;
    Ok(StackLabelInstruction(t))
  }

  /** `compile`, with the label resolved at the instruction's first word to
      `offset`: the LLABEL, then the PUSH; a failure of either aborts. */
  function Compile<L>(ins: StackLabelInstruction<L>, offset: Result<u16, CompileError>): (r: Result<seq<Word>, CompileError>)
    ensures offset.Err? ==> r == Err(offset.error)
    ensures offset.Ok? ==> r == Ok(StackConst.PlabelWords(offset.value))
  {
    Join(LoadLabel.Compile(R2, offset), StackBase.Compile(StackBase.StackBaseInstruction(StackBase.PUSH, R2)))
  }

  /** The instruction compiles exactly as `$PLABEL` of the same label, so it
      pushes the label's address (`StackConst.PlabelMeaning`). */
  lemma SameAsPlabel<L>(ins: StackLabelInstruction<L>, offset: Result<u16, CompileError>)
    ensures Compile(ins, offset) == StackConst.Compile(StackConst.Label(ins.target), offset)
  {
  }
}
