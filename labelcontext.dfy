// The numbered-label compile context of easycpu_lib/src/compile/context.rs:
// emitted instructions, the current address, label positions by id, the
// "another pass is needed" flag and the collected errors. The named-label
// resolver it also holds is not part of this model.
module LabelContext {
  import opened Base
  import opened Cpu
  import Position

  /** `usize::MAX`, the id that stands for "the address 8 words ahead";
      the source is taken as built for a 64-bit target. */
  const UsizeMax: nat := 0xFFFF_FFFF_FFFF_FFFF

  /** Where `emit_new_label` places a label before it is emitted. */
  const Placeholder: u16 := 8

  /** The context's fields as a value. */
  datatype ContextValue = ContextValue(
    currentPc: u16,
    instructions: seq<Instruction>,
    labelPos: seq<u16>,
    shouldRecompile: bool,
    errors: seq<Position.PosCompileError>)

  /** `new`. */
  const Empty := ContextValue(0, [], [], false, [])

  /** `instruct`: one more instruction, one word further on (the address
      wraps around; see the notes on overflow). */
  function Instructed(v: ContextValue, ins: Instruction): ContextValue {
    v.(instructions := v.instructions + [ins], currentPc := WrapAdd(v.currentPc, 1))
  }

  /** `patch_instruct`: one slot overwritten. */
  function Patched(v: ContextValue, pc: u16, ins: Instruction): ContextValue
    requires (pc as int) < |v.instructions|
  {
    v.(instructions := v.instructions[pc := ins])
  }

  /** `emit_new_label`: the new id and the context after it. */
  function NewLabel(v: ContextValue): (ContextValue, nat) {
    (v.(labelPos := v.labelPos + [WrapAdd(v.currentPc, Placeholder)], shouldRecompile := true), |v.labelPos|)
  }

  /** `emit_label`: the label moves to the current address, and the flag is
      raised only if that moved it. */
  function Emitted(v: ContextValue, id: nat): ContextValue
    requires id < |v.labelPos|
  {
    if v.labelPos[id] != v.currentPc then v.(labelPos := v.labelPos[id := v.currentPc], shouldRecompile := true) else v
  }

  /** `resolve_label`: the label's position relative to the current
      address. */
  function Resolved(v: ContextValue, id: nat): u16
    requires id == UsizeMax || id < |v.labelPos|
  {
    if id == UsizeMax then WrapAdd(v.currentPc, Placeholder) else WrapSub(v.labelPos[id], v.currentPc)
  }

  /** `instruct` appends exactly one instruction and advances the address by
      one; `patch_instruct` changes one slot and nothing else. */
  lemma InstructMeaning(v: ContextValue, ins: Instruction, pc: u16, patch: Instruction)
    ensures |Instructed(v, ins).instructions| == |v.instructions| + 1
    ensures Instructed(v, ins).instructions[..|v.instructions|] == v.instructions
    ensures Instructed(v, ins).instructions[|v.instructions|] == ins
    ensures (v.currentPc as int) < 0xFFFF ==> Instructed(v, ins).currentPc as int == v.currentPc as int + 1
    ensures (pc as int) < |v.instructions| ==>
      var w := Patched(v, pc, patch);
      |w.instructions| == |v.instructions| && w.instructions[pc] == patch
      && (forall k :: 0 <= k < |v.instructions| && k != pc as int ==> w.instructions[k] == v.instructions[k])
      && w.currentPc == v.currentPc && w.labelPos == v.labelPos && w.shouldRecompile == v.shouldRecompile
  {
  }

  /** Labels created one after another get the ids 0, 1, 2, … in order;
      each new label asks for another pass. */
  lemma NewLabelIds(v: ContextValue)
    ensures var (w, id) := NewLabel(v);
      id == |v.labelPos| && |w.labelPos| == id + 1
      && w.labelPos[..id] == v.labelPos && w.shouldRecompile
      && w.currentPc == v.currentPc && w.instructions == v.instructions
    ensures var (w, id) := NewLabel(v); NewLabel(w).1 == id + 1
  {
  }

  /** `emit_label` puts the label at the current address, raises the flag
      exactly when it moved, and touches no other label; a second call at the
      same address changes nothing. */
  lemma EmittedMeaning(v: ContextValue, id: nat)
    requires id < |v.labelPos|
    ensures |Emitted(v, id).labelPos| == |v.labelPos|
    ensures Emitted(v, id).labelPos[id] == v.currentPc
    ensures forall j :: 0 <= j < |v.labelPos| && j != id ==> Emitted(v, id).labelPos[j] == v.labelPos[j]
    ensures Emitted(v, id).shouldRecompile == (v.shouldRecompile || v.labelPos[id] != v.currentPc)
    ensures Emitted(v, id).currentPc == v.currentPc && Emitted(v, id).instructions == v.instructions
    ensures Emitted(Emitted(v, id), id) == Emitted(v, id)
  {
  }

  /** The resolved offset, added to the address at which it is resolved,
      gives the label's position; the reserved id gives the address 8 words
      ahead. */
  lemma ResolvedMeaning(v: ContextValue, id: nat)
    requires id == UsizeMax || id < |v.labelPos|
    ensures id == UsizeMax ==> Resolved(v, id) == WrapAdd(v.currentPc, 8)
    ensures id != UsizeMax ==> WrapAdd(v.currentPc, Resolved(v, id)) == v.labelPos[id]
  {
  }

  /** After `emit_label`, resolving the label at the same address gives 0. */
  lemma EmittedResolvesHere(v: ContextValue, id: nat)
    requires id < |v.labelPos| && id != UsizeMax
    ensures Resolved(Emitted(v, id), id) == 0
  {
  }

  class CompileContext {
    var currentPc: u16
    var instructions: seq<Instruction>
    var labelPos: seq<u16>
    var shouldRecompile: bool
    var errors: seq<Position.PosCompileError>

    function Value(): ContextValue
      reads this
    {
      ContextValue(currentPc, instructions, labelPos, shouldRecompile, errors)
    }

    /** `new`. */
    constructor ()
      ensures Value() == Empty
    {
      currentPc := 0;
      instructions := [];
      labelPos := [];
      shouldRecompile := false;
      errors := [];
    }

    method Instruct(ins: Instruction)
      modifies this
      ensures Value() == Instructed(old(Value()), ins)
    {
      instructions := instructions + [ins];
      currentPc := WrapAdd(currentPc, 1);
    }

    /** `patch_instruct`; a slot that does not exist makes the source panic. */
    method PatchInstruct(pc: u16, ins: Instruction)
      requires (pc as int) < |instructions|
      modifies this
      ensures Value() == Patched(old(Value()), pc, ins)
    {
      instructions := instructions[pc := ins];
    }

    method EmitNewLabel() returns (id: nat)
      modifies this
      ensures (Value(), id) == NewLabel(old(Value()))
    {
      id := |labelPos|;
      labelPos := labelPos + [WrapAdd(currentPc, Placeholder)];
      shouldRecompile := true;
    }

    /** `emit_label`; always `Ok`, and an unknown id makes the source panic. */
    method EmitLabel(id: nat)
      requires id < |labelPos|
      modifies this
      ensures Value() == Emitted(old(Value()), id)
    {
      var prev := labelPos[id];
      if prev != currentPc {
        labelPos := labelPos[id := currentPc];
        shouldRecompile := true;
      }
    }

    /** `resolve_label`; always `Ok`, and an unknown id makes the source panic. */
    method ResolveLabel(id: nat) returns (offset: u16)
      requires id == UsizeMax || id < |labelPos|
      ensures offset == Resolved(Value(), id)
    {
      if id == UsizeMax {
        return WrapAdd(currentPc, Placeholder);
      }
      var pos := labelPos[id];
      offset := WrapSub(pos, currentPc);
    }
  }
}
