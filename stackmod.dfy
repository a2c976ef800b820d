// The dispatch of `$`-prefixed stack macros (easycpu_lib/src/asm/stack/mod.rs):
// the mnemonic is offered to each family's `parse_operation` in a fixed
// order, the first family that recognises it parses the operands, and a
// mnemonic no family knows is an unknown command.
module StackMod {
  import opened Base
  import opened Cpu
  import opened Errors
  import opened Words
  import Jump
  import StackBase
  import StackLocal
  import StackConst
  import StackAlu
  import StackMem
  import StackJump
  import StackFunction
  import StackCall

  /** The family a mnemonic belongs to, with its operation. */
  datatype Family =
    | BaseFamily(baseOp: StackBase.StackBaseOperation)
    | LocalFamily(localOp: StackLocal.StackLocalOperation)
    | ConstFamily(constOp: StackConst.StackConstOperation)
    | AluFamily(aluOp: AluOperation)
    | MemFamily(memOp: MemOperation)
    | JumpFamily(jumpOp: Jump.JumpOperation)
    | FuncFamily(funcOp: StackFunction.StackFunctionOperation)
    | CallFamily

  /** The ALU and MEM mnemonic tables (easycpu_lib/src/asm/alu.rs and mem.rs)
      are not part of this model; they arrive as these two functions. */
  datatype Tables = Tables(aluOp: string -> Option<AluOperation>, memOp: string -> Option<MemOperation>)

  /** The families in the order they are tried, each with what it makes of
      the mnemonic. */
  function Candidates(name: string, tables: Tables): seq<Option<Family>> {
    [ (match StackBase.ParseOperation(name) case Some(op) => Some(BaseFamily(op)) case None => None),
      (match StackLocal.ParseOperation(name) case Some(op) => Some(LocalFamily(op)) case None => None),
      (match StackConst.ParseOperation(name) case Some(op) => Some(ConstFamily(op)) case None => None),
      (match tables.aluOp(name) case Some(op) => Some(AluFamily(op)) case None => None),
      (match tables.memOp(name) case Some(op) => Some(MemFamily(op)) case None => None),
      (match Jump.ParseOperation(name) case Some(op) => Some(JumpFamily(op)) case None => None),
      (match StackFunction.ParseOperation(name) case Some(op) => Some(FuncFamily(op)) case None => None),
      (if name == "CALL" then Some(CallFamily) else None) ]
  }

  /** The chain of `if let Some(..)` tests: the first family that
      recognises the mnemonic, or `UnknownCommand` with the `$` put back. */
  function Classify(name: string, tables: Tables): (r: Result<Family, CompileError>)
    ensures var c := Candidates(name, tables);
      (r.Ok? <==> exists k :: 0 <= k < |c| && c[k].Some?)
      && (r.Ok? ==> exists k :: 0 <= k < |c| && c[k] == Some(r.value) && forall j :: 0 <= j < k ==> c[j].None?)
      && (r.Err? ==> r.error == UnknownCommand("$" + name))
  {
    var c := Candidates(name, tables);
    if c[0].Some? then Ok(c[0].value)
    else if c[1].Some? then Ok(c[1].value)
    else if c[2].Some? then Ok(c[2].value)
    else if c[3].Some? then Ok(c[3].value)
    else if c[4].Some? then Ok(c[4].value)
    else if c[5].Some? then Ok(c[5].value)
    else if c[6].Some? then Ok(c[6].value)
    else if c[7].Some? then Ok(c[7].value)
    else Err(UnknownCommand("$" + name))
  }

  /** The mnemonics of the families whose tables are modelled overlap
      nowhere, so for them the order of the tests does not matter: a
      mnemonic one of them recognises is classified as that family. */
  lemma FixedFamiliesDisjoint(name: string, tables: Tables)
    requires tables.aluOp(name).None? && tables.memOp(name).None?
    ensures StackBase.ParseOperation(name).Some? ==> Classify(name, tables) == Ok(BaseFamily(StackBase.ParseOperation(name).value))
    ensures StackLocal.ParseOperation(name).Some? ==> Classify(name, tables) == Ok(LocalFamily(StackLocal.ParseOperation(name).value))
    ensures StackConst.ParseOperation(name).Some? ==> Classify(name, tables) == Ok(ConstFamily(StackConst.ParseOperation(name).value))
    ensures Jump.ParseOperation(name).Some? ==> Classify(name, tables) == Ok(JumpFamily(Jump.ParseOperation(name).value))
    ensures StackFunction.ParseOperation(name).Some? ==> Classify(name, tables) == Ok(FuncFamily(StackFunction.ParseOperation(name).value))
    ensures name == "CALL" ==> Classify(name, tables) == Ok(CallFamily)
  {
  }

  /** A base mnemonic wins over any ALU or MEM table entry, and an ALU
      entry over a MEM one. */
  lemma EarlierWins(name: string, tables: Tables)
    ensures StackBase.ParseOperation(name).Some? ==> Classify(name, tables) == Ok(BaseFamily(StackBase.ParseOperation(name).value))
    ensures (tables.aluOp(name).Some? && StackBase.ParseOperation(name).None? && StackLocal.ParseOperation(name).None?
             && StackConst.ParseOperation(name).None?) ==> Classify(name, tables) == Ok(AluFamily(tables.aluOp(name).value))
  {
  }

  /** A parsed stack macro. */
  datatype StackInstruction<L> =
    | BaseIns(base: StackBase.StackBaseInstruction)
    | LocalIns(local: StackLocal.StackLocalInstruction)
    | ConstIns(cons: StackConst.ConstInternalOp<L>)
    | AluIns(alu: StackAlu.StackAluInstruction)
    | MemIns(mem: StackMem.StackMemInstruction)
    | JumpIns(jump: StackJump.StackJumpInstruction<L>)
    | FuncIns(func: StackFunction.StackFunctionInstruction)
    | CallIns(call: StackCall.StackCallInstruction<L>)

  /** What the operand readers (`ParseParts`, not part of this model) return
      for each first read of a fresh operand list: a register, up to three
      constants in order, and a label. */
  datatype Parts<L> = Parts(
    register: Result<Register, CompileError>,
    first: Result<u16, CompileError>,
    second: Result<u16, CompileError>,
    third: Result<u16, CompileError>,
    target: Result<L, CompileError>)

  /** `parse_instruction`: the family's `parse_asm` on the operands; ALU and
      MEM macros take only the flag letters. */
  function ParseInstruction<L>(name: string, flags: string, tables: Tables, parts: Parts<L>)
    : (r: Result<StackInstruction<L>, CompileError>)
    ensures Classify(name, tables).Err? ==> r == Err(UnknownCommand("$" + name))
    ensures Classify(name, tables) == Ok(CallFamily) ==>
      (r.Ok? <==> parts.target.Ok?) && (r.Ok? ==> r.value == CallIns(StackCall.StackCallInstruction(parts.target.value)))
    ensures Classify(name, tables).Ok? && Classify(name, tables).value.AluFamily? ==>
      var op := Classify(name, tables).value.aluOp;
      r == Ok(AluIns(StackAlu.StackAluInstruction(op, 'X' in flags, 'Y' in flags, 'O' in flags)))
    ensures Classify(name, tables).Ok? && Classify(name, tables).value.MemFamily? ==>
      var op := Classify(name, tables).value.memOp;
      r == Ok(MemIns(StackMem.StackMemInstruction(op, 'H' in flags, 'L' in flags, 'S' in flags)))
    ensures Classify(name, tables).Ok? && Classify(name, tables).value.JumpFamily? ==>
      var op := Classify(name, tables).value.jumpOp;
      (r.Ok? <==> parts.target.Ok?) && (r.Ok? ==> r.value == JumpIns(StackJump.StackJumpInstruction(op, parts.target.value)))
    ensures Classify(name, tables).Ok? && Classify(name, tables).value.BaseFamily? ==>
      var op := Classify(name, tables).value.baseOp;
      if op == StackBase.INIT || op == StackBase.DUP || op == StackBase.SWP then r == Ok(BaseIns(StackBase.StackBaseInstruction(op, ZX)))
      else ((r.Ok? <==> parts.register.Ok?) && (r.Ok? ==> r.value == BaseIns(StackBase.StackBaseInstruction(op, parts.register.value)))
            && (r.Err? ==> r.error == parts.register.error))
    ensures Classify(name, tables).Ok? && Classify(name, tables).value.LocalFamily? ==>
      var op := Classify(name, tables).value.localOp;
      if op == StackLocal.LOCEND then r == Ok(LocalIns(StackLocal.StackLocalInstruction(op, 0)))
      else ((r.Ok? <==> parts.first.Ok?) && (r.Ok? ==> r.value == LocalIns(StackLocal.StackLocalInstruction(op, parts.first.value)))
            && (r.Err? ==> r.error == parts.first.error))
    ensures Classify(name, tables).Ok? && Classify(name, tables).value.ConstFamily? ==>
      var op := Classify(name, tables).value.constOp;
      var read := if op == StackConst.LABEL then parts.target.Ok? else parts.first.Ok?;
      (r.Ok? <==> read)
      && (r.Ok? && op == StackConst.CONST ==> r.value == ConstIns(StackConst.Const(parts.first.value)))
      && (r.Ok? && op == StackConst.ACONST ==> r.value == ConstIns(StackConst.AConst(parts.first.value)))
      && (r.Ok? && op == StackConst.LABEL ==> r.value == ConstIns(StackConst.Label(parts.target.value)))
      && (r.Err? ==> r.error == if op == StackConst.LABEL then parts.target.error else parts.first.error)
    ensures Classify(name, tables).Ok? && Classify(name, tables).value.FuncFamily? ==>
      var op := Classify(name, tables).value.funcOp;
      if op == StackFunction.RETURN then r == Ok(FuncIns(StackFunction.StackFunctionInstruction(op, 0, 0, 0)))
      else ((r.Ok? <==> parts.first.Ok? && parts.second.Ok? && parts.third.Ok?)
            && (r.Ok? ==> r.value == FuncIns(StackFunction.StackFunctionInstruction(op, parts.first.value, parts.second.value, parts.third.value)))
            && (r.Err? ==> r.error == if parts.first.Err? then parts.first.error else if parts.second.Err? then parts.second.error else parts.third.error))
  {
    var family :- Classify(name, tables);
    match family
    case BaseFamily(op) =>
      var ins :- StackBase.ParseAsm(op, parts.register); Ok(BaseIns(ins))
    case LocalFamily(op) =>
      var ins :- StackLocal.ParseAsm(op, parts.first); Ok(LocalIns(ins))
    case ConstFamily(op) =>
      var ins :- StackConst.ParseAsm(op, parts.first, parts.target); Ok(ConstIns(ins))
    case AluFamily(op) =>
      Ok(AluIns(StackAlu.FlagsFromStr(StackAlu.StackAluInstruction(op, false, false, false), flags)))
    case MemFamily(op) =>
      Ok(MemIns(StackMem.FlagsFromStr(StackMem.StackMemInstruction(op, false, false, false), flags)))
    case JumpFamily(op) =>
      var ins :- StackJump.ParseAsm(op, parts.target); Ok(JumpIns(ins))
    case FuncFamily(op) =>
      var ins :- StackFunction.ParseAsm(op, parts.first, parts.second, parts.third); Ok(FuncIns(ins))
    case CallFamily =>
      var ins :- StackCall.ParseAsm(parts.target); Ok(CallIns(ins))
  }
}
