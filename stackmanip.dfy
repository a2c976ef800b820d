// The stack manipulation operations SWP, DUP and DROP
// (easycpu_lib/src/stack/instr/manip.rs). They emit no machine word: they
// only say which input register each output is, so the compiler that holds
// the stack in registers lowers them to register renaming.
module StackManip {
  import opened Base
  import opened Cpu
  import opened StackSig

  /** `ManipStackOperation`, in the count-less revision of this file. */
  datatype ManipOperation = Swp | Dup | Drop

  /** The mnemonic of each operation. */
  function Name(op: ManipOperation): string {
    match op
    case Swp => "SWP"
    case Dup => "DUP"
    case Drop => "DROP"
  }

  /** `parse_asm`: exactly the three mnemonics. */
  function ParseAsm(name: string): (r: Option<ManipOperation>)
    ensures r.Some? ==> Name(r.value) == name
    ensures forall op :: name == Name(op) ==> r == Some(op)
  {
    match name
    case "SWP" => Some(Swp)
    case "DUP" => Some(Dup)
    case "DROP" => Some(Drop)
    case _ => None
  }

  /** `signature`: no flags and no temps for any of them. */
  function Signature(op: ManipOperation): (sig: StackSig.Signature)
    ensures Unflagged(sig) && sig.temps == 0
    ensures op == Swp ==> sig.takes == 2 && sig.pushes == 2
    ensures op == Dup ==> sig.takes == 1 && sig.pushes == 2
    ensures op == Drop ==> sig.takes == 1 && sig.pushes == 0
  {
    match op
    case Swp => Plain(2, 2)
    case Dup => Plain(1, 2)
    case Drop => Plain(1, 0)
  }

  /** The entries `execute` indexes exist. */
  predicate Fits(op: ManipOperation, inps: seq<Register>, outs: seq<Register>) {
    match op
    case Swp => |inps| >= 2 && |outs| >= 2
    case Dup => |inps| >= 1 && |outs| >= 2
    case Drop => true
  }

  /** `outs` as `execute` leaves it. */
  function Outs(op: ManipOperation, inps: seq<Register>, outs: seq<Register>): seq<Register>
    requires Fits(op, inps, outs)
  {
    match op
    case Swp => outs[0 := inps[1]][1 := inps[0]]
    case Dup => outs[0 := inps[0]][1 := inps[0]]
    case Drop => outs
  }

  /** `execute`: overwrites the first output entries, emits nothing (the
      compile context is not used) and always succeeds. */
  method Execute(op: ManipOperation, stack: StackExecCtx)
    requires Fits(op, stack.inps, stack.outs)
    modifies stack
    ensures stack.outs == Outs(op, old(stack.inps), old(stack.outs))
    ensures stack.inps == old(stack.inps) && stack.temps == old(stack.temps)
  {
    match op
    case Swp =>
      stack.outs := stack.outs[0 := stack.inps[1]];
      stack.outs := stack.outs[1 := stack.inps[0]];
    case Dup =>
      stack.outs := stack.outs[0 := stack.inps[0]];
      stack.outs := stack.outs[1 := stack.inps[0]];
    case Drop =>
  }

  /** What each operation does to the values on top of the stack, deepest
      first: SWP exchanges the two, DUP repeats the one, DROP removes it. */
  function Effect(op: ManipOperation, vals: seq<u16>): (r: seq<u16>)
    requires |vals| == Signature(op).takes
    ensures |r| == Signature(op).pushes
  {
    match op
    case Swp => [vals[1], vals[0]]
    case Dup => [vals[0], vals[0]]
    case Drop => []
  }

  /** With the inputs in `inps` (one register per value taken) and whatever
      the registers hold, the outputs `execute` names hold the operation's
      effect on the input values, in order. */
  lemma ExecuteRealises(op: ManipOperation, inps: seq<Register>, outs: seq<Register>, val: Register -> u16)
    requires |inps| == Signature(op).takes && |outs| >= Signature(op).pushes && Fits(op, inps, outs)
    ensures var o := Outs(op, inps, outs);
      var vals := seq(|inps|, i requires 0 <= i < |inps| => val(inps[i]));
      |o| >= Signature(op).pushes
      && forall j :: 0 <= j < Signature(op).pushes ==> val(o[j]) == Effect(op, vals)[j]
  {
  }
}
