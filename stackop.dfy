// The stack operation interface and its plain compiler
// (easycpu_lib/src/stack/stackop.rs). `compile_stackop` lowers one stack
// operation without any register allocation: it loads the values the
// operation takes from just below SP into R2..R5, executes the operation on
// those registers, stores the values it pushes back to the stack and moves
// SP by the difference.
module StackOp {
  import opened Base
  import opened Cpu
  import opened Errors
  import opened Words
  import opened Semantics
  import opened StackSig
  import StackManip
  import StackLocal
  import StackLocalOp
  import StackLabelOp

  /** The stack operations of this model (the implementors of
      `StackOperation`). */
  datatype Op =
    | Manip(manip: StackManip.ManipOperation)
    | Local(local: StackLocal.StackLocalInstruction)
    | Label(labelOp: StackLabelOp.LabelStackOp)

  /** `StackOperation::signature`. */
  function Signature(op: Op): StackSig.Signature {
    match op
    case Manip(m) => StackManip.Signature(m)
    case Local(l) => StackLocalOp.Signature(l.op)
    case Label(l) => StackLabelOp.Signature(l)
  }

  /** The register entries `execute` indexes exist. */
  predicate Fits(op: Op, inps: seq<Register>, outs: seq<Register>, temps: seq<Register>) {
    match op
    case Manip(m) => StackManip.Fits(m, inps, outs)
    case Local(l) => StackLocalOp.Fits(l.op, inps, outs, temps)
    case Label(_) => |outs| >= 1
  }

  /** What an `execute` that succeeds leaves: the words it emitted and the
      output registers. */
  datatype Executed = Executed(words: seq<Word>, outs: seq<Register>)

  /** `StackOperation::execute` as a value. */
  function ExecSpec(op: Op, inps: seq<Register>, outs: seq<Register>, temps: seq<Register>,
                    labelCode: StackLabelOp.LabelCode): (r: Result<Executed, CompileError>)
    requires Fits(op, inps, outs, temps)
    ensures r.Err? ==> op.Label?
    ensures r.Ok? ==> |r.value.outs| == |outs|
    ensures r.Ok? && !op.Manip? ==> r.value.outs == outs
    ensures r.Ok? && op.Manip? ==> r.value.words == []
  {
    match op
    case Manip(m) => Ok(Executed([], StackManip.Outs(m, inps, outs)))
    case Local(l) => Ok(Executed(StackLocalOp.ExecWords(l, inps, outs, temps), outs))
    case Label(l) =>
      match labelCode(outs[0], l.labelId)
      case Err(e) => Err(e)
      case Ok(w) => Ok(Executed(w, outs))
  }

  /** `StackOperation::execute`, dispatched. */
  method Execute(op: Op, stack: StackExecCtx, comp: CompContext<Op>, labelCode: StackLabelOp.LabelCode) returns (r: Result<(), CompileError>)
    requires Fits(op, stack.inps, stack.outs, stack.temps)
    modifies stack, comp
    ensures var e := ExecSpec(op, old(stack.inps), old(stack.outs), old(stack.temps), labelCode);
      (r.Ok? <==> e.Ok?)
      && (r.Err? ==> r.error == e.error && comp.words == old(comp.words))
      && (r.Ok? ==> comp.words == old(comp.words) + e.value.words && stack.outs == e.value.outs)
    ensures stack.inps == old(stack.inps) && stack.temps == old(stack.temps)
    ensures comp.stacked == old(comp.stacked)
  {
    match op
    case Manip(m) =>
      StackManip.Execute(m, stack);
      r := Ok(());
    case Local(l) =>
      StackLocalOp.Execute(l, stack, comp);
      r := Ok(());
    case Label(l) =>
      r := StackLabelOp.Execute(l, stack, comp, labelCode);
  }

  /** `StackOpInstruction::compile`: a copy of the operation goes to the
      compile context; no word is emitted and it cannot fail. */
  method InstructionCompile(op: Op, comp: CompContext<Op>) returns (r: Result<(), CompileError>)
    modifies comp
    ensures r.Ok?
    ensures comp.stacked == old(comp.stacked) + [op] && comp.words == old(comp.words)
  {
    comp.Stack(op);
    r := Ok(());
  }

  /** `StackLabelInstruction::compile` (easycpu_lib/src/stack/instr/label.rs)
      with this module's operation type. */
  method LabelCompile<L>(ins: StackLabelOp.StackLabelInstruction<L>, resolve: L -> Result<nat, CompileError>,
                         comp: CompContext<Op>) returns (r: Result<(), CompileError>)
    modifies comp
    ensures r.Ok? <==> resolve(ins.target).Ok?
    ensures r.Err? ==> r.error == resolve(ins.target).error && comp.stacked == old(comp.stacked)
    ensures r.Ok? ==> comp.stacked == old(comp.stacked) + [Label(StackLabelOp.LabelStackOp(resolve(ins.target).value))]
    ensures comp.words == old(comp.words)
  {
    r := StackLabelOp.Compile(ins, resolve, l => Label(l), comp);
  }

  // --- Moving SP ----------------------------------------------------------------

  const IncSp := Alu(INC, SP, SP, ZX)
  const DecSp := Alu(DEC, SP, SP, ZX)

  /** `n` copies of `w`. */
  function Repeat(w: Word, n: nat): (r: seq<Word>)
    ensures |r| == n
  {
    seq(n, _ => w)
  }

  lemma RepeatGrows(w: Word, n: nat)
    ensures Repeat(w, n + 1) == Repeat(w, n) + [w] == [w] + Repeat(w, n)
  {
  }

  /** The words `apply_stack_shift` emits for `shift`. */
  function ShiftWords(shift: int): seq<Word> {
    if shift < 0 then Repeat(DecSp, -shift) else Repeat(IncSp, shift)
  }

  /** `apply_stack_shift`: one `DEC SP` per unit below zero, or one `INC SP`
      per unit above, counting the shift back to zero. */
  method ApplyStackShift<O>(comp: CompContext<O>, shift: int) returns (rest: int)
    modifies comp
    ensures rest == 0
    ensures comp.words == old(comp.words) + ShiftWords(shift) && comp.stacked == old(comp.stacked)
  {
    rest := shift;
    while rest < 0
      invariant shift < 0 ==> shift <= rest <= 0 && comp.words == old(comp.words) + Repeat(DecSp, rest - shift)
      invariant shift >= 0 ==> rest == shift && comp.words == old(comp.words)
      invariant comp.stacked == old(comp.stacked)
    {
      rest := rest + 1;
      RepeatGrows(DecSp, rest - 1 - shift);
      comp.Instruct(DecSp);
    }
    while rest > 0
      invariant shift < 0 ==> rest == 0 && comp.words == old(comp.words) + Repeat(DecSp, -shift)
      invariant shift >= 0 ==> 0 <= rest <= shift && comp.words == old(comp.words) + Repeat(IncSp, shift - rest)
      invariant comp.stacked == old(comp.stacked)
    {
      rest := rest - 1;
      RepeatGrows(IncSp, shift - rest - 1);
      comp.Instruct(IncSp);
    }
  }

  // --- compile_stackop ------------------------------------------------------------

  /** The loads: the `k`-th word loads `R2..R5[takes - 1 - k]` from
      `SP - (k + 1)`, so the deepest value lands in R2. */
  function LoadWords(takes: nat): (w: seq<Word>)
    requires takes <= 4
    ensures |w| == takes
  {
    seq(takes, k requires 0 <= k < takes => Mem(MemOperation.LOAD, Candidates[takes - 1 - k], SP, (-(k + 1)) as i8))
  }

  /** The stores: the `j`-th word stores `outs[j]` at `SP + from + j`. */
  function StoreWords(outs: seq<Register>, pushes: nat, from: int): (w: seq<Word>)
    requires pushes <= |outs| && -128 <= from && from + pushes <= 128
    ensures |w| == pushes
  {
    seq(pushes, j requires 0 <= j < pushes => Mem(MemOperation.STORE, outs[j], SP, (from + j) as i8))
  }

  /** What `compile_stackop` can lower: at most four values each way (there
      are four registers), and an `execute` whose indices are in range with
      R2..R5 as inputs and outputs and no temps (this revision's
      `StackExecCtx` has none). */
  predicate Compilable(op: Op) {
    var sig := Signature(op);
    sig.takes <= 4 && sig.pushes <= 4 && Fits(op, Candidates, Candidates, [])
  }

  /** Where the stores start, relative to SP: an impure operation sees SP
      already moved down past its inputs. */
  function StoreFrom(sig: StackSig.Signature): int {
    if sig.impure then 0 else -(sig.takes as int)
  }

  /** What `compile_stackop` emits before `execute`: the loads, and for an
      impure operation the move of SP down past its inputs. */
  function Prefix(sig: StackSig.Signature): seq<Word>
    requires sig.takes <= 4
  {
    LoadWords(sig.takes) + (if sig.impure then ShiftWords(-(sig.takes as int)) else [])
  }

  /** What `compile_stackop` emits from `execute` on, when `execute` emitted
      `x.words` and left the outputs in `x.outs`: those words, the stores, and
      the move of SP to just above the last value stored. */
  function Suffix(sig: StackSig.Signature, x: Executed): seq<Word>
    requires sig.takes <= 4 && sig.pushes <= 4 && |x.outs| >= sig.pushes
  {
    x.words + StoreWords(x.outs, sig.pushes, StoreFrom(sig)) + ShiftWords(StoreFrom(sig) + sig.pushes)
  }

  /** The words `compile_stackop` emits for an operation with signature
      `sig` whose `execute` ended in `e`, and its result: on an error of
      `execute` only the part before it, and that error. */
  function Lower(sig: StackSig.Signature, e: Result<Executed, CompileError>): (r: (Result<(), CompileError>, seq<Word>))
    requires sig.takes <= 4 && sig.pushes <= 4 && (e.Ok? ==> |e.value.outs| >= sig.pushes)
    ensures (r.0.Ok? <==> e.Ok?) && (e.Err? ==> r.0 == Err(e.error))
  {
    match e
    case Err(err) => (Err(err), Prefix(sig))
    case Ok(x) => (Ok(()), Prefix(sig) + Suffix(sig, x))
  }

  /** The first loop of `compile_stackop`: the loads, from the topmost
      value down. Returns the shift reached, `-takes`. */
  method EmitLoads(comp: CompContext<Op>, inps: seq<Register>, takes: nat) returns (shift: int)
    requires takes <= 4 && inps == Candidates
    modifies comp
    ensures shift == -(takes as int)
    ensures comp.words == old(comp.words) + LoadWords(takes) && comp.stacked == old(comp.stacked)
  {
    shift := 0;
    ghost var loads := LoadWords(takes);
    var i := takes;
    while i > 0
      invariant 0 <= i <= takes && shift == i - takes
      invariant comp.words == old(comp.words) + loads[..takes - i]
      invariant comp.stacked == old(comp.stacked)
    {
      i := i - 1;
      shift := shift - 1;
      assert loads[..takes - i] == loads[..takes - i - 1] + [loads[takes - i - 1]];
      comp.Instruct(Mem(MemOperation.LOAD, inps[i], SP, shift as i8));
    }
    assert loads[..takes] == loads;
  }

  /** The second loop of `compile_stackop`: the stores, from the deepest
      output up. Returns the shift reached, `from + pushes`. */
  method EmitStores(comp: CompContext<Op>, outs: seq<Register>, pushes: nat, from: int) returns (shift: int)
    requires pushes <= |outs| && -128 <= from && from + pushes <= 128
    modifies comp
    ensures shift == from + pushes
    ensures comp.words == old(comp.words) + StoreWords(outs, pushes, from) && comp.stacked == old(comp.stacked)
  {
    shift := from;
    ghost var stores := StoreWords(outs, pushes, from);
    for j := 0 to pushes
      invariant shift == from + j
      invariant comp.words == old(comp.words) + stores[..j]
      invariant comp.stacked == old(comp.stacked)
    {
      assert stores[..j + 1] == stores[..j] + [stores[j]];
      comp.Instruct(Mem(MemOperation.STORE, outs[j], SP, shift as i8));
      shift := shift + 1;
    }
    assert stores[..pushes] == stores;
  }

  /** The part of `compile_stackop` from `execute` on: execute, store the
      outputs from `SP + from` up, and move SP past them. */
  method ExecuteAndStore(comp: CompContext<Op>, op: Op, labelCode: StackLabelOp.LabelCode, from: int)
      returns (r: Result<(), CompileError>)
    requires Compilable(op) && from == StoreFrom(Signature(op))
    modifies comp
    ensures var e := ExecSpec(op, Candidates, Candidates, [], labelCode);
      (r.Ok? <==> e.Ok?)
      && (r.Err? ==> r == Err(e.error) && comp.words == old(comp.words))
      && (r.Ok? ==> r == Ok(()) && comp.words == old(comp.words) + Suffix(Signature(op), e.value))
    ensures comp.stacked == old(comp.stacked)
  {
    var sig := Signature(op);
    ghost var w0 := comp.words;
    var x, outs, e := ExecuteOnCandidates(comp, op, labelCode);
    if x.Err? {
      return x;
    }
    ghost var sw, hw := StoreWords(outs, sig.pushes, from), ShiftWords(from + sig.pushes);
    StoreAndShift(comp, outs, sig.pushes, from);
    Regroup(w0, e.value.words, sw, hw);
    r := Ok(());
  }

  lemma Regroup(a: seq<Word>, b: seq<Word>, c: seq<Word>, d: seq<Word>)
    ensures (a + b) + (c + d) == a + ((b + c) + d)
  {
  }

  /** `execute` with R2..R5 as inputs and outputs and no scratch
      registers; returns the outputs as `execute` left them, and `e`, what
      `ExecSpec` says of it. */
  method ExecuteOnCandidates(comp: CompContext<Op>, op: Op, labelCode: StackLabelOp.LabelCode)
      returns (r: Result<(), CompileError>, outs: seq<Register>, ghost e: Result<Executed, CompileError>)
    requires Fits(op, Candidates, Candidates, [])
    modifies comp
    ensures e == ExecSpec(op, Candidates, Candidates, [], labelCode)
    ensures r.Ok? <==> e.Ok?
    ensures r.Err? ==> r == Err(e.error) && comp.words == old(comp.words)
    ensures r.Ok? ==> comp.words == old(comp.words) + e.value.words && outs == e.value.outs && |outs| == 4
    ensures comp.stacked == old(comp.stacked)
  {
    e := ExecSpec(op, Candidates, Candidates, [], labelCode);
    var stack := new StackExecCtx(Candidates, Candidates, []);
    r := Execute(op, stack, comp, labelCode);
    outs := stack.outs;
  }

  /** The stores of `compile_stackop` and the final move of SP. */
  method StoreAndShift(comp: CompContext<Op>, outs: seq<Register>, pushes: nat, from: int)
    requires pushes <= |outs| && -128 <= from && from + pushes <= 128
    modifies comp
    ensures comp.words == old(comp.words) + (StoreWords(outs, pushes, from) + ShiftWords(from + pushes))
    ensures comp.stacked == old(comp.stacked)
  {
    var shift := EmitStores(comp, outs, pushes, from);
    shift := ApplyStackShift(comp, shift);
  }

  /** The part of `compile_stackop` before `execute`. Returns the shift
      reached. */
  method EmitPrefix(comp: CompContext<Op>, sig: StackSig.Signature) returns (shift: int)
    requires sig.takes <= 4
    modifies comp
    ensures shift == StoreFrom(sig)
    ensures comp.words == old(comp.words) + Prefix(sig) && comp.stacked == old(comp.stacked)
  {
    shift := EmitLoads(comp, Candidates, sig.takes);
    if sig.impure {
      shift := ApplyStackShift(comp, shift);
    }
  }

  /** `compile_stackop`: its result, and every word it emitted (also those
      emitted before an error of `execute`), are those of `Lower` for the
      operation's signature and what its `execute` does on R2..R5. */
  method CompileStackop(comp: CompContext<Op>, op: Op, labelCode: StackLabelOp.LabelCode) returns (r: Result<(), CompileError>)
    requires Compilable(op)
    modifies comp
    ensures var low := Lower(Signature(op), ExecSpec(op, Candidates, Candidates, [], labelCode));
      r == low.0 && comp.words == old(comp.words) + low.1
    ensures comp.stacked == old(comp.stacked)
  {
    var shift := EmitPrefix(comp, Signature(op));
    r := ExecuteAndStore(comp, op, labelCode, shift);
  }

  // --- How far SP moves -------------------------------------------------------

  /** How far a word moves SP when it is `INC SP` or `DEC SP`. */
  function Delta(w: Word): int {
    if w == IncSp then 1 else if w == DecSp then -1 else 0
  }

  /** The net SP move of the `INC SP`/`DEC SP` words of a sequence. */
  function SpShift(ws: seq<Word>): int
    decreases |ws|
  {
    if ws == [] then 0 else SpShift(ws[..|ws| - 1]) + Delta(ws[|ws| - 1])
  }

  lemma {:induction false} SpShiftAppend(a: seq<Word>, b: seq<Word>)
    ensures SpShift(a + b) == SpShift(a) + SpShift(b)
    decreases |b|
  {
    if b == [] {
      assert a + b == a;
    } else {
      var b' := b[..|b| - 1];
      assert (a + b)[..|a + b| - 1] == a + b';
      SpShiftAppend(a, b');
    }
  }

  lemma {:induction false} SpShiftRepeat(w: Word, n: nat)
    ensures SpShift(Repeat(w, n)) == n * Delta(w)
  {
    if n > 0 {
      assert Repeat(w, n)[..n - 1] == Repeat(w, n - 1);
      SpShiftRepeat(w, n - 1);
    }
  }

  lemma {:induction false} SpShiftNone(ws: seq<Word>)
    requires forall k :: 0 <= k < |ws| ==> ws[k].MemWord?
    ensures SpShift(ws) == 0
    decreases |ws|
  {
    if ws != [] {
      SpShiftNone(ws[..|ws| - 1]);
    }
  }

  /** `apply_stack_shift` moves SP by exactly the shift. */
  lemma ShiftWordsMove(shift: int)
    ensures SpShift(ShiftWords(shift)) == shift
  {
    SpShiftRepeat(if shift < 0 then DecSp else IncSp, if shift < 0 then -shift else shift);
  }

  lemma LoadsStoresAreMem(takes: nat, outs: seq<Register>, pushes: nat, from: int)
    requires takes <= 4 && pushes <= |outs| && -128 <= from && from + pushes <= 128
    ensures forall k :: 0 <= k < takes ==> LoadWords(takes)[k].MemWord?
    ensures forall j :: 0 <= j < pushes ==> StoreWords(outs, pushes, from)[j].MemWord?
  {
    forall k | 0 <= k < takes
      ensures LoadWords(takes)[k].MemWord?
    {
      assert LoadWords(takes)[k] == Mem(MemOperation.LOAD, Candidates[takes - 1 - k], SP, (-(k + 1)) as i8);
    }
    forall j | 0 <= j < pushes
      ensures StoreWords(outs, pushes, from)[j].MemWord?
    {
      assert StoreWords(outs, pushes, from)[j] == Mem(MemOperation.STORE, outs[j], SP, (from + j) as i8);
    }
  }

  /** Around what `execute` emits, `compile_stackop` moves SP by exactly
      the number of values pushed minus the number taken. */
  lemma NetShift(sig: StackSig.Signature, x: Executed)
    requires sig.takes <= 4 && sig.pushes <= 4 && |x.outs| >= sig.pushes
    ensures SpShift(Lower(sig, Ok(x)).1) == SpShift(x.words) + sig.pushes - sig.takes
  {
    var loads := LoadWords(sig.takes);
    var pre: seq<Word> := if sig.impure then ShiftWords(-(sig.takes as int)) else [];
    var from := StoreFrom(sig);
    var stores := StoreWords(x.outs, sig.pushes, from);
    var post := ShiftWords(from + sig.pushes);
    LoadsStoresAreMem(sig.takes, x.outs, sig.pushes, from);
    SpShiftNone(loads);
    SpShiftNone(stores);
    ShiftWordsMove(-(sig.takes as int));
    ShiftWordsMove(from + sig.pushes);
    SpShiftAppend(loads, pre);
    SpShiftAppend(x.words + stores, post);
    SpShiftAppend(x.words, stores);
    SpShiftAppend(loads + pre, x.words + stores + post);
  }

  // --- The manipulations, lowered -------------------------------------------------

  /** The words `compile_stackop` gives SWP, DUP and DROP: SWP loads the
      top into R3 and the one below into R2 and stores them back crosswise;
      DUP stores its one value twice and moves SP up; DROP loads and moves
      SP down. */
  function ManipCode(m: StackManip.ManipOperation): seq<Word> {
    match m
    case Swp =>
      [Mem(MemOperation.LOAD, R3, SP, -1), Mem(MemOperation.LOAD, R2, SP, -2),
       Mem(MemOperation.STORE, R3, SP, -2), Mem(MemOperation.STORE, R2, SP, -1)]
    case Dup =>
      [Mem(MemOperation.LOAD, R2, SP, -1), Mem(MemOperation.STORE, R2, SP, -1),
       Mem(MemOperation.STORE, R2, SP, 0), IncSp]
    case Drop => [Mem(MemOperation.LOAD, R2, SP, -1), DecSp]
  }


  lemma ManipWords(m: StackManip.ManipOperation, labelCode: StackLabelOp.LabelCode)
    ensures Compilable(Manip(m))
    ensures var low := Lower(Signature(Manip(m)), ExecSpec(Manip(m), Candidates, Candidates, [], labelCode));
      low.0 == Ok(()) && low.1 == ManipCode(m)
  {
    match m
    case Swp =>
      assert LoadWords(2) == [Mem(MemOperation.LOAD, R3, SP, -1), Mem(MemOperation.LOAD, R2, SP, -2)];
      assert StoreWords([R3, R2, R4, R5], 2, -2) == [Mem(MemOperation.STORE, R3, SP, -2), Mem(MemOperation.STORE, R2, SP, -1)];
      assert ShiftWords(0) == [];
    case Dup =>
      assert LoadWords(1) == [Mem(MemOperation.LOAD, R2, SP, -1)];
      assert StoreWords([R2, R2, R4, R5], 2, -1) == [Mem(MemOperation.STORE, R2, SP, -1), Mem(MemOperation.STORE, R2, SP, 0)];
      assert ShiftWords(1) == [IncSp];
    case Drop =>
      assert LoadWords(1) == [Mem(MemOperation.LOAD, R2, SP, -1)];
      assert StoreWords(Candidates, 0, -1) == [];
      assert ShiftWords(-1) == [DecSp];
  }

  /** The values an operation taking `n` values finds on the stack, deepest
      first, as its loads read them. */
  function Vals(image: Image, s: State, n: nat): (v: seq<u16>)
    requires Valid(s) && n <= 4
    ensures |v| == n
  {
    seq(n, i requires 0 <= i < n => Read(image, s, Offset(Get(s, SP), (i - n) as i8)))
  }

  lemma ValsSmall(image: Image, s: State)
    requires Valid(s)
    ensures Vals(image, s, 1) == [Read(image, s, Offset(Get(s, SP), -1))]
    ensures Vals(image, s, 2) == [Read(image, s, Offset(Get(s, SP), -2)), Read(image, s, Offset(Get(s, SP), -1))]
  {
  }

  /** SWP's two loads: the top into R3, the value below it into R2. */
  lemma SwpLoads(image: Image, s: State)
    requires Valid(s) && s.pc as int + 2 < 0x1_0000
    requires Holds(image, ManipCode(StackManip.Swp)[..2], s.pc)
    ensures var t := Steps(image, s, 2);
      t.Some? && t.value.pc as int == s.pc as int + 2 && t.value.mem == s.mem
      && Get(t.value, R3) == Read(image, s, Offset(Get(s, SP), -1))
      && Get(t.value, R2) == Read(image, s, Offset(Get(s, SP), -2))
      && Keeps(s, t.value, {R2, R3})
  {
    var w := ManipCode(StackManip.Swp)[..2];
    HoldsAt(image, w, s.pc, 0);
    HoldsAt(image, w, s.pc, 1);
    LoadStep(image, s, R3, SP, -1);
    var s1 := WriteBack(s, R3, Read(image, s, Offset(Get(s, SP), -1)));
    LoadStep(image, s1, R2, SP, -2);
    StepsAdd(image, s, 1, 1);
  }

  /** SWP's two stores: R3 two below SP, R2 just below. */
  lemma SwpStores(image: Image, s: State)
    requires Valid(s) && s.pc as int + 2 < 0x1_0000
    requires Holds(image, ManipCode(StackManip.Swp)[2..], s.pc)
    ensures var t := Steps(image, s, 2);
      t.Some? && t.value.pc as int == s.pc as int + 2
      && t.value.mem == s.mem[Offset(Get(s, SP), -2) := Get(s, R3)][Offset(Get(s, SP), -1) := Get(s, R2)]
      && Keeps(s, t.value, {})
  {
    var w := ManipCode(StackManip.Swp)[2..];
    HoldsAt(image, w, s.pc, 0);
    HoldsAt(image, w, s.pc, 1);
    StoreStep(image, s, R3, SP, -2);
    var s1 := s.(mem := s.mem[Offset(Get(s, SP), -2) := Get(s, R3)], pc := WrapAdd(s.pc, 1));
    assert Get(s1, SP) == Get(s, SP) && Get(s1, R2) == Get(s, R2);
    StoreStep(image, s1, R2, SP, -1);
    StepsAdd(image, s, 1, 1);
  }

  /** Lowered SWP exchanges the two cells below SP and leaves SP. */
  lemma SwpMeaning(image: Image, s: State)
    requires Valid(s) && Holds(image, ManipCode(StackManip.Swp), s.pc) && s.pc as int + 4 < 0x1_0000
    ensures var t := Steps(image, s, 4);
      var a1 := Offset(Get(s, SP), -1); var a2 := Offset(Get(s, SP), -2);
      t.Some? && t.value.pc as int == s.pc as int + 4
      && t.value.mem == s.mem[a2 := Read(image, s, a1)][a1 := Read(image, s, a2)]
      && Get(t.value, SP) == Get(s, SP) && Keeps(s, t.value, {R2, R3})
  {
    var w := ManipCode(StackManip.Swp);
    assert w == w[..2] + w[2..];
    Split(image, w[..2], w[2..], s.pc);
    SwpLoads(image, s);
    var s2 := Steps(image, s, 2).value;
    SwpStores(image, s2);
    StepsAdd(image, s, 2, 2);
  }

  /** DUP's load and first store: the top is read into R2 and written back. */
  lemma DupFirst(image: Image, s: State)
    requires Valid(s) && s.pc as int + 2 < 0x1_0000
    requires Holds(image, ManipCode(StackManip.Dup)[..2], s.pc)
    ensures var t := Steps(image, s, 2); var v := Read(image, s, Offset(Get(s, SP), -1));
      t.Some? && t.value.pc as int == s.pc as int + 2
      && t.value.mem == s.mem[Offset(Get(s, SP), -1) := v]
      && Get(t.value, R2) == v && Keeps(s, t.value, {R2})
  {
    var w := ManipCode(StackManip.Dup)[..2];
    HoldsAt(image, w, s.pc, 0);
    HoldsAt(image, w, s.pc, 1);
    var v := Read(image, s, Offset(Get(s, SP), -1));
    LoadStep(image, s, R2, SP, -1);
    var s1 := WriteBack(s, R2, v);
    StoreStep(image, s1, R2, SP, -1);
    StepsAdd(image, s, 1, 1);
  }

  /** DUP's second store and the move of SP up. */
  lemma DupSecond(image: Image, s: State)
    requires Valid(s) && s.pc as int + 2 < 0x1_0000
    requires Holds(image, ManipCode(StackManip.Dup)[2..], s.pc)
    ensures var t := Steps(image, s, 2);
      t.Some? && t.value.pc as int == s.pc as int + 2
      && t.value.mem == s.mem[Offset(Get(s, SP), 0) := Get(s, R2)]
      && Get(t.value, SP) == Offset(Get(s, SP), 1) && Keeps(s, t.value, {SP})
  {
    var w := ManipCode(StackManip.Dup)[2..];
    HoldsAt(image, w, s.pc, 0);
    HoldsAt(image, w, s.pc, 1);
    StoreStep(image, s, R2, SP, 0);
    var s1 := s.(mem := s.mem[Offset(Get(s, SP), 0) := Get(s, R2)], pc := WrapAdd(s.pc, 1));
    assert Get(s1, SP) == Get(s, SP);
    AluStep(image, s1, INC, SP, SP, ZX);
    StepsAdd(image, s, 1, 1);
    assert Offset(Get(s, SP), 1) == WrapAdd(Get(s, SP), 1);
  }

  /** Lowered DUP writes the top once more just above it and moves SP up. */
  lemma DupMeaning(image: Image, s: State)
    requires Valid(s) && Holds(image, ManipCode(StackManip.Dup), s.pc) && s.pc as int + 4 < 0x1_0000
    ensures var t := Steps(image, s, 4);
      var a1 := Offset(Get(s, SP), -1); var v := Read(image, s, a1);
      t.Some? && t.value.pc as int == s.pc as int + 4
      && t.value.mem == s.mem[a1 := v][Offset(Get(s, SP), 0) := v]
      && Get(t.value, SP) == Offset(Get(s, SP), 1) && Keeps(s, t.value, {R2, SP})
  {
    var w := ManipCode(StackManip.Dup);
    assert w == w[..2] + w[2..];
    Split(image, w[..2], w[2..], s.pc);
    DupFirst(image, s);
    var s2 := Steps(image, s, 2).value;
    assert Get(s2, SP) == Get(s, SP);
    DupSecond(image, s2);
    StepsAdd(image, s, 2, 2);
  }

  /** Lowered DROP reads the top into R2 and moves SP down. */
  lemma DropMeaning(image: Image, s: State)
    requires Valid(s) && Holds(image, ManipCode(StackManip.Drop), s.pc) && s.pc as int + 2 < 0x1_0000
    ensures var t := Steps(image, s, 2);
      t.Some? && t.value.pc as int == s.pc as int + 2 && t.value.mem == s.mem
      && Get(t.value, SP) == Offset(Get(s, SP), -1) && Keeps(s, t.value, {R2, SP})
  {
    var w := ManipCode(StackManip.Drop);
    HoldsAt(image, w, s.pc, 0);
    HoldsAt(image, w, s.pc, 1);
    LoadStep(image, s, R2, SP, -1);
    var s1 := WriteBack(s, R2, Read(image, s, Offset(Get(s, SP), -1)));
    AluStep(image, s1, DEC, SP, SP, ZX);
    StepsAdd(image, s, 1, 1);
    assert Offset(Get(s, SP), -1) == WrapSub(Get(s, SP), 1);
  }

  /** Run from its first word, the lowered manipulation `m` does on the
      machine what it means on the stack: SP moves by pushes minus takes, and
      the cells from the new SP down hold the operation's effect on the
      values that were on top, deepest first; only R2, R3 and SP change. */
  predicate Realises(m: StackManip.ManipOperation, image: Image, s: State)
    requires Valid(s)
  {
    var t := Steps(image, s, |ManipCode(m)|);
    var sig := StackManip.Signature(m);
    var out := StackManip.Effect(m, Vals(image, s, sig.takes));
    t.Some? && t.value.pc as int == s.pc as int + |ManipCode(m)|
    && Get(t.value, SP) == Offset(Get(s, SP), (sig.pushes - sig.takes) as i8)
    && Keeps(s, t.value, {R2, R3, SP})
    && forall j :: 0 <= j < sig.pushes ==> MemAt(t.value.mem, Offset(Get(s, SP), (j - sig.takes) as i8)) == out[j]
  }

  lemma SwpRealises(image: Image, s: State)
    requires Valid(s) && Holds(image, ManipCode(StackManip.Swp), s.pc) && s.pc as int + 4 < 0x1_0000
    ensures Realises(StackManip.Swp, image, s)
  {
    var sp := Get(s, SP);
    ValsSmall(image, s);
    SwpMeaning(image, s);
    assert Offset(sp, -2) != Offset(sp, -1);
  }

  lemma DupRealises(image: Image, s: State)
    requires Valid(s) && Holds(image, ManipCode(StackManip.Dup), s.pc) && s.pc as int + 4 < 0x1_0000
    ensures Realises(StackManip.Dup, image, s)
  {
    var sp := Get(s, SP);
    ValsSmall(image, s);
    DupMeaning(image, s);
    var t := Steps(image, s, 4).value;
    var v := Read(image, s, Offset(sp, -1));
    var out := StackManip.Effect(StackManip.Dup, Vals(image, s, 1));
    assert out == [v, v];
    assert Offset(sp, -1) != Offset(sp, 0);
    forall j | 0 <= j < 2
      ensures MemAt(t.mem, Offset(sp, (j - 1) as i8)) == out[j]
    {
      if j == 0 {
        assert MemAt(t.mem, Offset(sp, -1)) == v;
      } else {
        assert MemAt(t.mem, Offset(sp, 0)) == v;
      }
    }
  }

  lemma DropRealises(image: Image, s: State)
    requires Valid(s) && Holds(image, ManipCode(StackManip.Drop), s.pc) && s.pc as int + 2 < 0x1_0000
    ensures Realises(StackManip.Drop, image, s)
  {
    DropMeaning(image, s);
    var sig := StackManip.Signature(StackManip.Drop);
    assert sig.pushes == 0 && sig.takes == 1 && |ManipCode(StackManip.Drop)| == 2;
  }

  /** What `compile_stackop` makes of SWP, DUP and DROP realises the
      operation, whatever the stack holds. */
  lemma ManipRealises(m: StackManip.ManipOperation, image: Image, s: State)
    requires Valid(s) && Holds(image, ManipCode(m), s.pc) && s.pc as int + |ManipCode(m)| < 0x1_0000
    ensures Realises(m, image, s)
  {
    match m
    case Swp => SwpRealises(image, s);
    case Dup => DupRealises(image, s);
    case Drop => DropRealises(image, s);
  }
}
