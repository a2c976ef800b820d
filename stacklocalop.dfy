// The frame and local-variable operations of the stack virtual instruction
// set (easycpu_lib/src/stack/instr/local.rs). Their mnemonics, operand and
// address offset are those of the `$` macros of the same names
// (`StackLocal`); here they are operations with a signature, executed with
// registers handed out by a stack compiler, and the local's address is
// built in the register the compiler gives.
module StackLocalOp {
  import opened Base
  import opened Cpu
  import opened Words
  import opened Semantics
  import opened StackSig
  import LoadConst
  import StackLocal

  /** `signature`: LOCINIT and LOCEND flush the register stack and are
      impure; STORE takes one value and needs one scratch register; LOAD and
      ADDR push one value. */
  function Signature(op: StackLocal.StackLocalOperation): (sig: StackSig.Signature)
    ensures (op.LOCINIT? || op.LOCEND?) <==> sig.save
    ensures sig.save <==> sig.reset
    ensures sig.impure <==> (op.LOCINIT? || op.LOCEND? || op.STORE?)
    ensures sig.takes == (if op.STORE? then 1 else 0) && sig.temps == sig.takes
    ensures sig.pushes == (if op.LOAD? || op.ADDR? then 1 else 0)
  {
    match op
    case LOCINIT => StackSig.Signature(0, 0, 0, true, true, true)
    case LOCEND => StackSig.Signature(0, 0, 0, true, true, true)
    case STORE(_) => StackSig.Signature(1, 0, 1, false, false, true)
    case LOAD(_) => Plain(0, 1)
    case ADDR(_) => Plain(0, 1)
  }

  /** `instruct_local_addr`: `MOV out, LP` (with SP as the unused second
      source), then the add-constant expansion of the offset. */
  function LocalAddrWords(out: Register, mode: StackLocal.StackLocalMode, idx: u16): seq<Word> {
    [Alu(MOV, out, LP, SP)] + LoadConst.Emitted(LoadConst.Add, out, StackLocal.Shift(mode, idx))
  }

  /** `instruct_local_addr`, one `instruct` per word. */
  method InstructLocalAddr<O>(comp: CompContext<O>, out: Register, mode: StackLocal.StackLocalMode, idx: u16)
    modifies comp
    ensures comp.words == old(comp.words) + LocalAddrWords(out, mode, idx)
    ensures comp.stacked == old(comp.stacked)
  {
    comp.Instruct(Alu(MOV, out, LP, SP));
    comp.InstructAll(LoadConst.Emitted(LoadConst.Add, out, StackLocal.Shift(mode, idx)));
  }

  /** LOCINIT: `STORE LP, [SP+0]; INC LP, SP; ACONST SP, idx+1` (the sum
      taken as wrapping). */
  function LocinitWords(idx: u16): seq<Word> {
    [Mem(MemOperation.STORE, LP, SP, 0), Alu(INC, LP, SP, ZX)] + LoadConst.Emitted(LoadConst.Add, SP, WrapAdd(idx, 1))
  }

  /** LOCEND: `DEC SP, LP; LOAD LP, [SP+0]`. */
  const LocendWords: seq<Word> := [Alu(DEC, SP, LP, ZX), Mem(MemOperation.LOAD, LP, SP, 0)]

  /** The register entries the operation reads exist. STORE needs an input
      and a scratch register. */
  predicate Fits(op: StackLocal.StackLocalOperation, inps: seq<Register>, outs: seq<Register>, temps: seq<Register>) {
    match op
    case LOCINIT => true
    case LOCEND => true
    case LOAD(_) => |outs| >= 1
    case STORE(_) => |inps| >= 1 && |temps| >= 1
    case ADDR(_) => |outs| >= 1
  }

  /** The words `execute` emits. STORE stores its input, `inps[0]`; see
      `StoreAsWritten` for the register the source names. */
  function ExecWords(ins: StackLocal.StackLocalInstruction, inps: seq<Register>, outs: seq<Register>, temps: seq<Register>): seq<Word>
    requires Fits(ins.op, inps, outs, temps)
  {
    match ins.op
    case LOCINIT => LocinitWords(ins.idx)
    case LOCEND => LocendWords
    case LOAD(mode) => LocalAddrWords(outs[0], mode, ins.idx) + [Mem(MemOperation.LOAD, outs[0], outs[0], 0)]
    case STORE(mode) => LocalAddrWords(temps[0], mode, ins.idx) + [Mem(MemOperation.STORE, inps[0], temps[0], 0)]
    case ADDR(mode) => LocalAddrWords(outs[0], mode, ins.idx)
  }

  /** `execute`: emits the operation's words and leaves the registers as
      they are. */
  method Execute<O>(ins: StackLocal.StackLocalInstruction, stack: StackExecCtx, comp: CompContext<O>)
    requires Fits(ins.op, stack.inps, stack.outs, stack.temps)
    modifies comp
    ensures comp.words == old(comp.words) + ExecWords(ins, stack.inps, stack.outs, stack.temps)
    ensures comp.stacked == old(comp.stacked)
  {
    match ins.op
    case LOCINIT =>
      comp.Instruct(Mem(MemOperation.STORE, LP, SP, 0));
      comp.Instruct(Alu(INC, LP, SP, ZX));
      comp.InstructAll(LoadConst.Emitted(LoadConst.Add, SP, WrapAdd(ins.idx, 1)));
    case LOCEND =>
      comp.Instruct(Alu(DEC, SP, LP, ZX));
      comp.Instruct(Mem(MemOperation.LOAD, LP, SP, 0));
    case LOAD(mode) =>
      InstructLocalAddr(comp, stack.outs[0], mode, ins.idx);
      comp.Instruct(Mem(MemOperation.LOAD, stack.outs[0], stack.outs[0], 0));
    case STORE(mode) =>
      InstructLocalAddr(comp, stack.temps[0], mode, ins.idx);
      comp.Instruct(Mem(MemOperation.STORE, stack.inps[0], stack.temps[0], 0));
    case ADDR(mode) =>
      InstructLocalAddr(comp, stack.outs[0], mode, ins.idx);
  }

  // --- STORE as written -----------------------------------------------------

  /** The STORE branch as the source writes it: the value stored is
      `outs[0]`; indexing an empty `outs` (or `temps`) panics, which is
      `None` here. */
  function StoreAsWritten(mode: StackLocal.StackLocalMode, idx: u16, outs: seq<Register>, temps: seq<Register>): Option<seq<Word>> {
    if |outs| == 0 || |temps| == 0 then None
    else Some(LocalAddrWords(temps[0], mode, idx) + [Mem(MemOperation.STORE, outs[0], temps[0], 0)])
  }

  /** STORE pushes nothing, so a compiler that allocates one output register
      per pushed value (as `opt/comp.rs` does) hands it an empty `outs`, and
      the branch as written panics; the corrected branch stores the input. */
  lemma StoreAsWrittenPanics(mode: StackLocal.StackLocalMode, idx: u16, inp: Register, tmp: Register)
    ensures Signature(StackLocal.STORE(mode)).pushes == 0
    ensures StoreAsWritten(mode, idx, [], [tmp]).None?
    ensures Fits(StackLocal.STORE(mode), [inp], [], [tmp])
    ensures ExecWords(StackLocal.StackLocalInstruction(StackLocal.STORE(mode), idx), [inp], [], [tmp])
      == LocalAddrWords(tmp, mode, idx) + [Mem(MemOperation.STORE, inp, tmp, 0)]
  {
  }

  // --- What the words do ----------------------------------------------------

  /** The steps of the address words. */
  function AddrSteps(out: Register, mode: StackLocal.StackLocalMode, idx: u16): nat {
    1 + LoadConst.StepCount(LoadConst.Add, out, StackLocal.Shift(mode, idx))
  }

  /** The address words leave the local's address (LP plus the offset) in
      `out` and change nothing else. */
  lemma LocalAddrMeaning(out: Register, mode: StackLocal.StackLocalMode, idx: u16, image: Image, s: State)
    requires out != ZX && out != PC && Valid(s)
    requires Holds(image, LocalAddrWords(out, mode, idx), s.pc) && s.pc as int + |LocalAddrWords(out, mode, idx)| < 0x1_0000
    ensures Sets(image, s, AddrSteps(out, mode, idx), |LocalAddrWords(out, mode, idx)|, out, StackLocal.Address(mode, idx, s))
  {
    var shift := StackLocal.Shift(mode, idx);
    var lc := LoadConst.Emitted(LoadConst.Add, out, shift);
    Split(image, [Alu(MOV, out, LP, SP)], lc, s.pc);
    HoldsAt(image, [Alu(MOV, out, LP, SP)], s.pc, 0);
    AluStep(image, s, MOV, out, LP, SP);
    AddAfterMov(out, shift, |lc|, LoadConst.StepCount(LoadConst.Add, out, shift), image, s);
  }

  /** After `MOV out, LP`, an add-constant of `shift` to `out`: together they
      leave LP plus `shift` in `out`. */
  lemma AddAfterMov(out: Register, shift: u16, len: nat, n: nat, image: Image, s: State)
    requires out != ZX && out != PC && Valid(s) && s.pc as int + 1 + len < 0x1_0000
    requires Steps(image, s, 1) == Some(WriteBack(s, out, Get(s, LP)))
    requires var t := WriteBack(s, out, Get(s, LP));
      len == |LoadConst.Emitted(LoadConst.Add, out, shift)| && n == LoadConst.StepCount(LoadConst.Add, out, shift)
      && Holds(image, LoadConst.Emitted(LoadConst.Add, out, shift), t.pc)
    ensures Sets(image, s, 1 + n, 1 + len, out, WrapAdd(Get(s, LP), shift))
  {
    var t := WriteBack(s, out, Get(s, LP));
    LoadConst.CompiledMeaning(LoadConst.Add, out, shift, image, t);
    StepsAdd(image, s, 1, n);
    var u := Steps(image, t, n).value;
    assert Keeps(s, t, {out});
  }

  /** STORE writes its input to the local's cell, provided the scratch
      register is not the input; only the scratch register changes. */
  lemma StoreMeaning(mode: StackLocal.StackLocalMode, idx: u16, inp: Register, tmp: Register, image: Image, s: State)
    requires tmp != ZX && tmp != PC && tmp != inp && inp != PC && Valid(s)
    requires var w := ExecWords(StackLocal.StackLocalInstruction(StackLocal.STORE(mode), idx), [inp], [], [tmp]);
      Holds(image, w, s.pc) && s.pc as int + |w| < 0x1_0000
    ensures var t := Steps(image, s, AddrSteps(tmp, mode, idx) + 1);
      t.Some? && t.value.mem == s.mem[StackLocal.Address(mode, idx, s) := Get(s, inp)]
      && Keeps(s, t.value, {tmp})
  {
    var a := LocalAddrWords(tmp, mode, idx);
    var st := [Mem(MemOperation.STORE, inp, tmp, 0)];
    Split(image, a, st, s.pc);
    LocalAddrMeaning(tmp, mode, idx, image, s);
    StoreAfter(|a|, AddrSteps(tmp, mode, idx), inp, tmp, StackLocal.Address(mode, idx, s), image, s);
  }

  /** The STORE word, once the address is in `tmp`. */
  lemma StoreAfter(len: nat, n: nat, inp: Register, tmp: Register, addr: u16, image: Image, s: State)
    requires tmp != ZX && tmp != PC && tmp != inp && inp != PC && Valid(s) && s.pc as int + len + 1 < 0x1_0000
    requires Sets(image, s, n, len, tmp, addr)
    requires Holds(image, [Mem(MemOperation.STORE, inp, tmp, 0)], Steps(image, s, n).value.pc)
    ensures var t := Steps(image, s, n + 1);
      t.Some? && t.value.mem == s.mem[addr := Get(s, inp)] && Keeps(s, t.value, {tmp})
  {
    var t := Steps(image, s, n).value;
    HoldsAt(image, [Mem(MemOperation.STORE, inp, tmp, 0)], t.pc, 0);
    StoreStep(image, t, inp, tmp, 0);
    assert Offset(Get(t, tmp), 0) == addr;
    assert Get(t, inp) == Get(s, inp);
    StepsAdd(image, s, n, 1);
  }

  /** LOAD leaves the local's value in its output register. */
  lemma LoadMeaning(mode: StackLocal.StackLocalMode, idx: u16, out: Register, image: Image, s: State)
    requires out != ZX && out != PC && Valid(s)
    requires var w := ExecWords(StackLocal.StackLocalInstruction(StackLocal.LOAD(mode), idx), [], [out], []);
      Holds(image, w, s.pc) && s.pc as int + |w| < 0x1_0000
    ensures var t := Steps(image, s, AddrSteps(out, mode, idx) + 1);
      t.Some? && Get(t.value, out) == Read(image, s, StackLocal.Address(mode, idx, s))
      && t.value.mem == s.mem && Keeps(s, t.value, {out})
  {
    var a := LocalAddrWords(out, mode, idx);
    var ld := [Mem(MemOperation.LOAD, out, out, 0)];
    Split(image, a, ld, s.pc);
    LocalAddrMeaning(out, mode, idx, image, s);
    LoadAfter(|a|, AddrSteps(out, mode, idx), out, StackLocal.Address(mode, idx, s), image, s);
  }

  /** The LOAD word, once the address is in `out`. */
  lemma LoadAfter(len: nat, n: nat, out: Register, addr: u16, image: Image, s: State)
    requires out != ZX && out != PC && Valid(s) && s.pc as int + len + 1 < 0x1_0000
    requires Sets(image, s, n, len, out, addr)
    requires Holds(image, [Mem(MemOperation.LOAD, out, out, 0)], Steps(image, s, n).value.pc)
    ensures var t := Steps(image, s, n + 1);
      t.Some? && Get(t.value, out) == Read(image, s, addr)
      && t.value.mem == s.mem && Keeps(s, t.value, {out})
  {
    var t := Steps(image, s, n).value;
    HoldsAt(image, [Mem(MemOperation.LOAD, out, out, 0)], t.pc, 0);
    LoadStep(image, t, out, out, 0);
    assert Offset(Get(t, out), 0) == addr;
    assert Read(image, t, addr) == Read(image, s, addr);
    StepsAdd(image, s, n, 1);
  }

  /** LOCINIT saves LP in the cell at SP, points LP just above it and moves
      SP past the saved cell and the `idx` locals. */
  lemma LocinitMeaning(idx: u16, image: Image, s: State)
    requires Valid(s) && Holds(image, LocinitWords(idx), s.pc) && s.pc as int + |LocinitWords(idx)| < 0x1_0000
    ensures var t := Steps(image, s, 2 + LoadConst.StepCount(LoadConst.Add, SP, WrapAdd(idx, 1)));
      t.Some? && t.value.mem == s.mem[Get(s, SP) := Get(s, LP)]
      && Get(t.value, LP) == WrapAdd(Get(s, SP), 1)
      && Get(t.value, SP) == WrapAdd(Get(s, SP), WrapAdd(idx, 1))
      && Keeps(s, t.value, {LP, SP})
  {
    var head := [Mem(MemOperation.STORE, LP, SP, 0), Alu(INC, LP, SP, ZX)];
    var lc := LoadConst.Emitted(LoadConst.Add, SP, WrapAdd(idx, 1));
    Split(image, head, lc, s.pc);
    SaveLink(image, s);
    LocinitAfter(idx, image, s);
  }

  /** `STORE LP, [SP+0]; INC LP, SP`. */
  lemma SaveLink(image: Image, s: State)
    requires Valid(s) && s.pc as int + 2 < 0x1_0000
    requires Holds(image, [Mem(MemOperation.STORE, LP, SP, 0), Alu(INC, LP, SP, ZX)], s.pc)
    ensures var t := Steps(image, s, 2);
      t.Some? && t.value.pc as int == s.pc as int + 2
      && t.value.mem == s.mem[Get(s, SP) := Get(s, LP)]
      && Get(t.value, LP) == WrapAdd(Get(s, SP), 1)
      && Keeps(s, t.value, {LP})
  {
    var w := [Mem(MemOperation.STORE, LP, SP, 0), Alu(INC, LP, SP, ZX)];
    HoldsAt(image, w, s.pc, 0);
    HoldsAt(image, w, s.pc, 1);
    StoreStep(image, s, LP, SP, 0);
    assert Offset(Get(s, SP), 0) == Get(s, SP);
    var t := s.(mem := s.mem[Get(s, SP) := Get(s, LP)], pc := WrapAdd(s.pc, 1));
    AluStep(image, t, INC, LP, SP, ZX);
    StepsAdd(image, s, 1, 1);
  }

  /** The ACONST of LOCINIT, once the link is saved. */
  lemma LocinitAfter(idx: u16, image: Image, s: State)
    requires Valid(s) && s.pc as int + |LocinitWords(idx)| < 0x1_0000
    requires var t := Steps(image, s, 2);
      t.Some? && t.value.pc as int == s.pc as int + 2
      && t.value.mem == s.mem[Get(s, SP) := Get(s, LP)]
      && Get(t.value, LP) == WrapAdd(Get(s, SP), 1)
      && Keeps(s, t.value, {LP})
      && Holds(image, LoadConst.Emitted(LoadConst.Add, SP, WrapAdd(idx, 1)), t.value.pc)
    ensures var t := Steps(image, s, 2 + LoadConst.StepCount(LoadConst.Add, SP, WrapAdd(idx, 1)));
      t.Some? && t.value.mem == s.mem[Get(s, SP) := Get(s, LP)]
      && Get(t.value, LP) == WrapAdd(Get(s, SP), 1)
      && Get(t.value, SP) == WrapAdd(Get(s, SP), WrapAdd(idx, 1))
      && Keeps(s, t.value, {LP, SP})
  {
    var t := Steps(image, s, 2).value;
    LoadConst.CompiledMeaning(LoadConst.Add, SP, WrapAdd(idx, 1), image, t);
    StepsAdd(image, s, 2, LoadConst.StepCount(LoadConst.Add, SP, WrapAdd(idx, 1)));
  }

  /** LOCEND drops SP to just below LP and reloads LP from the cell there. */
  lemma LocendMeaning(image: Image, s: State)
    requires Valid(s) && Holds(image, LocendWords, s.pc) && s.pc as int + 2 < 0x1_0000
    ensures var t := Steps(image, s, 2);
      t.Some? && t.value.pc as int == s.pc as int + 2 && t.value.mem == s.mem
      && Get(t.value, SP) == WrapSub(Get(s, LP), 1)
      && Get(t.value, LP) == Read(image, s, WrapSub(Get(s, LP), 1))
      && Keeps(s, t.value, {LP, SP})
  {
    HoldsAt(image, LocendWords, s.pc, 0);
    HoldsAt(image, LocendWords, s.pc, 1);
    AluStep(image, s, DEC, SP, LP, ZX);
    var t := WriteBack(s, SP, WrapSub(Get(s, LP), 1));
    LoadStep(image, t, LP, SP, 0);
    assert Offset(Get(t, SP), 0) == Get(t, SP);
    assert Read(image, t, Get(t, SP)) == Read(image, s, WrapSub(Get(s, LP), 1));
    StepsAdd(image, s, 1, 1);
  }

  /** LOCEND after LOCINIT gives SP and LP back, whatever ran in between,
      provided the saved cell still holds the link and is a data cell and
      LP is where LOCINIT put it. */
  lemma FrameRestores(image: Image, s: State, u: State)
    requires Valid(s) && Valid(u)
    requires Get(u, LP) == WrapAdd(Get(s, SP), 1)
    requires MemAt(u.mem, Get(s, SP)) == Get(s, LP) && DataCell(image, Get(s, SP))
    ensures WrapSub(Get(u, LP), 1) == Get(s, SP)
    ensures Read(image, u, WrapSub(Get(u, LP), 1)) == Get(s, LP)
  {
  }
}
