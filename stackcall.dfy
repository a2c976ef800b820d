// The stack CALL macro (easycpu_lib/src/asm/stack/call.rs): reserve a stack
// cell, compute the return address from PC, store it in the reserved cell,
// and jump through a data word that holds the target's offset. The sequence
// is emitted one word at a time into the compile context.
module StackCall {
  import opened Base
  import opened Cpu
  import opened Errors
  import opened Words
  import opened Semantics

  /** `StackCallInstruction`, over the unresolved label type `L`. */
  datatype StackCallInstruction<L> = StackCallInstruction(targ: L)

  /** `parse_asm`: the one label operand, or the reader's error. The operand
      reader is not part of this model: `target` is what it returns. */
  function ParseAsm<L>(target: Result<L, CompileError>): (r: Result<StackCallInstruction<L>, CompileError>)
    ensures r.Ok? <==> target.Ok?
    ensures r.Ok? ==> r.value.targ == target.value
    ensures r.Err? ==> r.error == target.error
  {
    var t :- target;
    Ok(StackCallInstruction(t))
  }

  /** The four words emitted before the target is resolved. */
  const Head: seq<Word> := [
    Alu(INC, SP, SP, ZX),
    Alu(MOV, R2, PC, ZX),
    Mem(LADD, R2, PC, 3),
    Mem(MemOperation.STORE, R2, SP, -1)]

  /** The whole sequence for a target at `pos` words from its fifth word. */
  function CallWords(pos: u16): seq<Word> {
    Head + [Mem(LADD, PC, PC, 2), Custom(6), Custom(pos)]
  }

  /** What `compile` does, as a value: the result and the words emitted into
      the context. `resolve` maps the context's current address to what the
      label resolves to there (the label table is not part of this model);
      it is asked once, after the first four words. */
  function Outcome(pc: u16, resolve: u16 -> Result<u16, CompileError>): (o: (Result<(), CompileError>, seq<Word>))
    ensures o.0.Ok? <==> resolve(WrapAdd(pc, 4)).Ok?
    ensures o.0.Err? ==> o.0.error == resolve(WrapAdd(pc, 4)).error && o.1 == Head
    ensures o.0.Ok? ==> o.1 == CallWords(resolve(WrapAdd(pc, 4)).value)
  {
    match resolve(WrapAdd(pc, 4))
    case Err(e) => (Err(e), Head)
    case Ok(pos) => (Ok(()), CallWords(pos))
  }

  /** A successful CALL always emits seven words, whatever the target; the
      first four do not depend on it, and the last is the resolved offset. */
  lemma OutcomeShape(pc: u16, resolve: u16 -> Result<u16, CompileError>)
    requires resolve(WrapAdd(pc, 4)).Ok?
    ensures var w := Outcome(pc, resolve).1;
      |w| == 7 && w[..4] == Head && w[6] == Custom(resolve(WrapAdd(pc, 4)).value)
  {
    assert CallWords(resolve(WrapAdd(pc, 4)).value)[..4] == Head;
  }

  /** The parts of the compile context CALL uses: the current address and
      the emitted words. */
  class Emitter {
    var currentPc: u16
    var words: seq<Word>

    /** `instruct`: one more word, one address further on. */
    method Instruct(w: Word)
      modifies this
      ensures words == old(words) + [w]
      ensures currentPc == WrapAdd(old(currentPc), 1)
    {
      words := words + [w];
      currentPc := WrapAdd(currentPc, 1);
    }
  }

  /** `compile`: the four head words, then the resolution (whose error
      aborts, leaving the head emitted), then the jump and its two data
      words. */
  method Compile(ctx: Emitter, resolve: u16 -> Result<u16, CompileError>) returns (r: Result<(), CompileError>)
    modifies ctx
    ensures r == Outcome(old(ctx.currentPc), resolve).0
    ensures ctx.words == old(ctx.words) + Outcome(old(ctx.currentPc), resolve).1
    ensures ctx.currentPc == WrapAdd(old(ctx.currentPc), |Outcome(old(ctx.currentPc), resolve).1| as u16)
  {
    var pc := ctx.currentPc;
    ctx.Instruct(Alu(INC, SP, SP, ZX));
    ctx.Instruct(Alu(MOV, R2, PC, ZX));
    ctx.Instruct(Mem(LADD, R2, PC, 3));
    ctx.Instruct(Mem(MemOperation.STORE, R2, SP, -1));
    assert ctx.currentPc == WrapAdd(pc, 4);
    var pos := resolve(ctx.currentPc);
    if pos.Err? {
      return Err(pos.error);
    }
    ctx.Instruct(Mem(LADD, PC, PC, 2));
    ctx.Instruct(Custom(6));
    ctx.Instruct(Custom(pos.value));
    assert ctx.currentPc == WrapAdd(pc, 7);
    r := Ok(());
  }

  // --- What the words do ----------------------------------------------------

  /** The first four words reserve the cell at SP and store there the
      address just past the seven-word sequence. */
  lemma SaveReturn(pos: u16, image: Image, s: State)
    requires Valid(s) && Holds(image, CallWords(pos), s.pc) && s.pc as int + 7 < 0x1_0000
    ensures var t := Steps(image, s, 4);
      t.Some? && t.value.pc as int == s.pc as int + 4
      && t.value.mem == s.mem[Get(s, SP) := At(s.pc, 7)]
      && Get(t.value, SP) == WrapAdd(Get(s, SP), 1)
      && Get(t.value, R2) == At(s.pc, 7)
      && Keeps(s, t.value, {SP, R2})
  {
    var w := CallWords(pos);
    var incMov := [Alu(INC, SP, SP, ZX), Alu(MOV, R2, PC, ZX)];
    var link := [Mem(LADD, R2, PC, 3), Mem(MemOperation.STORE, R2, SP, -1)];
    assert w == incMov + (link + w[4..]);
    Split(image, incMov, link + w[4..], s.pc);
    Split(image, link, w[4..], At(s.pc, 2));
    HoldsAt(image, w, s.pc, 5);
    IncMov(image, s);
    var t := Steps(image, s, 2);
    assert t.Some? && t.value.pc == At(s.pc, 2);
    assert Read(image, t.value, At(t.value.pc, 3)) == 6;
    SaveAfter(image, s);
  }

  /** `INC SP; MOV R2, PC`: SP moves up one cell and R2 holds the MOV's
      own address. */
  lemma IncMov(image: Image, s: State)
    requires Valid(s) && Holds(image, [Alu(INC, SP, SP, ZX), Alu(MOV, R2, PC, ZX)], s.pc) && s.pc as int + 2 < 0x1_0000
    ensures var t := Steps(image, s, 2);
      t.Some? && t.value.pc as int == s.pc as int + 2 && t.value.mem == s.mem
      && Get(t.value, SP) == WrapAdd(Get(s, SP), 1)
      && Get(t.value, R2) == At(s.pc, 1)
      && Keeps(s, t.value, {SP, R2})
  {
    var w := [Alu(INC, SP, SP, ZX), Alu(MOV, R2, PC, ZX)];
    HoldsAt(image, w, s.pc, 0);
    HoldsAt(image, w, s.pc, 1);
    AluStep(image, s, INC, SP, SP, ZX);
    var s1 := WriteBack(s, SP, WrapAdd(Get(s, SP), 1));
    AluStep(image, s1, MOV, R2, PC, ZX);
    StepsAdd(image, s, 1, 1);
  }

  /** `LADD R2, [PC+3]; STORE R2, [SP-1]`: R2 grows by the word three
      addresses past the LADD, and the result is stored below SP. */
  lemma LinkStore(image: Image, t: State)
    requires Valid(t) && t.pc as int + 3 < 0x1_0000
    requires Holds(image, [Mem(LADD, R2, PC, 3), Mem(MemOperation.STORE, R2, SP, -1)], t.pc)
    ensures var u := Steps(image, t, 2);
      var v := WrapAdd(Get(t, R2), Read(image, t, At(t.pc, 3)));
      u.Some? && u.value.pc as int == t.pc as int + 2
      && u.value.mem == t.mem[WrapSub(Get(t, SP), 1) := v]
      && Get(u.value, R2) == v
      && Keeps(t, u.value, {R2})
  {
    var w := [Mem(LADD, R2, PC, 3), Mem(MemOperation.STORE, R2, SP, -1)];
    HoldsAt(image, w, t.pc, 0);
    HoldsAt(image, w, t.pc, 1);
    assert Offset(t.pc, 3) == At(t.pc, 3);
    LaddStep(image, t, R2, PC, 3);
    var v := WrapAdd(Get(t, R2), Read(image, t, At(t.pc, 3)));
    var t1 := WriteBack(t, R2, v);
    StoreStep(image, t1, R2, SP, -1);
    assert Offset(Get(t1, SP), -1) == WrapSub(Get(t, SP), 1);
    StepsAdd(image, t, 1, 1);
  }

  /** The LADD and STORE of the head, once `INC SP; MOV R2, PC` has run. */
  lemma SaveAfter(image: Image, s: State)
    requires Valid(s) && s.pc as int + 7 < 0x1_0000
    requires var t := Steps(image, s, 2);
      t.Some? && t.value.pc as int == s.pc as int + 2 && t.value.mem == s.mem
      && Get(t.value, SP) == WrapAdd(Get(s, SP), 1)
      && Get(t.value, R2) == At(s.pc, 1)
      && Keeps(s, t.value, {SP, R2})
      && Holds(image, [Mem(LADD, R2, PC, 3), Mem(MemOperation.STORE, R2, SP, -1)], t.value.pc)
      && Read(image, t.value, At(t.value.pc, 3)) == 6
    ensures var t := Steps(image, s, 4);
      t.Some? && t.value.pc as int == s.pc as int + 4
      && t.value.mem == s.mem[Get(s, SP) := At(s.pc, 7)]
      && Get(t.value, SP) == WrapAdd(Get(s, SP), 1)
      && Get(t.value, R2) == At(s.pc, 7)
      && Keeps(s, t.value, {SP, R2})
  {
    var t := Steps(image, s, 2).value;
    LinkStore(image, t);
    StepsAdd(image, s, 2, 2);
    assert WrapSub(Get(t, SP), 1) == Get(s, SP);
    assert WrapAdd(At(s.pc, 1), 6) == At(s.pc, 7);
  }

  /** CALL pushes the return address (the word after the sequence) and
      transfers control to the target: the LADD word's own address plus the
      resolved offset. */
  lemma CallMeaning(pos: u16, image: Image, s: State)
    requires Valid(s) && Holds(image, CallWords(pos), s.pc) && s.pc as int + 7 < 0x1_0000
    ensures var t := Steps(image, s, 5);
      t.Some? && t.value.pc == WrapAdd(At(s.pc, 4), pos)
      && t.value.mem == s.mem[Get(s, SP) := At(s.pc, 7)]
      && Get(t.value, SP) == WrapAdd(Get(s, SP), 1)
      && Keeps(s, t.value, {SP, R2})
  {
    SaveReturn(pos, image, s);
    JumpAfter(pos, image, s);
  }

  /** The fifth word, once the return address is saved. */
  lemma JumpAfter(pos: u16, image: Image, s: State)
    requires Valid(s) && Holds(image, CallWords(pos), s.pc) && s.pc as int + 7 < 0x1_0000
    requires var t := Steps(image, s, 4);
      t.Some? && t.value.pc as int == s.pc as int + 4
      && t.value.mem == s.mem[Get(s, SP) := At(s.pc, 7)]
      && Get(t.value, SP) == WrapAdd(Get(s, SP), 1)
      && Keeps(s, t.value, {SP, R2})
    ensures var t := Steps(image, s, 5);
      t.Some? && t.value.pc == WrapAdd(At(s.pc, 4), pos)
      && t.value.mem == s.mem[Get(s, SP) := At(s.pc, 7)]
      && Get(t.value, SP) == WrapAdd(Get(s, SP), 1)
      && Keeps(s, t.value, {SP, R2})
  {
    var t := Steps(image, s, 4).value;
    var w := CallWords(pos);
    HoldsAt(image, w, s.pc, 4);
    HoldsAt(image, w, s.pc, 6);
    assert t.pc == At(s.pc, 4) && Offset(t.pc, 2) == At(s.pc, 6);
    LaddStep(image, t, PC, PC, 2);
    StepsAdd(image, s, 4, 1);
  }
}
