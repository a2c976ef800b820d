// The stack memory macros `$LOAD`, `$STORE`, `$LADD`, `$LSUB`
// (easycpu_lib/src/asm/stack/mem.rs): the address is popped into R3, the
// value (for every operation but LOAD) into R2, one MEM instruction runs on
// `[R3+0]`, and the result in R2 is pushed back (for every operation but
// STORE).
module StackMem {
  import opened Base
  import opened Cpu
  import opened Errors
  import opened Words
  import opened AsmInst
  import opened Semantics
  import StackBase

  /** `StackMemInstruction`: the operation and its `h`, `l`, `s` flags. */
  datatype StackMemInstruction = StackMemInstruction(op: MemOperation, hi: bool, lo: bool, sw: bool)

  // --- Flag letters --------------------------------------------------------

  /** `set_flags_from_str` as written: with `H` or `L` present all three
      flags follow their letters; otherwise `h` and `l` are cleared and only
      `s` follows its letter. */
  function FlagsFromStr(ins: StackMemInstruction, s: string): (r: StackMemInstruction)
    ensures r.op == ins.op
    ensures r.hi <==> 'H' in s
    ensures r.lo <==> 'L' in s
    ensures r.sw <==> 'S' in s
  {
    if Contains(s, 'H') || Contains(s, 'L') then
      ins.(hi := Contains(s, 'H'), lo := Contains(s, 'L'), sw := Contains(s, 'S'))
    else
      ins.(hi := false, lo := false, sw := Contains(s, 'S'))
  }

  /** The two branches agree: the previous flags never matter, so parsing a
      flag string does not depend on what was set before. */
  lemma FlagsFromStrForgets(a: StackMemInstruction, b: StackMemInstruction, s: string)
    requires a.op == b.op
    ensures FlagsFromStr(a, s) == FlagsFromStr(b, s)
  {
  }

  /** The mutable builder `StackMemInstruction`. */
  class StackMemBuilder {
    var op: MemOperation
    var hi: bool
    var lo: bool
    var sw: bool

    function Value(): StackMemInstruction
      reads this
    {
      StackMemInstruction(op, hi, lo, sw)
    }

    /** `new`: all three flags cleared. */
    constructor (o: MemOperation)
      ensures Value() == StackMemInstruction(o, false, false, false)
    {
      op, hi, lo, sw := o, false, false, false;
    }

    /** `set_flags`: overwrites the three flags, nothing else. */
    method SetFlags(h: bool, l: bool, w: bool)
      modifies this
      ensures Value() == old(Value()).(hi := h, lo := l, sw := w)
    {
      hi, lo, sw := h, l, w;
    }

    /** `set_flags_from_str`. */
    method SetFlagsFromStr(s: string)
      modifies this
      ensures Value() == FlagsFromStr(old(Value()), s)
    {
      if Contains(s, 'H') || Contains(s, 'L') {
        SetFlags(Contains(s, 'H'), Contains(s, 'L'), Contains(s, 'S'));
      } else {
        SetFlags(false, false, Contains(s, 'S'));
      }
    }
  }

  /** `parse_asm`: a fresh instruction whose flags are the letters of `flags`. */
  method ParseAsm(op: MemOperation, flags: string) returns (r: StackMemBuilder)
    ensures fresh(r)
    ensures r.Value() == StackMemInstruction(op, 'H' in flags, 'L' in flags, 'S' in flags)
  {
    r := new StackMemBuilder(op);
    r.SetFlagsFromStr(flags);
  }

  // --- Compilation ---------------------------------------------------------

  /** The one MEM word: `op R2, [R3+0]` with the instruction's flags. */
  function MemPart(ins: StackMemInstruction): Word {
    MemWord(ins.op, Flags(ins.hi, ins.lo, ins.sw), R2, R3, 0)
  }

  /** The value pop: `POP R2` unless the operation is LOAD. */
  function ValuePop(op: MemOperation): seq<Word> {
    if op == MemOperation.LOAD then [] else StackBase.PopWords(R2)
  }

  /** The result push: `PUSH R2` unless the operation is STORE. */
  function ResultPush(op: MemOperation): seq<Word> {
    if op == MemOperation.STORE then [] else StackBase.PushWords(R2)
  }

  /** The words of the expansion, written out. */
  function Emitted(ins: StackMemInstruction): seq<Word> {
    StackBase.PopWords(R3) + ValuePop(ins.op) + [MemPart(ins)] + ResultPush(ins.op)
  }

  /** `compile`: the sub-instructions in order through
      `compile_instructions`. `MemInstruction::new` on `R2, R3, 0` is taken
      to succeed (its checks are not part of this model). */
  function Compile(ins: StackMemInstruction): (r: Result<seq<Word>, CompileError>)
    ensures r == Ok(Emitted(ins))
  {
    var pop3 := StackBase.Compile(StackBase.StackBaseInstruction(StackBase.POP, R3));
    var pop2 := if ins.op == MemOperation.LOAD then Ok([])
                else StackBase.Compile(StackBase.StackBaseInstruction(StackBase.POP, R2));
    var push := if ins.op == MemOperation.STORE then Ok([])
                else StackBase.Compile(StackBase.StackBaseInstruction(StackBase.PUSH, R2));
    Join(Join(Join(pop3, pop2), Ok([MemPart(ins)])), push)
  }

  /** The shape of every expansion: it opens with `POP R3`; a second pop of
      R2 follows exactly when the operation is not LOAD; then the MEM word on
      `[R3+0]` with the flags; and it ends with `PUSH R2` exactly when the
      operation is not STORE. LOAD and STORE take five words, LADD and LSUB
      seven. */
  lemma Shape(ins: StackMemInstruction)
    ensures var w := Compile(ins).value;
      var k := if ins.op == MemOperation.LOAD then 2 else 4;
      |w| == (if ins.op == MemOperation.LOAD || ins.op == MemOperation.STORE then 5 else 7)
      && w[..2] == StackBase.PopWords(R3)
      && (w[2..4] == StackBase.PopWords(R2) <==> ins.op != MemOperation.LOAD)
      && w[k] == MemWord(ins.op, Flags(ins.hi, ins.lo, ins.sw), R2, R3, 0)
      && (ins.op != MemOperation.STORE <==> |w| == k + 3 && w[k + 1..] == StackBase.PushWords(R2))
  {
    var w := Emitted(ins);
    Parts(StackBase.PopWords(R3), ValuePop(ins.op), MemPart(ins), ResultPush(ins.op));
    if ins.op == MemOperation.LOAD {
      assert w[2] == MemPart(ins);
    }
  }

  /** Where the pieces of `a + b + [x] + d` sit, for a two-word `a`. */
  lemma Parts(a: seq<Word>, b: seq<Word>, x: Word, d: seq<Word>)
    requires |a| == 2
    ensures var w := a + b + [x] + d;
      |w| == 3 + |b| + |d| && w[..2] == a && w[2..2 + |b|] == b && w[2 + |b|] == x && w[3 + |b|..] == d
  {
    var w := a + b + [x] + d;
    assert w == (a + b) + ([x] + d);
    assert (a + b)[..2] == a && (a + b)[2..] == b;
  }

  // --- What the words do ----------------------------------------------------

  /** The address on top of the stack. */
  function Top(image: Image, s: State): u16
    requires Valid(s)
  {
    Read(image, s, WrapSub(Get(s, SP), 1))
  }

  /** The value just below it. */
  function Second(image: Image, s: State): u16
    requires Valid(s)
  {
    Read(image, s, WrapSub(Get(s, SP), 2))
  }

  /** `$LOAD` without flags replaces the address on top of the stack by the
      word stored there; SP ends where it started. */
  lemma LoadMeaning(image: Image, s: State)
    requires Valid(s)
    requires Holds(image, Emitted(StackMemInstruction(MemOperation.LOAD, false, false, false)), s.pc)
    requires s.pc as int + 5 < 0x1_0000
    ensures var t := Steps(image, s, 5);
      var a := Top(image, s);
      t.Some? && t.value.pc as int == s.pc as int + 5
      && t.value.mem == s.mem[WrapSub(Get(s, SP), 1) := Read(image, s, a)]
      && Get(t.value, SP) == Get(s, SP)
      && Keeps(s, t.value, {R2, R3})
  {
    var rest := [Mem(MemOperation.LOAD, R2, R3, 0)] + StackBase.PushWords(R2);
    assert Emitted(StackMemInstruction(MemOperation.LOAD, false, false, false)) == StackBase.PopWords(R3) + rest;
    Split(image, StackBase.PopWords(R3), rest, s.pc);
    StackBase.PopMeaning(R3, image, s);
    var t := Steps(image, s, 2);
    assert t.Some? && t.value.pc as int == s.pc as int + 2;
    assert Holds(image, rest, t.value.pc);
    LoadPushAfter(image, s);
  }

  /** The load and push of `$LOAD`, once `POP R3` has run. */
  lemma LoadPushAfter(image: Image, s: State)
    requires Valid(s) && s.pc as int + 5 < 0x1_0000
    requires var t := Steps(image, s, 2);
      t.Some? && t.value.pc as int == s.pc as int + 2 && t.value.mem == s.mem
      && Get(t.value, SP) == WrapSub(Get(s, SP), 1)
      && Get(t.value, R3) == Top(image, s)
      && Keeps(s, t.value, {SP, R3})
    requires Holds(image, [Mem(MemOperation.LOAD, R2, R3, 0)] + StackBase.PushWords(R2), Steps(image, s, 2).value.pc)
    ensures var t := Steps(image, s, 5);
      t.Some? && t.value.pc as int == s.pc as int + 5
      && t.value.mem == s.mem[WrapSub(Get(s, SP), 1) := Read(image, s, Top(image, s))]
      && Get(t.value, SP) == Get(s, SP)
      && Keeps(s, t.value, {R2, R3})
  {
    var t := Steps(image, s, 2).value;
    LoadPush(image, t);
    StepsAdd(image, s, 2, 3);
  }

  /** `LOAD R2, [R3+0]; PUSH R2` pushes the word at the address in R3. */
  lemma LoadPush(image: Image, t: State)
    requires Valid(t) && t.pc as int + 3 < 0x1_0000
    requires Holds(image, [Mem(MemOperation.LOAD, R2, R3, 0)] + StackBase.PushWords(R2), t.pc)
    ensures var u := Steps(image, t, 3);
      var v := Read(image, t, Get(t, R3));
      u.Some? && u.value.pc as int == t.pc as int + 3
      && u.value.mem == t.mem[Get(t, SP) := v]
      && Get(u.value, SP) == WrapAdd(Get(t, SP), 1)
      && Keeps(t, u.value, {R2, SP})
  {
    Split(image, [Mem(MemOperation.LOAD, R2, R3, 0)], StackBase.PushWords(R2), t.pc);
    HoldsAt(image, [Mem(MemOperation.LOAD, R2, R3, 0)], t.pc, 0);
    LoadStep(image, t, R2, R3, 0);
    assert Offset(Get(t, R3), 0) == Get(t, R3);
    var t1 := WriteBack(t, R2, Read(image, t, Get(t, R3)));
    StackBase.PushMeaning(R2, image, t1);
    StepsAfter(image, t, 1, 2, 3);
  }

  /** `POP R3; POP R2` leaves the top of the stack in R3, the value below it
      in R2, and SP two cells lower. */
  lemma PopBoth(image: Image, s: State)
    requires Valid(s)
    requires Holds(image, StackBase.PopWords(R3) + StackBase.PopWords(R2), s.pc) && s.pc as int + 4 < 0x1_0000
    ensures var t := Steps(image, s, 4);
      t.Some? && t.value.pc as int == s.pc as int + 4 && t.value.mem == s.mem
      && Get(t.value, SP) == WrapSub(Get(s, SP), 2)
      && Get(t.value, R3) == Top(image, s) && Get(t.value, R2) == Second(image, s)
      && Keeps(s, t.value, {SP, R2, R3})
  {
    Split(image, StackBase.PopWords(R3), StackBase.PopWords(R2), s.pc);
    StackBase.PopMeaning(R3, image, s);
    var t := Steps(image, s, 2).value;
    StackBase.PopMeaning(R2, image, t);
    StepsAfter(image, s, 2, 2, 4);
    PopBothComposes(image, s, t, Steps(image, t, 2).value);
  }

  /** The state algebra of `PopBoth`. */
  lemma PopBothComposes(image: Image, s: State, t: State, u: State)
    requires Valid(s) && Valid(t) && Valid(u)
    requires t.mem == s.mem && Get(t, SP) == WrapSub(Get(s, SP), 1)
      && Get(t, R3) == Top(image, s) && Keeps(s, t, {SP, R3})
    requires u.mem == t.mem && Get(u, SP) == WrapSub(Get(t, SP), 1)
      && Get(u, R2) == Read(image, t, WrapSub(Get(t, SP), 1)) && Keeps(t, u, {SP, R2})
    ensures u.mem == s.mem && Get(u, SP) == WrapSub(Get(s, SP), 2)
      && Get(u, R3) == Top(image, s) && Get(u, R2) == Second(image, s)
      && Keeps(s, u, {SP, R2, R3})
  {
    DownTwice(Get(s, SP));
  }

  /** Two single-cell moves of SP compose to the two-cell one. */
  lemma DownTwice(x: u16)
    ensures WrapSub(WrapSub(x, 1), 1) == WrapSub(x, 2)
    ensures WrapAdd(WrapSub(x, 2), 1) == WrapSub(x, 1)
  {
    var y := WrapSub(x, 1);
    var z := WrapSub(x, 2);
    assert y as int == if x >= 1 then x as int - 1 else x as int - 1 + 0x1_0000;
    assert z as int == if x >= 2 then x as int - 2 else x as int - 2 + 0x1_0000;
  }

  /** `$STORE` without flags writes the second value to the address on top
      of the stack and removes both. */
  lemma StoreMeaning(image: Image, s: State)
    requires Valid(s)
    requires Holds(image, Emitted(StackMemInstruction(MemOperation.STORE, false, false, false)), s.pc)
    requires s.pc as int + 5 < 0x1_0000
    ensures var t := Steps(image, s, 5);
      t.Some? && t.value.pc as int == s.pc as int + 5
      && t.value.mem == s.mem[Top(image, s) := Second(image, s)]
      && Get(t.value, SP) == WrapSub(Get(s, SP), 2)
      && Keeps(s, t.value, {SP, R2, R3})
  {
    StoreSplit(image, s.pc);
    PopBoth(image, s);
    StoreAfter(image, s);
  }

  /** `$STORE`'s words are the two pops, then the MEM word. */
  lemma StoreSplit(image: Image, base: u16)
    requires Holds(image, Emitted(StackMemInstruction(MemOperation.STORE, false, false, false)), base)
    requires base as int + 5 < 0x1_0000
    ensures Holds(image, StackBase.PopWords(R3) + StackBase.PopWords(R2), base)
    ensures Holds(image, [Mem(MemOperation.STORE, R2, R3, 0)], At(base, 4))
  {
    var pops := StackBase.PopWords(R3) + StackBase.PopWords(R2);
    var st := [Mem(MemOperation.STORE, R2, R3, 0)];
    assert Emitted(StackMemInstruction(MemOperation.STORE, false, false, false)) == pops + st;
    Split(image, pops, st, base);
  }

  /** The MEM word of `$STORE`, once both pops have run. */
  lemma StoreAfter(image: Image, s: State)
    requires Valid(s) && s.pc as int + 5 < 0x1_0000
    requires var t := Steps(image, s, 4);
      t.Some? && t.value.pc as int == s.pc as int + 4 && t.value.mem == s.mem
      && Get(t.value, SP) == WrapSub(Get(s, SP), 2)
      && Get(t.value, R3) == Top(image, s) && Get(t.value, R2) == Second(image, s)
      && Keeps(s, t.value, {SP, R2, R3})
    requires Holds(image, [Mem(MemOperation.STORE, R2, R3, 0)], Steps(image, s, 4).value.pc)
    ensures var t := Steps(image, s, 5);
      t.Some? && t.value.pc as int == s.pc as int + 5
      && t.value.mem == s.mem[Top(image, s) := Second(image, s)]
      && Get(t.value, SP) == WrapSub(Get(s, SP), 2)
      && Keeps(s, t.value, {SP, R2, R3})
  {
    var t := Steps(image, s, 4).value;
    HoldsAt(image, [Mem(MemOperation.STORE, R2, R3, 0)], t.pc, 0);
    StoreStep(image, t, R2, R3, 0);
    StepsAfter(image, s, 4, 1, 5);
  }

  /** `$LADD` and `$LSUB` without flags replace the two top cells by one:
      the second value plus (or minus) the word at the address on top. */
  lemma AccumulateMeaning(op: MemOperation, image: Image, s: State)
    requires op == LADD || op == LSUB
    requires Valid(s)
    requires Holds(image, Emitted(StackMemInstruction(op, false, false, false)), s.pc)
    requires s.pc as int + 7 < 0x1_0000
    ensures var t := Steps(image, s, 7);
      var m := Read(image, s, Top(image, s));
      var v := if op == LADD then WrapAdd(Second(image, s), m) else WrapSub(Second(image, s), m);
      t.Some? && t.value.pc as int == s.pc as int + 7
      && t.value.mem == s.mem[WrapSub(Get(s, SP), 2) := v]
      && Get(t.value, SP) == WrapSub(Get(s, SP), 1)
      && Keeps(s, t.value, {SP, R2, R3})
  {
    AccumulateSplit(op, image, s.pc);
    PopBoth(image, s);
    var t := Steps(image, s, 4);
    assert t.Some? && t.value.pc == At(s.pc, 4);
    AccumulateAfter(op, image, s);
  }

  /** `$LADD`'s and `$LSUB`'s words are the two pops, then the MEM word and
      the push. */
  lemma AccumulateSplit(op: MemOperation, image: Image, base: u16)
    requires op == LADD || op == LSUB
    requires Holds(image, Emitted(StackMemInstruction(op, false, false, false)), base)
    requires base as int + 7 < 0x1_0000
    ensures Holds(image, StackBase.PopWords(R3) + StackBase.PopWords(R2), base)
    ensures Holds(image, [Mem(op, R2, R3, 0)] + StackBase.PushWords(R2), At(base, 4))
  {
    var pops := StackBase.PopWords(R3) + StackBase.PopWords(R2);
    var rest := [Mem(op, R2, R3, 0)] + StackBase.PushWords(R2);
    assert Emitted(StackMemInstruction(op, false, false, false)) == pops + rest;
    Split(image, pops, rest, base);
  }

  /** The accumulate and push of `$LADD`/`$LSUB`, once both pops have run. */
  lemma AccumulateAfter(op: MemOperation, image: Image, s: State)
    requires op == LADD || op == LSUB
    requires Valid(s) && s.pc as int + 7 < 0x1_0000
    requires var t := Steps(image, s, 4);
      t.Some? && t.value.pc as int == s.pc as int + 4 && t.value.mem == s.mem
      && Get(t.value, SP) == WrapSub(Get(s, SP), 2)
      && Get(t.value, R3) == Top(image, s) && Get(t.value, R2) == Second(image, s)
      && Keeps(s, t.value, {SP, R2, R3})
    requires Holds(image, [Mem(op, R2, R3, 0)] + StackBase.PushWords(R2), Steps(image, s, 4).value.pc)
    ensures var t := Steps(image, s, 7);
      var m := Read(image, s, Top(image, s));
      var v := if op == LADD then WrapAdd(Second(image, s), m) else WrapSub(Second(image, s), m);
      t.Some? && t.value.pc as int == s.pc as int + 7
      && t.value.mem == s.mem[WrapSub(Get(s, SP), 2) := v]
      && Get(t.value, SP) == WrapSub(Get(s, SP), 1)
      && Keeps(s, t.value, {SP, R2, R3})
  {
    var t := Steps(image, s, 4).value;
    AccumulatePush(op, image, t);
    StepsAfter(image, s, 4, 3, 7);
    AccumulateComposes(op, image, s, t, Steps(image, t, 3).value);
  }

  /** The state algebra of `AccumulateAfter`. */
  lemma AccumulateComposes(op: MemOperation, image: Image, s: State, t: State, u: State)
    requires Valid(s) && Valid(t) && Valid(u)
    requires t.mem == s.mem && Get(t, SP) == WrapSub(Get(s, SP), 2)
      && Get(t, R3) == Top(image, s) && Get(t, R2) == Second(image, s)
      && Keeps(s, t, {SP, R2, R3})
    requires var m := Read(image, t, Get(t, R3));
      u.mem == t.mem[Get(t, SP) := if op == LADD then WrapAdd(Get(t, R2), m) else WrapSub(Get(t, R2), m)]
      && Get(u, SP) == WrapAdd(Get(t, SP), 1) && Keeps(t, u, {R2, SP})
    ensures var m := Read(image, s, Top(image, s));
      u.mem == s.mem[WrapSub(Get(s, SP), 2) := if op == LADD then WrapAdd(Second(image, s), m) else WrapSub(Second(image, s), m)]
      && Get(u, SP) == WrapSub(Get(s, SP), 1) && Keeps(s, u, {SP, R2, R3})
  {
    DownTwice(Get(s, SP));
    SameMemReads(image, s, t, Get(t, R3));
  }

  lemma SameMemReads(image: Image, s: State, t: State, a: u16)
    requires t.mem == s.mem
    ensures Read(image, t, a) == Read(image, s, a)
  {
  }

  /** `LADD R2, [R3+0]; PUSH R2` (or LSUB) pushes R2 combined with the word
      at the address in R3. */
  lemma AccumulatePush(op: MemOperation, image: Image, t: State)
    requires op == LADD || op == LSUB
    requires Valid(t) && t.pc as int + 3 < 0x1_0000
    requires Holds(image, [Mem(op, R2, R3, 0)] + StackBase.PushWords(R2), t.pc)
    ensures var u := Steps(image, t, 3);
      var m := Read(image, t, Get(t, R3));
      var v := if op == LADD then WrapAdd(Get(t, R2), m) else WrapSub(Get(t, R2), m);
      u.Some? && u.value.pc as int == t.pc as int + 3
      && u.value.mem == t.mem[Get(t, SP) := v]
      && Get(u.value, SP) == WrapAdd(Get(t, SP), 1)
      && Keeps(t, u.value, {R2, SP})
  {
    Split(image, [Mem(op, R2, R3, 0)], StackBase.PushWords(R2), t.pc);
    HoldsAt(image, [Mem(op, R2, R3, 0)], t.pc, 0);
    AccumulateStep(op, image, t);
    var m := Read(image, t, Get(t, R3));
    var t1 := WriteBack(t, R2, if op == LADD then WrapAdd(Get(t, R2), m) else WrapSub(Get(t, R2), m));
    StackBase.PushMeaning(R2, image, t1);
    StepsAfter(image, t, 1, 2, 3);
  }

  /** One LADD or LSUB step on `R2, [R3+0]`. */
  lemma AccumulateStep(op: MemOperation, image: Image, t: State)
    requires op == LADD || op == LSUB
    requires Valid(t) && t.pc in image && image[t.pc] == Mem(op, R2, R3, 0)
    ensures var m := Read(image, t, Get(t, R3));
      Steps(image, t, 1) == Some(WriteBack(t, R2, if op == LADD then WrapAdd(Get(t, R2), m) else WrapSub(Get(t, R2), m)))
  {
    assert Offset(Get(t, R3), 0) == Get(t, R3);
    if op == LADD {
      LaddStep(image, t, R2, R3, 0);
    } else {
      LsubStep(image, t, R2, R3, 0);
    }
  }
}
