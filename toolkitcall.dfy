// The toolkit assembler's stack CALL macro (toolkit/src/asm/stack/call.rs):
// push the return address as the label RET_ADDR, then jump to the target.
// Where the call returns to depends on how long the whole sequence is, and
// that length depends on the constant pushed, so the sequence is compiled
// again and again under a length guess until the guess is the length.
module ToolkitCall {
  import opened Base
  import opened Cpu
  import opened ToolkitErrors
  import opened Words
  import opened Semantics
  import LoadConst
  import LoadLabel
  import StackBase
  import StackConst

  /** `StackCallInstruction`, over the unresolved label type `L`. */
  datatype ToolkitCallInstruction<L> = ToolkitCallInstruction(targ: L)

  /** `parse_asm`: the one label operand, or the reader's error. The operand
      reader is not part of this model: `target` is what it returns. */
  function ParseAsm<L>(target: Result<L, CompileError>): (r: Result<ToolkitCallInstruction<L>, CompileError>)
    ensures r.Ok? <==> target.Ok?
    ensures r.Ok? ==> r.value.targ == target.value
    ensures r.Err? ==> r.error == target.error
  {
    match target
    case Err(e) => Err(e)
    case Ok(t) => Ok(ToolkitCallInstruction(t))
  }

  /** The first length guess. */
  const InitialGuess: u16 := 16

  /** How many guesses are tried. */
  const MaxAttempts: nat := 128

  /** The two sub-compilers, which are not part of this model. `plabel(g)`
      compiles `PLABEL RET_ADDR` at address 0 with RET_ADDR bound to `g`;
      `jump(at)` compiles `JMP targ` at address `at` against the caller's
      label table. */
  datatype SubCompilers<E> = SubCompilers(
    plabel: u16 -> Result<seq<Word>, E>,
    jump: u16 -> Result<seq<Word>, E>)

  /** One round of the loop under the guess `guess`, for a CALL at `pc`:
      the PLABEL, then the JMP compiled at the address just past it (the
      address sum taken as wrapping). Either error aborts. */
  function Attempt<E>(guess: u16, pc: u16, sub: SubCompilers<E>): Result<seq<Word>, E> {
    match sub.plabel(guess)
    case Err(e) => Err(e)
    case Ok(p) =>
      match sub.jump(WrapAdd(pc, TruncU16(|p|)))
      case Err(e) => Err(e)
      case Ok(j) => Ok(p + j)
  }

  /** What the loop ends with: its result, and whether it stopped because
      the length matched the guess. */
  datatype Outcome<E> = Outcome(result: Result<seq<Word>, E>, settled: bool)

  /** The loop from guess `guess` with `attempts` rounds left and `last` the
      words of the previous round. The length is compared as a `u16`. */
  function Iterate<E>(guess: u16, attempts: nat, last: seq<Word>, pc: u16, sub: SubCompilers<E>): (o: Outcome<E>)
    ensures o.settled ==> o.result.Ok? && Attempt(TruncU16(|o.result.value|), pc, sub) == o.result
    ensures o.result.Ok? && !o.settled ==>
      (attempts == 0 && o.result.value == last)
      || exists g: u16 :: Attempt(g, pc, sub) == o.result && TruncU16(|o.result.value|) != g
    ensures o.result.Err? ==> exists g: u16 :: Attempt(g, pc, sub) == o.result
    decreases attempts
  {
    if attempts == 0 then Outcome(Ok(last), false)
    else
      match Attempt(guess, pc, sub)
      case Err(e) => Outcome(Err(e), false)
      case Ok(w) =>
        if TruncU16(|w|) == guess then Outcome(Ok(w), true)
        else Iterate(TruncU16(|w|), attempts - 1, w, pc, sub)
  }

  /** `compile`, as a value. */
  function Spec<E>(pc: u16, sub: SubCompilers<E>): Outcome<E> {
    Iterate(InitialGuess, MaxAttempts, [], pc, sub)
  }

  /** `compile` for a CALL at `pc`: up to 128 rounds, each recompiling both
      parts under the current guess; the loop stops once the words are as
      long as guessed, and otherwise the next guess is that length. When the
      rounds run out the last words are returned, with no error. */
  method Compile<E>(pc: u16, sub: SubCompilers<E>) returns (r: Result<seq<Word>, E>)
    ensures r == Spec(pc, sub).result
  {
    var guess := InitialGuess;
    var ins: seq<Word> := [];
    var attempts := MaxAttempts;
    while attempts > 0
      invariant Iterate(guess, attempts, ins, pc, sub) == Spec(pc, sub)
      decreases attempts
    {
      var p := sub.plabel(guess);
      if p.Err? {
        return Err(p.error);
      }
      ins := p.value;
      var j := sub.jump(WrapAdd(pc, TruncU16(|ins|)));
      if j.Err? {
        return Err(j.error);
      }
      ins := ins + j.value;
      if TruncU16(|ins|) == guess {
        // the `break`: the words are returned as they are
        return Ok(ins);
      }
      guess := TruncU16(|ins|);
      attempts := attempts - 1;
    }
    return Ok(ins);
  }

  // --- With the easycpu_lib expansions --------------------------------------

  /** The sub-compilers when PLABEL and JMP expand as easycpu_lib's do, and
      RET_ADDR seen from address 0 is the guess itself. */
  predicate LibraryExpansions<E>(sub: SubCompilers<E>) {
    forall g: u16 :: sub.plabel(g) == Ok(StackConst.PlabelWords(g))
  }

  /** For every guess from 3 to 4095 the PLABEL part is five words long. */
  lemma PlabelLength(g: u16)
    requires 3 <= g < 4096 && g != 0xFFFF
    ensures |StackConst.PlabelWords(g)| == 5
  {
    assert |LoadConst.Emitted(LoadConst.Add, R2, g)| == 2;
  }

  /** With those expansions and a jump of fewer than 4000 words the loop
      settles within two rounds, well inside the 128: the second guess is
      already the length, because the PLABEL part does not change size. */
  lemma SettlesEarly<E>(pc: u16, sub: SubCompilers<E>)
    requires LibraryExpansions(sub)
    requires sub.jump(WrapAdd(pc, 5)).Ok? && |sub.jump(WrapAdd(pc, 5)).value| < 4000
    ensures var j := sub.jump(WrapAdd(pc, 5)).value;
      Spec(pc, sub) == Outcome(Ok(StackConst.PlabelWords((5 + |j|) as u16) + j), true)
  {
    var j := sub.jump(WrapAdd(pc, 5)).value;
    var n := (5 + |j|) as u16;
    PlabelLength(InitialGuess);
    PlabelLength(n);
    var w1 := StackConst.PlabelWords(InitialGuess) + j;
    assert Attempt(InitialGuess, pc, sub) == Ok(w1);
    assert TruncU16(|w1|) == n;
    var w2 := StackConst.PlabelWords(n) + j;
    assert Attempt(n, pc, sub) == Ok(w2);
    assert TruncU16(|w2|) == n;
  }

  /** Once settled with those expansions, the words start with the PLABEL of
      their own length: the pushed constant is the length of the sequence. */
  lemma SettledShape<E>(pc: u16, sub: SubCompilers<E>)
    requires LibraryExpansions(sub)
    requires Spec(pc, sub).settled && |Spec(pc, sub).result.value| < 0x1_0000
    ensures var w := Spec(pc, sub).result.value;
      var p := StackConst.PlabelWords(|w| as u16);
      |p| <= |w| && w[..|p|] == p
      && sub.jump(WrapAdd(pc, |p| as u16)) == Ok(w[|p|..])
  {
    var w := Spec(pc, sub).result.value;
    var n := TruncU16(|w|);
    assert n == |w| as u16;
    assert Attempt(n, pc, sub) == Ok(w);
    var p := StackConst.PlabelWords(n);
    var j := sub.jump(WrapAdd(pc, TruncU16(|p|))).value;
    assert w == p + j;
    assert w[|p|..] == j;
  }

  /** Run from its first word, `w` pushes the address just past its own end
      (the return address) onto the stack, changes only R2 and SP, and
      reaches the words after its PLABEL part. */
  predicate PushesPast(w: seq<Word>, image: Image, s: State)
    requires Valid(s) && s.pc as int + |w| < 0x1_0000
  {
    var off := |w| as u16;
    var p := StackConst.PlabelWords(off);
    var t := Steps(image, s, LoadLabel.StepCount(R2, off) + 2);
    && t.Some? && t.value.mem == s.mem[Get(s, SP) := At(s.pc, |w|)]
    && Get(t.value, SP) == WrapAdd(Get(s, SP), 1)
    && Keeps(s, t.value, {R2, SP})
    && |p| <= |w| && Holds(image, w[|p|..], t.value.pc)
  }

  /** Run from its first word, a settled sequence pushes the address just
      past its own end, which is where the called code returns to, and
      reaches the jump. */
  lemma PushesReturnAddress<E>(pc: u16, sub: SubCompilers<E>, image: Image, s: State)
    requires LibraryExpansions(sub)
    requires Spec(pc, sub).settled
    requires Valid(s) && Holds(image, Spec(pc, sub).result.value, s.pc) && s.pc as int + |Spec(pc, sub).result.value| < 0x1_0000
    ensures PushesPast(Spec(pc, sub).result.value, image, s)
  {
    var w := Spec(pc, sub).result.value;
    SettledShape(pc, sub);
    LabelPartPushes(w, image, s);
  }

  /** A sequence that starts with the PLABEL of its own length, run from its
      first word, pushes the address just past its end and reaches the rest. */
  lemma LabelPartPushes(w: seq<Word>, image: Image, s: State)
    requires |w| < 0x1_0000
    requires var p := StackConst.PlabelWords(|w| as u16); |p| <= |w| && w[..|p|] == p
    requires Valid(s) && Holds(image, w, s.pc) && s.pc as int + |w| < 0x1_0000
    ensures PushesPast(w, image, s)
  {
    var off := |w| as u16;
    var p := StackConst.PlabelWords(off);
    assert w == p + w[|p|..];
    Split(image, p, w[|p|..], s.pc);
    StackConst.PlabelMeaning(off, image, s);
    assert WrapAdd(s.pc, off) == At(s.pc, |w|);
  }
}
