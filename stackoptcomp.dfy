// The register-window compiler of stack operations
// (easycpu_lib/src/stack/opt/comp.rs). The top of the stack is kept in a
// window of registers (`stack_reg`, oldest first); the rest lives in memory
// below SP. An operation takes its inputs from the newest window entries,
// loading from memory only once the window is empty; registers for temps
// and outputs are allocated from R2..R5 among those not in use, spilling the
// oldest window entry to memory whenever none is free. At the end the whole
// window is spilled.
module StackOptComp {
  import opened Base
  import opened Cpu
  import opened Errors
  import opened Words
  import opened StackSig
  import StackOp
  import StackManip
  import StackLabelOp

  // --- Words ------------------------------------------------------------------

  /** `reset_single` of one entry: `STORE entry,[SP+0]` then `INC SP`. */
  function Spill(e: Register): seq<Word> {
    [Mem(MemOperation.STORE, e, SP, 0), StackOp.IncSp]
  }

  /** Spilling entries in order, oldest first. */
  function SpillAll(w: seq<Register>): (r: seq<Word>)
    ensures |r| == 2 * |w|
  {
    if w == [] then [] else Spill(w[0]) + SpillAll(w[1..])
  }

  /** `load_one_into_reg` after the allocation: `DEC SP` then
      `LOAD reg,[SP+0]`. */
  function Load(reg: Register): seq<Word> {
    [StackOp.DecSp, Mem(MemOperation.LOAD, reg, SP, 0)]
  }

  lemma Assoc(a: seq<Word>, b: seq<Word>, c: seq<Word>)
    ensures (a + b) + c == a + (b + c)
  {
  }

  // --- Allocation ---------------------------------------------------------------

  /** The entries of `s` not in `xs`, in order (`retain`). */
  function Without(s: seq<Register>, xs: seq<Register>): (r: seq<Register>)
    ensures forall x :: x in r <==> x in s && x !in xs
    ensures |r| <= |s|
  {
    if s == [] then [] else (if s[0] in xs then [] else [s[0]]) + Without(s[1..], xs)
  }

  lemma {:induction false} WithoutAppend(x: seq<Register>, y: seq<Register>, b: seq<Register>)
    ensures Without(x + y, b) == Without(x, b) + Without(y, b)
  {
    if x == [] {
      assert x + y == y;
    } else {
      assert (x + y)[1..] == x[1..] + y;
      WithoutAppend(x[1..], y, b);
    }
  }

  /** Removing `a`, then `b`, is removing both. */
  lemma {:induction false} WithoutTwice(s: seq<Register>, a: seq<Register>, b: seq<Register>)
    ensures Without(Without(s, a), b) == Without(s, a + b)
  {
    if s != [] {
      var head := if s[0] in a then [] else [s[0]];
      WithoutAppend(head, Without(s[1..], a), b);
      WithoutTwice(s[1..], a, b);
      if head != [] {
        assert head[1..] == [];
      }
    }
  }

  /** The first entry left is the first of `s` that is not removed. */
  lemma {:induction false} WithoutFirst(s: seq<Register>, xs: seq<Register>)
    requires Without(s, xs) != []
    ensures exists k :: 0 <= k < |s| && s[k] == Without(s, xs)[0] && forall j :: 0 <= j < k ==> s[j] in xs
  {
    if s[0] !in xs {
      assert s[0] == Without(s, xs)[0];
    } else {
      assert Without(s, xs) == Without(s[1..], xs);
      WithoutFirst(s[1..], xs);
      var k :| 0 <= k < |s[1..]| && s[1..][k] == Without(s[1..], xs)[0] && forall j :: 0 <= j < k ==> s[1..][j] in xs;
      assert s[k + 1] == Without(s, xs)[0];
      forall j | 0 <= j < k + 1
        ensures s[j] in xs
      {
        if j > 0 {
          assert s[j] == s[1..][j - 1];
        }
      }
    }
  }

  /** Some register of R2..R5 is not in `used`: without this the allocation
      never returns. */
  predicate Room(used: seq<Register>) {
    exists i :: 0 <= i < |Candidates| && Candidates[i] !in used
  }

  /** What `alloc_free_register` returns, how many of the oldest window
      entries it spilled, and the words it emitted. */
  datatype Alloced = Alloced(reg: Register, spilled: nat, words: seq<Word>)

  /** `alloc_free_register`: the first of R2..R5 in neither `used` nor the
      window; when there is none, the oldest window entry is spilled and the
      allocation retried. With no room at all it would spill the whole window
      and then recurse for ever: `None`. */
  function Alloc(used: seq<Register>, window: seq<Register>): (r: Option<Alloced>)
    ensures r.Some? <==> Room(used)
    ensures r.Some? ==> r.value.spilled <= |window|
    decreases |window|
  {
    var available := Without(Candidates, used + window);
    if available != [] then
      assert available[0] in available;
      Some(Alloced(available[0], 0, []))
    else if window == [] then
      assert used + window == used;
      None
    else
      match Alloc(used, window[1..])
      case None => None
      case Some(a) => Some(Alloced(a.reg, a.spilled + 1, Spill(window[0]) + a.words))
  }

  /** The register allocated is the first of R2..R5 in neither `used` nor
      the window left after the spills. */
  lemma {:induction false} AllocChoice(used: seq<Register>, window: seq<Register>)
    requires Room(used)
    ensures var a := Alloc(used, window).value;
      a.reg in Candidates && a.reg !in used && a.reg !in window[a.spilled..]
      && Without(Candidates, used + window[a.spilled..]) != []
      && a.reg == Without(Candidates, used + window[a.spilled..])[0]
    decreases |window|
  {
    var available := Without(Candidates, used + window);
    if available != [] {
      assert available[0] in available;
      assert window[0..] == window;
    } else {
      AllocRetry(used, window);
      AllocChoice(used, window[1..]);
    }
  }

  lemma AllocFree(used: seq<Register>, window: seq<Register>)
    requires Without(Candidates, used + window) != []
    ensures Alloc(used, window) == Some(Alloced(Without(Candidates, used + window)[0], 0, []))
    ensures window[0..] == window
  {
  }

  /** With no register free the oldest entry is spilled and the rest of the
      window tried. */
  lemma AllocRetry(used: seq<Register>, window: seq<Register>)
    requires Room(used) && Without(Candidates, used + window) == []
    ensures window != []
    ensures var b := Alloc(used, window[1..]).value;
      Alloc(used, window) == Some(Alloced(b.reg, b.spilled + 1, Spill(window[0]) + b.words))
      && window[1..][b.spilled..] == window[b.spilled + 1..]
  {
    var i :| 0 <= i < |Candidates| && Candidates[i] !in used;
    assert Candidates[i] !in Without(Candidates, used + window);
    assert Candidates[i] in window;
  }

  /** What an allocation spills: exactly the oldest entries it dropped from
      the window, oldest first, and only while no register was free. */
  lemma {:induction false} AllocSpills(used: seq<Register>, window: seq<Register>)
    requires Room(used)
    ensures var a := Alloc(used, window).value;
      a.words == SpillAll(window[..a.spilled])
      && forall k :: 0 <= k < a.spilled ==> Without(Candidates, used + window[k..]) == []
    decreases |window|
  {
    var a := Alloc(used, window).value;
    if Without(Candidates, used + window) == [] && window != [] {
      AllocSpills(used, window[1..]);
      var b := Alloc(used, window[1..]).value;
      assert a.spilled == b.spilled + 1;
      assert window[..a.spilled][1..] == window[1..][..b.spilled];
      forall k | 0 <= k < a.spilled
        ensures Without(Candidates, used + window[k..]) == []
      {
        if k > 0 {
          assert window[1..][k - 1..] == window[k..];
        }
      }
    } else {
      assert window[..0] == [];
    }
  }

  /** At most three registers in use leave room for one more. */
  lemma RoomWhenFew(used: seq<Register>)
    requires |used| < 4
    ensures Room(used)
  {
    if !Room(used) {
      var u := set x | x in used;
      SetOfSeq(used);
      var cs := {R2, R3, R4, R5};
      forall c | c in cs
        ensures c in u
      {
        assert c == Candidates[0] || c == Candidates[1] || c == Candidates[2] || c == Candidates[3];
      }
    }
  }

  lemma {:induction false} SetOfSeq(s: seq<Register>)
    ensures |(set x | x in s)| <= |s|
  {
    if s != [] {
      var s' := s[..|s| - 1];
      SetOfSeq(s');
      assert (set x | x in s) == (set x | x in s') + {s[|s| - 1]};
    }
  }

  // --- The phases of `compile_one` ----------------------------------------------

  /** The state of one of `compile_one`'s loops: the registers the loop has
      collected so far, in order, the window, and the words emitted. */
  datatype Phase = Phase(regs: seq<Register>, window: seq<Register>, words: seq<Word>)

  /** One turn of the input loop: the newest window entry is popped, or,
      with the window empty, a register is allocated and loaded from memory.
      The inputs taken so far are the registers in use. */
  function TakeOne(s: Phase): (r: Option<Phase>)
    ensures r.Some? ==> |r.value.regs| == |s.regs| + 1
  {
    if s.window != [] then
      Some(Phase(s.regs + [s.window[|s.window| - 1]], s.window[..|s.window| - 1], s.words))
    else
      match Alloc(s.regs, s.window)
      case None => None
      case Some(a) => Some(Phase(s.regs + [a.reg], s.window[a.spilled..], s.words + a.words + Load(a.reg)))
  }

  /** The input loop of `compile_one`, `n` turns; the registers come out in
      the order taken, newest entry first. */
  function Take(n: nat, s: Phase): (r: Option<Phase>)
    ensures r.Some? ==> |r.value.regs| == |s.regs| + n
    decreases n
  {
    if n == 0 then Some(s)
    else
      match TakeOne(s)
      case None => None
      case Some(s') => Take(n - 1, s')
  }

  lemma TakeStep(n: nat, s: Phase)
    requires n > 0 && Take(n, s).Some?
    ensures s.window == [] ==> Room(s.regs)
    ensures TakeOne(s).Some? && Take(n, s) == Take(n - 1, TakeOne(s).value)
  {
  }

  /** One turn of the temps loop or the outputs loop: a register is
      allocated avoiding `used` and the ones before it, spilling the oldest
      window entries while none is free. */
  function AllocOne(used: seq<Register>, s: Phase): (r: Option<Phase>)
    ensures r.Some? <==> Room(used + s.regs)
    ensures r.Some? ==> |r.value.regs| == |s.regs| + 1
  {
    match Alloc(used + s.regs, s.window)
    case None => None
    case Some(a) => Some(Phase(s.regs + [a.reg], s.window[a.spilled..], s.words + a.words))
  }

  /** The temps loop or the outputs loop of `compile_one`: `n` allocations,
      each register joining those in use (`used` and the ones before it). */
  function AllocMany(n: nat, used: seq<Register>, s: Phase): (r: Option<Phase>)
    ensures r.Some? ==> |r.value.regs| == |s.regs| + n
    decreases n
  {
    if n == 0 then Some(s)
    else
      match AllocOne(used, s)
      case None => None
      case Some(s') => AllocMany(n - 1, used, s')
  }

  lemma AllocManyStep(n: nat, used: seq<Register>, s: Phase)
    requires n > 0 && AllocMany(n, used, s).Some?
    ensures Room(used + s.regs)
    ensures var a := Alloc(used + s.regs, s.window).value;
      AllocMany(n, used, s) == AllocMany(n - 1, used, Phase(s.regs + [a.reg], s.window[a.spilled..], s.words + a.words))
  {
  }

  /** The registers `compile_one` hands to `execute`, and the window and the
      words it leaves before executing. */
  datatype Plan = Plan(inps: seq<Register>, temps: seq<Register>, outs: seq<Register>, window: seq<Register>, words: seq<Word>)

  /** `compile_one` up to `execute`: the inputs are taken and reversed so the
      deepest comes first; with `FLAG_SAVE_STACK` or `FLAG_RESET_STACK` the
      window is then spilled; temps are allocated avoiding the inputs, and
      outputs avoiding the temps only. `None` when an allocation never
      returns. */
  function Prepare(sig: StackSig.Signature, window: seq<Register>): (r: Option<Plan>)
    ensures r.Some? ==> |r.value.inps| == sig.takes && |r.value.temps| == sig.temps && |r.value.outs| == sig.pushes
  {
    match Take(sig.takes, Phase([], window, []))
    case None => None
    case Some(t) =>
      var w1 := if sig.save || sig.reset then [] else t.window;
      var flush := if sig.save || sig.reset then SpillAll(t.window) else [];
      match AllocMany(sig.temps, t.regs, Phase([], w1, []))
      case None => None
      case Some(tm) =>
        match AllocMany(sig.pushes, tm.regs, Phase([], tm.window, []))
        case None => None
        case Some(o) => Some(Plan(Reverse(t.regs), tm.regs, o.regs, o.window, t.words + flush + tm.words + o.words))
  }

  lemma FitsBySize(op: StackOp.Op, inps: seq<Register>, outs: seq<Register>, temps: seq<Register>)
    requires |inps| == StackOp.Signature(op).takes && |outs| == StackOp.Signature(op).pushes
    requires |temps| == StackOp.Signature(op).temps
    ensures StackOp.Fits(op, inps, outs, temps)
  {
    match op
    case Manip(m) =>
    case Local(l) =>
    case Label(l) =>
  }

  /** How compiling ends: an allocation that never returns, an error of
      `execute` (with the words emitted and the window left before it), or
      success. */
  datatype Outcome =
    | Loops
    | Fails(error: CompileError, words: seq<Word>, window: seq<Register>)
    | Done(words: seq<Word>, window: seq<Register>)

  /** `compile_one`: after `execute`, its outputs, as it left them, are
      pushed onto the window in order. */
  function CompileOneSpec(op: StackOp.Op, window: seq<Register>, labelCode: StackLabelOp.LabelCode): Outcome {
    match Prepare(StackOp.Signature(op), window)
    case None => Loops
    case Some(p) =>
      FitsBySize(op, p.inps, p.outs, p.temps);
      match StackOp.ExecSpec(op, p.inps, p.outs, p.temps, labelCode)
      case Err(e) => Fails(e, p.words, p.window)
      case Ok(x) => Done(p.words + x.words, p.window + x.outs)
  }

  /** `compile_one` after the registers are handed out. */
  lemma CompileOneUnfold(op: StackOp.Op, window: seq<Register>, labelCode: StackLabelOp.LabelCode)
    requires Prepare(StackOp.Signature(op), window).Some?
    ensures var p := Prepare(StackOp.Signature(op), window).value;
      StackOp.Fits(op, p.inps, p.outs, p.temps)
      && var e := StackOp.ExecSpec(op, p.inps, p.outs, p.temps, labelCode);
      CompileOneSpec(op, window, labelCode)
        == if e.Err? then Fails(e.error, p.words, p.window) else Done(p.words + e.value.words, p.window + e.value.outs)
  {
    var p := Prepare(StackOp.Signature(op), window).value;
    FitsBySize(op, p.inps, p.outs, p.temps);
  }

  /** `compile_one` of a manipulation, from the registers `Prepare` chose. */
  lemma CompileManip(m: StackManip.ManipOperation, window: seq<Register>, labelCode: StackLabelOp.LabelCode, p: Plan)
    requires Prepare(StackManip.Signature(m), window) == Some(p)
    ensures StackManip.Fits(m, p.inps, p.outs)
    ensures CompileOneSpec(StackOp.Manip(m), window, labelCode) == Done(p.words, p.window + StackManip.Outs(m, p.inps, p.outs))
  {
    FitsBySize(StackOp.Manip(m), p.inps, p.outs, p.temps);
    var none: seq<Word> := [];
    assert p.words + none == p.words;
  }

  /** A manipulation whose registers come straight from the window emits
      nothing and leaves just its outputs in the window. */
  lemma ManipRenames(m: StackManip.ManipOperation, window: seq<Register>, labelCode: StackLabelOp.LabelCode, p: Plan, outs: seq<Register>)
    requires Prepare(StackManip.Signature(m), window) == Some(p)
    requires p.words == [] && p.window == [] && StackManip.Outs(m, p.inps, p.outs) == outs
    ensures CompileOneSpec(StackOp.Manip(m), window, labelCode) == Done([], outs)
  {
    CompileManip(m, window, labelCode, p);
    assert p.window + outs == outs;
  }

  /** `compile` from the window `window` with `words` emitted: each
      operation in turn, stopping at the first error, then the whole window
      spilled. */
  function CompileSpec(ops: seq<StackOp.Op>, window: seq<Register>, words: seq<Word>,
                       labelCode: StackLabelOp.LabelCode): (r: Outcome)
    ensures r.Done? ==> r.window == []
    ensures !r.Loops? ==> |words| <= |r.words| && r.words[..|words|] == words
    decreases |ops|
  {
    if ops == [] then Done(words + SpillAll(window), [])
    else
      match CompileOneSpec(ops[0], window, labelCode)
      case Loops => Loops
      case Fails(e, ws, w) => Fails(e, words + ws, w)
      case Done(ws, w) =>
        var r := CompileSpec(ops[1..], w, words + ws, labelCode);
        assert !r.Loops? ==> r.words[..|words|] == (words + ws)[..|words|];
        r
  }

  // --- Properties ------------------------------------------------------------------

  predicate Distinct(s: seq<Register>) {
    forall i, j :: 0 <= i < j < |s| ==> s[i] != s[j]
  }

  lemma ReverseHas(s: seq<Register>, x: Register)
    ensures x in Reverse(s) <==> x in s
  {
    if x in s {
      var i :| 0 <= i < |s| && s[i] == x;
      assert Reverse(s)[|s| - 1 - i] == x;
    }
  }

  /** The newest `n` entries of `w`, newest first. */
  function Popped(w: seq<Register>, n: nat): (r: seq<Register>)
    requires n <= |w|
    ensures |r| == n && forall i :: 0 <= i < n ==> r[i] == w[|w| - 1 - i]
  {
    seq(n, i requires 0 <= i < n => w[|w| - 1 - i])
  }

  lemma PoppedStep(w: seq<Register>, n: nat)
    requires 0 < n <= |w|
    ensures [w[|w| - 1]] + Popped(w[..|w| - 1], n - 1) == Popped(w, n)
  {
    var l, r := [w[|w| - 1]] + Popped(w[..|w| - 1], n - 1), Popped(w, n);
    forall i | 0 <= i < n
      ensures l[i] == r[i]
    {
      if i > 0 {
        assert l[i] == Popped(w[..|w| - 1], n - 1)[i - 1];
      }
    }
  }

  lemma AppendAssoc(a: seq<Register>, b: seq<Register>, c: seq<Register>)
    ensures (a + b) + c == a + (b + c)
  {
  }

  /** With enough entries in the window, the inputs are its newest entries,
      popped newest first, and nothing is emitted. */
  lemma {:induction false} TakeFromWindow(n: nat, s: Phase)
    requires n <= |s.window|
    ensures var w := s.window;
      Take(n, s) == Some(Phase(s.regs + Popped(w, n), w[..|w| - n], s.words))
  {
    var w := s.window;
    if n == 0 {
      assert w[..|w|] == w && s.regs + Popped(w, 0) == s.regs;
    } else {
      TakeStep1(n, s);
      var w' := w[..|w| - 1];
      var s' := Phase(s.regs + [w[|w| - 1]], w', s.words);
      TakeFromWindow(n - 1, s');
      assert w'[..|w'| - (n - 1)] == w[..|w| - n];
      PoppedStep(w, n);
      AppendAssoc(s.regs, [w[|w| - 1]], Popped(w', n - 1));
    }
  }

  lemma TakeStep1(n: nat, s: Phase)
    requires 0 < n && s.window != []
    ensures Take(n, s) == Take(n - 1, Phase(s.regs + [s.window[|s.window| - 1]], s.window[..|s.window| - 1], s.words))
  {
  }

  /** So the operation's inputs, deepest first, are the newest window
      entries in window order. */
  lemma InputsFromWindow(sig: StackSig.Signature, window: seq<Register>)
    requires sig.takes <= |window| && Prepare(sig, window).Some?
    ensures Prepare(sig, window).value.inps == window[|window| - sig.takes..]
  {
    var n := sig.takes;
    var none: seq<Register> := [];
    var ws: seq<Word> := [];
    TakeFromWindow(n, Phase(none, window, ws));
    assert none + Popped(window, n) == Popped(window, n);
    var t := Take(n, Phase(none, window, ws));
    assert t.Some? && t.value.regs == Popped(window, n);
    PrepareInputs(sig, window);
    ReversePopped(window, n);
  }

  /** Popping the newest `n` and reversing them gives them in window
      order. */
  lemma ReversePopped(w: seq<Register>, n: nat)
    requires n <= |w|
    ensures Reverse(Popped(w, n)) == w[|w| - n..]
  {
    var r := Reverse(Popped(w, n));
    forall i | 0 <= i < n
      ensures r[i] == w[|w| - n..][i]
    {
    }
  }

  /** The words of loading each of `regs` in turn from memory. */
  function LoadAll(regs: seq<Register>): seq<Word> {
    if regs == [] then [] else Load(regs[0]) + LoadAll(regs[1..])
  }

  lemma SliceFacts(s: seq<Register>, i: nat, j: nat)
    requires i < j <= |s|
    ensures s[i..j][0] == s[i] && s[i..j][1..] == s[i + 1..j] && s[..i] + [s[i]] == s[..i + 1]
  {
  }

  /** The first of R2..R5 not among the first `k` of them is the next. */
  lemma FirstCandidate(k: nat)
    requires k < 4
    ensures Without(Candidates, Candidates[..k]) != []
    ensures Without(Candidates, Candidates[..k])[0] == Candidates[k]
  {
    var u := Candidates[..k];
    assert Candidates[1..] == [R3, R4, R5];
    assert Candidates[1..][1..] == [R4, R5];
    assert Candidates[1..][1..][1..] == [R5];
    if k == 0 {
      assert u == [];
    } else if k == 1 {
      assert u == [R2];
    } else if k == 2 {
      assert u == [R2, R3];
      assert Without(Candidates, u) == Without([R3, R4, R5], u) == Without([R4, R5], u);
    } else {
      assert u == [R2, R3, R4];
      assert Without(Candidates, u) == Without([R3, R4, R5], u) == Without([R4, R5], u) == Without([R5], u);
    }
  }

  /** With an empty window an allocation takes the next candidate and
      spills nothing. */
  lemma AllocNext(k: nat)
    requires k < 4
    ensures Alloc(Candidates[..k], []) == Some(Alloced(Candidates[k], 0, []))
  {
    var none: seq<Register> := [];
    assert Candidates[..k] + none == Candidates[..k];
    FirstCandidate(k);
    AllocFree(Candidates[..k], none);
  }

  lemma TakeVia(n: nat, s: Phase, s': Phase)
    requires n > 0 && TakeOne(s) == Some(s')
    ensures Take(n, s) == Take(n - 1, s')
  {
  }

  lemma TakeOneFromMemory(k: nat, ws: seq<Word>)
    requires k < 4
    ensures TakeOne(Phase(Candidates[..k], [], ws)) == Some(Phase(Candidates[..k + 1], [], ws + Load(Candidates[k])))
  {
    AllocNext(k);
    var none: seq<Register> := [];
    var none': seq<Word> := [];
    assert none[0..] == none;
    SliceFacts(Candidates, k, k + 1);
    assert ws + none' == ws;
  }

  /** With an empty window and R2..R(k+1) in use, inputs are loaded from
      memory into the next candidates in order: the top of the memory stack
      into the first. */
  lemma {:induction false} TakeFromMemory(n: nat, k: nat, ws: seq<Word>)
    requires k + n <= 4
    ensures Take(n, Phase(Candidates[..k], [], ws)) == Some(Phase(Candidates[..k + n], [], ws + LoadAll(Candidates[k..k + n])))
  {
    var none: seq<Register> := [];
    if n == 0 {
      var none': seq<Word> := [];
      assert Candidates[k..k] == none && LoadAll(none) == none' && ws + none' == ws;
    } else {
      TakeOneFromMemory(k, ws);
      var ws' := ws + Load(Candidates[k]);
      TakeVia(n, Phase(Candidates[..k], none, ws), Phase(Candidates[..k + 1], none, ws'));
      TakeFromMemory(n - 1, k + 1, ws');
      LoadAllStep(ws, k, n);
    }
  }

  /** Loading the candidates `k..k+n` is loading the `k`-th, then the rest. */
  lemma LoadAllStep(ws: seq<Word>, k: nat, n: nat)
    requires 0 < n && k + n <= 4
    ensures ws + Load(Candidates[k]) + LoadAll(Candidates[k + 1..k + n]) == ws + LoadAll(Candidates[k..k + n])
  {
    var l := Candidates[k..k + n];
    SliceFacts(Candidates, k, k + n);
    assert LoadAll(l) == Load(l[0]) + LoadAll(l[1..]);
    Assoc(ws, Load(Candidates[k]), LoadAll(Candidates[k + 1..k + n]));
  }

  /** So with an empty window the deepest input is in the last register
      loaded: the inputs are R2.. in reverse. */
  lemma InputsFromMemory(sig: StackSig.Signature)
    requires sig.takes <= 4 && Prepare(sig, []).Some?
    ensures Prepare(sig, []).value.inps == Reverse(Candidates[..sig.takes])
  {
    var none: seq<Register> := [];
    var none': seq<Word> := [];
    assert Candidates[..0] == none;
    TakeFromMemory(sig.takes, 0, none');
    assert Candidates[0..sig.takes] == Candidates[..sig.takes];
    PrepareInputs(sig, []);
  }

  /** The inputs `Prepare` hands out are the taken registers, deepest first. */
  lemma PrepareInputs(sig: StackSig.Signature, window: seq<Register>)
    requires Prepare(sig, window).Some?
    ensures Take(sig.takes, Phase([], window, [])).Some?
    ensures Prepare(sig, window).value.inps == Reverse(Take(sig.takes, Phase([], window, [])).value.regs)
  {
  }

  lemma Delta2(a: Word, b: Word)
    ensures StackOp.SpShift([a, b]) == StackOp.Delta(a) + StackOp.Delta(b)
  {
    var none: seq<Word> := [];
    assert [a, b][..1] == [a] && [a][..0] == none;
    assert StackOp.SpShift([a]) == StackOp.SpShift(none) + StackOp.Delta(a);
    assert StackOp.SpShift([a, b]) == StackOp.SpShift([a]) + StackOp.Delta(b);
  }

  /** Spilling `w` moves SP up by one per entry. */
  lemma {:induction false} SpillAllShift(w: seq<Register>)
    ensures StackOp.SpShift(SpillAll(w)) == |w|
  {
    if w != [] {
      Delta2(Mem(MemOperation.STORE, w[0], SP, 0), StackOp.IncSp);
      StackOp.SpShiftAppend(Spill(w[0]), SpillAll(w[1..]));
      SpillAllShift(w[1..]);
    }
  }

  /** One allocation moves SP up by exactly the entries it took out of the
      window. */
  lemma AllocShift(used: seq<Register>, window: seq<Register>)
    requires Room(used)
    ensures StackOp.SpShift(Alloc(used, window).value.words) == Alloc(used, window).value.spilled
  {
    AllocSpills(used, window);
    SpillAllShift(window[..Alloc(used, window).value.spilled]);
  }

  predicate Fresh(regs: seq<Register>, used: seq<Register>) {
    Distinct(regs) && forall x :: x in regs ==> x !in used && x in Candidates
  }

  /** One allocation of the loop keeps the registers fresh and the count of
      values on the stack. */
  lemma AllocOneFacts(used: seq<Register>, s: Phase, a: Alloced, s': Phase)
    requires Alloc(used + s.regs, s.window) == Some(a) && Fresh(s.regs, used)
    requires s' == Phase(s.regs + [a.reg], s.window[a.spilled..], s.words + a.words)
    ensures Fresh(s'.regs, used)
    ensures StackOp.SpShift(s'.words) + |s'.window| == StackOp.SpShift(s.words) + |s.window|
    ensures s.window == [] ==> s'.window == []
  {
    AllocShift(used + s.regs, s.window);
    StackOp.SpShiftAppend(s.words, a.words);
    AllocChoice(used + s.regs, s.window);
    FreshAppend(s.regs, used, a.reg);
  }

  /** A register in neither list keeps a fresh list fresh. */
  lemma FreshAppend(regs: seq<Register>, used: seq<Register>, r: Register)
    requires Fresh(regs, used) && r !in used + regs && r in Candidates
    ensures Fresh(regs + [r], used)
  {
    var regs' := regs + [r];
    forall x | x in regs'
      ensures x !in used && x in Candidates
    {
      if x != r {
        assert x in regs;
      }
    }
    forall i, j | 0 <= i < j < |regs'|
      ensures regs'[i] != regs'[j]
    {
      if j == |regs| {
        assert regs'[i] in regs;
      } else {
        assert regs'[i] == regs[i] && regs'[j] == regs[j];
      }
    }
  }

  /** One turn of an allocation loop, and what it keeps. */
  lemma AllocNextFacts(n: nat, used: seq<Register>, s: Phase) returns (s': Phase)
    requires n > 0 && AllocMany(n, used, s).Some? && Fresh(s.regs, used)
    ensures AllocMany(n, used, s) == AllocMany(n - 1, used, s')
    ensures Fresh(s'.regs, used)
    ensures StackOp.SpShift(s'.words) + |s'.window| == StackOp.SpShift(s.words) + |s.window|
    ensures s.window == [] ==> s'.window == []
  {
    AllocManyStep(n, used, s);
    var a := Alloc(used + s.regs, s.window).value;
    s' := Phase(s.regs + [a.reg], s.window[a.spilled..], s.words + a.words);
    AllocOneFacts(used, s, a, s');
  }

  /** The allocation loops hand out distinct registers of R2..R5, none in
      use; they keep the count of values on the stack (SP plus window
      entries), and an empty window stays empty. */
  lemma {:induction false} AllocManyFacts(n: nat, used: seq<Register>, s: Phase)
    requires AllocMany(n, used, s).Some? && Fresh(s.regs, used)
    ensures Fresh(AllocMany(n, used, s).value.regs, used)
    ensures StackOp.SpShift(AllocMany(n, used, s).value.words) + |AllocMany(n, used, s).value.window| == StackOp.SpShift(s.words) + |s.window|
    ensures s.window == [] ==> AllocMany(n, used, s).value.window == []
    decreases n
  {
    if n > 0 {
      var s' := AllocNextFacts(n, used, s);
      AllocManyFacts(n - 1, used, s');
    }
  }

  /** The input loop keeps the count of values on the stack, less those
      taken, and an empty window stays empty. */
  lemma {:induction false} TakeFacts(n: nat, s: Phase)
    requires Take(n, s).Some?
    ensures var t := Take(n, s).value;
      StackOp.SpShift(t.words) + |t.window| + |t.regs| == StackOp.SpShift(s.words) + |s.window| + |s.regs|
      && (s.window == [] ==> t.window == [])
    decreases n
  {
    if n > 0 {
      TakeStep(n, s);
      TakeOneFacts(s);
      TakeFacts(n - 1, TakeOne(s).value);
    }
  }

  /** One turn of the input loop keeps the count of values on the stack,
      less the one taken. */
  lemma TakeOneFacts(s: Phase)
    requires TakeOne(s).Some?
    ensures var t := TakeOne(s).value;
      StackOp.SpShift(t.words) + |t.window| + |t.regs| == StackOp.SpShift(s.words) + |s.window| + |s.regs|
      && (s.window == [] ==> t.window == [])
  {
    if s.window == [] {
      var a := Alloc(s.regs, s.window).value;
      AllocShift(s.regs, s.window);
      StackOp.SpShiftAppend(s.words, a.words);
      StackOp.SpShiftAppend(s.words + a.words, Load(a.reg));
      Delta2(StackOp.DecSp, Mem(MemOperation.LOAD, a.reg, SP, 0));
    }
  }

  /** What `compile_one` hands to `execute`: temps are distinct and avoid the
      inputs; outputs are distinct and avoid the temps (but not the inputs);
      all are of R2..R5. With `FLAG_SAVE_STACK` or `FLAG_RESET_STACK` the
      window is empty afterwards. The count of values on the stack, in
      memory (SP) and in the window, drops by exactly the inputs taken. */
  lemma PrepareFacts(sig: StackSig.Signature, window: seq<Register>)
    requires Prepare(sig, window).Some?
    ensures var p := Prepare(sig, window).value;
      Fresh(p.temps, p.inps) && Fresh(p.outs, p.temps)
      && (sig.save || sig.reset ==> p.window == [])
      && StackOp.SpShift(p.words) + |p.window| + sig.takes == |window|
  {
    var t := Take(sig.takes, Phase([], window, [])).value;
    TakeFacts(sig.takes, Phase([], window, []));
    var w1 := if sig.save || sig.reset then [] else t.window;
    var flush := if sig.save || sig.reset then SpillAll(t.window) else [];
    var tm := AllocMany(sig.temps, t.regs, Phase([], w1, [])).value;
    AllocManyFacts(sig.temps, t.regs, Phase([], w1, []));
    var o := AllocMany(sig.pushes, tm.regs, Phase([], tm.window, [])).value;
    AllocManyFacts(sig.pushes, tm.regs, Phase([], tm.window, []));
    forall x | x in tm.regs
      ensures x !in Reverse(t.regs)
    {
      ReverseHas(t.regs, x);
    }
    SpillAllShift(t.window);
    StackOp.SpShiftAppend(t.words, flush);
    StackOp.SpShiftAppend(t.words + flush, tm.words);
    StackOp.SpShiftAppend(t.words + flush + tm.words, o.words);
  }

  /** A stack manipulation compiles to register renaming: it emits only
      the spills and loads of `compile_one`, and the count of values on the
      stack changes by exactly what it pushes less what it takes. */
  lemma ManipDepth(m: StackManip.ManipOperation, window: seq<Register>, labelCode: StackLabelOp.LabelCode)
    requires Prepare(StackOp.Signature(StackOp.Manip(m)), window).Some?
    ensures var o := CompileOneSpec(StackOp.Manip(m), window, labelCode);
      var sig := StackManip.Signature(m);
      o.Done? && StackOp.SpShift(o.words) + |o.window| == |window| + sig.pushes - sig.takes
  {
    var sig := StackManip.Signature(m);
    var p := Prepare(sig, window).value;
    CompileManip(m, window, labelCode, p);
    PrepareFacts(sig, window);
    var outs := StackManip.Outs(m, p.inps, p.outs);
    assert |outs| == |p.outs|;
    assert |p.window + outs| == |p.window| + sig.pushes;
  }

  /** The net stack effect of a sequence of manipulations. */
  function NetEffect(ms: seq<StackManip.ManipOperation>): int {
    if ms == [] then 0 else StackManip.Signature(ms[0]).pushes - StackManip.Signature(ms[0]).takes + NetEffect(ms[1..])
  }

  function AsOps(ms: seq<StackManip.ManipOperation>): (r: seq<StackOp.Op>)
    ensures |r| == |ms| && forall i :: 0 <= i < |ms| ==> r[i] == StackOp.Manip(ms[i])
  {
    if ms == [] then [] else [StackOp.Manip(ms[0])] + AsOps(ms[1..])
  }

  /** Compiling a program of manipulations, when no allocation loops, moves
      SP by the values the window held plus the program's net stack effect:
      at the end every value is in memory again. */
  lemma {:induction false} ManipProgramDepth(ms: seq<StackManip.ManipOperation>, window: seq<Register>, words: seq<Word>,
                                             labelCode: StackLabelOp.LabelCode)
    requires !CompileSpec(AsOps(ms), window, words, labelCode).Loops?
    ensures var o := CompileSpec(AsOps(ms), window, words, labelCode);
      o.Done? && StackOp.SpShift(o.words) == StackOp.SpShift(words) + |window| + NetEffect(ms)
    decreases |ms|
  {
    var ops := AsOps(ms);
    if ms == [] {
      SpillAllShift(window);
      StackOp.SpShiftAppend(words, SpillAll(window));
    } else {
      assert ops[0] == StackOp.Manip(ms[0]);
      assert ops[1..] == AsOps(ms[1..]);
      var o1 := CompileOneSpec(ops[0], window, labelCode);
      assert !o1.Loops?;
      ManipDepth(ms[0], window, labelCode);
      StackOp.SpShiftAppend(words, o1.words);
      ManipProgramDepth(ms[1..], o1.window, words + o1.words, labelCode);
    }
  }

  lemma AllocManyVia(n: nat, used: seq<Register>, s: Phase, a: Alloced)
    requires n > 0 && Alloc(used + s.regs, s.window) == Some(a)
    ensures AllocMany(n, used, s) == AllocMany(n - 1, used, Phase(s.regs + [a.reg], s.window[a.spilled..], s.words + a.words))
  {
  }

  /** From an empty window with R2..R(k+1) in use, an allocation hands out
      the next candidate and emits nothing. */
  lemma AllocFromEmptyStep(n: nat, k: nat, ws: seq<Word>)
    requires 0 < n && k + n <= 4
    ensures AllocMany(n, [], Phase(Candidates[..k], [], ws)) == AllocMany(n - 1, [], Phase(Candidates[..k + 1], [], ws))
  {
    var none: seq<Register> := [];
    var none': seq<Word> := [];
    assert none + Candidates[..k] == Candidates[..k];
    AllocNext(k);
    AllocManyVia(n, none, Phase(Candidates[..k], none, ws), Alloced(Candidates[k], 0, none'));
    assert none[0..] == none && ws + none' == ws;
    SliceFacts(Candidates, k, k + 1);
  }

  /** `Prepare` from the results of its three loops, for an operation
      without flags. */
  lemma PrepareVia(sig: StackSig.Signature, window: seq<Register>, t: Phase, tm: Phase, o: Phase)
    requires !sig.save && !sig.reset
    requires Take(sig.takes, Phase([], window, [])) == Some(t)
    requires AllocMany(sig.temps, t.regs, Phase([], t.window, [])) == Some(tm)
    requires AllocMany(sig.pushes, tm.regs, Phase([], tm.window, [])) == Some(o)
    ensures Prepare(sig, window) == Some(Plan(Reverse(t.regs), tm.regs, o.regs, o.window, t.words + tm.words + o.words))
  {
    var none: seq<Word> := [];
    assert t.words + none == t.words;
  }

  /** With an empty window and nothing in use, two allocations give R2 and
      R3 and emit nothing. */
  lemma TwoFresh(used: seq<Register>)
    requires used == []
    ensures AllocMany(2, used, Phase([], [], [])) == Some(Phase([R2, R3], [], []))
  {
    var none: seq<Register> := [];
    var w: seq<Word> := [];
    assert Candidates[..0] == none;
    AllocFromEmptyStep(2, 0, w);
    AllocFromEmptyStep(1, 1, w);
    NoneMore(0, none, Phase(Candidates[..2], none, w));
    assert Candidates[..2] == [R2, R3];
  }

  lemma NoneMore(n: nat, used: seq<Register>, s: Phase)
    requires n == 0
    ensures AllocMany(n, used, s) == Some(s)
  {
  }

  lemma TakeLast(x: Register)
    ensures Take(1, Phase([], [x], [])) == Some(Phase([x], [], []))
  {
    var none: seq<Register> := [];
    var w: seq<Word> := [];
    TakeFromWindow(1, Phase(none, [x], w));
    assert Popped([x], 1) == [x] && [x][..0] == none && none + [x] == [x];
  }

  lemma TakeLastTwo(x: Register, y: Register)
    ensures Take(2, Phase([], [x, y], [])) == Some(Phase([y, x], [], []))
  {
    var none: seq<Register> := [];
    var w: seq<Word> := [];
    TakeFromWindow(2, Phase(none, [x, y], w));
    assert Popped([x, y], 2) == [y, x] && [x, y][..0] == none && none + [y, x] == [y, x];
  }

  /** DUP of the only window entry `x`: the outputs are allocated as R2 and
      R3, since `x` is taken first and is free again. */
  lemma PrepareDup(x: Register)
    ensures Prepare(StackManip.Signature(StackManip.Dup), [x]) == Some(Plan([x], [], [R2, R3], [], []))
  {
    var none: seq<Register> := [];
    var w: seq<Word> := [];
    var sig := StackManip.Signature(StackManip.Dup);
    TakeLast(x);
    NoneMore(sig.temps, [x], Phase(none, none, w));
    TwoFresh(none);
    PrepareVia(sig, [x], Phase([x], none, w), Phase(none, none, w), Phase([R2, R3], none, w));
    assert Reverse([x]) == [x] && w + w + w == w;
  }

  lemma DupOuts(x: Register)
    ensures StackManip.Fits(StackManip.Dup, [x], [R2, R3])
    ensures StackManip.Outs(StackManip.Dup, [x], [R2, R3]) == [x, x]
  {
  }

  lemma SwpOuts(x: Register, y: Register)
    ensures StackManip.Fits(StackManip.Swp, [x, y], [R2, R3])
    ensures StackManip.Outs(StackManip.Swp, [x, y], [R2, R3]) == [y, x]
  {
  }

  /** So `execute` names `x` for both outputs and the window holds `x`
      twice; nothing is emitted. */
  lemma DupRenames(x: Register, labelCode: StackLabelOp.LabelCode)
    ensures CompileOneSpec(StackOp.Manip(StackManip.Dup), [x], labelCode) == Done([], [x, x])
  {
    var none: seq<Register> := [];
    PrepareDup(x);
    DupOuts(x);
    ManipRenames(StackManip.Dup, [x], labelCode, Plan([x], none, [R2, R3], none, []), [x, x]);
  }

  /** SWP of two window entries: the inputs are them in window order, and
      the outputs R2 and R3. */
  lemma PrepareSwp(x: Register, y: Register)
    ensures Prepare(StackManip.Signature(StackManip.Swp), [x, y]) == Some(Plan([x, y], [], [R2, R3], [], []))
  {
    var none: seq<Register> := [];
    var w: seq<Word> := [];
    var sig := StackManip.Signature(StackManip.Swp);
    TakeLastTwo(x, y);
    NoneMore(sig.temps, [y, x], Phase(none, none, w));
    TwoFresh(none);
    PrepareVia(sig, [x, y], Phase([y, x], none, w), Phase(none, none, w), Phase([R2, R3], none, w));
    ReverseTwo(y, x);
    assert w + w + w == w;
  }

  lemma ReverseTwo(x: Register, y: Register)
    ensures Reverse([x, y]) == [y, x]
  {
    assert [x, y][1..] == [y];
    assert Reverse([y]) == [y];
  }

  /** So the window holds the two entries exchanged and nothing is
      emitted. */
  lemma SwpRenames(x: Register, y: Register, labelCode: StackLabelOp.LabelCode)
    ensures CompileOneSpec(StackOp.Manip(StackManip.Swp), [x, y], labelCode) == Done([], [y, x])
  {
    var none: seq<Register> := [];
    PrepareSwp(x, y);
    SwpOuts(x, y);
    ManipRenames(StackManip.Swp, [x, y], labelCode, Plan([x, y], none, [R2, R3], none, []), [y, x]);
  }

  // --- The compiler ---------------------------------------------------------------

  /** `OptCompiler`: the register window, oldest entry first, and the compile
      context that receives the words. */
  class OptCompiler {
    var window: seq<Register>
    const comp: CompContext<StackOp.Op>

    constructor (comp: CompContext<StackOp.Op>)
      ensures window == [] && this.comp == comp
    {
      window := [];
      this.comp := comp;
    }

    /** The `available` list of `alloc_free_register`: R2..R5 without those
      in `used`, then without each window entry in turn. */
    method Available(used: seq<Register>) returns (available: seq<Register>)
      ensures available == Without(Candidates, used + window)
    {
      available := Without(Candidates, used);
      assert used + window[..0] == used;
      for i := 0 to |window|
        invariant available == Without(Candidates, used + window[..i])
      {
        WithoutTwice(Candidates, used + window[..i], [window[i]]);
        assert used + window[..i] + [window[i]] == used + window[..i + 1];
        available := Without(available, [window[i]]);
      }
      assert window[..|window|] == window;
    }

    /** `alloc_free_register`. */
    method AllocFreeRegister(used: seq<Register>) returns (reg: Register)
      requires Room(used)
      modifies this, comp
      ensures reg == Alloc(used, old(window)).value.reg
      ensures window == old(window)[Alloc(used, old(window)).value.spilled..]
      ensures comp.words == old(comp.words) + Alloc(used, old(window)).value.words
      ensures comp.stacked == old(comp.stacked)
      decreases |window|, 1
    {
      var available := Available(used);
      if available != [] {
        AllocFree(used, window);
        return available[0];
      }
      reg := SpillAndRetry(used);
    }

    /** The `else` branch of `alloc_free_register`. */
    method SpillAndRetry(used: seq<Register>) returns (reg: Register)
      requires Room(used) && Without(Candidates, used + window) == []
      modifies this, comp
      ensures reg == Alloc(used, old(window)).value.reg
      ensures window == old(window)[Alloc(used, old(window)).value.spilled..]
      ensures comp.words == old(comp.words) + Alloc(used, old(window)).value.words
      ensures comp.stacked == old(comp.stacked)
      decreases |window|, 0
    {
      ghost var w, ws := window, comp.words;
      AllocRetry(used, w);
      ghost var b := Alloc(used, w[1..]).value;
      ResetSingle();
      reg := AllocFreeRegister(used);
      Assoc(ws, Spill(w[0]), b.words);
    }

    /** `push_reg_to_stack`. */
    method PushRegToStack(reg: Register)
      modifies this
      ensures window == old(window) + [reg]
    {
      window := window + [reg];
    }

    /** `reset_single`: the oldest entry is spilled; nothing happens on an
        empty window. */
    method ResetSingle()
      modifies this, comp
      ensures old(window) == [] ==> window == [] && comp.words == old(comp.words)
      ensures old(window) != [] ==> window == old(window)[1..] && comp.words == old(comp.words) + Spill(old(window)[0])
      ensures comp.stacked == old(comp.stacked)
    {
      if window == [] {
        return;
      }
      var entry := window[0];
      window := window[1..];
      comp.Instruct(Mem(MemOperation.STORE, entry, SP, 0));
      comp.Instruct(StackOp.IncSp);
    }

    /** `reset_stack`: the whole window is spilled, oldest first. */
    method ResetStack()
      modifies this, comp
      ensures window == [] && comp.words == old(comp.words) + SpillAll(old(window))
      ensures comp.stacked == old(comp.stacked)
    {
      while window != []
        invariant comp.words + SpillAll(window) == old(comp.words) + SpillAll(old(window))
        invariant comp.stacked == old(comp.stacked)
        decreases |window|
      {
        ghost var w, ws := window, comp.words;
        ResetSingle();
        assert ws + SpillAll(w) == ws + Spill(w[0]) + SpillAll(w[1..]);
      }
      assert comp.words + SpillAll(window) == comp.words;
    }

    /** `load_one_into_reg`. */
    method LoadOneIntoReg(used: seq<Register>) returns (reg: Register)
      requires Room(used)
      modifies this, comp
      ensures var a := Alloc(used, old(window)).value;
        reg == a.reg && window == old(window)[a.spilled..] && comp.words == old(comp.words) + a.words + Load(reg)
      ensures comp.stacked == old(comp.stacked)
    {
      reg := AllocFreeRegister(used);
      ghost var ws := comp.words;
      comp.Instruct(StackOp.DecSp);
      comp.Instruct(Mem(MemOperation.LOAD, reg, SP, 0));
      assert comp.words == ws + Load(reg);
    }

    /** The input loop of `compile_one`: the registers in the order taken. */
    method TakeInputs(n: nat) returns (used: seq<Register>)
      requires Take(n, Phase([], window, [])).Some?
      modifies this, comp
      ensures var t := Take(n, Phase([], old(window), [])).value;
        used == t.regs && window == t.window && comp.words == old(comp.words) + t.words
      ensures comp.stacked == old(comp.stacked)
    {
      used := [];
      ghost var ws0 := comp.words;
      ghost var acc: seq<Word> := [];
      for j := 0 to n
        invariant Take(n - j, Phase(used, window, acc)) == Take(n, Phase([], old(window), []))
        invariant comp.words == old(comp.words) + acc && comp.stacked == old(comp.stacked)
      {
        ghost var s := Phase(used, window, acc);
        TakeStep(n - j, s);
        var reg;
        if window != [] {
          reg := window[|window| - 1];
          window := window[..|window| - 1];
        } else {
          reg := LoadOneIntoReg(used);
          ghost var aw := Alloc(s.regs, s.window).value.words;
          Assoc(ws0, acc, aw);
          Assoc(ws0, acc + aw, Load(reg));
          acc := acc + aw + Load(reg);
        }
        used := used + [reg];
        assert TakeOne(s) == Some(Phase(used, window, acc));
      }
    }

    /** The temps loop or the outputs loop of `compile_one`. */
    method AllocRegs(n: nat, used: seq<Register>) returns (regs: seq<Register>)
      requires AllocMany(n, used, Phase([], window, [])).Some?
      modifies this, comp
      ensures var m := AllocMany(n, used, Phase([], old(window), [])).value;
        regs == m.regs && window == m.window && comp.words == old(comp.words) + m.words
      ensures comp.stacked == old(comp.stacked)
    {
      regs := [];
      ghost var ws0 := comp.words;
      ghost var acc: seq<Word> := [];
      for j := 0 to n
        invariant AllocMany(n - j, used, Phase(regs, window, acc)) == AllocMany(n, used, Phase([], old(window), []))
        invariant comp.words == old(comp.words) + acc && comp.stacked == old(comp.stacked)
      {
        AllocManyStep(n - j, used, Phase(regs, window, acc));
        ghost var a := Alloc(used + regs, window).value;
        var reg := AllocFreeRegister(used + regs);
        Assoc(ws0, acc, a.words);
        acc := acc + a.words;
        regs := regs + [reg];
      }
    }

    /** `compile_one` up to `execute`. */
    method PrepareRegs(sig: StackSig.Signature) returns (inps: seq<Register>, temps: seq<Register>, outs: seq<Register>)
      requires Prepare(sig, window).Some?
      modifies this, comp
      ensures var p := Prepare(sig, old(window)).value;
        inps == p.inps && temps == p.temps && outs == p.outs && window == p.window
        && comp.words == old(comp.words) + p.words
      ensures comp.stacked == old(comp.stacked)
    {
      ghost var ws0 := comp.words;
      var used := TakeInputs(sig.takes);
      ghost var t := comp.words[|ws0|..];
      assert comp.words == ws0 + t;
      inps := Reverse(used);
      if sig.save || sig.reset {
        ResetStack();
      }
      ghost var f := comp.words[|ws0 + t|..];
      assert comp.words == (ws0 + t) + f;
      Assoc(ws0, t, f);
      temps := AllocRegs(sig.temps, used);
      ghost var tm := comp.words[|ws0 + (t + f)|..];
      assert comp.words == (ws0 + (t + f)) + tm;
      Assoc(ws0, t + f, tm);
      outs := AllocRegs(sig.pushes, temps);
      ghost var o := comp.words[|ws0 + (t + f + tm)|..];
      assert comp.words == (ws0 + (t + f + tm)) + o;
      Assoc(ws0, t + f + tm, o);
    }

    /** `compile_one`. */
    method CompileOne(op: StackOp.Op, labelCode: StackLabelOp.LabelCode) returns (r: Result<(), CompileError>)
      requires !CompileOneSpec(op, window, labelCode).Loops?
      modifies this, comp
      ensures var o := CompileOneSpec(op, old(window), labelCode);
        (r.Ok? <==> o.Done?) && (r.Err? ==> r.error == o.error)
        && comp.words == old(comp.words) + o.words && window == o.window
      ensures comp.stacked == old(comp.stacked)
    {
      ghost var ws0, w0 := comp.words, window;
      var sig := StackOp.Signature(op);
      ghost var p := Prepare(sig, window).value;
      var inps, temps, outs := PrepareRegs(sig);
      FitsBySize(op, inps, outs, temps);
      ghost var e := StackOp.ExecSpec(op, inps, outs, temps, labelCode);
      CompileOneUnfold(op, w0, labelCode);
      var stack := new StackExecCtx(inps, outs, temps);
      r := StackOp.Execute(op, stack, comp, labelCode);
      if r.Err? {
        return;
      }
      Assoc(ws0, p.words, e.value.words);
      PushAll(stack.outs);
    }

    /** The last loop of `compile_one`: each output, in order, pushed onto
        the window. */
    method PushAll(regs: seq<Register>)
      modifies this
      ensures window == old(window) + regs
    {
      for i := 0 to |regs|
        invariant window == old(window) + regs[..i]
      {
        PushRegToStack(regs[i]);
        assert regs[..i + 1] == regs[..i] + [regs[i]];
      }
      assert regs[..|regs|] == regs;
    }
  }

  /** `compile`: each operation in turn through the register window, the
      first error aborting, and the window spilled at the end. */
  method Compile(ops: seq<StackOp.Op>, comp: CompContext<StackOp.Op>, labelCode: StackLabelOp.LabelCode)
    returns (r: Result<(), CompileError>)
    requires !CompileSpec(ops, [], [], labelCode).Loops?
    modifies comp
    ensures var o := CompileSpec(ops, [], [], labelCode);
      (r.Ok? <==> o.Done?) && (r.Err? ==> r.error == o.error) && comp.words == old(comp.words) + o.words
    ensures comp.stacked == old(comp.stacked)
  {
    var compiler := new OptCompiler(comp);
    ghost var ws0 := comp.words;
    ghost var acc: seq<Word> := [];
    for i := 0 to |ops|
      invariant compiler.comp == comp
      invariant CompileSpec(ops[i..], compiler.window, acc, labelCode) == CompileSpec(ops, [], [], labelCode)
      invariant comp.words == old(comp.words) + acc && comp.stacked == old(comp.stacked)
    {
      assert ops[i..][0] == ops[i] && ops[i..][1..] == ops[i + 1..];
      ghost var o := CompileOneSpec(ops[i], compiler.window, labelCode);
      r := compiler.CompileOne(ops[i], labelCode);
      Assoc(ws0, acc, o.words);
      if r.Err? {
        return;
      }
      acc := acc + o.words;
    }
    assert ops[|ops|..] == [];
    Assoc(ws0, acc, SpillAll(compiler.window));
    compiler.ResetStack();
    r := Ok(());
  }
}
