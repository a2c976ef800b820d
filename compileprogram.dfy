// The error-collecting program compiler of easycpu_lib/src/compile/
// compiler.rs, together with the label atoms of compile/label.rs that it
// runs. The context's `emit_label` and the other atoms' `compile` are not
// part of this model: they are parameters that map the context's value to
// a result and a new value (they may read, but do not change,
// `resolving_labels` and the error list). Entering and leaving a local
// scope push and pop the scope stack as the assembler's label pass does.
module CompileProgram {
  import opened Base
  import opened Cpu
  import opened Errors
  import Position

  /** The context fields an atom works on. */
  datatype View = View(
    currentPc: u16,
    labelMap: map<(nat, string), Option<u16>>,
    scopeStack: seq<nat>,
    instructions: seq<Instruction>,
    curScope: nat,
    shouldRecompile: bool)

  /** `emit_label(name)`, given whether this is the label-discovery pass. */
  type EmitLabel = (string, View, bool) -> (Result<(), CompileError>, View)

  /** `compile` of any other atom. */
  type Step<!I> = (I, View, bool) -> (Result<(), CompileError>, View)

  /** The atoms: a label, a local label scope with its atoms, or another atom. */
  datatype Atom<I> = LabelAtom(name: string) | ScopeAtom(id: nat, atoms: seq<Atom<I>>) | Other(ins: I)

  const MaxAttempts: nat := 1024

  function Entered(v: View, id: nat): View {
    v.(scopeStack := v.scopeStack + [id], curScope := id)
  }

  function Left(v: View): View {
    var st := if v.scopeStack == [] then [] else v.scopeStack[..|v.scopeStack| - 1];
    v.(scopeStack := st, curScope := if st == [] then 0 else st[|st| - 1])
  }

  /** The current scope is the innermost entered one, or 0. */
  predicate InScope(v: View) {
    v.curScope == (if v.scopeStack == [] then 0 else v.scopeStack[|v.scopeStack| - 1])
  }

  // --- compile/label.rs ------------------------------------------------------

  /** `Atom::compile` for the three kinds of atom. A scope is entered, its
      atoms are compiled in order up to the first error, and it is left
      only if none failed. */
  function AtomResult<I>(a: Atom<I>, v: View, resolving: bool, emit: EmitLabel, step: Step<I>): (Result<(), CompileError>, View)
    decreases a
  {
    match a
    case LabelAtom(name) => emit(name, v, resolving)
    case Other(i) => step(i, v, resolving)
    case ScopeAtom(id, atoms) =>
      var (r, w) := AtomsResult(atoms, Entered(v, id), resolving, emit, step);
      if r.Err? then (r, w) else (Ok(()), Left(w))
  }

  /** The `for` loop of `LabelScope::compile`. */
  function AtomsResult<I>(atoms: seq<Atom<I>>, v: View, resolving: bool, emit: EmitLabel, step: Step<I>): (Result<(), CompileError>, View)
    decreases atoms
  {
    if atoms == [] then (Ok(()), v)
    else
      var (r, w) := AtomResult(atoms[0], v, resolving, emit, step);
      if r.Err? then (r, w) else AtomsResult(atoms[1..], w, resolving, emit, step)
  }

  /** Compiling `a + b` compiles `a`, then, unless that failed, `b` from
      where `a` left off. */
  lemma {:induction false} AtomsAppend<I>(a: seq<Atom<I>>, b: seq<Atom<I>>, v: View, resolving: bool, emit: EmitLabel, step: Step<I>)
    ensures var (r, w) := AtomsResult(a, v, resolving, emit, step);
      AtomsResult(a + b, v, resolving, emit, step) == if r.Err? then (r, w) else AtomsResult(b, w, resolving, emit, step)
    decreases |a|
  {
    if a != [] {
      assert (a + b)[0] == a[0] && (a + b)[1..] == a[1..] + b;
      AtomsAppend(a[1..], b, AtomResult(a[0], v, resolving, emit, step).1, resolving, emit, step);
    } else {
      assert a + b == b;
    }
  }

  /** Hooks that leave the scopes alone. */
  ghost predicate KeepsScopes<I(!new)>(emit: EmitLabel, step: Step<I>) {
    && (forall n, u, b :: emit(n, u, b).1.scopeStack == u.scopeStack && emit(n, u, b).1.curScope == u.curScope)
    && (forall i, u, b :: step(i, u, b).1.scopeStack == u.scopeStack && step(i, u, b).1.curScope == u.curScope)
  }

  /** Scopes are balanced: an atom that compiles leaves the scope stack and
      the current scope as it found them; one that fails leaves every scope
      it was in still entered, so the old stack is a prefix of the new one,
      and a failing scope is still on the stack. */
  lemma {:induction false} AtomScopes<I(!new)>(a: Atom<I>, v: View, resolving: bool, emit: EmitLabel, step: Step<I>)
    requires KeepsScopes(emit, step) && InScope(v)
    ensures var (r, w) := AtomResult(a, v, resolving, emit, step);
      && (r.Ok? ==> w.scopeStack == v.scopeStack && w.curScope == v.curScope)
      && (r.Err? ==> |v.scopeStack| <= |w.scopeStack| && w.scopeStack[..|v.scopeStack|] == v.scopeStack)
      && (r.Err? && a.ScopeAtom? ==> |v.scopeStack| < |w.scopeStack| && w.scopeStack[|v.scopeStack|] == a.id)
    decreases a, 1
  {
    match a
    case LabelAtom(_) =>
    case Other(_) =>
    case ScopeAtom(id, atoms) =>
      var u := Entered(v, id);
      AtomsScopes(atoms, u, resolving, emit, step, a);
      var w := AtomsResult(atoms, u, resolving, emit, step).1;
      assert w.scopeStack[..|v.scopeStack|] == u.scopeStack[..|v.scopeStack|] == v.scopeStack;
  }

  lemma {:induction false} AtomsScopes<I(!new)>(atoms: seq<Atom<I>>, v: View, resolving: bool, emit: EmitLabel, step: Step<I>, parent: Atom<I>)
    requires KeepsScopes(emit, step) && InScope(v)
    requires forall k :: 0 <= k < |atoms| ==> atoms[k] < parent
    ensures var (r, w) := AtomsResult(atoms, v, resolving, emit, step);
      && (r.Ok? ==> w.scopeStack == v.scopeStack && w.curScope == v.curScope)
      && (r.Err? ==> |v.scopeStack| <= |w.scopeStack| && w.scopeStack[..|v.scopeStack|] == v.scopeStack)
    decreases parent, 0, |atoms|
  {
    if atoms != [] {
      AtomScopes(atoms[0], v, resolving, emit, step);
      var w := AtomResult(atoms[0], v, resolving, emit, step).1;
      if AtomResult(atoms[0], v, resolving, emit, step).0.Ok? {
        AtomsScopes(atoms[1..], w, resolving, emit, step, parent);
      }
    }
  }

  // --- compile/compiler.rs ---------------------------------------------------

  /** The context at the start of every pass: no output, address 0, scope
      stack [0] and current scope 0; the label table is kept. */
  function Reset(v: View): (w: View)
    ensures InScope(w) && w.labelMap == v.labelMap
  {
    v.(shouldRecompile := false, instructions := [], scopeStack := [0], currentPc := 0, curScope := 0)
  }

  /** The first `n` atoms of a pass: each is compiled against the context
      the one before left, and the errors of those that fail are collected
      in order. */
  function PassFold<I>(program: seq<Atom<I>>, n: nat, v: View, resolving: bool, emit: EmitLabel, step: Step<I>): (seq<CompileError>, View)
    requires n <= |program|
    decreases n
  {
    if n == 0 then ([], v)
    else
      var (errs, w) := PassFold(program, n - 1, v, resolving, emit, step);
      var (r, u) := AtomResult(program[n - 1], w, resolving, emit, step);
      (errs + (if r.Err? then [r.error] else []), u)
  }

  /** What the atom at `k` returns in a pass. */
  function AtomAt<I>(program: seq<Atom<I>>, k: nat, v: View, resolving: bool, emit: EmitLabel, step: Step<I>): Result<(), CompileError>
    requires k < |program|
  {
    AtomResult(program[k], PassFold(program, k, v, resolving, emit, step).1, resolving, emit, step).0
  }

  lemma PassFoldStep<I>(program: seq<Atom<I>>, n: nat, v: View, resolving: bool, emit: EmitLabel, step: Step<I>)
    requires 0 < n <= |program|
    ensures var r := AtomAt(program, n - 1, v, resolving, emit, step);
      PassFold(program, n, v, resolving, emit, step).0 ==
        PassFold(program, n - 1, v, resolving, emit, step).0 + (if r.Err? then [r.error] else [])
  {
  }

  /** A pass reports an error for every atom that fails, and none exactly
      when every atom compiles: a failure does not stop the pass. */
  lemma {:induction false} PassErrors<I>(program: seq<Atom<I>>, n: nat, v: View, resolving: bool, emit: EmitLabel, step: Step<I>)
    requires n <= |program|
    ensures |PassFold(program, n, v, resolving, emit, step).0| <= n
    ensures PassFold(program, n, v, resolving, emit, step).0 == [] <==>
      forall k :: 0 <= k < n ==> AtomAt(program, k, v, resolving, emit, step).Ok?
    ensures forall k :: 0 <= k < n && AtomAt(program, k, v, resolving, emit, step).Err? ==>
      AtomAt(program, k, v, resolving, emit, step).error in PassFold(program, n, v, resolving, emit, step).0
    decreases n
  {
    if n > 0 {
      PassErrors(program, n - 1, v, resolving, emit, step);
      PassFoldStep(program, n, v, resolving, emit, step);
    }
  }

  /** Each collected error, at the default position. */
  function AtStart(errs: seq<CompileError>): (r: seq<Position.PosCompileError>)
    ensures |r| == |errs| && forall k :: 0 <= k < |errs| ==> r[k] == Position.WithPos(errs[k], Position.Start)
  {
    if errs == [] then [] else [Position.WithPos(errs[0], Position.Start)] + AtStart(errs[1..])
  }

  /** The final encoding; a failure is reported as one `InvalidInstruction`. */
  function Encoded(ins: seq<Instruction>): (r: Result<seq<bv16>, seq<Position.PosCompileError>>)
    ensures r.Ok? <==> EncodeAll(ins).Ok?
    ensures r.Ok? ==> r.value == EncodeAll(ins).value
    ensures r.Err? ==> r.error == [Position.WithPos(InvalidInstruction(EncodeAll(ins).error), Position.Start)]
  {
    match EncodeAll(ins)
    case Err(x) => Err([Position.WithPos(InvalidInstruction(x), Position.Start)])
    case Ok(ws) => Ok(ws)
  }

  /** The passes from a context `v`, with `attempts` passes left and the
      discovery pass still to come when `resolving`: the discovery pass
      uses no attempt, and a later pass that does not ask for another ends
      the compile. */
  function Passes<I>(program: seq<Atom<I>>, v: View, resolving: bool, attempts: nat, emit: EmitLabel, step: Step<I>)
    : Result<seq<bv16>, seq<Position.PosCompileError>>
    decreases attempts, if resolving then 1 else 0
  {
    if attempts == 0 then Err([Position.WithPos(TooManyAttempts, Position.Start)])
    else
      var (errs, w) := PassFold(program, |program|, Reset(v), resolving, emit, step);
      if errs != [] then Err(AtStart(errs))
      else if resolving then Passes(program, w, false, attempts, emit, step)
      else if !w.shouldRecompile then Encoded(w.instructions)
      else Passes(program, w, false, attempts - 1, emit, step)
  }

  const Initial := View(0, map[], [], [], 0, false)

  function CompileSpec<I>(program: seq<Atom<I>>, emit: EmitLabel, step: Step<I>): Result<seq<bv16>, seq<Position.PosCompileError>> {
    Passes(program, Initial, true, MaxAttempts, emit, step)
  }

  /** A pass that is not the discovery pass, run from `v`, compiles every
      atom, asks for no further pass, and its instructions encode to
      `words`. */
  predicate Settled<I>(program: seq<Atom<I>>, v: View, emit: EmitLabel, step: Step<I>, words: seq<bv16>) {
    var (errs, w) := PassFold(program, |program|, Reset(v), false, emit, step);
    errs == [] && !w.shouldRecompile && EncodeAll(w.instructions) == Ok(words)
  }

  /** A successful compile returns the words of a settled pass; it always
      follows the discovery pass. */
  lemma {:induction false} PassesSettled<I>(program: seq<Atom<I>>, v: View, resolving: bool, attempts: nat, emit: EmitLabel, step: Step<I>)
    requires Passes(program, v, resolving, attempts, emit, step).Ok?
    ensures exists u :: Settled(program, u, emit, step, Passes(program, v, resolving, attempts, emit, step).value)
    decreases attempts, if resolving then 1 else 0
  {
    var (errs, w) := PassFold(program, |program|, Reset(v), resolving, emit, step);
    if resolving {
      PassesSettled(program, w, false, attempts, emit, step);
    } else if w.shouldRecompile {
      PassesSettled(program, w, false, attempts - 1, emit, step);
    } else {
      assert Settled(program, v, emit, step, Passes(program, v, resolving, attempts, emit, step).value);
    }
  }

  /** Errors stop the compile after the pass that found them: a pass with
      a failing atom ends the compile with all of that pass's errors. */
  lemma FailingPass<I>(program: seq<Atom<I>>, v: View, resolving: bool, attempts: nat, emit: EmitLabel, step: Step<I>, k: nat)
    requires attempts > 0 && k < |program|
    requires AtomAt(program, k, Reset(v), resolving, emit, step).Err?
    ensures Passes(program, v, resolving, attempts, emit, step).Err?
    ensures Passes(program, v, resolving, attempts, emit, step).error == AtStart(PassFold(program, |program|, Reset(v), resolving, emit, step).0)
  {
    PassErrors(program, |program|, Reset(v), resolving, emit, step);
  }

  /** If every pass asks for another, the budget runs out: the result is
      `TooManyAttempts`, after the discovery pass and 1024 more. */
  lemma {:induction false} PassesExhausted<I>(program: seq<Atom<I>>, v: View, resolving: bool, attempts: nat, emit: EmitLabel, step: Step<I>)
    requires forall u, b :: var (errs, w) := PassFold(program, |program|, Reset(u), b, emit, step); errs == [] && w.shouldRecompile
    ensures Passes(program, v, resolving, attempts, emit, step) == Err([Position.WithPos(TooManyAttempts, Position.Start)])
    decreases attempts, if resolving then 1 else 0
  {
    if attempts > 0 {
      var (errs, w) := PassFold(program, |program|, Reset(v), resolving, emit, step);
      if resolving {
        PassesExhausted(program, w, false, attempts, emit, step);
      } else {
        PassesExhausted(program, w, false, attempts - 1, emit, step);
      }
    }
  }

  /** With the discovery pass and one more settling, two passes suffice. */
  lemma TwoPasses<I>(program: seq<Atom<I>>, emit: EmitLabel, step: Step<I>)
    requires var (errs, w) := PassFold(program, |program|, Reset(Initial), true, emit, step); errs == []
    requires var w := PassFold(program, |program|, Reset(Initial), true, emit, step).1;
      PassFold(program, |program|, Reset(w), false, emit, step).0 == []
      && !PassFold(program, |program|, Reset(w), false, emit, step).1.shouldRecompile
    ensures var w := PassFold(program, |program|, Reset(Initial), true, emit, step).1;
      CompileSpec(program, emit, step) == Encoded(PassFold(program, |program|, Reset(w), false, emit, step).1.instructions)
  {
  }

  // --- The mutable context ---------------------------------------------------

  class Context {
    var currentPc: u16
    var labelMap: map<(nat, string), Option<u16>>
    var scopeStack: seq<nat>
    var instructions: seq<Instruction>
    var curScope: nat
    var shouldRecompile: bool
    var resolvingLabels: bool
    var errors: seq<Position.PosCompileError>

    function Value(): View
      reads this
    {
      View(currentPc, labelMap, scopeStack, instructions, curScope, shouldRecompile)
    }

    constructor ()
      ensures Value() == Initial && resolvingLabels && errors == []
    {
      currentPc := 0;
      labelMap := map[];
      scopeStack := [];
      instructions := [];
      curScope := 0;
      shouldRecompile := false;
      resolvingLabels := true;
      errors := [];
    }

    method Assign(v: View)
      modifies this
      ensures Value() == v && resolvingLabels == old(resolvingLabels) && errors == old(errors)
    {
      currentPc, labelMap, scopeStack, instructions, curScope, shouldRecompile :=
        v.currentPc, v.labelMap, v.scopeStack, v.instructions, v.curScope, v.shouldRecompile;
    }

    method EnterLocalScope(id: nat)
      modifies this
      ensures Value() == Entered(old(Value()), id) && resolvingLabels == old(resolvingLabels) && errors == old(errors)
    {
      scopeStack := scopeStack + [id];
      curScope := id;
    }

    method LeaveLocalScope()
      modifies this
      ensures Value() == Left(old(Value())) && resolvingLabels == old(resolvingLabels) && errors == old(errors)
    {
      if scopeStack != [] {
        scopeStack := scopeStack[..|scopeStack| - 1];
      }
      curScope := if scopeStack == [] then 0 else scopeStack[|scopeStack| - 1];
    }

    /** `Label::compile`, `LabelScope::compile` and the other atoms' `compile`. */
    method CompileAtom<I>(a: Atom<I>, emit: EmitLabel, step: Step<I>) returns (r: Result<(), CompileError>)
      modifies this
      ensures (r, Value()) == AtomResult(a, old(Value()), old(resolvingLabels), emit, step)
      ensures resolvingLabels == old(resolvingLabels) && errors == old(errors)
      decreases a
    {
      match a
      case LabelAtom(name) =>
        var (res, w) := emit(name, Value(), resolvingLabels);
        Assign(w);
        r := res;
      case Other(i) =>
        var (res, w) := step(i, Value(), resolvingLabels);
        Assign(w);
        r := res;
      case ScopeAtom(id, atoms) =>
        EnterLocalScope(id);
        ghost var entered := Value();
        var k := 0;
        while k < |atoms|
          invariant 0 <= k <= |atoms|
          invariant resolvingLabels == old(resolvingLabels) && errors == old(errors)
          invariant AtomsResult(atoms, entered, resolvingLabels, emit, step) == AtomsResult(atoms[k..], Value(), resolvingLabels, emit, step)
        {
          assert atoms[k..][0] == atoms[k] && atoms[k..][1..] == atoms[k + 1..];
          var res := CompileAtom(atoms[k], emit, step);
          if res.Err? {
            return res;
          }
          k := k + 1;
        }
        LeaveLocalScope();
        r := Ok(());
    }

    /** One pass of `compile_program`: reset, then every atom, collecting
        each failure's error. */
    method RunPass<I>(program: seq<Atom<I>>, emit: EmitLabel, step: Step<I>) returns (errs: seq<CompileError>)
      modifies this
      ensures (errs, Value()) == PassFold(program, |program|, Reset(old(Value())), old(resolvingLabels), emit, step)
      ensures resolvingLabels == old(resolvingLabels) && errors == old(errors)
    {
      shouldRecompile := false;
      instructions := [];
      scopeStack := [];
      currentPc := 0;
      curScope := 0;
      scopeStack := scopeStack + [0];
      errs := [];
      ghost var start := Reset(old(Value()));
      assert Value() == start;
      for i := 0 to |program|
        invariant resolvingLabels == old(resolvingLabels) && errors == old(errors)
        invariant (errs, Value()) == PassFold(program, i, start, resolvingLabels, emit, step)
      {
        ghost var before := Value();
        ghost var errs0 := errs;
        var r := CompileAtom(program[i], emit, step);
        assert (r, Value()) == AtomResult(program[i], before, resolvingLabels, emit, step);
        if r.Err? {
          errs := errs + [r.error];
        }
        assert errs == errs0 + (if r.Err? then [r.error] else []);
        assert PassFold(program, i + 1, start, resolvingLabels, emit, step) == (errs, Value());
      }
    }
  }

  /** `compile_program`. */
  method Compile<I>(program: seq<Atom<I>>, emit: EmitLabel, step: Step<I>) returns (r: Result<seq<bv16>, seq<Position.PosCompileError>>)
    ensures r == CompileSpec(program, emit, step)
  {
    var attemptsLeft := MaxAttempts;
    var ctx := new Context();
    while attemptsLeft > 0
      invariant ctx.errors == []
      invariant CompileSpec(program, emit, step) == Passes(program, ctx.Value(), ctx.resolvingLabels, attemptsLeft, emit, step)
      decreases attemptsLeft, if ctx.resolvingLabels then 1 else 0
    {
      var errs := ctx.RunPass(program, emit, step);
      if errs != [] {
        return Err(AtStart(errs));
      }
      if ctx.resolvingLabels {
        ctx.resolvingLabels := false;
        continue;
      }
      if !ctx.shouldRecompile {
        break;
      }
      attemptsLeft := attemptsLeft - 1;
    }
    if attemptsLeft == 0 {
      return Err([Position.WithPos(TooManyAttempts, Position.Start)]);
    }
    r := Encoded(ctx.instructions);
  }
}
