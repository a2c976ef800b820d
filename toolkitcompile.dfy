// Label resolution of the older toolkit assembler (toolkit/src/asm/compile.rs):
// the same fixed-point loop as the scoped one, over a flat label namespace.
// A pre-pass rejects a name used twice; each pass compiles every instruction
// against the addresses found so far, and passes repeat (at most 1024) until
// no label moves.
module ToolkitCompile {
  import opened Base
  import opened Cpu
  import opened ToolkitErrors

  /** The toolkit's `Parsed`, over the instruction type `I`. */
  datatype Parsed<I> = Instruction(ins: I) | Label(name: string) | Nop

  type Labels = map<string, Option<u16>>

  /** The toolkit's `CompileContext`: the address of the first word and the
      label table. */
  datatype Context = Context(currentPc: u16, labelMap: Labels)

  /** An instruction's compile step (unseen here). */
  type Compiler<!I> = (I, Context) -> Result<seq<Instruction>, CompileError>

  const MaxAttempts: nat := 1024

  predicate UniqueNames<I>(parsed: seq<Parsed<I>>) {
    forall i, j :: 0 <= i < j < |parsed| && parsed[i].Label? && parsed[j].Label? ==> parsed[i].name != parsed[j].name
  }

  /** The pre-pass over the first `n` items. */
  function Discover<I>(parsed: seq<Parsed<I>>, n: nat): Result<Labels, CompileError>
    requires n <= |parsed|
  {
    if n == 0 then Ok(map[])
    else
      match Discover(parsed, n - 1)
      case Err(e) => Err(e)
      case Ok(labels) =>
        if parsed[n - 1].Label? then
          var name := parsed[n - 1].name;
          if name in labels then Err(LabelRedefined(name)) else Ok(labels[name := None])
        else Ok(labels)
  }

  /** The pre-pass fails exactly on a repeated name, naming a label of the
      program; otherwise it holds every name, unset. */
  lemma DiscoverMeaning<I>(parsed: seq<Parsed<I>>, n: nat)
    requires n <= |parsed|
    ensures Discover(parsed, n).Ok? <==> UniqueNames(parsed[..n])
    ensures Discover(parsed, n).Err? ==> exists j :: 0 <= j < n && parsed[j].Label? && Discover(parsed, n).error == LabelRedefined(parsed[j].name)
    ensures Discover(parsed, n).Ok? ==>
      forall x :: x in Discover(parsed, n).value <==> exists i :: 0 <= i < n && parsed[i].Label? && parsed[i].name == x
    ensures Discover(parsed, n).Ok? ==> forall x :: x in Discover(parsed, n).value ==> Discover(parsed, n).value[x] == None
  {
    DiscoverUnique(parsed, n);
    if Discover(parsed, n).Ok? {
      DiscoverContents(parsed, n);
    }
  }

  /** A successful pre-pass holds the names of the labels it passed, unset. */
  lemma {:induction false} DiscoverContents<I>(parsed: seq<Parsed<I>>, n: nat)
    requires n <= |parsed| && Discover(parsed, n).Ok?
    ensures forall x :: x in Discover(parsed, n).value <==> exists i :: 0 <= i < n && parsed[i].Label? && parsed[i].name == x
    ensures forall x :: x in Discover(parsed, n).value ==> Discover(parsed, n).value[x] == None
  {
    if n > 0 {
      DiscoverContents(parsed, n - 1);
      forall x | exists i :: 0 <= i < n && parsed[i].Label? && parsed[i].name == x
        ensures x in Discover(parsed, n).value
      {
        var i :| 0 <= i < n && parsed[i].Label? && parsed[i].name == x;
        if i < n - 1 {
          assert x in Discover(parsed, n - 1).value;
        }
      }
    }
  }

  /** The pre-pass fails exactly when two labels share a name, and then it
      names one of them. */
  lemma {:induction false} DiscoverUnique<I>(parsed: seq<Parsed<I>>, n: nat)
    requires n <= |parsed|
    ensures Discover(parsed, n).Ok? <==> UniqueNames(parsed[..n])
    ensures Discover(parsed, n).Err? ==> exists j :: 0 <= j < n && parsed[j].Label? && Discover(parsed, n).error == LabelRedefined(parsed[j].name)
  {
    if n > 0 {
      DiscoverUnique(parsed, n - 1);
      var pre, prev := parsed[..n], parsed[..n - 1];
      assert forall i :: 0 <= i < n - 1 ==> prev[i] == pre[i] == parsed[i];
      assert pre[n - 1] == parsed[n - 1];
      if Discover(parsed, n - 1).Err? {
        assert !UniqueNames(prev);
        var i, j :| 0 <= i < j < n - 1 && prev[i].Label? && prev[j].Label? && prev[i].name == prev[j].name;
        assert pre[i] == prev[i] && pre[j] == prev[j];
      } else {
        var labels := Discover(parsed, n - 1).value;
        DiscoverContents(parsed, n - 1);
        if parsed[n - 1].Label? && parsed[n - 1].name in labels {
          var i :| 0 <= i < n - 1 && parsed[i].Label? && parsed[i].name == parsed[n - 1].name;
          assert pre[i].name == pre[n - 1].name;
        } else {
          forall i, j | 0 <= i < j < n && pre[i].Label? && pre[j].Label?
            ensures pre[i].name != pre[j].name
          {
            if j == n - 1 {
              assert parsed[i].name in labels;
            } else {
              assert prev[i] == pre[i] && prev[j] == pre[j];
            }
          }
        }
      }
    }
  }

  datatype PassState = PassState(compiled: seq<bv16>, labels: Labels, changed: bool)

  function Lookup(labels: Labels, name: string): Option<u16> {
    if name in labels then labels[name] else None
  }

  function Pc(st: PassState): u16 {
    TruncU16(|st.compiled|)
  }

  /** One item of a pass; `Nop` contributes nothing. */
  function Visit<I>(p: Parsed<I>, st: PassState, compile: Compiler<I>): Result<PassState, CompileError> {
    match p
    case Instruction(ins) =>
      (match compile(ins, Context(Pc(st), st.labels))
       case Err(e) => Err(e)
       case Ok(c) =>
         match EncodeAll(c)
         case Err(x) => Err(InvalidInstruction(x))
         case Ok(ws) => Ok(st.(compiled := st.compiled + ws)))
    case Label(name) =>
      if Lookup(st.labels, name) != Some(Pc(st)) then Ok(st.(labels := st.labels[name := Some(Pc(st))], changed := true))
      else Ok(st)
    case Nop => Ok(st)
  }

  function Pass<I>(parsed: seq<Parsed<I>>, n: nat, labels: Labels, compile: Compiler<I>): Result<PassState, CompileError>
    requires n <= |parsed|
  {
    if n == 0 then Ok(PassState([], labels, false))
    else
      match Pass(parsed, n - 1, labels, compile)
      case Err(e) => Err(e)
      case Ok(st) => Visit(parsed[n - 1], st, compile)
  }

  lemma {:induction false} PassPrefix<I>(parsed: seq<Parsed<I>>, n: nat, m: nat, labels: Labels, compile: Compiler<I>)
    requires m <= n <= |parsed| && Pass(parsed, n, labels, compile).Ok?
    ensures Pass(parsed, m, labels, compile).Ok?
    decreases n
  {
    if m < n {
      PassPrefix(parsed, n - 1, m, labels, compile);
    }
  }

  lemma {:induction false} PassErr<I>(parsed: seq<Parsed<I>>, n: nat, m: nat, labels: Labels, compile: Compiler<I>)
    requires n <= m <= |parsed| && Pass(parsed, n, labels, compile).Err?
    ensures Pass(parsed, m, labels, compile) == Pass(parsed, n, labels, compile)
    decreases m
  {
    if n < m {
      PassErr(parsed, n, m - 1, labels, compile);
    }
  }

  /** Only instructions emit words: a program of labels and `Nop`s compiles
      to nothing in any pass. */
  lemma {:induction false} PassWithoutInstructions<I>(parsed: seq<Parsed<I>>, n: nat, labels: Labels, compile: Compiler<I>)
    requires n <= |parsed| && forall i :: 0 <= i < n ==> !parsed[i].Instruction?
    ensures Pass(parsed, n, labels, compile).Ok? && Pass(parsed, n, labels, compile).value.compiled == []
  {
    if n > 0 {
      PassWithoutInstructions(parsed, n - 1, labels, compile);
    }
  }

  /** The label at `i`'s address: `compiled.len()` when the pass reaches it. */
  function LabelPc<I>(parsed: seq<Parsed<I>>, i: nat, labels: Labels, compile: Compiler<I>): u16
    requires i <= |parsed| && Pass(parsed, i, labels, compile).Ok?
  {
    Pc(Pass(parsed, i, labels, compile).value)
  }

  /** What one item does to the label table and the change flag. */
  lemma VisitMeaning<I>(p: Parsed<I>, st: PassState, compile: Compiler<I>)
    requires Visit(p, st, compile).Ok?
    ensures var r := Visit(p, st, compile).value;
      if p.Label? then
        Lookup(r.labels, p.name) == Some(Pc(st))
        && (forall x :: x != p.name ==> Lookup(r.labels, x) == Lookup(st.labels, x))
        && (r.changed <==> st.changed || Lookup(st.labels, p.name) != Some(Pc(st)))
      else r.labels == st.labels && r.changed == st.changed
  {
  }

  /** With unique names, each label passed sits at its address and every
      other entry is as before. */
  lemma {:induction false} PassLabels<I>(parsed: seq<Parsed<I>>, n: nat, labels: Labels, compile: Compiler<I>)
    requires n <= |parsed| && UniqueNames(parsed) && Pass(parsed, n, labels, compile).Ok?
    ensures forall i :: 0 <= i < n && parsed[i].Label? ==>
      Pass(parsed, i, labels, compile).Ok? &&
      Lookup(Pass(parsed, n, labels, compile).value.labels, parsed[i].name) == Some(LabelPc(parsed, i, labels, compile))
    ensures forall x :: (forall i :: 0 <= i < n && parsed[i].Label? ==> parsed[i].name != x) ==>
      Lookup(Pass(parsed, n, labels, compile).value.labels, x) == Lookup(labels, x)
    decreases n
  {
    if n > 0 {
      PassPrefix(parsed, n, n - 1, labels, compile);
      PassLabels(parsed, n - 1, labels, compile);
      VisitMeaning(parsed[n - 1], Pass(parsed, n - 1, labels, compile).value, compile);
    }
  }

  /** With unique names, a pass reports a change exactly when some label it
      passed was unset or stood elsewhere before the pass. */
  lemma {:induction false} PassChanged<I>(parsed: seq<Parsed<I>>, n: nat, labels: Labels, compile: Compiler<I>)
    requires n <= |parsed| && UniqueNames(parsed) && Pass(parsed, n, labels, compile).Ok?
    ensures Pass(parsed, n, labels, compile).value.changed <==>
      exists i :: 0 <= i < n && parsed[i].Label? && Pass(parsed, i, labels, compile).Ok? &&
        Lookup(labels, parsed[i].name) != Some(LabelPc(parsed, i, labels, compile))
    decreases n
  {
    if n > 0 {
      PassPrefix(parsed, n, n - 1, labels, compile);
      PassChanged(parsed, n - 1, labels, compile);
      var st := Pass(parsed, n - 1, labels, compile).value;
      VisitMeaning(parsed[n - 1], st, compile);
      if parsed[n - 1].Label? {
        PassLabels(parsed, n - 1, labels, compile);
        var name := parsed[n - 1].name;
        assert Lookup(st.labels, name) == Lookup(labels, name);
      }
    }
  }

  function Attempts<I>(parsed: seq<Parsed<I>>, labels: Labels, attempts: nat, compile: Compiler<I>): Result<seq<bv16>, CompileError>
    decreases attempts
  {
    if attempts == 0 then Err(TooManyAttempts)
    else
      match Pass(parsed, |parsed|, labels, compile)
      case Err(e) => Err(e)
      case Ok(st) => if !st.changed then Ok(st.compiled) else Attempts(parsed, st.labels, attempts - 1, compile)
  }

  function CompileSpec<I>(parsed: seq<Parsed<I>>, compile: Compiler<I>): Result<seq<bv16>, CompileError> {
    match Discover(parsed, |parsed|)
    case Err(e) => Err(e)
    case Ok(labels) => Attempts(parsed, labels, MaxAttempts, compile)
  }

  /** `words` is a pass's output from `labels`, and each label stands in
      `labels` at the address the pass gives it. */
  predicate Resolved<I>(parsed: seq<Parsed<I>>, labels: Labels, compile: Compiler<I>, words: seq<bv16>) {
    Pass(parsed, |parsed|, labels, compile).Ok?
    && Pass(parsed, |parsed|, labels, compile).value.compiled == words
    && forall i :: 0 <= i < |parsed| && parsed[i].Label? ==>
         Pass(parsed, i, labels, compile).Ok? && Lookup(labels, parsed[i].name) == Some(LabelPc(parsed, i, labels, compile))
  }

  lemma {:induction false} AttemptsResolved<I>(parsed: seq<Parsed<I>>, labels: Labels, attempts: nat, compile: Compiler<I>)
    requires UniqueNames(parsed) && Attempts(parsed, labels, attempts, compile).Ok?
    ensures exists fixed :: Resolved(parsed, fixed, compile, Attempts(parsed, labels, attempts, compile).value)
    decreases attempts
  {
    var st := Pass(parsed, |parsed|, labels, compile).value;
    if st.changed {
      AttemptsResolved(parsed, st.labels, attempts - 1, compile);
    } else {
      PassLabels(parsed, |parsed|, labels, compile);
      PassChanged(parsed, |parsed|, labels, compile);
      assert Resolved(parsed, labels, compile, st.compiled);
    }
  }

  /** A successful compile returns the last pass's words, compiled against a
      label table that agrees with every label's address. */
  lemma CompileResolved<I>(parsed: seq<Parsed<I>>, compile: Compiler<I>)
    requires CompileSpec(parsed, compile).Ok?
    ensures UniqueNames(parsed)
    ensures exists fixed :: Resolved(parsed, fixed, compile, CompileSpec(parsed, compile).value)
  {
    DiscoverMeaning(parsed, |parsed|);
    assert parsed[..|parsed|] == parsed;
    AttemptsResolved(parsed, Discover(parsed, |parsed|).value, MaxAttempts, compile);
  }

  /** A pass that keeps changing the table exhausts the budget: with every
      pass from `labels` on asking for another, the result is
      `TooManyAttempts`. */
  lemma {:induction false} AttemptsExhausted<I>(parsed: seq<Parsed<I>>, labels: Labels, attempts: nat, compile: Compiler<I>)
    requires forall l :: Pass(parsed, |parsed|, l, compile).Ok? && Pass(parsed, |parsed|, l, compile).value.changed
    ensures Attempts(parsed, labels, attempts, compile) == Err(TooManyAttempts)
    decreases attempts
  {
    if attempts > 0 {
      AttemptsExhausted(parsed, Pass(parsed, |parsed|, labels, compile).value.labels, attempts - 1, compile);
    }
  }

  method Compile<I>(parsed: seq<Parsed<I>>, compile: Compiler<I>) returns (r: Result<seq<bv16>, CompileError>)
    ensures r == CompileSpec(parsed, compile)
  {
    var found := DiscoverLabels(parsed);
    if found.Err? {
      return Err(found.error);
    }
    var labels := found.value;
    var attempts := MaxAttempts;
    while attempts > 0
      invariant CompileSpec(parsed, compile) == Attempts(parsed, labels, attempts, compile)
      decreases attempts
    {
      var pass := RunPass(parsed, labels, compile);
      if pass.Err? {
        return Err(pass.error);
      }
      if !pass.value.changed {
        return Ok(pass.value.compiled);
      }
      labels := pass.value.labels;
      attempts := attempts - 1;
    }
    return Err(TooManyAttempts);
  }

  method DiscoverLabels<I>(parsed: seq<Parsed<I>>) returns (r: Result<Labels, CompileError>)
    ensures r == Discover(parsed, |parsed|)
  {
    var labels: Labels := map[];
    for i := 0 to |parsed|
      invariant Discover(parsed, i) == Ok(labels)
    {
      if parsed[i].Label? {
        var name := parsed[i].name;
        if name in labels {
          DiscoverErr(parsed, i + 1, |parsed|);
          return Err(LabelRedefined(name));
        }
        labels := labels[name := None];
      }
    }
    return Ok(labels);
  }

  lemma {:induction false} DiscoverErr<I>(parsed: seq<Parsed<I>>, n: nat, m: nat)
    requires n <= m <= |parsed| && Discover(parsed, n).Err?
    ensures Discover(parsed, m) == Discover(parsed, n)
    decreases m
  {
    if n < m {
      DiscoverErr(parsed, n, m - 1);
    }
  }

  method RunPass<I>(parsed: seq<Parsed<I>>, labels0: Labels, compile: Compiler<I>) returns (r: Result<PassState, CompileError>)
    ensures r == Pass(parsed, |parsed|, labels0, compile)
  {
    var changed := false;
    var compiled: seq<bv16> := [];
    var labels := labels0;
    for i := 0 to |parsed|
      invariant Pass(parsed, i, labels0, compile) == Ok(PassState(compiled, labels, changed))
    {
      var pc := TruncU16(|compiled|);
      match parsed[i]
      case Instruction(ins) =>
        var c := compile(ins, Context(pc, labels));
        if c.Err? {
          PassErr(parsed, i + 1, |parsed|, labels0, compile);
          return Err(c.error);
        }
        var ws := EncodeAll(c.value);
        if ws.Err? {
          PassErr(parsed, i + 1, |parsed|, labels0, compile);
          return Err(InvalidInstruction(ws.error));
        }
        compiled := compiled + ws.value;
      case Label(name) =>
        if Lookup(labels, name) != Some(pc) {
          labels := labels[name := Some(pc)];
          changed := true;
        }
      case Nop =>
    }
    return Ok(PassState(compiled, labels, changed));
  }
}
