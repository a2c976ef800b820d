// Label resolution with local scopes (easycpu_lib/src/asm/compile.rs). A
// pre-pass registers every label under the scope it appears in and rejects a
// repeated (scope, name) pair; then whole passes over the program run until
// no label's address moves, each pass compiling every instruction against
// the addresses found so far. A label's address is the number of words
// emitted before it. There are at most 1024 passes.
module AsmCompile {
  import opened Base
  import opened Cpu
  import opened Errors
  import opened AsmInst

  /** `Parsed`, over the instruction type `I`. */
  datatype Parsed<I> =
    | Instruction(ins: I)
    | Label(name: string)
    | EnterLocalScope(id: nat)
    | LeaveLocalScope
    | Nop

  type Labels = map<(nat, string), Option<u16>>

  /** An instruction's compile step (unseen here): the context in, the
      machine instructions out. */
  type Compiler<!I> = (I, CompileContext) -> Result<seq<Instruction>, CompileError>

  const MaxAttempts: nat := 1024

  // --- Scopes ---------------------------------------------------------------

  /** The scope stack and the current scope. */
  datatype Scopes = Scopes(stack: seq<nat>, cur: nat)

  const Outer := Scopes([0], 0)

  /** Entering pushes the id and makes it current; leaving pops, and the
      current scope becomes the new top, or 0 when the stack is empty. */
  function ScopeStep<I>(p: Parsed<I>, sc: Scopes): (r: Scopes)
    ensures p.EnterLocalScope? ==> r.stack == sc.stack + [p.id] && r.cur == p.id
    ensures p.LeaveLocalScope? && |sc.stack| > 0 ==> r.stack == sc.stack[..|sc.stack| - 1]
    ensures p.LeaveLocalScope? ==> r.cur == (if |r.stack| == 0 then 0 else r.stack[|r.stack| - 1])
    ensures !p.EnterLocalScope? && !p.LeaveLocalScope? ==> r == sc
  {
    match p
    case EnterLocalScope(id) => Scopes(sc.stack + [id], id)
    case LeaveLocalScope =>
      var stack := if |sc.stack| == 0 then [] else sc.stack[..|sc.stack| - 1];
      Scopes(stack, if |stack| == 0 then 0 else stack[|stack| - 1])
    case _ => sc
  }

  /** The scopes in force after the first `n` items (both the pre-pass and
      every pass start from `Outer`). */
  function ScopesAfter<I>(parsed: seq<Parsed<I>>, n: nat): Scopes
    requires n <= |parsed|
  {
    if n == 0 then Outer else ScopeStep(parsed[n - 1], ScopesAfter(parsed, n - 1))
  }

  /** The key of the label at index `i`. */
  function Key<I>(parsed: seq<Parsed<I>>, i: nat): (nat, string)
    requires i < |parsed| && parsed[i].Label?
  {
    (ScopesAfter(parsed, i).cur, parsed[i].name)
  }

  /** No two labels among the first `n` items share a key. */
  predicate UniqueKeys<I>(parsed: seq<Parsed<I>>, n: nat)
    requires n <= |parsed|
  {
    forall i, j :: 0 <= i < j < n && parsed[i].Label? && parsed[j].Label? ==> Key(parsed, i) != Key(parsed, j)
  }

  // --- Pre-pass -------------------------------------------------------------

  /** The label table after the pre-pass over the first `n` items. */
  function Discover<I>(parsed: seq<Parsed<I>>, n: nat): Result<Labels, CompileError>
    requires n <= |parsed|
  {
    if n == 0 then Ok(map[])
    else
      match Discover(parsed, n - 1)
      case Err(e) => Err(e)
      case Ok(labels) =>
        if parsed[n - 1].Label? then
          var key := Key(parsed, n - 1);
          if key in labels then Err(LabelRedefined(parsed[n - 1].name)) else Ok(labels[key := None])
        else Ok(labels)
  }

  /** The pre-pass succeeds exactly when the keys are unique, and then holds
      every key, unset. */
  lemma DiscoverMeaning<I>(parsed: seq<Parsed<I>>, n: nat)
    requires n <= |parsed|
    ensures Discover(parsed, n).Ok? <==> UniqueKeys(parsed, n)
    ensures Discover(parsed, n).Ok? ==>
      forall k :: k in Discover(parsed, n).value <==> exists i :: 0 <= i < n && parsed[i].Label? && Key(parsed, i) == k
    ensures Discover(parsed, n).Ok? ==> forall k :: k in Discover(parsed, n).value ==> Discover(parsed, n).value[k] == None
  {
    DiscoverUnique(parsed, n);
    if Discover(parsed, n).Ok? {
      DiscoverContents(parsed, n);
    }
  }

  /** A successful pre-pass holds the keys of the labels it passed, unset. */
  lemma {:induction false} DiscoverContents<I>(parsed: seq<Parsed<I>>, n: nat)
    requires n <= |parsed| && Discover(parsed, n).Ok?
    ensures forall k :: k in Discover(parsed, n).value <==> exists i :: 0 <= i < n && parsed[i].Label? && Key(parsed, i) == k
    ensures forall k :: k in Discover(parsed, n).value ==> Discover(parsed, n).value[k] == None
  {
    if n > 0 {
      DiscoverContents(parsed, n - 1);
      forall k | exists i :: 0 <= i < n && parsed[i].Label? && Key(parsed, i) == k
        ensures k in Discover(parsed, n).value
      {
        var i :| 0 <= i < n && parsed[i].Label? && Key(parsed, i) == k;
        if i < n - 1 {
          assert k in Discover(parsed, n - 1).value;
        }
      }
    }
  }

  /** The pre-pass succeeds exactly when no two labels share a key. */
  lemma {:induction false} DiscoverUnique<I>(parsed: seq<Parsed<I>>, n: nat)
    requires n <= |parsed|
    ensures Discover(parsed, n).Ok? <==> UniqueKeys(parsed, n)
  {
    if n > 0 {
      DiscoverUnique(parsed, n - 1);
      if Discover(parsed, n - 1).Ok? && parsed[n - 1].Label? {
        var labels := Discover(parsed, n - 1).value;
        var key := Key(parsed, n - 1);
        DiscoverContents(parsed, n - 1);
        if key in labels {
          var i :| 0 <= i < n - 1 && parsed[i].Label? && Key(parsed, i) == key;
          assert !UniqueKeys(parsed, n);
        } else {
          forall i, j | 0 <= i < j < n && parsed[i].Label? && parsed[j].Label?
            ensures Key(parsed, i) != Key(parsed, j)
          {
            if j == n - 1 {
              assert Key(parsed, i) in labels;
            }
          }
        }
      }
    }
  }

  // --- One pass -------------------------------------------------------------

  datatype PassState = PassState(compiled: seq<bv16>, labels: Labels, changed: bool)

  function Lookup(labels: Labels, key: (nat, string)): Option<u16> {
    if key in labels then labels[key] else None
  }

  /** Address of the next word: the output length as a `u16`. */
  function Pc(st: PassState): u16 {
    TruncU16(|st.compiled|)
  }

  /** The words of one instruction: its compile error, its encode error, or
      the encoded words of what it compiles to. */
  function ItemWords<I>(ins: I, ctx: CompileContext, compile: Compiler<I>): Result<seq<bv16>, CompileError> {
    match compile(ins, ctx)
    case Err(e) => Err(e)
    case Ok(c) =>
      match EncodeAll(c)
      case Err(x) => Err(InvalidInstruction(x))
      case Ok(ws) => Ok(ws)
  }

  /** One item of a pass. An instruction's words are appended, or its compile
      or encode error ends the pass; a label whose entry is unset or differs
      from the current address gets that address and marks the pass changed. */
  function Visit<I>(p: Parsed<I>, sc: Scopes, st: PassState, compile: Compiler<I>): (r: Result<PassState, CompileError>)
  {
    match p
    case Instruction(ins) =>
      (match ItemWords(ins, CompileContext(Pc(st), st.labels, sc.stack), compile)
       case Err(e) => Err(e)
       case Ok(ws) => Ok(st.(compiled := st.compiled + ws)))
    case Label(name) =>
      var key := (sc.cur, name);
      if Lookup(st.labels, key) != Some(Pc(st)) then Ok(st.(labels := st.labels[key := Some(Pc(st))], changed := true))
      else Ok(st)
    case _ => Ok(st)
  }

  /** The state after the first `n` items of a pass that starts from `labels`. */
  function Pass<I>(parsed: seq<Parsed<I>>, n: nat, labels: Labels, compile: Compiler<I>): Result<PassState, CompileError>
    requires n <= |parsed|
  {
    if n == 0 then Ok(PassState([], labels, false))
    else
      match Pass(parsed, n - 1, labels, compile)
      case Err(e) => Err(e)
      case Ok(st) => Visit(parsed[n - 1], ScopesAfter(parsed, n - 1), st, compile)
  }

  /** A pass that got through `n` items got through every shorter prefix. */
  lemma {:induction false} PassPrefix<I>(parsed: seq<Parsed<I>>, n: nat, m: nat, labels: Labels, compile: Compiler<I>)
    requires m <= n <= |parsed| && Pass(parsed, n, labels, compile).Ok?
    ensures Pass(parsed, m, labels, compile).Ok?
    decreases n
  {
    if m < n {
      PassPrefix(parsed, n - 1, m, labels, compile);
    }
  }

  /** An error stays the pass's result to the end. */
  lemma {:induction false} PassErr<I>(parsed: seq<Parsed<I>>, n: nat, m: nat, labels: Labels, compile: Compiler<I>)
    requires n <= m <= |parsed| && Pass(parsed, n, labels, compile).Err?
    ensures Pass(parsed, m, labels, compile) == Pass(parsed, n, labels, compile)
    decreases m
  {
    if n < m {
      PassErr(parsed, n, m - 1, labels, compile);
    }
  }

  /** The address of the label at `i`: the words emitted before it. */
  function LabelPc<I>(parsed: seq<Parsed<I>>, i: nat, labels: Labels, compile: Compiler<I>): u16
    requires i <= |parsed| && Pass(parsed, i, labels, compile).Ok?
  {
    Pc(Pass(parsed, i, labels, compile).value)
  }

  /** What one item does to the label table and the change flag. */
  lemma VisitMeaning<I>(p: Parsed<I>, sc: Scopes, st: PassState, compile: Compiler<I>)
    requires Visit(p, sc, st, compile).Ok?
    ensures var r := Visit(p, sc, st, compile).value;
      if p.Label? then
        var key := (sc.cur, p.name);
        Lookup(r.labels, key) == Some(Pc(st))
        && (forall k :: k != key ==> Lookup(r.labels, k) == Lookup(st.labels, k))
        && (r.changed <==> st.changed || Lookup(st.labels, key) != Some(Pc(st)))
      else r.labels == st.labels && r.changed == st.changed
  {
  }

  /** With unique keys, a pass leaves each label it passed at the address
      where it stood and touches no other entry. */
  lemma {:induction false} PassLabels<I>(parsed: seq<Parsed<I>>, n: nat, labels: Labels, compile: Compiler<I>)
    requires n <= |parsed| && UniqueKeys(parsed, n) && Pass(parsed, n, labels, compile).Ok?
    ensures forall i :: 0 <= i < n && parsed[i].Label? ==>
      Pass(parsed, i, labels, compile).Ok? &&
      Lookup(Pass(parsed, n, labels, compile).value.labels, Key(parsed, i)) == Some(LabelPc(parsed, i, labels, compile))
    ensures forall k :: (forall i :: 0 <= i < n && parsed[i].Label? ==> Key(parsed, i) != k) ==>
      Lookup(Pass(parsed, n, labels, compile).value.labels, k) == Lookup(labels, k)
    decreases n
  {
    if n > 0 {
      PassPrefix(parsed, n, n - 1, labels, compile);
      assert UniqueKeys(parsed, n - 1);
      PassLabels(parsed, n - 1, labels, compile);
      VisitMeaning(parsed[n - 1], ScopesAfter(parsed, n - 1), Pass(parsed, n - 1, labels, compile).value, compile);
    }
  }

  /** The label at `i` was unset, or stood elsewhere, before a pass from
      `labels` reached it. */
  predicate MovedBy<I>(parsed: seq<Parsed<I>>, i: nat, labels: Labels, compile: Compiler<I>)
    requires i < |parsed|
  {
    parsed[i].Label? && Pass(parsed, i, labels, compile).Ok? &&
    Lookup(labels, Key(parsed, i)) != Some(LabelPc(parsed, i, labels, compile))
  }

  /** With unique keys, a pass reports a change exactly when some label it
      passed was unset or stood elsewhere before the pass. */
  lemma {:induction false} PassChanged<I>(parsed: seq<Parsed<I>>, n: nat, labels: Labels, compile: Compiler<I>)
    requires n <= |parsed| && UniqueKeys(parsed, n) && Pass(parsed, n, labels, compile).Ok?
    ensures Pass(parsed, n, labels, compile).value.changed <==>
      exists i :: 0 <= i < n && MovedBy(parsed, i, labels, compile)
    decreases n
  {
    if n > 0 {
      PassPrefix(parsed, n, n - 1, labels, compile);
      assert UniqueKeys(parsed, n - 1);
      PassChanged(parsed, n - 1, labels, compile);
      LastVisitChanged(parsed, n, labels, compile);
      ExistsLast(parsed, n, labels, compile);
    }
  }

  /** The last item of a prefix changes the flag exactly when it is a label
      that moves. */
  lemma LastVisitChanged<I>(parsed: seq<Parsed<I>>, n: nat, labels: Labels, compile: Compiler<I>)
    requires 0 < n <= |parsed| && UniqueKeys(parsed, n) && Pass(parsed, n, labels, compile).Ok?
    ensures Pass(parsed, n - 1, labels, compile).Ok?
    ensures Pass(parsed, n, labels, compile).value.changed <==>
      Pass(parsed, n - 1, labels, compile).value.changed || MovedBy(parsed, n - 1, labels, compile)
  {
    PassPrefix(parsed, n, n - 1, labels, compile);
    var st := Pass(parsed, n - 1, labels, compile).value;
    VisitMeaning(parsed[n - 1], ScopesAfter(parsed, n - 1), st, compile);
    if parsed[n - 1].Label? {
      assert UniqueKeys(parsed, n - 1);
      PassLabels(parsed, n - 1, labels, compile);
      var key := Key(parsed, n - 1);
      assert Lookup(st.labels, key) == Lookup(labels, key);
    }
  }

  /** Some label of the first `n` items moves exactly when one of the first
      `n - 1` does or the last one does. */
  lemma ExistsLast<I>(parsed: seq<Parsed<I>>, n: nat, labels: Labels, compile: Compiler<I>)
    requires 0 < n <= |parsed|
    ensures (exists i :: 0 <= i < n && MovedBy(parsed, i, labels, compile)) <==>
      (exists i :: 0 <= i < n - 1 && MovedBy(parsed, i, labels, compile)) || MovedBy(parsed, n - 1, labels, compile)
  {
    if exists i :: 0 <= i < n && MovedBy(parsed, i, labels, compile) {
      var i :| 0 <= i < n && MovedBy(parsed, i, labels, compile);
      if i < n - 1 {
        assert exists j :: 0 <= j < n - 1 && MovedBy(parsed, j, labels, compile);
      }
    }
  }

  // --- Passes ---------------------------------------------------------------

  /** Up to `attempts` more passes from `labels`: the first pass that changes
      nothing gives the program; running out gives `TooManyAttempts`. */
  function Attempts<I>(parsed: seq<Parsed<I>>, labels: Labels, attempts: nat, compile: Compiler<I>): Result<seq<bv16>, CompileError>
    decreases attempts
  {
    if attempts == 0 then Err(TooManyAttempts)
    else
      match Pass(parsed, |parsed|, labels, compile)
      case Err(e) => Err(e)
      case Ok(st) => if !st.changed then Ok(st.compiled) else Attempts(parsed, st.labels, attempts - 1, compile)
  }

  /** `compile`, as a function of the program and its instructions' compile step. */
  function CompileSpec<I>(parsed: seq<Parsed<I>>, compile: Compiler<I>): Result<seq<bv16>, CompileError> {
    match Discover(parsed, |parsed|)
    case Err(e) => Err(e)
    case Ok(labels) => Attempts(parsed, labels, MaxAttempts, compile)
  }

  /** `words` is what a pass from `labels` emits, and every label sits in
      `labels` at the address where the pass reaches it. */
  predicate Resolved<I>(parsed: seq<Parsed<I>>, labels: Labels, compile: Compiler<I>, words: seq<bv16>) {
    Pass(parsed, |parsed|, labels, compile).Ok?
    && Pass(parsed, |parsed|, labels, compile).value.compiled == words
    && forall i :: 0 <= i < |parsed| && parsed[i].Label? ==>
         Pass(parsed, i, labels, compile).Ok? && Lookup(labels, Key(parsed, i)) == Some(LabelPc(parsed, i, labels, compile))
  }

  /** Whatever the passes return was compiled against a consistent label
      table: a fixed point of the pass. */
  lemma {:induction false} AttemptsResolved<I>(parsed: seq<Parsed<I>>, labels: Labels, attempts: nat, compile: Compiler<I>)
    requires UniqueKeys(parsed, |parsed|) && Attempts(parsed, labels, attempts, compile).Ok?
    ensures exists fixed :: Resolved(parsed, fixed, compile, Attempts(parsed, labels, attempts, compile).value)
    decreases attempts
  {
    var st := Pass(parsed, |parsed|, labels, compile).value;
    if st.changed {
      AttemptsResolved(parsed, st.labels, attempts - 1, compile);
    } else {
      PassLabels(parsed, |parsed|, labels, compile);
      PassChanged(parsed, |parsed|, labels, compile);
      forall i | 0 <= i < |parsed| && parsed[i].Label?
        ensures Pass(parsed, i, labels, compile).Ok?
        ensures Lookup(labels, Key(parsed, i)) == Some(LabelPc(parsed, i, labels, compile))
      {
        PassPrefix(parsed, |parsed|, i, labels, compile);
        assert !MovedBy(parsed, i, labels, compile);
      }
      assert Resolved(parsed, labels, compile, st.compiled);
    }
  }

  /** A successful compile is consistent with its labels' addresses. */
  lemma CompileResolved<I>(parsed: seq<Parsed<I>>, compile: Compiler<I>)
    requires CompileSpec(parsed, compile).Ok?
    ensures UniqueKeys(parsed, |parsed|)
    ensures exists fixed :: Resolved(parsed, fixed, compile, CompileSpec(parsed, compile).value)
  {
    DiscoverMeaning(parsed, |parsed|);
    AttemptsResolved(parsed, Discover(parsed, |parsed|).value, MaxAttempts, compile);
  }

  /** The first pass over a program with a label always asks for another,
      since every entry starts unset: at least two passes run. */
  lemma FirstPassChanges<I>(parsed: seq<Parsed<I>>, i: nat, compile: Compiler<I>)
    requires i < |parsed| && parsed[i].Label? && Discover(parsed, |parsed|).Ok?
    requires Pass(parsed, |parsed|, Discover(parsed, |parsed|).value, compile).Ok?
    ensures Pass(parsed, |parsed|, Discover(parsed, |parsed|).value, compile).value.changed
  {
    var labels := Discover(parsed, |parsed|).value;
    DiscoverMeaning(parsed, |parsed|);
    PassChanged(parsed, |parsed|, labels, compile);
    PassPrefix(parsed, |parsed|, i, labels, compile);
    assert Lookup(labels, Key(parsed, i)) == None;
    assert MovedBy(parsed, i, labels, compile);
  }

  // --- The compile loop -----------------------------------------------------

  /** `compile`: the pre-pass, then passes until one changes nothing. */
  method Compile<I>(parsed: seq<Parsed<I>>, compile: Compiler<I>) returns (r: Result<seq<bv16>, CompileError>)
    ensures r == CompileSpec(parsed, compile)
  {
    var found := DiscoverLabels(parsed);
    if found.Err? {
      return Err(found.error);
    }
    var labels := found.value;
    var attempts := MaxAttempts;
    while attempts > 0
      invariant CompileSpec(parsed, compile) == Attempts(parsed, labels, attempts, compile)
      decreases attempts
    {
      var pass := RunPass(parsed, labels, compile);
      if pass.Err? {
        return Err(pass.error);
      }
      if !pass.value.changed {
        return Ok(pass.value.compiled);
      }
      labels := pass.value.labels;
      attempts := attempts - 1;
    }
    return Err(TooManyAttempts);
  }

  /** The pre-pass loop. */
  method DiscoverLabels<I>(parsed: seq<Parsed<I>>) returns (r: Result<Labels, CompileError>)
    ensures r == Discover(parsed, |parsed|)
  {
    var labels: Labels := map[];
    var scopes := Outer;
    for i := 0 to |parsed|
      invariant Discover(parsed, i) == Ok(labels) && scopes == ScopesAfter(parsed, i)
    {
      if parsed[i].Label? {
        var key := (scopes.cur, parsed[i].name);
        if key in labels {
          DiscoverErr(parsed, i + 1, |parsed|);
          return Err(LabelRedefined(parsed[i].name));
        }
        labels := labels[key := None];
      }
      scopes := ScopeStep(parsed[i], scopes);
    }
    return Ok(labels);
  }

  /** One pass of the loop: output cleared, scopes reset, every item visited. */
  method RunPass<I>(parsed: seq<Parsed<I>>, labels0: Labels, compile: Compiler<I>) returns (r: Result<PassState, CompileError>)
    ensures r == Pass(parsed, |parsed|, labels0, compile)
  {
    var changed := false;
    var compiled: seq<bv16> := [];
    var labels := labels0;
    var scopes := Outer;
    for i := 0 to |parsed|
      invariant Pass(parsed, i, labels0, compile) == Ok(PassState(compiled, labels, changed))
      invariant scopes == ScopesAfter(parsed, i)
    {
      var pc := TruncU16(|compiled|);
      assert Pass(parsed, i + 1, labels0, compile) == Visit(parsed[i], scopes, PassState(compiled, labels, changed), compile);
      match parsed[i] {
        case Instruction(ins) =>
          var ws := ItemWords(ins, CompileContext(pc, labels, scopes.stack), compile);
          if ws.Err? {
            PassErr(parsed, i + 1, |parsed|, labels0, compile);
            return Err(ws.error);
          }
          compiled := compiled + ws.value;
        case Label(name) =>
          var key := (scopes.cur, name);
          if Lookup(labels, key) != Some(pc) {
            labels := labels[key := Some(pc)];
            changed := true;
          }
        case _ =>
      }
      scopes := ScopeStep(parsed[i], scopes);
    }
    return Ok(PassState(compiled, labels, changed));
  }

  /** A pre-pass error stays the result to the end. */
  lemma {:induction false} DiscoverErr<I>(parsed: seq<Parsed<I>>, n: nat, m: nat)
    requires n <= m <= |parsed| && Discover(parsed, n).Err?
    ensures Discover(parsed, m) == Discover(parsed, n)
    decreases m
  {
    if n < m {
      DiscoverErr(parsed, n, m - 1);
    }
  }
}
