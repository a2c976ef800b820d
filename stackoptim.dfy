// The peephole optimizer over stack operations
// (easycpu_lib/src/stack/opt/optim.rs). The operations wait on a queue;
// each is moved in turn onto the compiled list, and after every move the end
// of that list is checked against three rewrite rules. A rule that fires
// takes the last two operations back off the compiled list and queues what
// replaces them, so the replacement is checked again against what was
// compiled before it.
module StackOptim {
  import opened Base
  import opened Words
  import opened StackSig
  import StackLocal
  import StackManip
  import StackLocalOp

  /** The stack operations as the optimizer tells them apart (it downcasts
      to `LocalStackOp`, `AluStackOp`, `ConstStackOp` and `ManipStackOp`);
      `OtherOp` is any other operation. The manipulations are those of the
      revision of `stack/instr/manip.rs` in which DROP carries a count. */
  datatype OptOp =
    | LocalOp(ins: StackLocal.StackLocalInstruction)
    | AluOp(alu: AluOperation)
    | ConstOp(val: u16, doAdd: bool)
    | SwpOp
    | DupOp
    | DropOp(cnt: u8)
    | OtherOp(id: nat)

  /** The signatures this model does not define: those of the constant,
      ALU, counted DROP and other operations (their sources are not part of
      this model). */
  type Unseen = OptOp -> StackSig.Signature

  /** `signature()` of an operation. */
  function Sig(op: OptOp, unseen: Unseen): StackSig.Signature {
    match op
    case LocalOp(ins) => StackLocalOp.Signature(ins.op)
    case SwpOp => StackManip.Signature(StackManip.Swp)
    case DupOp => StackManip.Signature(StackManip.Dup)
    case _ => unseen(op)
  }

  /** `look_at(i)` / `look_as(i)`: the `i`-th operation from the end of the
      compiled list, counting from 1; nothing for 0 or past the start. */
  function LookAt(compiled: seq<OptOp>, i: nat): (r: Option<OptOp>)
    ensures r.Some? <==> 1 <= i <= |compiled|
    ensures r.Some? ==> r.value == compiled[|compiled| - i]
  {
    if i > |compiled| then None
    else if i == 0 then None
    else Some(compiled[|compiled| - i])
  }

  predicate IsLocalLoad(o: Option<OptOp>) { o.Some? && o.value.LocalOp? && o.value.ins.op.LOAD? }
  predicate IsLocalStore(o: Option<OptOp>) { o.Some? && o.value.LocalOp? && o.value.ins.op.STORE? }

  /** `optimize_svar_lvar`: a local STORE followed by a LOAD of the same
      mode and index is rewritten to DUP then the STORE; what is queued, in
      queueing order (STORE, then DUP, which is taken first). */
  function SvarLvar(compiled: seq<OptOp>): Option<seq<OptOp>> {
    var load := LookAt(compiled, 1);
    var store := LookAt(compiled, 2);
    if IsLocalLoad(load) && IsLocalStore(store)
       && load.value.ins.op.mode == store.value.ins.op.mode
       && load.value.ins.idx == store.value.ins.idx
    then Some([LocalOp(StackLocal.StackLocalInstruction(StackLocal.STORE(load.value.ins.op.mode), load.value.ins.idx)), DupOp])
    else None
  }

  /** `optimize_pconst_add`: a constant not in add mode followed by ADD or
      SUB becomes one add-mode constant, of the value or of its wrapping
      negation. */
  function PconstAdd(compiled: seq<OptOp>): Option<seq<OptOp>> {
    var alu := LookAt(compiled, 1);
    var cons := LookAt(compiled, 2);
    if alu.Some? && alu.value.AluOp? && (alu.value.alu == AluOperation.ADD || alu.value.alu == SUB)
       && cons.Some? && cons.value.ConstOp? && !cons.value.doAdd
    then
      var v := if alu.value.alu == SUB then WrapSub(0, cons.value.val) else cons.value.val;
      Some([ConstOp(v, true)])
    else None
  }

  /** `new_dropped as u8`: the low eight bits. */
  function TruncU8(n: nat): (r: u8)
    ensures n < 0x100 ==> r as int == n
  {
    (n % 0x100) as u8
  }

  /** `optimize_drop_pure`: DROP of `n` after an operation without flags
      that pushes at most `n` values drops both, as one DROP of the values
      still to be dropped plus those the operation took. */
  function DropPure(compiled: seq<OptOp>, unseen: Unseen): Option<seq<OptOp>> {
    var drop := LookAt(compiled, 1);
    var dropped := LookAt(compiled, 2);
    if drop.Some? && drop.value.DropOp? && dropped.Some?
       && Unflagged(Sig(dropped.value, unseen)) && Sig(dropped.value, unseen).pushes <= drop.value.cnt as nat
    then
      var sig := Sig(dropped.value, unseen);
      Some([DropOp(TruncU8(drop.value.cnt as nat - sig.pushes + sig.takes))])
    else None
  }

  /** How much work is left in an operation for the loop's measure: a local
      LOAD counts twice, since the STORE/LOAD rule trades one for a DUP. */
  function W(op: OptOp): nat {
    if op.LocalOp? && op.ins.op.LOAD? then 2 else 1
  }

  function Weight(s: seq<OptOp>): nat
    decreases |s|
  {
    if s == [] then 0 else Weight(s[..|s| - 1]) + W(s[|s| - 1])
  }

  lemma {:induction false} WeightAppend(a: seq<OptOp>, b: seq<OptOp>)
    ensures Weight(a + b) == Weight(a) + Weight(b)
    decreases |b|
  {
    if b == [] {
      assert a + b == a;
    } else {
      assert (a + b)[..|a + b| - 1] == a + b[..|b| - 1];
      assert (a + b)[|a + b| - 1] == b[|b| - 1];
      WeightAppend(a, b[..|b| - 1]);
    }
  }

  /** The rules, tried in order; the first that fires. */
  function Fire(compiled: seq<OptOp>, unseen: Unseen): (r: Option<seq<OptOp>>)
    ensures r.Some? ==> |compiled| >= 2 && 1 <= |r.value| <= 2
  {
    if SvarLvar(compiled).Some? then SvarLvar(compiled)
    else if PconstAdd(compiled).Some? then PconstAdd(compiled)
    else DropPure(compiled, unseen)
  }

  lemma WeightPair(x: OptOp, y: OptOp)
    ensures Weight([x]) == W(x) && Weight([x, y]) == W(x) + W(y)
  {
    assert [x][..0] == [];
    assert [x, y][..1] == [x];
  }

  /** A rule that fires leaves less work. */
  lemma FireShrinks(compiled: seq<OptOp>, q: seq<OptOp>, unseen: Unseen)
    requires Fire(compiled, unseen).Some?
    ensures Weight(compiled[..|compiled| - 2]) + Weight(q + Fire(compiled, unseen).value) < Weight(compiled) + Weight(q)
  {
    var n := |compiled|;
    var pushed := Fire(compiled, unseen).value;
    assert compiled[..n - 1][..n - 2] == compiled[..n - 2];
    assert Weight(compiled) == Weight(compiled[..n - 2]) + W(compiled[n - 2]) + W(compiled[n - 1]);
    WeightPair(pushed[0], DupOp);
    if SvarLvar(compiled).Some? {
      assert pushed == [pushed[0], DupOp] && W(pushed[0]) == 1 && W(compiled[n - 1]) == 2;
    } else {
      assert pushed == [pushed[0]];
    }
    WeightAppend(q, pushed);
  }

  /** The loop of `optimize` from the compiled list `c` and the queue `q`
      (whose last element is taken next): what it returns. It ends once no
      rule fires and the queue is empty; the output is then never longer
      than what was in play, and no rule fires at its end. */
  function Run(c: seq<OptOp>, q: seq<OptOp>, unseen: Unseen): (r: seq<OptOp>)
    ensures |r| <= |c| + |q|
    ensures Fire(r, unseen).None?
    decreases Weight(c) + Weight(q), |q|
  {
    match Fire(c, unseen)
    case Some(pushed) =>
      FireShrinks(c, q, unseen);
      Run(c[..|c| - 2], q + pushed, unseen)
    case None =>
      if q == [] then c
      else
        WeightAppend(c, [q[|q| - 1]]);
        Run(c + [q[|q| - 1]], q[..|q| - 1], unseen)
  }

  /** Nothing fires: the next queued operation is compiled. */
  lemma RunMoves(c: seq<OptOp>, q: seq<OptOp>, x: OptOp, unseen: Unseen)
    requires Fire(c, unseen).None?
    ensures Run(c, q + [x], unseen) == Run(c + [x], q, unseen)
  {
    assert (q + [x])[..|q|] == q;
  }

  /** A rule fires: the two operations go back off the compiled list and
      what replaces them is queued. */
  lemma RunRewrites(c: seq<OptOp>, last2: seq<OptOp>, q: seq<OptOp>, unseen: Unseen)
    requires |last2| == 2 && Fire(c + last2, unseen).Some?
    ensures Run(c + last2, q, unseen) == Run(c, q + Fire(c + last2, unseen).value, unseen)
  {
    assert (c + last2)[..|c|] == c;
  }

  /** One turn of the loop when a rule fires, in general. */
  lemma RunFires(c: seq<OptOp>, q: seq<OptOp>, unseen: Unseen)
    requires Fire(c, unseen).Some?
    ensures Run(c, q, unseen) == Run(c[..|c| - 2], q + Fire(c, unseen).value, unseen)
    ensures Weight(c[..|c| - 2]) + Weight(q + Fire(c, unseen).value) < Weight(c) + Weight(q)
  {
    FireShrinks(c, q, unseen);
  }

  /** `optimize`, as a value: the operations are queued reversed, so the
      first is taken first. */
  function Optimized(ops: seq<OptOp>, unseen: Unseen): (r: seq<OptOp>)
    ensures |r| <= |ops|
  {
    Run([], Reverse(ops), unseen)
  }

  /** What a rule method did to the two lists: with `rule` fired, the last
      two compiled operations are gone and `rule`'s operations queued;
      otherwise nothing changed. */
  predicate Rewritten(c0: seq<OptOp>, q0: seq<OptOp>, c1: seq<OptOp>, q1: seq<OptOp>, rule: Option<seq<OptOp>>) {
    if rule.Some? then |c0| >= 2 && c1 == c0[..|c0| - 2] && q1 == q0 + rule.value
    else c1 == c0 && q1 == q0
  }

  /** `OptimizationCtx`: the operations compiled so far, and the queue,
      whose end is taken next. */
  class OptimizationCtx {
    var compiled: seq<OptOp>
    var queue: seq<OptOp>

    constructor (ops: seq<OptOp>)
      ensures compiled == [] && queue == ops
    {
      compiled, queue := [], ops;
    }

    /** `take`: pops the last compiled operation. */
    method Take() returns (r: Option<OptOp>)
      modifies this
      ensures |old(compiled)| == 0 ==> r.None? && compiled == old(compiled)
      ensures |old(compiled)| > 0 ==> r == Some(old(compiled)[|old(compiled)| - 1]) && compiled == old(compiled)[..|old(compiled)| - 1]
      ensures queue == old(queue)
    {
      if |compiled| == 0 {
        return None;
      }
      r := Some(compiled[|compiled| - 1]);
      compiled := compiled[..|compiled| - 1];
    }

    /** `queue`: one more operation at the end of the queue. */
    method Queue(op: OptOp)
      modifies this
      ensures queue == old(queue) + [op] && compiled == old(compiled)
    {
      queue := queue + [op];
    }

    /** Both `take` calls of a rule that fired. */
    method TakeTwo()
      requires |compiled| >= 2
      modifies this
      ensures compiled == old(compiled)[..|old(compiled)| - 2] && queue == old(queue)
    {
      var _ := Take();
      var _ := Take();
    }
  }

  /** `optimize_svar_lvar`. */
  method OptimizeSvarLvar(ctx: OptimizationCtx) returns (fired: bool)
    modifies ctx
    ensures fired <==> SvarLvar(old(ctx.compiled)).Some?
    ensures Rewritten(old(ctx.compiled), old(ctx.queue), ctx.compiled, ctx.queue, SvarLvar(old(ctx.compiled)))
  {
    var load := LookAt(ctx.compiled, 1);
    if !IsLocalLoad(load) {
      return false;
    }
    var store := LookAt(ctx.compiled, 2);
    if !IsLocalStore(store) {
      return false;
    }
    var mode := load.value.ins.op.mode;
    if mode != store.value.ins.op.mode {
      return false;
    }
    var idx := load.value.ins.idx;
    if idx != store.value.ins.idx {
      return false;
    }
    ctx.TakeTwo();
    ctx.Queue(LocalOp(StackLocal.StackLocalInstruction(StackLocal.STORE(mode), idx)));
    ctx.Queue(DupOp);
    fired := true;
  }

  /** `optimize_pconst_add`. */
  method OptimizePconstAdd(ctx: OptimizationCtx) returns (fired: bool)
    modifies ctx
    ensures fired <==> PconstAdd(old(ctx.compiled)).Some?
    ensures Rewritten(old(ctx.compiled), old(ctx.queue), ctx.compiled, ctx.queue, PconstAdd(old(ctx.compiled)))
  {
    var alu := LookAt(ctx.compiled, 1);
    if !(alu.Some? && alu.value.AluOp?) {
      return false;
    }
    var isSub: bool;
    if alu.value.alu == AluOperation.ADD {
      isSub := false;
    } else if alu.value.alu == SUB {
      isSub := true;
    } else {
      return false;
    }
    var cons := LookAt(ctx.compiled, 2);
    if !(cons.Some? && cons.value.ConstOp?) {
      return false;
    }
    if cons.value.doAdd {
      return false;
    }
    var v := if isSub then WrapSub(0, cons.value.val) else cons.value.val;
    ctx.TakeTwo();
    ctx.Queue(ConstOp(v, true));
    fired := true;
  }

  /** `optimize_drop_pure`. */
  method OptimizeDropPure(ctx: OptimizationCtx, unseen: Unseen) returns (fired: bool)
    modifies ctx
    ensures fired <==> DropPure(old(ctx.compiled), unseen).Some?
    ensures Rewritten(old(ctx.compiled), old(ctx.queue), ctx.compiled, ctx.queue, DropPure(old(ctx.compiled), unseen))
  {
    var drop := LookAt(ctx.compiled, 1);
    if !(drop.Some? && drop.value.DropOp?) {
      return false;
    }
    var cnt := drop.value.cnt as nat;
    var dropped := LookAt(ctx.compiled, 2);
    if dropped.None? {
      return false;
    }
    var sig := Sig(dropped.value, unseen);
    if !Unflagged(sig) || sig.pushes > cnt {
      return false;
    }
    var newDropped := cnt - sig.pushes + sig.takes;
    ctx.TakeTwo();
    ctx.Queue(DropOp(TruncU8(newDropped)));
    fired := true;
  }

  /** The three rule calls of one turn of `optimize`, in order, each tried
      only when the ones before it did not fire. */
  method TryRules(ctx: OptimizationCtx, unseen: Unseen) returns (fired: bool)
    modifies ctx
    ensures fired <==> Fire(old(ctx.compiled), unseen).Some?
    ensures Rewritten(old(ctx.compiled), old(ctx.queue), ctx.compiled, ctx.queue, Fire(old(ctx.compiled), unseen))
  {
    fired := OptimizeSvarLvar(ctx);
    if !fired {
      fired := OptimizePconstAdd(ctx);
    }
    if !fired {
      fired := OptimizeDropPure(ctx, unseen);
    }
  }

  /** `optimize`: the rules are tried in order after every move; when none
      fires the next queued operation is compiled, and when the queue is
      empty too the compiled list is the result. */
  method Optimize(ops: seq<OptOp>, unseen: Unseen) returns (r: seq<OptOp>)
    ensures r == Optimized(ops, unseen)
  {
    var ctx := new OptimizationCtx(ops);
    ctx.queue := Reverse(ctx.queue);
    while true
      invariant Run(ctx.compiled, ctx.queue, unseen) == Optimized(ops, unseen)
      decreases Weight(ctx.compiled) + Weight(ctx.queue), |ctx.queue|
    {
      ghost var c, q := ctx.compiled, ctx.queue;
      var fired := TryRules(ctx, unseen);
      if fired {
        RunFires(c, q, unseen);
        continue;
      }
      if |ctx.queue| > 0 {
        var op := ctx.queue[|ctx.queue| - 1];
        ctx.queue := ctx.queue[..|ctx.queue| - 1];
        ctx.compiled := ctx.compiled + [op];
        WeightAppend(c, [op]);
      } else {
        break;
      }
    }
    r := ctx.compiled;
  }

  // --- Properties of the rewriting ---------------------------------------------

  /** No rule fires at the end of any prefix of `ops`. */
  predicate Quiet(ops: seq<OptOp>, unseen: Unseen) {
    forall k :: 0 <= k <= |ops| ==> Fire(ops[..k], unseen).None?
  }

  lemma ReverseTail<T>(s: seq<T>)
    requires s != []
    ensures Reverse(s)[|s| - 1] == s[0] && Reverse(s)[..|s| - 1] == Reverse(s[1..])
  {
  }

  lemma {:induction false} QuietFrom(ops: seq<OptOp>, k: nat, unseen: Unseen)
    requires Quiet(ops, unseen) && k <= |ops|
    ensures Run(ops[..k], Reverse(ops[k..]), unseen) == ops
    decreases |ops| - k
  {
    assert Fire(ops[..k], unseen).None?;
    if k == |ops| {
      assert ops[k..] == [];
      assert ops[..k] == ops;
    } else {
      var q := Reverse(ops[k..]);
      ReverseTail(ops[k..]);
      assert ops[k..][1..] == ops[k + 1..];
      assert ops[..k] + [ops[k]] == ops[..k + 1];
      QuietFrom(ops, k + 1, unseen);
    }
  }

  /** Operations that match no rule come out unchanged and in order. */
  lemma QuietUnchanged(ops: seq<OptOp>, unseen: Unseen)
    requires Quiet(ops, unseen)
    ensures Optimized(ops, unseen) == ops
  {
    QuietFrom(ops, 0, unseen);
    assert ops[0..] == ops;
  }

  function LocalStore(mode: StackLocal.StackLocalMode, idx: u16): OptOp {
    LocalOp(StackLocal.StackLocalInstruction(StackLocal.STORE(mode), idx))
  }

  function LocalLoad(mode: StackLocal.StackLocalMode, idx: u16): OptOp {
    LocalOp(StackLocal.StackLocalInstruction(StackLocal.LOAD(mode), idx))
  }

  /** A STORE and a LOAD of one local become DUP then that STORE, and only
      when both mode and index agree. */
  lemma SvarLvarRule(c: seq<OptOp>, sm: StackLocal.StackLocalMode, si: u16, lm: StackLocal.StackLocalMode, li: u16, unseen: Unseen)
    ensures var end := c + [LocalStore(sm, si), LocalLoad(lm, li)];
      (sm == lm && si == li ==> Fire(end, unseen) == Some([LocalStore(sm, si), DupOp]))
      && (sm != lm || si != li ==> Fire(end, unseen).None?)
  {
  }

  /** Two operations that end in STORE then LOAD of one local come out as
      DUP then STORE. */
  lemma StoreLoadBecomesDup(mode: StackLocal.StackLocalMode, idx: u16, unseen: Unseen)
    ensures Optimized([LocalStore(mode, idx), LocalLoad(mode, idx)], unseen) == [DupOp, LocalStore(mode, idx)]
  {
    var s, l := LocalStore(mode, idx), LocalLoad(mode, idx);
    assert Reverse([s, l]) == [l, s];
    StoreLoadFires(mode, idx, unseen);
    DupThenStore(mode, idx, unseen);
  }

  /** Once STORE and LOAD are both compiled the rule fires and queues
      STORE and DUP. */
  lemma StoreLoadFires(mode: StackLocal.StackLocalMode, idx: u16, unseen: Unseen)
    ensures Run([], [LocalLoad(mode, idx), LocalStore(mode, idx)], unseen) == Run([], [LocalStore(mode, idx), DupOp], unseen)
  {
    var s, l := LocalStore(mode, idx), LocalLoad(mode, idx);
    RunMoves([], [l], s, unseen);
    RunMoves([s], [], l, unseen);
    SvarLvarRule([], mode, idx, mode, idx, unseen);
    RunRewrites([], [s, l], [], unseen);
  }

  /** The queue that the STORE/LOAD rewrite leaves runs out as DUP, STORE. */
  lemma DupThenStore(mode: StackLocal.StackLocalMode, idx: u16, unseen: Unseen)
    ensures Run([], [LocalStore(mode, idx), DupOp], unseen) == [DupOp, LocalStore(mode, idx)]
  {
    var s := LocalStore(mode, idx);
    RunMoves([], [s], DupOp, unseen);
    RunMoves([DupOp], [], s, unseen);
    assert Fire([DupOp, s], unseen).None?;
  }

  /** A constant not in add mode followed by ADD becomes the add-mode
      constant of the value, followed by SUB that of its negation modulo
      2^16; a constant already in add mode is never merged. */
  lemma PconstAddRule(c: seq<OptOp>, v: u16, doAdd: bool, op: AluOperation, unseen: Unseen)
    ensures var end := c + [ConstOp(v, doAdd), AluOp(op)];
      (!doAdd && op == AluOperation.ADD ==> Fire(end, unseen) == Some([ConstOp(v, true)]))
      && (!doAdd && op == SUB ==> Fire(end, unseen) == Some([ConstOp(WrapSub(0, v), true)]))
      && (doAdd || (op != AluOperation.ADD && op != SUB) ==> Fire(end, unseen).None?)
  {
  }

  /** The add-mode constant of a negation adds back to zero with the
      constant's value: SUB of `v` is adding `-v`. */
  lemma NegationCancels(v: u16)
    ensures WrapAdd(WrapSub(0, v), v) == 0
  {
  }

  /** DROP of `n` after `x` fires exactly when `x` has no flags and pushes
      at most `n`; then one DROP of `n - pushes + takes` (in eight bits)
      replaces both. */
  lemma DropPureRule(c: seq<OptOp>, x: OptOp, n: u8, unseen: Unseen)
    ensures var end := c + [x, DropOp(n)];
      var sig := Sig(x, unseen);
      (Fire(end, unseen).Some? <==> Unflagged(sig) && sig.pushes <= n as nat)
      && (Fire(end, unseen).Some? ==> Fire(end, unseen) == Some([DropOp(TruncU8(n as nat - sig.pushes + sig.takes))]))
  {
  }

  /** The operations of `PCONST 123; PCONST 109; ADD; DROP`, with a plain
      constant taking nothing and pushing one value, an add-mode constant
      taking one and pushing one, and DROP dropping one value: the second
      constant and the ADD merge, the DROP then swallows the merged constant
      and then the first constant, and what remains is a DROP of nothing,
      which leaves the stack empty. */
  lemma DropTest(unseen: Unseen)
    requires unseen(ConstOp(123, false)) == Plain(0, 1)
    requires unseen(ConstOp(109, true)) == Plain(1, 1)
    ensures Optimized([ConstOp(123, false), ConstOp(109, false), AluOp(AluOperation.ADD), DropOp(1)], unseen) == [DropOp(0)]
  {
    var a, b, add, d1 := ConstOp(123, false), ConstOp(109, false), AluOp(AluOperation.ADD), DropOp(1);
    assert Reverse([a, b, add, d1]) == [d1, add, b, a];
    DropTestMerge(unseen);
    DropTestDrops(unseen);
  }

  /** The first three moves of that run, and the merge of the second
      constant with the ADD. */
  lemma DropTestMerge(unseen: Unseen)
    ensures var a, b, add, d1 := ConstOp(123, false), ConstOp(109, false), AluOp(AluOperation.ADD), DropOp(1);
      Run([], [d1, add, b, a], unseen) == Run([a, ConstOp(109, true)], [d1], unseen)
  {
    var a, b, add, d1 := ConstOp(123, false), ConstOp(109, false), AluOp(AluOperation.ADD), DropOp(1);
    var b' := ConstOp(109, true);
    assert [d1, add, b] + [a] == [d1, add, b, a] && [] + [a] == [a];
    RunMoves([], [d1, add, b], a, unseen);
    assert [d1, add] + [b] == [d1, add, b] && [a] + [b] == [a, b];
    RunMoves([a], [d1, add], b, unseen);
    assert Fire([a, b], unseen).None?;
    assert [d1] + [add] == [d1, add] && [a, b] + [add] == [a] + [b, add];
    RunMoves([a, b], [d1], add, unseen);
    PconstAddRule([a], 109, false, AluOperation.ADD, unseen);
    RunRewrites([a], [b, add], [d1], unseen);
    assert Fire([a], unseen).None?;
    assert [a] + [b'] == [a, b'];
    RunMoves([a], [d1], b', unseen);
  }

  /** The DROP swallows the merged constant, which took one value: DROP of
      one is queued again. */
  lemma DropTestDrops(unseen: Unseen)
    requires unseen(ConstOp(123, false)) == Plain(0, 1)
    requires unseen(ConstOp(109, true)) == Plain(1, 1)
    ensures Run([ConstOp(123, false), ConstOp(109, true)], [DropOp(1)], unseen) == [DropOp(0)]
  {
    var a, b', d1 := ConstOp(123, false), ConstOp(109, true), DropOp(1);
    assert Fire([a, b'], unseen).None?;
    assert [] + [d1] == [d1] && [a, b'] + [d1] == [a] + [b', d1];
    RunMoves([a, b'], [], d1, unseen);
    DropPureRule([a], b', 1, unseen);
    assert TruncU8(1) == 1;
    RunRewrites([a], [b', d1], [], unseen);
    DropTestLast(unseen);
  }

  /** Then it swallows the first constant, which took nothing. */
  lemma DropTestLast(unseen: Unseen)
    requires unseen(ConstOp(123, false)) == Plain(0, 1)
    ensures Run([ConstOp(123, false)], [DropOp(1)], unseen) == [DropOp(0)]
  {
    var a, d1, d0 := ConstOp(123, false), DropOp(1), DropOp(0);
    assert Fire([a], unseen).None?;
    assert [] + [d1] == [d1] && [a] + [d1] == [] + [a, d1];
    RunMoves([a], [], d1, unseen);
    DropPureRule([], a, 1, unseen);
    assert TruncU8(0) == 0;
    RunRewrites([], [a, d1], [], unseen);
    assert [] + [d0] == [d0];
    RunMoves([], [], d0, unseen);
    assert Fire([d0], unseen).None?;
  }
}
