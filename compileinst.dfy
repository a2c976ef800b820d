// The mutable compile context of easycpu_lib/src/compile/inst.rs and its
// `compile_instructions`, which compiles a list of instructions one after
// another against that context. What an instruction's `compile` does is not
// part of this model: it is a parameter that maps the context's value to a
// result and the context's new value.
module CompileInst {
  import opened Base
  import opened Cpu
  import opened Errors

  datatype ContextValue = ContextValue(
    currentPc: u16,
    labelMap: map<(nat, string), Option<u16>>,
    scopeStack: seq<nat>,
    instructions: seq<Instruction>)

  /** One instruction's `compile`. */
  type Step<!I> = (I, ContextValue) -> (Result<(), CompileError>, ContextValue)

  /** `instruct`. */
  function Instructed(v: ContextValue, ins: Instruction): ContextValue {
    v.(instructions := v.instructions + [ins], currentPc := WrapAdd(v.currentPc, 1))
  }

  /** `patch_instruct`. */
  function Patched(v: ContextValue, pc: u16, ins: Instruction): ContextValue
    requires (pc as int) < |v.instructions|
  {
    v.(instructions := v.instructions[pc := ins])
  }

  /** `instruct` appends exactly one instruction and advances the address by
      one; `patch_instruct` changes one existing slot and nothing else. */
  lemma InstructMeaning(v: ContextValue, ins: Instruction, pc: u16, patch: Instruction)
    ensures Instructed(v, ins).instructions == v.instructions + [ins]
    ensures (v.currentPc as int) < 0xFFFF ==> Instructed(v, ins).currentPc as int == v.currentPc as int + 1
    ensures (pc as int) < |v.instructions| ==>
      var w := Patched(v, pc, patch);
      |w.instructions| == |v.instructions| && w.instructions[pc] == patch
      && (forall k :: 0 <= k < |v.instructions| && k != pc as int ==> w.instructions[k] == v.instructions[k])
      && w.currentPc == v.currentPc && w.labelMap == v.labelMap && w.scopeStack == v.scopeStack
  {
  }

  /** `compile_instructions` on values: each element compiled against the
      context the previous one left, up to and including the first that
      fails. */
  function CompileAll<I>(items: seq<I>, v: ContextValue, step: Step<I>): (Result<(), CompileError>, ContextValue)
    decreases |items|
  {
    if items == [] then (Ok(()), v)
    else
      var (r, w) := step(items[0], v);
      if r.Err? then (r, w) else CompileAll(items[1..], w, step)
  }

  /** The context after the first `k` elements, each compiled against the
      context the one before it left. */
  function After<I>(items: seq<I>, v: ContextValue, step: Step<I>, k: nat): ContextValue
    requires k <= |items|
    decreases k
  {
    if k == 0 then v else step(items[k - 1], After(items, v, step, k - 1)).1
  }

  /** The elements up to `k` all compile. */
  predicate AllOk<I>(items: seq<I>, v: ContextValue, step: Step<I>, k: nat)
    requires k <= |items|
  {
    forall j :: 0 <= j < k ==> step(items[j], After(items, v, step, j)).0.Ok?
  }

  lemma {:induction false} AfterSuffix<I>(items: seq<I>, v: ContextValue, step: Step<I>, k: nat)
    requires 0 < |items| && k < |items|
    ensures After(items[1..], step(items[0], v).1, step, k) == After(items, v, step, k + 1)
    decreases k
  {
    if k > 0 {
      AfterSuffix(items, v, step, k - 1);
    }
  }

  /** The elements compile in order, each against what the one before left;
      the result is `Ok` exactly when every one of them compiles, and then
      the context is the last one's; otherwise the result is the first
      failure's error, the context is what that failing element left, and the
      elements after it are not compiled. */
  lemma {:induction false} CompileAllMeaning<I>(items: seq<I>, v: ContextValue, step: Step<I>)
    ensures CompileAll(items, v, step).0.Ok? <==> AllOk(items, v, step, |items|)
    ensures CompileAll(items, v, step).0.Ok? ==> CompileAll(items, v, step).1 == After(items, v, step, |items|)
    ensures CompileAll(items, v, step).0.Err? ==> exists k ::
      && 0 <= k < |items| && AllOk(items, v, step, k)
      && CompileAll(items, v, step) == step(items[k], After(items, v, step, k))
    decreases |items|
  {
    if items != [] {
      var w := step(items[0], v).1;
      var rest := items[1..];
      CompileAllMeaning(rest, w, step);
      forall j | 0 <= j < |rest|
        ensures After(rest, w, step, j) == After(items, v, step, j + 1) && rest[j] == items[j + 1]
      {
        AfterSuffix(items, v, step, j);
      }
      if step(items[0], v).0.Ok? {
        assert AllOk(items, v, step, |items|) <==> AllOk(rest, w, step, |rest|) by {
          assert forall j :: 1 <= j < |items| ==> items[j] == rest[j - 1];
        }
        if CompileAll(rest, w, step).0.Ok? {
          AfterSuffix(items, v, step, |rest|);
        } else {
          var k :| 0 <= k < |rest| && AllOk(rest, w, step, k) && CompileAll(rest, w, step) == step(rest[k], After(rest, w, step, k));
          assert AllOk(items, v, step, k + 1) by {
            assert forall j :: 1 <= j < k + 1 ==> items[j] == rest[j - 1];
          }
        }
      } else {
        assert AllOk(items, v, step, 0);
      }
    }
  }

  class CompileContext {
    var currentPc: u16
    var labelMap: map<(nat, string), Option<u16>>
    var scopeStack: seq<nat>
    var instructions: seq<Instruction>

    function Value(): ContextValue
      reads this
    {
      ContextValue(currentPc, labelMap, scopeStack, instructions)
    }

    method Instruct(ins: Instruction)
      modifies this
      ensures Value() == Instructed(old(Value()), ins)
    {
      instructions := instructions + [ins];
      currentPc := WrapAdd(currentPc, 1);
    }

    /** `patch_instruct`; a slot that does not exist makes the source panic. */
    method PatchInstruct(pc: u16, ins: Instruction)
      requires (pc as int) < |instructions|
      modifies this
      ensures Value() == Patched(old(Value()), pc, ins)
    {
      instructions := instructions[pc := ins];
    }

    method Assign(v: ContextValue)
      modifies this
      ensures Value() == v
    {
      currentPc, labelMap, scopeStack, instructions := v.currentPc, v.labelMap, v.scopeStack, v.instructions;
    }

    /** `compile_instructions`. */
    method CompileInstructions<I>(items: seq<I>, step: Step<I>) returns (r: Result<(), CompileError>)
      modifies this
      ensures (r, Value()) == CompileAll(items, old(Value()), step)
    {
      var i := 0;
      while i < |items|
        invariant 0 <= i <= |items|
        invariant CompileAll(items, old(Value()), step) == CompileAll(items[i..], Value(), step)
      {
        var (res, next) := step(items[i], Value());
        assert items[i..][1..] == items[i + 1..];
        Assign(next);
        if res.Err? {
          return res;
        }
        i := i + 1;
      }
      return Ok(());
    }
  }
}
