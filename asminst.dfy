// The assembler's instruction interface (easycpu_lib/src/asm/inst.rs): the
// read-only compile context, the data and NOP instructions, and
// `compile_instructions`, which compiles a list of instructions against one
// context and stops at the first error.
module AsmInst {
  import opened Base
  import opened Cpu
  import opened Errors
  import opened Words
  import Branch

  /** `CompileContext`: the address of the first emitted word, the label
      table keyed by (scope, name), and the scopes enclosing the instruction. */
  datatype CompileContext = CompileContext(currentPc: u16, labelMap: map<(nat, string), Option<u16>>, scopeStack: seq<nat>)

  /** The instruction objects every macro expansion is built from. */
  datatype Leaf =
    | AluLeaf(aluOp: AluOperation, dst: Register, srcA: Register, srcB: Register)
    | MemLeaf(memOp: MemOperation, dst: Register, addr: Register, shift: i8)
    | BranchLeaf(branch: BranchInstruction)
    | CustomLeaf(val: u16)
    | CustomMultiLeaf(vals: seq<u16>)
    | NopLeaf

  /** `CustomMultiInstruction::compile`: one CUSTOM word per value. */
  function CompileCustomMulti(vals: seq<u16>): (r: seq<Word>)
    ensures |r| == |vals|
    ensures forall k :: 0 <= k < |vals| ==> r[k].Machine? && Encode(r[k].ins) == Ok(U16ToWord(vals[k]))
  {
    if vals == [] then [] else [Custom(vals[0])] + CompileCustomMulti(vals[1..])
  }

  /** The compile step of each leaf. `AluInstruction` and `MemInstruction`
      become one symbolic word each; a data word carries its value through
      the encoder unchanged; NOP encodes as the zero word. */
  function CompileLeaf(l: Leaf): (r: Result<seq<Word>, CompileError>)
    ensures l.CustomLeaf? ==> r.Ok? && |r.value| == 1 && r.value[0].Machine? && Encode(r.value[0].ins) == Ok(U16ToWord(l.val))
    ensures l.NopLeaf? ==> r.Ok? && |r.value| == 1 && r.value[0].Machine? && Encode(r.value[0].ins) == Ok(0)
    ensures l.CustomMultiLeaf? ==> r.Ok? && |r.value| == |l.vals|
    ensures !l.BranchLeaf? ==> r.Ok?
    ensures l.BranchLeaf? ==> (r.Ok? <==> -31 <= l.branch.shift <= 31)
  {
    match l
    case AluLeaf(op, d, a, b) => Ok([Alu(op, d, a, b)])
    case MemLeaf(op, d, a, s) => Ok([Mem(op, d, a, s)])
    case BranchLeaf(b) => Branch.Compile(b)
    case CustomLeaf(v) => Ok([Custom(v)])
    case CustomMultiLeaf(vs) => Ok(CompileCustomMulti(vs))
    case NopLeaf => Ok([Machine(NOP)])
  }

  /** The compiled outputs of a list whose every element compiled. */
  function OkValues<I, W, E>(items: seq<I>, compile: I -> Result<seq<W>, E>): seq<seq<W>>
    requires forall k :: 0 <= k < |items| ==> compile(items[k]).Ok?
  {
    if items == [] then [] else [compile(items[0]).value] + OkValues(items[1..], compile)
  }

  /** The index of the first element that fails to compile, or the length. */
  function FirstFailure<I, W, E>(items: seq<I>, compile: I -> Result<seq<W>, E>): (k: nat)
    ensures k <= |items|
    ensures forall j :: 0 <= j < k ==> compile(items[j]).Ok?
    ensures k < |items| ==> compile(items[k]).Err?
  {
    if items == [] then 0
    else if compile(items[0]).Err? then 0
    else 1 + FirstFailure(items[1..], compile)
  }

  /** `compile_instructions`: every element compiled against the same
      context, the outputs concatenated in order; the first error wins. */
  function CompileInstructions<I, W, E>(items: seq<I>, compile: I -> Result<seq<W>, E>): (r: Result<seq<W>, E>)
    ensures r.Ok? <==> forall k :: 0 <= k < |items| ==> compile(items[k]).Ok?
    ensures r.Ok? ==> r.value == Flatten(OkValues(items, compile))
    ensures r.Err? ==> r.error == compile(items[FirstFailure(items, compile)]).error
  {
    if items == [] then Ok([])
    else
      match compile(items[0])
      case Err(e) => Err(e)
      case Ok(first) =>
        assert forall k :: 1 <= k < |items| ==> items[k] == items[1..][k - 1];
        match CompileInstructions(items[1..], compile)
        case Err(e) => Err(e)
        case Ok(rest) => Ok(first + rest)
  }

  /** Compiling a list of leaves: their outputs, in order. */
  function CompileLeaves(ls: seq<Leaf>): (r: Result<seq<Word>, CompileError>)
  {
    CompileInstructions(ls, CompileLeaf)
  }

  /** A leaf that compiles to exactly one word. */
  predicate IsSingle(l: Leaf) {
    !l.CustomMultiLeaf? && (l.BranchLeaf? ==> -31 <= l.branch.shift <= 31)
  }

  /** The word a single-word leaf compiles to. */
  function SingleWord(l: Leaf): (w: Word)
    requires IsSingle(l)
    ensures CompileLeaf(l) == Ok([w])
  {
    match l
    case AluLeaf(op, d, a, b) => Alu(op, d, a, b)
    case MemLeaf(op, d, a, s) => Mem(op, d, a, s)
    case BranchLeaf(b) => Machine(BRANCH(b))
    case CustomLeaf(v) => Custom(v)
    case NopLeaf => Machine(NOP)
  }

  /** A list of single-word leaves compiles word for word. */
  lemma {:induction false} CompileSingleLeaves(ls: seq<Leaf>)
    requires forall k :: 0 <= k < |ls| ==> IsSingle(ls[k])
    ensures CompileLeaves(ls).Ok?
    ensures |CompileLeaves(ls).value| == |ls|
    ensures forall k :: 0 <= k < |ls| ==> CompileLeaves(ls).value[k] == SingleWord(ls[k])
  {
    if ls != [] {
      CompileSingleLeaves(ls[1..]);
      assert CompileLeaves(ls).value == [SingleWord(ls[0])] + CompileLeaves(ls[1..]).value;
    }
  }

  lemma CompilesTo(ls: seq<Leaf>, ws: seq<Word>)
    requires forall k :: 0 <= k < |ls| ==> IsSingle(ls[k])
    requires |ws| == |ls| && forall k :: 0 <= k < |ls| ==> SingleWord(ls[k]) == ws[k]
    ensures CompileLeaves(ls) == Ok(ws)
  {
    CompileSingleLeaves(ls);
    assert CompileLeaves(ls).value == ws;
  }

  /** `compile_instructions` over two sub-instructions whose outputs are
      `a` and `b`: both outputs in order, or the first error. */
  function Join(a: Result<seq<Word>, CompileError>, b: Result<seq<Word>, CompileError>): (r: Result<seq<Word>, CompileError>)
    ensures a.Err? ==> r == a
    ensures a.Ok? && b.Err? ==> r == b
    ensures a.Ok? && b.Ok? ==> r == Ok(a.value + b.value)
  {
    match a
    case Err(e) => Err(e)
    case Ok(x) =>
      match b
      case Err(e) => Err(e)
      case Ok(y) => Ok(x + y)
  }
}
