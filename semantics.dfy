// A reference meaning for the words the assembler emits, used to state what
// a macro expansion achieves. The machine's decoder and executor are not part
// of this model, so the meaning of each mnemonic is the one its name and its
// use in the expansions give it:
//   ADD d,a,b: d := a + b   SUB d,a,b: d := a - b   AND d,a,b: d := a & b (not given)
//   MOV d,a,_: d := a       INC d,a,_: d := a + 1   DEC d,a,_: d := a - 1
//   LOAD d,[a+k]: d := M[a+k]   STORE d,[a+k]: M[a+k] := d
//   LADD d,[a+k]: d := d + M[a+k]   LSUB d,[a+k]: d := d - M[a+k]
//   BRANCH c,k with flags e/g/l: jump by k when c (as a signed 16-bit value)
//     is zero and e is set, positive and g is set, or negative and l is set.
// All arithmetic wraps at 16 bits. Reading PC gives the address of the
// executing word; writing PC jumps there instead of advancing (as
// easycpu_lib/src/exec.rs does). A data word whose opcode nibble is zero
// executes as NOP, which is what lets a 12-bit constant sit in the
// instruction stream. The program image is read-only: stores go to data
// memory, and a load from an address of the image reads the data word there.
module Semantics {
  import opened Base
  import opened Cpu
  import opened Words

  /** The registers R2, R3, R4, R5, LP, SP, in that order (exec.rs). */
  datatype State = State(pc: u16, regs: seq<u16>, mem: map<u16, u16>)

  predicate Valid(s: State) { |s.regs| == 6 }

  function Index(r: Register): (i: nat)
    requires r != ZX && r != PC
    ensures i < 6
  {
    match r
    case R2 => 0 case R3 => 1 case R4 => 2 case R5 => 3 case LP => 4 case SP => 5
  }

  function Get(s: State, r: Register): u16
    requires Valid(s)
  {
    match r
    case ZX => 0
    case PC => s.pc
    case _ => s.regs[Index(r)]
  }

  /** A register write; the zero register discards it. */
  function Set(s: State, r: Register, v: u16): (t: State)
    requires Valid(s)
    ensures Valid(t) && t.mem == s.mem
    ensures r != ZX ==> Get(t, r) == v
    ensures forall q :: q != r && q != PC ==> Get(t, q) == Get(s, q)
    ensures r != PC ==> t.pc == s.pc
  {
    match r
    case ZX => s
    case PC => s.(pc := v)
    case _ => s.(regs := s.regs[Index(r) := v])
  }

  function MemAt(mem: map<u16, u16>, a: u16): u16 {
    if a in mem then mem[a] else 0
  }

  type Image = map<u16, Word>

  /** `block` is laid out in `image` from address `base` on. */
  predicate Holds(image: Image, block: seq<Word>, base: u16) {
    base as int + |block| <= 0x1_0000
    && forall k :: 0 <= k < |block| ==> At(base, k) in image && image[At(base, k)] == block[k]
  }

  function Read(image: Image, s: State, a: u16): u16 {
    if a in image && image[a].Machine? && image[a].ins.CUSTOM? then image[a].ins.raw else MemAt(s.mem, a)
  }

  /** `a + k`, wrapping at 16 bits. */
  function Offset(a: u16, k: i8): (r: u16)
    ensures r as int == if a as int + k as int < 0 then a as int + k as int + 0x1_0000
                        else if a as int + k as int >= 0x1_0000 then a as int + k as int - 0x1_0000
                        else a as int + k as int
  {
    ((a as int + k as int) % 0x1_0000) as u16
  }

  predicate Taken(b: BranchInstruction, v: u16) {
    (b.eq && v == 0) || (b.gt && 0 < v < 0x8000) || (b.lt && v >= 0x8000)
  }

  /** Complementing all three flags complements the branch condition. */
  lemma TakenComplement(b: BranchInstruction, v: u16)
    ensures Taken(b.(eq := !b.eq, gt := !b.gt, lt := !b.lt), v) <==> !Taken(b, v)
  {
  }

  /** Writes `v` to `d` and moves on: to `v` itself when `d` is PC. */
  function WriteBack(s: State, d: Register, v: u16): (t: State)
    requires Valid(s)
    ensures Valid(t) && t.mem == s.mem
    ensures d != ZX ==> Get(t, d) == v
    ensures d != PC ==> t.pc == WrapAdd(s.pc, 1)
    ensures forall q :: q != d && q != PC ==> Get(t, q) == Get(s, q)
  {
    if d == PC then s.(pc := v) else Set(s, d, v).(pc := WrapAdd(s.pc, 1))
  }

  function AluValue(op: AluOperation, a: u16, b: u16): Option<u16> {
    match op
    case ADD => Some(WrapAdd(a, b))
    case SUB => Some(WrapSub(a, b))
    case MOV => Some(a)
    case INC => Some(WrapAdd(a, 1))
    case DEC => Some(WrapSub(a, 1))
    case AND => None
  }

  /** One step: the word at `s.pc` executed, or `None` when there is no word
      there or its meaning is not given here. */
  function Step(image: Image, s: State): (r: Option<State>)
    requires Valid(s)
    ensures r.Some? ==> Valid(r.value)
  {
    if s.pc !in image then None
    else
      match image[s.pc]
      case Machine(NOP) => Some(s.(pc := WrapAdd(s.pc, 1)))
      case Machine(CUSTOM(v)) => if v < 0x1000 then Some(s.(pc := WrapAdd(s.pc, 1))) else None
      case Machine(BRANCH(b)) =>
        if Taken(b, Get(s, b.cond)) then Some(s.(pc := Offset(s.pc, b.shift)))
        else Some(s.(pc := WrapAdd(s.pc, 1)))
      case Machine(_) => None
      case AluWord(op, f, d, a, b) =>
        if f != NoFlags then None
        else
          (match AluValue(op, Get(s, a), Get(s, b))
           case None => None
           case Some(v) => Some(WriteBack(s, d, v)))
      case MemWord(op, f, d, a, k) =>
        if f != NoFlags then None
        else
          var ea := Offset(Get(s, a), k);
          match op
          case LOAD => Some(WriteBack(s, d, Read(image, s, ea)))
          case LADD => Some(WriteBack(s, d, WrapAdd(Get(s, d), Read(image, s, ea))))
          case LSUB => Some(WriteBack(s, d, WrapSub(Get(s, d), Read(image, s, ea))))
          case STORE => Some(s.(mem := s.mem[ea := Get(s, d)], pc := WrapAdd(s.pc, 1)))
  }

  /** Exactly `n` steps. */
  function Steps(image: Image, s: State, n: nat): (r: Option<State>)
    requires Valid(s)
    ensures r.Some? ==> Valid(r.value)
    decreases n
  {
    if n == 0 then Some(s)
    else
      match Step(image, s)
      case None => None
      case Some(t) => Steps(image, t, n - 1)
  }

  lemma {:induction false} StepsAdd(image: Image, s: State, n: nat, m: nat)
    requires Valid(s)
    ensures Steps(image, s, n + m) ==
      match Steps(image, s, n)
      case None => None
      case Some(t) => Steps(image, t, m)
    decreases n
  {
    if n > 0 {
      match Step(image, s)
      case None =>
      case Some(t) => StepsAdd(image, t, n - 1, m);
    }
  }

  /** `StepsAdd` once the first `n` steps are known to succeed. */
  lemma StepsAfter(image: Image, s: State, n: nat, m: nat, total: nat)
    requires Valid(s) && Steps(image, s, n).Some? && total == n + m
    ensures Steps(image, s, total) == Steps(image, Steps(image, s, n).value, m)
  {
    StepsAdd(image, s, n, m);
  }

  /** The address `k` words past `base` inside a block that fits memory. */
  function At(base: u16, k: nat): u16
    requires base as int + k < 0x1_0000
  {
    (base as int + k) as u16
  }

  lemma HoldsAt(image: Image, block: seq<Word>, base: u16, k: nat)
    requires Holds(image, block, base) && k < |block|
    ensures At(base, k) in image && image[At(base, k)] == block[k]
  {
  }

  /** The tail of a laid-out block is laid out right after its head. */
  lemma HoldsSuffix(image: Image, head: seq<Word>, tail: seq<Word>, base: u16)
    requires Holds(image, head + tail, base) && base as int + |head| < 0x1_0000
    ensures Holds(image, tail, At(base, |head|))
  {
    var b := At(base, |head|);
    forall k | 0 <= k < |tail|
      ensures At(b, k) in image && image[At(b, k)] == tail[k]
    {
      var j := |head| + k;
      assert At(b, k) == At(base, j);
      assert (head + tail)[j] == tail[k];
    }
  }

  /** A block laid out at `base` holds its head there too. */
  lemma HoldsPrefix(image: Image, head: seq<Word>, tail: seq<Word>, base: u16)
    requires Holds(image, head + tail, base)
    ensures Holds(image, head, base)
  {
    forall k | 0 <= k < |head|
      ensures At(base, k) in image && image[At(base, k)] == head[k]
    {
      assert (head + tail)[k] == head[k];
    }
  }

  lemma Split(image: Image, head: seq<Word>, tail: seq<Word>, base: u16)
    requires Holds(image, head + tail, base)
    ensures Holds(image, head, base) && base as int + |head| <= 0x1_0000
    ensures base as int + |head| < 0x1_0000 ==> Holds(image, tail, At(base, |head|))
  {
    HoldsPrefix(image, head, tail, base);
    if base as int + |head| < 0x1_0000 { HoldsSuffix(image, head, tail, base); }
  }

  // --- Single steps of the words the macros are built from -----------------

  /** No register outside `changed` differs between `s` and `t` (PC aside). */
  predicate Keeps(s: State, t: State, changed: set<Register>)
    requires Valid(s) && Valid(t)
  {
    forall q :: q !in changed && q != PC ==> Get(t, q) == Get(s, q)
  }

  lemma KeepsTrans(s: State, t: State, u: State, a: set<Register>, b: set<Register>)
    requires Valid(s) && Valid(t) && Valid(u) && Keeps(s, t, a) && Keeps(t, u, b)
    ensures Keeps(s, u, a + b)
  {
  }

  /** `n` steps from `s` run a block of `len` words that leaves `v` in
      register `r` and changes no other register and no memory cell. */
  predicate Sets(image: Image, s: State, n: nat, len: nat, r: Register, v: u16)
    requires Valid(s)
  {
    var t := Steps(image, s, n);
    t.Some? && t.value.pc as int == s.pc as int + len
    && Get(t.value, r) == v && t.value.mem == s.mem && Keeps(s, t.value, {r})
  }

  /** An address that does not hold a data word of the image, so that a
      load from it reads data memory. */
  predicate DataCell(image: Image, a: u16) {
    !(a in image && image[a].Machine? && image[a].ins.CUSTOM?)
  }

  lemma AluStep(image: Image, s: State, op: AluOperation, d: Register, a: Register, b: Register)
    requires Valid(s) && s.pc in image && image[s.pc] == Alu(op, d, a, b) && op != AluOperation.AND
    ensures Steps(image, s, 1) == Some(WriteBack(s, d, AluValue(op, Get(s, a), Get(s, b)).value))
  {
  }

  lemma LoadStep(image: Image, s: State, d: Register, a: Register, k: i8)
    requires Valid(s) && s.pc in image && image[s.pc] == Mem(MemOperation.LOAD, d, a, k)
    ensures Steps(image, s, 1) == Some(WriteBack(s, d, Read(image, s, Offset(Get(s, a), k))))
  {
  }

  lemma LaddStep(image: Image, s: State, d: Register, a: Register, k: i8)
    requires Valid(s) && s.pc in image && image[s.pc] == Mem(LADD, d, a, k)
    ensures Steps(image, s, 1) == Some(WriteBack(s, d, WrapAdd(Get(s, d), Read(image, s, Offset(Get(s, a), k)))))
  {
  }

  lemma LsubStep(image: Image, s: State, d: Register, a: Register, k: i8)
    requires Valid(s) && s.pc in image && image[s.pc] == Mem(LSUB, d, a, k)
    ensures Steps(image, s, 1) == Some(WriteBack(s, d, WrapSub(Get(s, d), Read(image, s, Offset(Get(s, a), k)))))
  {
  }

  lemma StoreStep(image: Image, s: State, d: Register, a: Register, k: i8)
    requires Valid(s) && s.pc in image && image[s.pc] == Mem(MemOperation.STORE, d, a, k)
    ensures Steps(image, s, 1) == Some(s.(mem := s.mem[Offset(Get(s, a), k) := Get(s, d)], pc := WrapAdd(s.pc, 1)))
  {
  }

  /** Running a block's head and then its tail: once `n` steps have taken
      control to the end of the head, the tail is laid out there and the
      next `m` steps run from it. */
  lemma Then(image: Image, head: seq<Word>, tail: seq<Word>, s: State, n: nat, m: nat)
    requires Valid(s) && Holds(image, head + tail, s.pc) && s.pc as int + |head| + |tail| < 0x1_0000
    requires Steps(image, s, n).Some? && Steps(image, s, n).value.pc as int == s.pc as int + |head|
    ensures Holds(image, tail, Steps(image, s, n).value.pc)
    ensures Holds(image, head, s.pc)
    ensures Steps(image, s, n + m) == Steps(image, Steps(image, s, n).value, m)
  {
    HoldsSuffix(image, head, tail, s.pc);
    HoldsPrefix(image, head, tail, s.pc);
    StepsAdd(image, s, n, m);
  }
}
