// The emulator's register and memory file (easycpu_lib/src/exec.rs). The
// instruction decoder and `Instruction::execute` are not part of this model:
// `execute` is a parameter that, given the fetched word and the state it
// sees, lists the register and memory accesses the instruction makes, in
// order; `exec_next` performs them through `set_reg`, `get_mem` and
// `set_mem`.
module Exec {
  import opened Base
  import opened Cpu

  /** `ExecEvent`: the last visible effect, kept for the trace display. */
  datatype ExecEvent = NoEvent | Jump(target: u16) | MemGet(addr: u16, val: u16) | MemSet(addr: u16, val: u16)

  /** Words of memory after `new`. */
  const MemSize: nat := 0x1_0000

  /** The word whose becoming zero stops `run`. */
  const HaltAddress: u16 := 0xFFFF

  /** The slot of `registers` that holds R2..SP. */
  function Slot(r: Register): (i: nat)
    requires r != ZX && r != PC
    ensures i < 6
  {
    match r
    case R2 => 0
    case R3 => 1
    case R4 => 2
    case R5 => 3
    case LP => 4
    case SP => 5
  }

  lemma SlotInjective(r: Register, q: Register)
    requires r != ZX && r != PC && q != ZX && q != PC
    ensures Slot(r) == Slot(q) <==> r == q
  {
  }

  /** The emulator's whole state as a value. */
  datatype CpuValue = CpuValue(pc: u16, registers: seq<u16>, mem: seq<u16>, lastEvent: ExecEvent, jumped: bool)

  predicate Shaped(v: CpuValue) {
    |v.registers| == 6 && |v.mem| == MemSize
  }

  /** `get_reg`. */
  function Reg(v: CpuValue, r: Register): u16
    requires Shaped(v)
  {
    match r
    case ZX => 0
    case PC => v.pc
    case _ => v.registers[Slot(r)]
  }

  /** `set_reg`: ZX ignores the write; PC records a jump. */
  function WithReg(v: CpuValue, r: Register, x: u16): (w: CpuValue)
    requires Shaped(v)
    ensures Shaped(w) && w.mem == v.mem
  {
    match r
    case ZX => v
    case PC => v.(jumped := true, lastEvent := Jump(x), pc := x)
    case _ => v.(registers := v.registers[Slot(r) := x])
  }

  /** The word `get_mem` returns: 0 outside memory. */
  function MemRead(v: CpuValue, a: u16): u16 {
    if (a as int) < |v.mem| then v.mem[a] else 0
  }

  /** `get_mem`'s effect on the state: only the event changes. */
  function WithMemRead(v: CpuValue, a: u16): (w: CpuValue)
    ensures w == v.(lastEvent := MemGet(a, MemRead(v, a)))
  {
    v.(lastEvent := MemGet(a, MemRead(v, a)))
  }

  /** `set_mem`. */
  function WithMem(v: CpuValue, a: u16, x: u16): (w: CpuValue)
    requires Shaped(v)
    ensures Shaped(w)
  {
    v.(lastEvent := MemSet(a, x), mem := v.mem[a := x])
  }

  /** A register reads back what was last written to it, and ZX reads 0
      whatever was written; writing one register leaves every other one and
      memory unchanged. */
  lemma RegReadAfterWrite(v: CpuValue, r: Register, q: Register, x: u16)
    requires Shaped(v)
    ensures Reg(WithReg(v, r, x), q) == (if q == r && r != ZX then x else Reg(v, q))
    ensures WithReg(v, r, x).mem == v.mem
    ensures WithReg(v, r, x).jumped == (v.jumped || r == PC)
  {
    if r != ZX && r != PC && q != ZX && q != PC {
      SlotInjective(r, q);
    }
  }

  /** `set_mem` writes exactly one word. */
  lemma MemReadAfterWrite(v: CpuValue, a: u16, b: u16, x: u16)
    requires Shaped(v)
    ensures MemRead(WithMem(v, a, x), b) == (if a == b then x else MemRead(v, b))
    ensures forall r :: Reg(WithMem(v, a, x), r) == Reg(v, r)
  {
  }

  /** The image after `new`: resized to the memory size (cut or zero-filled),
      with the halt word set. */
  function InitialMem(init: seq<u16>): seq<u16> {
    seq(MemSize, i requires 0 <= i < MemSize => if i == HaltAddress as int then 0xFFFF else if i < |init| then init[i] else 0)
  }

  function Initial(init: seq<u16>): CpuValue {
    CpuValue(0, seq(6, _ => 0), InitialMem(init), NoEvent, false)
  }

  /** `new`: pc and every register 0, the image's words where it has them and
      0 after it, with word 0xFFFF forced to 0xFFFF so that `run` starts. */
  lemma InitialMeaning(init: seq<u16>)
    ensures Shaped(Initial(init))
    ensures forall r :: Reg(Initial(init), r) == 0
    ensures forall a: u16 :: a != HaltAddress ==> MemRead(Initial(init), a) == (if (a as int) < |init| then init[a] else 0)
    ensures MemRead(Initial(init), HaltAddress) == 0xFFFF
    ensures !Initial(init).jumped && Initial(init).lastEvent == NoEvent
  {
  }

  // --- One instruction --------------------------------------------------------

  /** One state access the abstract `execute` makes. Register reads have no
      effect and are not listed. */
  datatype Access = ReadMem(addr: u16) | WriteReg(reg: Register, val: u16) | WriteMem(addr: u16, val: u16)

  type Execute = (u16, CpuValue) -> seq<Access>

  function Perform(v: CpuValue, a: Access): (w: CpuValue)
    requires Shaped(v)
    ensures Shaped(w)
  {
    match a
    case ReadMem(addr) => WithMemRead(v, addr)
    case WriteReg(r, x) => WithReg(v, r, x)
    case WriteMem(addr, x) => WithMem(v, addr, x)
  }

  /** The accesses performed in order. */
  function PerformAll(v: CpuValue, acts: seq<Access>): (w: CpuValue)
    requires Shaped(v)
    ensures Shaped(w)
    decreases |acts|
  {
    if acts == [] then v else Perform(PerformAll(v, acts[..|acts| - 1]), acts[|acts| - 1])
  }

  /** The values written to PC, in order. */
  function PcWrites(acts: seq<Access>): seq<u16>
    decreases |acts|
  {
    if acts == [] then []
    else
      var a := acts[|acts| - 1];
      PcWrites(acts[..|acts| - 1]) + (if a.WriteReg? && a.reg == PC then [a.val] else [])
  }

  function Last(s: seq<u16>): u16
    requires s != []
  {
    s[|s| - 1]
  }

  /** Accesses jump exactly when one of them writes PC, and PC ends at the
      last value written to it. */
  lemma {:induction false} PerformAllPc(v: CpuValue, acts: seq<Access>)
    requires Shaped(v)
    ensures PerformAll(v, acts).jumped == (v.jumped || PcWrites(acts) != [])
    ensures PerformAll(v, acts).pc == (if PcWrites(acts) == [] then v.pc else Last(PcWrites(acts)))
    decreases |acts|
  {
    if acts != [] {
      PerformAllPc(v, acts[..|acts| - 1]);
    }
  }

  /** `exec_next` on values: fetch the word at pc, clear the jump flag and
      event, perform the instruction's accesses, and step pc unless it was
      written. */
  function Next(v: CpuValue, execute: Execute): (w: CpuValue)
    requires Shaped(v)
    ensures Shaped(w)
  {
    var fetched := WithMemRead(v, v.pc);
    var cleared := fetched.(jumped := false, lastEvent := NoEvent);
    var done := PerformAll(cleared, execute(MemRead(v, v.pc), cleared));
    if done.jumped then done else done.(pc := WrapAdd(done.pc, 1))
  }

  /** pc moves to the next word exactly when the instruction did not write
      PC; otherwise it holds the last value written to PC. */
  lemma NextPc(v: CpuValue, execute: Execute)
    requires Shaped(v)
    ensures var acts := execute(MemRead(v, v.pc), v.(jumped := false, lastEvent := NoEvent));
      && (PcWrites(acts) == [] ==> Next(v, execute).pc == WrapAdd(v.pc, 1))
      && (PcWrites(acts) != [] ==> Next(v, execute).pc == Last(PcWrites(acts)))
  {
    var cleared := WithMemRead(v, v.pc).(jumped := false, lastEvent := NoEvent);
    assert cleared == v.(jumped := false, lastEvent := NoEvent);
    PerformAllPc(cleared, execute(MemRead(v, v.pc), cleared));
  }

  /** `run` with at most `fuel` instructions. */
  function RunValue(v: CpuValue, execute: Execute, fuel: nat): (w: CpuValue)
    requires Shaped(v)
    ensures Shaped(w)
    decreases fuel
  {
    if fuel == 0 || v.mem[HaltAddress] == 0 then v else RunValue(Next(v, execute), execute, fuel - 1)
  }

  function NextN(v: CpuValue, execute: Execute, n: nat): (w: CpuValue)
    requires Shaped(v)
    ensures Shaped(w)
    decreases n
  {
    if n == 0 then v else NextN(Next(v, execute), execute, n - 1)
  }

  /** How many instructions `run` executes. */
  function RunLength(v: CpuValue, execute: Execute, fuel: nat): (k: nat)
    requires Shaped(v)
    ensures k <= fuel
    decreases fuel
  {
    if fuel == 0 || v.mem[HaltAddress] == 0 then 0 else 1 + RunLength(Next(v, execute), execute, fuel - 1)
  }

  /** `run` executes instructions until the halt word is 0: it passes only
      through states whose halt word is not 0, and stops at the first state
      whose halt word is 0 unless `fuel` instructions ran first. */
  lemma {:induction false} RunMeaning(v: CpuValue, execute: Execute, fuel: nat)
    requires Shaped(v)
    ensures var k := RunLength(v, execute, fuel);
      && RunValue(v, execute, fuel) == NextN(v, execute, k)
      && (k < fuel ==> NextN(v, execute, k).mem[HaltAddress] == 0)
      && (forall j :: 0 <= j < k ==> NextN(v, execute, j).mem[HaltAddress] != 0)
    decreases fuel
  {
    if fuel > 0 && v.mem[HaltAddress] != 0 {
      var w := Next(v, execute);
      RunMeaning(w, execute, fuel - 1);
      var k := RunLength(w, execute, fuel - 1);
      assert NextN(v, execute, k + 1) == NextN(w, execute, k);
      forall j | 0 <= j < k + 1
        ensures NextN(v, execute, j).mem[HaltAddress] != 0
      {
        if j > 0 {
          assert NextN(v, execute, j) == NextN(w, execute, j - 1);
        }
      }
    }
  }

  // --- The mutable emulator ---------------------------------------------------

  class ExecCpu {
    var pc: u16
    var registers: array<u16>
    var mem: array<u16>
    var lastEvent: ExecEvent
    var jumped: bool

    ghost predicate Valid()
      reads this
    {
      registers.Length == 6 && mem.Length == MemSize && registers != mem
    }

    function Value(): (v: CpuValue)
      requires Valid()
      reads this, registers, mem
      ensures Shaped(v)
    {
      CpuValue(pc, registers[..], mem[..], lastEvent, jumped)
    }

    /** `new`. */
    constructor (init: seq<u16>)
      ensures Valid() && fresh(registers) && fresh(mem)
      ensures Value() == Initial(init)
    {
      pc := 0;
      registers := new u16[6](_ => 0);
      var m := new u16[MemSize](i requires 0 <= i < MemSize => if i < |init| then init[i] else 0);
      m[HaltAddress] := 0xFFFF;
      assert m[..] == InitialMem(init);
      mem := m;
      lastEvent := NoEvent;
      jumped := false;
    }

    method GetReg(r: Register) returns (x: u16)
      requires Valid()
      ensures x == Reg(Value(), r)
    {
      match r
      case ZX => x := 0;
      case PC => x := pc;
      case _ => x := registers[Slot(r)];
    }

    method SetReg(r: Register, x: u16)
      requires Valid()
      modifies this, registers
      ensures Valid() && registers == old(registers) && mem == old(mem)
      ensures Value() == WithReg(old(Value()), r, x)
    {
      match r
      case ZX =>
      case PC =>
        jumped := true;
        lastEvent := Jump(x);
        pc := x;
      case _ =>
        registers[Slot(r)] := x;
    }

    method GetMem(a: u16) returns (x: u16)
      requires Valid()
      modifies this
      ensures Valid() && registers == old(registers) && mem == old(mem)
      ensures x == MemRead(old(Value()), a)
      ensures Value() == WithMemRead(old(Value()), a)
    {
      x := mem[a];
      lastEvent := MemGet(a, x);
    }

    method SetMem(a: u16, x: u16)
      requires Valid()
      modifies this, mem
      ensures Valid() && registers == old(registers) && mem == old(mem)
      ensures Value() == WithMem(old(Value()), a, x)
    {
      lastEvent := MemSet(a, x);
      mem[a] := x;
    }

    /** `exec_next`. */
    method ExecNext(execute: Execute)
      requires Valid()
      modifies this, registers, mem
      ensures Valid() && registers == old(registers) && mem == old(mem)
      ensures Value() == Next(old(Value()), execute)
    {
      var cur := GetMem(pc);
      jumped := false;
      lastEvent := NoEvent;
      var cleared := Value();
      var acts := execute(cur, cleared);
      var i := 0;
      while i < |acts|
        invariant 0 <= i <= |acts|
        invariant Valid() && registers == old(registers) && mem == old(mem)
        invariant Value() == PerformAll(cleared, acts[..i])
      {
        assert acts[..i + 1][..i] == acts[..i];
        match acts[i] {
          case ReadMem(a) =>
            var _ := GetMem(a);
          case WriteReg(r, x) =>
            SetReg(r, x);
          case WriteMem(a, x) =>
            SetMem(a, x);
        }
        i := i + 1;
      }
      assert acts[..i] == acts;
      if !jumped {
        pc := WrapAdd(pc, 1);
      }
    }

    /** `run`, for at most `fuel` instructions. */
    method Run(execute: Execute, fuel: nat)
      requires Valid()
      modifies this, registers, mem
      ensures Valid() && registers == old(registers) && mem == old(mem)
      ensures Value() == RunValue(old(Value()), execute, fuel)
    {
      var left := fuel;
      while left > 0 && mem[HaltAddress] != 0
        invariant Valid() && registers == old(registers) && mem == old(mem)
        invariant RunValue(Value(), execute, left) == RunValue(old(Value()), execute, fuel)
        decreases left
      {
        ExecNext(execute);
        left := left - 1;
      }
    }
  }
}
