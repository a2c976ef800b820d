// What the assembler's instruction objects compile to. The mnemonic-level
// ALU and MEM instructions (easycpu_lib/src/asm/alu.rs and mem.rs) are not
// part of this model: their lowering to `cpu::Instruction` is kept symbolic,
// one `AluWord` or `MemWord` per instruction, so that every compiled program
// is a sequence of `Word`s and its length is the number of machine words.
module Words {
  import opened Base
  import opened Cpu

  /** ALU mnemonics the modelled files emit. */
  datatype AluOperation = ADD | AND | SUB | MOV | INC | DEC

  /** MEM mnemonics the modelled files emit. */
  datatype MemOperation = LOAD | STORE | LADD | LSUB

  /** The three optional flag letters of an ALU (`x y o`) or MEM (`h l s`) instruction. */
  datatype Flags = Flags(first: bool, second: bool, third: bool)

  const NoFlags := Flags(false, false, false)

  datatype Word =
    | Machine(ins: Instruction)
    | AluWord(aluOp: AluOperation, aluFlags: Flags, dst: Register, srcA: Register, srcB: Register)
    | MemWord(memOp: MemOperation, memFlags: Flags, dst: Register, addr: Register, shift: i8)

  function Alu(op: AluOperation, dst: Register, a: Register, b: Register): Word {
    AluWord(op, NoFlags, dst, a, b)
  }

  function Mem(op: MemOperation, dst: Register, addr: Register, shift: i8): Word {
    MemWord(op, NoFlags, dst, addr, shift)
  }

  function Custom(v: u16): Word { Machine(CUSTOM(v)) }
}
