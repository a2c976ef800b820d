// The assembler's error enumerations (easycpu_lib/src/asm/err.rs and
// toolkit/src/asm/err.rs). The error type of easycpu_lib's `compile` module is
// not part of this model; the modules that follow it reuse `CompileError`.
module Errors {
  import opened Base
  import Cpu

  datatype CompileError =
    | NotEnoughArguments
    | NoCommandSupplied
    | UnknownCommand(command: string)
    | UnknownRegister(register: string)
    | UnknownLabel(labelName: string)
    | ShiftIsTooBig(shift: i8)
    | InvalidInstruction(cause: Cpu.InstructionError)
    | TooManyAttempts
    | LabelRedefined(name: string)
    | UnexpectedEndOfFile
    | UnknownToken(token: char)
    | InvalidNumber(text: string)
    | UnmatchedClosingBracket
}

/** The toolkit's smaller enumeration (toolkit/src/asm/err.rs): no
    character-level parse errors. */
module ToolkitErrors {
  import opened Base
  import Cpu

  datatype CompileError =
    | NotEnoughArguments
    | NoCommandSupplied
    | UnknownCommand(command: string)
    | UnknownRegister(register: string)
    | UnknownLabel(labelName: string)
    | InvalidNumber(text: string)
    | ShiftIsTooBig(shift: i8)
    | InvalidInstruction(cause: Cpu.InstructionError)
    | TooManyAttempts
    | LabelRedefined(name: string)
}
