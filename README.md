# easyCpu toolchain core, modelled in Dafny

easyCpu is a small 16-bit CPU with eight registers (ZX, which always reads 0, PC, R2 to R5, LP and SP) and a toolchain around it:

- an assembler that turns listings into 16-bit words;
- a family of stack macros (`$PUSH`, `$FUNC`, `$CALL`, and others);
- a stack-operation compiler with a peephole optimizer and a register-window code generator;
- an emulator.

This project models the core of that toolchain and proves properties of the model. It covers these parts:

- **Instruction codec** (`Cpu`). The bit-exact encoder of NOP, AND, ADD, LOAD, STORE, BRANCH and CUSTOM words, and the shift-range validation.
- **Macro expansions.** Each is a function from its operands, and from the label offset already resolved, to a sequence of symbolic words (`Words`):
  - load-constant strategy choice (`LoadConst`);
  - jumps (`Jump`), branches (`Branch`) and label loads (`LoadLabel`);
  - raw data (`AsmInst`, `Custom`);
  - the stack macros (`StackBase`, `StackLocal`, `StackFunction`, `StackConst`, `StackLabel`, `StackJump`, `StackMem`, `StackAlu`, `StackCall`, `ToolkitCall`, `StackMod`).

  Their effect on the machine is proved against a reference meaning of the words (`Semantics`).
- **Readers.**
  - The character-level reader of easycpu_lib (`AsmParse`, with the dispatch it shares with the toolkit in `AsmDispatch`).
  - The toolkit's line-based reader (`ToolkitParse`).
  - Source positions (`Position`).
  - The disassembler (`Disasm`).
- **Label resolution to a fixed point.**
  - The scoped assembler (`AsmCompile`).
  - The flat toolkit assembler (`ToolkitCompile`).
  - The error-collecting compiler of the `compile` module (`CompileProgram`), with its per-pass contexts (`LabelContext`, `CompileInst`).
- **Stack virtual ISA.**
  - Operation signatures and their lowering (`StackSig`, `StackManip`, `StackLocalOp`, `StackLabelOp`).
  - The SP-shifting compiler (`StackOp`).
  - The peephole optimizer (`StackOptim`).
  - The register-window compiler (`StackOptComp`).
- **Emulator** (`Exec`). Register file, memory and the fetch-execute loop, with the instruction's execution as a parameter.

## How the model is built

Code that only computes is modelled as datatypes and functions. Code that updates state in place is modelled as classes. These include:

- the compile contexts;
- the flag-setting builders;
- the character reader;
- the optimizer's context;
- the register-window compiler;
- the emulator.

Each class's methods are proved against functions of the old state. Those functions then carry the lemmas.

Integers are unbounded in Dafny. `u16` arithmetic that wraps in the source is written out as `WrapAdd` and `WrapSub`. The source's `i8::abs` is written out as the wrapping `AbsWrapping`.

The model states some behaviours of the readers exactly as the code has them:

- The reader counts a newline as soon as it becomes the current character. A statement that ends directly at a newline is therefore recorded with the next line's number.
- The text inside `( … )` is read again with the scope counter starting at 0. Scope ids inside the group can therefore repeat ids outside it.
- The easycpu_lib reader never reports `UnexpectedEndOfFile`: an unterminated string or group simply ends at the end of the text. The repository's specification describes that error for such input; the model follows the code.

## Model

| member | source | states |
|---|---|---|
| Cpu.Code | toolkit/src/cpu.rs:1-11 | a register's code is its discriminant, below 8 |
| Cpu.RegisterOf | toolkit/src/cpu.rs:1-11 | every 3-bit code names the register whose discriminant it is |
| Cpu.CodeInjective | toolkit/src/cpu.rs:1-11 | two registers share a code exactly when they are the same register |
| Cpu.RegisterRoundTrip | toolkit/src/cpu.rs:1-11 | reading a register's code back gives the register |
| Cpu.Abs | toolkit/src/cpu.rs:96-124 | the shift magnitude the validators test is the exact absolute value, at most 128 |
| Cpu.EncodeAlu | toolkit/src/cpu.rs:64-78 | the ALU payload (nx, ny, no, dst, src_a, src_b) stays inside bits 11..0 |
| Cpu.EncodeMem | toolkit/src/cpu.rs:80-94 | the MEM payload (hi, lo, sw, dst, addr, sign, magnitude) stays inside bits 11..0 |
| Cpu.EncodeBranch | toolkit/src/cpu.rs:104-117 | the BRANCH payload (eq, gt, lt, cond, sign, magnitude) stays inside bits 11..0 |
| Cpu.Validate | toolkit/src/cpu.rs:96-148 | validation passes exactly when a LOAD/STORE shift is within -3..3 and a BRANCH shift within -31..31; NOP, AND, ADD and CUSTOM always pass. This is the corrected reading with an exact `abs()`: the release build's wrapping `abs()` lets -128 through for both MEM and BRANCH (see Findings) |
| Cpu.Encode | toolkit/src/cpu.rs:127-153 | encoding succeeds exactly when validation passes; then the top nibble is the variant's opcode (NOP 0, BRANCH 1, LOAD 2, STORE 3, AND 4, ADD 5) and a CUSTOM word is the raw value. A shift of -128 fails, as the corrected `Cpu.Validate` says (see Findings) |
| Cpu.EncodeAll | toolkit/src/cpu.rs:150-153 | a list encodes when every instruction does, and then word k is the encoding of instruction k |
| Cpu.PackFields | toolkit/src/cpu.rs:64-78 | the six ALU fields come back out of the packed word unchanged, with the opcode nibble intact |
| Cpu.PackMem | toolkit/src/cpu.rs:80-94 | the MEM fields, the sign bit and the two-bit magnitude come back out unchanged |
| Cpu.PackBranch | toolkit/src/cpu.rs:104-117 | the BRANCH fields, the sign in bit 5 and the five-bit magnitude come back out unchanged |
| Cpu.AluFields | toolkit/src/cpu.rs:64-132 | decoding an AND/ADD word recovers the ALU instruction |
| Cpu.MemFields | toolkit/src/cpu.rs:80-134 | decoding a LOAD/STORE word with a valid shift recovers the MEM instruction |
| Cpu.BranchFields | toolkit/src/cpu.rs:104-135 | decoding a BRANCH word with a valid shift recovers the BRANCH instruction |
| Cpu.EncodeDecode | toolkit/src/cpu.rs:127-153 | every valid instruction other than raw data encodes and decodes back to itself, under its opcode nibble |
| Cpu.AluEncodeDecode | toolkit/src/cpu.rs:131-132 | AND and ADD encode to their opcode ORed with the payload, which decodes back |
| Cpu.MemEncodeDecode | toolkit/src/cpu.rs:133-134 | LOAD and STORE with a valid shift encode to their opcode ORed with the payload, which decodes back |
| Cpu.BranchEncodeDecode | toolkit/src/cpu.rs:135 | a BRANCH with a valid shift encodes to 0x1000 ORed with the payload, which decodes back |
| Cpu.DecodeOpcode | toolkit/src/cpu.rs:128-138 | the reference decoder picks the variant by the opcode nibble the encoder writes |
| Cpu.EncodeInjective | toolkit/src/cpu.rs:127-153 | two valid non-data instructions with the same word are the same instruction |
| Cpu.AbsWrapping | toolkit/src/cpu.rs:91-97 | `i8::abs` as a release build runs it: exact except that -128 stays -128 |
| Cpu.MemValidateAsWritten | toolkit/src/cpu.rs:96-101 | the MEM validation as written agrees with the exact one for every shift except -128 |
| Cpu.EncodeMemAsWritten | toolkit/src/cpu.rs:80-94 | the MEM encoder as written agrees with the exact one on every valid shift |
| Cpu.MemShiftMinus128 | toolkit/src/cpu.rs:91-97 | a LOAD with shift -128 passes the written validation, and its word's top nibble becomes 0xF instead of the LOAD opcode; the exact validator rejects it |
| Cpu.BranchValidateAsWritten | toolkit/src/cpu.rs:119-124 | the BRANCH validation as written agrees with the exact one for every shift except -128 |
| Cpu.EncodeBranchAsWritten | toolkit/src/cpu.rs:105-117 | the BRANCH encoder as written agrees with the exact one on every valid shift |
| Cpu.BranchShiftMinus128 | toolkit/src/cpu.rs:114-120 | a BRANCH with shift -128 passes the written validation, and its word's top nibble becomes 0xF instead of the BRANCH opcode; the exact validator rejects it |
| AsmDispatch.SplitWhitespace | easycpu_lib/src/asm/parse.rs:43 | `split_whitespace`: every piece is a non-empty run without whitespace |
| AsmDispatch.SplitJoin | easycpu_lib/src/asm/parse.rs:43 | tokens written with single spaces between them split back into exactly those tokens |
| AsmDispatch.LeadingToken | easycpu_lib/src/asm/parse.rs:43-45 | text that starts with a non-whitespace character has a first token, so `pop_command` finds a mnemonic |
| AsmDispatch.SplitCommand | easycpu_lib/src/asm/parse.rs:46-51 | `split_once('.')`: the mnemonic has no '.', and mnemonic + "." + flags is the token; without a '.', the flags are empty |
| AsmDispatch.SplitCommandJoin | easycpu_lib/src/asm/parse.rs:46-51 | a dot-free name joined to flags by '.' splits back into that name and those flags |
| AsmDispatch.Classify | easycpu_lib/src/asm/parse.rs:53-102 | the mnemonic goes to the first family, in source order, that recognises it; when none does, the result is `UnknownCommand` carrying the mnemonic |
| AsmDispatch.EarlierWins | easycpu_lib/src/asm/parse.rs:53-61 | NOP is checked first, so no table entry can take it over; a name the ALU table knows is ALU even if the MEM table knows it too |
| AsmDispatch.FixedNames | easycpu_lib/src/asm/parse.rs:68-100 | outside the two tables, BRANCH, HALT, LLABEL, the constant loads, the jumps and `$` names each go to their own family; the `$` is stripped |
| AsmDispatch.SplitStatement | easycpu_lib/src/asm/parse.rs:42-51 | after uppercasing: `None` exactly when there is no token (`NoCommandSupplied`); otherwise the mnemonic and flags of the first token, and the remaining tokens as operands |
| AsmDispatch.SplitStatementJoin | easycpu_lib/src/asm/parse.rs:42-51 | an uppercase statement written as `name.flags op1 op2 ...` splits back into exactly that name, those flags and those operands |
| AsmParse.ParseInstruction | easycpu_lib/src/asm/parse.rs:41-103 | `NoCommandSupplied` exactly when the uppercased statement has no token; any success is an instruction |
| AsmParse.Dispatch | easycpu_lib/src/asm/parse.rs:53-102 | a split statement never yields `NoCommandSupplied`, and any success is an instruction |
| AsmParse.UnknownExactly | easycpu_lib/src/asm/parse.rs:53-102 | the statement is reported as `UnknownCommand` under its own mnemonic exactly when no family (nor, for `$` names, the stack-macro dispatch) claims that mnemonic |
| AsmParse.HaltParsed | easycpu_lib/src/asm/parse.rs:78-86 | HALT becomes `STORE ZX, [ZX-1]`, whatever operands follow it |
| AsmParse.HaltStores | easycpu_lib/src/asm/parse.rs:78-86 | the word HALT compiles to writes 0 to address 0xFFFF, the cell the emulator's run loop watches |
| AsmParse.Advance | easycpu_lib/src/asm/parse.rs:145-161 | popping a character moves the line counter by one exactly when that character is a newline |
| AsmParse.Until | easycpu_lib/src/asm/parse.rs:163-181 | what `read_until` collects followed by what it leaves is the input; it always takes a non-stopping first character |
| AsmParse.UntilMeaning | easycpu_lib/src/asm/parse.rs:163-181 | `read_until` collects the longest prefix before the first character that meets the stop test (the test seeing the previous collected character, `'\0'` at first) |
| AsmParse.UntilRun | easycpu_lib/src/asm/parse.rs:163-181 | a run of non-stopping characters without newlines is collected whole, and the line moves only if the stopping character is a newline |
| AsmParse.StringBody | easycpu_lib/src/asm/parse.rs:228-260 | the string loop consumes input, stops after the closing quote or at the end, and leaves ASCII text behind |
| AsmParse.Group | easycpu_lib/src/asm/parse.rs:283-300 | the bracket loop collects text up to the `)` that brings the level below zero and drops it, or everything when the bracket never closes |
| AsmParse.StatementLine | easycpu_lib/src/asm/parse.rs:194-205 | a token ending in ':' is a label named by the rest; any other token is parsed as an instruction |
| AsmParse.Number | easycpu_lib/src/asm/parse.rs:209-224 | a number token becomes one raw word when the number reader accepts its uppercased text, and carries that reader's error otherwise |
| AsmParse.RunBracket | easycpu_lib/src/asm/parse.rs:279-316 | at a `(`, the lines parsed from the bracketed text go in before the last line parsed so far, and parsing resumes after the `)` |
| AsmParse.RunLetter | easycpu_lib/src/asm/parse.rs:191-205 | at a letter or `$`, the token up to the stop is one line, a label or a statement |
| AsmParse.LabelToken | easycpu_lib/src/asm/parse.rs:194-195 | a label's token is its name and colon and nothing more |
| AsmParse.RunLabel | easycpu_lib/src/asm/parse.rs:191-205 | `name:` gives one `Label(name)` line and parsing resumes just after the colon |
| AsmParse.RunStatement | easycpu_lib/src/asm/parse.rs:191-205 | a statement ended by an end character or the end of the text gives one line, the result of parsing that statement |
| AsmParse.RunComment | easycpu_lib/src/asm/parse.rs:206-208 | a comment runs to the newline and leaves no line |
| AsmParse.RunNumber | easycpu_lib/src/asm/parse.rs:209-224 | a number token ended by whitespace or an end character gives one line, the number reader's result for it |
| AsmParse.EscapeClean | easycpu_lib/src/asm/parse.rs:235-251 | escaping a text without quotes produces no newline and no quote |
| AsmParse.StringPlainStep | easycpu_lib/src/asm/parse.rs:244-259 | a plain character of a literal becomes one word holding its byte |
| AsmParse.StringEscapeStep | easycpu_lib/src/asm/parse.rs:235-259 | a backslash and the character after it become one word, the escaped character's byte |
| AsmParse.StringBodyClose | easycpu_lib/src/asm/parse.rs:247-249 | an unescaped quote ends the literal and is not stored |
| AsmParse.StringBodyEscape | easycpu_lib/src/asm/parse.rs:228-260 | the string loop reads back what `Custom.Escape` writes: the original bytes up to the closing quote, with the rest left over |
| AsmParse.StringEscapedQuote | easycpu_lib/src/asm/parse.rs:235-251 | an escaped quote does not end the literal: it becomes a quote byte |
| AsmParse.StringUnterminated | easycpu_lib/src/asm/parse.rs:232-260 | a literal that never closes takes the rest of the listing and decodes it the way `From<Vec<char>>` of custom.rs does |
| AsmParse.RunQuote | easycpu_lib/src/asm/parse.rs:225-267 | at a quote, the decoded literal becomes one data line |
| AsmParse.RunString | easycpu_lib/src/asm/parse.rs:225-267 | a literal written with `Custom.Escape` becomes one data line holding the original bytes, one word each |
| AsmParse.ScopesCounted | easycpu_lib/src/asm/parse.rs:268-278 | over a run of braces, each `{` opens the scope numbered one past every `{` parsed before it and each `}` leaves a scope: one line per brace |
| AsmParse.GroupPlain | easycpu_lib/src/asm/parse.rs:283-300 | the bracket loop over text without brackets collects it up to the `)` and drops that `)` |
| AsmParse.GroupBody | easycpu_lib/src/asm/parse.rs:280-300 | on `(body)rest`, the bracket loop yields the body and leaves the rest, counting the body's newlines |
| AsmParse.RunReorder | easycpu_lib/src/asm/parse.rs:279-316 | `x (body)` puts the lines of `body` before `x`; the body is parsed with its scope counter restarted at 0 |
| AsmParse.ParseReader.constructor | easycpu_lib/src/asm/parse.rs:303-343 | a new reader has `more` set, `'\0'` as its current character and the line it is given |
| AsmParse.ParseReader.Front | easycpu_lib/src/asm/parse.rs:137-143 | the current character while input remains, `UnexpectedEndOfFile` once it is gone |
| AsmParse.ParseReader.Pop | easycpu_lib/src/asm/parse.rs:145-161 | the next character becomes current and a newline counts one more line; at the end `more` drops and nothing else changes |
| AsmParse.ParseReader.ReadUntil | easycpu_lib/src/asm/parse.rs:163-181 | collects what `Until` describes and leaves the reader just after it |
| AsmParse.ParseReader.ReadString | easycpu_lib/src/asm/parse.rs:228-260 | the loop collects what `StringBody` describes and leaves the reader after the literal |
| AsmParse.ParseReader.ReadGroup | easycpu_lib/src/asm/parse.rs:283-300 | the loop collects what `Group` describes and leaves the reader after the `)` |
| AsmParse.ParseReader.Parse | easycpu_lib/src/asm/parse.rs:183-333 | `parse` never fails, and its lines are those of `Run` over the remaining text |
| AsmParse.ParseReader.Step | easycpu_lib/src/asm/parse.rs:189-329 | one turn of the loop consumes input and keeps the final result what `Run` says |
| AsmParse.ParseReader.TokenStep | easycpu_lib/src/asm/parse.rs:191-267 | the statement, comment, number and string turns each consume input and keep the result `Run` gives |
| AsmParse.ParseReader.BracketStep | easycpu_lib/src/asm/parse.rs:279-316 | the bracket turn runs a sub-parser from the current line and places its lines before the last line parsed |
| AsmParse.ParseReader.MarkStep | easycpu_lib/src/asm/parse.rs:268-328 | the scope, separator and stray-character turns consume one character; a stray character becomes an `UnknownToken` line |
| AsmParse.ParseListing | easycpu_lib/src/asm/parse.rs:336-353 | `parse_listing` starts at line 0, pops the first character, and returns `Ok` of the listing's lines |
| ToolkitParse.SplitLines | toolkit/src/asm/parse.rs:129 | `split('\n')` always yields at least one piece, even for empty text |
| ToolkitParse.LineCount | toolkit/src/asm/parse.rs:129-130 | there is one line more than there are newlines |
| ToolkitParse.LinesWithin | toolkit/src/asm/parse.rs:129 | no piece holds a newline, and each holds only characters of the text |
| ToolkitParse.SplitJoin | toolkit/src/asm/parse.rs:129 | joining the pieces with newlines gives the text back |
| ToolkitParse.SplitOne | toolkit/src/asm/parse.rs:129 | a text without a newline is one line |
| ToolkitParse.SplitFirst | toolkit/src/asm/parse.rs:129 | a newline-free line followed by a newline is the first piece, and the rest splits on its own |
| ToolkitParse.JoinSplit | toolkit/src/asm/parse.rs:129 | cutting newline-free lines joined with newlines gives those lines back |
| ToolkitParse.TrimStartMeaning | toolkit/src/asm/parse.rs:132 | `trim_start` drops exactly the leading whitespace: it leaves a suffix that is empty or starts with something else |
| ToolkitParse.TrimEndMeaning | toolkit/src/asm/parse.rs:132 | `trim_end` drops exactly the trailing whitespace |
| ToolkitParse.TrimMeaning | toolkit/src/asm/parse.rs:132 | a trimmed text is empty or starts and ends with a non-whitespace character |
| ToolkitParse.TrimWithin | toolkit/src/asm/parse.rs:132 | trimming keeps only characters of the text |
| ToolkitParse.UncommentWithin | toolkit/src/asm/parse.rs:132-136 | what is left of a line holds only characters of that line |
| ToolkitParse.UncommentFront | toolkit/src/asm/parse.rs:132-136 | what is left of a line is empty or starts and ends with a non-whitespace character |
| ToolkitParse.TrimStartBlank | toolkit/src/asm/parse.rs:132 | `trim_start` removes a blank prefix entirely |
| ToolkitParse.TrimStartBefore | toolkit/src/asm/parse.rs:132 | `trim_start` keeps everything from the first non-whitespace character on |
| ToolkitParse.TrimEndAfter | toolkit/src/asm/parse.rs:132 | `trim_end` keeps everything up to the last non-whitespace character |
| ToolkitParse.TrimStartTwice | toolkit/src/asm/parse.rs:132 | `trim_start` is idempotent |
| ToolkitParse.BeforeFirstAt | toolkit/src/asm/parse.rs:133-134 | `split_once(c)` keeps exactly the text before the first `c` |
| ToolkitParse.TrimNothing | toolkit/src/asm/parse.rs:132 | trimming text that already starts and ends with non-whitespace leaves it as it is |
| ToolkitParse.NoComment | toolkit/src/asm/parse.rs:132-136 | a line without '#' is only trimmed |
| ToolkitParse.CommentCut | toolkit/src/asm/parse.rs:132-136 | everything from the first '#' on is dropped, and the code before it is trimmed |
| ToolkitParse.Inner | toolkit/src/asm/parse.rs:44-46 | the characters strictly between the quotes; a lone `"` has none |
| ToolkitParse.Dispatch | toolkit/src/asm/parse.rs:76-125 | an error exactly when no family takes the mnemonic, and then `UnknownCommand` under that mnemonic; NOP and HALT are their own statements; every other family receives the operand tokens |
| ToolkitParse.ParseInstruction | toolkit/src/asm/parse.rs:43-126 | a quoted statement is one word per byte between the quotes; one that starts like a number is the number reader's single word or error; otherwise `NoCommandSupplied` exactly when there is no token |
| ToolkitParse.ParseListing | toolkit/src/asm/parse.rs:128-157 | one program line per '\n'-separated piece, numbered from 0 |
| ToolkitParse.ListingLength | toolkit/src/asm/parse.rs:128-157 | the listing has one line per newline, and one more |
| ToolkitParse.ListingLine | toolkit/src/asm/parse.rs:128-157 | line `i` of a listing written as lines is what line `i` compiles to, under number `i` |
| ToolkitParse.CommentDropped | toolkit/src/asm/parse.rs:133-136 | a line with a comment compiles as its code alone |
| ToolkitParse.BlankLine | toolkit/src/asm/parse.rs:139-141 | a blank line is `Nop` |
| ToolkitParse.LabelLine | toolkit/src/asm/parse.rs:142-146 | a line reading `name:` declares label `name` |
| ToolkitParse.QuotedStatement | toolkit/src/asm/parse.rs:44-55 | `"text"` is data holding one word per byte of the text |
| ToolkitParse.LoneQuote | toolkit/src/asm/parse.rs:44-55 | a lone `"` both starts and ends with a quote: it is data with no words |
| ToolkitParse.NumberLine | toolkit/src/asm/parse.rs:57-63 | a line that starts like a number is one word: what the number reader makes of the uppercased text, or its error |
| ToolkitParse.QuotedLine | toolkit/src/asm/parse.rs:44-148 | a quoted line is raw data in its original case, with backslashes kept as they are |
| ToolkitParse.NeverNoCommand | toolkit/src/asm/parse.rs:66-148 | as long as the number reader never reports it, `NoCommandSupplied` is never the outcome of a line: trimming guarantees a first token |
| ToolkitParse.UnknownLine | toolkit/src/asm/parse.rs:66-125 | a statement's mnemonic is unknown exactly when no family in the dispatch order takes it, and the error then names it |
| Disasm.SetLettersHas | toolkit/src/asm/disasm.rs:4-7 | a letter is kept exactly when some set flag carries it |
| Disasm.SetLettersEmpty | toolkit/src/asm/disasm.rs:4-7 | no letter is kept exactly when no flag is set |
| Disasm.FlagsMeaning | toolkit/src/asm/disasm.rs:3-17 | the flag text is "" exactly when no flag is set, and otherwise "." followed by the set letters; each letter shows exactly when its flag is set |
| Disasm.AluLetter | toolkit/src/asm/disasm.rs:3-27 | after uppercasing, the ALU flag text holds X, Y or O exactly when that flag is set |
| Disasm.AluFlagsRoundTrip | toolkit/src/asm/disasm.rs:3-27 | the toolkit's stack ALU flag reader, given the uppercased flag text, recovers nx, ny and no and keeps the operation |
| Disasm.Numeral | toolkit/src/asm/disasm.rs:42-67 | `{}` and `{:x}` always write at least one digit |
| Disasm.DigitRoundTrip | toolkit/src/asm/disasm.rs:67 | each hex digit reads back as its value |
| Disasm.NumeralRoundTrip | toolkit/src/asm/disasm.rs:42-67 | a numeral in any base from 2 to 16 reads back as the number it was written from |
| Disasm.NumeralShape | toolkit/src/asm/disasm.rs:42-67 | a numeral has only digits of its base and no leading zero unless the number is 0 |
| Disasm.SignedText | toolkit/src/asm/disasm.rs:42-53 | the shift's `Display` is never empty |
| Disasm.SignedRoundTrip | toolkit/src/asm/disasm.rs:42-53 | the shift text, with its '-' for negative values, reads back as the shift |
| Disasm.Disassemble | toolkit/src/asm/disasm.rs:59-69 | every instruction disassembles to some text |
| Disasm.FieldsJoin | toolkit/src/asm/disasm.rs:25-54 | the operands each after one space are the tokens joined by single spaces |
| Disasm.FlagsToken | toolkit/src/asm/disasm.rs:3-17 | the flag text holds no whitespace, and uppercased it is "." and the uppercased set letters |
| Disasm.SplitWritten | toolkit/src/asm/disasm.rs:25-66 | written text splits into its first token and the operands |
| Disasm.ShapeSplit | toolkit/src/asm/disasm.rs:25-66 | mnemonic, flags and operands written as the disassembler writes them split back into exactly those parts |
| Disasm.SignedToken | toolkit/src/asm/disasm.rs:42-53 | the shift text is one token that uppercasing leaves alone |
| Disasm.NopParsesBack | toolkit/src/asm/disasm.rs:61 | "NOP" splits back into mnemonic NOP with no flags and no operands |
| Disasm.AluParsesBack | toolkit/src/asm/disasm.rs:23-63 | an ADD or AND text splits back into its mnemonic, set flag letters and three registers |
| Disasm.MemParsesBack | toolkit/src/asm/disasm.rs:35-65 | a LOAD or STORE text splits back into its mnemonic, set flag letters, two registers and shift |
| Disasm.BranchParsesBack | toolkit/src/asm/disasm.rs:47-66 | a BRANCH text splits back into BRANCH, its set flag letters, the condition register and the shift |
| Disasm.ParsesBack | toolkit/src/asm/disasm.rs:59-66 | for every non-data instruction, the assembler's statement split of its disassembly gives back its mnemonic, its set flags and its operands, provided every register's name is one uppercase token |
| Disasm.CustomRoundTrip | toolkit/src/asm/disasm.rs:67 | a raw word is written as "0x" and hex digits that read back as the word |
| Custom.Escaped | easycpu_lib/src/asm/custom.rs:49-55 | an escaped ASCII character stands for an ASCII character (`\n`, `\t`, `\0` for their control characters, any other for itself) |
| Custom.Byte | easycpu_lib/src/asm/custom.rs:63-65 | an ASCII character's word holds its code |
| Custom.Decode | easycpu_lib/src/asm/custom.rs:44-71 | the decoder yields at most one word per character |
| Custom.FromChars | easycpu_lib/src/asm/custom.rs:44-71 | the conversion loop yields exactly the words `Decode` describes, starting outside an escape |
| Custom.Bytes | easycpu_lib/src/asm/custom.rs:63-65 | word `i` of an ASCII text is the code of character `i` |
| Custom.EscapeAscii | easycpu_lib/src/asm/custom.rs:44-71 | escaping ASCII text keeps it ASCII |
| Custom.DecodeEscape | easycpu_lib/src/asm/custom.rs:44-71 | decoding the escaped literal form of any ASCII text gives back its bytes |
| Custom.DecodePlain | easycpu_lib/src/asm/custom.rs:44-71 | a text without backslashes is taken byte for byte |
| Custom.DecodeTrailingBackslash | easycpu_lib/src/asm/custom.rs:58-62 | a backslash at the very end produces nothing |
| Position.NextPos | easycpu_lib/src/parser/position.rs:14-22 | one more character: the offset grows by one; a newline starts the next line at column 0, any other character moves one column on |
| Position.ParsePosition.constructor | easycpu_lib/src/parser/position.rs:6-11 | a position object holds exactly the value it is built from |
| Position.ParsePosition.Next | easycpu_lib/src/parser/position.rs:14-22 | `next` updates the position in place as `NextPos` says |
| Position.AfterAppend | easycpu_lib/src/parser/position.rs:14-22 | feeding one more character is one more `next` |
| Position.AfterMeaning | easycpu_lib/src/parser/position.rs:14-22 | from the start, after a text the offset is its length, the line is its number of newlines and the column counts the characters after the last newline |
| Position.Decimal | easycpu_lib/src/parser/position.rs:25-31 | a number's decimal text is non-empty and only digits |
| Position.DecimalRoundTrip | easycpu_lib/src/parser/position.rs:25-31 | the decimal text reads back as the number |
| Position.ShowMeaning | easycpu_lib/src/parser/position.rs:25-31 | the display is two decimal numbers around the only ':', reading back as the 1-based line and the 1-based column |
| Position.WithPos | easycpu_lib/src/parser/position.rs:46-52 | an error at one position starts and ends there and keeps its error |
| Position.WithRange | easycpu_lib/src/parser/position.rs:54-60 | an error over a range keeps the error and both ends as given |
| AsmInst.CompileCustomMulti | easycpu_lib/src/asm/inst.rs:48-53 | one word per value, each a raw word equal to its value |
| AsmInst.CompileLeaf | easycpu_lib/src/asm/inst.rs:28-74 | a raw value compiles to the one word equal to it; NOP to the zero word; a data block to one word per value; a BRANCH fails exactly when its shift is outside -31..31; nothing else fails |
| AsmInst.FirstFailure | easycpu_lib/src/asm/inst.rs:77-78 | the first element that fails to compile: everything before it compiles |
| AsmInst.CompileInstructions | easycpu_lib/src/asm/inst.rs:76-82 | succeeds exactly when every element compiles, and then the outputs are concatenated in order; otherwise the error of the first element that fails |
| AsmInst.SingleWord | easycpu_lib/src/asm/inst.rs:28-74 | a single-word leaf compiles to exactly that word |
| AsmInst.CompileSingleLeaves | easycpu_lib/src/asm/inst.rs:76-82 | a list of single-word leaves compiles word for word |
| AsmInst.CompilesTo | easycpu_lib/src/asm/inst.rs:76-82 | single-word leaves matching the words one by one compile to exactly those words |
| AsmInst.Join | easycpu_lib/src/asm/inst.rs:76-82 | two sub-instructions compile to both outputs in order, or to the first error |
| Branch.NewCheckAsWrittenNeverFails | easycpu_lib/src/asm/branch.rs:21-23 | the range check as written never fails for any shift |
| Branch.NewCheckAsWrittenAccepts100 | easycpu_lib/src/asm/branch.rs:21-23 | the written check accepts shift 100, which the encoder rejects |
| Branch.NewCheck | easycpu_lib/src/asm/branch.rs:21-23 | the intended check passes exactly for shifts in -31..31 and otherwise reports `ShiftIsTooBig` with the shift |
| Branch.NewValue | easycpu_lib/src/asm/branch.rs:17-32 | `new` (corrected) succeeds exactly for shifts in -31..31, with all three flags set and a shift the encoder accepts |
| Branch.NewValueEncodes | easycpu_lib/src/asm/branch.rs:17-83 | a branch the corrected `new` accepts always passes the encoder's validation |
| Branch.FlagsFromStr | easycpu_lib/src/asm/branch.rs:41-46 | when E, G or L occurs, each flag becomes "its letter occurs"; otherwise the flags are left alone; condition and shift never change |
| Branch.FlagsFromStrIdempotent | easycpu_lib/src/asm/branch.rs:41-46 | applying the same flag string twice changes nothing more |
| Branch.Compile | easycpu_lib/src/asm/branch.rs:65-83 | one BRANCH word that encodes, exactly when the shift is in -31..31; otherwise `InvalidInstruction(InvalidShift)`. The shift -128 is rejected as the corrected `Cpu.Validate` does (see Findings) |
| Branch.BranchBuilder.constructor | easycpu_lib/src/asm/branch.rs:6-14 | the builder holds exactly the fields it is given |
| Branch.BranchBuilder.SetFlags | easycpu_lib/src/asm/branch.rs:34-39 | overwrites the three flags and nothing else |
| Branch.BranchBuilder.SetFlagsFromStr | easycpu_lib/src/asm/branch.rs:41-46 | the builder's new value is `FlagsFromStr` of its old value; condition and shift stay |
| Branch.New | easycpu_lib/src/asm/branch.rs:17-32 | a fresh builder holding `NewValue` when the shift is in range, `ShiftIsTooBig` otherwise |
| Branch.ParseAsm | easycpu_lib/src/asm/branch.rs:48-62 | the condition reader's error first, then the shift reader's; otherwise success exactly for shifts in -31..31, with the flags applied to a fresh builder |
| Branch.ParsedValue | easycpu_lib/src/asm/branch.rs:48-62 | the parsed branch keeps the operands, and without E, G or L in the flags it branches always |
| Jump.FlagsComplementary | easycpu_lib/src/asm/jump.rs:29-41 | JEQ/JNE, JGT/JLE and JLT/JGE test complementary conditions, and JMP tests every condition |
| Jump.ParseOperation | easycpu_lib/src/asm/jump.rs:43-54 | exactly the seven jump mnemonics are recognised, each as its own operation |
| Jump.ParseAsm | easycpu_lib/src/asm/jump.rs:62-74 | JMP reads only a target and tests ZX; every other jump reads a register, then a target; the first failing read's error is returned |
| Jump.ConvertToShift | easycpu_lib/src/asm/jump.rs:76-85 | an offset converts exactly when it is below 32 or above 0xFFE0, to the signed value of the wrapped offset, always within -31..31; otherwise `ShiftIsTooBig(0x7f)` |
| Jump.ShiftMeaning | easycpu_lib/src/asm/jump.rs:76-85 | the converted shift moves any address exactly as adding the wrapped offset does |
| Jump.Compile | easycpu_lib/src/asm/jump.rs:89-117 | a resolution error aborts; a near target is one BRANCH with the jump's flags; a far one is a BRANCH on the complemented flags over the following `ACONST PC, targ - 1`, two to four words in all |
| Jump.CompiledMeaning | easycpu_lib/src/asm/jump.rs:89-117 | run from its first address, the compiled jump lands on its address plus the offset when the condition holds, and just past itself otherwise, changing no other register and no memory |
| Jump.ShortMeaning | easycpu_lib/src/asm/jump.rs:93-99 | the near form decides in one step: jump by the offset when the condition holds, fall through otherwise |
| Jump.LongMeaning | easycpu_lib/src/asm/jump.rs:101-115 | the far form skips the long jump when the condition fails and runs it, reaching the target, when the condition holds |
| Jump.LongBranch | easycpu_lib/src/asm/jump.rs:108-114 | the far form is one BRANCH on the condition register, with the long jump's length plus one as its shift, followed by the long jump |
| Jump.LongJumpTaken | easycpu_lib/src/asm/jump.rs:101-115 | when the condition holds, two steps reach the target |
| Jump.LongJumpSkipped | easycpu_lib/src/asm/jump.rs:108-114 | when the condition fails, one step lands just past the sequence |
| Jump.OneBranch | easycpu_lib/src/asm/jump.rs:96-98 | one BRANCH step either jumps by its shift or falls through, and changes nothing else |
| Jump.LongTaken | easycpu_lib/src/asm/jump.rs:101-115 | the complemented BRANCH falls through and the long jump reaches the target |
| LoadLabel.ParseAsm | easycpu_lib/src/asm/load_label.rs:23-28 | reads the register, then the label, and returns the first failing read's error |
| LoadLabel.Prefix | easycpu_lib/src/asm/load_label.rs:34-41 | one MOV word unless the destination is PC |
| LoadLabel.Compile | easycpu_lib/src/asm/load_label.rs:32-49 | a resolution error aborts; otherwise the MOV (for dst other than PC) and then `ACONST dst, offset`, one to four words |
| LoadLabel.CompiledMeaning | easycpu_lib/src/asm/load_label.rs:32-49 | run from its first address, the sequence leaves that address plus the offset (the label's address) in `dst`, changes no other register and no memory, and continues just after itself unless `dst` is PC |
| LoadLabel.RegisterMeaning | easycpu_lib/src/asm/load_label.rs:32-49 | for a general register: `dst` holds the label's address and execution continues after the sequence |
| LoadLabel.CopyPc | easycpu_lib/src/asm/load_label.rs:34-41 | `MOV dst, PC` copies the instruction's own address into `dst` in one step |
| LoadConst.ParseOperation | easycpu_lib/src/asm/load_const.rs:17-23 | LCONST is a load, ACONST an add, and nothing else is recognised |
| LoadConst.Negate | easycpu_lib/src/asm/load_const.rs:119 | `u16::MAX - v + 1`, wrapping, is the two's-complement negation of `v` |
| LoadConst.ShortVariant | easycpu_lib/src/asm/load_const.rs:60-114 | a short form exists exactly for 0, 1, 2 and 0xFFFF, and is one or two ALU words |
| LoadConst.SkipValueIsNew | easycpu_lib/src/asm/load_const.rs:175 | the jump over the data word is what `BranchInstruction::new(ZX, 2)` builds |
| LoadConst.ExpandAsWritten | easycpu_lib/src/asm/load_const.rs:118-178 | the strategy chosen as written is one to three instructions |
| LoadConst.Expand | easycpu_lib/src/asm/load_const.rs:118-178 | the corrected selection is one to three instructions and agrees with the written one on every input except `LCONST PC, 2` |
| LoadConst.Compile | easycpu_lib/src/asm/load_const.rs:117-182 | compilation never fails; it produces the words `Emitted` lists |
| LoadConst.Emitted | easycpu_lib/src/asm/load_const.rs:118-178 | every strategy is one to three words |
| LoadConst.CompileEmits | easycpu_lib/src/asm/load_const.rs:118-180 | compiling the chosen instructions gives exactly the words `Emitted` lists |
| LoadConst.LongFormEmits | easycpu_lib/src/asm/load_const.rs:130-178 | the long forms compile to the words listed for them |
| LoadConst.NearEmits | easycpu_lib/src/asm/load_const.rs:130-135 | a value below 4096 compiles to `op dst,[PC+1]` and the value |
| LoadConst.NegatedEmits | easycpu_lib/src/asm/load_const.rs:136-165 | a value whose negation is below 4096 compiles to the LSUB forms and the negated value |
| LoadConst.FarEmits | easycpu_lib/src/asm/load_const.rs:166-177 | any other value compiles to `op dst,[PC+2]`, a jump over the value, and the value |
| LoadConst.StepCount | easycpu_lib/src/asm/load_const.rs:118-178 | control leaves the sequence after one to all of its words |
| LoadConst.CompiledMeaning | easycpu_lib/src/asm/load_const.rs:117-182 | for every strategy and every value, running the words leaves `val` (LCONST) or the old value plus `val` (ACONST) in `dst`, changes no other register and no memory, and continues right after the sequence (for PC: at the loaded address) |
| LoadConst.ShortMeaning | easycpu_lib/src/asm/load_const.rs:65-100 | the forms for 0, 1 and 0xFFFF achieve the promised effect |
| LoadConst.ShortStepCount | easycpu_lib/src/asm/load_const.rs:65-100 | a one-word form runs for exactly one step |
| LoadConst.OneWordMeaning | easycpu_lib/src/asm/load_const.rs:65-100 | the single ALU word for 0, 1 or -1 achieves the effect in its step |
| LoadConst.TwoMeaning | easycpu_lib/src/asm/load_const.rs:80-93 | the two INCs for 2 achieve the effect, for every destination except PC with LCONST |
| LoadConst.NearMeaning | easycpu_lib/src/asm/load_const.rs:130-135 | the `[PC+1]` form reads the data word and then runs it as a NOP |
| LoadConst.NegatedMeaning | easycpu_lib/src/asm/load_const.rs:136-165 | subtracting the negated value loads (after a MOV from ZX) or adds the value |
| LoadConst.FarMeaning | easycpu_lib/src/asm/load_const.rs:166-177 | the `[PC+2]` form reads the data word and the BRANCH skips it |
| LoadConst.AluForm | easycpu_lib/src/asm/load_const.rs:65-100 | one ALU word `op dst, src, ZX` puts its result in `dst` and moves on one word |
| LoadConst.TwoIncrements | easycpu_lib/src/asm/load_const.rs:80-93 | `INC dst, src; INC dst, dst` adds 2 to `src`, in two steps even for PC when `src` is PC |
| LoadConst.NearForm | easycpu_lib/src/asm/load_const.rs:130-135 | `op dst,[PC+1]` and a 12-bit word: the word is read, and then executed as a NOP |
| LoadConst.NegatedLoad | easycpu_lib/src/asm/load_const.rs:140-154 | `MOV dst, ZX; LSUB dst,[PC+1]; -val` leaves `val` in `dst` |
| LoadConst.FarForm | easycpu_lib/src/asm/load_const.rs:166-177 | `op dst,[PC+2]; BRANCH ZX,+2; val`: the value is read and then jumped over |
| LoadConst.LconstPc2AsWritten | easycpu_lib/src/asm/load_const.rs:80-129 | as written, `LCONST PC, 2` becomes `INC PC, ZX; INC PC, PC`, and its first word already jumps to address 1 |
| LoadConst.AddAfter | easycpu_lib/src/asm/load_const.rs:117-182 | an `ADD r, r, b` after a block that loaded `val` into `r` leaves `val + b` in `r` and nothing else changed |
| LoadConst.EffectSets | easycpu_lib/src/asm/load_const.rs:117-182 | a sequence with the promised effect on a register other than PC sets only that register |
| LoadConst.OnlyPcLoads | easycpu_lib/src/asm/load_const.rs:130-177 | every memory word of an expansion addresses PC: a constant is only ever read from the instruction stream |
| StackBase.ParseOperation | easycpu_lib/src/asm/stack/base.rs:20-29 | exactly the five mnemonics INIT, PUSH, POP, DUP, SWP are recognised, each as its own operation |
| StackBase.ParseAsm | easycpu_lib/src/asm/stack/base.rs:46-58 | INIT, DUP and SWP read no operand and use ZX; PUSH and POP take the register read, or its error |
| StackBase.Compile | easycpu_lib/src/asm/stack/base.rs:61-155 | every operation compiles, to the words listed for it: INIT to four, PUSH and POP to two, DUP to three, SWP to four |
| StackBase.PushMeaning | easycpu_lib/src/asm/stack/base.rs:77-90 | PUSH stores the register in the cell SP points at and moves SP one cell up |
| StackBase.PushAfter | easycpu_lib/src/asm/stack/base.rs:77-90 | a PUSH after a block that left `v` in a register pushes `v` |
| StackBase.PushComposes | easycpu_lib/src/asm/stack/base.rs:77-90 | the state change of a block followed by a PUSH composes into one push of the block's result |
| StackBase.PopMeaning | easycpu_lib/src/asm/stack/base.rs:91-104 | POP loads the cell below SP into the register and moves SP one cell down; memory is unchanged |
| StackBase.PopAfterPush | easycpu_lib/src/asm/stack/base.rs:77-104 | POP undoes PUSH: the pushed value lands in the popped register and SP is back where it was |
| StackBase.DupMeaning | easycpu_lib/src/asm/stack/base.rs:106-125 | DUP pushes a copy of the top of the stack, through R2 |
| StackBase.SwpLoads | easycpu_lib/src/asm/stack/base.rs:128-139 | SWP's loads bring the two cells below SP into R2 and R3 |
| StackBase.SwpStores | easycpu_lib/src/asm/stack/base.rs:140-151 | SWP's stores write R3 into the cell below SP and R2 into the one below that |
| StackBase.SwpMeaning | easycpu_lib/src/asm/stack/base.rs:127-152 | SWP exchanges the two cells below SP and leaves SP where it was |
| StackBase.SwpExchanges | easycpu_lib/src/asm/stack/base.rs:127-152 | after SWP the two top cells read back exchanged |
| StackBase.InitMeaning | easycpu_lib/src/asm/stack/base.rs:64-76 | INIT puts both SP and LP at the stack base 0x4000 and leaves memory alone |
| StackLocal.ParseOperation | easycpu_lib/src/asm/stack/local.rs:29-44 | exactly the eight mnemonics are recognised, each as its own operation and mode |
| StackLocal.ParseAsm | easycpu_lib/src/asm/stack/local.rs:58-67 | LOCEND reads no operand and uses index 0; every other operation takes the constant read, or its error |
| StackLocal.Shift | easycpu_lib/src/asm/stack/local.rs:73-76 | a variable's offset from LP is its index; an argument's offset, added to any LP, is LP - 4 - idx |
| StackLocal.AddressWords | easycpu_lib/src/asm/stack/local.rs:69-90 | the address computation is two to four words |
| StackLocal.LoadAddress | easycpu_lib/src/asm/stack/local.rs:69-90 | `load_address` never fails and yields the address words |
| StackLocal.Compile | easycpu_lib/src/asm/stack/local.rs:93-163 | every operation compiles, to the words listed for it |
| StackLocal.CompileLocinit | easycpu_lib/src/asm/stack/local.rs:96-112 | LOCINIT is `PUSH LP; MOV LP, SP; ACONST SP, idx` |
| StackLocal.CompileLocend | easycpu_lib/src/asm/stack/local.rs:113-124 | LOCEND is `MOV SP, LP; POP LP` |
| StackLocal.CompileLoad | easycpu_lib/src/asm/stack/local.rs:125-138 | a local load is the address words, `LOAD R2, [R3+0]` and `PUSH R2` |
| StackLocal.CompileStore | easycpu_lib/src/asm/stack/local.rs:139-152 | a local store is the address words, `POP R2` and `STORE R2, [R3+0]` |
| StackLocal.CompileAddr | easycpu_lib/src/asm/stack/local.rs:153-160 | an address push is the address words and `PUSH R3` |
| StackLocal.AddressMeaning | easycpu_lib/src/asm/stack/local.rs:69-90 | the address words leave the local's address in R3 and change nothing else |
| StackLocal.ArgumentAddress | easycpu_lib/src/asm/stack/local.rs:73-76 | argument `idx` lives at LP - 4 - idx, variable `idx` at LP + idx |
| StackLocal.LoadMeaning | easycpu_lib/src/asm/stack/local.rs:125-138 | LVAR/LARG push the value of the local and move SP up one |
| StackLocal.LoadThrough | easycpu_lib/src/asm/stack/local.rs:127-136 | after a block that left an address in R3, the load and push push the cell at that address |
| StackLocal.PushedAfter | easycpu_lib/src/asm/stack/local.rs:125-160 | the push after the address computation composes into one push seen from the start |
| StackLocal.LoadPush | easycpu_lib/src/asm/stack/local.rs:127-136 | `LOAD R2, [R3+0]; PUSH R2` pushes the cell R3 points at |
| StackLocal.StoreMeaning | easycpu_lib/src/asm/stack/local.rs:139-152 | SVAR/SARG pop the top of the stack into the local and move SP down one |
| StackLocal.StoreThrough | easycpu_lib/src/asm/stack/local.rs:141-150 | after a block that left an address in R3, the pop and store write the top of the stack there |
| StackLocal.PoppedAfter | easycpu_lib/src/asm/stack/local.rs:139-152 | the pop and store after the address computation compose into one store seen from the start |
| StackLocal.PopStore | easycpu_lib/src/asm/stack/local.rs:141-150 | `POP R2; STORE R2, [R3+0]` moves the top of the stack into the cell R3 points at |
| StackLocal.AddrMeaning | easycpu_lib/src/asm/stack/local.rs:153-160 | AVAR/AARG push the local's address |
| StackLocal.LocinitMeaning | easycpu_lib/src/asm/stack/local.rs:96-112 | LOCINIT saves LP in the cell SP points at, points LP just above it and reserves `idx` cells above that |
| StackLocal.LocendMeaning | easycpu_lib/src/asm/stack/local.rs:113-124 | LOCEND moves SP to just below LP and reloads LP from that cell |
| StackLocal.FrameRestored | easycpu_lib/src/asm/stack/local.rs:96-124 | LOCEND run on the frame LOCINIT opened, with the saved cell intact, gives back the SP and LP from before LOCINIT |
| StackLocal.LocinitThenLocend | easycpu_lib/src/asm/stack/local.rs:96-124 | LOCINIT immediately followed by LOCEND leaves SP and LP as they were |
| StackFunction.ParseOperation | easycpu_lib/src/asm/stack/func.rs:20-26 | exactly FUNC and RET are recognised, each as its own operation |
| StackFunction.ParseAsm | easycpu_lib/src/asm/stack/func.rs:55-66 | RET reads nothing and is all zeros; FUNC takes locals, args and returned from three reads in that order, and the first failing read's error |
| StackFunction.ReturnShiftMeaning | easycpu_lib/src/asm/stack/func.rs:76 | added to SP, FUNC's constant gives SP + returned - args - 1 modulo 2^16 |
| StackFunction.Compile | easycpu_lib/src/asm/stack/func.rs:69-120 | both operations compile, to the words listed for them; RET always to exactly six |
| StackFunction.CompileFunc | easycpu_lib/src/asm/stack/func.rs:72-92 | FUNC is the return-SP computation, its push, and LOCINIT with the locals count |
| StackFunction.CompileFrame | easycpu_lib/src/asm/stack/func.rs:73-87 | the return-SP computation followed by `PUSH R2` |
| StackFunction.CompileFront | easycpu_lib/src/asm/stack/func.rs:73-83 | `LCONST R2, shift; ADD R2, R2, SP` |
| StackFunction.CompileRet | easycpu_lib/src/asm/stack/func.rs:93-116 | RET is LOCEND, `LOAD R2,[SP-2]; LOAD SP,[SP-1]; MOV PC, R2` |
| StackFunction.FrontMeaning | easycpu_lib/src/asm/stack/func.rs:73-83 | the front leaves the SP to return with in R2 and changes nothing else |
| StackFunction.FrameMeaning | easycpu_lib/src/asm/stack/func.rs:73-87 | the front and its push push the SP to return with |
| StackFunction.FuncMeaning | easycpu_lib/src/asm/stack/func.rs:72-92 | FUNC pushes the return SP, saves LP above it, points LP above that and reserves `locals` cells |
| StackFunction.LocinitAfter | easycpu_lib/src/asm/stack/func.rs:84-91 | LOCINIT after the push of the return SP completes the frame |
| StackFunction.FrameComposes | easycpu_lib/src/asm/stack/func.rs:72-92 | the push and the LOCINIT compose into the frame FUNC promises |
| StackFunction.RetTailMeaning | easycpu_lib/src/asm/stack/func.rs:98-115 | after LOCEND: R2 gets the cell at SP-2 (the return address), SP gets the cell at SP-1, and PC jumps to R2 |
| StackFunction.RetMeaning | easycpu_lib/src/asm/stack/func.rs:93-116 | RET closes the frame, restores SP from the frame and jumps to the saved return address, in six steps, the last one writing PC |
| StackFunction.RetComposes | easycpu_lib/src/asm/stack/func.rs:93-116 | LOCEND and the three reloading words compose into the return |
| StackFunction.FrameCells | easycpu_lib/src/asm/stack/func.rs:72-116 | the three frame cells below, at and above SP are distinct and found again from the frame base LP |
| StackFunction.FuncThenRet | easycpu_lib/src/asm/stack/func.rs:69-120 | RET on the frame FUNC built returns to the address the caller reserved below the frame, with SP at its returned value (arguments dropped, `returned` cells kept) and the caller's LP restored |
| StackFunction.FuncLeavesFrame | easycpu_lib/src/asm/stack/func.rs:72-92 | right after FUNC, the frame cells hold the caller's LP, the return SP and the untouched return address |
| StackFunction.FrameReads | easycpu_lib/src/asm/stack/func.rs:84-91 | the frame cells read back what FUNC's two stores put there |
| StackConst.ParseOperation | easycpu_lib/src/asm/stack/cons.rs:25-32 | exactly PCONST, ACONST and PLABEL are recognised, each as its own operation |
| StackConst.ParseAsm | easycpu_lib/src/asm/stack/cons.rs:59-68 | PCONST and ACONST take one constant read, PLABEL one label read; a failed read is the error |
| StackConst.Compile | easycpu_lib/src/asm/stack/cons.rs:72-103 | PCONST expands to LCONST R2 and PUSH R2, ACONST to POP R2, ACONST R2 and PUSH R2, PLABEL to LLABEL R2 and PUSH R2; a label that does not resolve aborts the compile |
| StackConst.PushLast | easycpu_lib/src/asm/stack/cons.rs:74-99 | every expansion ends with PUSH R2, and it starts with POP R2 exactly when the operation is ACONST |
| StackConst.LoadPushMeaning | easycpu_lib/src/asm/stack/cons.rs:81-99 | run from its first word, a load into R2 followed by PUSH R2 stores the loaded value at SP, raises SP by one and changes no other register |
| StackConst.PconstMeaning | easycpu_lib/src/asm/stack/cons.rs:81-99 | PCONST v pushes v: memory at the old SP becomes v, SP grows by one, the pc passes the block, only R2 and SP change |
| StackConst.AconstMeaning | easycpu_lib/src/asm/stack/cons.rs:74-99 | ACONST v adds v to the top of the stack in place modulo 2^16, leaves SP as it was and changes no register but R2 |
| StackConst.AddPushAfterPop | easycpu_lib/src/asm/stack/cons.rs:87-99 | after the POP R2 has run, the add and the push write top + v back to the slot the pop read |
| StackConst.AddComposes | easycpu_lib/src/asm/stack/cons.rs:74-99 | a pop followed by a push of top + v leaves SP unchanged and only the top slot of memory changed |
| StackConst.PlabelMeaning | easycpu_lib/src/asm/stack/cons.rs:92-99 | PLABEL pushes the label's address, the first word's address plus the resolved offset modulo 2^16 |
| StackLabel.ParseAsm | easycpu_lib/src/asm/stack/label.rs:19-21 | one label read makes the instruction; a failed read is the error |
| StackLabel.Compile | easycpu_lib/src/asm/stack/label.rs:25-30 | LLABEL R2 and then PUSH R2; a label that does not resolve aborts the compile |
| StackLabel.SameAsPlabel | easycpu_lib/src/asm/stack/label.rs:25-30 | the instruction compiles to exactly what PLABEL of the same label compiles to, for every resolution result |
| StackJump.ParseAsm | easycpu_lib/src/asm/stack/jump.rs:20-25 | one label read makes the instruction with the given jump operation; a failed read is the error |
| StackJump.Compile | easycpu_lib/src/asm/stack/jump.rs:29-54 | JMP emits only the jump on ZX; every other jump first emits POP R2 and then the jump on R2, resolved at the address just past the pop; a failed resolution aborts |
| StackJump.JmpMeaning | easycpu_lib/src/asm/stack/jump.rs:32-33 | $JMP moves the pc to the target and changes no other register and no memory |
| StackJump.CondMeaning | easycpu_lib/src/asm/stack/jump.rs:34-53 | a conditional $jump pops the top of the stack into R2 and goes to the target exactly when that value passes the jump's condition, otherwise past the block; memory is unchanged |
| StackJump.JumpAfterPop | easycpu_lib/src/asm/stack/jump.rs:43-51 | once POP R2 has run, the jump on R2 is taken exactly when the popped value passes the condition |
| StackMem.FlagsFromStr | easycpu_lib/src/asm/stack/mem.rs:35-43 | keeps the operation; each of the three flags is set exactly when its letter H, L or S occurs in the flag string |
| StackMem.FlagsFromStrForgets | easycpu_lib/src/asm/stack/mem.rs:35-43 | both branches overwrite every flag, so the result does not depend on the flags set before |
| StackMem.StackMemBuilder.constructor | easycpu_lib/src/asm/stack/mem.rs:19-26 | a new instruction has the operation and all three flags cleared |
| StackMem.StackMemBuilder.SetFlags | easycpu_lib/src/asm/stack/mem.rs:28-33 | the three flags take the given values and the operation is kept |
| StackMem.StackMemBuilder.SetFlagsFromStr | easycpu_lib/src/asm/stack/mem.rs:35-43 | the new state is the flag-string reading of the old one |
| StackMem.ParseAsm | easycpu_lib/src/asm/stack/mem.rs:45-47 | a fresh instruction whose flags are the letters present in the flag string |
| StackMem.Compile | easycpu_lib/src/asm/stack/mem.rs:51-79 | the expansion never fails: POP R3, POP R2 unless LOAD, the MEM word on R2 and [R3+0] with the flags, PUSH R2 unless STORE |
| StackMem.Shape | easycpu_lib/src/asm/stack/mem.rs:54-76 | LOAD and STORE expand to five words and the others to seven; the value pop is there exactly when the operation is not LOAD and the result push exactly when it is not STORE |
| StackMem.LoadMeaning | easycpu_lib/src/asm/stack/mem.rs:54-76 | $LOAD replaces the address on top of the stack by the word stored at it and leaves SP where it was; for the macro without flag letters |
| StackMem.LoadPushAfter | easycpu_lib/src/asm/stack/mem.rs:66-76 | once POP R3 has run, the LOAD and the PUSH put the loaded word back in the slot the address came from |
| StackMem.LoadPush | easycpu_lib/src/asm/stack/mem.rs:66-76 | LOAD R2, [R3+0] then PUSH R2 pushes the word at the address held in R3 |
| StackMem.PopBoth | easycpu_lib/src/asm/stack/mem.rs:54-64 | the two pops leave the top of the stack in R3, the value under it in R2, and SP two cells lower |
| StackMem.PopBothComposes | easycpu_lib/src/asm/stack/mem.rs:54-64 | two single pops compose to the double pop of PopBoth |
| StackMem.DownTwice | easycpu_lib/src/asm/stack/mem.rs:54-64 | two one-cell decrements of SP modulo 2^16 are one two-cell decrement, and one increment undoes one of them |
| StackMem.StoreMeaning | easycpu_lib/src/asm/stack/mem.rs:54-69 | $STORE writes the second value to the address on top of the stack and removes both from the stack; for the macro without flag letters |
| StackMem.StoreAfter | easycpu_lib/src/asm/stack/mem.rs:66-69 | once both pops have run, the STORE word writes R2 to the address in R3 |
| StackMem.AccumulateMeaning | easycpu_lib/src/asm/stack/mem.rs:54-76 | $LADD and $LSUB replace the two top cells by one: the second value plus or minus the word at the address on top, modulo 2^16; for the macro without flag letters |
| StackMem.AccumulateAfter | easycpu_lib/src/asm/stack/mem.rs:66-76 | once both pops have run, the accumulating MEM word and the PUSH leave that sum or difference on the stack |
| StackMem.AccumulateComposes | easycpu_lib/src/asm/stack/mem.rs:54-76 | the double pop followed by the accumulate-and-push nets one cell removed and the combined value in its place |
| StackMem.AccumulatePush | easycpu_lib/src/asm/stack/mem.rs:66-76 | LADD or LSUB R2, [R3+0] then PUSH R2 pushes R2 combined with the word at the address in R3 |
| StackAlu.FlagsFromStr | toolkit/src/asm/stack/alu.rs:35-38 | keeps the operation; each of the flags is set exactly when its letter X, Y or O occurs |
| StackAlu.StackAluBuilder.constructor | toolkit/src/asm/stack/alu.rs:19-26 | a new instruction has the operation and all three flags cleared |
| StackAlu.StackAluBuilder.SetFlags | toolkit/src/asm/stack/alu.rs:28-33 | the three flags take the given values and the operation is kept |
| StackAlu.StackAluBuilder.SetFlagsFromStr | toolkit/src/asm/stack/alu.rs:35-38 | the new state is the flag-string reading of the old one |
| StackAlu.ParseAsm | toolkit/src/asm/stack/alu.rs:40-42 | a fresh instruction whose flags are the letters present in the flag string |
| StackAlu.Compile | toolkit/src/asm/stack/alu.rs:46-76 | the expansion never fails; it pops R3 only when the operation has no fixed second register, then pops R2, runs the ALU word into R2 with the flags and pushes R2 |
| StackAlu.BinaryMeaning | toolkit/src/asm/stack/alu.rs:46-76 | a binary operation replaces the two top cells by one holding the operation applied to the second value and the top; for every operation other than AND, without flag letters |
| StackAlu.BinaryAfter | toolkit/src/asm/stack/alu.rs:66-74 | once both pops have run, the ALU word and the PUSH leave the combined value in place of the two operands |
| StackAlu.OpPush | toolkit/src/asm/stack/alu.rs:66-74 | the ALU word into R2 then PUSH R2 pushes R2 combined with the second register |
| StackAlu.UnaryMeaning | toolkit/src/asm/stack/alu.rs:46-76 | with a fixed second register the top of the stack is replaced in place by the operation on it and that register; SP ends where it started; for every operation other than AND, without flag letters |
| StackAlu.UnaryAfter | toolkit/src/asm/stack/alu.rs:61-74 | once POP R2 has run, the ALU word and the PUSH write the result back into the slot just popped |
| StackCall.ParseAsm | easycpu_lib/src/asm/stack/call.rs:14-20 | one label read makes the instruction; a failed read is the error |
| StackCall.Outcome | easycpu_lib/src/asm/stack/call.rs:24-44 | the call succeeds exactly when the label resolves at the fifth word; on failure only the four head words have been emitted, on success the seven-word sequence ending in the resolved offset |
| StackCall.OutcomeShape | easycpu_lib/src/asm/stack/call.rs:25-41 | a successful call emits seven words whatever the target; the first four do not depend on it and the last is the resolved offset |
| StackCall.Emitter.Instruct | easycpu_lib/src/compile/context.rs:28-31 | the word is appended to the emitted words and the current address moves on by one |
| StackCall.Compile | easycpu_lib/src/asm/stack/call.rs:24-44 | the result, the words appended to the context and the final address are those of the outcome at the starting address |
| StackCall.SaveReturn | easycpu_lib/src/asm/stack/call.rs:25-37 | the first four words reserve the cell at SP and store there the address just past the seven-word sequence |
| StackCall.IncMov | easycpu_lib/src/asm/stack/call.rs:25-35 | INC SP then MOV R2, PC moves SP up one cell and leaves in R2 the address of the MOV |
| StackCall.LinkStore | easycpu_lib/src/asm/stack/call.rs:36-37 | the LADD adds to R2 the word three addresses past it and the STORE writes the sum to the cell below SP |
| StackCall.SaveAfter | easycpu_lib/src/asm/stack/call.rs:36-37 | after INC and MOV, with the data word 6 in place, the LADD and STORE save the return address |
| StackCall.CallMeaning | easycpu_lib/src/asm/stack/call.rs:25-41 | the call pushes the return address (the first word's address plus seven) and continues at the fifth word's address plus the resolved offset |
| StackCall.JumpAfter | easycpu_lib/src/asm/stack/call.rs:39-41 | once the return address is saved, the LADD on PC jumps to the fifth word's address plus the offset and nothing else changes |
| ToolkitCall.ParseAsm | toolkit/src/asm/stack/call.rs:17-23 | one label read makes the instruction; a failed read is the error |
| ToolkitCall.Iterate | toolkit/src/asm/stack/call.rs:38-62 | a settled loop returns words whose length, taken as a u16, is the guess they were compiled under; an unsettled success is either the last round's words when the rounds ran out or an attempt whose length differs from its guess; an error is the error of some attempt |
| ToolkitCall.Compile | toolkit/src/asm/stack/call.rs:27-64 | the loop of at most 128 rounds from the guess 16 returns what the iteration's value does |
| ToolkitCall.PlabelLength | toolkit/src/asm/stack/call.rs:42-47 | for every guess from 3 to 4095 the pushed-label part is five words long |
| ToolkitCall.SettlesEarly | toolkit/src/asm/stack/call.rs:38-62 | with the library's PLABEL expansion and a jump part shorter than 4000 words, the loop settles with the label part pushing the length of the whole sequence followed by the jump compiled five words on |
| ToolkitCall.SettledShape | toolkit/src/asm/stack/call.rs:40-57 | once settled, the words start with the PLABEL of their own length followed by the jump compiled at the address just past it |
| ToolkitCall.PushesReturnAddress | toolkit/src/asm/stack/call.rs:28-57 | running the settled sequence's label part pushes the address just past the whole sequence, the return address, and reaches the jump |
| StackMod.Classify | easycpu_lib/src/asm/stack/mod.rs:34-74 | a mnemonic is classified exactly when some family recognises it, as the first family in the source's order that does; otherwise the error is UnknownCommand with the `$` put back |
| StackMod.FixedFamiliesDisjoint | easycpu_lib/src/asm/stack/mod.rs:34-72 | apart from the ALU and MEM tables, every mnemonic a family recognises is classified as that family's operation, so no fixed family shadows another |
| StackMod.EarlierWins | easycpu_lib/src/asm/stack/mod.rs:34-52 | a base mnemonic is base whatever the tables say, and an ALU table entry wins over a MEM one when no earlier family knows the name |
| StackMod.ParseInstruction | easycpu_lib/src/asm/stack/mod.rs:29-75 | an unknown mnemonic is UnknownCommand; INIT, DUP and SWP never fail and use ZX, PUSH and POP take the register read; LOCEND never fails and the other local macros take the constant read; PCONST and ACONST take the constant read and PLABEL the label read; RET never fails and FUNC takes the three constant reads, the first failing read's error winning; CALL and the jumps take one label read and fail with it; ALU and MEM macros take only the flag letters and never fail |
| StackSig.StackExecCtx.constructor | easycpu_lib/src/stack/stackop.rs:16-19 | the context holds exactly the given input, output and scratch registers |
| StackSig.CompContext.Instruct | easycpu_lib/src/compile/context.rs:28-31 | the word is appended to the emitted words and the stacked operations are unchanged |
| StackSig.CompContext.Stack | easycpu_lib/src/stack/stackop.rs:47-51 | the operation is appended to the stacked operations and no word is emitted |
| StackSig.CompContext.InstructAll | easycpu_lib/src/stack/instr/local.rs:81-83 | every word is appended in order and the stacked operations are unchanged |
| StackManip.ParseAsm | easycpu_lib/src/stack/instr/manip.rs:37-44 | exactly SWP, DUP and DROP are recognised, each as its own operation |
| StackManip.Signature | easycpu_lib/src/stack/instr/manip.rs:48-66 | no flags and no scratch registers; SWP takes two and pushes two, DUP takes one and pushes two, DROP takes one and pushes none |
| StackManip.Execute | easycpu_lib/src/stack/instr/manip.rs:68-85 | only the output registers change, their first entries becoming the chosen input registers; nothing is emitted and it never fails |
| StackManip.Effect | easycpu_lib/src/stack/instr/manip.rs:48-66 | the reference effect on the values taken has as many values as the signature pushes |
| StackManip.ExecuteRealises | easycpu_lib/src/stack/instr/manip.rs:73-83 | the values in the output registers execute leaves are the reference effect on the input values: SWP exchanges the two, DUP repeats the one, DROP removes it |
| StackLocalOp.Signature | easycpu_lib/src/stack/instr/local.rs:90-111 | LOCINIT and LOCEND save and reset the stack and are impure; STORE takes one value with one scratch register and is impure; LOAD and ADDR push one value; nothing else takes or pushes |
| StackLocalOp.InstructLocalAddr | easycpu_lib/src/stack/instr/local.rs:68-86 | appends MOV out, LP followed by the add-constant expansion of the local's offset, and stacks nothing |
| StackLocalOp.Execute | easycpu_lib/src/stack/instr/local.rs:113-164 | appends the operation's words (the frame save or restore, or the local's address followed by its LOAD or STORE) and stacks nothing |
| StackLocalOp.StoreAsWrittenPanics | easycpu_lib/src/stack/instr/local.rs:99-104 | STORE's signature pushes nothing, so with the empty output list a compiler hands it the branch as written has no register to store, while the corrected branch stores the input |
| StackLocalOp.LocalAddrMeaning | easycpu_lib/src/stack/instr/local.rs:74-83 | the address words leave LP plus the local's offset in the register given and change nothing else |
| StackLocalOp.StoreMeaning | easycpu_lib/src/stack/instr/local.rs:153-156 | the corrected STORE writes its input value to the local's cell; only the scratch register changes |
| StackLocalOp.StoreAfter | easycpu_lib/src/stack/instr/local.rs:155 | once the address is in the scratch register, the STORE word writes the input there |
| StackLocalOp.LoadMeaning | easycpu_lib/src/stack/instr/local.rs:147-151 | LOAD leaves the local's value in its output register and changes no memory and no other register |
| StackLocalOp.LoadAfter | easycpu_lib/src/stack/instr/local.rs:150 | once the address is in the output register, the LOAD word replaces it by the word stored there |
| StackLocalOp.LocinitMeaning | easycpu_lib/src/stack/instr/local.rs:119-135 | LOCINIT saves LP in the cell at SP, points LP just above it and moves SP past the saved cell and the locals, modulo 2^16 |
| StackLocalOp.SaveLink | easycpu_lib/src/stack/instr/local.rs:120-130 | STORE LP, [SP+0] then INC LP, SP saves the old LP at SP and sets LP to SP + 1 |
| StackLocalOp.LocinitAfter | easycpu_lib/src/stack/instr/local.rs:132-134 | once the link is saved, the ACONST on SP reserves the saved cell and the locals |
| StackLocalOp.LocendMeaning | easycpu_lib/src/stack/instr/local.rs:137-145 | LOCEND sets SP to LP - 1 and reloads LP from the cell there |
| StackLocalOp.FrameRestores | easycpu_lib/src/stack/instr/local.rs:119-145 | after LOCINIT, LOCEND's SP is the SP before LOCINIT and the cell it reloads from holds the LP before LOCINIT, so the pair restores the frame |
| StackLabelOp.Signature | easycpu_lib/src/stack/instr/label.rs:20-25 | the label operation takes nothing, pushes one value, needs no scratch register and has no flags |
| StackLabelOp.Execute | easycpu_lib/src/stack/instr/label.rs:27-33 | the label's load into the first output register is emitted when it succeeds; its error is the result and then nothing is emitted |
| StackLabelOp.ParseAsm | easycpu_lib/src/stack/instr/label.rs:50-52 | one label read makes the instruction; a failed read is the error |
| StackLabelOp.Compile | easycpu_lib/src/stack/instr/label.rs:56-60 | a label that resolves stacks one label operation carrying the resolved number; a failed resolution is the error and nothing is stacked; no word is emitted either way |
| StackOp.ExecSpec | easycpu_lib/src/stack/stackop.rs:21-30 | only the label operation can fail; a successful execute keeps the number of output registers, only SWP, DUP and DROP rename them, and those emit no word |
| StackOp.Execute | easycpu_lib/src/stack/stackop.rs:23-27 | the dispatched execute succeeds exactly when the reference does; on success the words and output registers are the reference's, on failure nothing is emitted; inputs, scratch registers and stacked operations are unchanged |
| StackOp.InstructionCompile | easycpu_lib/src/stack/stackop.rs:47-51 | a copy of the operation is stacked, no word is emitted, and it never fails |
| StackOp.LabelCompile | easycpu_lib/src/stack/instr/label.rs:56-60 | with this module's operation type, a resolved label stacks one label operation with the resolved number and a failed one stacks nothing and is the error |
| StackOp.RepeatGrows | easycpu_lib/src/stack/stackop.rs:54-72 | one more copy of a word can be added at either end |
| StackOp.ApplyStackShift | easycpu_lib/src/stack/stackop.rs:54-72 | the shift is counted back to zero, emitting one DEC SP per unit below zero or one INC SP per unit above |
| StackOp.LoadWords | easycpu_lib/src/stack/stackop.rs:96-99 | one load per value taken |
| StackOp.StoreWords | easycpu_lib/src/stack/stackop.rs:107-110 | one store per value pushed |
| StackOp.Lower | easycpu_lib/src/stack/stackop.rs:74-114 | lowering fails exactly when execute fails, with execute's error |
| StackOp.EmitLoads | easycpu_lib/src/stack/stackop.rs:96-99 | the first loop emits the loads from the topmost value down, the deepest landing in R2, and ends at shift minus the number taken |
| StackOp.EmitStores | easycpu_lib/src/stack/stackop.rs:107-110 | the second loop emits one store per pushed output, from the deepest up, and ends at the start shift plus the number pushed |
| StackOp.ExecuteAndStore | easycpu_lib/src/stack/stackop.rs:105-113 | if execute fails its error is the result and nothing more is emitted; otherwise execute's words, the stores and the final move of SP follow |
| StackOp.StoreAndShift | easycpu_lib/src/stack/stackop.rs:107-112 | appends the stores followed by the move of SP by the shift they reach |
| StackOp.EmitPrefix | easycpu_lib/src/stack/stackop.rs:94-103 | appends the loads, and for an impure operation the move of SP down past its inputs; the returned shift is where the stores start |
| StackOp.CompileStackop | easycpu_lib/src/stack/stackop.rs:74-114 | the result and the words emitted are the lowering of the operation's signature and its execute on R2..R5 |
| StackOp.SpShiftAppend | easycpu_lib/src/stack/stackop.rs:54-72 | the SP movement of two blocks of words is the sum of their movements |
| StackOp.SpShiftRepeat | easycpu_lib/src/stack/stackop.rs:54-72 | n copies of a word move SP n times as far as the word does |
| StackOp.SpShiftNone | easycpu_lib/src/stack/stackop.rs:96-110 | MEM words do not move SP |
| StackOp.ShiftWordsMove | easycpu_lib/src/stack/stackop.rs:54-72 | apply_stack_shift moves SP by exactly the shift, in either direction |
| StackOp.LoadsStoresAreMem | easycpu_lib/src/stack/stackop.rs:96-110 | every load and store word is a MEM word |
| StackOp.NetShift | easycpu_lib/src/stack/stackop.rs:74-114 | around what execute emits, compile_stackop moves SP by the number of values pushed minus the number taken |
| StackOp.ManipWords | easycpu_lib/src/stack/stackop.rs:74-114 | SWP, DUP and DROP can be lowered, never fail, and lower to the written-out four, four and two words |
| StackOp.Vals | easycpu_lib/src/stack/stackop.rs:96-99 | an operation taking n values reads n values |
| StackOp.ValsSmall | easycpu_lib/src/stack/stackop.rs:96-99 | one value is the cell just below SP; two are the cells two below and one below, deepest first |
| StackOp.SwpLoads | easycpu_lib/src/stack/stackop.rs:96-99 | SWP's loads put the top into R3 and the value below it into R2 |
| StackOp.SwpStores | easycpu_lib/src/stack/stackop.rs:107-110 | SWP's stores write R3 two below SP and R2 just below SP |
| StackOp.SwpMeaning | easycpu_lib/src/stack/stackop.rs:74-114 | lowered SWP exchanges the two cells below SP and leaves SP where it was |
| StackOp.DupFirst | easycpu_lib/src/stack/stackop.rs:96-110 | DUP's load and first store read the top into R2 and write it back |
| StackOp.DupSecond | easycpu_lib/src/stack/stackop.rs:107-112 | DUP's second store writes R2 at SP and the final INC moves SP up one |
| StackOp.DupMeaning | easycpu_lib/src/stack/stackop.rs:74-114 | lowered DUP writes the top again just above it and moves SP up one |
| StackOp.DropMeaning | easycpu_lib/src/stack/stackop.rs:74-114 | lowered DROP reads the top into R2, changes no memory and moves SP down one |
| StackOp.SwpRealises | easycpu_lib/src/stack/stackop.rs:74-114 | lowered SWP leaves on the stack the reference effect of SWP on the two values |
| StackOp.DupRealises | easycpu_lib/src/stack/stackop.rs:74-114 | lowered DUP leaves on the stack the reference effect of DUP on the value |
| StackOp.DropRealises | easycpu_lib/src/stack/stackop.rs:74-114 | lowered DROP leaves on the stack the reference effect of DROP |
| StackOp.ManipRealises | easycpu_lib/src/stack/stackop.rs:74-114 | what compile_stackop makes of each of SWP, DUP and DROP realises its reference effect, whatever the stack holds |
| StackOptim.LookAt | easycpu_lib/src/stack/opt/optim.rs:19-37 | there is an operation exactly for 1 <= i <= the number compiled, and it is the i-th from the end |
| StackOptim.TruncU8 | easycpu_lib/src/stack/opt/optim.rs:148 | a drop count below 256 is kept as it is |
| StackOptim.WeightAppend | easycpu_lib/src/stack/opt/optim.rs:160-171 | the work measure of two lists is the sum of their measures |
| StackOptim.Fire | easycpu_lib/src/stack/opt/optim.rs:161-163 | a rule fires only with at least two operations compiled, and it queues one or two operations |
| StackOptim.WeightPair | easycpu_lib/src/stack/opt/optim.rs:160-171 | the measure of one or two operations is the sum of their weights |
| StackOptim.FireShrinks | easycpu_lib/src/stack/opt/optim.rs:81-148 | whichever rule fires, taking two operations back and queueing their replacement leaves strictly less work, so the loop ends |
| StackOptim.Run | easycpu_lib/src/stack/opt/optim.rs:160-172 | the loop ends with no more operations than were in play and with no rule firing at the end of the compiled list |
| StackOptim.RunMoves | easycpu_lib/src/stack/opt/optim.rs:166-167 | when no rule fires the next queued operation is moved onto the compiled list |
| StackOptim.RunRewrites | easycpu_lib/src/stack/opt/optim.rs:161-165 | when a rule fires on the last two compiled operations they go back off the list and the replacement is queued |
| StackOptim.RunFires | easycpu_lib/src/stack/opt/optim.rs:161-165 | one turn in which a rule fires is the rewrite, and it leaves less work |
| StackOptim.Optimized | easycpu_lib/src/stack/opt/optim.rs:153-173 | the optimized list is never longer than the input |
| StackOptim.OptimizationCtx.constructor | easycpu_lib/src/stack/opt/optim.rs:154-157 | nothing is compiled and the queue holds the operations |
| StackOptim.OptimizationCtx.Take | easycpu_lib/src/stack/opt/optim.rs:39-41 | the last compiled operation is removed and returned, or nothing when none is compiled; the queue is unchanged |
| StackOptim.OptimizationCtx.Queue | easycpu_lib/src/stack/opt/optim.rs:43-45 | the operation is added at the end of the queue and the compiled list is unchanged |
| StackOptim.OptimizationCtx.TakeTwo | easycpu_lib/src/stack/opt/optim.rs:81-82 | the two last compiled operations are removed and the queue is unchanged |
| StackOptim.OptimizeSvarLvar | easycpu_lib/src/stack/opt/optim.rs:48-89 | fires exactly when the compiled list ends in a STORE and a LOAD of the same mode and index, then takes both back and queues STORE then DUP; otherwise nothing changes |
| StackOptim.OptimizePconstAdd | easycpu_lib/src/stack/opt/optim.rs:91-122 | fires exactly when a constant not in add mode is followed by ADD or SUB, then replaces both by one add-mode constant of the value or of its wrapping negation; otherwise nothing changes |
| StackOptim.OptimizeDropPure | easycpu_lib/src/stack/opt/optim.rs:124-151 | fires exactly when a DROP follows an unflagged operation that pushes no more than it drops, then replaces both by a DROP of the rest plus what that operation took; otherwise nothing changes |
| StackOptim.TryRules | easycpu_lib/src/stack/opt/optim.rs:161-163 | the three rules are tried in order, each only when the ones before did not fire, and the first that fires is the one applied |
| StackOptim.Optimize | easycpu_lib/src/stack/opt/optim.rs:153-173 | the loop returns the optimized list of the operations |
| StackOptim.QuietFrom | easycpu_lib/src/stack/opt/optim.rs:160-171 | once a prefix is compiled, operations no rule fires on are moved across one by one and come out as they were |
| StackOptim.QuietUnchanged | easycpu_lib/src/stack/opt/optim.rs:153-173 | operations on which no rule fires at any point come out unchanged and in order |
| StackOptim.SvarLvarRule | easycpu_lib/src/stack/opt/optim.rs:48-89 | a STORE followed by a LOAD of a local fires exactly when mode and index agree, queueing the STORE and a DUP |
| StackOptim.StoreLoadBecomesDup | easycpu_lib/src/stack/opt/optim.rs:84-86 | STORE then LOAD of one local comes out as DUP then the STORE |
| StackOptim.PconstAddRule | easycpu_lib/src/stack/opt/optim.rs:91-122 | a plain constant followed by ADD becomes the add-mode constant, by SUB the add-mode negation modulo 2^16; an add-mode constant or any other operation leaves the rule silent |
| StackOptim.NegationCancels | easycpu_lib/src/stack/opt/optim.rs:110-114 | the wrapping negation added to the value gives zero, so adding it is subtracting the value |
| StackOptim.DropPureRule | easycpu_lib/src/stack/opt/optim.rs:124-151 | after any operation a DROP fires exactly when that operation is unflagged and pushes no more than is dropped, and then becomes one DROP of the remainder plus what it took |
| StackOptim.DropTest | easycpu_test/src/stack/optim.rs:6-16 | the drop test's PCONST 123, PCONST 109, ADD, DROP optimizes to a DROP of nothing, so the stack ends empty |
| StackOptim.DropTestMerge | easycpu_test/src/stack/optim.rs:9-11 | in that run the second constant and the ADD merge into an add-mode constant |
| StackOptim.DropTestDrops | easycpu_test/src/stack/optim.rs:9-12 | the DROP swallows the merged constant and is queued again still dropping one |
| StackOptim.DropTestLast | easycpu_test/src/stack/optim.rs:9-12 | the DROP then swallows the first constant, which took nothing, leaving a DROP of nothing |
| StackOptComp.SpillAll | easycpu_lib/src/stack/opt/comp.rs:59-63 | spilling a window emits two words per entry |
| StackOptComp.Without | easycpu_lib/src/stack/opt/comp.rs:23-27 | a register is kept exactly when it is in the list and not removed, and the list does not grow |
| StackOptComp.WithoutAppend | easycpu_lib/src/stack/opt/comp.rs:23-27 | removing from two lists joined is removing from each |
| StackOptComp.WithoutTwice | easycpu_lib/src/stack/opt/comp.rs:23-27 | removing the used registers and then the window entries is removing both at once |
| StackOptComp.WithoutFirst | easycpu_lib/src/stack/opt/comp.rs:29-30 | the register chosen is the first candidate that was not removed |
| StackOptComp.Alloc | easycpu_lib/src/stack/opt/comp.rs:16-35 | an allocation returns exactly when some candidate is not in use, and then spills no more entries than the window holds |
| StackOptComp.AllocChoice | easycpu_lib/src/stack/opt/comp.rs:16-35 | the register allocated is a candidate, not in use, not in the window left after the spills, and the first such candidate |
| StackOptComp.AllocFree | easycpu_lib/src/stack/opt/comp.rs:29-30 | with a register free, the first free candidate is returned and nothing is spilled or emitted |
| StackOptComp.AllocRetry | easycpu_lib/src/stack/opt/comp.rs:31-34 | with no register free the oldest window entry is spilled and the allocation retried on the rest of the window |
| StackOptComp.AllocSpills | easycpu_lib/src/stack/opt/comp.rs:16-57 | the words an allocation emits spill exactly the oldest entries it dropped, oldest first, and only while no register was free |
| StackOptComp.RoomWhenFew | easycpu_lib/src/stack/opt/comp.rs:16-35 | with at most three registers in use an allocation always terminates |
| StackOptComp.TakeOne | easycpu_lib/src/stack/opt/comp.rs:90-97 | one turn of the input loop takes one more register |
| StackOptComp.Take | easycpu_lib/src/stack/opt/comp.rs:90-97 | the input loop takes exactly as many registers as asked |
| StackOptComp.TakeStep | easycpu_lib/src/stack/opt/comp.rs:90-97 | a turn with an empty window needs a free register for the load, and the loop is that turn followed by the rest |
| StackOptComp.AllocOne | easycpu_lib/src/stack/opt/comp.rs:107-118 | one allocation of a loop succeeds exactly when some candidate is not in use, and adds one register |
| StackOptComp.AllocMany | easycpu_lib/src/stack/opt/comp.rs:107-118 | the temps loop and the outputs loop allocate exactly as many registers as asked |
| StackOptComp.AllocManyStep | easycpu_lib/src/stack/opt/comp.rs:107-118 | each turn of an allocation loop allocates against the registers chosen so far and the window left by the previous spills |
| StackOptComp.Prepare | easycpu_lib/src/stack/opt/comp.rs:80-118 | when the registers are handed out, there are as many inputs as taken, temps as asked and outputs as pushed |
| StackOptComp.FitsBySize | easycpu_lib/src/stack/opt/comp.rs:120 | registers handed out in those numbers are always enough for execute |
| StackOptComp.CompileOneUnfold | easycpu_lib/src/stack/opt/comp.rs:80-127 | compile_one executes on the registers handed out; an error of execute is the result, and otherwise its words follow the allocation's and its outputs are pushed onto the window |
| StackOptComp.CompileManip | easycpu_lib/src/stack/opt/comp.rs:120-124 | for SWP, DUP and DROP the window gains the output registers as execute renamed them and no word beyond the allocation's |
| StackOptComp.CompileSpec | easycpu_lib/src/stack/opt/comp.rs:130-146 | a compile that completes leaves the window empty, and the words emitted only ever extend what was there |
| StackOptComp.Popped | easycpu_lib/src/stack/opt/comp.rs:90-97 | popping n entries gives the newest n, newest first |
| StackOptComp.TakeFromWindow | easycpu_lib/src/stack/opt/comp.rs:90-97 | with enough window entries the inputs are the newest entries, popped newest first, and nothing is emitted |
| StackOptComp.InputsFromWindow | easycpu_lib/src/stack/opt/comp.rs:90-98 | after the reverse, an operation's inputs, deepest first, are the newest window entries in window order |
| StackOptComp.ReversePopped | easycpu_lib/src/stack/opt/comp.rs:98 | popping the newest n and reversing them gives them in window order |
| StackOptComp.FirstCandidate | easycpu_lib/src/stack/opt/comp.rs:17-30 | with the first k of R2..R5 in use, the next one is chosen |
| StackOptComp.AllocNext | easycpu_lib/src/stack/opt/comp.rs:16-35 | with an empty window an allocation takes the next candidate and spills nothing |
| StackOptComp.TakeOneFromMemory | easycpu_lib/src/stack/opt/comp.rs:65-78 | with an empty window a turn of the input loop loads the next candidate from below SP |
| StackOptComp.TakeFromMemory | easycpu_lib/src/stack/opt/comp.rs:65-97 | with an empty window the input loop loads the candidates in order, each with DEC SP and a LOAD |
| StackOptComp.InputsFromMemory | easycpu_lib/src/stack/opt/comp.rs:90-98 | with an empty window the deepest input is the last register loaded: the inputs are R2 onwards in reverse |
| StackOptComp.SpillAllShift | easycpu_lib/src/stack/opt/comp.rs:41-63 | spilling moves SP up by one per entry |
| StackOptComp.AllocShift | easycpu_lib/src/stack/opt/comp.rs:16-57 | an allocation moves SP up by exactly the number of entries it spilled |
| StackOptComp.AllocOneFacts | easycpu_lib/src/stack/opt/comp.rs:107-118 | one allocation keeps the allocated registers distinct candidates outside those in use and keeps the count of values in memory plus window |
| StackOptComp.FreshAppend | easycpu_lib/src/stack/opt/comp.rs:107-118 | a candidate in neither list keeps the allocated registers distinct and unused |
| StackOptComp.AllocNextFacts | easycpu_lib/src/stack/opt/comp.rs:107-118 | one turn of an allocation loop keeps those facts and the count of values |
| StackOptComp.AllocManyFacts | easycpu_lib/src/stack/opt/comp.rs:107-118 | the allocation loops hand out distinct candidates not in use, keep the count of values in memory and window, and an empty window stays empty |
| StackOptComp.TakeFacts | easycpu_lib/src/stack/opt/comp.rs:90-97 | the input loop keeps the count of values in memory, window and taken registers |
| StackOptComp.TakeOneFacts | easycpu_lib/src/stack/opt/comp.rs:90-97 | one turn of the input loop keeps that count |
| StackOptComp.PrepareFacts | easycpu_lib/src/stack/opt/comp.rs:80-118 | temps are distinct from the inputs, outputs distinct from the temps, a save or reset flag empties the window, and the values in memory and window drop by exactly the inputs taken |
| StackOptComp.ManipDepth | easycpu_lib/src/stack/opt/comp.rs:80-127 | compiling SWP, DUP or DROP changes the number of values on the stack by what it pushes less what it takes |
| StackOptComp.AsOps | easycpu_lib/src/stack/opt/comp.rs:139-141 | the manipulations as stack operations, one for one |
| StackOptComp.ManipProgramDepth | easycpu_lib/src/stack/opt/comp.rs:130-146 | a program of manipulations always completes, and at the end SP has moved by the window spilled plus the net stack effect |
| StackOptComp.AllocFromEmptyStep | easycpu_lib/src/stack/opt/comp.rs:16-35 | from an empty window with the first k candidates in use, the next allocation hands out the next candidate and emits nothing |
| StackOptComp.PrepareVia | easycpu_lib/src/stack/opt/comp.rs:89-118 | for an operation without flags the registers are the reversed inputs, the temps and the outputs of the three loops, and the words their concatenation |
| StackOptComp.TwoFresh | easycpu_lib/src/stack/opt/comp.rs:114-118 | with nothing in use and an empty window two outputs are R2 and R3 and nothing is emitted |
| StackOptComp.PrepareDup | easycpu_lib/src/stack/opt/comp.rs:89-118 | DUP of the only window entry takes it, and since inputs are free again its outputs are R2 and R3 |
| StackOptComp.DupRenames | easycpu_lib/src/stack/opt/comp.rs:120-124 | so DUP of one window entry leaves it twice in the window and emits nothing |
| StackOptComp.PrepareSwp | easycpu_lib/src/stack/opt/comp.rs:89-118 | SWP of two window entries takes them in window order with outputs R2 and R3 |
| StackOptComp.SwpRenames | easycpu_lib/src/stack/opt/comp.rs:120-124 | so SWP leaves the two entries exchanged in the window and emits nothing |
| StackOptComp.OptCompiler.constructor | easycpu_lib/src/stack/opt/comp.rs:134-137 | the window starts empty on the given compile context |
| StackOptComp.OptCompiler.Available | easycpu_lib/src/stack/opt/comp.rs:17-27 | the available list is R2..R5 without the used registers and without the window entries |
| StackOptComp.OptCompiler.AllocFreeRegister | easycpu_lib/src/stack/opt/comp.rs:16-35 | returns the allocation's register; the window loses and the words gain exactly the spilled entries |
| StackOptComp.OptCompiler.SpillAndRetry | easycpu_lib/src/stack/opt/comp.rs:31-34 | the spill-and-retry branch ends as the allocation specifies |
| StackOptComp.OptCompiler.PushRegToStack | easycpu_lib/src/stack/opt/comp.rs:37-39 | the register becomes the newest window entry |
| StackOptComp.OptCompiler.ResetSingle | easycpu_lib/src/stack/opt/comp.rs:41-57 | the oldest entry is stored at SP and SP moved up, or nothing happens on an empty window |
| StackOptComp.OptCompiler.ResetStack | easycpu_lib/src/stack/opt/comp.rs:59-63 | the whole window is spilled, oldest first, and left empty |
| StackOptComp.OptCompiler.LoadOneIntoReg | easycpu_lib/src/stack/opt/comp.rs:65-78 | after the allocation, DEC SP and a LOAD from the new SP into the allocated register |
| StackOptComp.OptCompiler.TakeInputs | easycpu_lib/src/stack/opt/comp.rs:89-97 | the input loop's registers, window and words are those of the reference loop |
| StackOptComp.OptCompiler.AllocRegs | easycpu_lib/src/stack/opt/comp.rs:107-118 | the temps or outputs loop's registers, window and words are those of the reference loop |
| StackOptComp.OptCompiler.PrepareRegs | easycpu_lib/src/stack/opt/comp.rs:80-118 | the registers handed out, the window and the words emitted before execute are the plan's |
| StackOptComp.OptCompiler.CompileOne | easycpu_lib/src/stack/opt/comp.rs:80-127 | succeeds exactly when the reference is done, with its error otherwise; the words and window are the reference's |
| StackOptComp.OptCompiler.PushAll | easycpu_lib/src/stack/opt/comp.rs:122-124 | the outputs join the window in order |
| StackOptComp.Compile | easycpu_lib/src/stack/opt/comp.rs:130-146 | each operation compiled in turn, the first error aborting, and the window spilled at the end, as the reference specifies |
| AsmCompile.ScopeStep | easycpu_lib/src/asm/compile.rs:24-32 | entering a scope pushes its id and makes it current; leaving pops, and the current scope becomes the new top or 0 when the stack is empty; other items leave the scopes alone |
| AsmCompile.DiscoverMeaning | easycpu_lib/src/asm/compile.rs:13-36 | the pre-pass succeeds exactly when no two labels share a scope and name, and then holds every such key, unset |
| AsmCompile.PassPrefix | easycpu_lib/src/asm/compile.rs:49-89 | a pass that got through n items got through every shorter prefix |
| AsmCompile.PassErr | easycpu_lib/src/asm/compile.rs:57-60 | a compile or encode error ends the pass and stays its result |
| AsmCompile.VisitMeaning | easycpu_lib/src/asm/compile.rs:64-75 | a label gets the current address under its key, no other entry changes, and the pass is marked changed exactly when the entry was unset or held another address; other items touch neither |
| AsmCompile.PassLabels | easycpu_lib/src/asm/compile.rs:49-89 | with unique keys a pass leaves each label at the address where the pass reached it and touches no other entry |
| AsmCompile.PassChanged | easycpu_lib/src/asm/compile.rs:64-75 | with unique keys a pass asks for another exactly when some label was unset or stood elsewhere before it |
| AsmCompile.AttemptsResolved | easycpu_lib/src/asm/compile.rs:38-102 | whatever the passes return was compiled against a label table in which every label sits at the address of the words before it |
| AsmCompile.CompileResolved | easycpu_lib/src/asm/compile.rs:7-103 | a successful compile has unique label keys and is consistent with its labels' addresses |
| AsmCompile.FirstPassChanges | easycpu_lib/src/asm/compile.rs:64-75 | the first pass over a program with a label always asks for another, since every entry starts unset |
| AsmCompile.Compile | easycpu_lib/src/asm/compile.rs:7-103 | the pre-pass and then up to 1024 passes until one changes nothing, returning what the reference does, TooManyAttempts included |
| AsmCompile.DiscoverLabels | easycpu_lib/src/asm/compile.rs:13-36 | the pre-pass loop returns the reference label table, or LabelRedefined at the first repeated key |
| AsmCompile.RunPass | easycpu_lib/src/asm/compile.rs:41-89 | one pass from a cleared output and reset scopes is the reference pass |
| AsmCompile.DiscoverErr | easycpu_lib/src/asm/compile.rs:17-18 | a pre-pass error stays the result to the end |
| ToolkitCompile.DiscoverMeaning | toolkit/src/asm/compile.rs:10-18 | the pre-pass fails exactly on a repeated name, with LabelRedefined of a label of the program; otherwise it holds every name, unset |
| ToolkitCompile.PassPrefix | toolkit/src/asm/compile.rs:28-56 | a pass that got through n items got through every shorter prefix |
| ToolkitCompile.PassErr | toolkit/src/asm/compile.rs:32-38 | a compile or encode error ends the pass and stays its result |
| ToolkitCompile.PassWithoutInstructions | toolkit/src/asm/compile.rs:28-56 | only instructions emit words: labels and Nops alone compile to nothing in any pass |
| ToolkitCompile.VisitMeaning | toolkit/src/asm/compile.rs:42-52 | a label gets the current address, no other entry changes, and the pass is marked changed exactly when the entry was unset or held another address |
| ToolkitCompile.PassLabels | toolkit/src/asm/compile.rs:28-56 | with unique names each label passed sits at its address and every other entry stays as before |
| ToolkitCompile.PassChanged | toolkit/src/asm/compile.rs:42-52 | with unique names a pass asks for another exactly when some label was unset or stood elsewhere before it |
| ToolkitCompile.AttemptsResolved | toolkit/src/asm/compile.rs:21-69 | whatever the passes return was compiled against a label table in which every label sits at its address |
| ToolkitCompile.CompileResolved | toolkit/src/asm/compile.rs:7-70 | a successful compile has unique names and returns the last pass's words, compiled against a table that agrees with every label's address |
| ToolkitCompile.AttemptsExhausted | toolkit/src/asm/compile.rs:60-67 | when every pass asks for another, the compile ends with TooManyAttempts |
| ToolkitCompile.Compile | toolkit/src/asm/compile.rs:7-70 | the pre-pass and then up to 1024 passes until one changes nothing, returning what the reference does |
| ToolkitCompile.DiscoverLabels | toolkit/src/asm/compile.rs:10-18 | the pre-pass loop returns the reference label table, or LabelRedefined at the first repeated name |
| ToolkitCompile.DiscoverErr | toolkit/src/asm/compile.rs:12-13 | a pre-pass error stays the result to the end |
| ToolkitCompile.RunPass | toolkit/src/asm/compile.rs:24-56 | one pass from a cleared output is the reference pass |
| CompileInst.InstructMeaning | easycpu_lib/src/compile/inst.rs:15-22 | instruct appends exactly one instruction and advances the address by one; patch_instruct replaces one existing slot and changes nothing else |
| CompileInst.CompileAllMeaning | easycpu_lib/src/compile/inst.rs:29-37 | compile_instructions succeeds exactly when every element compiles, each against the context the one before it left; otherwise the first failure is the result and the elements after it are not compiled |
| CompileInst.AfterSuffix | easycpu_lib/src/compile/inst.rs:33 | compiling the rest after the first element is compiling the whole list one element further |
| CompileInst.CompileContext.Instruct | easycpu_lib/src/compile/inst.rs:15-18 | the context becomes the instructed value of the old one |
| CompileInst.CompileContext.PatchInstruct | easycpu_lib/src/compile/inst.rs:20-22 | the context becomes the patched value of the old one |
| CompileInst.CompileContext.CompileInstructions | easycpu_lib/src/compile/inst.rs:29-37 | the result and the new context are those of compiling the elements in turn from the old context |
| CompileProgram.AtomsAppend | easycpu_lib/src/compile/label.rs:38-40 | compiling two atom lists in a row compiles the first, and the second from where the first left off only if the first did not fail |
| CompileProgram.AtomScopes | easycpu_lib/src/compile/label.rs:35-45 | an atom that compiles leaves the scope stack and the current scope as it found them; one that fails keeps the old stack as a prefix, and a failing scope is still entered; this rests on the push/pop reading of `enter_local_scope`/`leave_local_scope` stated under Left out |
| CompileProgram.AtomsScopes | easycpu_lib/src/compile/label.rs:38-40 | a list of atoms that compiles leaves the scopes as it found them; one that fails keeps the old stack as a prefix; this rests on the push/pop reading of `enter_local_scope`/`leave_local_scope` stated under Left out |
| CompileProgram.Reset | easycpu_lib/src/compile/compiler.rs:21-28 | every pass starts inside scope 0 with the label table unchanged |
| CompileProgram.PassFoldStep | easycpu_lib/src/compile/compiler.rs:30-34 | step lemma for `PassErrors`: one more atom in a pass adds its error, if it fails, at the end of the list and nothing else |
| CompileProgram.PassErrors | easycpu_lib/src/compile/compiler.rs:30-34 | a pass collects at most one error per atom and none exactly when every atom compiles; every failing atom's error is in the list, because a failure does not stop the pass |
| CompileProgram.AtStart | easycpu_lib/src/compile/compiler.rs:32 | each error is kept, in order, at the default position |
| CompileProgram.Encoded | easycpu_lib/src/compile/compiler.rs:56-60 | the words are the encodings of the instructions when all encode; otherwise one `InvalidInstruction` with the encoding's error |
| CompileProgram.PassesSettled | easycpu_lib/src/compile/compiler.rs:20-60 | a successful compile returns the encoding of a pass that is not the discovery pass, compiled every atom and asked for no further pass |
| CompileProgram.FailingPass | easycpu_lib/src/compile/compiler.rs:36-38 | a pass with a failing atom ends the compile with exactly that pass's errors |
| CompileProgram.PassesExhausted | easycpu_lib/src/compile/compiler.rs:20-54 | if every pass asks for another, the compile ends in `TooManyAttempts` |
| CompileProgram.TwoPasses | easycpu_lib/src/compile/compiler.rs:20-60 | when the discovery pass compiles and the next pass settles, the result is that second pass's encoding |
| CompileProgram.Context.constructor | easycpu_lib/src/compile/compiler.rs:9-18 | the fresh context has no output, address 0, no labels and scopes, resolves labels and has no errors |
| CompileProgram.Context.EnterLocalScope | easycpu_lib/src/compile/label.rs:36 | the scope id is pushed and becomes the current scope; nothing else changes. The callee's body is not in the source; this is the assembler's push (see Left out) |
| CompileProgram.Context.LeaveLocalScope | easycpu_lib/src/compile/label.rs:42 | the innermost scope is popped and its parent becomes current (0 at the outermost); nothing else changes. The callee's body is not in the source; this is the assembler's pop (see Left out) |
| CompileProgram.Context.CompileAtom | easycpu_lib/src/compile/label.rs:14-45 | the atom's result and the new context are the reference compile of the atom from the old context |
| CompileProgram.Context.RunPass | easycpu_lib/src/compile/compiler.rs:21-34 | the errors and the new context are those of the reference pass from the reset old context |
| CompileProgram.Compile | easycpu_lib/src/compile/compiler.rs:6-61 | the result is the reference compile: passes until one settles, at most 1024 after the discovery pass, a pass with errors ending it early |
| LabelContext.InstructMeaning | easycpu_lib/src/compile/context.rs:28-35 | instruct appends exactly the one instruction and advances the address by one; patch_instruct replaces one existing slot and changes nothing else |
| LabelContext.NewLabelIds | easycpu_lib/src/compile/context.rs:37-42 | a new label gets the next id, the ids of labels created in a row are consecutive, the old positions are kept, another pass is requested, and the output and address are unchanged |
| LabelContext.EmittedMeaning | easycpu_lib/src/compile/context.rs:44-52 | emitting a label places it at the current address and leaves every other label alone; another pass is requested exactly when the label moved; emitting it again at the same address changes nothing |
| LabelContext.ResolvedMeaning | easycpu_lib/src/compile/context.rs:54-61 | the anonymous id resolves to the address 8 ahead; any other label's offset, added to the current address, gives the label's position |
| LabelContext.EmittedResolvesHere | easycpu_lib/src/compile/context.rs:44-61 | a label resolved where it was just emitted has offset 0 |
| LabelContext.CompileContext.constructor | easycpu_lib/src/compile/context.rs:17-26 | the fresh context has no instructions, address 0, no labels, no pass requested and no errors |
| LabelContext.CompileContext.Instruct | easycpu_lib/src/compile/context.rs:28-31 | the context becomes the instructed value of the old one |
| LabelContext.CompileContext.PatchInstruct | easycpu_lib/src/compile/context.rs:33-35 | the context becomes the patched value of the old one, for a slot that exists |
| LabelContext.CompileContext.EmitNewLabel | easycpu_lib/src/compile/context.rs:37-42 | the id and the new context are those of creating a label on the old one |
| LabelContext.CompileContext.EmitLabel | easycpu_lib/src/compile/context.rs:44-52 | the new context is the old one with the label emitted |
| LabelContext.CompileContext.ResolveLabel | easycpu_lib/src/compile/context.rs:54-61 | the offset is the reference resolution, and the context is unchanged |
| Exec.SlotInjective | easycpu_lib/src/exec.rs:33-61 | R2, R3, R4, R5, LP and SP each have a slot of their own |
| Exec.RegReadAfterWrite | easycpu_lib/src/exec.rs:33-62 | after `set_reg` the written register reads back the value (ZX still reads 0) and every other register is unchanged; memory is unchanged, and only a write to PC records a jump |
| Exec.MemReadAfterWrite | easycpu_lib/src/exec.rs:64-74 | after `set_mem` the written address reads back the value and every other address and every register is unchanged |
| Exec.InitialMeaning | easycpu_lib/src/exec.rs:78-88 | a new machine has pc and every register 0, the image's words where it has them and 0 after them, the word at 0xFFFF set to 0xFFFF, no event and no jump |
| Exec.PerformAllPc | easycpu_lib/src/exec.rs:46-54 | an instruction's accesses count as a jump exactly when one of them writes PC, and PC ends at the last value written to it |
| Exec.NextPc | easycpu_lib/src/exec.rs:105-119 | after one step pc is the next word when the instruction wrote no PC, and otherwise the last value it wrote to PC |
| Exec.RunMeaning | easycpu_lib/src/exec.rs:121-127 | `run` executes instructions until the word at 0xFFFF is 0: it stops exactly at the first state where that word is 0 (within the fuel), having run every step before it |
| Exec.ExecCpu.constructor | easycpu_lib/src/exec.rs:78-88 | the new machine's state is the initial state of the image |
| Exec.ExecCpu.GetReg | easycpu_lib/src/exec.rs:33-44 | the value is the register's in the state |
| Exec.ExecCpu.SetReg | easycpu_lib/src/exec.rs:46-62 | the new state is the old one with the register written |
| Exec.ExecCpu.GetMem | easycpu_lib/src/exec.rs:64-69 | the value is the word at the address, or 0 outside memory, and only the last event changes |
| Exec.ExecCpu.SetMem | easycpu_lib/src/exec.rs:71-74 | the new state is the old one with the word written |
| Exec.ExecCpu.ExecNext | easycpu_lib/src/exec.rs:105-119 | the new state is one reference step of the old one |
| Exec.ExecCpu.Run | easycpu_lib/src/exec.rs:121-127 | the new state is the reference run from the old one |

## Left out

- The command-line front ends, the web and WASM front end, the hardware simulation harness and the test runners are left out. They are I/O and user interface, not toolchain logic.
- `ExecCpu::dump_state` and the table `run` prints are left out because they are console output. `Exec.ExecCpu.Run` takes a `fuel` bound in place of the unbounded `while` loop; `Exec.RunMeaning` states what happens within that bound.
- `cpu::Instruction::decode` and `Instruction::execute` are not part of this model. `Exec` takes `execute` as a parameter that lists the register and memory accesses an instruction makes.
- easycpu_lib/src/asm/alu.rs and mem.rs are not part of this model. MOV, INC, DEC, LADD, LSUB and the other ALU and MEM mnemonics stay symbolic words, one machine word each. `Semantics` gives the flag-free form of ADD, SUB, MOV, INC, DEC, LOAD, STORE, LADD and LSUB the meaning its name and its use in the expansions imply. AND has no meaning there, and neither has any word with a flag bit set (the ALU's x, y, o or the MEM's h, l, s): `Semantics.Step` stops on such a word.
- StackAlu.BinaryMeaning: covers, like `StackAlu.UnaryMeaning` and their helpers, only the stack ALU macros other than AND and without flag letters (no `.X`, `.Y` or `.O`). `Semantics` gives no meaning to AND or to a flagged ALU word.
- StackMem.LoadMeaning: covers, like `StackMem.StoreMeaning`, `StackMem.AccumulateMeaning` and their helpers, only the flag-free stack MEM macros (no `.H`, `.L` or `.S`), because `Semantics` gives no meaning to a flagged MEM word.
- The operand readers of parse_parts (`parse_u16_constant`, `pop_register`, `pop_label`, `pop_shift`, `pop_command`) are not part of this model. Each `parse_asm` receives what they return as parameters, including their errors.
- The ALU and MEM mnemonic tables behind `parse_operation` are not part of this model. `StackMod` and `AsmDispatch` take them as parameters.
- `ParsedLabel::resolve` and the named-label resolver are not part of this model. The expansions take the resolved offset, or the resolution error, as a parameter.
- The signatures of `ConstStackOp` and `AluStackOp` are not part of this model. `StackSig` takes them as given values.
- easycpu_lib/src/asm/stack/alu.rs is not part of this model. `StackMod` dispatches stack ALU operations to the toolkit's `StackAlu` shape in its place.
- toolkit's `stack::parse_instruction` is not part of this model. `ToolkitParse` keeps `$` statements as an unparsed stack command.
- The toolkit's `HaltStatement` (toolkit/src/asm/mem.rs) is not part of this model. `ToolkitParse` produces it as an abstract statement.
- `Register`'s `Display` is not part of this model. `Disasm` takes the register names as the parameter `names`.
- The trait objects of easycpu_lib/src/stack/optatom.rs (`Rc<ContextStatus>`, `mem::swap` of contexts) are left out as plumbing over types this model does not see. The implementations of the `CompContext` trait are not part of this model either.
- Non-ASCII input is left out, for two different reasons:
  - Inside quoted text, each character goes through `encode_utf8` into a one-byte buffer (toolkit/src/asm/parse.rs:49, easycpu_lib/src/asm/parse.rs:255). That panics on a character that needs more than one byte.
  - Everywhere else (comments, labels, mnemonics, operands) the source accepts such characters. But it upper-cases the statement with Unicode `to_uppercase` (toolkit/src/asm/parse.rs:57, easycpu_lib/src/asm/parse.rs:42), which can change the length of the text ('ß' becomes "SS"). The model's `Base.Upper` changes only the ASCII letters a to z.

  The reader lemmas of `AsmParse` and `ToolkitParse` therefore require ASCII text over the whole input, not only over its quoted parts.
- Semantics: the reference meaning keeps the program image apart from data memory. easycpu_lib/src/exec.rs has a single memory, read with `get_mem`, written with `set_mem`, and loaded with the image at start.
  - In the model, a load from an image address that holds a `CUSTOM` word reads that word. Every other load reads data memory, and no store changes the image.
  - So the `*Meaning` lemmas say nothing about a program that stores into its own code area, by self-modification or by a stack that grows into the code. They also say nothing about one that loads an instruction word of its own code as data.
- AsmParse.Group: counts the nesting of `(` as an unbounded number. The source's `cur_level` is an `i32` and would overflow after 2^31 nested parentheses.
- LoadConst: `parse_asm` and `new_signed` are not modelled. They only read operands through the unseen readers.
- StackLocalOp: the `parse_operation` and `parse_asm` of easycpu_lib/src/stack/instr/local.rs (lines 27-66) are the same as those of the asm stack macros and are modelled once, in `StackLocal`.
- LabelContext.CompileContext.Instruct: `current_pc += 1` is modelled as wrapping at 2^16. A debug build of the source panics there instead. The same holds for `CompileInst.CompileContext.Instruct` and for `exec_next`'s `self.pc += 1` in `Exec.ExecCpu.ExecNext`.
- StackLocalOp.ExecWords: the `self.idx + 1` of LOCINIT (easycpu_lib/src/stack/instr/local.rs:132) is taken as wrapping at 2^16.
- StackFunction.Compile: the `args + 1` in FUNC's return-SP constant is taken as wrapping at 2^16.
- StackOptComp.Compile: requires that the compile does not loop. When `used` already holds all four registers and no register can be freed, `alloc_free_register` recurses without end; `StackOptComp.CompileSpec` returns `Loops` in that case.
- StackOp.Execute: requires that the operation's input, output and scratch registers fit its signature. The source indexes those vectors and panics otherwise.
- CompileProgram.Context.EnterLocalScope: the context methods `enter_local_scope` and `leave_local_scope` that easycpu_lib/src/compile/label.rs:36 and :42 call are not part of this model, since their bodies are in no file of it. Entering is taken to push the id and make it current, and leaving to pop the innermost id and make the new innermost one current (0 when none is left), as the assembler's label pass does at easycpu_lib/src/asm/compile.rs:24-32. `CompileProgram.Context.LeaveLocalScope`, `CompileProgram.AtomScopes` and `CompileProgram.AtomsScopes` rest on the same assumption.
- LabelContext.CompileContext.ResolveLabel: requires the id to be the anonymous id (`usize::MAX`) or an existing label id. Any other id makes the source's index into `label_pos` at easycpu_lib/src/compile/context.rs:59 panic.
- StackLocalOp.InstructLocalAddr: `LoadConstInstruction::instr_add`, called at easycpu_lib/src/stack/instr/local.rs:81 and :132, is not part of this model. It is taken to emit the add-constant expansion `LoadConst.Emitted(Add, …)`, the words `ACONST` emits. `StackLocalOp.ExecWords` uses the same assumption for LOCINIT.
- StackLabelOp.Execute: `LoadLabelInstruction::instr` (easycpu_lib/src/stack/instr/label.rs:32) is not part of this model. Its words, or its error, are the parameter `labelCode`. It is taken to emit nothing when it fails.
- StackJump.Compile: the `ctx.current_pc + ins.len() as u16` of easycpu_lib/src/asm/stack/jump.rs:48 is taken as wrapping at 2^16. A debug build of the source panics there instead.
- ToolkitCall.Attempt: the `ctx.current_pc + ins.len() as u16` of toolkit/src/asm/stack/call.rs:52 is taken as wrapping at 2^16. A debug build of the source panics there instead.
- LabelContext.CompileContext.PatchInstruct, LabelContext.CompileContext.EmitLabel and CompileInst.CompileContext.PatchInstruct: require an existing slot or label id. The source indexes a vector and panics otherwise.
- StackSig: the stack-operation signatures carry the `temps` count and flags of a newer revision than easycpu_lib/src/stack/stackop.rs. `StackOptim` takes `DropOp` with a count from a later revision than easycpu_lib/src/stack/instr/manip.rs, whose `Drop` has none.
- StackMem.ParseAsm and StackAlu.ParseAsm: assume that `MemInstruction::new` and `AluInstruction::new` succeed, since their checks are in files that are not part of this model.
- StackAlu.Compile: `get_second_reg` is not part of this model. Its answer is the parameter `second`.
- easycpu_lib/src/asm/err.rs and toolkit/src/asm/err.rs are declared as datatypes (`Errors`, `ToolkitErrors`). They carry no behaviour to prove.
- `Base` and `Words` hold shared helpers and the symbolic word type. They have no counterpart of their own in the source.

## Findings

| source | as written | input that shows it | evidently intended | confidence | as-written member | corrected member |
|---|---|---|---|---|---|---|
| easycpu_lib/src/asm/branch.rs:21 | `(shift < -31) && (shift > 31)`, which no shift satisfies, so `BranchInstruction::new` never rejects a shift | shift 100: `new` accepts it, and encoding the branch then fails | `(shift < -31) \|\| (shift > 31)`: reject exactly the shifts outside -31..31 | high, not executed | Branch.NewCheckAsWrittenAccepts100 | Branch.NewValue |
| toolkit/src/cpu.rs:91-101 | the MEM shift is validated and encoded through `shift.abs()`; for -128 this wraps to -128 in a release build | LOAD with shift -128: validation passes, and the sign-extended magnitude 0xFF80 overwrites the opcode nibble with 0xF | reject every shift outside -3..3 and place only its two low magnitude bits | medium (a debug build panics instead), not executed | Cpu.MemShiftMinus128 | Cpu.Validate |
| toolkit/src/cpu.rs:104-123 | the BRANCH shift is validated and encoded through `shift.abs()` as well; for -128 this wraps to -128 in a release build | BRANCH with shift -128: validation passes (`-128 > 31` is false), and the sign-extended magnitude 0xFF80 overwrites the BRANCH opcode nibble with 0xF | reject every shift outside -31..31 and place only its five low magnitude bits | medium (a debug build panics instead), not executed | Cpu.BranchShiftMinus128 | Cpu.Validate |
| easycpu_lib/src/asm/load_const.rs:80-92 | the short form for the value 2 is `INC dst, src; INC dst, dst`, also for `LCONST PC, 2` | `LCONST PC, 2`: the first INC already writes PC := 1, so control lands on address 1, not 2 | keep `LCONST PC, 2` out of the two-word short form and load 2 into PC | high, not executed | LoadConst.LconstPc2AsWritten | LoadConst.CompiledMeaning |
| easycpu_lib/src/stack/instr/local.rs:153-156 | local STORE stores `stack.outs[0]`, but its signature pushes nothing | any local STORE compiled by the register-window compiler, which gives it an empty `outs`: indexing it panics | store the operation's input `inps[0]` | high, not executed | StackLocalOp.StoreAsWrittenPanics | StackLocalOp.StoreMeaning |
