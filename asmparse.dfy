// The character-level assembler reader (easycpu_lib/src/asm/parse.rs). A
// `ParseReader` walks the listing one character at a time: a letter or `$`
// starts a label or a statement, `#` a comment, a digit or sign a raw number,
// `"` a string literal, `{` and `}` mark local scopes, and `(` lifts the text
// up to its matching `)` in front of the line parsed just before it.
//
// The reader's loops are methods proved against the functions `Until`,
// `StringBody`, `Group` and `Run`, which describe what each loop consumes
// and produces; the lemmas at the end state what the reader does with each
// kind of token.
module AsmParse {
  import opened Base
  import opened Cpu
  import opened Errors
  import opened Words
  import AsmInst
  import AsmDispatch
  import StackMod
  import Custom
  import Semantics

  /** A parsed statement. Data words (numbers, strings, NOP and HALT) are
      complete; the other mnemonics carry the operand tokens their family's
      `parse_asm` reads. */
  datatype Statement =
    | Data(leaf: AsmInst.Leaf)
    | Operands(command: AsmDispatch.Command, operands: seq<string>)
    | StackMacro(family: StackMod.Family, flags: string, operands: seq<string>)

  /** `Parsed`. */
  datatype Parsed =
    | Instruction(ins: Statement)
    | Label(name: string)
    | EnterLocalScope(scope: nat)
    | LeaveLocalScope
    | Nop

  /** `ProgramLine`: the line number the reader was at, and the outcome. */
  datatype ProgramLine = ProgramLine(lineNumber: nat, compiled: Result<Parsed, CompileError>)

  /** The readers this file calls but that are not part of this model: the
      ALU and MEM mnemonic tables and `parse_u16_constant`. */
  datatype Readers = Readers(tables: StackMod.Tables, number: string -> Result<u16, CompileError>)

  /** HALT: a store of the zero register to address `0 + (-1)`. */
  const HaltLeaf: AsmInst.Leaf := AsmInst.MemLeaf(MemOperation.STORE, ZX, ZX, -1)

  /** `parse_instruction`: uppercase, split, dispatch. */
  function ParseInstruction(rd: Readers, s: string): (r: Result<Parsed, CompileError>)
    ensures r == Err(NoCommandSupplied) <==> AsmDispatch.SplitWhitespace(Upper(s)) == []
    ensures r.Ok? ==> r.value.Instruction?
  {
    match AsmDispatch.SplitStatement(s)
    case None => Err(NoCommandSupplied)
    case Some(sp) => Dispatch(rd, sp)
  }

  /** The dispatch of a split statement (parse.rs lines 53-102). */
  function Dispatch(rd: Readers, sp: AsmDispatch.Split): (r: Result<Parsed, CompileError>)
    ensures r != Err(NoCommandSupplied)
    ensures r.Ok? ==> r.value.Instruction?
  {
    var cmd := AsmDispatch.Classify(sp.name, sp.flags, rd.tables);
    match cmd
    case NopCommand => Ok(Instruction(Data(AsmInst.NopLeaf)))
    case HaltCommand => Ok(Instruction(Data(HaltLeaf)))
    case StackCommand(name, flags) =>
      (match StackMod.Classify(name, rd.tables)
       case Err(e) => Err(e)
       case Ok(family) => Ok(Instruction(StackMacro(family, flags, sp.operands))))
    case Unrecognised(name) => Err(UnknownCommand(name))
    case _ => Ok(Instruction(Operands(cmd, sp.operands)))
  }

  /** Some family claims the mnemonic: one of the fixed tests, or a `$`
      name the stack-macro dispatch knows. */
  predicate Recognised(name: string, flags: string, tables: StackMod.Tables) {
    var c := AsmDispatch.Candidates(name, flags, tables);
    (exists k :: 0 <= k < 8 && c[k].Some?) || (StartsWith(name, "$") && StackMod.Classify(name[1..], tables).Ok?)
  }

  /** A statement is reported as an unknown command, under its own
      (uppercased) mnemonic, exactly when no family claims that mnemonic. */
  lemma UnknownExactly(rd: Readers, sp: AsmDispatch.Split)
    ensures Dispatch(rd, sp) == Err(UnknownCommand(sp.name)) <==> !Recognised(sp.name, sp.flags, rd.tables)
  {
    var c := AsmDispatch.Candidates(sp.name, sp.flags, rd.tables);
    var cmd := AsmDispatch.Classify(sp.name, sp.flags, rd.tables);
    if c[0].Some? || c[1].Some? || c[2].Some? || c[3].Some? || c[4].Some? || c[5].Some? || c[6].Some? || c[7].Some? {
      assert !cmd.Unrecognised? && !cmd.StackCommand?;
    } else if c[8].Some? {
      assert sp.name[0] == '$';
      assert cmd == AsmDispatch.StackCommand(sp.name[1..], sp.flags);
      assert "$" + sp.name[1..] == sp.name;
      assert forall k :: 0 <= k < 8 ==> c[k].None?;
    } else {
      assert cmd == AsmDispatch.Unrecognised(sp.name);
      assert forall k :: 0 <= k < 8 ==> c[k].None?;
    }
  }

  /** HALT dispatches to the halting store, whatever its operands. */
  lemma HaltParsed(rd: Readers, sp: AsmDispatch.Split)
    requires sp.name == "HALT"
    requires rd.tables.aluOp("HALT").None? && rd.tables.memOp("HALT").None?
    ensures Dispatch(rd, sp) == Ok(Instruction(Data(HaltLeaf)))
  {
    AsmDispatch.FixedNames(sp.name, sp.flags, rd.tables);
  }

  /** The word HALT compiles to, run once, writes 0 to address 0xFFFF, the
      cell the emulator's run loop watches. */
  lemma HaltStores(image: Semantics.Image, s: Semantics.State)
    requires Semantics.Valid(s) && s.pc in image && AsmInst.CompileLeaf(HaltLeaf).Ok?
    requires image[s.pc] == AsmInst.CompileLeaf(HaltLeaf).value[0]
    ensures Semantics.Steps(image, s, 1).Some?
    ensures Semantics.MemAt(Semantics.Steps(image, s, 1).value.mem, 0xFFFF) == 0
  {
    Semantics.StoreStep(image, s, ZX, ZX, -1);
    assert Semantics.Offset(Semantics.Get(s, ZX), -1) == 0xFFFF;
  }

  /** `nummeric_checker`. */
  predicate Numeric(c: char) { IsAsciiDigit(c) || c == '+' || c == '-' }

  /** `letter_checker`. */
  predicate Letter(c: char) { IsAsciiLower(c) || IsAsciiUpper(c) || c == '$' }

  /** `end_checker`. */
  predicate End(c: char) { c == ';' || c == '#' || c == '\n' || c == '(' }

  /** The stop tests handed to `read_until`: a statement ends just after a
      ':' or before an end character; a comment before a newline; a number
      before whitespace or an end character. */
  predicate LabelStop(cur: char, prev: char) { prev == ':' || End(cur) }
  predicate CommentStop(cur: char, prev: char) { cur == '\n' }
  predicate NumberStop(cur: char, prev: char) { IsWhitespace(cur) || End(cur) }

  predicate AsciiText(s: string) {
    forall i :: 0 <= i < |s| ==> Custom.IsAscii(s[i])
  }

  lemma AsciiSplit(a: string, b: string)
    requires AsciiText(a + b)
    ensures AsciiText(a) && AsciiText(b)
  {
    assert forall i :: 0 <= i < |b| ==> b[i] == (a + b)[|a| + i];
    assert forall i :: 0 <= i < |a| ==> a[i] == (a + b)[i];
  }

  /** The reader's line once the first character of `next` has been popped:
      popping a newline counts it. */
  function Advance(line: nat, next: string): (l: nat)
    ensures l == line || l == line + 1
  {
    if next != [] && next[0] == '\n' then line + 1 else line
  }

  /** What a loop consumed, what it left (starting with the reader's current
      character) and the reader's line afterwards. */
  datatype Scan<T> = Scan(value: T, rest: string, line: nat)

  /** `read_until`, with `collected` gathered so far: the longest prefix of
      `text` none of whose characters meets `until` (given the character
      before it) added to `collected`, and what follows that prefix. */
  function Until(until: (char, char) -> bool, collected: string, text: string, line: nat, prev: char): (r: Scan<string>)
    ensures r.value + r.rest == collected + text
    ensures text != [] && !until(text[0], prev) ==> |r.value| > |collected|
    decreases |text|
  {
    if text == [] || until(text[0], prev) then Scan(collected, text, line)
    else
      assert (collected + [text[0]]) + text[1..] == collected + text;
      Until(until, collected + [text[0]], text[1..], Advance(line, text[1..]), text[0])
  }

  /** What `read_until` collects is exactly the longest prefix before the
      first character that meets the test. */
  lemma {:induction false} UntilMeaning(until: (char, char) -> bool, collected: string, text: string, line: nat, prev: char)
    ensures var r := Until(until, collected, text, line, prev);
      var n := |collected|;
      n <= |r.value| && r.value[..n] == collected
      && (r.rest == [] || until(r.rest[0], if |r.value| == n then prev else r.value[|r.value| - 1]))
      && (forall i :: n <= i < |r.value| ==> !until(r.value[i], if i == n then prev else r.value[i - 1]))
    decreases |text|
  {
    var r := Until(until, collected, text, line, prev);
    var n := |collected|;
    if text != [] && !until(text[0], prev) {
      var c' := collected + [text[0]];
      UntilMeaning(until, c', text[1..], Advance(line, text[1..]), text[0]);
      assert r == Until(until, c', text[1..], Advance(line, text[1..]), text[0]);
      assert r.value[..n + 1] == c';
      assert r.value[..n] == c'[..n] == collected;
      assert r.value[n] == text[0];
    }
  }

  /** The string loop of `parse`, from the character after the opening
      quote, with `vals` collected so far: the words of the literal and the
      text after the closing quote (nothing, when the quote never closes). */
  function StringBody(vals: seq<u16>, text: string, line: nat, special: bool): (r: Scan<seq<u16>>)
    requires AsciiText(text)
    ensures |r.rest| < |text| || r.rest == text == []
    ensures AsciiText(r.rest)
    decreases |text|
  {
    if text == [] then Scan(vals, [], line)
    else
      var c := text[0];
      var next := Advance(line, text[1..]);
      if special then StringBody(vals + [Custom.Byte(Custom.Escaped(c))], text[1..], next, false)
      else if c == '\\' then StringBody(vals, text[1..], next, true)
      else if c == '"' then Scan(vals, text[1..], next)
      else StringBody(vals + [Custom.Byte(c)], text[1..], next, false)
  }

  /** The bracket loop of `parse`, from the character after `(`, with
      `combined` collected so far at nesting `level`: the text up to the `)`
      that closes the bracket and the text after that `)`; all of it when
      the bracket never closes. */
  function Group(combined: string, text: string, line: nat, level: int): (r: Scan<string>)
    requires level >= 0
    ensures (r.value == combined + text && r.rest == []) || r.value + [')'] + r.rest == combined + text
    decreases |text|
  {
    if text == [] then Scan(combined, [], line)
    else
      var c := text[0];
      var level' := if c == '(' then level + 1 else if c == ')' then level - 1 else level;
      var next := Advance(line, text[1..]);
      if level' < 0 then
        assert combined + [')'] + text[1..] == combined + text;
        Scan(combined, text[1..], next)
      else
        assert (combined + [c]) + text[1..] == combined + text;
        Group(combined + [c], text[1..], next, level')
  }

  lemma GroupAscii(value: string, rest: string, text: string)
    requires AsciiText(text)
    requires (value == text && rest == []) || value + [')'] + rest == text
    ensures AsciiText(value) && AsciiText(rest)
  {
    if value + [')'] + rest == text {
      AsciiSplit(value + [')'], rest);
      AsciiSplit(value, [')']);
    }
  }

  /** A statement token: a Label when it ends in ':', else an instruction. */
  function StatementLine(rd: Readers, token: string): (r: Result<Parsed, CompileError>)
    ensures EndsWith(token, ':') ==> r == Ok(Label(token[..|token| - 1]))
    ensures !EndsWith(token, ':') ==> r == ParseInstruction(rd, token)
  {
    if EndsWith(token, ':') then Ok(Label(token[..|token| - 1])) else ParseInstruction(rd, token)
  }

  /** A number token: one raw word, or the number reader's error. */
  function Number(rd: Readers, token: string): (r: Result<Parsed, CompileError>)
    ensures r.Ok? <==> rd.number(Upper(token)).Ok?
    ensures r.Ok? ==> r == Ok(Instruction(Data(AsmInst.CustomLeaf(rd.number(Upper(token)).value))))
    ensures r.Err? ==> r.error == rd.number(Upper(token)).error
  {
    match rd.number(Upper(token))
    case Ok(v) => Ok(Instruction(Data(AsmInst.CustomLeaf(v))))
    case Err(e) => Err(e)
  }

  /** The lines list without its last entry, and that entry (if any). */
  function AllButLast(acc: seq<ProgramLine>): seq<ProgramLine> {
    if acc == [] then [] else acc[..|acc| - 1]
  }

  function LastOf(acc: seq<ProgramLine>): seq<ProgramLine> {
    if acc == [] then [] else [acc[|acc| - 1]]
  }

  /** `parse` from reader state (`text`, `line`) with `acc` parsed so far
      and the scope counter at `scope`: the lines of the whole listing. */
  function Run(rd: Readers, acc: seq<ProgramLine>, text: string, line: nat, scope: nat): seq<ProgramLine>
    requires AsciiText(text)
    decreases |text|
  {
    if text == [] then acc
    else
      var c := text[0];
      var next := Advance(line, text[1..]);
      if Letter(c) then
        var s := Until(LabelStop, [], text, line, 0 as char);
        AsciiSplit(s.value, s.rest);
        Run(rd, acc + [ProgramLine(s.line, StatementLine(rd, s.value))], s.rest, s.line, scope)
      else if c == '#' then
        var s := Until(CommentStop, [], text, line, 0 as char);
        AsciiSplit(s.value, s.rest);
        Run(rd, acc, s.rest, s.line, scope)
      else if Numeric(c) then
        var s := Until(NumberStop, [], text, line, 0 as char);
        AsciiSplit(s.value, s.rest);
        Run(rd, acc + [ProgramLine(s.line, Number(rd, s.value))], s.rest, s.line, scope)
      else if c == '"' then
        var s := StringBody([], text[1..], next, false);
        Run(rd, acc + [ProgramLine(s.line, Ok(Instruction(Data(AsmInst.CustomMultiLeaf(s.value)))))], s.rest, s.line, scope)
      else if c == '{' then
        Run(rd, acc + [ProgramLine(line, Ok(EnterLocalScope(scope + 1)))], text[1..], next, scope + 1)
      else if c == '}' then
        Run(rd, acc + [ProgramLine(line, Ok(LeaveLocalScope))], text[1..], next, scope)
      else if c == '(' then
        var g := Group([], text[1..], next, 0);
        GroupAscii(g.value, g.rest, text[1..]);
        var sub := Run(rd, [], g.value, Advance(line, g.value), 0);
        Run(rd, AllButLast(acc) + sub + LastOf(acc), g.rest, g.line, scope)
      else if End(c) || IsWhitespace(c) then
        Run(rd, acc, text[1..], next, scope)
      else
        Run(rd, acc + [ProgramLine(next, Err(UnknownToken(c)))], text[1..], next, scope)
  }

  /** The step `Run` takes at a `(`. */
  lemma RunBracket(rd: Readers, acc: seq<ProgramLine>, text: string, line: nat, scope: nat)
    requires AsciiText(text) && text != [] && text[0] == '('
    ensures var g := Group([], text[1..], Advance(line, text[1..]), 0);
      AsciiText(g.value) && AsciiText(g.rest)
      && Run(rd, acc, text, line, scope)
         == Run(rd, AllButLast(acc) + Run(rd, [], g.value, Advance(line, g.value), 0) + LastOf(acc), g.rest, g.line, scope)
  {
    var g := Group([], text[1..], Advance(line, text[1..]), 0);
    GroupAscii(g.value, g.rest, text[1..]);
  }

  /** `read_until` over a run of characters that do not stop it, none a
      newline, followed by one that does: it collects exactly the run, and
      the line moves only if the stopping character is a newline. */
  lemma {:induction false} UntilRun(until: (char, char) -> bool, collected: string, pre: string, post: string, line: nat, prev: char)
    requires pre != [] && '\n' !in pre
    requires !until(pre[0], prev)
    requires forall i :: 0 < i < |pre| ==> !until(pre[i], pre[i - 1])
    requires post == [] || until(post[0], pre[|pre| - 1])
    ensures Until(until, collected, pre + post, line, prev) == Scan(collected + pre, post, Advance(line, post))
    decreases |pre|
  {
    var text := pre + post;
    assert text[0] == pre[0] && text[1..] == pre[1..] + post;
    if |pre| == 1 {
      assert pre[1..] + post == post;
      assert collected + [pre[0]] == collected + pre;
    } else {
      assert pre[1] in pre;
      assert Advance(line, text[1..]) == line;
      assert !until(pre[1..][0], pre[0]) by {
        assert pre[1..][0] == pre[1];
      }
      forall i | 0 < i < |pre[1..]|
        ensures !until(pre[1..][i], pre[1..][i - 1])
      {
        assert pre[1..][i] == pre[i + 1] && pre[1..][i - 1] == pre[i];
      }
      assert forall c :: c in pre[1..] ==> c in pre;
      assert pre[1..][|pre[1..]| - 1] == pre[|pre| - 1];
      UntilRun(until, collected + [pre[0]], pre[1..], post, line, pre[0]);
      assert Until(until, collected, text, line, prev) == Until(until, collected + [text[0]], text[1..], line, text[0]);
      assert collected + [pre[0]] + pre[1..] == collected + pre;
    }
  }

  /** The step `Run` takes at a letter. */
  lemma RunLetter(rd: Readers, acc: seq<ProgramLine>, text: string, line: nat, scope: nat)
    requires AsciiText(text) && text != [] && Letter(text[0])
    ensures var s := Until(LabelStop, [], text, line, 0 as char);
      AsciiText(s.rest)
      && Run(rd, acc, text, line, scope) == Run(rd, acc + [ProgramLine(s.line, StatementLine(rd, s.value))], s.rest, s.line, scope)
  {
    var s := Until(LabelStop, [], text, line, 0 as char);
    AsciiSplit(s.value, s.rest);
  }

  /** The token a label reads: the name and its colon, and nothing more. */
  lemma LabelToken(name: string, rest: string, line: nat)
    requires name != [] && Letter(name[0])
    requires forall i :: 0 <= i < |name| ==> !End(name[i]) && name[i] != ':'
    ensures Until(LabelStop, [], name + ":" + rest, line, 0 as char) == Scan(name + ":", rest, Advance(line, rest))
  {
    var pre := name + ":";
    assert pre + rest == name + ":" + rest;
    forall i | 0 < i < |pre|
      ensures !LabelStop(pre[i], pre[i - 1])
    {
      assert pre[i - 1] == name[i - 1];
      if i < |name| {
        assert pre[i] == name[i];
      }
    }
    assert '\n' !in pre by {
      assert forall i :: 0 <= i < |pre| ==> pre[i] != '\n';
    }
    UntilRun(LabelStop, [], pre, rest, line, 0 as char);
    assert [] + pre == pre;
  }

  /** A name that starts with a letter, holds no end character and no ':',
      followed by ':', is a Label without the colon, numbered with the line
      the reader is at once the character after the colon is current. */
  lemma RunLabel(rd: Readers, acc: seq<ProgramLine>, name: string, rest: string, line: nat, scope: nat)
    requires AsciiText(name + ":" + rest)
    requires name != [] && Letter(name[0])
    requires forall i :: 0 <= i < |name| ==> !End(name[i]) && name[i] != ':'
    ensures AsciiText(rest)
    ensures Run(rd, acc, name + ":" + rest, line, scope)
         == Run(rd, acc + [ProgramLine(Advance(line, rest), Ok(Label(name)))], rest, Advance(line, rest), scope)
  {
    var text := name + ":" + rest;
    LabelToken(name, rest, line);
    var pre := name + ":";
    assert EndsWith(pre, ':') && pre[..|pre| - 1] == name;
    assert StatementLine(rd, pre) == Ok(Label(name));
    RunLetter(rd, acc, text, line, scope);
  }

  /** A statement of the same shape without the colon, ended by an end
      character or the end of the text, is parsed as an instruction. */
  lemma RunStatement(rd: Readers, acc: seq<ProgramLine>, stmt: string, rest: string, line: nat, scope: nat)
    requires AsciiText(stmt + rest)
    requires stmt != [] && Letter(stmt[0])
    requires forall i :: 0 <= i < |stmt| ==> !End(stmt[i]) && stmt[i] != ':'
    requires rest == [] || End(rest[0])
    ensures AsciiText(rest)
    ensures Run(rd, acc, stmt + rest, line, scope)
         == Run(rd, acc + [ProgramLine(Advance(line, rest), ParseInstruction(rd, stmt))], rest, Advance(line, rest), scope)
  {
    AsciiSplit(stmt, rest);
    forall i | 0 < i < |stmt|
      ensures !LabelStop(stmt[i], stmt[i - 1])
    {
    }
    assert '\n' !in stmt by {
      assert forall i :: 0 <= i < |stmt| ==> stmt[i] != '\n';
    }
    UntilRun(LabelStop, [], stmt, rest, line, 0 as char);
    assert [] + stmt == stmt;
    assert stmt[|stmt| - 1] != ':';
    RunLetter(rd, acc, stmt + rest, line, scope);
  }

  /** A comment runs to the newline and produces no line. */
  lemma RunComment(rd: Readers, acc: seq<ProgramLine>, body: string, rest: string, line: nat, scope: nat)
    requires AsciiText("#" + body + rest)
    requires '\n' !in body
    requires rest == [] || rest[0] == '\n'
    ensures AsciiText(rest)
    ensures Run(rd, acc, "#" + body + rest, line, scope) == Run(rd, acc, rest, Advance(line, rest), scope)
  {
    var pre := "#" + body;
    assert pre + rest == "#" + body + rest;
    AsciiSplit(pre, rest);
    assert '\n' !in pre by {
      assert forall i :: 0 <= i < |pre| ==> pre[i] == (if i == 0 then '#' else body[i - 1]);
    }
    forall i | 0 < i < |pre|
      ensures !CommentStop(pre[i], pre[i - 1])
    {
      assert pre[i] in pre;
    }
    UntilRun(CommentStop, [], pre, rest, line, 0 as char);
  }

  /** A token that starts with a digit or sign and runs to whitespace, an end
      character or the end of the text is one raw word read by the number
      reader, uppercased. */
  lemma RunNumber(rd: Readers, acc: seq<ProgramLine>, tok: string, rest: string, line: nat, scope: nat)
    requires AsciiText(tok + rest)
    requires tok != [] && Numeric(tok[0])
    requires forall i :: 0 <= i < |tok| ==> !IsWhitespace(tok[i]) && !End(tok[i])
    requires rest == [] || IsWhitespace(rest[0]) || End(rest[0])
    ensures AsciiText(rest)
    ensures Run(rd, acc, tok + rest, line, scope)
         == Run(rd, acc + [ProgramLine(Advance(line, rest), Number(rd, tok))], rest, Advance(line, rest), scope)
  {
    AsciiSplit(tok, rest);
    assert '\n' !in tok by {
      assert forall i :: 0 <= i < |tok| ==> tok[i] != '\n';
    }
    assert !Letter(tok[0]) && tok[0] != '#';
    UntilRun(NumberStop, [], tok, rest, line, 0 as char);
    assert [] + tok == tok;
  }

  lemma AsciiJoin(a: string, b: string)
    requires AsciiText(a) && AsciiText(b)
    ensures AsciiText(a + b)
  {
    assert forall i :: 0 <= i < |a + b| ==> (a + b)[i] == if i < |a| then a[i] else b[i - |a|];
  }

  /** The escaped form of a text without quotes holds no newline and no
      quote: each of them would end the literal or be counted as a line. */
  lemma {:induction false} EscapeClean(bytes: string)
    requires '"' !in bytes
    ensures '\n' !in Custom.Escape(bytes) && '"' !in Custom.Escape(bytes)
  {
    if bytes != [] {
      assert forall c :: c in bytes[1..] ==> c in bytes;
      EscapeClean(bytes[1..]);
    }
  }

  /** One plain character of a literal is one byte. */
  lemma StringPlainStep(vals: seq<u16>, c: char, t: string, line: nat)
    requires AsciiText([c] + t) && c != '\\' && c != '"'
    ensures AsciiText(t)
    ensures StringBody(vals, [c] + t, line, false) == StringBody(vals + [Custom.Byte(c)], t, Advance(line, t), false)
  {
    AsciiSplit([c], t);
    assert ([c] + t)[1..] == t;
  }

  /** A backslash and the character after it are one byte. */
  lemma StringEscapeStep(vals: seq<u16>, x: char, t: string, line: nat)
    requires AsciiText(['\\', x] + t) && x != '\n'
    ensures AsciiText(t)
    ensures StringBody(vals, ['\\', x] + t, line, false) == StringBody(vals + [Custom.Byte(Custom.Escaped(x))], t, Advance(line, t), false)
  {
    var text := ['\\', x] + t;
    AsciiSplit(['\\', x], t);
    assert text[1..] == [x] + t && text[1..][1..] == t;
    assert Advance(line, text[1..]) == line;
  }

  /** The escaped form of one character and of the text after it. */
  lemma EscapeHead(bytes: string)
    requires bytes != []
    ensures var c := bytes[0];
      Custom.Escape(bytes)
      == (if c == '\\' then "\\\\" else if c == '\n' then "\\n"
          else if c == '\t' then "\\t" else if c == 0 as char then "\\0" else [c]) + Custom.Escape(bytes[1..])
  {
  }

  /** The escaped form of the first character reads back as its byte. */
  lemma StringBodyFirst(vals: seq<u16>, bytes: string, rest: string, line: nat)
    requires bytes != [] && AsciiText(bytes) && '"' !in bytes && AsciiText(rest)
    ensures AsciiText(Custom.Escape(bytes) + "\"" + rest)
    ensures AsciiText(Custom.Escape(bytes[1..]) + "\"" + rest)
    ensures StringBody(vals, Custom.Escape(bytes) + "\"" + rest, line, false)
         == StringBody(vals + [Custom.Byte(bytes[0])], Custom.Escape(bytes[1..]) + "\"" + rest, line, false)
  {
    Custom.EscapeAscii(bytes);
    AsciiJoin(Custom.Escape(bytes), "\"");
    AsciiJoin(Custom.Escape(bytes) + "\"", rest);
    var text := Custom.Escape(bytes) + "\"" + rest;
    var c := bytes[0];
    var tail := Custom.Escape(bytes[1..]);
    var t' := tail + "\"" + rest;
    assert forall ch :: ch in bytes[1..] ==> ch in bytes;
    EscapeClean(bytes[1..]);
    assert t'[0] != '\n' by {
      if tail != [] { assert tail[0] in tail; }
    }
    assert Advance(line, t') == line;
    EscapeHead(bytes);
    if c == '\\' || c == '\n' || c == '\t' || c == 0 as char {
      var x := if c == '\\' then '\\' else if c == '\n' then 'n' else if c == '\t' then 't' else '0';
      assert text == ['\\', x] + t';
      StringEscapeStep(vals, x, t', line);
    } else {
      assert c != '"' by { assert c in bytes; }
      assert text == [c] + t';
      StringPlainStep(vals, c, t', line);
    }
  }

  /** The closing quote ends the literal. */
  lemma StringBodyClose(vals: seq<u16>, rest: string, line: nat)
    requires AsciiText(rest)
    ensures AsciiText("\"" + rest)
    ensures StringBody(vals, "\"" + rest, line, false) == Scan(vals, rest, Advance(line, rest))
  {
    AsciiJoin("\"", rest);
    assert ("\"" + rest)[1..] == rest;
  }

  /** The string loop reads back what `Custom.Escape` writes: the bytes of
      the original text, up to the closing quote, and leaves the rest. */
  lemma {:induction false} StringBodyEscape(vals: seq<u16>, bytes: string, rest: string, line: nat)
    requires AsciiText(bytes) && '"' !in bytes && AsciiText(rest)
    ensures AsciiText(Custom.Escape(bytes) + "\"" + rest)
    ensures StringBody(vals, Custom.Escape(bytes) + "\"" + rest, line, false)
         == Scan(vals + Custom.Bytes(bytes), rest, Advance(line, rest))
    decreases |bytes|
  {
    if bytes == [] {
      assert Custom.Escape(bytes) == [] && Custom.Bytes(bytes) == [];
      assert Custom.Escape(bytes) + "\"" + rest == "\"" + rest;
      assert vals + Custom.Bytes(bytes) == vals;
      StringBodyClose(vals, rest, line);
    } else {
      StringBodyFirst(vals, bytes, rest, line);
      AsciiTail(bytes);
      StringBodyEscape(vals + [Custom.Byte(bytes[0])], bytes[1..], rest, line);
      BytesHead(vals, bytes);
    }
  }

  /** The text after the first character keeps what held of the whole. */
  lemma AsciiTail(bytes: string)
    requires bytes != [] && AsciiText(bytes) && '"' !in bytes
    ensures AsciiText(bytes[1..]) && '"' !in bytes[1..]
  {
    assert forall ch :: ch in bytes[1..] ==> ch in bytes;
  }

  /** The bytes of a text are the byte of its first character followed by
      the bytes of the rest. */
  lemma BytesHead(vals: seq<u16>, bytes: string)
    requires bytes != [] && AsciiText(bytes)
    ensures AsciiText(bytes[1..])
    ensures vals + [Custom.Byte(bytes[0])] + Custom.Bytes(bytes[1..]) == vals + Custom.Bytes(bytes)
  {
    assert Custom.Bytes(bytes) == [Custom.Byte(bytes[0])] + Custom.Bytes(bytes[1..]);
  }

  /** An escaped quote does not end the literal: it is a quote byte. */
  lemma StringEscapedQuote(vals: seq<u16>, text: string, line: nat)
    requires AsciiText(text)
    ensures AsciiText("\\\"" + text)
    ensures StringBody(vals, "\\\"" + text, line, false) == StringBody(vals + [Custom.Byte('"')], text, Advance(line, text), false)
  {
    AsciiJoin("\\\"", text);
    var t := "\\\"" + text;
    assert t[1..] == ['"'] + text && t[1..][1..] == text;
  }

  /** A literal that never closes takes the rest of the text and decodes it
      the way `Custom.Decode` does. */
  lemma {:induction false} StringUnterminated(vals: seq<u16>, text: string, line: nat, special: bool)
    requires AsciiText(text) && '"' !in text
    ensures StringBody(vals, text, line, special) == Scan(vals + Custom.Decode(special, text), [], StringBody(vals, text, line, special).line)
    decreases |text|
  {
    if text != [] {
      assert forall ch :: ch in text[1..] ==> ch in text;
      assert text[0] in text;
      var next := Advance(line, text[1..]);
      var c := text[0];
      if special {
        StringUnterminated(vals + [Custom.Byte(Custom.Escaped(c))], text[1..], next, false);
        assert vals + [Custom.Byte(Custom.Escaped(c))] + Custom.Decode(false, text[1..]) == vals + Custom.Decode(special, text);
      } else if c == '\\' {
        StringUnterminated(vals, text[1..], next, true);
      } else {
        StringUnterminated(vals + [Custom.Byte(c)], text[1..], next, false);
        assert vals + [Custom.Byte(c)] + Custom.Decode(false, text[1..]) == vals + Custom.Decode(special, text);
      }
    } else {
      assert vals + Custom.Decode(special, text) == vals;
    }
  }

  /** The step `Run` takes at a quote. */
  lemma RunQuote(rd: Readers, acc: seq<ProgramLine>, text: string, line: nat, scope: nat)
    requires AsciiText(text) && text != [] && text[0] == '"'
    ensures var s := StringBody([], text[1..], Advance(line, text[1..]), false);
      Run(rd, acc, text, line, scope)
      == Run(rd, acc + [ProgramLine(s.line, Ok(Instruction(Data(AsmInst.CustomMultiLeaf(s.value)))))], s.rest, s.line, scope)
  {
  }

  /** A string literal written with `Custom.Escape` becomes one data line
      holding the original bytes, one word each. */
  lemma RunString(rd: Readers, acc: seq<ProgramLine>, bytes: string, rest: string, line: nat, scope: nat)
    requires AsciiText(bytes) && '"' !in bytes && AsciiText(rest)
    ensures AsciiText("\"" + Custom.Escape(bytes) + "\"" + rest)
    ensures Run(rd, acc, "\"" + Custom.Escape(bytes) + "\"" + rest, line, scope)
         == Run(rd, acc + [ProgramLine(Advance(line, rest), Ok(Instruction(Data(AsmInst.CustomMultiLeaf(Custom.Bytes(bytes))))))],
                rest, Advance(line, rest), scope)
  {
    StringBodyEscape([], bytes, rest, line);
    var body := Custom.Escape(bytes) + "\"" + rest;
    AsciiJoin("\"", body);
    var text := "\"" + body;
    assert text == "\"" + Custom.Escape(bytes) + "\"" + rest;
    assert text[1..] == body;
    EscapeClean(bytes);
    assert body[0] != '\n' by {
      if Custom.Escape(bytes) != [] { assert Custom.Escape(bytes)[0] in Custom.Escape(bytes); }
    }
    assert Advance(line, body) == line;
    RunQuote(rd, acc, text, line, scope);
    assert [] + Custom.Bytes(bytes) == Custom.Bytes(bytes);
  }

  /** The number of `{` in `s`. */
  function Opens(s: string): nat {
    if s == [] then 0 else (if s[0] == '{' then 1 else 0) + Opens(s[1..])
  }

  /** The `{` up to index `i`: the first character's, then those of the rest
      up to the same place. */
  lemma OpensPrefix(s: string, i: nat)
    requires i < |s|
    ensures Opens(s[..i + 1]) == (if s[0] == '{' then 1 else 0) + Opens(s[1..][..i])
  {
    assert s[..i + 1][0] == s[0] && s[..i + 1][1..] == s[1..][..i];
  }

  /** Over a run of scope marks, each `{` opens the scope numbered one past
      every `{` before it and each `}` closes one: one line per mark, all on
      the current line. */
  lemma {:induction false} ScopesCounted(rd: Readers, acc: seq<ProgramLine>, s: string, line: nat, scope: nat)
    requires forall i :: 0 <= i < |s| ==> s[i] == '{' || s[i] == '}'
    ensures AsciiText(s)
    ensures var r := Run(rd, acc, s, line, scope);
      |r| == |acc| + |s| && r[..|acc|] == acc
      && forall i :: 0 <= i < |s| ==> r[|acc| + i] == ScopeLine(s, i, line, scope)
    decreases |s|
  {
    assert AsciiText(s) by {
      forall i | 0 <= i < |s| ensures Custom.IsAscii(s[i]) { }
    }
    if s != [] {
      var first := ScopeLine(s, 0, line, scope);
      var scope' := if s[0] == '{' then scope + 1 else scope;
      assert Advance(line, s[1..]) == line by {
        if s[1..] != [] { assert s[1..][0] == s[1]; }
      }
      assert Opens(s[..1]) == (if s[0] == '{' then 1 else 0) by { assert s[..1][1..] == []; }
      assert Run(rd, acc, s, line, scope) == Run(rd, acc + [first], s[1..], line, scope');
      ScopesCounted(rd, acc + [first], s[1..], line, scope');
      ScopesShift(acc, s, Run(rd, acc, s, line, scope), line, scope);
    }
  }

  /** The line `{` or `}` at index `i` of a run of scope marks parses to. */
  function ScopeLine(s: string, i: nat, line: nat, scope: nat): ProgramLine
    requires i < |s|
  {
    ProgramLine(line, if s[i] == '{' then Ok(EnterLocalScope(scope + Opens(s[..i + 1]))) else Ok(LeaveLocalScope))
  }

  /** The lines of the marks after the first, numbered past the first, are
      the lines of those marks in the whole run. */
  lemma ScopesShift(acc: seq<ProgramLine>, s: string, r: seq<ProgramLine>, line: nat, scope: nat)
    requires s != []
    requires var scope' := if s[0] == '{' then scope + 1 else scope;
      |r| == |acc| + |s| && r[..|acc| + 1] == acc + [ScopeLine(s, 0, line, scope)]
      && forall i :: 0 <= i < |s| - 1 ==> r[|acc| + 1 + i] == ScopeLine(s[1..], i, line, scope')
    ensures r[..|acc|] == acc
    ensures forall i :: 0 <= i < |s| ==> r[|acc| + i] == ScopeLine(s, i, line, scope)
  {
    assert r[..|acc|] == (acc + [ScopeLine(s, 0, line, scope)])[..|acc|] == acc;
    forall i | 0 <= i < |s|
      ensures r[|acc| + i] == ScopeLine(s, i, line, scope)
    {
      if i == 0 {
        assert r[|acc|] == (acc + [ScopeLine(s, 0, line, scope)])[|acc|];
      } else {
        var scope' := if s[0] == '{' then scope + 1 else scope;
        OpensPrefix(s, i);
        assert r[|acc| + i] == r[|acc| + 1 + (i - 1)] == ScopeLine(s[1..], i - 1, line, scope');
        assert s[1..][i - 1] == s[i] && s[1..][..(i - 1) + 1] == s[1..][..i];
      }
    }
  }

  lemma {:induction false} NewlinesClose(body: string)
    ensures Newlines(body + ")") == Newlines(body)
  {
    if body != [] {
      assert (body + ")")[1..] == body[1..] + ")";
      NewlinesClose(body[1..]);
    } else {
      assert (body + ")")[1..] == [];
    }
  }

  /** The bracket loop over text without brackets of its own collects it
      up to the `)`, which it drops. */
  lemma {:induction false} GroupPlain(combined: string, body: string, rest: string, line: nat)
    requires '(' !in body && ')' !in body
    ensures Group(combined, body + ")" + rest, line, 0) == Scan(combined + body, rest, Advance(line + Newlines((body + ")")[1..]), rest))
    decreases |body|
  {
    var text := body + ")" + rest;
    if body == [] {
      assert text == [')'] + rest && text[1..] == rest && text[0] == ')';
      assert (body + ")")[1..] == [] && combined + body == combined;
      assert Newlines([]) == 0;
    } else {
      var c := body[0];
      var u := body[1..] + ")";
      assert text[0] == c && text[1..] == u + rest;
      assert c != '(' && c != ')' by { assert c in body; }
      assert forall ch :: ch in body[1..] ==> ch in body;
      var next := Advance(line, u + rest);
      GroupPlain(combined + [c], body[1..], rest, next);
      assert (body + ")")[1..] == u;
      assert u[0] == (u + rest)[0];
      assert Newlines(u) == (if u[0] == '\n' then 1 else 0) + Newlines(u[1..]);
      assert combined + [c] + body[1..] == combined + body;
    }
  }

  /** The bracket loop as `Run` starts it on `(body)rest`. */
  lemma GroupBody(body: string, rest: string, line: nat)
    requires '(' !in body && ')' !in body
    ensures Group([], body + ")" + rest, Advance(line, body + ")" + rest), 0) == Scan(body, rest, Advance(line + Newlines(body), rest))
  {
    var u := body + ")";
    var start := Advance(line, u + rest);
    GroupPlain([], body, rest, start);
    GroupLines(body, rest, line);
  }

  /** The line `GroupPlain` ends on, from where `(` left the reader, and
      the text it collects, from nothing. */
  lemma GroupLines(body: string, rest: string, line: nat)
    ensures var u := body + ")";
      Advance(Advance(line, u + rest) + Newlines(u[1..]), rest) == Advance(line + Newlines(body), rest)
    ensures [] + body == body
  {
    AdvanceNewlines(line, body + ")", rest);
    NewlinesClose(body);
  }

  /** Stepping onto the first character of `u` and then counting the lines
      of the rest of `u` counts the lines of `u`. */
  lemma AdvanceNewlines(line: nat, u: string, rest: string)
    requires u != []
    ensures Advance(line, u + rest) + Newlines(u[1..]) == line + Newlines(u)
  {
    assert (u + rest)[0] == u[0];
  }

  /** `(` moves the line parsed just before it to after the lines of the
      bracketed text, which a fresh reader parses with its scope counter
      back at 0 and the current line carried over. */
  lemma RunReorder(rd: Readers, acc: seq<ProgramLine>, x: ProgramLine, body: string, rest: string, line: nat, scope: nat)
    requires AsciiText("(" + body + ")" + rest)
    requires '(' !in body && ')' !in body
    ensures AsciiText(body) && AsciiText(rest)
    ensures Run(rd, acc + [x], "(" + body + ")" + rest, line, scope)
         == Run(rd, acc + Run(rd, [], body, Advance(line, body), 0) + [x], rest, Advance(line + Newlines(body), rest), scope)
  {
    var text := "(" + body + ")" + rest;
    assert text[1..] == body + ")" + rest;
    AsciiSplit("(" + body + ")", rest);
    AsciiSplit("(" + body, ")");
    AsciiSplit("(", body);
    GroupBody(body, rest, line);
    RunBracket(rd, acc + [x], text, line, scope);
    assert AllButLast(acc + [x]) == acc && LastOf(acc + [x]) == [x];
  }

  /** `parse_listing`: the reader starts at line 0 and pops the first
      character before parsing. */
  function Listing(rd: Readers, text: string): seq<ProgramLine>
    requires AsciiText(text)
  {
    Run(rd, [], text, Advance(0, text), 0)
  }

  /** `ParseReader`: the characters not yet read, whether the last `pop`
      found one, the current character and the current line. */
  class ParseReader {
    var inp: seq<char>
    var more: bool
    var curChar: char
    var curLine: nat

    /** Once the input has run out it stays out. */
    ghost predicate Valid()
      reads this
    {
      !more ==> inp == []
    }

    /** The text still to be parsed: the current character and the rest. */
    function Text(): string
      reads this
    {
      if more then [curChar] + inp else []
    }

    /** The reader as `From` and the sub-parser build it, before the first
        `pop`: `more` set and the current character `'\0'`. */
    constructor (text: string, line: nat)
      ensures Valid() && inp == text && more && curChar == 0 as char && curLine == line
      ensures Text() == [0 as char] + text
    {
      inp := text;
      more := true;
      curChar := 0 as char;
      curLine := line;
    }

    /** `front`. */
    function Front(): (r: Result<char, CompileError>)
      reads this
      ensures r.Ok? <==> more
      ensures r.Ok? ==> Text() != [] && r.value == Text()[0]
      ensures r.Err? ==> r.error == UnexpectedEndOfFile
    {
      if !more then Err(UnexpectedEndOfFile) else Ok(curChar)
    }

    /** `pop`: the next character becomes current, a newline counting one
        more line; at the end, `more` drops. */
    method Pop() returns (c: Option<char>)
      requires Valid()
      modifies this
      ensures Valid()
      ensures old(Text()) == [] ==> Text() == [] && curLine == old(curLine)
      ensures old(Text()) != [] ==> Text() == old(Text())[1..] && curLine == Advance(old(curLine), old(Text())[1..])
      ensures c.Some? <==> old(inp) != []
      ensures c.Some? ==> c.value == old(inp)[0]
    {
      if inp == [] {
        more := false;
        return None;
      }
      var ch := inp[0];
      inp := inp[1..];
      if ch == '\n' {
        curLine := curLine + 1;
      }
      curChar := ch;
      c := Some(ch);
    }

    /** `read_until`. */
    method ReadUntil(until: (char, char) -> bool) returns (r: Result<string, CompileError>)
      requires Valid()
      modifies this
      ensures Valid()
      ensures var s := Until(until, [], old(Text()), old(curLine), 0 as char);
        r == Ok(s.value) && Text() == s.rest && curLine == s.line
    {
      var collected: string := [];
      var prev := 0 as char;
      while more
        invariant Valid()
        invariant Until(until, collected, Text(), curLine, prev) == Until(until, [], old(Text()), old(curLine), 0 as char)
        decreases |Text()|
      {
        var cur := Front().value;
        if until(cur, prev) {
          break;
        }
        prev := cur;
        collected := collected + [cur];
        var _ := Pop();
      }
      r := Ok(collected);
    }

    /** The string loop of `parse` (lines 228-260), entered with the opening
        quote already popped. */
    method ReadString() returns (vals: seq<u16>)
      requires Valid() && AsciiText(Text())
      modifies this
      ensures Valid()
      ensures var s := StringBody([], old(Text()), old(curLine), false);
        vals == s.value && Text() == s.rest && curLine == s.line
    {
      vals := [];
      var isSpecial := false;
      while more
        invariant Valid() && AsciiText(Text())
        invariant StringBody(vals, Text(), curLine, isSpecial) == StringBody([], old(Text()), old(curLine), false)
        decreases |Text()|
      {
        var cur := Front().value;
        if isSpecial {
          cur := Custom.Escaped(cur);
          isSpecial := false;
        } else {
          if cur == '\\' {
            isSpecial := true;
          } else if cur == '"' {
            var _ := Pop();
            break;
          }
        }
        if !isSpecial {
          vals := vals + [Custom.Byte(cur)];
        }
        var _ := Pop();
      }
    }

    /** The bracket loop of `parse` (lines 283-300), entered with the `(`
        already popped. */
    method ReadGroup() returns (combined: string)
      requires Valid()
      modifies this
      ensures Valid()
      ensures var g := Group([], old(Text()), old(curLine), 0);
        combined == g.value && Text() == g.rest && curLine == g.line
    {
      combined := [];
      var curLevel := 0;
      while more
        invariant Valid() && curLevel >= 0
        invariant Group(combined, Text(), curLine, curLevel) == Group([], old(Text()), old(curLine), 0)
        decreases |Text()|
      {
        var cur := Front().value;
        if cur == '(' {
          curLevel := curLevel + 1;
        } else if cur == ')' {
          curLevel := curLevel - 1;
        }
        var _ := Pop();
        if curLevel < 0 {
          break;
        }
        combined := combined + [cur];
      }
    }

    /** `parse`: the lines of the text the reader has left. It never fails:
        every `front` it makes is guarded by `more`. */
    method Parse(rd: Readers) returns (r: Result<seq<ProgramLine>, CompileError>)
      requires Valid() && AsciiText(Text())
      modifies this
      ensures r == Ok(Run(rd, [], old(Text()), old(curLine), 0))
      decreases |Text()|, 2
    {
      var parsed: seq<ProgramLine> := [];
      var currentScope: nat := 0;
      while more
        invariant Valid() && AsciiText(Text()) && |Text()| <= |old(Text())|
        invariant Run(rd, parsed, Text(), curLine, currentScope) == Run(rd, [], old(Text()), old(curLine), 0)
        decreases |Text()|
      {
        parsed, currentScope := Step(rd, parsed, currentScope);
      }
      r := Ok(parsed);
    }

    /** One turn of the loop of `parse` (lines 189-329). */
    method Step(rd: Readers, parsed: seq<ProgramLine>, currentScope: nat) returns (parsed': seq<ProgramLine>, currentScope': nat)
      requires Valid() && AsciiText(Text()) && more
      modifies this
      ensures Valid() && AsciiText(Text()) && |Text()| < |old(Text())|
      ensures Run(rd, parsed', Text(), curLine, currentScope') == Run(rd, parsed, old(Text()), old(curLine), currentScope)
      decreases |Text()|, 1
    {
      var cur := Front().value;
      if Letter(cur) || cur == '#' || Numeric(cur) || cur == '"' {
        parsed' := TokenStep(rd, parsed, currentScope);
        currentScope' := currentScope;
      } else if cur == '(' {
        parsed' := BracketStep(rd, parsed, currentScope);
        currentScope' := currentScope;
      } else {
        parsed', currentScope' := MarkStep(rd, parsed, currentScope);
      }
    }

    /** The turns that read a statement, a comment, a number or a string
        (lines 191-267). */
    method TokenStep(rd: Readers, parsed: seq<ProgramLine>, currentScope: nat) returns (parsed': seq<ProgramLine>)
      requires Valid() && AsciiText(Text()) && more
      requires Letter(curChar) || curChar == '#' || Numeric(curChar) || curChar == '"'
      modifies this
      ensures Valid() && AsciiText(Text()) && |Text()| < |old(Text())|
      ensures Run(rd, parsed', Text(), curLine, currentScope) == Run(rd, parsed, old(Text()), old(curLine), currentScope)
    {
      var cur := Front().value;
      parsed' := parsed;
      if Letter(cur) {
        var collected := ReadUntil(LabelStop);
        AsciiSplit(collected.value, Text());
        parsed' := parsed + [ProgramLine(curLine, StatementLine(rd, collected.value))];
      } else if cur == '#' {
        var collected := ReadUntil(CommentStop);
        AsciiSplit(collected.value, Text());
      } else if Numeric(cur) {
        var collected := ReadUntil(NumberStop);
        AsciiSplit(collected.value, Text());
        parsed' := parsed + [ProgramLine(curLine, Number(rd, collected.value))];
      } else {
        var _ := Pop();
        var vals := ReadString();
        parsed' := parsed + [ProgramLine(curLine, Ok(Instruction(Data(AsmInst.CustomMultiLeaf(vals)))))];
      }
    }

    /** The turn for `(` (lines 279-316): the bracketed text is parsed by a
        fresh reader that starts at the current line with its own scope
        counter, and its lines go in before the line parsed last. */
    method BracketStep(rd: Readers, parsed: seq<ProgramLine>, currentScope: nat) returns (parsed': seq<ProgramLine>)
      requires Valid() && AsciiText(Text()) && more && curChar == '('
      modifies this
      ensures Valid() && AsciiText(Text()) && |Text()| < |old(Text())|
      ensures Run(rd, parsed', Text(), curLine, currentScope) == Run(rd, parsed, old(Text()), old(curLine), currentScope)
      decreases |Text()|, 0
    {
      ghost var text := Text();
      RunBracket(rd, parsed, text, curLine, currentScope);
      var startLine := curLine;
      var lastEl := LastOf(parsed);
      var kept := AllButLast(parsed);
      var _ := Pop();
      var combined := ReadGroup();
      GroupAscii(combined, Text(), text[1..]);
      var subparser := new ParseReader(combined, startLine);
      assert ([0 as char] + combined)[1..] == combined;
      var _ := subparser.Pop();
      var subparsed := subparser.Parse(rd);
      parsed' := kept + subparsed.value + lastEl;
    }

    /** The turns for scope marks, separators and stray characters
        (lines 268-278 and 318-328). */
    method MarkStep(rd: Readers, parsed: seq<ProgramLine>, currentScope: nat) returns (parsed': seq<ProgramLine>, currentScope': nat)
      requires Valid() && AsciiText(Text()) && more
      requires !(Letter(curChar) || curChar == '#' || Numeric(curChar) || curChar == '"' || curChar == '(')
      modifies this
      ensures Valid() && AsciiText(Text()) && |Text()| < |old(Text())|
      ensures Run(rd, parsed', Text(), curLine, currentScope') == Run(rd, parsed, old(Text()), old(curLine), currentScope)
    {
      var cur := Front().value;
      parsed', currentScope' := parsed, currentScope;
      if cur == '{' || cur == '}' {
        if cur == '{' {
          currentScope' := currentScope + 1;
          parsed' := parsed + [ProgramLine(curLine, Ok(EnterLocalScope(currentScope')))];
        } else {
          parsed' := parsed + [ProgramLine(curLine, Ok(LeaveLocalScope))];
        }
        var _ := Pop();
      } else if End(cur) || IsWhitespace(cur) {
        var _ := Pop();
      } else {
        var _ := Pop();
        parsed' := parsed + [ProgramLine(curLine, Err(UnknownToken(cur)))];
      }
    }
  }

  /** `parse_listing`. */
  method ParseListing(rd: Readers, inp: string) returns (r: Result<seq<ProgramLine>, CompileError>)
    requires AsciiText(inp)
    ensures r == Ok(Listing(rd, inp))
  {
    var parser := new ParseReader(inp, 0);
    var _ := parser.Pop();
    r := parser.Parse(rd);
  }
}
