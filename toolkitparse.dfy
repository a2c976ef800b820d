// The toolkit's line-based assembler front end (toolkit/src/asm/parse.rs):
// the listing is cut at every '\n', each line is trimmed and loses the text
// from its first '#', and what is left is an empty line, a label (a trailing
// ':') or one statement. A statement in double quotes is raw data, one word
// per character; one that starts like a number is a single raw word; any
// other is a mnemonic with flags and operands, dispatched in the fixed order
// the easycpu_lib parser shares (module AsmDispatch).
module ToolkitParse {
  import opened Base
  import opened ToolkitErrors
  import Custom
  import AsmDispatch
  import StackMod
  import ToolkitCompile

  /** What a statement stands for. The operand tokens of a mnemonic stay
      unread: the families' `parse_asm` are not part of this model. */
  datatype Statement =
    | Words(words: seq<u16>)       // CustomMultiInstruction: raw data
    | Word(value: u16)             // CustomInstruction: one raw word
    | NopStatement                 // NopInstruction
    | HaltStatement                // a STORE of ZX to the address ZX - 1
    | Operands(command: AsmDispatch.Command, operands: seq<string>)

  type Parsed = ToolkitCompile.Parsed<Statement>

  datatype ProgramLine = ProgramLine(lineNumber: nat, compiled: Result<Parsed, CompileError>)

  /** The readers this parser calls but whose source is not part of the
      model: the ALU and MEM mnemonic tables and `parse_u16_constant`. */
  datatype Readers = Readers(tables: StackMod.Tables, number: string -> Result<u16, CompileError>)

  /** Every character is ASCII (the only text the model reads: Rust's
      `encode_utf8` into one byte would panic on any other). */
  predicate AsciiText(s: string) {
    forall c :: c in s ==> Custom.IsAscii(c)
  }

  predicate Blank(s: string) {
    forall i :: 0 <= i < |s| ==> IsWhitespace(s[i])
  }

  /** Every character of `x` occurs in `y`. */
  predicate Within(x: string, y: string) {
    forall c :: c in x ==> c in y
  }

  // Lines

  /** `str::split('\n')`: the pieces between the newlines, in order; an
      empty text is one empty line. */
  function SplitLines(s: string): (r: seq<string>)
    ensures |r| >= 1
    decreases |s|
  {
    if s == [] then [[]]
    else if s[0] == '\n' then [[]] + SplitLines(s[1..])
    else
      var rest := SplitLines(s[1..]);
      [[s[0]] + rest[0]] + rest[1..]
  }

  /** The lines written back with a newline between each two. */
  function JoinLines(ls: seq<string>): string
    requires ls != []
  {
    if |ls| == 1 then ls[0] else ls[0] + "\n" + JoinLines(ls[1..])
  }

  /** There is one line more than there are newlines. */
  lemma {:induction false} LineCount(s: string)
    ensures |SplitLines(s)| == Newlines(s) + 1
    decreases |s|
  {
    if s != [] {
      LineCount(s[1..]);
    }
  }

  /** No line holds a newline, and each holds only characters of the text. */
  lemma {:induction false} LinesWithin(s: string)
    ensures forall i :: 0 <= i < |SplitLines(s)| ==> '\n' !in SplitLines(s)[i] && Within(SplitLines(s)[i], s)
    decreases |s|
  {
    if s != [] {
      LinesWithin(s[1..]);
      var rest := SplitLines(s[1..]);
      assert forall c :: c in s[1..] ==> c in s;
      if s[0] != '\n' {
        var ls := SplitLines(s);
        assert forall i :: 1 <= i < |ls| ==> ls[i] == rest[i];
        assert forall c :: c in ls[0] ==> c == s[0] || c in rest[0];
      } else {
        var ls := SplitLines(s);
        assert forall i :: 1 <= i < |ls| ==> ls[i] == rest[i - 1];
      }
    }
  }

  /** Joining the lines gives the text back. */
  lemma {:induction false} SplitJoin(s: string)
    ensures JoinLines(SplitLines(s)) == s
    decreases |s|
  {
    if s != [] {
      var rest := SplitLines(s[1..]);
      SplitJoin(s[1..]);
      if s[0] == '\n' {
        assert ([[]] + rest)[1..] == rest;
        assert s == "\n" + s[1..];
      } else if |rest| == 1 {
        assert s == [s[0]] + s[1..];
      } else {
        var ls := [[s[0]] + rest[0]] + rest[1..];
        assert ls[1..] == rest[1..];
        assert JoinLines(rest) == rest[0] + "\n" + JoinLines(rest[1..]);
        assert ([s[0]] + rest[0]) + "\n" + JoinLines(rest[1..]) == [s[0]] + (rest[0] + "\n" + JoinLines(rest[1..]));
        assert s == [s[0]] + s[1..];
      }
    }
  }

  /** A text without a newline is one line. */
  lemma {:induction false} SplitOne(line: string)
    requires '\n' !in line
    ensures SplitLines(line) == [line]
    decreases |line|
  {
    if line != [] {
      assert line[0] in line;
      assert forall c :: c in line[1..] ==> c in line;
      SplitOne(line[1..]);
      assert [line[0]] + line[1..] == line;
    }
  }

  /** A line without a newline, followed by a newline, is the first line. */
  lemma {:induction false} SplitFirst(line: string, rest: string)
    requires '\n' !in line
    ensures SplitLines(line + "\n" + rest) == [line] + SplitLines(rest)
    decreases |line|
  {
    var s := line + "\n" + rest;
    if line == [] {
      assert s == "\n" + rest;
      assert s[1..] == rest;
    } else {
      assert s[0] == line[0] && line[0] in line;
      assert s[1..] == line[1..] + "\n" + rest;
      assert forall c :: c in line[1..] ==> c in line;
      SplitFirst(line[1..], rest);
      assert [line[0]] + line[1..] == line;
    }
  }

  /** Cutting text written as lines gives the lines back. */
  lemma {:induction false} JoinSplit(ls: seq<string>)
    requires ls != []
    requires forall i :: 0 <= i < |ls| ==> '\n' !in ls[i]
    ensures SplitLines(JoinLines(ls)) == ls
  {
    if |ls| == 1 {
      SplitOne(ls[0]);
    } else {
      SplitFirst(ls[0], JoinLines(ls[1..]));
      JoinSplit(ls[1..]);
      assert [ls[0]] + ls[1..] == ls;
    }
  }

  // Trimming and comments

  /** `str::trim_start`: drops the leading whitespace. */
  function TrimStart(s: string): (r: string)
    ensures |r| <= |s|
  {
    if s == [] || !IsWhitespace(s[0]) then s else TrimStart(s[1..])
  }

  /** `str::trim_end`: drops the trailing whitespace. */
  function TrimEnd(s: string): (r: string)
    ensures |r| <= |s|
  {
    if s == [] || !IsWhitespace(s[|s| - 1]) then s else TrimEnd(s[..|s| - 1])
  }

  /** `str::trim`. */
  function Trim(s: string): string {
    TrimEnd(TrimStart(s))
  }

  /** The text before the first `c`: for `split_once(c)`, its first half. */
  function BeforeFirst(s: string, c: char): (r: string)
    ensures |r| <= |s|
  {
    if s == [] || s[0] == c then [] else [s[0]] + BeforeFirst(s[1..], c)
  }

  /** The line as the source reads it: trimmed, cut at its first '#', and
      trimmed again. */
  function Uncomment(raw: string): string {
    var t := Trim(raw);
    if '#' in t then Trim(BeforeFirst(t, '#')) else t
  }

  /** `trim_start` drops exactly the leading whitespace: what is left is a
      suffix that is empty or starts with something else. */
  lemma {:induction false} TrimStartMeaning(s: string)
    ensures var r := TrimStart(s);
      r == s[|s| - |r|..] && Blank(s[..|s| - |r|]) && (r == [] || !IsWhitespace(r[0]))
    decreases |s|
  {
    if s != [] && IsWhitespace(s[0]) {
      TrimStartMeaning(s[1..]);
      var r := TrimStart(s);
      assert s[..|s| - |r|] == [s[0]] + s[1..][..|s| - 1 - |r|];
    }
  }

  /** `trim_end` drops exactly the trailing whitespace. */
  lemma {:induction false} TrimEndMeaning(s: string)
    ensures var r := TrimEnd(s);
      r == s[..|r|] && Blank(s[|r|..]) && (r == [] || !IsWhitespace(r[|r| - 1]))
    decreases |s|
  {
    if s != [] && IsWhitespace(s[|s| - 1]) {
      TrimEndMeaning(s[..|s| - 1]);
      var r := TrimEnd(s);
      assert s[..|s| - 1][..|r|] == s[..|r|];
      assert s[|r|..] == s[..|s| - 1][|r|..] + [s[|s| - 1]];
    }
  }

  /** A trimmed text is empty or starts and ends with something other than
      whitespace. */
  lemma TrimMeaning(s: string)
    ensures var r := Trim(s); r == [] || (!IsWhitespace(r[0]) && !IsWhitespace(r[|r| - 1]))
  {
    TrimStartMeaning(s);
    TrimEndMeaning(TrimStart(s));
    var t := TrimStart(s);
    var r := TrimEnd(t);
    if r != [] { assert r[0] == t[0]; }
  }

  lemma {:induction false} TrimStartWithin(s: string)
    ensures Within(TrimStart(s), s)
    decreases |s|
  {
    if s != [] && IsWhitespace(s[0]) {
      TrimStartWithin(s[1..]);
      assert Within(s[1..], s);
    }
  }

  lemma {:induction false} TrimEndWithin(s: string)
    ensures Within(TrimEnd(s), s)
    decreases |s|
  {
    if s != [] && IsWhitespace(s[|s| - 1]) {
      TrimEndWithin(s[..|s| - 1]);
      assert Within(s[..|s| - 1], s);
    }
  }

  lemma {:induction false} BeforeFirstWithin(s: string, c: char)
    ensures Within(BeforeFirst(s, c), s)
    decreases |s|
  {
    if s != [] && s[0] != c {
      BeforeFirstWithin(s[1..], c);
      assert Within(s[1..], s);
    }
  }

  lemma TrimWithin(s: string)
    ensures Within(Trim(s), s)
  {
    TrimStartWithin(s);
    TrimEndWithin(TrimStart(s));
  }

  /** What is left of a line holds only characters of the line. */
  lemma UncommentWithin(raw: string)
    ensures Within(Uncomment(raw), raw)
  {
    TrimWithin(raw);
    var t := Trim(raw);
    if '#' in t {
      BeforeFirstWithin(t, '#');
      TrimWithin(BeforeFirst(t, '#'));
    }
  }

  /** Trimming leaves something that is not whitespace at the front. */
  lemma UncommentFront(raw: string)
    ensures var s := Uncomment(raw); s == [] || (!IsWhitespace(s[0]) && !IsWhitespace(s[|s| - 1]))
  {
    TrimMeaning(raw);
    var t := Trim(raw);
    if '#' in t {
      TrimMeaning(BeforeFirst(t, '#'));
    }
  }

  lemma {:induction false} TrimStartBlank(w: string, x: string)
    requires Blank(w)
    ensures TrimStart(w + x) == TrimStart(x)
    decreases |w|
  {
    if w != [] {
      assert (w + x)[0] == w[0];
      assert (w + x)[1..] == w[1..] + x;
      TrimStartBlank(w[1..], x);
    } else {
      assert w + x == x;
    }
  }

  /** Text after a character that is not whitespace is kept by `trim_start`. */
  lemma {:induction false} TrimStartBefore(x: string, y: string)
    requires y != [] && !IsWhitespace(y[0])
    ensures TrimStart(x + y) == TrimStart(x) + y
    decreases |x|
  {
    if x == [] {
      assert x + y == y;
    } else if IsWhitespace(x[0]) {
      assert (x + y)[1..] == x[1..] + y;
      TrimStartBefore(x[1..], y);
    }
  }

  /** Text before a character that is not whitespace is kept by `trim_end`. */
  lemma {:induction false} TrimEndAfter(x: string, y: string)
    requires x != [] && !IsWhitespace(x[|x| - 1])
    ensures TrimEnd(x + y) == x + TrimEnd(y)
    decreases |y|
  {
    if y == [] {
      assert x + y == x;
    } else if IsWhitespace(y[|y| - 1]) {
      assert (x + y)[..|x + y| - 1] == x + y[..|y| - 1];
      TrimEndAfter(x, y[..|y| - 1]);
    }
  }

  lemma {:induction false} TrimStartTwice(s: string)
    ensures TrimStart(TrimStart(s)) == TrimStart(s)
    decreases |s|
  {
    if s != [] && IsWhitespace(s[0]) {
      TrimStartTwice(s[1..]);
    }
  }

  lemma {:induction false} BeforeFirstAt(a: string, b: string, c: char)
    requires c !in a
    ensures BeforeFirst(a + [c] + b, c) == a
    decreases |a|
  {
    var s := a + [c] + b;
    if a == [] {
      assert s[0] == c;
    } else {
      assert s[0] == a[0] && a[0] in a;
      assert s[1..] == a[1..] + [c] + b;
      assert forall ch :: ch in a[1..] ==> ch in a;
      BeforeFirstAt(a[1..], b, c);
      assert [a[0]] + a[1..] == a;
    }
  }

  /** Trimming a text that already starts and ends with something else
      leaves it as it is. */
  lemma TrimNothing(s: string)
    requires s == [] || (!IsWhitespace(s[0]) && !IsWhitespace(s[|s| - 1]))
    ensures Trim(s) == s
  {
  }

  /** A line without '#' is only trimmed. */
  lemma NoComment(raw: string)
    requires '#' !in raw
    ensures Uncomment(raw) == Trim(raw)
  {
    TrimWithin(raw);
  }

  /** What follows the first '#' is dropped, and the rest trimmed. */
  lemma CommentCut(code: string, comment: string)
    requires '#' !in code
    ensures Uncomment(code + "#" + comment) == Trim(code)
  {
    var raw := code + "#" + comment;
    var head := TrimStart(code);
    assert raw == code + ("#" + comment);
    TrimStartBefore(code, "#" + comment);
    assert TrimStart(raw) == (head + "#") + comment;
    TrimEndAfter(head + "#", comment);
    var t := Trim(raw);
    assert t == head + "#" + TrimEnd(comment);
    assert '#' in t by { assert t[|head|] == '#'; }
    TrimStartWithin(code);
    BeforeFirstAt(head, TrimEnd(comment), '#');
    TrimStartTwice(code);
  }

  // Statements

  /** `starts_with_numeric`. */
  predicate Numeric(c: char) { IsAsciiDigit(c) || c == '+' || c == '-' }

  /** The characters between the quotes, as `skip(1)` and `pop` leave them;
      a lone `"` has none. */
  function Inner(s: string): (r: string)
    requires StartsWith(s, "\"") && EndsWith(s, '"')
    ensures |s| >= 2 ==> s == "\"" + r + "\""
    ensures |s| < 2 ==> r == []
  {
    if |s| >= 2 then
      assert s == [s[0]] + s[1..|s| - 1] + [s[|s| - 1]];
      s[1..|s| - 1]
    else []
  }

  /** The mnemonic half of `parse_instruction`: NOP and HALT become their
      instructions, a mnemonic no family knows is `UnknownCommand`, and
      every other one is handed its operand tokens. */
  function Dispatch(tables: StackMod.Tables, sp: AsmDispatch.Split): (r: Result<Statement, CompileError>)
    ensures var c := AsmDispatch.Classify(sp.name, sp.flags, tables);
      (r.Err? <==> c.Unrecognised?)
      && (r.Err? ==> r.error == UnknownCommand(sp.name))
      && (c == AsmDispatch.NopCommand ==> r == Ok(NopStatement))
      && (c == AsmDispatch.HaltCommand ==> r == Ok(HaltStatement))
      && (r.Ok? && !r.value.NopStatement? && !r.value.HaltStatement? ==> r == Ok(Operands(c, sp.operands)))
  {
    match AsmDispatch.Classify(sp.name, sp.flags, tables)
    case NopCommand => Ok(NopStatement)
    case HaltCommand => Ok(HaltStatement)
    case Unrecognised(name) => Err(UnknownCommand(name))
    case c => Ok(Operands(c, sp.operands))
  }

  /** `parse_instruction`. The quote test comes before the uppercasing, so
      raw data keeps its case and its backslashes; the number test and the
      mnemonic see the uppercased text. */
  function ParseInstruction(rd: Readers, s: string): (r: Result<Statement, CompileError>)
    requires AsciiText(s)
    ensures StartsWith(s, "\"") && EndsWith(s, '"') ==> r == Ok(Words(Custom.Bytes(Inner(s))))
    ensures !(StartsWith(s, "\"") && EndsWith(s, '"')) && s != [] && Numeric(s[0]) ==>
      r == (match rd.number(Upper(s)) case Ok(v) => Ok(Word(v)) case Err(e) => Err(e))
    ensures !(StartsWith(s, "\"") && EndsWith(s, '"')) && (s == [] || !Numeric(s[0])) ==>
      (r == Err(NoCommandSupplied) <==> AsmDispatch.SplitWhitespace(Upper(s)) == [])
  {
    if StartsWith(s, "\"") && EndsWith(s, '"') then
      var inner := Inner(s);
      assert forall i :: 0 <= i < |inner| ==> inner[i] == s[i + 1] && s[i + 1] in s;
      Ok(Words(Custom.Bytes(inner)))
    else
      var u := Upper(s);
      if u != [] && Numeric(u[0]) then
        assert Numeric(s[0]);
        match rd.number(u)
        case Ok(v) => Ok(Word(v))
        case Err(e) => Err(e)
      else
        assert s != [] ==> !Numeric(s[0]);
        // SplitStatement splits the uppercased text itself.
        match AsmDispatch.SplitStatement(s)
        case None => Err(NoCommandSupplied)
        case Some(sp) => Dispatch(rd.tables, sp)
  }

  /** One line of the listing, from its raw text. */
  function Compiled(rd: Readers, raw: string): Result<Parsed, CompileError>
    requires AsciiText(raw)
  {
    var s := Uncomment(raw);
    assert AsciiText(s) by { UncommentWithin(raw); }
    if |s| == 0 then Ok(ToolkitCompile.Nop)
    else if EndsWith(s, ':') then Ok(ToolkitCompile.Label(s[..|s| - 1]))
    else
      match ParseInstruction(rd, s)
      case Ok(ins) => Ok(ToolkitCompile.Instruction(ins))
      case Err(e) => Err(e)
  }

  /** `parse_listing`: one line per '\n'-separated piece, numbered from 0. */
  function ParseListing(rd: Readers, inp: string): (r: seq<ProgramLine>)
    requires AsciiText(inp)
    ensures |r| == |SplitLines(inp)|
    ensures forall i :: 0 <= i < |r| ==> r[i].lineNumber == i
  {
    var lines := SplitLines(inp);
    LinesWithin(inp);
    seq(|lines|, i requires 0 <= i < |lines| => ProgramLine(i, Compiled(rd, lines[i])))
  }

  /** There is one program line per newline, and one more. */
  lemma ListingLength(rd: Readers, inp: string)
    requires AsciiText(inp)
    ensures |ParseListing(rd, inp)| == Newlines(inp) + 1
  {
    LineCount(inp);
  }

  /** Line `i` of the listing is what line `i` of the text compiles to. */
  lemma ListingLine(rd: Readers, lines: seq<string>, i: nat)
    requires lines != [] && i < |lines|
    requires forall k :: 0 <= k < |lines| ==> '\n' !in lines[k] && AsciiText(lines[k])
    ensures AsciiText(JoinLines(lines)) && SplitLines(JoinLines(lines)) == lines
    ensures ParseListing(rd, JoinLines(lines))[i] == ProgramLine(i, Compiled(rd, lines[i]))
  {
    JoinAscii(lines);
    JoinSplit(lines);
  }

  lemma {:induction false} JoinAscii(lines: seq<string>)
    requires lines != []
    requires forall k :: 0 <= k < |lines| ==> AsciiText(lines[k])
    ensures AsciiText(JoinLines(lines))
  {
    if |lines| > 1 {
      JoinAscii(lines[1..]);
    }
  }

  /** Everything from the first '#' on is a comment. */
  lemma CommentDropped(rd: Readers, code: string, comment: string)
    requires AsciiText(code + "#" + comment) && '#' !in code
    ensures AsciiText(code)
    ensures Compiled(rd, code + "#" + comment) == Compiled(rd, code)
  {
    CommentCut(code, comment);
    NoComment(code);
  }

  /** A line of blanks is an empty line, and so, with the lemma above, is
      one that holds only a comment. */
  lemma BlankLine(rd: Readers, blank: string)
    requires Blank(blank) && AsciiText(blank)
    ensures Compiled(rd, blank) == Ok(ToolkitCompile.Nop)
  {
    assert '#' !in blank by {
      forall i | 0 <= i < |blank| ensures blank[i] != '#' { assert IsWhitespace(blank[i]); }
    }
    NoComment(blank);
    TrimStartBlank(blank, []);
    assert blank + [] == blank;
  }

  /** A line that reads `name:` declares the label `name`. */
  lemma LabelLine(rd: Readers, name: string)
    requires AsciiText(name + ":") && '#' !in name
    requires name == [] || !IsWhitespace(name[0])
    ensures Compiled(rd, name + ":") == Ok(ToolkitCompile.Label(name))
  {
    var s := name + ":";
    LabelUncommented(name);
    assert EndsWith(s, ':');
    assert s[..|s| - 1] == name;
  }

  /** `name:` has nothing to trim and no comment to cut. */
  lemma LabelUncommented(name: string)
    requires '#' !in name
    requires name == [] || !IsWhitespace(name[0])
    ensures Uncomment(name + ":") == name + ":"
  {
    var s := name + ":";
    assert '#' !in s by { assert forall c :: c in s ==> c in name || c == ':'; }
    assert !IsWhitespace(s[0]) by { if name != [] { assert s[0] == name[0]; } }
    assert s[|s| - 1] == ':';
    NoComment(s);
    TrimNothing(s);
  }

  /** The quote test of `parse_instruction`, on `"text"`. */
  lemma QuotedStatement(rd: Readers, text: string)
    requires AsciiText("\"" + text + "\"")
    ensures AsciiText(text)
    ensures ParseInstruction(rd, "\"" + text + "\"") == Ok(Words(Custom.Bytes(text)))
  {
    var s := "\"" + text + "\"";
    assert forall c :: c in text ==> c in s;
    assert StartsWith(s, "\"") by { assert s[..1] == "\""; }
    assert Inner(s) == text;
  }

  /** A lone `"` both starts and ends with a quote: it is data with no
      words at all. */
  lemma LoneQuote(rd: Readers)
    ensures Compiled(rd, "\"") == Ok(ToolkitCompile.Instruction(Words([])))
  {
    var s := "\"";
    assert '#' !in s;
    NoComment(s);
    TrimNothing(s);
    assert StartsWith(s, "\"") && EndsWith(s, '"');
    assert Inner(s) == [];
  }

  /** A line that starts like a number is one raw word: whatever the number
      reader makes of the uppercased text. */
  lemma NumberLine(rd: Readers, s: string)
    requires AsciiText(s) && '#' !in s && s != [] && Numeric(s[0]) && !IsWhitespace(s[|s| - 1]) && s[|s| - 1] != ':'
    ensures Compiled(rd, s)
         == match rd.number(Upper(s)) case Ok(v) => Ok(ToolkitCompile.Instruction(Word(v))) case Err(e) => Err(e)
  {
    NumberUncommented(s);
    assert !StartsWith(s, "\"") by { assert s[..1][0] == s[0]; }
    var r := ParseInstruction(rd, s);
    assert r == (match rd.number(Upper(s)) case Ok(v) => Ok(Word(v)) case Err(e) => Err(e));
  }

  /** A line without '#' that starts like a number and does not end in a
      blank has nothing to trim or cut. */
  lemma NumberUncommented(s: string)
    requires '#' !in s && s != [] && Numeric(s[0]) && !IsWhitespace(s[|s| - 1])
    ensures Uncomment(s) == s
  {
    NoComment(s);
    assert !IsWhitespace(s[0]);
    TrimNothing(s);
  }

  /** A quoted line is raw data: one word per character between the quotes,
      in its original case and with backslashes kept as they are. */
  lemma QuotedLine(rd: Readers, text: string)
    requires AsciiText("\"" + text + "\"") && '#' !in text
    ensures AsciiText(text)
    ensures Compiled(rd, "\"" + text + "\"") == Ok(ToolkitCompile.Instruction(Words(Custom.Bytes(text))))
  {
    var s := "\"" + text + "\"";
    assert '#' !in s by { assert forall c :: c in s ==> c in text || c == '"'; }
    NoComment(s);
    TrimNothing(s);
    QuotedStatement(rd, text);
  }

  /** Uppercasing keeps a character that is not whitespace so. */
  lemma UpperKeepsToken(s: string)
    requires s != [] && !IsWhitespace(s[0])
    ensures Upper(s) != [] && !IsWhitespace(Upper(s)[0])
  {
  }

  /** Once a line is trimmed and found non-empty it always has a mnemonic:
      as long as the number reader does not report it itself,
      `NoCommandSupplied` is never the outcome of a line. */
  lemma NeverNoCommand(rd: Readers, raw: string)
    requires AsciiText(raw)
    requires forall t :: rd.number(t) != Err(NoCommandSupplied)
    ensures Compiled(rd, raw) != Err(NoCommandSupplied)
  {
    var s := Uncomment(raw);
    UncommentWithin(raw);
    UncommentFront(raw);
    if s != [] && !EndsWith(s, ':') {
      var q := StartsWith(s, "\"") && EndsWith(s, '"');
      if !q && !Numeric(s[0]) {
        UpperKeepsToken(s);
        AsmDispatch.LeadingToken(Upper(s));
      }
    }
  }

  /** A statement's mnemonic is unknown exactly when no family in the
      dispatch order takes it; the error then names it. */
  lemma UnknownLine(rd: Readers, s: string)
    requires AsciiText(s) && s != [] && s[0] != '"' && !Numeric(s[0])
    ensures var r := ParseInstruction(rd, s);
      match AsmDispatch.SplitStatement(s)
      case None => r == Err(NoCommandSupplied)
      case Some(sp) =>
        (r.Err? <==> AsmDispatch.Classify(sp.name, sp.flags, rd.tables).Unrecognised?)
        && (r.Err? ==> r == Err(UnknownCommand(sp.name)))
  {
    assert !StartsWith(s, "\"") by { assert s[..1][0] == s[0]; }
    assert !Numeric(Upper(s)[0]);
  }
}
