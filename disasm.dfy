// The toolkit's disassembler (toolkit/src/asm/disasm.rs): an instruction
// becomes its mnemonic, its set flag letters after a '.', and its operands,
// each after one space; a raw word becomes "0x" and its lowercase hex digits.
module Disasm {
  import opened Base
  import opened Cpu
  import AsmDispatch
  import StackAlu

  /** The letters of `names` whose flag is set, in position order. */
  function SetLetters(names: string, flags: seq<bool>): (r: string)
    requires |names| == |flags|
    ensures |r| <= |names|
  {
    if names == [] then []
    else (if flags[0] then [names[0]] else []) + SetLetters(names[1..], flags[1..])
  }

  /** `generate_flags`: "" when no flag is set, and otherwise "." and the
      letters of the set flags. */
  function GenerateFlags(names: string, flags: seq<bool>): (r: string)
    requires |names| == |flags|
    ensures |r| <= |names| + 1
  {
    var letters := SetLetters(names, flags);
    if |"." + letters| == 1 then "" else "." + letters
  }

  /** A letter is there exactly when some set flag carries it. */
  lemma {:induction false} SetLettersHas(names: string, flags: seq<bool>, c: char)
    requires |names| == |flags|
    ensures c in SetLetters(names, flags) <==> exists i :: 0 <= i < |names| && names[i] == c && flags[i]
    decreases |names|
  {
    if names != [] {
      SetLettersHas(names[1..], flags[1..], c);
      if exists i :: 0 <= i < |names| && names[i] == c && flags[i] {
        var i :| 0 <= i < |names| && names[i] == c && flags[i];
        if i > 0 { assert names[1..][i - 1] == c && flags[1..][i - 1]; }
      }
    }
  }

  lemma {:induction false} SetLettersEmpty(names: string, flags: seq<bool>)
    requires |names| == |flags|
    ensures SetLetters(names, flags) == [] <==> forall i :: 0 <= i < |flags| ==> !flags[i]
    decreases |names|
  {
    if names != [] {
      SetLettersEmpty(names[1..], flags[1..]);
      assert forall i :: 1 <= i < |flags| ==> flags[1..][i - 1] == flags[i];
    }
  }

  lemma {:induction false} SetLettersWithin(names: string, flags: seq<bool>)
    requires |names| == |flags|
    ensures forall c :: c in SetLetters(names, flags) ==> c in names
    decreases |names|
  {
    if names != [] {
      SetLettersWithin(names[1..], flags[1..]);
      assert forall c :: c in names[1..] ==> c in names;
    }
  }

  /** No flag set gives no text; otherwise the text is "." and the set
      letters, so each letter shows exactly when its flag is set. */
  lemma FlagsMeaning(names: string, flags: seq<bool>)
    requires |names| == |flags|
    requires forall i, j :: 0 <= i < j < |names| ==> names[i] != names[j]
    requires '.' !in names
    ensures GenerateFlags(names, flags) == "" <==> forall i :: 0 <= i < |flags| ==> !flags[i]
    ensures GenerateFlags(names, flags) != "" ==> GenerateFlags(names, flags) == "." + SetLetters(names, flags)
    ensures forall i :: 0 <= i < |names| ==> (names[i] in GenerateFlags(names, flags) <==> flags[i])
  {
    SetLettersEmpty(names, flags);
    var g := GenerateFlags(names, flags);
    forall i | 0 <= i < |names|
      ensures names[i] in g <==> flags[i]
    {
      SetLettersHas(names, flags, names[i]);
      assert names[i] in g <==> names[i] in SetLetters(names, flags);
    }
  }

  /** Uppercasing the letters is picking from the uppercased names. */
  lemma {:induction false} UpperLetters(names: string, flags: seq<bool>)
    requires |names| == |flags|
    ensures Upper(SetLetters(names, flags)) == SetLetters(Upper(names), flags)
    decreases |names|
  {
    if names != [] {
      UpperLetters(names[1..], flags[1..]);
      var head := if flags[0] then [names[0]] else [];
      AsmDispatch.UpperAppend(head, SetLetters(names[1..], flags[1..]));
      assert Upper(names)[1..] == Upper(names[1..]);
    }
  }

  /** After uppercasing, the ALU flag text holds a capital letter exactly
      when its flag is set. */
  lemma AluLetter(flags: seq<bool>, k: nat)
    requires |flags| == 3 && k < 3
    ensures "XYO"[k] in Upper(GenerateFlags("xyo", flags)) <==> flags[k]
  {
    var letters := SetLetters("XYO", flags);
    UpperLetters("xyo", flags);
    assert Upper("xyo") == "XYO";
    var u := Upper(GenerateFlags("xyo", flags));
    if GenerateFlags("xyo", flags) != "" {
      AsmDispatch.UpperAppend(".", SetLetters("xyo", flags));
      assert u == "." + letters;
      assert "XYO"[k] in u <==> "XYO"[k] in letters;
    } else {
      SetLettersEmpty("xyo", flags);
      SetLettersEmpty("XYO", flags);
    }
    SetLettersHas("XYO", flags, "XYO"[k]);
  }

  /** The disassembled ALU flags, read back by the stack ALU's
      `set_flags_from_str` after the parser's uppercasing, give the same
      three flags. */
  lemma AluFlagsRoundTrip(ins: StackAlu.StackAluInstruction, o: AluInstruction)
    ensures var r := StackAlu.FlagsFromStr(ins, Upper(GenerateFlags("xyo", [o.nx, o.ny, o.no])));
      r.op == ins.op && r.nx == o.nx && r.ny == o.ny && r.no == o.no
  {
    var flags := [o.nx, o.ny, o.no];
    AluLetter(flags, 0);
    AluLetter(flags, 1);
    AluLetter(flags, 2);
  }

  // Numerals

  /** The digit for `d`, in lower case beyond 9. */
  function DigitChar(d: nat): (c: char)
    requires d < 16
  {
    if d < 10 then ('0' as int + d) as char else ('a' as int + d - 10) as char
  }

  /** The value of a digit character (that `DigitChar` writes). */
  function DigitValue(c: char): int {
    if '0' <= c <= '9' then c as int - '0' as int
    else if 'a' <= c <= 'f' then c as int - 'a' as int + 10
    else -1
  }

  /** `n` in base `base` with no leading zeros, as `{}` and `{:x}` write it. */
  function Numeral(n: nat, base: nat): (r: string)
    requires 2 <= base <= 16
    ensures r != []
    decreases n
  {
    if n < base then [DigitChar(n)] else Numeral(n / base, base) + [DigitChar(n % base)]
  }

  /** Reading a numeral back, most significant digit first. */
  function NumeralValue(s: string, base: nat): int {
    if s == [] then 0 else NumeralValue(s[..|s| - 1], base) * base + DigitValue(s[|s| - 1])
  }

  lemma DigitRoundTrip(d: nat)
    requires d < 16
    ensures DigitValue(DigitChar(d)) == d
  {
  }

  /** Euclidean division by the base, spelled out. */
  lemma DivBase(n: nat, base: nat)
    requires 2 <= base
    ensures n == (n / base) * base + n % base && 0 <= n % base < base
    ensures n >= base ==> 1 <= n / base < n
  {
  }

  /** A numeral reads back as the number it was written from. */
  lemma {:induction false} NumeralRoundTrip(n: nat, base: nat)
    requires 2 <= base <= 16
    ensures NumeralValue(Numeral(n, base), base) == n
    decreases n
  {
    if n < base {
      DigitRoundTrip(n);
      assert [DigitChar(n)][..0] == [];
    } else {
      var q := n / base;
      var d := n % base;
      DivBase(n, base);
      NumeralRoundTrip(q, base);
      DigitRoundTrip(d);
      var s := Numeral(n, base);
      assert s == Numeral(q, base) + [DigitChar(d)];
      assert s[..|s| - 1] == Numeral(q, base) && s[|s| - 1] == DigitChar(d);
      assert NumeralValue(s, base) == NumeralValue(Numeral(q, base), base) * base + DigitValue(DigitChar(d));
    }
  }

  /** Only digits, and no leading zero unless the number is 0. */
  lemma {:induction false} NumeralShape(n: nat, base: nat)
    requires 2 <= base <= 16
    ensures var s := Numeral(n, base);
      (forall i :: 0 <= i < |s| ==> 0 <= DigitValue(s[i]) < base)
      && (s[0] == '0' <==> n == 0)
    decreases n
  {
    if n >= base {
      var q := n / base;
      var d := n % base;
      DivBase(n, base);
      NumeralShape(q, base);
      DigitRoundTrip(d);
      var s := Numeral(n, base);
      var p := Numeral(q, base);
      assert s == p + [DigitChar(d)];
      assert forall i :: 0 <= i < |s| ==> s[i] == if i < |p| then p[i] else DigitChar(d);
    } else {
      DigitRoundTrip(n);
    }
  }

  /** `Display` for the signed shift: a '-' for negative values. */
  function SignedText(x: i8): (r: string)
    ensures r != []
  {
    if x < 0 then "-" + Numeral(-(x as int), 10) else Numeral(x as int, 10)
  }

  function SignedValue(s: string): int {
    if s != [] && s[0] == '-' then -NumeralValue(s[1..], 10) else NumeralValue(s, 10)
  }

  /** The shift text reads back as the shift. */
  lemma SignedRoundTrip(x: i8)
    ensures SignedValue(SignedText(x)) == x as int
  {
    if x < 0 {
      NumeralRoundTrip(-(x as int), 10);
      assert ("-" + Numeral(-(x as int), 10))[1..] == Numeral(-(x as int), 10);
    } else {
      NumeralRoundTrip(x as int, 10);
      NumeralShape(x as int, 10);
      assert DigitValue('-') == -1;
    }
  }

  // Instructions

  /** How the register operands are written (`Register`'s `Display`, which
      is not part of this model). */
  type Names = Register -> string

  /** The operands, each after one space: the shape `format!` gives them. */
  function Fields(ops: seq<string>): string {
    if ops == [] then [] else " " + ops[0] + Fields(ops[1..])
  }

  /** `disassemle_instruction`. */
  function Disassemble(ins: Instruction, names: Names): (r: string)
    ensures r != []
  {
    match ins
    case NOP => "NOP"
    case ADD(o) => "ADD" + GenerateFlags("xyo", [o.nx, o.ny, o.no]) + Fields([names(o.dst), names(o.srcA), names(o.srcB)])
    case AND(o) => "AND" + GenerateFlags("xyo", [o.nx, o.ny, o.no]) + Fields([names(o.dst), names(o.srcA), names(o.srcB)])
    case LOAD(o) => "LOAD" + GenerateFlags("hls", [o.hi, o.lo, o.sw]) + Fields([names(o.dst), names(o.addr), SignedText(o.shift)])
    case STORE(o) => "STORE" + GenerateFlags("hls", [o.hi, o.lo, o.sw]) + Fields([names(o.dst), names(o.addr), SignedText(o.shift)])
    case BRANCH(o) => "BRANCH" + GenerateFlags("egl", [o.eq, o.gt, o.lt]) + Fields([names(o.cond), SignedText(o.shift)])
    case CUSTOM(w) => "0x" + Numeral(w as nat, 16)
  }

  /** The mnemonic the assembler parser would see. */
  function Mnemonic(ins: Instruction): string {
    match ins
    case NOP => "NOP"
    case ADD(_) => "ADD"
    case AND(_) => "AND"
    case LOAD(_) => "LOAD"
    case STORE(_) => "STORE"
    case BRANCH(_) => "BRANCH"
    case CUSTOM(_) => ""
  }

  /** The set flag letters, uppercased as the parser reads them. */
  function FlagLetters(ins: Instruction): string {
    match ins
    case ADD(o) => Upper(SetLetters("xyo", [o.nx, o.ny, o.no]))
    case AND(o) => Upper(SetLetters("xyo", [o.nx, o.ny, o.no]))
    case LOAD(o) => Upper(SetLetters("hls", [o.hi, o.lo, o.sw]))
    case STORE(o) => Upper(SetLetters("hls", [o.hi, o.lo, o.sw]))
    case BRANCH(o) => Upper(SetLetters("egl", [o.eq, o.gt, o.lt]))
    case _ => ""
  }

  /** The operand texts in order. */
  function OperandTexts(ins: Instruction, names: Names): seq<string> {
    match ins
    case ADD(o) => [names(o.dst), names(o.srcA), names(o.srcB)]
    case AND(o) => [names(o.dst), names(o.srcA), names(o.srcB)]
    case LOAD(o) => [names(o.dst), names(o.addr), SignedText(o.shift)]
    case STORE(o) => [names(o.dst), names(o.addr), SignedText(o.shift)]
    case BRANCH(o) => [names(o.cond), SignedText(o.shift)]
    case _ => []
  }

  lemma {:induction false} FieldsJoin(head: string, ops: seq<string>)
    ensures head + Fields(ops) == AsmDispatch.JoinSpaced([head] + ops)
    decreases |ops|
  {
    if ops == [] {
      assert head + [] == head;
    } else {
      FieldsJoin(ops[0], ops[1..]);
      assert ([head] + ops)[1..] == [ops[0]] + ops[1..] == ops;
      assert head + Fields(ops) == head + " " + (ops[0] + Fields(ops[1..]));
    }
  }

  predicate UpperToken(t: string) {
    AsmDispatch.Token(t) && Upper(t) == t
  }

  lemma UpperTokenStays(t: string)
    requires AsmDispatch.Token(t)
    ensures AsmDispatch.Token(Upper(t))
  {
  }

  /** The flag text holds no whitespace, and only '.' and the names. */
  lemma FlagsToken(names: string, flags: seq<bool>)
    requires |names| == |flags| && '.' !in names
    requires forall c :: c in names ==> !IsWhitespace(c)
    ensures var g := GenerateFlags(names, flags);
      (forall i :: 0 <= i < |g| ==> !IsWhitespace(g[i]))
      && (g == "" || Upper(g) == "." + Upper(SetLetters(names, flags)))
  {
    var g := GenerateFlags(names, flags);
    SetLettersWithin(names, flags);
    assert forall i :: 0 <= i < |g| ==> g[i] in g;
    if g != [] {
      AsmDispatch.UpperAppend(".", SetLetters(names, flags));
    }
  }

  /** The first token: the mnemonic with the flags after it. */
  lemma HeadToken(m: string, g: string)
    requires UpperToken(m)
    requires forall i :: 0 <= i < |g| ==> !IsWhitespace(g[i])
    ensures Upper(m + g) == m + Upper(g) && AsmDispatch.Token(m + Upper(g))
  {
    AsmDispatch.UpperAppend(m, g);
    var h := m + Upper(g);
    assert forall i :: 0 <= i < |h| ==> h[i] == if i < |m| then m[i] else UpperChar(g[i - |m|]);
  }

  /** Written text splits into its first token and the operands. */
  lemma SplitWritten(head: string, ops: seq<string>)
    requires AsmDispatch.Token(Upper(head))
    requires forall i :: 0 <= i < |ops| ==> UpperToken(ops[i])
    ensures AsmDispatch.SplitWhitespace(Upper(head + Fields(ops))) == [Upper(head)] + ops
  {
    ShapeUpper(head, ops);
    FieldsJoin(Upper(head), ops);
    var ts := [Upper(head)] + ops;
    assert forall i :: 0 <= i < |ts| ==> AsmDispatch.Token(ts[i]) by {
      forall i | 0 <= i < |ts| ensures AsmDispatch.Token(ts[i]) {
        if i > 0 { assert ts[i] == ops[i - 1]; }
      }
    }
    AsmDispatch.SplitJoin(ts);
  }

  /** The statement split of mnemonic, flags and operands written the way
      the disassembler writes them. */
  lemma ShapeSplit(m: string, names: string, flags: seq<bool>, ops: seq<string>)
    requires UpperToken(m) && '.' !in m
    requires |names| == |flags| && '.' !in names
    requires forall c :: c in names ==> !IsWhitespace(c)
    requires forall i :: 0 <= i < |ops| ==> UpperToken(ops[i])
    ensures AsmDispatch.SplitStatement(m + GenerateFlags(names, flags) + Fields(ops))
         == Some(AsmDispatch.Split(m, Upper(SetLetters(names, flags)), ops))
  {
    var g := GenerateFlags(names, flags);
    FlagsToken(names, flags);
    HeadToken(m, g);
    SplitWritten(m + g, ops);
    var ts := [m + Upper(g)] + ops;
    assert ts[0] == m + Upper(g) && ts[1..] == ops;
    if g == "" {
      SetLettersEmpty(names, flags);
      assert m + Upper(g) == m;
    } else {
      assert m + Upper(g) == m + "." + Upper(SetLetters(names, flags));
      AsmDispatch.SplitCommandJoin(m, Upper(SetLetters(names, flags)));
    }
  }

  /** Uppercasing the written statement only uppercases its first token. */
  lemma {:induction false} ShapeUpper(head: string, ops: seq<string>)
    requires forall i :: 0 <= i < |ops| ==> Upper(ops[i]) == ops[i]
    ensures Upper(head + Fields(ops)) == Upper(head) + Fields(ops)
  {
    AsmDispatch.UpperAppend(head, Fields(ops));
    FieldsUpper(ops);
  }

  lemma {:induction false} FieldsUpper(ops: seq<string>)
    requires forall i :: 0 <= i < |ops| ==> Upper(ops[i]) == ops[i]
    ensures Upper(Fields(ops)) == Fields(ops)
  {
    if ops != [] {
      FieldsUpper(ops[1..]);
      AsmDispatch.UpperAppend(" " + ops[0], Fields(ops[1..]));
      AsmDispatch.UpperAppend(" ", ops[0]);
    }
  }

  /** The shift text is a token the parser keeps as it is. */
  lemma SignedToken(x: i8)
    ensures UpperToken(SignedText(x))
  {
    var s := SignedText(x);
    var n := if x < 0 then -(x as int) else x as int;
    NumeralShape(n, 10);
    var d := Numeral(n, 10);
    assert forall i :: 0 <= i < |d| ==> '0' <= d[i] <= '9';
    if x < 0 {
      assert forall i :: 1 <= i < |s| ==> s[i] == d[i - 1];
    }
  }

  lemma FlagNames()
    ensures '.' !in "xyo" && '.' !in "hls" && '.' !in "egl"
    ensures forall c :: c in "xyo" ==> !IsWhitespace(c)
    ensures forall c :: c in "hls" ==> !IsWhitespace(c)
    ensures forall c :: c in "egl" ==> !IsWhitespace(c)
  {
  }

  lemma NopParsesBack()
    ensures AsmDispatch.SplitStatement("NOP") == Some(AsmDispatch.Split("NOP", "", []))
  {
    ShapeSplit("NOP", "", [], []);
    assert "NOP" + GenerateFlags("", []) + Fields([]) == "NOP";
    assert Upper(SetLetters("", [])) == "";
  }

  lemma AluParsesBack(m: string, o: AluInstruction, names: Names)
    requires m == "ADD" || m == "AND"
    requires forall r :: UpperToken(names(r))
    ensures AsmDispatch.SplitStatement(m + GenerateFlags("xyo", [o.nx, o.ny, o.no]) + Fields([names(o.dst), names(o.srcA), names(o.srcB)]))
         == Some(AsmDispatch.Split(m, Upper(SetLetters("xyo", [o.nx, o.ny, o.no])), [names(o.dst), names(o.srcA), names(o.srcB)]))
  {
    FlagNames();
    var ops := [names(o.dst), names(o.srcA), names(o.srcB)];
    assert forall i :: 0 <= i < |ops| ==> UpperToken(ops[i]);
    ShapeSplit(m, "xyo", [o.nx, o.ny, o.no], ops);
  }

  lemma MemParsesBack(m: string, o: MemInstruction, names: Names)
    requires m == "LOAD" || m == "STORE"
    requires forall r :: UpperToken(names(r))
    ensures AsmDispatch.SplitStatement(m + GenerateFlags("hls", [o.hi, o.lo, o.sw]) + Fields([names(o.dst), names(o.addr), SignedText(o.shift)]))
         == Some(AsmDispatch.Split(m, Upper(SetLetters("hls", [o.hi, o.lo, o.sw])), [names(o.dst), names(o.addr), SignedText(o.shift)]))
  {
    FlagNames();
    SignedToken(o.shift);
    var ops := [names(o.dst), names(o.addr), SignedText(o.shift)];
    assert forall i :: 0 <= i < |ops| ==> UpperToken(ops[i]);
    ShapeSplit(m, "hls", [o.hi, o.lo, o.sw], ops);
  }

  lemma BranchParsesBack(o: BranchInstruction, names: Names)
    requires forall r :: UpperToken(names(r))
    ensures AsmDispatch.SplitStatement("BRANCH" + GenerateFlags("egl", [o.eq, o.gt, o.lt]) + Fields([names(o.cond), SignedText(o.shift)]))
         == Some(AsmDispatch.Split("BRANCH", Upper(SetLetters("egl", [o.eq, o.gt, o.lt])), [names(o.cond), SignedText(o.shift)]))
  {
    FlagNames();
    SignedToken(o.shift);
    var ops := [names(o.cond), SignedText(o.shift)];
    assert forall i :: 0 <= i < |ops| ==> UpperToken(ops[i]);
    ShapeSplit("BRANCH", "egl", [o.eq, o.gt, o.lt], ops);
  }

  /** Disassembled text goes back through the assembler's statement split
      to the same mnemonic, the set flag letters and the operand texts, as
      long as every register is written as one uppercase token. */
  lemma ParsesBack(ins: Instruction, names: Names)
    requires !ins.CUSTOM?
    requires forall r :: UpperToken(names(r))
    ensures AsmDispatch.SplitStatement(Disassemble(ins, names))
         == Some(AsmDispatch.Split(Mnemonic(ins), FlagLetters(ins), OperandTexts(ins, names)))
  {
    match ins
    case NOP => NopParsesBack();
    case ADD(o) => AluParsesBack("ADD", o, names);
    case AND(o) => AluParsesBack("AND", o, names);
    case LOAD(o) => MemParsesBack("LOAD", o, names);
    case STORE(o) => MemParsesBack("STORE", o, names);
    case BRANCH(o) => BranchParsesBack(o, names);
  }

  /** A raw word is written as "0x" and its hex digits, which read back as
      the word. */
  lemma CustomRoundTrip(w: u16, names: Names)
    ensures var r := Disassemble(CUSTOM(w), names);
      r[..2] == "0x" && NumeralValue(r[2..], 16) == w as int
  {
    NumeralRoundTrip(w as nat, 16);
    var r := Disassemble(CUSTOM(w), names);
    assert r[2..] == Numeral(w as nat, 16);
  }
}
