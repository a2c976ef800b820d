// Source positions (easycpu_lib/src/parser/position.rs): a position that
// advances over one character at a time, its "line:column" display, and
// errors carrying a start and an end position.
module Position {
  import opened Errors

  /** A position's value: characters consumed, completed lines, and
      characters since the last newline (all counted from 0). */
  datatype Pos = Pos(pos: nat, line: nat, linePos: nat)

  /** `ParsePosition::default()`. */
  const Start := Pos(0, 0, 0)

  /** What `next(ch)` does to a position. */
  function NextPos(p: Pos, ch: char): (r: Pos)
    ensures r.pos == p.pos + 1
    ensures ch == '\n' ==> r.line == p.line + 1 && r.linePos == 0
    ensures ch != '\n' ==> r.line == p.line && r.linePos == p.linePos + 1
  {
    if ch == '\n' then Pos(p.pos + 1, p.line + 1, 0) else Pos(p.pos + 1, p.line, p.linePos + 1)
  }

  /** The mutable `ParsePosition`. */
  class ParsePosition {
    var pos: nat
    var line: nat
    var linePos: nat

    function Value(): Pos
      reads this
    {
      Pos(pos, line, linePos)
    }

    constructor (p: Pos)
      ensures Value() == p
    {
      pos, line, linePos := p.pos, p.line, p.linePos;
    }

    /** `next`: one more character consumed. */
    method Next(ch: char)
      modifies this
      ensures Value() == NextPos(old(Value()), ch)
    {
      pos := pos + 1;
      if ch == '\n' {
        line := line + 1;
        linePos := 0;
      } else {
        linePos := linePos + 1;
      }
    }
  }

  // --- Positions over a whole text -----------------------------------------

  /** The position after feeding `s` to `next` one character at a time. */
  function After(p: Pos, s: string): Pos
    decreases |s|
  {
    if s == [] then p else After(NextPos(p, s[0]), s[1..])
  }

  function CountNewlines(s: string): nat {
    if s == [] then 0 else (if s[0] == '\n' then 1 else 0) + CountNewlines(s[1..])
  }

  lemma {:induction false} CountNewlinesAppend(s: string, ch: char)
    ensures CountNewlines(s + [ch]) == CountNewlines(s) + (if ch == '\n' then 1 else 0)
  {
    if s != [] {
      assert (s + [ch])[1..] == s[1..] + [ch];
      CountNewlinesAppend(s[1..], ch);
    }
  }

  lemma {:induction false} AfterAppend(p: Pos, s: string, ch: char)
    ensures After(p, s + [ch]) == NextPos(After(p, s), ch)
    decreases |s|
  {
    if s == [] {
      assert [ch][1..] == [];
    } else {
      assert (s + [ch])[1..] == s[1..] + [ch];
      AfterAppend(NextPos(p, s[0]), s[1..], ch);
    }
  }

  /** From the start of a text, the position counts every character, the
      line counts the newlines, and the column counts the characters after
      the last newline. */
  lemma {:induction false} AfterMeaning(s: string)
    ensures After(Start, s).pos == |s|
    ensures After(Start, s).line == CountNewlines(s)
    ensures (forall i :: 0 <= i < |s| ==> s[i] != '\n') ==> After(Start, s).linePos == |s|
    ensures forall i :: 0 <= i < |s| && s[i] == '\n' && (forall j :: i < j < |s| ==> s[j] != '\n') ==>
      After(Start, s).linePos == |s| - i - 1
    decreases |s|
  {
    if s != [] {
      var init := s[..|s| - 1];
      var ch := s[|s| - 1];
      assert s == init + [ch];
      AfterMeaning(init);
      AfterAppend(Start, init, ch);
      CountNewlinesAppend(init, ch);
      forall i | 0 <= i < |s| && s[i] == '\n' && (forall j :: i < j < |s| ==> s[j] != '\n')
        ensures After(Start, s).linePos == |s| - i - 1
      {
        if i < |s| - 1 {
          assert init[i] == s[i];
          assert forall j :: i < j < |init| ==> init[j] == s[j];
        }
      }
      if forall i :: 0 <= i < |s| ==> s[i] != '\n' {
        assert forall i :: 0 <= i < |init| ==> init[i] == s[i];
      }
    }
  }

  // --- Display --------------------------------------------------------------

  function DigitChar(d: nat): (c: char)
    requires d < 10
    ensures '0' <= c <= '9'
  {
    ('0' as int + d) as char
  }

  /** The decimal digits of `n`, most significant first, without leading zeros. */
  function Decimal(n: nat): (s: string)
    ensures |s| > 0 && forall i :: 0 <= i < |s| ==> '0' <= s[i] <= '9'
    decreases n
  {
    if n < 10 then [DigitChar(n)] else Decimal(n / 10) + [DigitChar(n % 10)]
  }

  /** The value of a string of decimal digits. */
  function DecimalValue(s: string): nat
    requires forall i :: 0 <= i < |s| ==> '0' <= s[i] <= '9'
    decreases |s|
  {
    if s == [] then 0 else 10 * DecimalValue(s[..|s| - 1]) + (s[|s| - 1] as int - '0' as int)
  }

  lemma {:induction false} DecimalRoundTrip(n: nat)
    ensures DecimalValue(Decimal(n)) == n
    decreases n
  {
    if n >= 10 {
      var s := Decimal(n);
      assert s[..|s| - 1] == Decimal(n / 10);
      DecimalRoundTrip(n / 10);
    }
  }

  /** `Display`: the 1-based line and column, separated by a colon. */
  function Show(p: Pos): (s: string)
  {
    Decimal(p.line + 1) + ":" + Decimal(p.linePos + 1)
  }

  /** The display names the position unambiguously: the text before the only
      colon reads back as the 1-based line, the text after it as the
      1-based column. */
  lemma ShowMeaning(p: Pos)
    ensures var s := Show(p); var k := |Decimal(p.line + 1)|;
      k < |s| && s[k] == ':'
      && (forall i :: 0 <= i < |s| && i != k ==> s[i] != ':')
      && (forall i :: 0 <= i < k ==> '0' <= s[i] <= '9')
      && (forall i :: k < i < |s| ==> '0' <= s[i] <= '9')
      && DecimalValue(s[..k]) == p.line + 1
      && DecimalValue(s[k + 1..]) == p.linePos + 1
  {
    var a := Decimal(p.line + 1);
    var b := Decimal(p.linePos + 1);
    var s := Show(p);
    assert s[..|a|] == a;
    assert s[|a| + 1..] == b;
    DecimalRoundTrip(p.line + 1);
    DecimalRoundTrip(p.linePos + 1);
  }

  // --- Errors with positions -----------------------------------------------

  datatype PosCompileError = PosCompileError(error: CompileError, startPos: Pos, endPos: Pos)

  /** `with_pos`: an error at one position. */
  function WithPos(e: CompileError, p: Pos): (r: PosCompileError)
    ensures r.error == e && r.startPos == p && r.endPos == p
  {
    PosCompileError(e, p, p)
  }

  /** `with_range`: an error over a range, kept as given. */
  function WithRange(e: CompileError, start: Pos, end: Pos): (r: PosCompileError)
    ensures r.error == e && r.startPos == start && r.endPos == end
  {
    PosCompileError(e, start, end)
  }
}
