// Building a data block from the characters of a string literal
// (`From<Vec<char>> for CustomMultiInstruction`, easycpu_lib/src/asm/custom.rs):
// a backslash marks the next character as special, `\n`, `\t` and `\0`
// stand for their control characters and any other escaped character stands
// for itself; every resulting character becomes one word holding its byte.
module Custom {
  import opened Base

  /** Characters whose UTF-8 form fits the one-byte buffer the code encodes
      into; any other character makes `encode_utf8` panic. */
  predicate IsAscii(c: char) { c < 128 as char }

  /** The character an escaped `c` stands for. */
  function Escaped(c: char): (r: char)
    ensures IsAscii(c) ==> IsAscii(r)
  {
    if c == 'n' then '\n' else if c == 't' then '\t' else if c == '0' then 0 as char else c
  }

  function Byte(c: char): (r: u16)
    requires IsAscii(c)
    ensures r as int == c as int
  {
    c as int as u16
  }

  /** The words produced from `s` when the previous character left the
      decoder in state `special`. */
  function Decode(special: bool, s: seq<char>): (r: seq<u16>)
    requires forall i :: 0 <= i < |s| ==> IsAscii(s[i])
    ensures |r| <= |s|
    decreases |s|
  {
    if s == [] then []
    else if special then [Byte(Escaped(s[0]))] + Decode(false, s[1..])
    else if s[0] == '\\' then Decode(true, s[1..])
    else [Byte(s[0])] + Decode(false, s[1..])
  }

  /** The conversion, as the loop the source runs. */
  method FromChars(source: seq<char>) returns (val: seq<u16>)
    requires forall i :: 0 <= i < |source| ==> IsAscii(source[i])
    ensures val == Decode(false, source)
  {
    val := [];
    var isSpecial := false;
    for i := 0 to |source|
      invariant val + Decode(isSpecial, source[i..]) == Decode(false, source)
    {
      var cur := source[i];
      assert source[i..][1..] == source[i + 1..];
      if isSpecial {
        cur := Escaped(cur);
        isSpecial := false;
      } else if cur == '\\' {
        isSpecial := true;
      }
      if !isSpecial {
        val := val + [Byte(cur)];
      }
    }
    assert source[|source|..] == [];
  }

  /** The inverse direction: how a byte string is written as a literal. */
  function Escape(bytes: seq<char>): (s: seq<char>)
    ensures |s| >= |bytes|
  {
    if bytes == [] then []
    else
      var c := bytes[0];
      var head := if c == '\\' then "\\\\" else if c == '\n' then "\\n"
                  else if c == '\t' then "\\t" else if c == 0 as char then "\\0" else [c];
      head + Escape(bytes[1..])
  }

  function Bytes(s: seq<char>): (r: seq<u16>)
    requires forall i :: 0 <= i < |s| ==> IsAscii(s[i])
    ensures |r| == |s|
    ensures forall i :: 0 <= i < |s| ==> r[i] as int == s[i] as int
  {
    if s == [] then [] else [Byte(s[0])] + Bytes(s[1..])
  }

  lemma {:induction false} EscapeAscii(bytes: seq<char>)
    requires forall i :: 0 <= i < |bytes| ==> IsAscii(bytes[i])
    ensures forall i :: 0 <= i < |Escape(bytes)| ==> IsAscii(Escape(bytes)[i])
  {
    if bytes != [] {
      EscapeAscii(bytes[1..]);
    }
  }

  /** Decoding the escaped form of any ASCII text gives back its bytes. */
  lemma {:induction false} DecodeEscape(bytes: seq<char>)
    requires forall i :: 0 <= i < |bytes| ==> IsAscii(bytes[i])
    ensures forall i :: 0 <= i < |Escape(bytes)| ==> IsAscii(Escape(bytes)[i])
    ensures Decode(false, Escape(bytes)) == Bytes(bytes)
  {
    EscapeAscii(bytes);
    if bytes != [] {
      var c := bytes[0];
      var rest := Escape(bytes[1..]);
      DecodeEscape(bytes[1..]);
      var s := Escape(bytes);
      if c == '\\' || c == '\n' || c == '\t' || c == 0 as char {
        assert s[2..] == rest;
        assert s[1..][1..] == rest;
      } else {
        assert s[1..] == rest;
      }
    }
  }

  /** A string without backslashes is taken byte for byte. */
  lemma {:induction false} DecodePlain(s: seq<char>)
    requires forall i :: 0 <= i < |s| ==> IsAscii(s[i]) && s[i] != '\\'
    ensures Decode(false, s) == Bytes(s)
  {
    if s != [] {
      DecodePlain(s[1..]);
    }
  }

  /** A backslash at the very end produces nothing. */
  lemma {:induction false} DecodeTrailingBackslash(s: seq<char>)
    requires forall i :: 0 <= i < |s| ==> IsAscii(s[i]) && s[i] != '\\'
    ensures Decode(false, s + ['\\']) == Bytes(s)
  {
    if s == [] {
      assert (s + ['\\'])[1..] == [];
    } else {
      assert (s + ['\\'])[1..] == s[1..] + ['\\'];
      DecodeTrailingBackslash(s[1..]);
    }
  }
}
