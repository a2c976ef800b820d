// Shared value types of the easyCpu toolchain: the fixed-width integers the
// Rust code uses, the Option/Result wrappers its fallible calls return, and
// the wrapping and ASCII helpers that several files lean on.
module Base {

  /** Rust `u16`: every register, address, constant and program counter. */
  newtype u16 = x: int | 0 <= x < 0x1_0000

  /** Rust `u8`. */
  newtype u8 = x: int | 0 <= x < 0x100

  /** Rust `i8`: the signed shift field of MEM and BRANCH instructions. */
  newtype i8 = x: int | -128 <= x < 128

  datatype Option<+T> = None | Some(value: T)

  datatype Result<+T, +E> = Ok(value: T) | Err(error: E)
  {
    predicate IsFailure() { Err? }
    function PropagateFailure<U>(): Result<U, E>
      requires Err?
    { Err(error) }
    function Extract(): T
      requires Ok?
    { value }
  }

  /** `u16::wrapping_add`. */
  function WrapAdd(a: u16, b: u16): (r: u16)
    ensures r as int == if a as int + b as int < 0x1_0000 then a as int + b as int else a as int + b as int - 0x1_0000
  {
    ((a as int + b as int) % 0x1_0000) as u16
  }

  /** `u16::wrapping_sub`. */
  function WrapSub(a: u16, b: u16): (r: u16)
    ensures r as int == if a >= b then a as int - b as int else a as int - b as int + 0x1_0000
    ensures WrapAdd(r, b) == a
  {
    ((a as int - b as int) % 0x1_0000) as u16
  }

  /** `n as u16` for a non-negative count: keeps the low 16 bits. */
  function TruncU16(n: nat): (r: u16)
    ensures n < 0x1_0000 ==> r as int == n
  {
    (n % 0x1_0000) as u16
  }

  /** `x as u16` for an `i8`: sign extension to 16 bits. */
  function I8AsU16(x: i8): (r: u16)
    ensures x >= 0 ==> r as int == x as int
    ensures x < 0 ==> r as int == 0x1_0000 + x as int
  {
    if x >= 0 then x as int as u16 else (0x1_0000 + x as int) as u16
  }

  // ASCII character classes used by the parsers.

  /** `char::is_whitespace` restricted to ASCII. */
  predicate IsWhitespace(c: char) {
    c == ' ' || c == '\t' || c == '\n' || c == '\r' || c == 11 as char || c == 12 as char
  }

  predicate IsAsciiLower(c: char) { 'a' <= c <= 'z' }
  predicate IsAsciiUpper(c: char) { 'A' <= c <= 'Z' }
  predicate IsAsciiDigit(c: char) { '0' <= c <= '9' }

  /** `char::to_ascii_uppercase` (the model's `to_uppercase` on ASCII text). */
  function UpperChar(c: char): (r: char)
    ensures !IsAsciiLower(r)
    ensures !IsAsciiLower(c) ==> r == c
    ensures IsAsciiLower(c) ==> IsAsciiUpper(r)
  {
    if IsAsciiLower(c) then (c as int - 32) as char else c
  }

  function Upper(s: string): (r: string)
    ensures |r| == |s|
    ensures forall i :: 0 <= i < |s| ==> r[i] == UpperChar(s[i])
  {
    if s == [] then [] else [UpperChar(s[0])] + Upper(s[1..])
  }

  /** `str::contains` for one character. */
  predicate Contains(s: string, c: char) { c in s }

  /** `str::starts_with`. */
  predicate StartsWith(s: string, prefix: string) {
    |prefix| <= |s| && s[..|prefix|] == prefix
  }

  /** `str::ends_with` for one character. */
  predicate EndsWith(s: string, c: char) { |s| > 0 && s[|s| - 1] == c }

  /** The number of newlines in `s`. */
  function Newlines(s: string): nat {
    if s == [] then 0 else (if s[0] == '\n' then 1 else 0) + Newlines(s[1..])
  }

  function Reverse<T>(s: seq<T>): (r: seq<T>)
    ensures |r| == |s|
    ensures forall i :: 0 <= i < |s| ==> r[i] == s[|s| - 1 - i]
  {
    if s == [] then [] else Reverse(s[1..]) + [s[0]]
  }

  /** Concatenation of a sequence of sequences (`Iterator::flatten`). */
  function Flatten<T>(ss: seq<seq<T>>): (r: seq<T>)
  {
    if ss == [] then [] else ss[0] + Flatten(ss[1..])
  }

  lemma {:induction false} FlattenAppend<T>(ss: seq<seq<T>>, s: seq<T>)
    ensures Flatten(ss + [s]) == Flatten(ss) + s
  {
    if ss == [] {
      assert ss + [s] == [s];
    } else {
      assert (ss + [s])[1..] == ss[1..] + [s];
      FlattenAppend(ss[1..], s);
    }
  }
}
