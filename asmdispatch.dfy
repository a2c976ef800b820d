// The statement-level half that both assembler parsers share
// (easycpu_lib/src/asm/parse.rs `parse_instruction` and the toolkit's copy in
// toolkit/src/asm/parse.rs): a statement is split into whitespace-separated
// tokens, its first token is split at the first '.' into the mnemonic and
// its flag letters, and the mnemonic is offered to each instruction family in
// a fixed order. The operand tokens stay unread: they go to the family's
// `parse_asm`, whose operand readers are not part of this model.
module AsmDispatch {
  import opened Base
  import opened Words
  import LoadConst
  import Jump
  import StackMod

  /** A piece `split_whitespace` can produce: non-empty, no whitespace. */
  predicate Token(t: string) {
    t != [] && forall j :: 0 <= j < |t| ==> !IsWhitespace(t[j])
  }

  /** The end of the run of non-whitespace characters that starts at `i`. */
  function RunEnd(s: string, i: nat): (k: nat)
    requires i <= |s|
    ensures i <= k <= |s|
    ensures forall j :: i <= j < k ==> !IsWhitespace(s[j])
    ensures k == |s| || IsWhitespace(s[k])
    decreases |s| - i
  {
    if i == |s| || IsWhitespace(s[i]) then i else RunEnd(s, i + 1)
  }

  /** `str::split_whitespace`: the maximal runs of non-whitespace, in order. */
  function SplitWhitespace(s: string): (r: seq<string>)
    ensures forall i :: 0 <= i < |r| ==> Token(r[i])
    decreases |s|
  {
    if s == [] then []
    else if IsWhitespace(s[0]) then SplitWhitespace(s[1..])
    else
      var k := RunEnd(s, 0);
      [s[..k]] + SplitWhitespace(s[k..])
  }

  /** The tokens written out with one space between each two. */
  function JoinSpaced(ts: seq<string>): string {
    if ts == [] then []
    else if |ts| == 1 then ts[0]
    else ts[0] + " " + JoinSpaced(ts[1..])
  }

  lemma {:induction false} RunEndAt(s: string, i: nat, k: nat)
    requires i <= k <= |s|
    requires forall j :: i <= j < k ==> !IsWhitespace(s[j])
    requires k == |s| || IsWhitespace(s[k])
    ensures RunEnd(s, i) == k
    decreases k - i
  {
    if i < k {
      RunEndAt(s, i + 1, k);
    }
  }

  /** A token followed by whitespace (or by nothing) is the first piece. */
  lemma TokenFirst(t: string, rest: string)
    requires Token(t)
    requires rest == [] || IsWhitespace(rest[0])
    ensures SplitWhitespace(t + rest) == [t] + SplitWhitespace(rest)
  {
    var s := t + rest;
    RunEndAt(s, 0, |t|);
    assert s[..|t|] == t;
    assert s[|t|..] == rest;
  }

  /** Splitting tokens written with single spaces gives the tokens back. */
  lemma {:induction false} SplitJoin(ts: seq<string>)
    requires forall i :: 0 <= i < |ts| ==> Token(ts[i])
    ensures SplitWhitespace(JoinSpaced(ts)) == ts
  {
    if |ts| == 1 {
      TokenFirst(ts[0], []);
      assert ts[0] + [] == ts[0];
    } else if |ts| > 1 {
      var rest := JoinSpaced(ts[1..]);
      SplitJoin(ts[1..]);
      TokenFirst(ts[0], " " + rest);
      assert ts[0] + " " + rest == ts[0] + (" " + rest);
      assert (" " + rest)[1..] == rest;
    }
  }

  /** Text that starts with a non-whitespace character has a first token,
      so `pop_command` always finds a mnemonic in it. */
  lemma {:induction false} LeadingToken(s: string)
    requires s != [] && !IsWhitespace(s[0])
    ensures SplitWhitespace(s) != []
    ensures SplitWhitespace(s)[0] == s[..RunEnd(s, 0)]
  {
  }

  /** `split_once('.')`, or the whole token with no flags. */
  function SplitCommand(s: string): (r: (string, string))
    ensures '.' !in r.0
    ensures '.' in s ==> r.0 + "." + r.1 == s
    ensures '.' !in s ==> r == (s, "")
  {
    if s == [] then ("", "")
    else if s[0] == '.' then ("", s[1..])
    else
      var rest := SplitCommand(s[1..]);
      assert [s[0]] + s[1..] == s;
      ([s[0]] + rest.0, rest.1)
  }

  /** A name and flags written with a '.' between them split back apart;
      any '.' in the flags stays with the flags. */
  lemma {:induction false} SplitCommandJoin(name: string, flags: string)
    requires '.' !in name
    ensures SplitCommand(name + "." + flags) == (name, flags)
  {
    if name == [] {
      assert name + "." + flags == ['.'] + flags;
    } else {
      SplitCommandJoin(name[1..], flags);
      var s := name + "." + flags;
      assert s[0] == name[0] && name[0] in name;
      assert s[1..] == name[1..] + "." + flags;
      assert [name[0]] + name[1..] == name;
    }
  }

  /** What a mnemonic is dispatched to. `Unrecognised` is the fall-through
      that becomes `UnknownCommand`. */
  datatype Command =
    | NopCommand
    | AluCommand(aluOp: AluOperation, aluFlags: string)
    | MemCommand(memOp: MemOperation, memFlags: string)
    | BranchCommand(branchFlags: string)
    | LoadConstCommand(constOp: LoadConst.LoadConstOperation)
    | HaltCommand
    | LoadLabelCommand
    | JumpCommand(jumpOp: Jump.JumpOperation)
    | StackCommand(stackName: string, stackFlags: string)
    | Unrecognised(name: string)

  /** The tests in the order the source makes them, each with what it makes
      of the mnemonic. */
  function Candidates(name: string, flags: string, tables: StackMod.Tables): seq<Option<Command>> {
    [ (if name == "NOP" then Some(NopCommand) else None),
      (match tables.aluOp(name) case Some(op) => Some(AluCommand(op, flags)) case None => None),
      (match tables.memOp(name) case Some(op) => Some(MemCommand(op, flags)) case None => None),
      (if name == "BRANCH" then Some(BranchCommand(flags)) else None),
      (match LoadConst.ParseOperation(name) case Some(op) => Some(LoadConstCommand(op)) case None => None),
      (if name == "HALT" then Some(HaltCommand) else None),
      (if name == "LLABEL" then Some(LoadLabelCommand) else None),
      (match Jump.ParseOperation(name) case Some(op) => Some(JumpCommand(op)) case None => None),
      (if StartsWith(name, "$") then Some(StackCommand(name[1..], flags)) else None) ]
  }

  /** The chain of tests: the first that recognises the mnemonic, or
      `Unrecognised` with the mnemonic itself. */
  function Classify(name: string, flags: string, tables: StackMod.Tables): (r: Command)
    ensures var c := Candidates(name, flags, tables);
      (!r.Unrecognised? <==> exists k :: 0 <= k < |c| && c[k].Some?)
      && (!r.Unrecognised? ==> exists k :: 0 <= k < |c| && c[k] == Some(r) && forall j :: 0 <= j < k ==> c[j].None?)
      && (r.Unrecognised? ==> r.name == name)
  {
    var c := Candidates(name, flags, tables);
    if c[0].Some? then c[0].value
    else if c[1].Some? then c[1].value
    else if c[2].Some? then c[2].value
    else if c[3].Some? then c[3].value
    else if c[4].Some? then c[4].value
    else if c[5].Some? then c[5].value
    else if c[6].Some? then c[6].value
    else if c[7].Some? then c[7].value
    else if c[8].Some? then c[8].value
    else Unrecognised(name)
  }

  /** NOP is checked first and so can never be taken over by a table entry;
      a name the ALU table knows is ALU even if the MEM table knows it too. */
  lemma EarlierWins(name: string, flags: string, tables: StackMod.Tables)
    ensures name == "NOP" ==> Classify(name, flags, tables) == NopCommand
    ensures name != "NOP" && tables.aluOp(name).Some? ==> Classify(name, flags, tables) == AluCommand(tables.aluOp(name).value, flags)
  {
  }

  /** Apart from the two tables that are not modelled, the fixed mnemonics
      overlap nowhere: HALT is HALT, LCONST and ACONST are constant loads,
      the jump names are jumps, and a `$` name is a stack macro with the `$`
      removed. */
  lemma FixedNames(name: string, flags: string, tables: StackMod.Tables)
    requires tables.aluOp(name).None? && tables.memOp(name).None?
    ensures name == "HALT" ==> Classify(name, flags, tables) == HaltCommand
    ensures name == "LLABEL" ==> Classify(name, flags, tables) == LoadLabelCommand
    ensures name == "BRANCH" ==> Classify(name, flags, tables) == BranchCommand(flags)
    ensures LoadConst.ParseOperation(name).Some? ==> Classify(name, flags, tables) == LoadConstCommand(LoadConst.ParseOperation(name).value)
    ensures Jump.ParseOperation(name).Some? ==> Classify(name, flags, tables) == JumpCommand(Jump.ParseOperation(name).value)
    ensures StartsWith(name, "$") ==> Classify(name, flags, tables) == StackCommand(name[1..], flags)
  {
    if StartsWith(name, "$") {
      assert name[0] == '$';
    }
  }

  /** The statement's mnemonic, its flags and its operand tokens, once the
      text is uppercased and split; `None` when there is no token at all
      (`pop_command` reports `NoCommandSupplied` then). */
  datatype Split = Split(name: string, flags: string, operands: seq<string>)

  function SplitStatement(s: string): (r: Option<Split>)
    ensures r.None? <==> SplitWhitespace(Upper(s)) == []
    ensures r.Some? ==> var ts := SplitWhitespace(Upper(s));
      r.value.operands == ts[1..] && '.' !in r.value.name
      && ('.' in ts[0] ==> r.value.name + "." + r.value.flags == ts[0])
      && ('.' !in ts[0] ==> r.value.name == ts[0] && r.value.flags == "")
  {
    var ts := SplitWhitespace(Upper(s));
    if ts == [] then None
    else
      var (name, flags) := SplitCommand(ts[0]);
      Some(Split(name, flags, ts[1..]))
  }

  /** A statement written as mnemonic, flags and operands, each on its own
      token, splits back into exactly those parts (in upper case). */
  lemma SplitStatementJoin(name: string, flags: string, operands: seq<string>)
    requires Token(name + "." + flags) && '.' !in name
    requires forall i :: 0 <= i < |operands| ==> Token(operands[i])
    requires Upper(name) == name && Upper(flags) == flags
    requires forall i :: 0 <= i < |operands| ==> Upper(operands[i]) == operands[i]
    ensures SplitStatement(JoinSpaced([name + "." + flags] + operands)) == Some(Split(name, flags, operands))
  {
    var ts := [name + "." + flags] + operands;
    var s := JoinSpaced(ts);
    UpperJoin(ts);
    SplitJoin(ts);
    assert ts[1..] == operands;
    SplitCommandJoin(name, flags);
  }

  lemma {:induction false} UpperAppend(a: string, b: string)
    ensures Upper(a + b) == Upper(a) + Upper(b)
  {
    var l, r := Upper(a + b), Upper(a) + Upper(b);
    forall i | 0 <= i < |a + b|
      ensures l[i] == r[i]
    {
      if i < |a| {
        assert (a + b)[i] == a[i];
      } else {
        assert (a + b)[i] == b[i - |a|];
      }
    }
    assert l == r;
  }

  lemma {:induction false} UpperJoin(ts: seq<string>)
    requires forall i :: 0 <= i < |ts| ==> Upper(ts[i]) == ts[i]
    ensures Upper(JoinSpaced(ts)) == JoinSpaced(ts)
  {
    if |ts| > 1 {
      UpperJoin(ts[1..]);
      UpperAppend(ts[0] + " ", JoinSpaced(ts[1..]));
      UpperAppend(ts[0], " ");
    }
  }
}
