// The interface between the stack virtual instructions and the compilers
// that lower them (easycpu_lib/src/stack/stackop.rs): an operation's
// signature, the registers it is executed with, and the compile context
// that receives the machine words.
module StackSig {
  import opened Base
  import opened Cpu
  import opened Words

  /** `StackOpSignature`: how many values an operation takes from the stack
      and pushes onto it, how many scratch registers it needs, and its flags
      (`FLAG_SAVE_STACK`, `FLAG_RESET_STACK`, `FLAG_IMPURE`). The revision of
      `stackop.rs` that is modelled knows only `impure`; `instr/local.rs` and
      `opt/comp.rs` use the flags and `temps`. */
  datatype Signature = Signature(takes: nat, pushes: nat, temps: nat, save: bool, reset: bool, impure: bool)

  /** `flags == 0`. */
  predicate Unflagged(sig: Signature) {
    !sig.save && !sig.reset && !sig.impure
  }

  /** A signature with no temps and no flags. */
  function Plain(takes: nat, pushes: nat): (sig: Signature)
    ensures Unflagged(sig) && sig.temps == 0 && sig.takes == takes && sig.pushes == pushes
  {
    Signature(takes, pushes, 0, false, false, false)
  }

  /** The registers the stack compilers hand out, in order of preference. */
  const Candidates: seq<Register> := [R2, R3, R4, R5]

  /** `StackExecCtx`: the registers holding an operation's inputs (deepest
      first), the registers its outputs are to be left in, and its scratch
      registers. `execute` may overwrite entries of `outs`. */
  class StackExecCtx {
    var inps: seq<Register>
    var outs: seq<Register>
    var temps: seq<Register>

    constructor (i: seq<Register>, o: seq<Register>, t: seq<Register>)
      ensures inps == i && outs == o && temps == t
    {
      inps, outs, temps := i, o, t;
    }
  }

  /** The compile context the operations emit into (`CompContext`, whose
      implementations are not part of this model): the machine words passed
      to `instruct`, and the stack operations passed to `stack`. */
  class CompContext<O> {
    var words: seq<Word>
    var stacked: seq<O>

    constructor ()
      ensures words == [] && stacked == []
    {
      words, stacked := [], [];
    }

    /** `instruct`: one more word. */
    method Instruct(w: Word)
      modifies this
      ensures words == old(words) + [w] && stacked == old(stacked)
    {
      words := words + [w];
    }

    /** `stack`: one more stack operation, no word. */
    method Stack(o: O)
      modifies this
      ensures stacked == old(stacked) + [o] && words == old(words)
    {
      stacked := stacked + [o];
    }

    /** `.into_iter().for_each(|i| comp.instruct(i))`. */
    method InstructAll(ws: seq<Word>)
      modifies this
      ensures words == old(words) + ws && stacked == old(stacked)
    {
      for k := 0 to |ws|
        invariant words == old(words) + ws[..k] && stacked == old(stacked)
      {
        Instruct(ws[k]);
        assert ws[..k + 1] == ws[..k] + [ws[k]];
      }
      assert ws[..|ws|] == ws;
    }
  }
}
