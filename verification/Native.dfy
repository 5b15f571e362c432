/**
 * The two-register code generator (src/compiler/native.rs): which streams it
 * takes, what it asks of its target, and how large the Thumb-2 code gets.
 */
module Native {
  import opened Wrappers
  import opened Machine
  import opened Exec
  import opened Target
  import opened Thumb

  const MAX_STREAM_WORDS := 128

  const ACC: Reg := 0
  const SCRATCH: Reg := 1

  /** What the generator asks of its target, one request per `emit_*` call. */
  datatype Op = Mov(toAcc: bool, imm: Word) | Alu(op: Word) | LoadAcc | StoreScratch

  predicate AddressContext(next: Word) {
    next == LOAD || next == WRITE
  }

  /** What one turn of the generator loop does with the words still ahead. */
  datatype Choice = Stop | GiveUp | Emit(op: Op, taken: nat, accLoaded: bool)

  /**
   * A literal goes to the scratch register when the word after it is a load or
   * a store, or when the accumulator is taken.  A store leaves the accumulator
   * marked as it was.
   */
  function Choose(words: seq<Word>, accLoaded: bool): (c: Choice)
    ensures c.Emit? ==> 1 <= c.taken <= |words| && (c.op.Mov? ==> c.taken == 2) && (c.op.Alu? ==> IsArith(c.op.op))
  {
    if words == [] || words[0] == 0 || words[0] == HALT then Stop
    else if words[0] == LIT then
      if |words| < 2 then GiveUp
      else
        var toAcc := !AddressContext(if |words| > 2 then words[2] else 0) && !accLoaded;
        Emit(Mov(toAcc, words[1]), 2, accLoaded || toAcc)
    else if IsArith(words[0]) then Emit(Alu(words[0]), 1, true)
    else if words[0] == LOAD then Emit(LoadAcc, 1, true)
    else if words[0] == WRITE then Emit(StoreScratch, 1, accLoaded)
    else GiveUp
  }

  /** Instruction selection over the words still ahead; `None` means the generator gives up. */
  function Select(words: seq<Word>, accLoaded: bool): Option<seq<Op>>
    decreases |words|
  {
    match Choose(words, accLoaded)
    case Stop => Some([])
    case GiveUp => None
    case Emit(op, taken, loaded) => Prepend(op, Select(words[taken..], loaded))
  }

  function Prepend(op: Op, rest: Option<seq<Op>>): Option<seq<Op>> {
    if rest.None? then None else Some([op] + rest.value)
  }

  function OpCode(op: Op): seq<bv16> {
    match op
    case Mov(toAcc, imm) => MovImmCode(if toAcc then ACC else SCRATCH, imm)
    case Alu(w) =>
      if w == ADD then [EncodeAdds(ACC, ACC, SCRATCH)]
      else if w == SUB then [EncodeSubs(ACC, ACC, SCRATCH)]
      else if w == MUL then MulCode(ACC, ACC, SCRATCH)
      else DivCode(ACC, ACC, SCRATCH)
    case LoadAcc => [EncodeLdrImm(ACC, SCRATCH, 0).hw]
    case StoreScratch => [EncodeStrImm(SCRATCH, ACC, 0).hw]
  }

  function ThumbCode(ops: seq<Op>): seq<bv16> {
    if ops == [] then [] else ThumbCode(ops[..|ops| - 1]) + OpCode(ops[|ops| - 1])
  }

  // ---- the acceptance scan ----

  function Compilable(words: seq<Word>, litSeen: bool): bool
    decreases |words|
  {
    if words == [] then litSeen
    else if words[0] == 0 || words[0] == HALT then true
    else if words[0] == LIT then Compilable(if |words| < 2 then [] else words[2..], true)
    else if IsPrimitive(words[0]) then Compilable(words[1..], true)
    else false
  }

  /** The scan reaches a `LIT` that has no argument inside the stream. */
  predicate EndsOnBareLit(words: seq<Word>)
    decreases |words|
  {
    if words == [] || words[0] == 0 || words[0] == HALT then false
    else if words[0] == LIT then |words| < 2 || EndsOnBareLit(words[2..])
    else EndsOnBareLit(words[1..])
  }

  method IsCompilable(words: seq<Word>) returns (ok: bool)
    ensures ok == Compilable(words, false)
  {
    var ip := 0;
    var litSeen := false;
    while ip < |words|
      invariant ip <= |words| + 1
      invariant Compilable(words, false) == Compilable(if ip <= |words| then words[ip..] else [], litSeen)
      decreases |words| + 1 - ip
    {
      ghost var rest := words[ip..];
      var w := words[ip];
      if w == 0 || w == HALT {
        return true;
      }
      if w == LIT {
        assert |rest| >= 2 ==> rest[2..] == words[ip + 2..];
        ip := ip + 2;
        litSeen := true;
      } else if IsPrimitive(w) {
        assert rest[1..] == words[ip + 1..];
        litSeen := true;
        ip := ip + 1;
      } else {
        return false;
      }
    }
    return litSeen;
  }

  // ---- size and totality ----

  /** An accepted stream defeats the generator exactly when it ends on a bare `LIT`. */
  lemma {:induction false} SelectionFailsOnlyOnBareLit(words: seq<Word>, litSeen: bool, accLoaded: bool)
    requires Compilable(words, litSeen)
    ensures Select(words, accLoaded).None? <==> EndsOnBareLit(words)
    decreases |words|
  {
    match Choose(words, accLoaded)
    case Stop =>
    case GiveUp =>
    case Emit(op, taken, loaded) =>
      SelectionFailsOnlyOnBareLit(words[taken..], true, loaded);
  }

  lemma {:induction false} ThumbCodeSize(ops: seq<Op>)
    ensures |ThumbCode(ops)| <= 4 * Movs(ops) + 2 * (|ops| - Movs(ops))
  {
    if ops != [] {
      ThumbCodeSize(ops[..|ops| - 1]);
    }
  }

  function Movs(ops: seq<Op>): (n: nat)
    ensures n <= |ops|
  {
    if ops == [] then 0 else Movs(ops[..|ops| - 1]) + (if ops[|ops| - 1].Mov? then 1 else 0)
  }

  lemma {:induction false} MovsPrepend(op: Op, ops: seq<Op>)
    ensures Movs([op] + ops) == (if op.Mov? then 1 else 0) + Movs(ops)
  {
    var all := [op] + ops;
    if ops == [] {
      assert all[..|all| - 1] == [];
    } else {
      assert all[..|all| - 1] == [op] + ops[..|ops| - 1];
      MovsPrepend(op, ops[..|ops| - 1]);
    }
  }

  lemma {:induction false} SelectionSize(words: seq<Word>, accLoaded: bool)
    requires Select(words, accLoaded).Some?
    ensures var ops := Select(words, accLoaded).value; |ops| + Movs(ops) <= |words|
    decreases |words|
  {
    match Choose(words, accLoaded)
    case Stop =>
    case Emit(op, taken, loaded) =>
      SelectionSize(words[taken..], loaded);
      MovsPrepend(op, Select(words[taken..], loaded).value);
  }

  /** Two halfwords per stream word and one for the return always fit the buffer. */
  lemma {:induction false} CodeFits(words: seq<Word>, accLoaded: bool)
    requires |words| <= MAX_STREAM_WORDS && Select(words, accLoaded).Some?
    ensures |ThumbCode(Select(words, accLoaded).value)| + 1 <= 2 * |words| + 1 <= 257 <= EXEC_BUFFER_SIZE / 2
  {
    SelectionSize(words, accLoaded);
    ThumbCodeSize(Select(words, accLoaded).value);
  }

  // ---- the choice, step by step ----

  /** The body of the generator loop up to the emission. */
  method ChooseOp(words: seq<Word>, start: nat, wasLoaded: bool) returns (c: Choice)
    requires start < |words|
    ensures c == Choose(words[start..], wasLoaded)
  {
    var ip, accLoaded := start, wasLoaded;
    var word := words[ip];
    ip := ip + 1;
    if word == 0 || word == HALT {
      return Stop;
    }
    if word == LIT {
      if ip >= |words| {
        return GiveUp;
      }
      var val := words[ip];
      ip := ip + 1;
      var next := if ip < |words| then words[ip] else 0;
      if next == LOAD || next == WRITE {
        return Emit(Mov(false, val), 2, accLoaded);
      } else if !accLoaded {
        accLoaded := true;
        return Emit(Mov(true, val), 2, accLoaded);
      } else {
        return Emit(Mov(false, val), 2, accLoaded);
      }
    } else if IsArith(word) {
      return Emit(Alu(word), 1, true);
    } else if word == LOAD {
      return Emit(LoadAcc, 1, true);
    } else if word == WRITE {
      return Emit(StoreScratch, 1, accLoaded);
    }
    return GiveUp;
  }
}
