/**
 * The generator loop (src/compiler/native.rs) over the emitter of the target
 * the kernel is built for.
 */
module Generator {
  import opened Wrappers
  import opened Machine
  import opened Exec
  import opened Target
  import opened Native
  import RiscV

  /** What one request becomes on the target, in units of its own: halfwords or words. */
  function OpSize(arch: Arch, op: Op): nat {
    match arch
    case Arm => |OpCode(op)|
    case RiscV32 => |RiscV.OpCode(op)|
  }

  lemma OpSizeBound(arch: Arch, op: Op)
    ensures OpSize(arch, op) <= if op.Mov? then 4 else 2
    ensures arch == RiscV32 ==> OpSize(arch, op) <= if op.Mov? then 2 else 1
  {
    hide Thumb.EncodeMovw, Thumb.EncodeMovt, Thumb.EncodeMovs, RiscV.EncodeAddi, RiscV.EncodeLui, RiscV.Lo12;
  }

  /** One emitter of the pair is there, by the architecture; the other stays untouched. */
  class Emitter {
    const arch: Arch
    const thumb: Thumb.Thumb2Emitter
    const riscv: RiscV.Riscv32Emitter

    ghost predicate Valid()
      reads this, thumb, riscv
    {
      thumb.Valid() && riscv.Valid()
    }

    /** The buffer starts with the code of the requests, and with a return if there is one. */
    ghost predicate Holds(ops: seq<Op>, closed: bool)
      reads this, thumb, thumb.buf, riscv, riscv.buf
      requires Valid()
    {
      match arch
      case Arm => thumb.Code() == ThumbCode(ops) + if closed then [Thumb.BX_LR] else []
      case RiscV32 => riscv.Code() == RiscV.ProgramCode(ops) + if closed then [RiscV.RV32_RET] else []
    }

    ghost function Size(): nat
      reads this, thumb, riscv
    {
      match arch
      case Arm => thumb.lenWords
      case RiscV32 => riscv.lenWords
    }

    ghost function Capacity(): nat {
      match arch
      case Arm => thumb.buf.Length
      case RiscV32 => riscv.buf.Length
    }

    /** What lies in the buffer behind the code. */
    ghost function Behind(): Leftovers
      reads this, thumb, thumb.buf, riscv, riscv.buf
      requires Valid()
    {
      Leftovers(thumb.buf[thumb.lenWords..], riscv.buf[riscv.lenWords..])
    }

    constructor (arch: Arch)
      ensures Valid() && this.arch == arch
      ensures fresh(thumb) && fresh(thumb.buf) && fresh(riscv) && fresh(riscv.buf)
    {
      this.arch := arch;
      thumb := new Thumb.Thumb2Emitter();
      riscv := new RiscV.Riscv32Emitter();
    }

    method IntoExecBuffer()
      requires Valid()
      modifies thumb, riscv
      ensures Valid() && Holds([], false) && Size() == 0
    {
      thumb.lenWords := 0;
      riscv.lenWords := 0;
    }

    method EmitOp(op: Op, ghost done: seq<Op>) returns (r: EmitResult)
      requires Valid() && Holds(done, false)
      requires op.Alu? ==> IsArith(op.op)
      modifies thumb, thumb.buf, riscv, riscv.buf
      ensures Valid()
      ensures r.Emitted? ==> Holds(done + [op], false) && Size() == old(Size()) + OpSize(arch, op)
      ensures old(Size()) + OpSize(arch, op) <= Capacity() ==> r.Emitted?
    {
      assert (done + [op])[..|done|] == done;
      match arch
      case Arm => r := EmitThumb(op);
      case RiscV32 => r := riscv.EmitOp(op);
    }

    method EmitThumb(op: Op) returns (r: EmitResult)
      requires thumb.Valid()
      requires op.Alu? ==> IsArith(op.op)
      modifies thumb, thumb.buf
      ensures thumb.Valid() && thumb.Appended(old(thumb.Code()), OpCode(op), r)
    {
      match op
      case Mov(toAcc, imm) => r := thumb.EmitMovImm(if toAcc then ACC else SCRATCH, imm);
      case Alu(w) =>
        if w == ADD {
          r := thumb.EmitAdd(ACC, ACC, SCRATCH);
        } else if w == SUB {
          r := thumb.EmitSub(ACC, ACC, SCRATCH);
        } else if w == MUL {
          r := thumb.EmitMul(ACC, ACC, SCRATCH);
        } else {
          r := thumb.EmitDiv(ACC, ACC, SCRATCH);
        }
      case LoadAcc => r := thumb.EmitLoadU32(ACC, SCRATCH);
      case StoreScratch => r := thumb.EmitStoreU32(SCRATCH, ACC);
    }

    method EmitRet(ghost done: seq<Op>) returns (r: EmitResult)
      requires Valid() && Holds(done, false)
      modifies thumb, thumb.buf, riscv, riscv.buf
      ensures Valid()
      ensures r.Emitted? ==> Holds(done, true)
      ensures old(Size()) < Capacity() ==> r.Emitted?
    {
      match arch
      case Arm => r := thumb.EmitRet();
      case RiscV32 => r := riscv.EmitRet();
    }
  }

  /** The generator loop: false when it gives up. */
  method EmitAll(em: Emitter, words: seq<Word>) returns (ok: bool)
    requires em.Valid() && em.Holds([], false) && em.Size() == 0
    requires |words| <= MAX_STREAM_WORDS
    modifies em.thumb, em.thumb.buf, em.riscv, em.riscv.buf
    ensures em.Valid()
    ensures ok == Select(words, false).Some?
    ensures ok ==> em.Holds(Select(words, false).value, false)
    ensures em.Size() <= 2 * |words| && (em.arch == RiscV32 ==> em.Size() <= |words|)
  {
    hide OpSize, OpCode, RiscV.OpCode, ThumbCode, RiscV.ProgramCode, Select, Choose, IsArith;
    ghost var all := Select(words, false);
    var ip := 0;
    var accLoaded := false;
    ghost var done: seq<Op> := [];
    assert words[0..] == words;
    RemainderEnds(all, []);
    while ip < |words|
      invariant em.Valid() && ip <= |words|
      invariant em.Holds(done, false) && em.Size() <= 2 * ip && (em.arch == RiscV32 ==> em.Size() <= ip)
      invariant Remainder(all, done, Select(words[ip..], accLoaded))
      decreases |words| - ip
    {
      var c := ChooseOp(words, ip, accLoaded);
      SelectTurn(words, ip, accLoaded);
      RemainderEnds(all, done);
      if c.Stop? {
        return true;
      }
      if c.GiveUp? {
        return false;
      }
      ip, accLoaded := ip + c.taken, c.accLoaded;
      SelectPrefix(all, done, c.op, Select(words[ip..], accLoaded));
      OpSizeBound(em.arch, c.op);
      var r := em.EmitOp(c.op, done);
      if r.Failed? {
        return false;
      }
      done := done + [c.op];
    }
    assert words[ip..] == [];
    SelectNothing(accLoaded);
    RemainderEnds(all, done);
    return true;
  }

  /** One turn of the selection, from word `ip` on. */
  lemma {:induction false} SelectTurn(words: seq<Word>, ip: nat, accLoaded: bool)
    requires ip < |words|
    ensures var c := Choose(words[ip..], accLoaded);
            Select(words[ip..], accLoaded)
            == match c
               case Stop => Some([])
               case GiveUp => None
               case Emit(op, taken, loaded) => Prepend(op, Select(words[ip + taken..], loaded))
  {
    hide Choose;
    var c := Choose(words[ip..], accLoaded);
    assert c.Emit? ==> words[ip..][c.taken..] == words[ip + c.taken..];
  }

  lemma {:induction false} SelectNothing(accLoaded: bool)
    ensures Select([], accLoaded) == Some([])
  {
  }

  /** `all` is `done` followed by what is still to be selected. */
  ghost predicate Remainder(all: Option<seq<Op>>, done: seq<Op>, rest: Option<seq<Op>>) {
    all == if rest.None? then None else Some(done + rest.value)
  }

  lemma RemainderEnds(all: Option<seq<Op>>, done: seq<Op>)
    ensures Remainder(all, [], all)
    ensures Remainder(all, done, Some([])) ==> all == Some(done)
  {
    assert done + [] == done;
    assert all.Some? ==> [] + all.value == all.value;
  }

  lemma SelectPrefix(all: Option<seq<Op>>, done: seq<Op>, op: Op, rest: Option<seq<Op>>)
    requires Remainder(all, done, Prepend(op, rest))
    ensures Remainder(all, done + [op], rest)
  {
    if rest.Some? {
      assert done + ([op] + rest.value) == (done + [op]) + rest.value;
    }
  }

  /**
   * Leaves the code of the whole stream, closed by a return, in the buffer;
   * false is the `Err(())` of the source.
   */
  method Compile(em: Emitter, words: seq<Word>) returns (ok: bool)
    requires em.Valid() && |words| <= MAX_STREAM_WORDS
    modifies em.thumb, em.thumb.buf, em.riscv, em.riscv.buf
    ensures em.Valid()
    ensures ok == (Compilable(words, false) && !EndsOnBareLit(words))
    ensures ok ==> Select(words, false).Some? && em.Holds(Select(words, false).value, true)
  {
    ok := IsCompilable(words);
    if !ok {
      return false;
    }
    SelectionFailsOnlyOnBareLit(words, false, false);
    em.IntoExecBuffer();
    ok := EmitAll(em, words);
    if !ok {
      return false;
    }
    var r := em.EmitRet(Select(words, false).value);
    ok := r.Emitted?;
  }
}
