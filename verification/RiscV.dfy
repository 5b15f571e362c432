/**
 * The RV32I back end (src/compiler/emitter.rs) and the instructions it emits,
 * after chapter 2 and the M extension of the RISC-V Unprivileged ISA.
 */
module RiscV {
  import opened Machine
  import Exec
  import Native
  import opened Target

  const A0: Reg := 10
  const A1: Reg := 11

  // ---- encoders ----

  function EncodeLui(rd: Reg, imm20: Word): Word {
    0x37 | ((rd as Word & 0x1F) << 7) | ((imm20 & 0xFFFFF) << 20)
  }

  function EncodeAddi(rd: Reg, rs1: Reg, imm12Field: Word): Word {
    0x13 | ((rd as Word & 0x1F) << 7) | ((rs1 as Word & 0x1F) << 15) | ((imm12Field & 0xFFF) << 20)
  }

  /** Store word at offset 0, the only offset in use. */
  function EncodeSw(rs2: Reg, rs1: Reg): Word {
    0x23 | (2 << 12) | ((rs2 as Word & 0x1F) << 20) | ((rs1 as Word & 0x1F) << 15)
  }

  /** Load word at offset 0. */
  function EncodeLw(rd: Reg, rs1: Reg): Word {
    0x03 | (2 << 12) | ((rd as Word & 0x1F) << 7) | ((rs1 as Word & 0x1F) << 15)
  }

  function EncodeRtype(rd: Reg, rs1: Reg, rs2: Reg, funct7: Word, funct3: Word): Word {
    0x33 | (funct7 << 25) | ((rs2 as Word & 0x1F) << 20) | ((rs1 as Word & 0x1F) << 15)
    | (funct3 << 12) | ((rd as Word & 0x1F) << 7)
  }

  const RV32_RET: Word := 0x0000_8067

  // ---- the processor ----

  datatype Instr =
    | Lui(rd: Reg, imm: Word)
    | Addi(rd: Reg, rs1: Reg, imm: Word)
    | Sw(rs2: Reg, rs1: Reg, offset: Word)
    | Lw(rd: Reg, rs1: Reg, offset: Word)
    | Rtype(rd: Reg, rs1: Reg, rs2: Reg, funct7: Word, funct3: Word)
    | Jalr(rd: Reg, rs1: Reg, imm: Word)
    | Illegal

  function Field(w: Word, shift: Word): Reg
    requires shift < 32
  {
    ((w >> shift) & 0x1F) as Reg
  }

  /** Sign extension of a 12-bit field. */
  function SignExtend12(f: Word): Word {
    if f & 0x800 == 0 then f & 0xFFF else f | 0xFFFF_F000
  }

  function Decode(w: Word): Instr {
    var opcode, funct3 := w & 0x7F, (w >> 12) & 7;
    if opcode == 0x37 then Lui(Field(w, 7), w & 0xFFFF_F000)
    else if opcode == 0x13 && funct3 == 0 then Addi(Field(w, 7), Field(w, 15), SignExtend12(w >> 20))
    else if opcode == 0x23 && funct3 == 2 then
      Sw(Field(w, 20), Field(w, 15), SignExtend12(((w >> 25) << 5) | ((w >> 7) & 0x1F)))
    else if opcode == 0x03 && funct3 == 2 then Lw(Field(w, 7), Field(w, 15), SignExtend12(w >> 20))
    else if opcode == 0x33 then Rtype(Field(w, 7), Field(w, 15), Field(w, 20), w >> 25, funct3)
    else if opcode == 0x67 && funct3 == 0 then Jalr(Field(w, 7), Field(w, 15), SignExtend12(w >> 20))
    else Illegal
  }

  /** Register x0 ignores writes. */
  function SetX(regs: Regs, rd: Reg, v: Word): Regs {
    if rd == 0 then regs else Set(regs, rd, v)
  }

  function GetX(regs: Regs, r: Reg): Word {
    if r == 0 then 0 else Get(regs, r)
  }

  predicate Sequential(i: Instr) {
    !i.Jalr? && !i.Illegal? &&
    (i.Rtype? ==> i.funct3 == 0 && (i.funct7 == 0 || i.funct7 == 0x20 || i.funct7 == 1))
  }

  function Alu(funct7: Word, a: Word, b: Word): Word {
    if funct7 == 0x20 then SubW(a, b) else if funct7 == 1 then MulW(a, b) else AddW(a, b)
  }

  function Effect(bus: Bus, i: Instr, c: Cpu): Cpu
    requires Sequential(i)
  {
    match i
    case Lui(rd, imm) => c.(regs := SetX(c.regs, rd, imm))
    case Addi(rd, rs1, imm) => c.(regs := SetX(c.regs, rd, AddW(GetX(c.regs, rs1), imm)))
    case Sw(rs2, rs1, offset) => c.(trace := AfterWrite(c.trace, AddW(GetX(c.regs, rs1), offset), GetX(c.regs, rs2)))
    case Lw(rd, rs1, offset) =>
      var addr := AddW(GetX(c.regs, rs1), offset);
      Cpu(SetX(c.regs, rd, bus(c.trace, addr)), AfterRead(bus, c.trace, addr))
    case Rtype(rd, rs1, rs2, funct7, funct3) =>
      c.(regs := SetX(c.regs, rd, Alu(funct7, GetX(c.regs, rs1), GetX(c.regs, rs2))))
  }

  /** Straight-line execution of the words still ahead of the program counter. */
  function Execute(bus: Bus, code: seq<Word>, c: Cpu): CodeRun
    decreases |code|
  {
    if code == [] then Fault
    else
      var i := Decode(code[0]);
      if i == Jalr(0, 1, 0) then Returned(c)
      else if Sequential(i) then Execute(bus, code[1..], Effect(bus, i, c))
      else Fault
  }

  // ---- immediates ----

  predicate FitsSigned12(imm: Word) {
    imm <= 0x7FF || imm >= 0xFFFF_F800
  }

  function Hi20(imm: Word): Word {
    (imm + 0x800) >> 12
  }

  /** Where LUI is meant to put its field. */
  function Upper(hi20: Word): Word {
    hi20 << 12
  }

  function Lo12(imm: Word): Word {
    SubW(imm, Upper(Hi20(imm)))
  }

  function Field12(w: Word): Word {
    w & 0xFFF
  }

  /**
   * The two halves recombine to the immediate, and the low half is what a
   * 12-bit signed field can carry.
   */
  lemma HiLoSplit(imm: Word)
    ensures AddW(Upper(Hi20(imm)), SignExtend12(Field12(Lo12(imm)))) == imm
    ensures SignExtend12(Field12(Lo12(imm))) == Lo12(imm) && FitsSigned12(Lo12(imm))
  {
    hide *;
    LowIsSigned(imm);
    Rejoins(imm);
  }

  lemma Rejoins(imm: Word)
    ensures AddW(Upper(Hi20(imm)), Lo12(imm)) == imm
  {
    hide AddW, SubW, Upper, Hi20;
    Rejoin(imm, Upper(Hi20(imm)));
  }

  lemma LowIsSigned(imm: Word)
    ensures SignExtend12(Field12(Lo12(imm))) == Lo12(imm) && FitsSigned12(Lo12(imm))
  {
    hide *;
    LowPart(imm);
    LowFits(imm + 0x800);
  }

  lemma LowPart(imm: Word)
    ensures Lo12(imm) == ((imm + 0x800) & 0xFFF) - 0x800
  {
    DropLow(imm + 0x800);
    Regroup(imm, (imm + 0x800) & 0xFFF);
  }

  lemma DropLow(t: Word)
    ensures (t >> 12) << 12 == t - (t & 0xFFF)
  {
  }

  lemma Regroup(imm: Word, low: Word)
    ensures imm - ((imm + 0x800) - low) == low - 0x800
  {
  }

  lemma Rejoin(imm: Word, high: Word)
    ensures AddW(high, SubW(imm, high)) == imm
  {
    hide AddW;
    SubThenAdd(imm, high);
  }

  lemma SubThenAdd(imm: Word, high: Word)
    ensures AddW(high, imm - high) == imm
  {
  }

  lemma LowFits(t: Word)
    ensures var low := (t & 0xFFF) - 0x800; SignExtend12(Field12(low)) == low && FitsSigned12(low)
  {
  }

  function MovImmCode(reg: Reg, imm: Word): seq<Word> {
    if FitsSigned12(imm) then [EncodeAddi(reg, 0, imm)]
    else [EncodeLui(reg, Hi20(imm))] + if Lo12(imm) != 0 then [EncodeAddi(reg, reg, Lo12(imm))] else []
  }

  /** Some instructions as an assembler writes them. */
  lemma KnownEncodings()
    ensures EncodeAddi(10, 0, 5) == 0x0050_0513            // addi a0, zero, 5
    ensures EncodeAddi(11, 11, 0xFFFF_FFFF) == 0xFFF5_8593 // addi a1, a1, -1
    ensures EncodeLw(10, 11) == 0x0005_A503                // lw a0, 0(a1)
    ensures EncodeSw(11, 10) == 0x00B5_2023                // sw a1, 0(a0)
    ensures EncodeRtype(10, 10, 11, 0, 0) == 0x00B5_0533   // add a0, a0, a1
    ensures EncodeRtype(10, 10, 11, 0x20, 0) == 0x40B5_0533 // sub a0, a0, a1
    ensures EncodeRtype(10, 10, 11, 1, 0) == 0x02B5_0533   // mul a0, a0, a1
    ensures RV32_RET == 0x0000_8067                        // ret
    ensures EncodeLui(10, 0x1_2345) == 0x3450_0537 != 0x1234_5537 // for lui a0, 0x12345
  {
  }

  lemma AddiDecodes(rd: Reg, rs1: Reg, imm: Word)
    requires rd < 32 && rs1 < 32 && FitsSigned12(imm)
    ensures Decode(EncodeAddi(rd, rs1, imm)) == Addi(rd, rs1, imm)
  {
  }

  /** The emitted LUI carries its field eight bits too high: only its low twelve bits survive. */
  lemma EmittedLui(rd: Reg, imm20: Word)
    requires rd < 32
    ensures Decode(EncodeLui(rd, imm20)) == Lui(rd, Misplaced(imm20))
  {
  }

  /** What the emitted code really leaves in the register. */
  function Loaded(imm: Word): Word {
    if FitsSigned12(imm) then imm else AddW(Misplaced(Hi20(imm)), Lo12(imm))
  }

  function Misplaced(hi20: Word): Word {
    (hi20 & 0xFFF) << 20
  }

  /** The code loads the immediate exactly when the immediate fits the one-instruction form. */
  lemma LoadedIff(imm: Word)
    ensures Loaded(imm) == imm <==> FitsSigned12(imm)
  {
    if !FitsSigned12(imm) {
      hide FitsSigned12, Hi20, Upper, Misplaced;
      WideHasHigh(imm);
      MisplacedDiffers(Hi20(imm));
      Rejoin(imm, Upper(Hi20(imm)));
      SumsDiffer(Misplaced(Hi20(imm)), Upper(Hi20(imm)), Lo12(imm));
    }
  }

  lemma WideHasHigh(imm: Word)
    requires !FitsSigned12(imm)
    ensures 0 < Hi20(imm) <= 0xFFFFF
  {
  }

  lemma MisplacedDiffers(h: Word)
    requires 0 < h <= 0xFFFFF
    ensures Misplaced(h) != Upper(h)
  {
  }

  lemma SumsDiffer(a: Word, b: Word, c: Word)
    requires a != b
    ensures AddW(a, c) != AddW(b, c)
  {
    hide AddW, SubW;
    SubUndoes(a, c);
    SubUndoes(b, c);
  }

  lemma SubUndoes(a: Word, c: Word)
    ensures SubW(AddW(a, c), c) == a
  {
    hide SubW;
    AddThenSub(a, c);
  }

  lemma AddThenSub(a: Word, c: Word)
    ensures SubW(a + c, c) == a
  {
  }

  lemma {:induction false} StepOver(bus: Bus, w: Word, i: Instr, rest: seq<Word>, c: Cpu)
    requires Decode(w) == i && Sequential(i)
    ensures Execute(bus, [w] + rest, c) == Execute(bus, rest, Effect(bus, i, c))
  {
    assert ([w] + rest)[1..] == rest;
  }

  /** The code of an immediate falls through with `Loaded(imm)` in the register and nothing else changed. */
  lemma {:induction false} MovImmRuns(bus: Bus, reg: Reg, imm: Word, rest: seq<Word>, c: Cpu)
    requires 0 < reg < 32
    ensures Execute(bus, MovImmCode(reg, imm) + rest, c)
         == Execute(bus, rest, c.(regs := Set(c.regs, reg, Loaded(imm))))
  {
    hide Execute, Decode, FitsSigned12, EncodeAddi, EncodeLui, Hi20, Lo12, Misplaced;
    if FitsSigned12(imm) {
      AddiDecodes(reg, 0, imm);
      ZeroLeft(imm);
      StepOver(bus, EncodeAddi(reg, 0, imm), Addi(reg, 0, imm), rest, c);
    } else {
      var high := Misplaced(Hi20(imm));
      var add := if Lo12(imm) != 0 then [EncodeAddi(reg, reg, Lo12(imm))] else [];
      var mid := c.(regs := Set(c.regs, reg, high));
      EmittedLui(reg, Hi20(imm));
      assert MovImmCode(reg, imm) + rest == [EncodeLui(reg, Hi20(imm))] + (add + rest);
      StepOver(bus, EncodeLui(reg, Hi20(imm)), Lui(reg, high), add + rest, c);
      if Lo12(imm) != 0 {
        HiLoSplit(imm);
        AddiDecodes(reg, reg, Lo12(imm));
        StepOver(bus, add[0], Addi(reg, reg, Lo12(imm)), rest, mid);
        assert Get(mid.regs, reg) == high;
        assert Set(mid.regs, reg, Loaded(imm)) == Set(c.regs, reg, Loaded(imm));
      } else {
        ZeroRight(high);
        assert add + rest == rest;
      }
    }
  }

  lemma ZeroLeft(a: Word)
    ensures AddW(0, a) == a
  {
  }

  lemma ZeroRight(a: Word)
    ensures AddW(a, 0) == a
  {
  }

  /** On RISC-V the generator's immediates are right for the 4096 values of a signed 12-bit field, and for no other. */
  lemma {:induction false} MovImmIsExactIff(bus: Bus, reg: Reg, imm: Word, c: Cpu)
    requires 0 < reg < 32
    ensures var r := Execute(bus, MovImmCode(reg, imm) + [RV32_RET], c);
            r.Returned? && r.cpu.trace == c.trace && (Get(r.cpu.regs, reg) == imm <==> FitsSigned12(imm))
  {
    MovImmRuns(bus, reg, imm, [RV32_RET], c);
    LoadedIff(imm);
    assert Decode(RV32_RET) == Jalr(0, 1, 0);
  }

  // ---- the size of a whole program ----

  function OpCode(op: Native.Op): seq<Word> {
    match op
    case Mov(toAcc, imm) => MovImmCode(if toAcc then A0 else A1, imm)
    case Alu(w) =>
      [EncodeRtype(A0, A0, A1,
                   if w == Exec.ADD then 0 else if w == Exec.SUB then 0x20 else 1,
                   if w == Exec.DIV then 4 else 0)]
    case LoadAcc => [EncodeLw(A0, A1)]
    case StoreScratch => [EncodeSw(A1, A0)]
  }

  function ProgramCode(ops: seq<Native.Op>): seq<Word> {
    if ops == [] then [] else ProgramCode(ops[..|ops| - 1]) + OpCode(ops[|ops| - 1])
  }

  lemma {:induction false} ProgramCodeSize(ops: seq<Native.Op>)
    ensures |ProgramCode(ops)| <= |ops| + Native.Movs(ops)
  {
    hide EncodeRtype, EncodeLw, EncodeSw, EncodeAddi, EncodeLui, FitsSigned12, Lo12;
    if ops != [] {
      ProgramCodeSize(ops[..|ops| - 1]);
    }
  }

  /** One word per stream word and one for the return always fit the buffer. */
  lemma {:induction false} CodeFits(words: seq<Word>, accLoaded: bool)
    requires |words| <= Native.MAX_STREAM_WORDS && Native.Select(words, accLoaded).Some?
    ensures |ProgramCode(Native.Select(words, accLoaded).value)| + 1 <= |words| + 1 <= 129 <= EXEC_BUFFER_SIZE / 4
  {
    Native.SelectionSize(words, accLoaded);
    ProgramCodeSize(Native.Select(words, accLoaded).value);
  }

  // ---- the emitter ----

  const EXEC_BUFFER_SIZE := 1024

  /** Writes words into the executable buffer, never past its end. */
  class Riscv32Emitter {
    const buf: array<Word>
    var lenWords: nat

    ghost predicate Valid()
      reads this
    {
      buf.Length == EXEC_BUFFER_SIZE / 4 && lenWords <= buf.Length
    }

    ghost function Code(): seq<Word>
      reads this, buf
      requires Valid()
    {
      buf[..lenWords]
    }

    ghost predicate Appended(before: seq<Word>, code: seq<Word>, r: EmitResult)
      reads this, buf
      requires Valid()
    {
      if |before| + |code| <= buf.Length then r == Emitted && Code() == before + code
      else r == Failed(Overflow) && before <= Code()
    }

    constructor ()
      ensures Valid() && fresh(buf) && Code() == []
    {
      buf := new Word[EXEC_BUFFER_SIZE / 4];
      lenWords := 0;
    }

    method Push32(word: Word) returns (r: EmitResult)
      requires Valid()
      modifies this, buf
      ensures Valid() && Appended(old(Code()), [word], r)
    {
      if lenWords >= buf.Length {
        return Failed(Overflow);
      }
      buf[lenWords] := word;
      lenWords := lenWords + 1;
      assert Code() == old(Code()) + [word];
      return Emitted;
    }

    method EmitMovImm(reg: Reg, imm: Word) returns (r: EmitResult)
      requires Valid()
      modifies this, buf
      ensures Valid() && Appended(old(Code()), MovImmCode(reg, imm), r)
    {
      if FitsSigned12(imm) {
        r := Push32(EncodeAddi(reg, 0, imm));
        return;
      }
      var hi20 := Hi20(imm);
      var lo12 := Lo12(imm);
      r := Push32(EncodeLui(reg, hi20));
      if r.Failed? {
        return;
      }
      if lo12 != 0 {
        r := Push32(EncodeAddi(reg, reg, lo12));
      }
    }

    method EmitStoreU32(srcReg: Reg, addrReg: Reg) returns (r: EmitResult)
      requires Valid()
      modifies this, buf
      ensures Valid() && Appended(old(Code()), [EncodeSw(srcReg, addrReg)], r)
    {
      r := Push32(EncodeSw(srcReg, addrReg));
    }

    method EmitLoadU32(dstReg: Reg, addrReg: Reg) returns (r: EmitResult)
      requires Valid()
      modifies this, buf
      ensures Valid() && Appended(old(Code()), [EncodeLw(dstReg, addrReg)], r)
    {
      r := Push32(EncodeLw(dstReg, addrReg));
    }

    /** ADD, SUB, MUL and DIV differ in the two function fields. */
    method EmitArith(dst: Reg, a: Reg, b: Reg, funct7: Word, funct3: Word) returns (r: EmitResult)
      requires Valid()
      modifies this, buf
      ensures Valid() && Appended(old(Code()), [EncodeRtype(dst, a, b, funct7, funct3)], r)
    {
      r := Push32(EncodeRtype(dst, a, b, funct7, funct3));
    }

    method EmitRet() returns (r: EmitResult)
      requires Valid()
      modifies this, buf
      ensures Valid() && Appended(old(Code()), [RV32_RET], r)
    {
      r := Push32(RV32_RET);
    }

    /** One request of the generator loop. */
    method EmitOp(op: Native.Op) returns (r: EmitResult)
      requires Valid() && (op.Alu? ==> Exec.IsArith(op.op))
      modifies this, buf
      ensures Valid() && Appended(old(Code()), OpCode(op), r)
    {
      match op
      case Mov(toAcc, imm) => r := EmitMovImm(if toAcc then A0 else A1, imm);
      case Alu(w) =>
        if w == Exec.ADD {
          r := EmitArith(A0, A0, A1, 0, 0);
        } else if w == Exec.SUB {
          r := EmitArith(A0, A0, A1, 0x20, 0);
        } else if w == Exec.MUL {
          r := EmitArith(A0, A0, A1, 1, 0);
        } else {
          r := EmitArith(A0, A0, A1, 1, 4);
        }
      case LoadAcc => r := EmitLoadU32(A0, A1);
      case StoreScratch => r := EmitStoreU32(A1, A0);
    }
  }
}
