/**
 * The Thumb-2 back end (src/compiler/emitter.rs) and the part of the processor
 * it relies on: a decoder and a step semantics for the emitted instructions,
 * after sections A5.2, A5.3 and A7.7 of the ARMv7-M Architecture Reference
 * Manual (DDI 0403).
 */
module Thumb {
  import opened Machine
  import opened Target

  // ---- encoders ----

  function EncodeMovw(rd: Reg, imm: Word): (bv16, bv16) {
    var imm4 := ((imm >> 12) & 0xF) as bv16;
    var i := ((imm >> 11) & 0x1) as bv16;
    var imm3 := ((imm >> 8) & 0x7) as bv16;
    var imm8 := (imm & 0xFF) as bv16;
    (0xF240 | (i << 10) | imm4, (imm3 << 12) | ((rd as bv16 & 0xF) << 8) | imm8)
  }

  function EncodeMovt(rd: Reg, imm: Word): (bv16, bv16) {
    var high := imm >> 16;
    var imm4 := ((high >> 12) & 0xF) as bv16;
    var i := ((high >> 11) & 0x1) as bv16;
    var imm3 := ((high >> 8) & 0x7) as bv16;
    var imm8 := (high & 0xFF) as bv16;
    (0xF2C0 | (i << 10) | imm4, (imm3 << 12) | ((rd as bv16 & 0xF) << 8) | imm8)
  }

  function EncodeMovs(rd: Reg, imm: Word): bv16
    requires imm <= 0xFF
  {
    0x2000 | ((rd as bv16) << 8) | (imm as bv16 & 0xFF)
  }

  datatype Encoded = Word16(hw: bv16) | NoEncoding

  function EncodeStrImm(rt: Reg, rn: Reg, byteOffset: Word): Encoded {
    if rt > 7 || rn > 7 || byteOffset > 124 || byteOffset % 4 != 0 then NoEncoding
    else Word16(0x6000 | (((byteOffset / 4) as bv16) << 6) | ((rn as bv16) << 3) | rt as bv16)
  }

  function EncodeLdrImm(rt: Reg, rn: Reg, byteOffset: Word): Encoded {
    if rt > 7 || rn > 7 || byteOffset > 124 || byteOffset % 4 != 0 then NoEncoding
    else Word16(0x6800 | (((byteOffset / 4) as bv16) << 6) | ((rn as bv16) << 3) | rt as bv16)
  }

  function EncodeSdiv(rd: Reg, rn: Reg, rm: Reg): (bv16, bv16) {
    (0xFB90 | rn as bv16, 0xF010 | ((rd as bv16) << 8) | rm as bv16)
  }

  function EncodeAdds(rd: Reg, rn: Reg, rm: Reg): bv16 {
    0x1800 | ((rm as bv16) << 6) | ((rn as bv16) << 3) | rd as bv16
  }

  function EncodeSubs(rd: Reg, rn: Reg, rm: Reg): bv16 {
    0x1A00 | ((rm as bv16) << 6) | ((rn as bv16) << 3) | rd as bv16
  }

  function EncodeMovsReg(rd: Reg, rm: Reg): bv16 {
    ((rm as bv16) << 3) | rd as bv16
  }

  function EncodeMuls(rdm: Reg, rn: Reg): bv16 {
    0x4340 | ((rn as bv16) << 3) | rdm as bv16
  }

  const BX_LR: bv16 := 0x4770

  // ---- the processor ----

  const SP: Reg := 13
  const LR: Reg := 14
  const PC: Reg := 15

  datatype Instr =
    | MovImm(rd: Reg, imm: Word)
    | MovTop(rd: Reg, imm: Word)
    | MovReg(rd: Reg, rm: Reg)
    | AddReg(rd: Reg, rn: Reg, rm: Reg)
    | SubReg(rd: Reg, rn: Reg, rm: Reg)
    | MulReg(rdm: Reg, rn: Reg)
    | SDivReg(rd: Reg, rn: Reg, rm: Reg)
    | Ldr(rt: Reg, rn: Reg, offset: Word)
    | Str(rt: Reg, rn: Reg, offset: Word)
    | Bx(rm: Reg)
    | Undefined

  /** First halfwords 0b11101, 0b11110 and 0b11111 announce a 32-bit instruction (A5.1). */
  predicate IsWide(h: bv16) {
    h >> 11 == 0x1D || h >> 11 == 0x1E || h >> 11 == 0x1F
  }

  function Field(h: bv16, shift: bv16, mask: bv16): Reg
    requires shift <= 8 && mask <= 0xF
  {
    ((h >> shift) & mask) as Reg
  }

  function Decode16(h: bv16): Instr {
    if h & 0xFFC0 == 0x0000 then MovReg(Field(h, 0, 7), Field(h, 3, 7))
    else if h & 0xFE00 == 0x1800 then AddReg(Field(h, 0, 7), Field(h, 3, 7), Field(h, 6, 7))
    else if h & 0xFE00 == 0x1A00 then SubReg(Field(h, 0, 7), Field(h, 3, 7), Field(h, 6, 7))
    else if h & 0xF800 == 0x2000 then MovImm(Field(h, 8, 7), (h & 0xFF) as Word)
    else if h & 0xFFC0 == 0x4340 then MulReg(Field(h, 0, 7), Field(h, 3, 7))
    else if h & 0xFF87 == 0x4700 then Bx(Field(h, 3, 0xF))
    else if h & 0xF800 == 0x6000 then Str(Field(h, 0, 7), Field(h, 3, 7), ((h >> 6) & 0x1F) as Word * 4)
    else if h & 0xF800 == 0x6800 then Ldr(Field(h, 0, 7), Field(h, 3, 7), ((h >> 6) & 0x1F) as Word * 4)
    else Undefined
  }

  function Imm16(h1: bv16, h2: bv16): Word {
    (((h1 & 0xF) << 12) | (((h1 >> 10) & 1) << 11) | (((h2 >> 12) & 7) << 8) | (h2 & 0xFF)) as Word
  }

  function Decode32(h1: bv16, h2: bv16): Instr {
    var rd := Field(h2, 8, 0xF);
    if h1 & 0xFBF0 == 0xF240 && h2 & 0x8000 == 0 && rd != SP && rd != PC then MovImm(rd, Imm16(h1, h2))
    else if h1 & 0xFBF0 == 0xF2C0 && h2 & 0x8000 == 0 && rd != SP && rd != PC then MovTop(rd, Imm16(h1, h2))
    else if h1 & 0xFFF0 == 0xFB90 && h2 & 0xF0F0 == 0xF0F0 then SDivReg(rd, Field(h1, 0, 0xF), Field(h2, 0, 0xF))
    else Undefined
  }

  /** MOVT: the upper half comes from the immediate, the lower half stays. */
  function SetTop(w: Word, imm: Word): Word {
    (imm << 16) | (w & 0xFFFF)
  }

  predicate Sequential(i: Instr) {
    !i.Bx? && !i.SDivReg? && !i.Undefined?
  }

  /** An instruction that only moves data and falls through to the next one. */
  function Effect(bus: Bus, i: Instr, c: Cpu): Cpu
    requires Sequential(i)
  {
    match i
    case MovImm(rd, imm) => c.(regs := Set(c.regs, rd, imm))
    case MovTop(rd, imm) => c.(regs := Set(c.regs, rd, SetTop(Get(c.regs, rd), imm)))
    case MovReg(rd, rm) => c.(regs := Set(c.regs, rd, Get(c.regs, rm)))
    case AddReg(rd, rn, rm) => c.(regs := Set(c.regs, rd, AddW(Get(c.regs, rn), Get(c.regs, rm))))
    case SubReg(rd, rn, rm) => c.(regs := Set(c.regs, rd, SubW(Get(c.regs, rn), Get(c.regs, rm))))
    case MulReg(rdm, rn) => c.(regs := Set(c.regs, rdm, MulW(Get(c.regs, rdm), Get(c.regs, rn))))
    case Ldr(rt, rn, offset) =>
      var addr := Get(c.regs, rn) + offset;
      Cpu(Set(c.regs, rt, bus(c.trace, addr)), AfterRead(bus, c.trace, addr))
    case Str(rt, rn, offset) =>
      c.(trace := AfterWrite(c.trace, Get(c.regs, rn) + offset, Get(c.regs, rt)))
  }

  /** Execution of the halfwords still ahead of the program counter. */
  function Execute(bus: Bus, code: seq<bv16>, c: Cpu): CodeRun
    decreases |code|
  {
    if code == [] then Fault
    else if !IsWide(code[0]) then
      var i := Decode16(code[0]);
      if i == Bx(LR) then Returned(c)
      else if Sequential(i) then Execute(bus, code[1..], Effect(bus, i, c))
      else Fault
    else if |code| < 2 then Fault
    else
      var i := Decode32(code[0], code[1]);
      if Sequential(i) then Execute(bus, code[2..], Effect(bus, i, c)) else Fault
  }

  lemma {:induction false} Narrow(bus: Bus, h: bv16, i: Instr, rest: seq<bv16>, c: Cpu)
    requires !IsWide(h) && Decode16(h) == i && Sequential(i)
    ensures Execute(bus, [h] + rest, c) == Execute(bus, rest, Effect(bus, i, c))
  {
    assert ([h] + rest)[1..] == rest;
  }

  lemma {:induction false} Wide(bus: Bus, h: (bv16, bv16), i: Instr, rest: seq<bv16>, c: Cpu)
    requires IsWide(h.0) && Decode32(h.0, h.1) == i && Sequential(i)
    ensures Execute(bus, [h.0, h.1] + rest, c) == Execute(bus, rest, Effect(bus, i, c))
  {
    assert ([h.0, h.1] + rest)[2..] == rest;
  }

  // ---- what each emitted encoding decodes to ----

  lemma MovwDecodes(rd: Reg, imm: Word)
    requires rd <= 15 && rd != SP && rd != PC
    ensures var h := EncodeMovw(rd, imm); IsWide(h.0) && Decode32(h.0, h.1) == MovImm(rd, imm & 0xFFFF)
  {
  }

  lemma MovtDecodes(rd: Reg, imm: Word)
    requires rd <= 15 && rd != SP && rd != PC
    ensures var h := EncodeMovt(rd, imm); IsWide(h.0) && Decode32(h.0, h.1) == MovTop(rd, imm >> 16)
  {
  }

  lemma MovsDecodes(rd: Reg, imm: Word)
    requires rd < 8 && imm <= 0xFF
    ensures var h := EncodeMovs(rd, imm); !IsWide(h) && Decode16(h) == MovImm(rd, imm)
  {
  }

  lemma AddsDecodes(rd: Reg, rn: Reg, rm: Reg)
    requires rd < 8 && rn < 8 && rm < 8
    ensures var h := EncodeAdds(rd, rn, rm); !IsWide(h) && Decode16(h) == AddReg(rd, rn, rm)
    ensures var h := EncodeSubs(rd, rn, rm); !IsWide(h) && Decode16(h) == SubReg(rd, rn, rm)
  {
  }

  lemma MulsDecodes(rd: Reg, rm: Reg)
    requires rd < 8 && rm < 8
    ensures var h := EncodeMuls(rd, rm); !IsWide(h) && Decode16(h) == MulReg(rd, rm)
    ensures var h := EncodeMovsReg(rd, rm); !IsWide(h) && Decode16(h) == MovReg(rd, rm)
  {
  }

  lemma LdrDecodes(rt: Reg, rn: Reg, offset: Word)
    ensures match EncodeLdrImm(rt, rn, offset)
            case Word16(h) => !IsWide(h) && Decode16(h) == Ldr(rt, rn, offset)
            case NoEncoding => rt > 7 || rn > 7 || offset > 124 || offset % 4 != 0
  {
  }

  lemma StrDecodes(rt: Reg, rn: Reg, offset: Word)
    ensures match EncodeStrImm(rt, rn, offset)
            case Word16(h) => !IsWide(h) && Decode16(h) == Str(rt, rn, offset)
            case NoEncoding => rt > 7 || rn > 7 || offset > 124 || offset % 4 != 0
  {
  }

  lemma BxDecodes()
    ensures !IsWide(BX_LR) && Decode16(BX_LR) == Bx(LR)
  {
  }

  /**
   * The second halfword of the emitted divide has 0001 in bits 7:4 where the
   * manual has 1111: no register choice makes it an SDIV, or anything else.
   */
  lemma EmittedDivideIsUndefined(rd: Reg, rn: Reg, rm: Reg)
    requires rd <= 15 && rn <= 15 && rm <= 15
    ensures var h := EncodeSdiv(rd, rn, rm); IsWide(h.0) && Decode32(h.0, h.1) == Undefined
  {
  }

  /** Some instructions as an assembler writes them. */
  lemma KnownEncodings()
    ensures EncodeMovs(1, 0x2A) == 0x212A                  // movs r1, #42
    ensures EncodeMovw(0, 0x1234) == (0xF241, 0x2034)      // movw r0, #0x1234
    ensures EncodeMovw(1, 0x0800) == (0xF640, 0x0100)      // movw r1, #0x0800
    ensures EncodeMovt(0, 0x5678_0000) == (0xF2C5, 0x6078) // movt r0, #0x5678
    ensures EncodeAdds(0, 0, 1) == 0x1840                  // adds r0, r0, r1
    ensures EncodeSubs(0, 0, 1) == 0x1A40                  // subs r0, r0, r1
    ensures EncodeMuls(0, 1) == 0x4348                     // muls r0, r1, r0
    ensures EncodeLdrImm(0, 1, 0) == Word16(0x6808)        // ldr r0, [r1]
    ensures EncodeStrImm(1, 0, 0) == Word16(0x6001)        // str r1, [r0]
    ensures BX_LR == 0x4770                                // bx lr
  {
  }

  lemma HalvesJoin(imm: Word)
    ensures SetTop(imm & 0xFFFF, imm >> 16) == imm
    ensures imm >> 16 == 0 ==> imm & 0xFFFF == imm
  {
  }

  // ---- immediates ----

  function MovImmCode(reg: Reg, imm: Word): seq<bv16> {
    if imm <= 0xFF && reg < 8 then [EncodeMovs(reg, imm)]
    else
      var w, t := EncodeMovw(reg, imm), EncodeMovt(reg, imm);
      [w.0, w.1] + if imm >> 16 != 0 then [t.0, t.1] else []
  }

  lemma MovPairJoins(bus: Bus, reg: Reg, low: Word, high: Word, c: Cpu)
    ensures Effect(bus, MovTop(reg, high), Effect(bus, MovImm(reg, low), c))
         == c.(regs := Set(c.regs, reg, SetTop(low, high)))
  {
    var mid := Set(c.regs, reg, low);
    assert Get(mid, reg) == low;
    assert Set(mid, reg, SetTop(low, high)) == Set(c.regs, reg, SetTop(low, high));
  }

  /**
   * Running the emitted code puts exactly `imm` in `reg` and touches no other
   * register and no memory, for every immediate and every register but SP and PC.
   */
  lemma {:induction false} MovImmIsExact(bus: Bus, reg: Reg, imm: Word, rest: seq<bv16>, c: Cpu)
    requires reg <= 15 && reg != SP && reg != PC
    ensures Execute(bus, MovImmCode(reg, imm) + rest, c) == Execute(bus, rest, c.(regs := Set(c.regs, reg, imm)))
  {
    hide Execute, Decode16, Decode32, IsWide, EncodeMovs, EncodeMovw, EncodeMovt, SetTop;
    var w, t := EncodeMovw(reg, imm), EncodeMovt(reg, imm);
    if imm <= 0xFF && reg < 8 {
      MovsDecodes(reg, imm);
      Narrow(bus, EncodeMovs(reg, imm), MovImm(reg, imm), rest, c);
    } else if imm >> 16 == 0 {
      MovwDecodes(reg, imm);
      HalvesJoin(imm);
      Wide(bus, w, MovImm(reg, imm & 0xFFFF), rest, c);
      assert MovImmCode(reg, imm) + rest == [w.0, w.1] + rest;
    } else {
      MovwDecodes(reg, imm);
      MovtDecodes(reg, imm);
      HalvesJoin(imm);
      MovPairJoins(bus, reg, imm & 0xFFFF, imm >> 16, c);
      var low := Effect(bus, MovImm(reg, imm & 0xFFFF), c);
      Wide(bus, w, MovImm(reg, imm & 0xFFFF), [t.0, t.1] + rest, c);
      Wide(bus, t, MovTop(reg, imm >> 16), rest, low);
      assert MovImmCode(reg, imm) + rest == [w.0, w.1] + ([t.0, t.1] + rest);
    }
  }

  // ---- the emitter ----

  const EXEC_BUFFER_SIZE := 4096

  function MulCode(dst: Reg, a: Reg, b: Reg): seq<bv16> {
    (if a != dst then [EncodeMovsReg(dst, a)] else []) + [EncodeMuls(dst, b)]
  }

  function DivCode(dst: Reg, a: Reg, b: Reg): seq<bv16> {
    [EncodeSdiv(dst, a, b).0, EncodeSdiv(dst, a, b).1]
  }

  /** Writes halfwords into the executable buffer, never past its end. */
  class Thumb2Emitter {
    const buf: array<bv16>
    var lenWords: nat

    ghost predicate Valid()
      reads this
    {
      buf.Length == EXEC_BUFFER_SIZE / 2 && lenWords <= buf.Length
    }

    ghost function Code(): seq<bv16>
      reads this, buf
      requires Valid()
    {
      buf[..lenWords]
    }

    /** `code` was appended to `before`, or the buffer ran full on the way. */
    ghost predicate Appended(before: seq<bv16>, code: seq<bv16>, r: EmitResult)
      reads this, buf
      requires Valid()
    {
      if |before| + |code| <= buf.Length then r == Emitted && Code() == before + code
      else r == Failed(Overflow) && before <= Code()
    }

    constructor ()
      ensures Valid() && fresh(buf) && Code() == []
    {
      buf := new bv16[EXEC_BUFFER_SIZE / 2];
      lenWords := 0;
    }

    method Push16(hw: bv16) returns (r: EmitResult)
      requires Valid()
      modifies this, buf
      ensures Valid() && Appended(old(Code()), [hw], r)
      ensures r.Failed? ==> Code() == old(Code())
    {
      if lenWords >= buf.Length {
        return Failed(Overflow);
      }
      buf[lenWords] := hw;
      lenWords := lenWords + 1;
      assert Code() == old(Code()) + [hw];
      return Emitted;
    }

    method Push32(hws: (bv16, bv16)) returns (r: EmitResult)
      requires Valid()
      modifies this, buf
      ensures Valid() && Appended(old(Code()), [hws.0, hws.1], r)
    {
      r := Push16(hws.0);
      if r.Failed? {
        return;
      }
      r := Push16(hws.1);
    }

    method EmitMovImm(reg: Reg, imm: Word) returns (r: EmitResult)
      requires Valid()
      modifies this, buf
      ensures Valid()
      ensures reg > 15 ==> r == Failed(BadRegister) && Code() == old(Code())
      ensures reg <= 15 ==> Appended(old(Code()), MovImmCode(reg, imm), r)
    {
      if reg > 15 {
        return Failed(BadRegister);
      }
      if imm <= 0xFF && reg < 8 {
        r := Push16(EncodeMovs(reg, imm));
        return;
      }
      r := Push32(EncodeMovw(reg, imm));
      if r.Failed? {
        return;
      }
      if imm >> 16 != 0 {
        r := Push32(EncodeMovt(reg, imm));
      }
    }

    method EmitStoreU32(srcReg: Reg, addrReg: Reg) returns (r: EmitResult)
      requires Valid()
      modifies this, buf
      ensures Valid()
      ensures match EncodeStrImm(srcReg, addrReg, 0)
              case Word16(hw) => Appended(old(Code()), [hw], r)
              case NoEncoding => r == Failed(BadRegister) && Code() == old(Code())
    {
      match EncodeStrImm(srcReg, addrReg, 0)
      case Word16(hw) => r := Push16(hw);
      case NoEncoding => r := Failed(BadRegister);
    }

    method EmitLoadU32(dstReg: Reg, addrReg: Reg) returns (r: EmitResult)
      requires Valid()
      modifies this, buf
      ensures Valid()
      ensures match EncodeLdrImm(dstReg, addrReg, 0)
              case Word16(hw) => Appended(old(Code()), [hw], r)
              case NoEncoding => r == Failed(BadRegister) && Code() == old(Code())
    {
      match EncodeLdrImm(dstReg, addrReg, 0)
      case Word16(hw) => r := Push16(hw);
      case NoEncoding => r := Failed(BadRegister);
    }

    method EmitAdd(dst: Reg, a: Reg, b: Reg) returns (r: EmitResult)
      requires Valid()
      modifies this, buf
      ensures Valid()
      ensures if dst > 7 || a > 7 || b > 7 then r == Failed(BadRegister) && Code() == old(Code())
              else Appended(old(Code()), [EncodeAdds(dst, a, b)], r)
    {
      if dst > 7 || a > 7 || b > 7 {
        return Failed(BadRegister);
      }
      r := Push16(EncodeAdds(dst, a, b));
    }

    method EmitSub(dst: Reg, a: Reg, b: Reg) returns (r: EmitResult)
      requires Valid()
      modifies this, buf
      ensures Valid()
      ensures if dst > 7 || a > 7 || b > 7 then r == Failed(BadRegister) && Code() == old(Code())
              else Appended(old(Code()), [EncodeSubs(dst, a, b)], r)
    {
      if dst > 7 || a > 7 || b > 7 {
        return Failed(BadRegister);
      }
      r := Push16(EncodeSubs(dst, a, b));
    }

    method EmitMul(dst: Reg, a: Reg, b: Reg) returns (r: EmitResult)
      requires Valid()
      modifies this, buf
      ensures Valid()
      ensures if dst > 7 || a > 7 || b > 7 then r == Failed(BadRegister) && Code() == old(Code())
              else Appended(old(Code()), MulCode(dst, a, b), r)
    {
      if dst > 7 || a > 7 || b > 7 {
        return Failed(BadRegister);
      }
      if a != dst {
        r := Push16(EncodeMovsReg(dst, a));
        if r.Failed? {
          return;
        }
      }
      r := Push16(EncodeMuls(dst, b));
    }

    method EmitDiv(dst: Reg, a: Reg, b: Reg) returns (r: EmitResult)
      requires Valid()
      modifies this, buf
      ensures Valid()
      ensures if dst > 15 || a > 15 || b > 15 then r == Failed(BadRegister) && Code() == old(Code())
              else Appended(old(Code()), DivCode(dst, a, b), r)
    {
      if dst > 15 || a > 15 || b > 15 {
        return Failed(BadRegister);
      }
      r := Push32(EncodeSdiv(dst, a, b));
    }

    method EmitRet() returns (r: EmitResult)
      requires Valid()
      modifies this, buf
      ensures Valid() && Appended(old(Code()), [BX_LR], r)
    {
      r := Push16(BX_LR);
    }
  }
}
