/**
 * The capability registry (src/capabilities/registry.rs): eight 32-bit words
 * that behave as a set of resource ids below 256, and the access check.
 */
module Registry {
  import opened Wrappers
  import opened Machine
  import opened Target

  const MAX_RESOURCES: Word := 256
  const WORDS := 8

  datatype CapId = GpioA | GpioB | Uart0 | Spi0 | I2c0 | Timer0 | Dma0 | SuperUser

  function Id(c: CapId): Word {
    match c
    case GpioA => 0
    case GpioB => 1
    case Uart0 => 2
    case Spi0 => 3
    case I2c0 => 4
    case Timer0 => 5
    case Dma0 => 6
    case SuperUser => 31
  }

  const SUPERUSER_ID: Word := 31

  // ---- names ----

  /** The names the console knows resources by. */
  function ResolveName(name: string): Option<Word> {
    if name == "GPIOA" then Some(0)
    else if name == "GPIOB" then Some(1)
    else if name == "UART0" then Some(2)
    else if name == "SPI0" then Some(3)
    else if name == "I2C0" then Some(4)
    else if name == "TIMER0" then Some(5)
    else if name == "DMA0" then Some(6)
    else if name == "SUPERUSER" then Some(31)
    else None
  }

  // ---- addresses ----

  function AddrToCap(arch: Arch, addr: Word): Option<CapId> {
    match arch
    case Arm =>
      if 0x4002_0000 <= addr <= 0x4002_03FF then Some(GpioA)
      else if 0x4002_0400 <= addr <= 0x4002_07FF then Some(GpioB)
      else if 0x4001_1000 <= addr <= 0x4001_13FF then Some(Uart0)
      else if 0x4001_3000 <= addr <= 0x4001_33FF then Some(Spi0)
      else if 0x4001_5400 <= addr <= 0x4001_57FF then Some(I2c0)
      else if 0x4000_0000 <= addr <= 0x4000_03FF then Some(Timer0)
      else if 0x4000_2000 <= addr <= 0x4000_23FF then Some(Dma0)
      else None
    case RiscV32 =>
      if 0x1001_2000 <= addr <= 0x1001_2FFF then Some(GpioA)
      else if 0x1001_3000 <= addr <= 0x1001_3FFF then Some(Uart0)
      else if 0x1001_4000 <= addr <= 0x1001_4FFF then Some(Spi0)
      else if 0x1002_0000 <= addr <= 0x1002_0FFF then Some(I2c0)
      else if 0x1001_5000 <= addr <= 0x1001_5FFF then Some(Timer0)
      else if 0x1000_0000 <= addr <= 0x1000_0FFF then Some(Dma0)
      else None
  }

  predicate IsRamOrFlash(arch: Arch, addr: Word) {
    match arch
    case Arm => 0x0800_0000 <= addr <= 0x080F_FFFF || 0x2000_0000 <= addr <= 0x2001_C000
    case RiscV32 => 0x2000_0000 <= addr <= 0x2000_FFFF || 0x8000_0000 <= addr <= 0x8000_FFFF
  }

  /** The set of claimed ids decides every access. */
  type Claims = set<Word>

  datatype Access = Granted | Denied(cap: CapId)

  function CheckAccess(arch: Arch, claims: Claims, addr: Word): Access {
    if SUPERUSER_ID in claims then Granted
    else
      match AddrToCap(arch, addr)
      case Some(cap) => if Id(cap) in claims then Granted else Denied(cap)
      case None => if IsRamOrFlash(arch, addr) then Granted else Denied(SuperUser)
  }

  predicate Allowed(arch: Arch, claims: Claims, addr: Word) {
    CheckAccess(arch, claims, addr).Granted?
  }

  // ---- the bitfield ----

  function WordOf(id: Word): nat {
    (id / 32) as nat
  }

  function BitOf(id: Word): (b: Word)
    ensures b < 32
  {
    id % 32
  }

  predicate HasBit(bits: seq<Word>, id: Word)
    requires |bits| == WORDS && id < MAX_RESOURCES
  {
    WordInRange(id);
    TestBit(bits[WordOf(id)], BitOf(id))
  }

  lemma WordInRange(id: Word)
    ensures WordOf(id) < WORDS <==> id < MAX_RESOURCES
  {
  }

  lemma SameBit(id: Word, other: Word)
    requires id < MAX_RESOURCES && other < MAX_RESOURCES
    requires WordOf(id) == WordOf(other) && BitOf(id) == BitOf(other)
    ensures id == other
  {
    WordsBelow8(id);
    WordsBelow8(other);
    SmallAsNat(id / 32, other / 32);
    DivMod(id, other);
  }

  lemma WordsBelow8(id: Word)
    requires id < MAX_RESOURCES
    ensures id / 32 < 8
  {
  }

  lemma SmallAsNat(a: Word, b: Word)
    requires a < 8 && b < 8 && a as nat == b as nat
    ensures a == b
  {
  }

  lemma DivMod(a: Word, b: Word)
    requires a / 32 == b / 32 && a % 32 == b % 32
    ensures a == b
  {
  }

  function AcquireBits(bits: seq<Word>, id: Word): (r: seq<Word>)
    requires |bits| == WORDS && id < MAX_RESOURCES
    ensures |r| == WORDS
  {
    WordInRange(id);
    bits[WordOf(id) := SetBit(bits[WordOf(id)], BitOf(id))]
  }

  function ReleaseBits(bits: seq<Word>, id: Word): (r: seq<Word>)
    requires |bits| == WORDS && id < MAX_RESOURCES
    ensures |r| == WORDS
  {
    WordInRange(id);
    bits[WordOf(id) := ClrBit(bits[WordOf(id)], BitOf(id))]
  }

  /** An atomic step decides its own bit and leaves the other 255 alone. */
  lemma StepFrame(bits: seq<Word>, id: Word, other: Word)
    requires |bits| == WORDS && id < MAX_RESOURCES && other < MAX_RESOURCES
    ensures HasBit(AcquireBits(bits, id), other) == (id == other || HasBit(bits, other))
    ensures HasBit(ReleaseBits(bits, id), other) == (id != other && HasBit(bits, other))
  {
    hide TestBit, SetBit, ClrBit, WordOf, BitOf;
    WordInRange(id);
    WordInRange(other);
    if WordOf(id) == WordOf(other) {
      BitFrame(bits[WordOf(id)], BitOf(id), BitOf(other));
      if BitOf(id) == BitOf(other) {
        SameBit(id, other);
      }
    }
  }

  ghost predicate Represents(bits: seq<Word>, claims: Claims) {
    |bits| == WORDS &&
    (forall id <- claims :: id < MAX_RESOURCES) &&
    forall id: Word | id < MAX_RESOURCES :: HasBit(bits, id) <==> id in claims
  }

  class CapabilityRegistry {
    const arch: Arch
    const bits: array<Word>
    ghost var claims: Claims

    ghost predicate Valid()
      reads this, bits
    {
      Represents(bits[..], claims)
    }

    constructor (arch: Arch)
      ensures Valid() && fresh(bits) && claims == {} && this.arch == arch
    {
      this.arch := arch;
      bits := new Word[WORDS](_ => 0);
      claims := {};
      new;
      forall id: Word | id < MAX_RESOURCES
        ensures !HasBit(bits[..], id)
      {
        WordInRange(id);
        NoBitsInZero(BitOf(id));
      }
    }

    method Available(id: Word) returns (r: bool)
      requires Valid()
      ensures r <==> id < MAX_RESOURCES && id !in claims
    {
      hide TestBit, WordOf, BitOf;
      WordInRange(id);
      if WordOf(id) < bits.Length {
        assert HasBit(bits[..], id) == TestBit(bits[WordOf(id)], BitOf(id));
        return !TestBit(bits[WordOf(id)], BitOf(id));
      }
      return false;
    }

    method IsClaimed(id: Word) returns (r: bool)
      requires Valid()
      ensures r <==> id >= MAX_RESOURCES || id in claims
    {
      var free := Available(id);
      return !free;
    }

    method IsSuperuserActive() returns (r: bool)
      requires Valid()
      ensures r <==> SUPERUSER_ID in claims
    {
      r := IsClaimed(SUPERUSER_ID);
    }

    /** One atomic fetch-or. */
    method Acquire(id: Word) returns (won: bool)
      requires Valid()
      modifies this`claims, bits
      ensures Valid()
      ensures won <==> id < MAX_RESOURCES && id !in old(claims)
      ensures claims == old(claims) + if id < MAX_RESOURCES then {id} else {}
    {
      hide TestBit, SetBit, WordOf, BitOf;
      WordInRange(id);
      if WordOf(id) >= bits.Length {
        return false;
      }
      ghost var before := bits[..];
      var prev := bits[WordOf(id)];
      bits[WordOf(id)] := SetBit(prev, BitOf(id));
      assert bits[..] == AcquireBits(before, id);
      claims := claims + {id};
      forall other: Word | other < MAX_RESOURCES
        ensures HasBit(bits[..], other) <==> other in claims
      {
        StepFrame(before, id, other);
      }
      assert HasBit(before, id) == TestBit(prev, BitOf(id));
      return !TestBit(prev, BitOf(id));
    }

    /** One atomic fetch-and. */
    method Release(id: Word)
      requires Valid()
      modifies this`claims, bits
      ensures Valid()
      ensures claims == old(claims) - {id}
    {
      hide TestBit, ClrBit, WordOf, BitOf;
      WordInRange(id);
      if WordOf(id) < bits.Length {
        ghost var before := bits[..];
        bits[WordOf(id)] := ClrBit(bits[WordOf(id)], BitOf(id));
        assert bits[..] == ReleaseBits(before, id);
        claims := claims - {id};
        forall other: Word | other < MAX_RESOURCES
          ensures HasBit(bits[..], other) <==> other in claims
        {
          StepFrame(before, id, other);
        }
      }
    }

    method Check(addr: Word) returns (r: Access)
      requires Valid()
      ensures r == CheckAccess(arch, claims, addr)
    {
      var superuser := IsSuperuserActive();
      if superuser {
        return Granted;
      }
      match AddrToCap(arch, addr)
      case Some(cap) =>
        var claimed := IsClaimed(Id(cap));
        return if claimed then Granted else Denied(cap);
      case None =>
        return if IsRamOrFlash(arch, addr) then Granted else Denied(SuperUser);
    }
  }

  lemma NoBitsInZero(bit: Word)
    requires bit < 32
    ensures !TestBit(0, bit)
  {
  }
}
