/**
 * Machine words and the memory bus (src/kernel/memory.rs).
 *
 * Memory is the ordered trace of volatile accesses.  A read returns whatever
 * the bus answers, and the answer may depend on the whole history: plain RAM
 * is one such bus, a device whose registers change as they are read is another.
 * Two runs with the same trace therefore leave the same memory behind.
 */
module Machine {
  type Word = bv32

  datatype Event = Read(addr: Word, value: Word) | Write(addr: Word, value: Word)

  type Trace = seq<Event>

  type Bus = (Trace, Word) -> Word

  // 32-bit wrapping arithmetic
  function AddW(a: Word, b: Word): Word {
    a + b
  }

  function SubW(a: Word, b: Word): Word {
    a - b
  }

  function MulW(a: Word, b: Word): Word {
    a * b
  }

  function Less1(a: Word): Word {
    a - 1
  }

  /** The number a word stands for: how many steps lead down from it to zero. */
  function NumberOf(a: Word): nat
    decreases a
  {
    if a == 0 then 0 else NumberOf(Less1(a)) + 1
  }

  lemma StepDownBoth(a: Word, b: Word)
    ensures SubW(a, b) == SubW(Less1(a), Less1(b)) && SubW(a, 0) == a
  {
  }

  lemma {:induction false} Difference(a: Word, b: Word)
    requires NumberOf(b) <= NumberOf(a)
    ensures NumberOf(SubW(a, b)) == NumberOf(a) - NumberOf(b)
    decreases NumberOf(b)
  {
    hide Less1, SubW;
    StepDownBoth(a, b);
    if b != 0 {
      Difference(Less1(a), Less1(b));
    }
  }

  /** Unsigned division, counting how often the divisor fits; 0 on a zero divisor. */
  function DivW(a: Word, b: Word): Word
    decreases NumberOf(a)
  {
    if b == 0 || NumberOf(a) < NumberOf(b) then 0
    else
      Difference(a, b);
      AddW(DivW(SubW(a, b), b), 1)
  }

  function ModW(a: Word, b: Word): Word
    requires b != 0
    decreases NumberOf(a)
  {
    if NumberOf(a) < NumberOf(b) then a
    else
      Difference(a, b);
      ModW(SubW(a, b), b)
  }

  function AfterRead(bus: Bus, trace: Trace, addr: Word): Trace {
    trace + [Read(addr, bus(trace, addr))]
  }

  function AfterWrite(trace: Trace, addr: Word, value: Word): Trace {
    trace + [Write(addr, value)]
  }

  class Memory {
    const bus: Bus
    var trace: Trace

    constructor (bus: Bus)
      ensures this.bus == bus && trace == []
    {
      this.bus := bus;
      trace := [];
    }

    method PeekU32(addr: Word) returns (value: Word)
      modifies this
      ensures value == bus(old(trace), addr)
      ensures trace == AfterRead(bus, old(trace), addr)
    {
      value := bus(trace, addr);
      trace := trace + [Read(addr, value)];
    }

    method PokeU32(addr: Word, value: Word)
      modifies this
      ensures trace == AfterWrite(old(trace), addr, value)
    {
      trace := trace + [Write(addr, value)];
    }

    /** Read-modify-write that sets one bit; `bit` is below 32. */
    method RegSetBit(addr: Word, bit: Word)
      requires bit < 32
      modifies this
      ensures trace == old(trace) + [Read(addr, bus(old(trace), addr)), Write(addr, SetBit(bus(old(trace), addr), bit))]
    {
      var v := PeekU32(addr);
      PokeU32(addr, SetBit(v, bit));
    }

    method RegClrBit(addr: Word, bit: Word)
      requires bit < 32
      modifies this
      ensures trace == old(trace) + [Read(addr, bus(old(trace), addr)), Write(addr, ClrBit(bus(old(trace), addr), bit))]
    {
      var v := PeekU32(addr);
      PokeU32(addr, ClrBit(v, bit));
    }
  }

  function Mask(bit: Word): Word
    requires bit < 32
  {
    1 << bit
  }

  function SetBit(w: Word, bit: Word): Word
    requires bit < 32
  {
    w | Mask(bit)
  }

  function ClrBit(w: Word, bit: Word): Word
    requires bit < 32
  {
    w & !Mask(bit)
  }

  function Masked(w: Word, bit: Word): Word
    requires bit < 32
  {
    w & Mask(bit)
  }

  predicate TestBit(w: Word, bit: Word)
    requires bit < 32
  {
    Masked(w, bit) != 0
  }

  /** Setting or clearing bit `b` decides the test of bit `b` and leaves every other test alone. */
  lemma BitFrame(w: Word, b: Word, c: Word)
    requires b < 32 && c < 32
    ensures TestBit(SetBit(w, b), c) == (b == c || TestBit(w, c))
    ensures TestBit(ClrBit(w, b), c) == (b != c && TestBit(w, c))
  {
    hide Masked, Mask, SetBit, ClrBit;
    MaskNonZero(b);
    if b == c {
      MaskSelf(w, b);
    } else {
      SetOther(w, b, c);
      ClrOther(w, b, c);
    }
  }

  /** Bit `b` of a word, shifted down. */
  function BitAt(w: Word, b: Word): Word
    requires b < 32
  {
    (w >> b) & 1
  }

  lemma TestIsShift(w: Word, b: Word)
    requires b < 32
    ensures BitAt(w, b) == if TestBit(w, b) then 1 else 0
  {
  }

  /** In terms of shifts: the named bit becomes 1 or 0, and the others stay. */
  lemma BitsByShift(w: Word, b: Word, c: Word)
    requires b < 32 && c < 32
    ensures BitAt(SetBit(w, b), c) == if b == c then 1 else BitAt(w, c)
    ensures BitAt(ClrBit(w, b), c) == if b == c then 0 else BitAt(w, c)
  {
    hide BitAt, TestBit, SetBit, ClrBit;
    BitFrame(w, b, c);
    TestIsShift(w, c);
    TestIsShift(SetBit(w, b), c);
    TestIsShift(ClrBit(w, b), c);
  }

  lemma MaskNonZero(b: Word)
    requires b < 32
    ensures Mask(b) != 0
  {
  }

  lemma MasksDisjoint(b: Word, c: Word)
    requires b < 32 && c < 32 && b != c
    ensures Mask(b) & Mask(c) == 0
  {
  }

  lemma MaskSelf(w: Word, b: Word)
    requires b < 32
    ensures Masked(SetBit(w, b), b) == Mask(b)
    ensures Masked(ClrBit(w, b), b) == 0
  {
  }

  lemma SetOther(w: Word, b: Word, c: Word)
    requires b < 32 && c < 32 && b != c
    ensures Masked(SetBit(w, b), c) == Masked(w, c)
  {
    MasksDisjoint(b, c);
    OrOutside(w, Mask(b), Mask(c));
  }

  lemma ClrOther(w: Word, b: Word, c: Word)
    requires b < 32 && c < 32 && b != c
    ensures Masked(ClrBit(w, b), c) == Masked(w, c)
  {
    MasksDisjoint(b, c);
    AndOutside(w, Mask(b), Mask(c));
  }

  lemma OrOutside(w: Word, m: Word, n: Word)
    requires m & n == 0
    ensures (w | m) & n == w & n
  {
  }

  lemma AndOutside(w: Word, m: Word, n: Word)
    requires m & n == 0
    ensures (w & !m) & n == w & n
  {
  }
}
