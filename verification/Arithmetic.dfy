/**
 * What the word operations compute, in terms of numbers: they are those of the
 * integers modulo 2^32, and division and remainder are those of the integers.
 */
module Arithmetic {
  import opened Machine

  const MODULUS: nat := 0x1_0000_0000

  const LARGEST: Word := 0xFFFF_FFFF

  function More1(a: Word): Word {
    a + 1
  }

  /** How far a word is from the largest. */
  function Gap(a: Word): Word {
    0xFFFF_FFFF - a
  }

  // ---- laws of the bit vectors ----

  lemma UpAndDown(a: Word)
    ensures Less1(More1(a)) == a && More1(Less1(a)) == a
    ensures a != LARGEST ==> More1(a) != 0
  {
  }

  // Each of the longer laws is built up one operation at a time.

  lemma AddStep(a: Word, b: Word)
    ensures AddW(a, b) == More1(AddW(a, Less1(b)))
  {
    hide More1, Less1;
    MoreAddLess(a, b);
  }

  lemma MoreAddLess(a: Word, b: Word)
    ensures More1(AddW(a, Less1(b))) == a + b
  {
    hide More1, AddW;
    assert Less1(b) == b - 1;
    MoreAdd(a, b);
  }

  lemma MoreAdd(a: Word, b: Word)
    ensures More1(AddW(a, b - 1)) == a + b
  {
    hide More1;
    assert AddW(a, b - 1) == a + (b - 1);
    More(a, b);
  }

  lemma More(a: Word, b: Word)
    ensures More1(a + (b - 1)) == a + b
  {
  }

  lemma MulStep(a: Word, b: Word)
    ensures MulW(a, b) == AddW(MulW(a, Less1(b)), a)
  {
    hide AddW, Less1;
    AddMulLess(a, b);
  }

  lemma AddMulLess(a: Word, b: Word)
    ensures AddW(MulW(a, Less1(b)), a) == a * b
  {
    hide AddW, MulW;
    assert Less1(b) == b - 1;
    AddMul(a, b);
  }

  lemma AddMul(a: Word, b: Word)
    ensures AddW(MulW(a, b - 1), a) == a * b
  {
    hide AddW;
    assert MulW(a, b - 1) == a * (b - 1);
    OneFactorMore(a, b);
  }

  lemma OneFactorMore(a: Word, b: Word)
    ensures AddW(a * (b - 1), a) == a * b
  {
  }

  lemma NeutralWords(a: Word)
    ensures AddW(a, 0) == a && MulW(a, 0) == 0
  {
  }

  lemma GapSteps(a: Word)
    ensures Gap(0) == LARGEST && Gap(Less1(a)) == More1(Gap(a)) && (a != 0 ==> Gap(a) != LARGEST)
  {
  }

  lemma CarryDrops(a: Word, b: Word)
    ensures AddW(a, b) == Less1(SubW(a, Gap(b)))
  {
    hide Less1, SubW, Gap;
    LessSubGap(a, b);
  }

  lemma LessSubGap(a: Word, b: Word)
    ensures Less1(SubW(a, Gap(b))) == a + b
  {
    hide Less1, SubW;
    assert Gap(b) == 0xFFFF_FFFF - b;
    LessSub(a, b);
  }

  lemma LessSub(a: Word, b: Word)
    ensures Less1(SubW(a, 0xFFFF_FFFF - b)) == a + b
  {
    hide Less1;
    assert SubW(a, 0xFFFF_FFFF - b) == a - (0xFFFF_FFFF - b);
    Less(a, b);
  }

  lemma Less(a: Word, b: Word)
    ensures Less1(a - (0xFFFF_FFFF - b)) == a + b
  {
  }

  lemma SubUndone(a: Word, b: Word)
    ensures AddW(SubW(a, b), b) == a
  {
    hide AddW;
    assert SubW(a, b) == a - b;
    AddSub(a, b);
  }

  lemma AddSub(a: Word, b: Word)
    ensures AddW(a - b, b) == a
  {
  }

  lemma StillLow(a: Word, b: Word)
    requires a < 0x8000_0000 && b <= 0x8000_0000 && b != 0
    ensures Less1(b) <= 0x8000_0000 && AddW(a, Less1(b)) != LARGEST
  {
  }

  // ---- values ----

  lemma {:induction false} Successor(a: Word)
    requires a != LARGEST
    ensures NumberOf(More1(a)) == NumberOf(a) + 1
  {
    hide Less1, More1;
    UpAndDown(a);
  }

  /** Different words stand for different numbers. */
  lemma {:induction false} ValueIsInjective(a: Word, b: Word)
    requires NumberOf(a) == NumberOf(b)
    ensures a == b
    decreases NumberOf(a)
  {
    hide Less1, More1;
    if a != 0 {
      ValueIsInjective(Less1(a), Less1(b));
      UpAndDown(a);
      UpAndDown(b);
    }
  }

  lemma {:induction false} LowSum(a: Word, b: Word)
    requires a < 0x8000_0000 && b <= 0x8000_0000
    ensures NumberOf(AddW(a, b)) == NumberOf(a) + NumberOf(b)
    decreases NumberOf(b)
  {
    hide Less1, More1, AddW;
    AddStep(a, b);
    NeutralWords(a);
    if b != 0 {
      StillLow(a, b);
      LowSum(a, Less1(b));
      Successor(AddW(a, Less1(b)));
    }
  }

  lemma Doubled(a: Word, n: nat)
    requires a < 0x8000_0000 && NumberOf(a) == n
    ensures NumberOf(2 * a) == 2 * n
  {
    hide AddW, NumberOf;
    LowSum(a, a);
    TwiceIsSum(a);
  }

  lemma TwiceIsSum(a: Word)
    ensures AddW(a, a) == 2 * a
  {
  }

  lemma SixteenFold(a: Word, b: Word, c: Word, d: Word, n: nat)
    requires a < 0x8000_0000 && b < 0x8000_0000 && c < 0x8000_0000 && d < 0x8000_0000
    requires b == 2 * a && c == 2 * b && d == 2 * c && NumberOf(a) == n
    ensures NumberOf(2 * d) == 16 * n
  {
    hide NumberOf;
    Doubled(a, n);
    Doubled(b, 2 * n);
    Doubled(c, 4 * n);
    Doubled(d, 8 * n);
  }

  lemma One()
    ensures NumberOf(1) == 1
  {
    assert Less1(1) == 0;
  }

  /** The largest word stands for 2^32 - 1. */
  lemma LargestValue()
    ensures NumberOf(LARGEST) == MODULUS - 1
  {
    hide NumberOf, Less1, More1, AddW;
    One();
    SixteenFold(0x1, 0x2, 0x4, 0x8, 0x1);
    SixteenFold(0x10, 0x20, 0x40, 0x80, 0x10);
    SixteenFold(0x100, 0x200, 0x400, 0x800, 0x100);
    SixteenFold(0x1000, 0x2000, 0x4000, 0x8000, 0x1000);
    SixteenFold(0x1_0000, 0x2_0000, 0x4_0000, 0x8_0000, 0x1_0000);
    SixteenFold(0x10_0000, 0x20_0000, 0x40_0000, 0x80_0000, 0x10_0000);
    SixteenFold(0x100_0000, 0x200_0000, 0x400_0000, 0x800_0000, 0x100_0000);
    Doubled(0x1000_0000, 0x1000_0000);
    Doubled(0x2000_0000, 0x2000_0000);
    Doubled(0x4000_0000, 0x4000_0000);
    Successor(0x7FFF_FFFF);
    LowSum(0x7FFF_FFFF, 0x8000_0000);
    TopWords();
  }

  lemma TopWords()
    ensures More1(0x7FFF_FFFF) == 0x8000_0000 && AddW(0x7FFF_FFFF, 0x8000_0000) == LARGEST
  {
  }

  lemma {:induction false} Complements(a: Word)
    ensures NumberOf(a) + NumberOf(Gap(a)) == NumberOf(LARGEST)
    decreases NumberOf(a)
  {
    hide Less1, More1, Gap;
    GapSteps(a);
    if a != 0 {
      Complements(Less1(a));
      Successor(Gap(a));
    }
  }

  lemma {:induction false} ValueInRange(a: Word)
    ensures NumberOf(a) < MODULUS
  {
    hide NumberOf, Gap;
    LargestValue();
    Complements(a);
  }

  // ---- addition and subtraction ----

  lemma {:induction false} SumWithoutCarry(a: Word, b: Word)
    requires NumberOf(a) + NumberOf(b) < MODULUS
    ensures NumberOf(AddW(a, b)) == NumberOf(a) + NumberOf(b)
    decreases NumberOf(b)
  {
    hide Less1, More1, AddW;
    AddStep(a, b);
    NeutralWords(a);
    LargestValue();
    if b != 0 {
      SumWithoutCarry(a, Less1(b));
      Successor(AddW(a, Less1(b)));
    }
  }

  lemma {:induction false} SumWithCarry(a: Word, b: Word)
    requires NumberOf(a) + NumberOf(b) >= MODULUS
    ensures NumberOf(AddW(a, b)) == NumberOf(a) + NumberOf(b) - MODULUS
  {
    hide Less1, SubW, AddW, Gap;
    LargestValue();
    Complements(b);
    ValueInRange(a);
    Difference(a, Gap(b));
    CarryDrops(a, b);
  }

  /** Addition is that of the integers modulo 2^32. */
  lemma {:induction false} AddIsModular(a: Word, b: Word)
    ensures NumberOf(AddW(a, b)) == (NumberOf(a) + NumberOf(b)) % MODULUS
  {
    hide NumberOf, AddW;
    ValueInRange(a);
    ValueInRange(b);
    if NumberOf(a) + NumberOf(b) < MODULUS {
      SumWithoutCarry(a, b);
    } else {
      SumWithCarry(a, b);
    }
  }

  /** Subtraction is that of the integers modulo 2^32. */
  lemma {:induction false} SubIsModular(a: Word, b: Word)
    ensures NumberOf(SubW(a, b)) == (NumberOf(a) - NumberOf(b)) % MODULUS
  {
    hide NumberOf, AddW, SubW;
    AddIsModular(SubW(a, b), b);
    SubUndone(a, b);
    ValueInRange(a);
    ValueInRange(b);
    ValueInRange(SubW(a, b));
  }

  // ---- multiplication ----

  function Product(k: int, y: int): int {
    k * y
  }

  /** Multiplication is that of the integers modulo 2^32. */
  lemma {:induction false} MulIsModular(a: Word, b: Word)
    ensures NumberOf(MulW(a, b)) == (NumberOf(a) * NumberOf(b)) % MODULUS
  {
    hide NumberOf, MulW;
    ProductByRows(a, b);
  }

  lemma {:induction false} ProductByRows(a: Word, b: Word)
    ensures NumberOf(MulW(a, b)) == Product(NumberOf(a), NumberOf(b)) % MODULUS
    decreases NumberOf(b)
  {
    hide Less1, AddW, MulW, Product;
    NeutralWords(a);
    if b == 0 {
      NoRows(NumberOf(a));
    } else {
      MulStep(a, b);
      ProductByRows(a, Less1(b));
      AddIsModular(MulW(a, Less1(b)), a);
      OneRowMore(NumberOf(a), NumberOf(Less1(b)));
    }
  }

  lemma NoRows(x: int)
    ensures Product(x, 0) % MODULUS == 0
  {
  }

  lemma OneRowMore(x: int, y: int)
    ensures (Product(x, y) % MODULUS + x) % MODULUS == Product(x, y + 1) % MODULUS
  {
    assert Product(x, y + 1) == Product(x, y) + x;
    ModularSum(Product(x, y), x);
  }

  lemma ModularSum(x: int, y: int)
    ensures (x % MODULUS + y) % MODULUS == (x + y) % MODULUS
  {
  }

  // ---- division ----

  lemma TimesDifference(p: int, q: int, y: int)
    ensures Product(p, y) - Product(q, y) == Product(p - q, y)
  {
  }

  lemma {:induction false} TimesPositive(k: int, y: int)
    requires y > 0
    ensures k > 0 ==> Product(k, y) >= y && Product(k, y) >= k
    ensures k < 0 ==> Product(k, y) <= -y
    ensures k == 0 ==> Product(k, y) == 0
  {
  }

  lemma QuotientEquation(x: int, y: int)
    requires y > 0
    ensures x == Product(x / y, y) + x % y && 0 <= x % y < y
  {
  }

  /** Quotient and remainder are what fits their equation. */
  lemma DivisionIs(x: int, y: int, q: int, r: int)
    requires 0 <= r < y && x == Product(q, y) + r
    ensures x / y == q && x % y == r
  {
    hide Product;
    QuotientEquation(x, y);
    TimesDifference(x / y, q, y);
    TimesPositive(x / y - q, y);
  }

  lemma OneTimeMore(x: nat, y: nat)
    requires 0 < y <= x
    ensures x / y == (x - y) / y + 1 && x % y == (x - y) % y && 0 <= (x - y) / y < x
  {
    hide Product;
    var q, r := (x - y) / y, (x - y) % y;
    QuotientEquation(x - y, y);
    TimesDifference(q + 1, 1, y);
    TimesPositive(q, y);
    OnceIsItself(y);
    DivisionIs(x, y, q + 1, r);
  }

  lemma OnceIsItself(y: int)
    ensures Product(1, y) == y && Product(0, y) == 0
  {
  }

  function Quotient(x: int, y: int): int
    requires y > 0
  {
    x / y
  }

  lemma NextQuotient(x: nat, y: nat)
    requires 0 < y <= x < MODULUS
    ensures (Quotient(x - y, y) + 1) % MODULUS == Quotient(x, y)
  {
    OneTimeMore(x, y);
  }

  lemma NoQuotient(x: nat, y: nat)
    requires x < y
    ensures Quotient(x, y) == 0 && x % y == x
  {
    OnceIsItself(y);
    DivisionIs(x, y, 0, x);
  }

  lemma {:induction false} DivStep(a: Word, b: Word)
    ensures b == 0 || NumberOf(a) < NumberOf(b) ==> DivW(a, b) == 0
    ensures b != 0 && NumberOf(a) >= NumberOf(b) ==> DivW(a, b) == AddW(DivW(SubW(a, b), b), 1)
    ensures NumberOf(0) == 0 && (b != 0 ==> NumberOf(b) > 0)
  {
    hide AddW, SubW, Less1;
  }

  lemma {:induction false} QuotientByCounting(a: Word, b: Word)
    requires b != 0
    ensures NumberOf(b) > 0 && NumberOf(DivW(a, b)) == Quotient(NumberOf(a), NumberOf(b))
    decreases NumberOf(a)
  {
    hide AddW, SubW, NumberOf, DivW, Quotient;
    DivStep(a, b);
    if NumberOf(a) >= NumberOf(b) {
      Difference(a, b);
      QuotientByCounting(SubW(a, b), b);
      AddIsModular(DivW(SubW(a, b), b), 1);
      One();
      ValueInRange(a);
      NextQuotient(NumberOf(a), NumberOf(b));
    } else {
      NoQuotient(NumberOf(a), NumberOf(b));
    }
  }

  /** Division is that of the integers, and division by zero yields zero. */
  lemma {:induction false} DivIsInteger(a: Word, b: Word)
    ensures NumberOf(DivW(a, b)) == if NumberOf(b) == 0 then 0 else NumberOf(a) / NumberOf(b)
  {
    hide AddW, SubW, NumberOf, DivW;
    DivStep(a, b);
    if b != 0 {
      QuotientByCounting(a, b);
    }
  }

  /** The remainder is that of the integers. */
  lemma {:induction false} ModIsInteger(a: Word, b: Word)
    requires b != 0
    ensures NumberOf(b) > 0 && NumberOf(ModW(a, b)) == NumberOf(a) % NumberOf(b)
    decreases NumberOf(a)
  {
    hide Less1, SubW;
    if NumberOf(a) >= NumberOf(b) {
      Difference(a, b);
      ModIsInteger(SubW(a, b), b);
      OneTimeMore(NumberOf(a), NumberOf(b));
    } else {
      OnceIsItself(NumberOf(b));
      DivisionIs(NumberOf(a), NumberOf(b), 0, NumberOf(a));
    }
  }
}
