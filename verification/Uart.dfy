/**
 * The number printers (src/drivers/uart.rs).  The transmitter is the string of
 * characters put so far.  The printers and the lexer are inverse.
 */
module Uart {
  import opened Lexing

  function DigitChar(d: nat): char
    requires d < 16
  {
    "0123456789ABCDEF"[d]
  }

  function Decimal(n: nat): string {
    if n < 10 then [DigitChar(n)] else Decimal(n / 10) + [DigitChar(n % 10)]
  }

  /** The last `width` hexadecimal digits. */
  function HexDigits(n: nat, width: nat): string {
    if width == 0 then [] else HexDigits(n / 16, width - 1) + [DigitChar(n % 16)]
  }

  function Hexadecimal(n: nat): string {
    "0x" + HexDigits(n, 8)
  }

  /** `value >> (4 * k)`. */
  function ShiftRight4(value: nat, k: nat): nat {
    if k == 0 then value else ShiftRight4(value, k - 1) / 16
  }

  function Reverse(s: string): string {
    if s == [] then [] else [s[|s| - 1]] + Reverse(s[..|s| - 1])
  }

  function Pow10(k: nat): nat {
    if k == 0 then 1 else 10 * Pow10(k - 1)
  }

  class Transmitter {
    var sent: string

    constructor ()
      ensures sent == []
    {
      sent := [];
    }

    method PutByte(c: char)
      modifies this
      ensures sent == old(sent) + [c]
    {
      sent := sent + [c];
    }

    method WriteStr(s: string)
      modifies this
      ensures sent == old(sent) + s
    {
      for i := 0 to |s|
        invariant sent == old(sent) + s[..i]
      {
        assert s[..i + 1] == s[..i] + [s[i]];
        PutByte(s[i]);
      }
      assert s[..|s|] == s;
    }

    method WriteHexU32(value: u32)
      modifies this
      ensures sent == old(sent) + Hexadecimal(value)
    {
      WriteStr("0x");
      ghost var start := sent;
      var k := 8;
      assert ShiftRight4(value, 8) == 0 by {
        ShiftBound(value, 8, 8);
        PowersOfSixteen();
      }
      while k > 0
        invariant 0 <= k <= 8
        invariant sent == start + HexDigits(ShiftRight4(value, k), 8 - k)
      {
        k := k - 1;
        PutByte(DigitChar(ShiftRight4(value, k) % 16));
      }
    }

    /** The ten-byte scratch buffer has room for every digit. */
    method WriteDecU32(n: u32)
      modifies this
      ensures sent == old(sent) + Decimal(n)
    {
      hide Decimal, Reverse, Pow10;
      var scratch := new char[10];
      var value: nat := n;
      var len := 0;
      PowersOfTen();
      ReverseSnoc([], '0');
      assert Decimal(n) + [] == Decimal(n);
      while true
        invariant 0 <= len < 10 && value < Pow10(10 - len)
        invariant Decimal(n) == Decimal(value) + Reverse(scratch[..len])
        invariant sent == old(sent)
        decreases value
      {
        DecimalStep(Decimal(n), value, scratch[..len]);
        PowerStep(value, 10 - len);
        ghost var before := scratch[..len];
        scratch[len] := DigitChar(value % 10);
        assert scratch[..len + 1] == before + [DigitChar(value % 10)];
        len := len + 1;
        value := value / 10;
        if value == 0 {
          break;
        }
      }
      PutReversed(scratch, len);
    }

    method PutReversed(scratch: array<char>, count: nat)
      requires count <= scratch.Length
      modifies this
      ensures sent == old(sent) + Reverse(scratch[..count])
    {
      var len := count;
      while len > 0
        invariant 0 <= len <= count
        invariant sent + Reverse(scratch[..len]) == old(sent) + Reverse(scratch[..count])
      {
        len := len - 1;
        assert scratch[..len + 1] == scratch[..len] + [scratch[len]];
        ReverseSnoc(scratch[..len], scratch[len]);
        PutByte(scratch[len]);
      }
    }
  }

  lemma {:induction false} DecimalStep(all: string, value: nat, before: string)
    requires all == Decimal(value) + Reverse(before)
    ensures var after := Reverse(before + [DigitChar(value % 10)]);
            all == if value < 10 then after else Decimal(value / 10) + after
  {
    hide Reverse;
    var c := DigitChar(value % 10);
    ReverseSnoc(before, c);
    if value < 10 {
      assert Decimal(value) == [c];
    } else {
      assert Decimal(value) == Decimal(value / 10) + [c];
      assert (Decimal(value / 10) + [c]) + Reverse(before) == Decimal(value / 10) + ([c] + Reverse(before));
    }
  }

  lemma PowerStep(value: nat, k: nat)
    requires value < Pow10(k) && k >= 1
    ensures value / 10 < Pow10(k - 1)
    ensures k == 1 ==> value / 10 == 0
  {
  }

  lemma {:induction false} ReverseSnoc(s: string, c: char)
    ensures Reverse(s + [c]) == [c] + Reverse(s)
    ensures Reverse([]) == []
  {
    assert (s + [c])[..|s|] == s;
  }

  lemma PowersOfTen()
    ensures Pow10(10) == 10_000_000_000
  {
    assert Pow10(5) == 100_000;
  }

  function Pow16(k: nat): nat {
    if k == 0 then 1 else 16 * Pow16(k - 1)
  }

  lemma PowersOfSixteen()
    ensures Pow16(8) == 0x1_0000_0000
  {
    assert Pow16(4) == 0x1_0000;
  }

  lemma {:induction false} ShiftBound(value: nat, k: nat, width: nat)
    requires k <= width && value < Pow16(width)
    ensures ShiftRight4(value, k) < Pow16(width - k)
  {
    if k > 0 {
      ShiftBound(value, k - 1, width);
    }
  }

  // ---- the lexer reads back what the printers write ----

  lemma {:induction false} DecimalSpells(n: nat)
    ensures var s := Decimal(n);
            (forall i | 0 <= i < |s| :: IsDigit(s[i])) && Number(s, 10) == n && s != [] && (|s| >= 2 ==> s[0] != '0')
    ensures n > 0 ==> Decimal(n)[0] != '0'
  {
    if n >= 10 {
      DecimalSpells(n / 10);
      var s := Decimal(n);
      assert s[..|s| - 1] == Decimal(n / 10);
    } else {
      assert Decimal(n)[..0] == [];
    }
  }

  lemma {:induction false} HexDigitsSpell(n: nat, width: nat)
    requires n < Pow16(width)
    ensures var s := HexDigits(n, width);
            |s| == width && (forall i | 0 <= i < |s| :: IsHexDigit(s[i])) && Number(s, 16) == n
  {
    if width > 0 {
      HexDigitsSpell(n / 16, width - 1);
      var s := HexDigits(n, width);
      assert s[..|s| - 1] == HexDigits(n / 16, width - 1);
      DigitOfChar(n % 16);
    }
  }

  lemma DigitOfChar(d: nat)
    requires d < 16
    ensures IsHexDigit(DigitChar(d)) && Digit(DigitChar(d)) == d && DigitChar(d) != '_'
  {
  }

  /** A character that cannot continue a number or a name. */
  predicate Breaks(rest: string) {
    rest == [] || !In(Ident, rest[0])
  }

  /** What `write_dec_u32` prints is one literal token with the printed value. */
  lemma {:induction false} DecimalLexes(n: u32, rest: string)
    requires Breaks(rest)
    ensures Lex(Decimal(n) + rest) == (Literal(n), |Decimal(n)|)
  {
    hide Decimal, Number, Span, HexPrefixed;
    var s := Decimal(n);
    var text := s + rest;
    DecimalSpells(n);
    assert IsDigit(s[0]) && text[0] == s[0];
    SpanIs(text, Space, 0);
    assert text[0..] == text;
    SpanOfPrefix(s, rest, Dec);
    assert text[..|s|] == s;
    NotHex(s, rest);
  }

  lemma {:induction false} SpanOfPrefix(s: string, rest: string, k: Class)
    requires forall i | 0 <= i < |s| :: In(k, s[i])
    requires rest == [] || !In(k, rest[0])
    ensures Span(s + rest, k) == |s|
  {
    var text := s + rest;
    assert forall i | 0 <= i < |s| :: text[i] == s[i];
    assert |s| < |text| ==> text[|s|] == rest[0];
    SpanIs(text, k, |s|);
  }

  lemma NotHex(s: string, rest: string)
    requires s != [] && (forall i | 0 <= i < |s| :: IsDigit(s[i])) && (|s| >= 2 ==> s[0] != '0') && Breaks(rest)
    ensures !HexPrefixed(s + rest)
  {
    if |s| == 1 && rest != [] {
      assert (s + rest)[1] == rest[0];
    }
  }

  /** What `write_hex_u32` prints is one literal token with the printed value. */
  lemma HexadecimalLexes(n: u32, rest: string)
    requires Breaks(rest)
    ensures Lex(Hexadecimal(n) + rest) == (Literal(n), 10)
  {
    hide HexDigits, Number, Span;
    var s := HexDigits(n, 8);
    var text := Hexadecimal(n) + rest;
    PowersOfSixteen();
    HexDigitsSpell(n, 8);
    SpanIs(text, Space, 0);
    assert text[0..] == text;
    assert text[2..] == s + rest;
    SpanOfPrefix(s, rest, Hex);
    assert text[2..2 + 8] == s;
  }

  /** With nothing behind it, a printed number is the whole token sequence. */
  lemma {:induction false} PrintedNumbersLexBack(n: u32)
    ensures Tokens(Decimal(n)) == [Literal(n)]
    ensures Tokens(Hexadecimal(n)) == [Literal(n)]
  {
    assert Decimal(n) + [] == Decimal(n) && Hexadecimal(n) + [] == Hexadecimal(n);
    DecimalLexes(n, []);
    HexadecimalLexes(n, []);
    PowersOfSixteen();
    HexDigitsSpell(n, 8);
    assert Decimal(n)[|Decimal(n)|..] == [] && Hexadecimal(n)[10..] == [];
    assert Tokens([]) == [];
  }
}
