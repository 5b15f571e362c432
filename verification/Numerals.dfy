/**
 * How numbers may be written (src/compiler/lexer.rs): in decimal or behind `0x`
 * in hexadecimal, with digits in either case, leading zeros, and underscores
 * among them.
 */
module Numerals {
  import opened Lexing
  import opened Uart

  const LOWER := "0123456789abcdef"
  const UPPER := "0123456789ABCDEF"

  /** The text is a hexadecimal numeral of `n`: digit by digit from the last, underscores passed over. */
  predicate HexNumeral(s: string, n: nat) {
    if s == "" then n == 0
    else
      var front, last := s[..|s| - 1], s[|s| - 1];
      if last == '_' then HexNumeral(front, n)
      else (last == LOWER[n % 16] || last == UPPER[n % 16]) && HexNumeral(front, n / 16)
  }

  predicate DecNumeral(s: string, n: nat) {
    if s == "" then n == 0
    else
      var front, last := s[..|s| - 1], s[|s| - 1];
      if last == '_' then DecNumeral(front, n) else last == LOWER[n % 10] && DecNumeral(front, n / 10)
  }

  lemma DigitInTable(c: char, d: nat)
    requires d < 16 && (c == LOWER[d] || c == UPPER[d])
    ensures IsHexDigit(c) && Digit(c) == d && c != '_'
    ensures d < 10 ==> IsDigit(c)
  {
  }

  lemma TableOfDigit(c: char)
    requires IsHexDigit(c)
    ensures Digit(c) < 16 && (c == LOWER[Digit(c)] || c == UPPER[Digit(c)])
    ensures IsDigit(c) ==> Digit(c) < 10 && c == LOWER[Digit(c)]
  {
  }

  /** A run of hexadecimal digits is a numeral of its value and of nothing else. */
  lemma {:induction false} HexValue(s: string, n: nat)
    ensures Spells(s) && Number(s, 16) == n <==> HexNumeral(s, n)
    decreases |s|
  {
    if s != "" {
      var front, last := s[..|s| - 1], s[|s| - 1];
      if last == '_' {
        HexValue(front, n);
      } else {
        HexValue(front, n / 16);
        if IsHexDigit(last) {
          TableOfDigit(last);
        }
        if last == LOWER[n % 16] || last == UPPER[n % 16] {
          DigitInTable(last, n % 16);
        }
      }
      assert Spells(s) <==> In(Hex, last) && Spells(front);
    }
  }

  predicate Decimals(s: string) {
    forall i | 0 <= i < |s| :: In(Dec, s[i])
  }

  lemma {:induction false} DecValue(s: string, n: nat)
    ensures Decimals(s) ==> Spells(s)
    ensures Decimals(s) && Number(s, 10) == n <==> DecNumeral(s, n)
    decreases |s|
  {
    if s != "" {
      var front, last := s[..|s| - 1], s[|s| - 1];
      if last == '_' {
        DecValue(front, n);
      } else {
        DecValue(front, n / 10);
        if IsDigit(last) {
          TableOfDigit(last);
        }
        if last == LOWER[n % 10] {
          DigitInTable(last, n % 10);
        }
      }
      assert Decimals(s) <==> In(Dec, last) && Decimals(front);
    }
  }

  predicate Continues(k: Class, rest: string) {
    rest != "" && In(k, rest[0])
  }

  /** `0x` or `0X` and a numeral of `n` in either case is the literal `n`, or an overflow from 2^32 on. */
  lemma {:induction false} HexLiteral(prefix: string, s: string, n: nat, rest: string)
    requires (prefix == "0x" || prefix == "0X") && s != "" && HexNumeral(s, n) && !Continues(Hex, rest)
    ensures Lex(prefix + s + rest) == (if n < 0x1_0000_0000 then Literal(n) else Error(HexOverflow), 2 + |s|)
  {
    hide Span, Number, HexNumeral;
    var text := prefix + s + rest;
    HexValue(s, n);
    SpanIs(text, Space, 0);
    assert text[0..] == text;
    assert text[2..] == s + rest;
    SpanOfPrefix(s, rest, Hex);
    assert text[2..2 + |s|] == s;
  }

  /** A decimal numeral of `n` that starts with a digit is the literal `n`, or an overflow from 2^32 on. */
  lemma {:induction false} DecLiteral(s: string, n: nat, rest: string)
    requires s != "" && IsDigit(s[0]) && DecNumeral(s, n) && !Continues(Dec, rest)
    requires s == "0" && rest != "" ==> rest[0] != 'x' && rest[0] != 'X'
    ensures Lex(s + rest) == (if n < 0x1_0000_0000 then Literal(n) else Error(LiteralOverflow), |s|)
  {
    hide Span, Number, DecNumeral;
    var text := s + rest;
    DecValue(s, n);
    SpanIs(text, Space, 0);
    assert text[0..] == text;
    SpanOfPrefix(s, rest, Dec);
    assert text[..|s|] == s;
    assert |text| > 1 ==> text[1] == if |s| > 1 then s[1] else rest[0];
    assert |s| > 1 ==> In(Dec, s[1]);
    assert !HexPrefixed(text);
  }

  /** And every literal is written as one of the two. */
  lemma LiteralIsNumeral(s: string)
    requires s != "" && First(s).0.Literal?
    ensures var word, n := s[..First(s).1], First(s).0.value;
            if HexPrefixed(word) then |word| > 2 && HexNumeral(word[2..], n)
            else word != "" && IsDigit(word[0]) && DecNumeral(word, n)
  {
    hide Number, HexNumeral, DecNumeral;
    var word, n := s[..First(s).1], First(s).0.value;
    if HexPrefixed(s) {
      var digits := s[2..2 + Span(s[2..], Hex)];
      assert word[2..] == digits;
      assert forall i | 0 <= i < |digits| :: digits[i] == s[2..][i];
      HexValue(digits, n);
    } else {
      assert IsDigit(s[0]) && In(Dec, s[0]);
      assert forall i | 0 <= i < |word| :: word[i] == s[i];
      DecValue(word, n);
    }
  }

  /** `0x` without a digit or underscore behind it is malformed. */
  lemma {:induction false} BarePrefixIsMalformed(prefix: string, rest: string)
    requires (prefix == "0x" || prefix == "0X") && !Continues(Hex, rest)
    ensures Lex(prefix + rest) == (Error(MalformedHex), 2)
  {
    hide Span, Number;
    var text := prefix + rest;
    SpanIs(text, Space, 0);
    assert text[0..] == text;
    assert text[2..] == rest;
    SpanIs(rest, Hex, 0);
  }

  /** The printers use the upper-case digits. */
  lemma {:induction false} PrintsAreUpperCase(n: nat, width: nat)
    ensures forall c <- HexDigits(n, width) :: c in UPPER
  {
    if width > 0 {
      PrintsAreUpperCase(n / 16, width - 1);
      assert DigitChar(n % 16) == UPPER[n % 16];
    }
  }
}
