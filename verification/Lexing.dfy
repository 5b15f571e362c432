/**
 * The lexer (src/compiler/lexer.rs).  A line is a string; whatever is not one
 * of the listed ASCII characters is an unexpected character.
 */
module Lexing {
  type u32 = x: int | 0 <= x < 0x1_0000_0000

  datatype LexError = UnexpectedCharacter | HexOverflow | MalformedHex | LiteralOverflow

  datatype Token =
    | KwFn
    | KwLet
    | Identifier(name: string)
    | Operator(op: char)
    | Literal(value: u32)
    | LParen
    | RParen
    | LBrace
    | RBrace
    | Semicolon
    | Comma
    | Error(error: LexError)
    | Eof

  // ---- character classes ----

  predicate IsSpace(c: char) {
    c == ' ' || c == '\t' || c == '\r' || c == '\n'
  }

  predicate IsDigit(c: char) {
    '0' <= c <= '9'
  }

  predicate IsHexDigit(c: char) {
    IsDigit(c) || 'a' <= c <= 'f' || 'A' <= c <= 'F'
  }

  predicate IsAlpha(c: char) {
    'a' <= c <= 'z' || 'A' <= c <= 'Z' || c == '_'
  }

  predicate IsOperator(c: char) {
    c in "+-*/%=<>!&|^~:?"
  }

  datatype Class = Space | Ident | Dec | Hex

  predicate In(k: Class, c: char) {
    match k
    case Space => IsSpace(c)
    case Ident => IsAlpha(c) || IsDigit(c)
    case Dec => IsDigit(c) || c == '_'
    case Hex => IsHexDigit(c) || c == '_'
  }

  // ---- what a token is ----

  /** How many leading characters belong to the class. */
  function Span(s: string, k: Class): (n: nat)
    ensures n <= |s|
    ensures forall i | 0 <= i < n :: In(k, s[i])
    ensures n < |s| ==> !In(k, s[n])
  {
    if s == [] || !In(k, s[0]) then 0 else 1 + Span(s[1..], k)
  }

  function Digit(c: char): nat
    requires IsHexDigit(c)
  {
    if IsDigit(c) then c as int - '0' as int
    else if 'a' <= c <= 'f' then c as int - 'a' as int + 10
    else c as int - 'A' as int + 10
  }

  predicate Spells(s: string) {
    forall i | 0 <= i < |s| :: In(Hex, s[i])
  }

  /** The span is the only length that fits its description. */
  lemma {:induction false} SpanIs(s: string, k: Class, n: nat)
    requires n <= |s| && forall i | 0 <= i < n :: In(k, s[i])
    requires n < |s| ==> !In(k, s[n])
    ensures Span(s, k) == n
  {
    if s != [] && In(k, s[0]) {
      SpanIs(s[1..], k, n - 1);
    }
  }

  function Shift(v: nat, base: nat): nat {
    if base == 16 then v * 16 else v * 10
  }

  /** The number a run of digits and underscores spells in base 10 or 16; underscores do not count. */
  function Number(s: string, base: nat): nat
    requires Spells(s)
  {
    if s == [] then 0
    else
      var front, last := s[..|s| - 1], s[|s| - 1];
      assert In(Hex, last);
      if last == '_' then Number(front, base) else Shift(Number(front, base), base) + Digit(last)
  }

  predicate HexPrefixed(s: string) {
    |s| >= 2 && s[0] == '0' && (s[1] == 'x' || s[1] == 'X')
  }

  function Checked(value: nat, overflow: LexError): Token {
    if value < 0x1_0000_0000 then Literal(value) else Error(overflow)
  }

  function KeywordOrName(name: string): Token {
    if name == "fn" then KwFn else if name == "let" then KwLet else Identifier(name)
  }

  function Mark(c: char): Token {
    if c == '(' then LParen
    else if c == ')' then RParen
    else if c == '{' then LBrace
    else if c == '}' then RBrace
    else if c == ';' then Semicolon
    else if c == ',' then Comma
    else if IsOperator(c) then Operator(c)
    else Error(UnexpectedCharacter)
  }

  /** The token a non-blank text starts with, and its length. */
  function First(s: string): (r: (Token, nat))
    requires s != []
    ensures r.1 <= |s|
  {
    if IsAlpha(s[0]) then
      (KeywordOrName(s[..Span(s, Ident)]), Span(s, Ident))
    else if HexPrefixed(s) then
      var n := Span(s[2..], Hex);
      (if n == 0 then Error(MalformedHex) else Checked(Number(s[2..2 + n], 16), HexOverflow), 2 + n)
    else if IsDigit(s[0]) then
      (Checked(Number(s[..Span(s, Dec)], 10), LiteralOverflow), Span(s, Dec))
    else
      (Mark(s[0]), 1)
  }

  /** The first token of a text and the characters up to its end. */
  function Lex(s: string): (r: (Token, nat))
    ensures r.1 <= |s|
  {
    var blank := Span(s, Space);
    if blank == |s| then (Eof, blank) else (First(s[blank..]).0, blank + First(s[blank..]).1)
  }

  /** Every token but the end of input consumes something, and the end of input consumes all there is. */
  lemma LexProgress(s: string)
    ensures Lex(s).0 != Eof ==> Lex(s).1 > 0
    ensures Lex(s).0 == Eof <==> forall c <- s :: IsSpace(c)
    ensures Lex(s).0 == Eof ==> Lex(s).1 == |s|
  {
    var blank := Span(s, Space);
    if blank < |s| {
      assert !IsSpace(s[blank]);
      FirstIsNotEof(s[blank..]);
    } else {
      assert forall c <- s :: IsSpace(c);
    }
  }

  lemma FirstIsNotEof(s: string)
    requires s != []
    ensures First(s).0 != Eof && First(s).1 > 0
  {
  }

  /** All tokens of a text, without the end-of-input mark. */
  function Tokens(s: string): seq<Token>
    decreases |s|
  {
    var r := Lex(s);
    if r.0 == Eof then []
    else
      LexProgress(s);
      [r.0] + Tokens(s[r.1..])
  }

  // ---- numbers only grow as digits are added ----

  lemma {:induction false} NumberMonotone(s: string, n: nat, base: nat)
    requires n <= |s| && Spells(s)
    ensures Number(s[..n], base) <= Number(s, base)
  {
    if n == |s| {
      assert s[..n] == s;
    } else {
      var front := s[..|s| - 1];
      assert front[..n] == s[..n];
      NumberMonotone(front, n, base);
      assert Number(s, base) >= Number(front, base);
    }
  }

  lemma {:induction false} NumberStep(s: string, n: nat, base: nat)
    requires n < |s| && Spells(s)
    ensures In(Hex, s[n])
    ensures Number(s[..n + 1], base)
         == if s[n] == '_' then Number(s[..n], base) else Shift(Number(s[..n], base), base) + Digit(s[n])
  {
    assert In(Hex, s[n]);
    assert s[..n + 1][..n] == s[..n];
  }

  function Newlines(s: string): nat {
    if s == [] then 0 else Newlines(s[..|s| - 1]) + (if s[|s| - 1] == '\n' then 1 else 0)
  }

  // ---- the streaming lexer ----

  class Lexer {
    const stream: string
    var cursor: nat
    var line: nat

    ghost predicate Valid()
      reads this
    {
      cursor <= |stream|
    }

    ghost function Ahead(): string
      reads this
      requires Valid()
    {
      stream[cursor..]
    }

    constructor (stream: string)
      ensures Valid() && this.stream == stream && Ahead() == stream && line == 1
    {
      this.stream := stream;
      cursor := 0;
      line := 1;
    }

    method NextToken() returns (t: Token)
      requires Valid()
      modifies this
      ensures Valid()
      ensures t == Lex(old(Ahead())).0
      ensures cursor == old(cursor) + Lex(old(Ahead())).1
      ensures line == old(line) + Newlines(old(Ahead())[..Span(old(Ahead()), Space)])
    {
      hide Span, First, Mark;
      ghost var text, blank := Ahead(), Span(Ahead(), Space);
      while cursor < |stream|
        invariant Valid() && old(cursor) <= cursor <= old(cursor) + blank
        invariant line == old(line) + Newlines(text[..cursor - old(cursor)])
        decreases |stream| - cursor
      {
        var b := stream[cursor];
        assert b == text[cursor - old(cursor)];
        assert text[..cursor - old(cursor) + 1][..cursor - old(cursor)] == text[..cursor - old(cursor)];
        if b == ' ' || b == '\t' || b == '\r' {
          cursor := cursor + 1;
        } else if b == '\n' {
          line := line + 1;
          cursor := cursor + 1;
        } else {
          assert text[blank..] == Ahead();
          if IsAlpha(b) {
            t := ParseIdentifier();
          } else if IsDigit(b) {
            t := ParseLiteral();
          } else {
            FirstMark(Ahead());
            cursor := cursor + 1;
            t := Mark(b);
          }
          return;
        }
      }
      return Eof;
    }

    method ParseIdentifier() returns (t: Token)
      requires Valid() && Ahead() != [] && IsAlpha(Ahead()[0])
      modifies this`cursor
      ensures Valid()
      ensures t == First(old(Ahead())).0 && cursor == old(cursor) + First(old(Ahead())).1
    {
      hide Span;
      ghost var text, length := Ahead(), Span(Ahead(), Ident);
      var start := cursor;
      while cursor < |stream|
        invariant Valid() && start <= cursor <= start + length
        decreases |stream| - cursor
      {
        var b := stream[cursor];
        assert b == text[cursor - start];
        if IsAlpha(b) || IsDigit(b) {
          cursor := cursor + 1;
        } else {
          break;
        }
      }
      var ident := stream[start..cursor];
      assert ident == text[..length];
      t := if ident == "fn" then KwFn else if ident == "let" then KwLet else Identifier(ident);
    }

    method ParseLiteral() returns (t: Token)
      requires Valid() && Ahead() != [] && IsDigit(Ahead()[0])
      modifies this`cursor
      ensures Valid()
      ensures t == First(old(Ahead())).0 && cursor == old(cursor) + First(old(Ahead())).1
    {
      hide Span, Number;
      ghost var text := Ahead();
      if stream[cursor] == '0' && cursor + 1 < |stream| && (stream[cursor + 1] == 'x' || stream[cursor + 1] == 'X') {
        cursor := cursor + 2;
        var digitsStart := cursor;
        assert HexPrefixed(text) && text[2..] == Ahead();
        ghost var n := Span(text[2..], Hex);
        var value := Accumulate(Hex, 16);
        assert text[2..2 + n] == text[2..][..n];
        if value.Overflowed? {
          NumberOfNothing(16);
          return Error(HexOverflow);
        }
        if cursor == digitsStart {
          return Error(MalformedHex);
        }
        return Literal(value.value);
      }
      assert !HexPrefixed(text);
      var value := Accumulate(Dec, 10);
      t := match value case Overflowed => Error(LiteralOverflow) case Fits(v) => Literal(v);
    }

    /**
     * The digit loop: checked multiply and add, underscores skipped, and on
     * overflow the rest of the run consumed so that errors do not cascade.
     */
    method Accumulate(k: Class, base: nat) returns (r: Accumulated)
      requires Valid() && ((k == Hex && base == 16) || (k == Dec && base == 10))
      modifies this`cursor
      ensures Valid() && cursor == old(cursor) + Span(old(Ahead()), k)
      ensures var digits := old(Ahead())[..Span(old(Ahead()), k)];
              Spells(digits) &&
              r == if Number(digits, base) < 0x1_0000_0000 then Fits(Number(digits, base)) else Overflowed
    {
      hide Span, Number;
      ghost var text, length := Ahead(), Span(Ahead(), k);
      ghost var digits := text[..length];
      var start := cursor;
      var value: u32 := 0;
      NumberOfNothing(base);
      while cursor < |stream|
        invariant Valid() && start <= cursor <= start + length && Spells(digits)
        invariant value == Number(digits[..cursor - start], base)
        decreases |stream| - cursor
      {
        var b := stream[cursor];
        assert b == text[cursor - start];
        if !In(k, b) {
          break;
        }
        NumberStep(digits, cursor - start, base);
        if b != '_' {
          if Shift(value, base) + Digit(b) >= 0x1_0000_0000 {
            NumberMonotone(digits, cursor - start + 1, base);
            while cursor < |stream| && In(k, stream[cursor])
              invariant Valid() && start <= cursor <= start + length
              decreases |stream| - cursor
            {
              assert stream[cursor] == text[cursor - start];
              cursor := cursor + 1;
            }
            assert cursor < |stream| ==> stream[cursor] == text[cursor - start];
            return Overflowed;
          }
          value := Shift(value, base) + Digit(b);
        }
        cursor := cursor + 1;
      }
      assert digits[..cursor - start] == digits;
      return Fits(value);
    }
  }

  datatype Accumulated = Fits(value: u32) | Overflowed

  lemma {:induction false} NumberOfNothing(base: nat)
    ensures Number([], base) == 0
  {
  }

  lemma FirstMark(s: string)
    requires s != [] && !IsAlpha(s[0]) && !IsDigit(s[0])
    ensures First(s) == (Mark(s[0]), 1)
  {
  }
}
