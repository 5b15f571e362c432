/**
 * Tokens written out as text.  A token may be spelled in every way the lexer
 * knows, and blanks may be left out wherever the neighbouring texts cannot run
 * together; lexing the text gives the tokens back.
 */
module Spelling {
  import opened Lexing
  import opened Uart

  /** On its own the word is exactly that token. */
  predicate Writes(t: Token, word: string) {
    !t.Error? && word != "" && !IsSpace(word[0]) && First(word) == (t, |word|)
  }

  predicate WriteAll(toks: seq<Token>, words: seq<string>) {
    |words| == |toks| && forall i | 0 <= i < |toks| :: Writes(toks[i], words[i])
  }

  predicate StartsIn(k: Class, rest: string) {
    rest != "" && In(k, rest[0])
  }

  /** What follows cannot be taken for a continuation of the word. */
  predicate Apart(word: string, rest: string)
    requires word != ""
  {
    if IsAlpha(word[0]) then !StartsIn(Ident, rest)
    else if HexPrefixed(word) then !StartsIn(Hex, rest)
    else if IsDigit(word[0]) then
      !StartsIn(Dec, rest) && (word == "0" && rest != "" ==> rest[0] != 'x' && rest[0] != 'X')
    else true
  }

  predicate Blank(gap: string) {
    forall i | 0 <= i < |gap| :: IsSpace(gap[i])
  }

  /** Each word behind its gap, and then the tail. */
  function Spell(words: seq<string>, gaps: seq<string>, tail: string): string
    requires |gaps| == |words|
  {
    if words == [] then tail else gaps[0] + (words[0] + Spell(words[1..], gaps[1..], tail))
  }

  /** Gaps are blank, and empty only where the words around them stay apart. */
  predicate Separated(words: seq<string>, gaps: seq<string>, tail: string)
    requires |gaps| == |words|
  {
    words == [] ||
    (Blank(gaps[0]) && words[0] != "" && Apart(words[0], Spell(words[1..], gaps[1..], tail)) &&
     Separated(words[1..], gaps[1..], tail))
  }

  // ---- one character ----

  /** The characters of names, by their codes. */
  lemma NameCharacters(c: char)
    ensures IsAlpha(c) <==> 65 <= c as int <= 90 || 97 <= c as int <= 122 || c as int == 95
    ensures In(Ident, c) <==> IsAlpha(c) || 48 <= c as int <= 57
  {
  }

  /** What a character that starts neither a name nor a number is read as. */
  lemma MarkCharacters(c: char)
    requires !IsAlpha(c) && !IsDigit(c)
    ensures Lex([c]).0
         == if c as int in {9, 10, 13, 32} then Eof
            else if c as int == 40 then LParen
            else if c as int == 41 then RParen
            else if c as int == 44 then Comma
            else if c as int == 59 then Semicolon
            else if c as int == 123 then LBrace
            else if c as int == 125 then RBrace
            else if c as int in {33, 37, 38, 42, 43, 45, 47, 58, 60, 61, 62, 63, 94, 124, 126} then Operator(c)
            else Error(UnexpectedCharacter)
  {
    hide First, Span;
    var s := [c];
    SpanIs(s, Space, if IsSpace(c) then 1 else 0);
    assert s[0..] == s;
    FirstMark(s);
  }

  // ---- one word ----

  lemma NameReads(t: Token, word: string, rest: string)
    requires Writes(t, word) && IsAlpha(word[0])
    ensures First(word + rest) == (t, |word|) <==> !StartsIn(Ident, rest)
  {
    hide Span;
    var text := word + rest;
    assert word[..|word|] == word && text[..|word|] == word;
    if StartsIn(Ident, rest) {
      assert text[|word|] == rest[0];
    } else {
      SpanOfPrefix(word, rest, Ident);
    }
  }

  lemma HexReads(t: Token, word: string, rest: string)
    requires Writes(t, word) && !IsAlpha(word[0]) && HexPrefixed(word)
    ensures First(word + rest) == (t, |word|) <==> !StartsIn(Hex, rest)
  {
    hide Span, Number;
    var text, digits := word + rest, word[2..];
    assert HexPrefixed(text) && text[2..] == digits + rest;
    assert word[2..2 + |digits|] == digits && text[2..2 + |digits|] == digits;
    if StartsIn(Hex, rest) {
      assert text[2..][|digits|] == rest[0];
    } else {
      SpanOfPrefix(digits, rest, Hex);
    }
  }

  lemma DecimalReads(t: Token, word: string, rest: string)
    requires Writes(t, word) && IsDigit(word[0]) && !HexPrefixed(word)
    ensures First(word + rest) == (t, |word|) <==> Apart(word, rest)
  {
    hide Span, Number;
    var text := word + rest;
    assert word[..|word|] == word && text[..|word|] == word;
    if HexPrefixed(text) {
      assert |word| == 1 && rest[0] == text[1];
      assert word == "0";
    } else if StartsIn(Dec, rest) {
      assert text[|word|] == rest[0];
    } else {
      assert word == "0" && rest != "" ==> text[1] == rest[0];
      SpanOfPrefix(word, rest, Dec);
    }
  }

  lemma MarkReads(t: Token, word: string, rest: string)
    requires Writes(t, word) && !IsAlpha(word[0]) && !IsDigit(word[0])
    ensures First(word + rest) == (t, |word|)
  {
    hide Mark;
    FirstMark(word);
    FirstMark(word + rest);
  }

  /** A word is read as its token exactly when what follows keeps apart from it. */
  lemma WordReads(t: Token, word: string, rest: string)
    requires Writes(t, word)
    ensures First(word + rest) == (t, |word|) <==> Apart(word, rest)
  {
    hide First, HexPrefixed;
    if IsAlpha(word[0]) {
      NameReads(t, word, rest);
    } else if IsDigit(word[0]) {
      if HexPrefixed(word) {
        HexReads(t, word, rest);
      } else {
        DecimalReads(t, word, rest);
      }
    } else {
      HexStartsWithDigit(word);
      MarkReads(t, word, rest);
    }
  }

  lemma HexStartsWithDigit(word: string)
    ensures HexPrefixed(word) ==> IsDigit(word[0])
  {
  }

  lemma WordLexes(t: Token, word: string, rest: string)
    requires Writes(t, word) && Apart(word, rest)
    ensures Lex(word + rest) == (t, |word|)
  {
    hide Span, First, Apart;
    WordReads(t, word, rest);
    SpanIs(word + rest, Space, 0);
    assert (word + rest)[0..] == word + rest;
  }

  lemma LexAfterGap(gap: string, s: string)
    requires Blank(gap)
    ensures Lex(gap + s) == (Lex(s).0, |gap| + Lex(s).1)
  {
    hide First, Span;
    var blank := Span(s, Space);
    var text := gap + s;
    assert forall i | 0 <= i < |gap| + blank :: text[i] == if i < |gap| then gap[i] else s[i - |gap|];
    assert |gap| + blank < |text| ==> text[|gap| + blank] == s[blank];
    SpanIs(text, Space, |gap| + blank);
    assert text[|gap| + blank..] == s[blank..];
  }

  lemma {:induction false} GapSkipped(gap: string, s: string)
    requires Blank(gap)
    ensures Tokens(gap + s) == Tokens(s)
  {
    hide Lex;
    LexAfterGap(gap, s);
    assert (gap + s)[|gap| + Lex(s).1..] == s[Lex(s).1..];
  }

  lemma {:induction false} FirstSpelled(t: Token, gap: string, word: string, more: string)
    requires Writes(t, word) && Blank(gap) && Apart(word, more)
    ensures Tokens(gap + (word + more)) == [t] + Tokens(more)
  {
    hide Lex, Span, First, Apart;
    GapSkipped(gap, word + more);
    WordLexes(t, word, more);
    NotTheEnd(t, word);
    assert (word + more)[|word|..] == more;
  }

  lemma NotTheEnd(t: Token, word: string)
    requires Writes(t, word)
    ensures t != Eof
  {
    hide First;
    FirstIsNotEof(word);
  }

  // ---- all words ----

  /** Lexing undoes writing out: the tokens written, and then those of the tail. */
  lemma {:induction false} SpellLexes(toks: seq<Token>, words: seq<string>, gaps: seq<string>, tail: string)
    requires WriteAll(toks, words) && |gaps| == |words| && Separated(words, gaps, tail)
    ensures Tokens(Spell(words, gaps, tail)) == toks + Tokens(tail)
    decreases |toks|
  {
    if toks == [] {
      assert toks + Tokens(tail) == Tokens(tail);
    } else {
      hide Tokens, Writes, Apart, Blank, Spell, Separated;
      var more := Spell(words[1..], gaps[1..], tail);
      SpellStarts(words, gaps, tail);
      FirstSpelled(toks[0], gaps[0], words[0], more);
      SpellLexes(toks[1..], words[1..], gaps[1..], tail);
      HeadAndRest(toks, Tokens(tail));
    }
  }

  lemma {:induction false} SpellStarts(words: seq<string>, gaps: seq<string>, tail: string)
    requires words != [] && |gaps| == |words| && Separated(words, gaps, tail)
    ensures var more := Spell(words[1..], gaps[1..], tail);
            Spell(words, gaps, tail) == gaps[0] + (words[0] + more) && Separated(words[1..], gaps[1..], tail) &&
            Blank(gaps[0]) && words[0] != "" && Apart(words[0], more)
  {
    hide Apart, Blank;
  }

  lemma HeadAndRest(toks: seq<Token>, more: seq<Token>)
    requires toks != []
    ensures [toks[0]] + (toks[1..] + more) == toks + more
  {
  }

  // ---- there are spellings ----

  predicate IsName(id: string) {
    id != [] && IsAlpha(id[0]) && (forall i | 0 <= i < |id| :: In(Ident, id[i])) && id != "fn" && id != "let"
  }

  lemma NamesAreWords(id: string)
    requires IsName(id)
    ensures Writes(Identifier(id), id)
  {
    hide Span;
    SpanIs(id, Ident, |id|);
    assert id[..|id|] == id;
  }

  /** Both prints of a number are spellings of it. */
  lemma {:induction false} PrintsAreWords(n: u32)
    ensures Writes(Literal(n), Decimal(n)) && Writes(Literal(n), Hexadecimal(n))
  {
    hide Lex, Decimal, HexDigits;
    DecimalSpells(n);
    DecimalLexes(n, "");
    HexadecimalLexes(n, "");
    assert Decimal(n) + "" == Decimal(n) && Hexadecimal(n) + "" == Hexadecimal(n);
    LexIsFirst(Decimal(n));
    LexIsFirst(Hexadecimal(n));
    PowersOfSixteen();
    HexDigitsSpell(n, 8);
  }

  lemma LexIsFirst(s: string)
    requires s != "" && !IsSpace(s[0])
    ensures First(s) == Lex(s)
  {
    hide Span, First;
    SpanIs(s, Space, 0);
    assert s[0..] == s;
  }

  /** The tokens that can be written at all. */
  predicate Printable(t: Token) {
    match t
    case Identifier(name) => IsName(name)
    case Operator(op) => IsOperator(op)
    case Error(_) => false
    case Eof => false
    case _ => true
  }

  predicate AllPrintable(toks: seq<Token>) {
    forall i | 0 <= i < |toks| :: Printable(toks[i])
  }

  /** One spelling of each token; numbers in decimal. */
  function WordOf(t: Token): string
    requires Printable(t)
  {
    match t
    case KwFn => "fn"
    case KwLet => "let"
    case Identifier(name) => name
    case Operator(op) => [op]
    case Literal(v) => Decimal(v)
    case LParen => "("
    case RParen => ")"
    case LBrace => "{"
    case RBrace => "}"
    case Semicolon => ";"
    case Comma => ","
  }

  lemma WordOfWrites(t: Token)
    requires Printable(t)
    ensures Writes(t, WordOf(t))
  {
    hide Decimal, IsName, Number;
    match t
    case KwFn => KeywordsAreWords();
    case KwLet => KeywordsAreWords();
    case Identifier(name) => NamesAreWords(name);
    case Literal(v) => PrintsAreWords(v);
    case _ => MarksAreWords(t);
  }

  lemma KeywordsAreWords()
    ensures Writes(KwFn, "fn") && Writes(KwLet, "let")
  {
    hide Span;
    SpanIs("fn", Ident, 2);
    SpanIs("let", Ident, 3);
    assert "fn"[..2] == "fn" && "let"[..3] == "let";
  }

  lemma MarksAreWords(t: Token)
    requires Printable(t) && !t.KwFn? && !t.KwLet? && !t.Identifier? && !t.Literal?
    ensures Writes(t, WordOf(t))
  {
    hide First, Mark;
    var word := WordOf(t);
    MarkOf(t);
    FirstMark(word);
  }

  lemma MarkOf(t: Token)
    requires Printable(t) && !t.KwFn? && !t.KwLet? && !t.Identifier? && !t.Literal?
    ensures var c := WordOf(t)[0];
            |WordOf(t)| == 1 && Mark(c) == t && !IsSpace(c) && !IsAlpha(c) && !IsDigit(c)
  {
  }

  /** A blank, a mark or the end keeps any word apart from what follows. */
  lemma BreakKeepsApart(word: string, rest: string)
    requires word != "" && Breaks(rest)
    ensures Apart(word, rest)
  {
  }

  /** Printable tokens have a text: one word each, a blank before each. */
  lemma {:induction false} TextExists(toks: seq<Token>) returns (words: seq<string>, gaps: seq<string>)
    requires AllPrintable(toks)
    ensures WriteAll(toks, words) && |gaps| == |words| && Separated(words, gaps, "")
    ensures Breaks(Spell(words, gaps, ""))
    decreases |toks|
  {
    words, gaps := [], [];
    if toks != [] {
      hide Printable, Writes, WordOf, Apart;
      var more, rest := TextExists(toks[1..]);
      var word := WordOf(toks[0]);
      WordOfWrites(toks[0]);
      WritesSomething(toks[0], word);
      words, gaps := [word] + more, [" "] + rest;
      assert words[1..] == more && gaps[1..] == rest;
      BreakKeepsApart(word, Spell(more, rest, ""));
      assert Spell(words, gaps, "")[0] == ' ';
    }
  }

  lemma WritesSomething(t: Token, word: string)
    requires Writes(t, word)
    ensures word != ""
  {
  }
}
