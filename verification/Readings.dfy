/**
 * The converse of writing lines out: whatever line is accepted was written from
 * parts, so the lines of `Lines` are all the lines there are.
 */
module Readings {
  import opened Wrappers
  import opened Machine
  import opened Lexing
  import opened Grammar
  import opened Spelling
  import opened Expressions
  import opened Lines

  /** What the lexer hands out: no end mark, and no name that is a keyword. */
  predicate Lexed(t: Token) {
    t != Eof && (t.Identifier? ==> IsName(t.name))
  }

  predicate AllLexed(toks: seq<Token>) {
    forall i | 0 <= i < |toks| :: Lexed(toks[i])
  }

  lemma FirstIsLexed(s: string)
    requires s != ""
    ensures Lexed(First(s).0)
  {
    hide Number;
  }

  lemma {:induction false} TokensAreLexed(s: string)
    ensures AllLexed(Tokens(s))
    decreases |s|
  {
    hide First, Span, Lexed;
    LexProgress(s);
    if Lex(s).0 != Eof {
      FirstIsLexed(s[Span(s, Space)..]);
      TokensAreLexed(s[Lex(s).1..]);
    }
  }

  // ---- expressions ----

  lemma StillLexed(all: seq<Token>, front: seq<Token>, rest: seq<Token>)
    requires AllLexed(all) && all == front + rest
    ensures AllLexed(rest)
  {
    hide Lexed;
    forall i | 0 <= i < |rest|
      ensures Lexed(rest[i])
    {
      assert rest[i] == all[|front| + i];
    }
  }

  /** What an operand that parses consists of. */
  lemma {:induction false} OperandCases(sc: Scope, head: Token, toks: seq<Token>, trace: Trace)
    requires Operand(sc, head, toks, trace).Good?
    ensures var rest := Operand(sc, head, toks, trace).toks;
            match head
            case LParen =>
              toks != [] && Expr(sc, Head(toks), Rest(toks), trace).Good? &&
              Expr(sc, Head(toks), Rest(toks), trace).toks == [RParen] + rest
            case Literal(_) => rest == toks
            case Identifier(id) =>
              if VerbOf(id) != PeekVerb then rest == toks
              else
                toks != [] && Operand(sc, Head(toks), Rest(toks), trace).Good? &&
                Operand(sc, Head(toks), Rest(toks), trace).toks == rest
            case _ => false
  {
    hide VerbOf;
  }

  /** The text of an operand is a term, and what it leaves is still from the lexer. */
  lemma {:induction false} TermRead(sc: Scope, head: Token, toks: seq<Token>, trace: Trace) returns (t: Term)
    requires AllLexed([head] + toks) && Operand(sc, head, toks, trace).Good?
    ensures var rest := Operand(sc, head, toks, trace).toks;
            TermOk(t) && [head] + toks == TermToks(t) + rest && AllLexed(rest)
    decreases |toks|, 1
  {
    hide IsName, Operand, Expr, VerbOf;
    var rest := Operand(sc, head, toks, trace).toks;
    OperandCases(sc, head, toks, trace);
    assert Lexed(([head] + toks)[0]);
    StillLexed([head] + toks, [head], toks);
    match head {
      case LParen =>
        assert [Head(toks)] + Rest(toks) == toks;
        var e := TreeRead(sc, Head(toks), Rest(toks), trace);
        t := Group(e);
      case Literal(v) => t := Num(v);
      case Identifier(id) =>
        if VerbOf(id) == PeekVerb {
          assert [Head(toks)] + Rest(toks) == toks;
          var a := TermRead(sc, Head(toks), Rest(toks), trace);
          t := PeekAt(a);
          PeekWord(id);
        } else {
          t := Name(id);
        }
    }
    StillLexed([head] + toks, TermToks(t), rest);
  }

  lemma PeekWord(id: string)
    ensures VerbOf(id) == PeekVerb <==> id == "peek"
  {
  }

  lemma {:induction false} TreeRead(sc: Scope, head: Token, toks: seq<Token>, trace: Trace) returns (e: Tree)
    requires AllLexed([head] + toks) && Expr(sc, head, toks, trace).Good?
    ensures var rest := Expr(sc, head, toks, trace).toks;
            TreeOk(e) && [head] + toks == TreeToks(e) + rest && AllLexed(rest)
    decreases |toks|, 2
  {
    hide Operand;
    var first := TermRead(sc, head, toks, trace);
    var r := Operand(sc, head, toks, trace);
    e := TailRead(sc, One(first), r.value, r.toks, r.trace);
  }

  lemma {:induction false} TailRead(sc: Scope, front: Tree, acc: Word, toks: seq<Token>, trace: Trace)
      returns (e: Tree)
    requires TreeOk(front) && AllLexed(toks) && Tail(sc, acc, toks, trace).Good?
    ensures var rest := Tail(sc, acc, toks, trace).toks;
            TreeOk(e) && TreeToks(front) + toks == TreeToks(e) + rest && AllLexed(rest)
    decreases |toks|, 0
  {
    hide Operand, Tail, TermToks, TermOk, Apply, Lexed;
    e := front;
    TailCases(sc, acc, toks, trace);
    if IsBinary(Head(toks)) {
      var ahead := toks[1..];
      assert [ahead[0]] + ahead[1..] == ahead;
      StillLexed(toks, [toks[0]], ahead);
      var t := TermRead(sc, ahead[0], ahead[1..], trace);
      var r := Operand(sc, ahead[0], ahead[1..], trace);
      var w := Apply(toks[0].op, acc, r.value).value;
      MoreTokens(front, toks, t, r.toks);
      e := TailRead(sc, More(front, OpOf(toks[0]), t), w, r.toks, r.trace);
    }
  }

  /** What the tail of an expression that parses consists of. */
  lemma {:induction false} TailCases(sc: Scope, acc: Word, toks: seq<Token>, trace: Trace)
    requires Tail(sc, acc, toks, trace).Good?
    ensures if !IsBinary(Head(toks)) then Tail(sc, acc, toks, trace).toks == toks
            else
              |toks| >= 2 &&
              var r := Operand(sc, toks[1], toks[2..], trace);
              r.Good? && Apply(toks[0].op, acc, r.value).Ok? &&
              Tail(sc, acc, toks, trace) == Tail(sc, Apply(toks[0].op, acc, r.value).value, r.toks, r.trace)
  {
    hide Operand, Apply;
    if IsBinary(Head(toks)) {
      var ahead := toks[1..];
      assert ahead != [] ==> ahead[1..] == toks[2..];
    }
  }

  lemma {:induction false} MoreTokens(front: Tree, toks: seq<Token>, t: Term, rest: seq<Token>)
    requires toks != [] && IsBinary(toks[0]) && toks[1..] == TermToks(t) + rest
    ensures TreeToks(front) + toks == TreeToks(More(front, OpOf(toks[0]), t)) + rest
  {
    hide TermToks;
    var op := [Operator(OpChar(OpOf(toks[0])))];
    assert toks == op + (TermToks(t) + rest);
    assert TreeToks(front) + (op + (TermToks(t) + rest)) == TreeToks(front) + op + TermToks(t) + rest;
  }

  function OpOf(t: Token): (op: BinOp)
    requires IsBinary(t)
    ensures t == Operator(OpChar(op))
  {
    if t.op == '+' then Plus
    else if t.op == '-' then Minus
    else if t.op == '*' then Times
    else if t.op == '/' then Over
    else Rem
  }

  /** Expressions and atomic terms at the head of some tokens. */
  lemma WholeRead(sc: Scope, toks: seq<Token>, trace: Trace) returns (e: Tree)
    requires AllLexed(toks) && Whole(sc, toks, trace).Good?
    ensures var rest := Whole(sc, toks, trace).toks; TreeOk(e) && toks == TreeToks(e) + rest && AllLexed(rest)
  {
    hide Expr;
    assert [Head(toks)] + Rest(toks) == toks;
    e := TreeRead(sc, Head(toks), Rest(toks), trace);
  }

  lemma AtomRead(sc: Scope, toks: seq<Token>, trace: Trace) returns (t: Term)
    requires AllLexed(toks) && Atomic(sc, toks, trace).Good?
    ensures var rest := Atomic(sc, toks, trace).toks; TermOk(t) && toks == TermToks(t) + rest && AllLexed(rest)
  {
    hide Operand;
    assert [Head(toks)] + Rest(toks) == toks;
    t := TermRead(sc, Head(toks), Rest(toks), trace);
  }

  // ---- operands ----

  lemma PairRead(sc: Scope, toks: seq<Token>, trace: Trace) returns (addr: Term, value: Tree, end: seq<Token>)
    requires AllLexed(toks) && AddrAndValue(sc, toks, trace).Good?
    ensures TermOk(addr) && TreeOk(value) && toks == TermToks(addr) + (TreeToks(value) + end)
    ensures Ends(end) && Rest(end) == AddrAndValue(sc, toks, trace).toks && AllLexed(end)
  {
    hide Atomic, Whole, Lexed;
    addr := AtomRead(sc, toks, trace);
    var a := Atomic(sc, toks, trace);
    value := WholeRead(sc, a.toks, a.trace);
    end := Whole(sc, a.toks, a.trace).toks;
  }

  lemma AddrRead(sc: Scope, toks: seq<Token>, trace: Trace) returns (addr: Term, end: seq<Token>)
    requires AllLexed(toks) && Addr(sc, toks, trace).Good?
    ensures TermOk(addr) && toks == TermToks(addr) + end
    ensures Ends(end) && Rest(end) == Addr(sc, toks, trace).toks && AllLexed(end)
  {
    hide Atomic, Lexed;
    addr := AtomRead(sc, toks, trace);
    end := Atomic(sc, toks, trace).toks;
  }

  lemma AtomsRead(sc: Scope, toks: seq<Token>, trace: Trace) returns (addr: Term, bit: Term, end: seq<Token>)
    requires AllLexed(toks) && TwoAtoms(sc, toks, trace).Good?
    ensures TermOk(addr) && TermOk(bit) && toks == TermToks(addr) + (TermToks(bit) + end) && Ends(end)
  {
    hide Atomic, Lexed;
    addr := AtomRead(sc, toks, trace);
    var a := Atomic(sc, toks, trace);
    bit := AtomRead(sc, a.toks, a.trace);
    end := Atomic(sc, a.toks, a.trace).toks;
  }

  // ---- bodies ----

  /** The first token tells how an expression starts. */
  lemma {:induction false} LeadRead(e: Tree)
    requires TreeOk(e)
    ensures var first := TreeToks(e)[0];
            if first.Identifier? && VerbOf(first.name) != PeekVerb then LeadsWith(e, first.name)
            else first.Identifier? || first.Literal? || first == LParen
    ensures var first := TreeToks(e)[0];
            (first.Identifier? ==> VerbOf(first.name) == NoVerb) ==> StartsFree(e)
  {
    hide IsName;
    match e
    case One(t) => PeekWord("peek");
    case More(front, _, _) => LeadRead(front);
  }

  lemma SourceRead(sc: Scope, toks: seq<Token>, trace: Trace) returns (s: Source, end: seq<Token>)
    requires AllLexed(toks) && BodyStmt(sc, toks, trace).Good?
    ensures Ends(end) && AllLexed(end) && Rest(end) == BodyStmt(sc, toks, trace).toks
    ensures SourceOk(s) && (end != [] ==> toks == SourceToks(s) + end[1..])
  {
    hide AddrAndValue, Addr, CallOrExpr, VerbOf, IsName, TermToks, TreeToks, TermOk, TreeOk;
    var id, more := toks[0].name, Rest(toks);
    assert toks == [Identifier(id)] + more;
    assert Lexed(toks[0]);
    StillLexed(toks, [Identifier(id)], more);
    VerbNames(id);
    if VerbOf(id) == PokeVerb {
      var addr, value, rest := PairRead(sc, more, trace);
      s, end := Store(addr, value), rest;
      CloseSource([Identifier("poke")] + (TermToks(addr) + TreeToks(value)), end);
    } else if VerbOf(id) == PeekVerb {
      var addr, rest := AddrRead(sc, more, trace);
      s, end := Load(addr), rest;
      CloseSource([Identifier("peek")] + TermToks(addr), end);
    } else {
      s, end := CallOrExprRead(sc, id, more, trace);
    }
  }

  lemma CloseSource(front: seq<Token>, end: seq<Token>)
    requires Ends(end) && AllLexed(end)
    ensures end != [] ==> front + end == front + (END + end[1..])
  {
    if end != [] {
      assert Lexed(end[0]);
      assert end == END + end[1..];
    }
  }

  lemma VerbNames(id: string)
    ensures VerbOf(id) == PokeVerb <==> id == "poke"
    ensures VerbOf(id) == PeekVerb <==> id == "peek"
  {
  }

  lemma CallOrExprRead(sc: Scope, id: string, toks: seq<Token>, trace: Trace) returns (s: Source, end: seq<Token>)
    requires AllLexed([Identifier(id)] + toks) && CallOrExpr(sc, id, toks, trace).Good?
    requires VerbOf(id) != PeekVerb && VerbOf(id) != PokeVerb
    ensures Ends(end) && AllLexed(end) && Rest(end) == CallOrExpr(sc, id, toks, trace).toks
    ensures SourceOk(s) && (end != [] ==> [Identifier(id)] + toks == SourceToks(s) + end[1..])
  {
    hide Expr, VerbOf, IsName, TreeToks, TreeOk;
    var all := [Identifier(id)] + toks;
    assert Lexed(all[0]);
    if Head(toks) == LParen {
      s, end := Invoke(id), Rest(Rest(toks));
      assert all == [Identifier(id), LParen, RParen] + end;
      StillLexed(all, [Identifier(id), LParen, RParen], end);
      CloseSource([Identifier(id), LParen, RParen], end);
    } else {
      var e := TreeRead(sc, Identifier(id), toks, trace);
      end := Expr(sc, Identifier(id), toks, trace).toks;
      s := Idle(id, e);
      assert TreeToks(e)[0] == all[0];
      LeadRead(e);
      CloseSource(TreeToks(e), end);
    }
  }

  /** A body that compiles was written as statements. */
  lemma {:induction false} BodyRead(sc: Scope, g: Guard, fns: seq<Fn>, toks: seq<Token>, body: Body, trace: Trace)
      returns (src: seq<Source>)
    requires AllLexed(toks) && BodyStmts(sc, g, fns, toks, body, trace).Good?
    ensures BodyOk(src) && toks == BodyToks(src) + BodyStmts(sc, g, fns, toks, body, trace).toks
    decreases |toks|
  {
    hide BodyStmt, Grammar.Emitted, SourceToks, SourceOk, Lexed;
    if Head(toks) == RBrace {
      src := [];
      assert toks == [RBrace] + Rest(toks);
    } else {
      var s, end := SourceRead(sc, toks, trace);
      var next := NextStmt(sc, g, fns, toks, body, trace);
      assert next.toks == Rest(end);
      StillLexed(end, if end == [] then [] else [end[0]], Rest(end));
      var more := BodyRead(sc, g, fns, next.toks, next.value, next.trace);
      src := [s] + more;
      assert end != [];
      assert src[1..] == more;
      assert SourceToks(s) + (BodyToks(more) + BodyStmts(sc, g, fns, toks, body, trace).toks)
          == BodyToks(src) + BodyStmts(sc, g, fns, toks, body, trace).toks;
    }
  }

  // ---- lines ----

  lemma LetRead(sc: Scope, st: State, toks: seq<Token>, trace: Trace) returns (l: Line, end: seq<Token>)
    requires AllLexed(toks) && ParseLet(sc, st, toks, trace).result.Ok?
    ensures LineOk(l) && [KwLet] + toks == LineToks(l) + end && MayFollow(l, end)
  {
    hide Whole, IsName, TreeToks, TreeOk;
    var name, behind := toks[0].name, Rest(Rest(toks));
    assert Lexed(toks[0]);
    assert toks == [Identifier(name), Operator('=')] + behind;
    StillLexed(toks, [Identifier(name), Operator('=')], behind);
    var e := WholeRead(sc, behind, trace);
    l, end := Let(name, e), Whole(sc, behind, trace).toks;
  }

  lemma FnRead(sc: Scope, g: Guard, st: State, toks: seq<Token>, trace: Trace) returns (l: Line, end: seq<Token>)
    requires AllLexed(toks) && ParseFn(sc, g, st, toks, trace).result.Ok?
    ensures LineOk(l) && [KwFn] + toks == LineToks(l) + end && MayFollow(l, end)
  {
    hide BodyStmts, DefineFn, IsName, BodyToks, BodyOk;
    var name, behind := toks[0].name, toks[4..];
    assert Lexed(toks[0]);
    assert toks == [Identifier(name), LParen, RParen, LBrace] + behind;
    StillLexed(toks, [Identifier(name), LParen, RParen, LBrace], behind);
    var src := BodyRead(sc, g, st.fns, behind, Body([], []), trace);
    l, end := Define(name, src), BodyStmts(sc, g, st.fns, behind, Body([], []), trace).toks;
  }

  lemma PokeLineRead(sc: Scope, g: Guard, st: State, toks: seq<Token>, trace: Trace) returns (l: Line, end: seq<Token>)
    requires AllLexed(toks) && AddrAndValue(sc, toks, trace).Good?
    ensures LineOk(l) && [Identifier("poke")] + toks == LineToks(l) + end && MayFollow(l, end)
  {
    hide AddrAndValue, TermToks, TreeToks, TermOk, TreeOk;
    var addr, value, rest := PairRead(sc, toks, trace);
    l, end := Poke(addr, value), rest;
  }

  lemma PeekLineRead(sc: Scope, g: Guard, st: State, toks: seq<Token>, trace: Trace) returns (l: Line, end: seq<Token>)
    requires AllLexed(toks) && Addr(sc, toks, trace).Good?
    ensures LineOk(l) && [Identifier("peek")] + toks == LineToks(l) + end && MayFollow(l, end)
  {
    hide Addr, TermToks, TermOk;
    var addr, rest := AddrRead(sc, toks, trace);
    l, end := Peek(addr), rest;
  }

  lemma BitLineRead(sc: Scope, up: bool, toks: seq<Token>, trace: Trace) returns (l: Line, end: seq<Token>)
    requires AllLexed(toks) && TwoAtoms(sc, toks, trace).Good?
    ensures LineOk(l) && MayFollow(l, end)
    ensures [Identifier(if up then "reg_set_bit" else "reg_clr_bit")] + toks == LineToks(l) + end
  {
    hide TwoAtoms, TermToks, TermOk;
    var addr, bit, rest := AtomsRead(sc, toks, trace);
    l, end := ChangeBit(up, addr, bit), rest;
  }

  lemma NameLineRead(st: State, claim: bool, toks: seq<Token>, trace: Trace) returns (l: Line, end: seq<Token>)
    requires AllLexed(toks) && NameLine(st, toks, trace, claim).result.Ok?
    ensures LineOk(l) && MayFollow(l, end)
    ensures [Identifier(if claim then "cap_claim" else "cap_drop")] + toks == LineToks(l) + end
  {
    hide IsName;
    assert Lexed(toks[0]);
    l, end := if claim then Claim(toks[0].name) else Drop(toks[0].name), Rest(toks);
    assert toks == [toks[0]] + end;
  }

  lemma OtherLineRead(sc: Scope, st: State, id: string, toks: seq<Token>, trace: Trace)
      returns (l: Line, end: seq<Token>)
    requires AllLexed([Identifier(id)] + toks) && VerbOf(id) == NoVerb && OtherLine(sc, st, id, toks, trace).result.Ok?
    ensures LineOk(l) && [Identifier(id)] + toks == LineToks(l) + end && MayFollow(l, end)
  {
    hide Expr, CallOutcome, VerbOf, IsName, TreeToks, TreeOk;
    var all := [Identifier(id)] + toks;
    assert Lexed(all[0]);
    if Head(toks) == LParen {
      l, end := Call(id), Rest(Rest(toks));
      assert all == [Identifier(id), LParen, RParen] + end;
    } else {
      l, end := ShowRead(sc, Identifier(id), toks, trace);
    }
  }

  lemma ShowRead(sc: Scope, head: Token, toks: seq<Token>, trace: Trace) returns (l: Line, end: seq<Token>)
    requires AllLexed([head] + toks) && Expr(sc, head, toks, trace).Good?
    requires Ends(Expr(sc, head, toks, trace).toks) && (head.Identifier? ==> VerbOf(head.name) == NoVerb)
    ensures LineOk(l) && [head] + toks == LineToks(l) + end && MayFollow(l, end)
  {
    hide Expr, VerbOf, TreeToks, TreeOk;
    var e := TreeRead(sc, head, toks, trace);
    end := Expr(sc, head, toks, trace).toks;
    l := Show(e);
    assert TreeToks(e)[0] == ([head] + toks)[0];
    LeadRead(e);
  }

  /** A command word determines the verb, and the other way round. */
  lemma VerbWord(id: string)
    ensures match VerbOf(id)
            case PeekVerb => id == "peek"
            case PokeVerb => id == "poke"
            case ClaimVerb => id == "cap_claim"
            case DropVerb => id == "cap_drop"
            case SetBitVerb => id == "reg_set_bit"
            case ClrBitVerb => id == "reg_clr_bit"
            case HelpVerb => id == "help"
            case BannerVerb => id == "banner"
            case AuditVerb => id == "sys_audit"
            case NoVerb => true
  {
  }

  lemma CommandRead(sc: Scope, g: Guard, st: State, id: string, toks: seq<Token>, trace: Trace)
      returns (l: Line, end: seq<Token>)
    requires AllLexed([Identifier(id)] + toks) && ParseCommand(sc, g, st, id, toks, trace).result.Ok?
    ensures LineOk(l) && [Identifier(id)] + toks == LineToks(l) + end && MayFollow(l, end)
  {
    hide VerbOf, NameLine, OtherLine, AddrAndValue, Addr, TwoAtoms, Admits, Lexed;
    VerbWord(id);
    StillLexed([Identifier(id)] + toks, [Identifier(id)], toks);
    match VerbOf(id)
    case PeekVerb => l, end := PeekLineRead(sc, g, st, toks, trace);
    case PokeVerb => l, end := PokeLineRead(sc, g, st, toks, trace);
    case ClaimVerb => l, end := NameLineRead(st, true, toks, trace);
    case DropVerb => l, end := NameLineRead(st, false, toks, trace);
    case SetBitVerb => l, end := BitLineRead(sc, true, toks, trace);
    case ClrBitVerb => l, end := BitLineRead(sc, false, toks, trace);
    case HelpVerb => l, end := AskHelp, toks;
    case BannerVerb => l, end := AskBanner, toks;
    case AuditVerb => l, end := AskAudit, toks;
    case NoVerb => l, end := OtherLineRead(sc, st, id, toks, trace);
  }

  /**
   * Whatever line is accepted was written from parts: its tokens are those of
   * one of the lines, with something behind it that may follow.
   */
  lemma AcceptedLineIsWritten(bus: Bus, g: Guard, st: State, line: string, trace: Trace)
      returns (l: Line, end: seq<Token>)
    requires Parse(bus, g, st, line, trace).result.Ok?
    ensures LineOk(l) && Tokens(line) == LineToks(l) + end && MayFollow(l, end)
    ensures Parse(bus, g, st, line, trace) == LineMeaning(bus, g, st, l, trace)
  {
    hide Tokens, Expr, ParseLet, ParseFn, ParseCommand, LineOk, LineToks, MayFollow, LineMeaning, Lexed;
    var sc, toks := Scope(st.env, bus), Tokens(line);
    TokensAreLexed(line);
    var head := toks[0];
    assert toks == [head] + Rest(toks);
    StillLexed(toks, [head], Rest(toks));
    match head {
      case KwLet => l, end := LetRead(sc, st, Rest(toks), trace);
      case KwFn => l, end := FnRead(sc, g, st, Rest(toks), trace);
      case Identifier(id) => l, end := CommandRead(sc, g, st, id, Rest(toks), trace);
      case Literal(_) => l, end := ShowRead(sc, head, Rest(toks), trace);
      case Operator(_) => l, end := ShowRead(sc, head, Rest(toks), trace);
      case LParen => l, end := ShowRead(sc, head, Rest(toks), trace);
    }
    LineTokensParse(bus, g, st, l, line, end, trace);
  }
}
