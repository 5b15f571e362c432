/**
 * The expression language end to end: a tree written out as text, lexed and
 * folded by the front end, gives the value of the tree.
 */
module Expressions {
  import opened Wrappers
  import opened Machine
  import opened Lexing
  import opened Spelling
  import opened Program
  import opened Grammar

  datatype BinOp = Plus | Minus | Times | Over | Rem

  /** Operations associate to the left: a tree is a first term and what is applied to it in turn. */
  datatype Term = Num(value: u32) | Name(id: string) | PeekAt(addr: Term) | Group(inner: Tree)

  datatype Tree = One(term: Term) | More(front: Tree, op: BinOp, term: Term)

  // ---- meaning ----

  datatype Meaning = Val(value: Word, trace: Trace) | Fault(error: ParseError, trace: Trace)

  function OpMeaning(op: BinOp, a: Word, b: Word): Option<Word> {
    match op
    case Plus => Some(AddW(a, b))
    case Minus => Some(SubW(a, b))
    case Times => Some(MulW(a, b))
    case Over => if b == 0 then None else Some(DivW(a, b))
    case Rem => if b == 0 then None else Some(ModW(a, b))
  }

  /** A name is a constant; a peek reads memory on the spot. */
  function TermMeaning(sc: Scope, t: Term, trace: Trace): Meaning
    decreases t
  {
    match t
    case Num(v) => Val(v as Word, trace)
    case Name(id) => if id in sc.env then Val(sc.env[id], trace) else Fault(UnknownSymbol, trace)
    case PeekAt(a) =>
      (match TermMeaning(sc, a, trace)
       case Val(addr, tr) => Val(sc.bus(tr, addr), AfterRead(sc.bus, tr, addr))
       case Fault(e, tr) => Fault(e, tr))
    case Group(e) => TreeMeaning(sc, e, trace)
  }

  function TreeMeaning(sc: Scope, e: Tree, trace: Trace): Meaning
    decreases e
  {
    match e
    case One(t) => TermMeaning(sc, t, trace)
    case More(front, op, t) =>
      match TreeMeaning(sc, front, trace)
      case Fault(err, tr) => Fault(err, tr)
      case Val(a, tr) =>
        match TermMeaning(sc, t, tr)
        case Fault(err, tr') => Fault(err, tr')
        case Val(b, tr') =>
          match OpMeaning(op, a, b)
          case Some(v) => Val(v, tr')
          case None => Fault(DivByZero, tr')
  }

  // ---- tokens ----

  function OpChar(op: BinOp): char {
    match op
    case Plus => '+'
    case Minus => '-'
    case Times => '*'
    case Over => '/'
    case Rem => '%'
  }

  function TermToks(t: Term): (s: seq<Token>)
    ensures s != []
  {
    match t
    case Num(v) => [Literal(v)]
    case Name(id) => [Identifier(id)]
    case PeekAt(a) => [Identifier("peek")] + TermToks(a)
    case Group(e) => [LParen] + TreeToks(e) + [RParen]
  }

  function TreeToks(e: Tree): (s: seq<Token>)
    ensures s != []
  {
    match e
    case One(t) => TermToks(t)
    case More(front, op, t) => TreeToks(front) + [Operator(OpChar(op))] + TermToks(t)
  }

  /** Names in the tree are identifiers, and none is the word that introduces a memory read. */
  predicate TermOk(t: Term) {
    match t
    case Num(_) => true
    case Name(id) => IsName(id) && VerbOf(id) != PeekVerb
    case PeekAt(a) => TermOk(a)
    case Group(e) => TreeOk(e)
  }

  predicate TreeOk(e: Tree) {
    match e
    case One(t) => TermOk(t)
    case More(front, _, t) => TreeOk(front) && TermOk(t)
  }

  /** What the parser is left with when the tree's tokens stand before `rest`. */
  function Then(m: Meaning, rest: seq<Token>): Eval<Word> {
    match m
    case Val(v, tr) => Good(v, rest, tr)
    case Fault(e, tr) => Bad(e, tr)
  }

  function ThenTail(sc: Scope, m: Meaning, rest: seq<Token>): Eval<Word> {
    match m
    case Val(v, tr) => Tail(sc, v, rest, tr)
    case Fault(e, tr) => Bad(e, tr)
  }

  lemma {:induction false} WordOperand(sc: Scope, t: Term, rest: seq<Token>, trace: Trace)
    requires TermOk(t) && (t.Num? || t.Name?)
    ensures Operand(sc, TermToks(t)[0], rest, trace) == Then(TermMeaning(sc, t, trace), rest)
  {
    hide IsName, VerbOf;
  }

  lemma {:induction false} PeekOperand(sc: Scope, toks: seq<Token>, trace: Trace)
    ensures Operand(sc, Identifier("peek"), toks, trace)
         == match Operand(sc, Head(toks), Rest(toks), trace)
            case Good(addr, after, tr) => Good(sc.bus(tr, addr), after, AfterRead(sc.bus, tr, addr))
            case Bad(e, tr) => Bad(e, tr)
  {
  }

  lemma {:induction false} GroupOperand(sc: Scope, toks: seq<Token>, rest: seq<Token>, m: Meaning, trace: Trace)
    requires Expr(sc, Head(toks), Rest(toks), trace) == ThenTail(sc, m, [RParen] + rest)
    ensures Operand(sc, LParen, toks, trace) == Then(m, rest)
  {
    hide Expr;
    var behind := [RParen] + rest;
    assert Rest(behind) == rest && !IsBinary(Head(behind));
  }

  lemma {:induction false} TermParses(sc: Scope, t: Term, rest: seq<Token>, trace: Trace)
    requires TermOk(t)
    ensures var toks := TermToks(t) + rest;
            Operand(sc, Head(toks), Rest(toks), trace) == Then(TermMeaning(sc, t, trace), rest)
    decreases t
  {
    hide Operand, Expr, TreeMeaning, TreeToks, TreeOk, IsName, VerbOf;
    var toks := TermToks(t) + rest;
    match t
    case PeekAt(a) =>
      assert Rest(toks) == TermToks(a) + rest;
      TermParses(sc, a, rest, trace);
      PeekOperand(sc, TermToks(a) + rest, trace);
    case Group(e) =>
      var behind := [RParen] + rest;
      assert Rest(toks) == TreeToks(e) + behind;
      TreeParses(sc, e, behind, trace);
      GroupOperand(sc, TreeToks(e) + behind, rest, TreeMeaning(sc, e, trace), trace);
    case _ =>
      assert Rest(toks) == rest;
      WordOperand(sc, t, rest, trace);
  }

  lemma {:induction false} TreeParses(sc: Scope, e: Tree, rest: seq<Token>, trace: Trace)
    requires TreeOk(e)
    ensures var toks := TreeToks(e) + rest;
            Expr(sc, Head(toks), Rest(toks), trace) == ThenTail(sc, TreeMeaning(sc, e, trace), rest)
    decreases e
  {
    hide Operand, Tail, TermMeaning, TermToks, TermOk;
    match e
    case One(t) => TermParses(sc, t, rest, trace);
    case More(front, op, t) =>
      var behind := [Operator(OpChar(op))] + (TermToks(t) + rest);
      assert TreeToks(e) + rest == TreeToks(front) + behind;
      TreeParses(sc, front, behind, trace);
      match TreeMeaning(sc, front, trace)
      case Fault(_, _) =>
      case Val(a, tr) =>
        assert Rest(behind) == TermToks(t) + rest;
        TermParses(sc, t, rest, tr);
        TailStep(sc, a, op, TermToks(t) + rest, tr);
  }

  /** The fold goes on with the right operand just parsed. */
  function Folded(sc: Scope, a: Word, op: BinOp, right: Eval<Word>): Eval<Word> {
    if right.Bad? then right
    else if OpMeaning(op, a, right.value).None? then Bad(DivByZero, right.trace)
    else Tail(sc, OpMeaning(op, a, right.value).value, right.toks, right.trace)
  }

  lemma {:induction false} TailStep(sc: Scope, a: Word, op: BinOp, after: seq<Token>, trace: Trace)
    ensures Tail(sc, a, [Operator(OpChar(op))] + after, trace)
         == Folded(sc, a, op, Operand(sc, Head(after), Rest(after), trace))
  {
    var toks := [Operator(OpChar(op))] + after;
    assert IsBinary(Head(toks)) && Rest(toks) == after;
  }

  // ---- the theorems ----

  /** The expression stops where the tree stops: whatever follows that is no arithmetic operator stays unread. */
  lemma {:induction false} StopsAfterTree(sc: Scope, e: Tree, rest: seq<Token>, trace: Trace)
    requires TreeOk(e) && !IsBinary(Head(rest))
    ensures Whole(sc, TreeToks(e) + rest, trace) == Then(TreeMeaning(sc, e, trace), rest)
  {
    TreeParses(sc, e, rest, trace);
  }

  /**
   * Lexing and folding any text of a tree gives the tree's left-associative
   * wrapping value, or the fault the tree runs into, and leaves what follows.
   */
  lemma {:induction false} TextEvaluates(sc: Scope, e: Tree, words: seq<string>, gaps: seq<string>, tail: string,
                                         trace: Trace)
    requires TreeOk(e) && WriteAll(TreeToks(e), words)
    requires |gaps| == |words| && Separated(words, gaps, tail) && !IsBinary(Head(Tokens(tail)))
    ensures Whole(sc, Tokens(Spell(words, gaps, tail)), trace) == Then(TreeMeaning(sc, e, trace), Tokens(tail))
  {
    hide Tokens, Spell, Separated, WriteAll, TreeToks, TreeMeaning, Whole;
    SpellLexes(TreeToks(e), words, gaps, tail);
    StopsAfterTree(sc, e, Tokens(tail), trace);
  }

  /** The expression starts with a number, a parenthesis, or a name that is no command. */
  predicate StartsFree(e: Tree) {
    match e
    case One(t) => t.Num? || t.Group? || (t.Name? && VerbOf(t.id) == NoVerb)
    case More(front, _, _) => StartsFree(front)
  }

  lemma {:induction false} FreeStart(e: Tree)
    requires StartsFree(e)
    ensures var toks := TreeToks(e);
            toks[0].Literal? || toks[0] == LParen ||
            (toks[0].Identifier? && VerbOf(toks[0].name) == NoVerb && (|toks| > 1 ==> toks[1].Operator?))
  {
    hide VerbOf;
    if e.More? {
      FreeStart(e.front);
    }
  }

  /**
   * A line holding such an expression, closed by a semicolon or by its end,
   * becomes a program that prints the expression's value, or fails with the
   * expression's fault; the tables stay as they were.
   */
  lemma {:induction false} ExpressionLine(bus: Bus, g: Guard, st: State, e: Tree, line: string, end: seq<Token>,
                                          trace: Trace)
    requires TreeOk(e) && StartsFree(e) && Tokens(line) == TreeToks(e) + end && Ends(end)
    ensures Parse(bus, g, st, line, trace)
         == match TreeMeaning(Scope(st.env, bus), e, trace)
            case Val(v, tr) => Parsed(Ok(RunStream(ValueProgram(v))), st, tr)
            case Fault(err, tr) => Parsed(Err(err), st, tr)
  {
    hide Tokens, Expr, TreeMeaning, TreeToks, ParseLet, ParseFn, VerbOf;
    var sc, toks := Scope(st.env, bus), Tokens(line);
    FreeStart(e);
    StopsAfterTree(sc, e, end, trace);
    assert Whole(sc, toks, trace) == Expr(sc, toks[0], Rest(toks), trace);
    if toks[0].Identifier? {
      assert Head(Rest(toks)) != LParen;
    }
  }
}
