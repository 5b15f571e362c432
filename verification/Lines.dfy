/**
 * Whole lines end to end: a line written out from its parts, in any spelling
 * and spacing, is parsed to what those parts mean.  The meaning is given over
 * the parts, without tokens.
 */
module Lines {
  import opened Wrappers
  import opened Machine
  import opened Lexing
  import opened Exec
  import opened Program
  import opened Symbols
  import opened Grammar
  import opened Spelling
  import opened Expressions
  import opened Functions
  import Session

  /** A statement of a function body as it is written. */
  datatype Source =
    | Store(addr: Term, value: Tree)
    | Load(addr: Term)
    | Invoke(callee: string)
    | Idle(name: string, e: Tree)

  datatype Line =
    | Let(name: string, e: Tree)
    | Define(name: string, body: seq<Source>)
    | Poke(addr: Term, value: Tree)
    | Peek(addr: Term)
    | ChangeBit(up: bool, addr: Term, bit: Term)
    | Claim(name: string)
    | Drop(name: string)
    | Call(name: string)
    | Show(e: Tree)
    | AskHelp
    | AskBanner
    | AskAudit

  // ---- meaning ----

  /** Two operands in the order they are evaluated, or the first fault. */
  datatype Operands = Both(first: Word, second: Word, trace: Trace) | Neither(error: ParseError, trace: Trace)

  function Joined(first: Word, m: Meaning): Operands {
    match m
    case Val(v, tr) => Both(first, v, tr)
    case Fault(e, tr) => Neither(e, tr)
  }

  function StoreOperands(sc: Scope, addr: Term, value: Tree, trace: Trace): Operands {
    match TermMeaning(sc, addr, trace)
    case Val(a, tr) => Joined(a, TreeMeaning(sc, value, tr))
    case Fault(e, tr) => Neither(e, tr)
  }

  function BitOperands(sc: Scope, addr: Term, bit: Term, trace: Trace): Operands {
    match TermMeaning(sc, addr, trace)
    case Val(a, tr) => Joined(a, TermMeaning(sc, bit, tr))
    case Fault(e, tr) => Neither(e, tr)
  }

  datatype Folded = Folded(stmt: Stmt, trace: Trace) | Failed(error: ParseError, trace: Trace)

  /** A statement with its expressions folded: the address first, then the value. */
  function SourceMeaning(sc: Scope, s: Source, trace: Trace): Folded {
    match s
    case Store(addr, value) =>
      (match StoreOperands(sc, addr, value, trace)
       case Neither(e, tr) => Failed(e, tr)
       case Both(a, v, tr) => Folded(PokeStmt(a, v), tr))
    case Load(addr) =>
      (match TermMeaning(sc, addr, trace)
       case Fault(e, tr) => Failed(e, tr)
       case Val(a, tr) => Folded(PeekStmt(a), tr))
    case Invoke(callee) => Folded(CallStmt(callee), trace)
    case Idle(_, e) =>
      match TreeMeaning(sc, e, trace)
      case Fault(err, tr) => Failed(err, tr)
      case Val(v, tr) => Folded(ExprStmt(v), tr)
  }

  datatype Compiled = Done(body: Body, trace: Trace) | Stopped(error: ParseError, trace: Trace)

  function StatementMeaning(sc: Scope, g: Guard, fns: seq<Fn>, s: Source, body: Body, trace: Trace): Compiled {
    var folded := SourceMeaning(sc, s, trace);
    if folded.Failed? then Stopped(folded.error, folded.trace)
    else
      match Emitted(g, fns, folded.stmt, body.stream)
      case Err(e) => Stopped(e, folded.trace)
      case Ok(stream) => Done(Body(body.src + [folded.stmt], stream), folded.trace)
  }

  /** A body, statement by statement: each is folded, checked and compiled before the next is looked at. */
  function BodyMeaning(sc: Scope, g: Guard, fns: seq<Fn>, src: seq<Source>, body: Body, trace: Trace): Compiled
    decreases |src|
  {
    if src == [] then Done(body, trace)
    else
      match StatementMeaning(sc, g, fns, src[0], body, trace)
      case Stopped(e, tr) => Stopped(e, tr)
      case Done(more, tr) => BodyMeaning(sc, g, fns, src[1..], more, tr)
  }

  /** The outcome of an access whose operands have been folded. */
  function AccessMeaning(g: Guard, st: State, addr: Word, o: Outcome, trace: Trace): Parsed {
    Parsed(if Admits(g, addr) then Ok(o) else Err(CapabilityViolation), st, trace)
  }

  function BitOutcome(up: bool, addr: Word, bit: Word): Outcome {
    if up then SetBitAt(addr, bit) else ClrBitAt(addr, bit)
  }

  function LineMeaning(bus: Bus, g: Guard, st: State, l: Line, trace: Trace): Parsed {
    var sc := Scope(st.env, bus);
    match l
    case Let(name, e) =>
      if |name| > NAME_MAX then Parsed(Err(NameTooLong), st, trace)
      else
        (match TreeMeaning(sc, e, trace)
         case Fault(err, tr) => Parsed(Err(err), st, tr)
         case Val(v, tr) =>
           if name !in st.env && |st.env| >= SYMBOL_SLOTS then Parsed(Err(SymbolTableFull), st, tr)
           else Parsed(Ok(Bound(name, v)), st.(env := st.env[name := v]), tr))
    case Define(name, src) =>
      if |name| > NAME_MAX then Parsed(Err(NameTooLong), st, trace)
      else
        (match BodyMeaning(sc, g, st.fns, src, Body([], []), trace)
         case Stopped(e, tr) => Parsed(Err(e), st, tr)
         case Done(body, tr) => var d := DefineFn(st, name, body); Parsed(d.0, d.1, tr))
    case Poke(addr, value) =>
      (match StoreOperands(sc, addr, value, trace)
       case Neither(e, tr) => Parsed(Err(e), st, tr)
       case Both(a, v, tr) => AccessMeaning(g, st, a, EnforcedPoke(a, v), tr))
    case Peek(addr) =>
      (match TermMeaning(sc, addr, trace)
       case Fault(e, tr) => Parsed(Err(e), st, tr)
       case Val(a, tr) => AccessMeaning(g, st, a, EnforcedPeek(a), tr))
    case ChangeBit(up, addr, bit) =>
      (match BitOperands(sc, addr, bit, trace)
       case Neither(e, tr) => Parsed(Err(e), st, tr)
       case Both(a, b, tr) => AccessMeaning(g, st, a, BitOutcome(up, a, b), tr))
    case Claim(name) => Parsed(if |name| > NAME_MAX then Err(NameTooLong) else Ok(ClaimCap(name)), st, trace)
    case Drop(name) => Parsed(if |name| > NAME_MAX then Err(NameTooLong) else Ok(DropCap(name)), st, trace)
    case Call(name) => Parsed(CallOutcome(st.fns, name), st, trace)
    case Show(e) =>
      (match TreeMeaning(sc, e, trace)
       case Fault(err, tr) => Parsed(Err(err), st, tr)
       case Val(v, tr) => Parsed(Ok(RunStream(ValueProgram(v))), st, tr))
    case AskHelp => Parsed(Ok(Help), st, trace)
    case AskBanner => Parsed(Ok(Banner), st, trace)
    case AskAudit => Parsed(Ok(SysAudit), st, trace)
  }

  // ---- tokens ----

  const END := [Semicolon]

  function SourceToks(s: Source): seq<Token> {
    match s
    case Store(addr, value) => [Identifier("poke")] + (TermToks(addr) + (TreeToks(value) + END))
    case Load(addr) => [Identifier("peek")] + (TermToks(addr) + END)
    case Invoke(callee) => [Identifier(callee), LParen, RParen] + END
    case Idle(_, e) => TreeToks(e) + END
  }

  function BodyToks(src: seq<Source>): seq<Token> {
    if src == [] then [RBrace] else SourceToks(src[0]) + BodyToks(src[1..])
  }

  /** The tokens of a line up to, and without, what closes it. */
  function LineToks(l: Line): seq<Token> {
    match l
    case Let(name, e) => [KwLet, Identifier(name), Operator('=')] + TreeToks(e)
    case Define(name, src) => [KwFn, Identifier(name), LParen, RParen, LBrace] + BodyToks(src)
    case Poke(addr, value) => [Identifier("poke")] + (TermToks(addr) + TreeToks(value))
    case Peek(addr) => [Identifier("peek")] + TermToks(addr)
    case ChangeBit(up, addr, bit) =>
      [Identifier(if up then "reg_set_bit" else "reg_clr_bit")] + (TermToks(addr) + TermToks(bit))
    case Claim(name) => [Identifier("cap_claim"), Identifier(name)]
    case Drop(name) => [Identifier("cap_drop"), Identifier(name)]
    case Call(name) => [Identifier(name), LParen, RParen]
    case Show(e) => TreeToks(e)
    case AskHelp => [Identifier("help")]
    case AskBanner => [Identifier("banner")]
    case AskAudit => [Identifier("sys_audit")]
  }

  /**
   * What may stand behind a line's own tokens: a semicolon and anything at all
   * behind it, or nothing; after a definition or a bare command, anything.
   */
  predicate MayFollow(l: Line, end: seq<Token>) {
    l.Define? || l.AskHelp? || l.AskBanner? || l.AskAudit? || Ends(end)
  }

  /** The expression starts with that name. */
  predicate LeadsWith(e: Tree, name: string) {
    match e
    case One(t) => t == Name(name)
    case More(front, _, _) => LeadsWith(front, name)
  }

  /** An expression that is a statement of a body starts with a name, as nothing else is let in there. */
  predicate SourceOk(s: Source) {
    match s
    case Store(addr, value) => TermOk(addr) && TreeOk(value)
    case Load(addr) => TermOk(addr)
    case Invoke(callee) => IsName(callee) && VerbOf(callee) != PeekVerb && VerbOf(callee) != PokeVerb
    case Idle(name, e) => TreeOk(e) && LeadsWith(e, name) && VerbOf(name) != PokeVerb
  }

  predicate BodyOk(src: seq<Source>) {
    forall i | 0 <= i < |src| :: SourceOk(src[i])
  }

  predicate LineOk(l: Line) {
    match l
    case Let(name, e) => IsName(name) && TreeOk(e)
    case Define(name, src) => IsName(name) && BodyOk(src)
    case Poke(addr, value) => TermOk(addr) && TreeOk(value)
    case Peek(addr) => TermOk(addr)
    case ChangeBit(_, addr, bit) => TermOk(addr) && TermOk(bit)
    case Claim(name) => IsName(name)
    case Drop(name) => IsName(name)
    case Call(name) => IsName(name) && VerbOf(name) == NoVerb
    case Show(e) => TreeOk(e) && StartsFree(e)
    case _ => true
  }

  // ---- operands ----

  function Evaluated(o: Operands, rest: seq<Token>): Eval<(Word, Word)> {
    match o
    case Both(a, b, tr) => Good((a, b), rest, tr)
    case Neither(e, tr) => Bad(e, tr)
  }

  lemma {:induction false} AtomParses(sc: Scope, t: Term, rest: seq<Token>, trace: Trace)
    requires TermOk(t)
    ensures Atomic(sc, TermToks(t) + rest, trace) == Then(TermMeaning(sc, t, trace), rest)
  {
    TermParses(sc, t, rest, trace);
  }

  lemma {:induction false} TreeEnds(sc: Scope, e: Tree, end: seq<Token>, trace: Trace)
    requires TreeOk(e) && Ends(end)
    ensures Whole(sc, TreeToks(e) + end, trace) == Then(TreeMeaning(sc, e, trace), end)
  {
    StopsAfterTree(sc, e, end, trace);
  }

  lemma {:induction false} PairParses(sc: Scope, addr: Term, value: Tree, end: seq<Token>, trace: Trace)
    requires TermOk(addr) && TreeOk(value) && Ends(end)
    ensures AddrAndValue(sc, TermToks(addr) + (TreeToks(value) + end), trace)
         == Evaluated(StoreOperands(sc, addr, value, trace), Rest(end))
  {
    hide Atomic, Whole, TermMeaning, TreeMeaning;
    AtomParses(sc, addr, TreeToks(value) + end, trace);
    match TermMeaning(sc, addr, trace)
    case Fault(_, _) =>
    case Val(a, tr) => TreeEnds(sc, value, end, tr);
  }

  lemma {:induction false} AddrParses(sc: Scope, addr: Term, end: seq<Token>, trace: Trace)
    requires TermOk(addr) && Ends(end)
    ensures Addr(sc, TermToks(addr) + end, trace) == Then(TermMeaning(sc, addr, trace), Rest(end))
  {
    hide Atomic, TermMeaning;
    AtomParses(sc, addr, end, trace);
  }

  lemma {:induction false} AtomsParse(sc: Scope, addr: Term, bit: Term, end: seq<Token>, trace: Trace)
    requires TermOk(addr) && TermOk(bit) && Ends(end)
    ensures TwoAtoms(sc, TermToks(addr) + (TermToks(bit) + end), trace)
         == Evaluated(BitOperands(sc, addr, bit, trace), Rest(end))
  {
    hide Atomic, TermMeaning;
    AtomParses(sc, addr, TermToks(bit) + end, trace);
    match TermMeaning(sc, addr, trace)
    case Fault(_, _) =>
    case Val(a, tr) => AtomParses(sc, bit, end, tr);
  }

  lemma Closed(rest: seq<Token>)
    ensures Ends(END + rest) && Rest(END + rest) == rest
  {
  }

  // ---- bodies ----

  function FoldedEval(f: Folded, rest: seq<Token>): Eval<Stmt> {
    match f
    case Folded(stmt, tr) => Good(stmt, rest, tr)
    case Failed(e, tr) => Bad(e, tr)
  }

  function CompiledEval(c: Compiled, rest: seq<Token>): Eval<Body> {
    match c
    case Done(body, tr) => Good(body, rest, tr)
    case Stopped(e, tr) => Bad(e, tr)
  }

  lemma {:induction false} LeadingName(e: Tree, name: string)
    requires LeadsWith(e, name)
    ensures var toks := TreeToks(e);
            toks[0] == Identifier(name) && (|toks| > 1 ==> toks[1].Operator?)
  {
    if e.More? {
      LeadingName(e.front, name);
    }
  }

  lemma {:induction false} LeadingNameOk(e: Tree, name: string)
    requires LeadsWith(e, name) && TreeOk(e)
    ensures IsName(name) && VerbOf(name) != PeekVerb
  {
    if e.More? {
      LeadingNameOk(e.front, name);
    }
  }

  lemma {:induction false} IdleParses(sc: Scope, name: string, e: Tree, rest: seq<Token>, trace: Trace)
    requires SourceOk(Idle(name, e))
    ensures BodyStmt(sc, TreeToks(e) + (END + rest), trace) == FoldedEval(SourceMeaning(sc, Idle(name, e), trace), rest)
  {
    hide Expr, TreeMeaning, TreeToks;
    var toks := TreeToks(e) + (END + rest);
    Closed(rest);
    LeadingName(e, name);
    LeadingNameOk(e, name);
    TreeEnds(sc, e, END + rest, trace);
    assert Head(toks) == Identifier(name) && Head(Rest(toks)) != LParen;
  }

  lemma VerbWords()
    ensures VerbOf("peek") == PeekVerb && VerbOf("poke") == PokeVerb
    ensures VerbOf("reg_set_bit") == SetBitVerb && VerbOf("reg_clr_bit") == ClrBitVerb
    ensures VerbOf("cap_claim") == ClaimVerb && VerbOf("cap_drop") == DropVerb
  {
  }

  lemma {:induction false} StoreParses(sc: Scope, addr: Term, value: Tree, rest: seq<Token>, trace: Trace)
    requires TermOk(addr) && TreeOk(value)
    ensures BodyStmt(sc, SourceToks(Store(addr, value)) + rest, trace)
         == FoldedEval(SourceMeaning(sc, Store(addr, value), trace), rest)
  {
    hide AddrAndValue, StoreOperands, VerbOf, TermToks, TreeToks, TermOk, TreeOk;
    VerbWords();
    var toks := SourceToks(Store(addr, value)) + rest;
    var behind := TermToks(addr) + (TreeToks(value) + (END + rest));
    assert toks == [Identifier("poke")] + behind;
    assert Rest(toks) == behind;
    Closed(rest);
    PairParses(sc, addr, value, END + rest, trace);
  }

  lemma {:induction false} LoadParses(sc: Scope, addr: Term, rest: seq<Token>, trace: Trace)
    requires TermOk(addr)
    ensures BodyStmt(sc, SourceToks(Load(addr)) + rest, trace) == FoldedEval(SourceMeaning(sc, Load(addr), trace), rest)
  {
    hide Addr, TermMeaning, VerbOf, TermToks, TermOk;
    VerbWords();
    var toks := SourceToks(Load(addr)) + rest;
    var behind := TermToks(addr) + (END + rest);
    assert toks == [Identifier("peek")] + behind;
    assert Rest(toks) == behind;
    Closed(rest);
    AddrParses(sc, addr, END + rest, trace);
  }

  lemma InvokeParses(sc: Scope, callee: string, rest: seq<Token>, trace: Trace)
    requires SourceOk(Invoke(callee))
    ensures BodyStmt(sc, SourceToks(Invoke(callee)) + rest, trace)
         == FoldedEval(SourceMeaning(sc, Invoke(callee), trace), rest)
  {
    hide VerbOf;
    var toks := SourceToks(Invoke(callee)) + rest;
    assert Rest(Rest(Rest(toks))) == END + rest;
    Closed(rest);
  }

  lemma SourceParses(sc: Scope, s: Source, rest: seq<Token>, trace: Trace)
    requires SourceOk(s)
    ensures BodyStmt(sc, SourceToks(s) + rest, trace) == FoldedEval(SourceMeaning(sc, s, trace), rest)
  {
    hide BodyStmt, SourceMeaning;
    match s
    case Store(addr, value) => StoreParses(sc, addr, value, rest, trace);
    case Load(addr) => LoadParses(sc, addr, rest, trace);
    case Invoke(callee) => InvokeParses(sc, callee, rest, trace);
    case Idle(name, e) =>
      IdleParses(sc, name, e, rest, trace);
      assert SourceToks(s) + rest == TreeToks(e) + (END + rest);
  }

  lemma StartsStatement(s: Source, rest: seq<Token>)
    requires SourceOk(s)
    ensures Head(SourceToks(s) + rest).Identifier?
  {
    if s.Idle? {
      LeadingName(s.e, s.name);
    }
  }

  lemma {:induction false} BodyParses(sc: Scope, g: Guard, fns: seq<Fn>, src: seq<Source>, body: Body, end: seq<Token>,
                                      trace: Trace)
    requires BodyOk(src)
    ensures BodyStmts(sc, g, fns, BodyToks(src) + end, body, trace)
         == CompiledEval(BodyMeaning(sc, g, fns, src, body, trace), end)
    decreases |src|
  {
    if src == [] {
      assert Rest(BodyToks(src) + end) == end;
    } else {
      hide BodyStmt, Emitted, SourceMeaning, SourceToks, SourceOk;
      var rest := BodyToks(src[1..]) + end;
      assert BodyToks(src) + end == SourceToks(src[0]) + rest;
      StartsStatement(src[0], rest);
      SourceParses(sc, src[0], rest, trace);
      match StatementMeaning(sc, g, fns, src[0], body, trace)
      case Stopped(_, _) =>
      case Done(more, tr) => BodyParses(sc, g, fns, src[1..], more, end, tr);
    }
  }

  // ---- lines ----

  lemma LetParses(sc: Scope, g: Guard, st: State, name: string, e: Tree, end: seq<Token>, trace: Trace)
    requires LineOk(Let(name, e)) && sc.env == st.env && Ends(end)
    ensures ParseLet(sc, st, (LineToks(Let(name, e)) + end)[1..], trace)
         == LineMeaning(sc.bus, g, st, Let(name, e), trace)
  {
    hide Whole, TreeMeaning, TreeToks;
    var toks := (LineToks(Let(name, e)) + end)[1..];
    assert toks == [Identifier(name), Operator('=')] + (TreeToks(e) + end);
    assert Rest(Rest(toks)) == TreeToks(e) + end;
    TreeEnds(sc, e, end, trace);
  }

  lemma DefineParses(sc: Scope, g: Guard, st: State, name: string, src: seq<Source>, end: seq<Token>, trace: Trace)
    requires LineOk(Define(name, src)) && sc.env == st.env
    ensures ParseFn(sc, g, st, (LineToks(Define(name, src)) + end)[1..], trace)
         == LineMeaning(sc.bus, g, st, Define(name, src), trace)
  {
    hide BodyStmts, BodyMeaning, DefineFn, BodyToks;
    var toks := (LineToks(Define(name, src)) + end)[1..];
    assert toks == [Identifier(name), LParen, RParen, LBrace] + (BodyToks(src) + end);
    assert toks[4..] == BodyToks(src) + end;
    BodyParses(sc, g, st.fns, src, Body([], []), end, trace);
  }

  lemma PokeParses(sc: Scope, g: Guard, st: State, addr: Term, value: Tree, end: seq<Token>, trace: Trace)
    requires LineOk(Poke(addr, value)) && sc.env == st.env && Ends(end)
    ensures ParseCommand(sc, g, st, "poke", (LineToks(Poke(addr, value)) + end)[1..], trace)
         == LineMeaning(sc.bus, g, st, Poke(addr, value), trace)
  {
    hide AddrAndValue, StoreOperands, Admits, VerbOf, TermToks, TreeToks, TermOk, TreeOk;
    VerbWords();
    assert (LineToks(Poke(addr, value)) + end)[1..] == TermToks(addr) + (TreeToks(value) + end);
    PairParses(sc, addr, value, end, trace);
  }

  lemma PeekParses(sc: Scope, g: Guard, st: State, addr: Term, end: seq<Token>, trace: Trace)
    requires LineOk(Peek(addr)) && sc.env == st.env && Ends(end)
    ensures ParseCommand(sc, g, st, "peek", (LineToks(Peek(addr)) + end)[1..], trace)
         == LineMeaning(sc.bus, g, st, Peek(addr), trace)
  {
    hide Addr, TermMeaning, Admits, VerbOf, TermToks, TermOk;
    VerbWords();
    assert (LineToks(Peek(addr)) + end)[1..] == TermToks(addr) + end;
    AddrParses(sc, addr, end, trace);
  }

  lemma BitParses(sc: Scope, g: Guard, st: State, up: bool, addr: Term, bit: Term, end: seq<Token>, trace: Trace)
    requires LineOk(ChangeBit(up, addr, bit)) && sc.env == st.env && Ends(end)
    ensures ParseCommand(sc, g, st, if up then "reg_set_bit" else "reg_clr_bit",
                         (LineToks(ChangeBit(up, addr, bit)) + end)[1..], trace)
         == LineMeaning(sc.bus, g, st, ChangeBit(up, addr, bit), trace)
  {
    hide TwoAtoms, BitOperands, Admits, VerbOf, TermToks, TermOk;
    VerbWords();
    assert (LineToks(ChangeBit(up, addr, bit)) + end)[1..] == TermToks(addr) + (TermToks(bit) + end);
    AtomsParse(sc, addr, bit, end, trace);
  }

  lemma NameParses(sc: Scope, g: Guard, st: State, claim: bool, name: string, end: seq<Token>, trace: Trace)
    requires Ends(end)
    ensures var l := if claim then Claim(name) else Drop(name);
            ParseCommand(sc, g, st, if claim then "cap_claim" else "cap_drop", (LineToks(l) + end)[1..], trace)
            == LineMeaning(sc.bus, g, st, l, trace)
  {
    hide VerbOf;
    VerbWords();
    var toks := (LineToks(if claim then Claim(name) else Drop(name)) + end)[1..];
    assert toks == [Identifier(name)] + end && Rest(toks) == end;
  }

  lemma CallParses(sc: Scope, g: Guard, st: State, name: string, end: seq<Token>, trace: Trace)
    requires LineOk(Call(name)) && Ends(end)
    ensures ParseCommand(sc, g, st, name, (LineToks(Call(name)) + end)[1..], trace)
         == LineMeaning(sc.bus, g, st, Call(name), trace)
  {
    hide CallOutcome, VerbOf, IsName;
    var toks := (LineToks(Call(name)) + end)[1..];
    assert toks == [LParen, RParen] + end && Rest(Rest(toks)) == end;
  }

  lemma WordParses(sc: Scope, g: Guard, st: State, l: Line, end: seq<Token>, trace: Trace)
    requires l.AskHelp? || l.AskBanner? || l.AskAudit?
    ensures LineToks(l)[0].Identifier?
    ensures ParseCommand(sc, g, st, LineToks(l)[0].name, (LineToks(l) + end)[1..], trace)
         == LineMeaning(sc.bus, g, st, l, trace)
  {
  }

  /** On tokens: a line of parts is parsed to what the parts mean, whatever may follow it. */
  lemma {:induction false} LineTokensParse(bus: Bus, g: Guard, st: State, l: Line, line: string, end: seq<Token>,
                                           trace: Trace)
    requires LineOk(l) && Tokens(line) == LineToks(l) + end && MayFollow(l, end)
    ensures Parse(bus, g, st, line, trace) == LineMeaning(bus, g, st, l, trace)
  {
    hide Expr, Tokens, ParseLet, ParseFn, ParseCommand, ValueLine, LineMeaning, LineOk, TreeToks, TermToks, BodyToks;
    var sc := Scope(st.env, bus);
    assert Rest(Tokens(line)) == (LineToks(l) + end)[1..];
    match l
    case Let(name, e) => LetParses(sc, g, st, name, e, end, trace);
    case Define(name, src) => DefineParses(sc, g, st, name, src, end, trace);
    case Show(e) => ShowParses(bus, g, st, e, line, end, trace);
    case Claim(name) => NameParses(sc, g, st, true, name, end, trace);
    case Drop(name) => NameParses(sc, g, st, false, name, end, trace);
    case Call(name) => CallParses(sc, g, st, name, end, trace);
    case Poke(addr, value) => PokeParses(sc, g, st, addr, value, end, trace);
    case Peek(addr) => PeekParses(sc, g, st, addr, end, trace);
    case ChangeBit(up, addr, bit) => BitParses(sc, g, st, up, addr, bit, end, trace);
    case _ => WordParses(sc, g, st, l, end, trace);
  }

  lemma {:induction false} ShowParses(bus: Bus, g: Guard, st: State, e: Tree, line: string, end: seq<Token>,
                                      trace: Trace)
    requires LineOk(Show(e)) && Tokens(line) == LineToks(Show(e)) + end && Ends(end)
    ensures Parse(bus, g, st, line, trace) == LineMeaning(bus, g, st, Show(e), trace)
  {
    hide Parse, Tokens, TreeMeaning, TreeToks;
    ExpressionLine(bus, g, st, e, line, end, trace);
  }

  // ---- text ----

  lemma {:induction false} TermPrintable(t: Term)
    requires TermOk(t)
    ensures AllPrintable(TermToks(t))
    decreases t
  {
    hide IsName;
    match t
    case Num(_) =>
    case Name(_) =>
    case PeekAt(a) =>
      VerbsArePrintable();
      TermPrintable(a);
    case Group(e) => TreePrintable(e);
  }

  lemma {:induction false} TreePrintable(e: Tree)
    requires TreeOk(e)
    ensures AllPrintable(TreeToks(e))
    decreases e
  {
    hide IsName;
    match e
    case One(t) => TermPrintable(t);
    case More(front, op, t) =>
      TreePrintable(front);
      TermPrintable(t);
  }

  lemma VerbsArePrintable()
    ensures Printable(Identifier("peek")) && Printable(Identifier("poke"))
    ensures Printable(Identifier("reg_set_bit")) && Printable(Identifier("reg_clr_bit"))
  {
  }

  lemma CommandsArePrintable()
    ensures Printable(Identifier("cap_claim")) && Printable(Identifier("cap_drop"))
    ensures Printable(Identifier("help")) && Printable(Identifier("banner")) && Printable(Identifier("sys_audit"))
  {
  }

  lemma SourcePrintable(s: Source)
    requires SourceOk(s)
    ensures AllPrintable(SourceToks(s))
  {
    hide IsName, TermToks, TreeToks, TermOk, TreeOk;
    VerbsArePrintable();
    match s
    case Store(addr, value) =>
      TermPrintable(addr);
      TreePrintable(value);
    case Load(addr) => TermPrintable(addr);
    case Invoke(_) =>
    case Idle(_, e) => TreePrintable(e);
  }

  lemma {:induction false} BodyPrintable(src: seq<Source>)
    requires BodyOk(src)
    ensures AllPrintable(BodyToks(src))
  {
    if src == [] {
      assert BodyToks(src) == [RBrace];
    } else {
      hide SourceToks, SourceOk, Printable;
      SourcePrintable(src[0]);
      BodyPrintable(src[1..]);
    }
  }

  lemma LinePrintable(l: Line)
    requires LineOk(l)
    ensures AllPrintable(LineToks(l))
  {
    hide IsName, TermToks, TreeToks, TermOk, TreeOk, BodyOk, BodyToks;
    VerbsArePrintable();
    CommandsArePrintable();
    match l
    case Let(_, e) => TreePrintable(e);
    case Define(_, src) => BodyPrintable(src);
    case Poke(addr, value) =>
      TermPrintable(addr);
      TreePrintable(value);
    case Peek(addr) => TermPrintable(addr);
    case ChangeBit(_, addr, bit) =>
      TermPrintable(addr);
      TermPrintable(bit);
    case Show(e) => TreePrintable(e);
    case _ =>
  }

  /** Every line of parts can be written. */
  lemma EveryLineHasText(l: Line) returns (words: seq<string>, gaps: seq<string>)
    requires LineOk(l)
    ensures WriteAll(LineToks(l), words) && |gaps| == |words| && Separated(words, gaps, "")
  {
    hide LineOk, LineToks;
    LinePrintable(l);
    words, gaps := TextExists(LineToks(l));
  }

  /**
   * A line written out from its parts, in any spelling and spacing and with
   * whatever may follow it, is parsed to what the parts mean: the same outcome
   * or error, tables and accesses.
   */
  lemma {:induction false} LineRoundTrip(bus: Bus, g: Guard, st: State, l: Line, words: seq<string>,
                                         gaps: seq<string>, tail: string, trace: Trace)
    requires LineOk(l) && WriteAll(LineToks(l), words) && |gaps| == |words| && Separated(words, gaps, tail)
    requires MayFollow(l, Tokens(tail))
    ensures Parse(bus, g, st, Spell(words, gaps, tail), trace) == LineMeaning(bus, g, st, l, trace)
  {
    hide Parse, LineMeaning, LineToks, LineOk, WriteAll, Separated, Spell, Tokens, MayFollow;
    SpellLexes(LineToks(l), words, gaps, tail);
    LineTokensParse(bus, g, st, l, Spell(words, gaps, tail), Tokens(tail), trace);
  }

  /** Nothing behind a line, or a semicolon with anything behind it, closes a line of any kind. */
  lemma {:induction false} LineCloses(l: Line, tail: string)
    requires tail == "" || tail[0] == ';'
    ensures MayFollow(l, Tokens(tail))
    ensures forall word: string | word != "" :: Apart(word, tail)
  {
    hide Span;
    if tail != "" {
      SpanIs(tail, Space, 0);
      assert tail[0..] == tail;
      FirstMark(tail);
      assert Lex(tail) == (Semicolon, 1);
    }
  }

  /**
   * A definition accepted from its text leaves, in the first free slot, a
   * function that on the threaded engine makes, whenever it is run, exactly
   * the accesses of its folded statements with calls run as calls.
   */
  lemma {:induction false} DefinedTextRuns(bus: Bus, g: Guard, st: State, n: nat, name: string, src: seq<Source>,
                                           line: string, end: seq<Token>, trace: Trace, later: Trace)
    requires FnInv(st.fns, n) && LineOk(Define(name, src))
    requires Tokens(line) == LineToks(Define(name, src)) + end
    requires LineMeaning(bus, g, st, Define(name, src), trace).result.Ok?
    ensures var after := Parse(bus, g, st, line, trace).state.fns;
            var folded := BodyMeaning(Scope(st.env, bus), g, st.fns, src, Body([], []), trace);
            FnInv(after, n + 1) && after[n].name == name && folded.Done? &&
            var r := Threaded(bus, after[n].body + [HALT], Vm([], later));
            r.Halted? && r.vm.trace == BigStep(bus, after, n, folded.body.src, later)
  {
    hide Parse, Tokens, LineToks, BodyMeaning, BodyStmts, DefineFn, FnInv, Threaded, BigStep, Inline;
    LineTokensParse(bus, g, st, Define(name, src), line, end, trace);
    var sc := Scope(st.env, bus);
    var body := BodyMeaning(sc, g, st.fns, src, Body([], []), trace).body;
    BodyParses(sc, g, st.fns, src, Body([], []), [], trace);
    Session.StartFaithful(st.fns, n, g);
    BodyFaithful(sc, g, st.fns, n, BodyToks(src) + [], Body([], []), trace);
    DefineKeepsInv(st, n, name, body);
    StoredBodyMeansSource(bus, DefineFn(st, name, body).1.fns, n + 1, n, later);
  }

  // ---- compile-time reads ----

  /**
   * A `peek` inside an expression is made while its line is parsed, whatever the
   * registry says of the address.
   */
  lemma {:induction false} CompileTimePeekIsUnchecked(bus: Bus, g: Guard, st: State, name: string, addr: u32,
                                                      line: string, end: seq<Token>, trace: Trace)
    requires IsName(name) && |name| <= NAME_MAX && (name in st.env || |st.env| < SYMBOL_SLOTS) && Ends(end)
    requires Tokens(line) == LineToks(Let(name, One(PeekAt(Num(addr))))) + end
    ensures var value := bus(trace, addr as Word);
            Parse(bus, g, st, line, trace)
            == Parsed(Ok(Bound(name, value)), st.(env := st.env[name := value]), AfterRead(bus, trace, addr as Word))
  {
    hide Parse, Tokens, LineToks, IsName;
    var sc := Scope(st.env, bus);
    assert TermOk(Num(addr)) && TermOk(PeekAt(Num(addr))) && TreeOk(One(PeekAt(Num(addr))));
    assert TermMeaning(sc, Num(addr), trace) == Val(addr as Word, trace);
    assert TreeMeaning(sc, One(PeekAt(Num(addr))), trace) == TermMeaning(sc, PeekAt(Num(addr)), trace);
    LineTokensParse(bus, g, st, Let(name, One(PeekAt(Num(addr)))), line, end, trace);
  }
}
