/**
 * What the single-pass front end (src/compiler/parser.rs) makes of a token
 * sequence.  Expressions are folded while they are read, so a `peek` inside
 * one happens at compile time and the traffic is part of the result.
 */
module Grammar {
  import opened Wrappers
  import opened Machine
  import opened Target
  import opened Lexing
  import opened Exec
  import opened Native
  import opened Simulation
  import opened Program
  import opened Symbols
  import opened Registry

  const NAME_MAX := 16
  const MAX_FNS := 2
  const FN_BODY_WORDS := 32

  datatype ParseError =
    | LexFailure(error: LexError)
    | UnexpectedToken
    | UnknownSymbol
    | DuplicateFn
    | SymbolTableFull
    | FnTableFull
    | StreamFull
    | NameTooLong
    | DivByZero
    | MissingSemicolon
    | EmptyLine
    | CapabilityViolation

  /** The tokens still ahead; past the end there is only `Eof`. */
  function Head(toks: seq<Token>): Token {
    if toks == [] then Eof else toks[0]
  }

  function Rest(toks: seq<Token>): seq<Token> {
    if toks == [] then [] else toks[1..]
  }

  /** The identifiers with a meaning of their own. */
  datatype Verb =
    | PeekVerb
    | PokeVerb
    | ClaimVerb
    | DropVerb
    | SetBitVerb
    | ClrBitVerb
    | HelpVerb
    | BannerVerb
    | AuditVerb
    | NoVerb

  function VerbOf(id: string): Verb {
    if id == "peek" then PeekVerb
    else if id == "poke" then PokeVerb
    else if id == "cap_claim" then ClaimVerb
    else if id == "cap_drop" then DropVerb
    else if id == "reg_set_bit" then SetBitVerb
    else if id == "reg_clr_bit" then ClrBitVerb
    else if id == "help" then HelpVerb
    else if id == "banner" then BannerVerb
    else if id == "sys_audit" then AuditVerb
    else NoVerb
  }

  /** A successful parse leaves the tokens behind it; either way the traffic stands. */
  datatype Eval<+T> = Good(value: T, toks: seq<Token>, trace: Trace) | Bad(error: ParseError, trace: Trace)

  /** The constants in scope and the memory compile-time peeks read. */
  datatype Scope = Scope(env: Env, bus: Bus)

  // ---- expressions ----

  predicate IsBinary(t: Token) {
    t.Operator? && (t.op == '+' || t.op == '-' || t.op == '*' || t.op == '/' || t.op == '%')
  }

  function Apply(op: char, a: Word, b: Word): Result<Word, ParseError> {
    if op == '+' then Ok(AddW(a, b))
    else if op == '-' then Ok(SubW(a, b))
    else if op == '*' then Ok(MulW(a, b))
    else if b == 0 then Err(DivByZero)
    else if op == '/' then Ok(DivW(a, b))
    else Ok(ModW(a, b))
  }

  function Size(head: Token, toks: seq<Token>): nat {
    |toks| + if head == Eof then 0 else 1
  }

  /** A term whose first token `head` has been taken. */
  function Resolve(sc: Scope, head: Token, toks: seq<Token>, trace: Trace): (r: Eval<Word>)
    ensures r.Good? ==> head != Eof && |r.toks| <= |toks|
    decreases Size(head, toks), 0
  {
    match head
    case Literal(v) => Good(v as Word, toks, trace)
    case Identifier(id) =>
      if VerbOf(id) == PeekVerb then
        match Operand(sc, Head(toks), Rest(toks), trace)
        case Good(addr, after, tr) => Good(sc.bus(tr, addr), after, AfterRead(sc.bus, tr, addr))
        case Bad(e, tr) => Bad(e, tr)
      else if id in sc.env then Good(sc.env[id], toks, trace)
      else Bad(UnknownSymbol, trace)
    case Error(e) => Bad(LexFailure(e), trace)
    case _ => Bad(UnexpectedToken, trace)
  }

  /** A term or a parenthesised expression whose first token has been taken. */
  function Operand(sc: Scope, head: Token, toks: seq<Token>, trace: Trace): (r: Eval<Word>)
    ensures r.Good? ==> head != Eof && |r.toks| <= |toks|
    decreases Size(head, toks), 1
  {
    if head == LParen then
      match Expr(sc, Head(toks), Rest(toks), trace)
      case Good(v, after, tr) => if Head(after) == RParen then Good(v, Rest(after), tr) else Bad(UnexpectedToken, tr)
      case Bad(e, tr) => Bad(e, tr)
    else Resolve(sc, head, toks, trace)
  }

  /** An expression whose first token has been taken: terms folded left to right. */
  function Expr(sc: Scope, head: Token, toks: seq<Token>, trace: Trace): (r: Eval<Word>)
    ensures r.Good? ==> head != Eof && |r.toks| <= |toks|
    decreases Size(head, toks), 2
  {
    match Operand(sc, head, toks, trace)
    case Good(v, after, tr) => Tail(sc, v, after, tr)
    case Bad(e, tr) => Bad(e, tr)
  }

  function Tail(sc: Scope, acc: Word, toks: seq<Token>, trace: Trace): (r: Eval<Word>)
    ensures r.Good? ==> |r.toks| <= |toks|
    decreases |toks|, 3
  {
    if !IsBinary(Head(toks)) then Good(acc, toks, trace)
    else
      var ahead := Rest(toks);
      match Operand(sc, Head(ahead), Rest(ahead), trace)
      case Good(v, after, tr) =>
        (match Apply(toks[0].op, acc, v)
         case Ok(w) => Tail(sc, w, after, tr)
         case Err(e) => Bad(e, tr))
      case Bad(e, tr) => Bad(e, tr)
  }

  /** An expression that starts at the next token. */
  function Whole(sc: Scope, toks: seq<Token>, trace: Trace): (r: Eval<Word>)
    ensures r.Good? ==> |r.toks| <= |toks|
  {
    Expr(sc, Head(toks), Rest(toks), trace)
  }

  function Atomic(sc: Scope, toks: seq<Token>, trace: Trace): (r: Eval<Word>)
    ensures r.Good? ==> |r.toks| <= |toks|
  {
    Operand(sc, Head(toks), Rest(toks), trace)
  }

  /** A statement ends at a semicolon or at the end of the line. */
  predicate Ends(toks: seq<Token>) {
    Head(toks) == Semicolon || Head(toks) == Eof
  }

  function Terminated<T>(value: T, toks: seq<Token>, trace: Trace): (r: Eval<T>)
    ensures r.Good? ==> |r.toks| <= |toks|
  {
    if Ends(toks) then Good(value, Rest(toks), trace) else Bad(MissingSemicolon, trace)
  }

  // ---- function bodies ----

  /** One statement of a body, its expressions folded. */
  datatype Stmt =
    | PokeStmt(addr: Word, value: Word)
    | PeekStmt(addr: Word)
    | CallStmt(name: string)
    | ExprStmt(value: Word)

  /** The operand pair of `poke`: an atomic address, then an expression. */
  function AddrAndValue(sc: Scope, toks: seq<Token>, trace: Trace): (r: Eval<(Word, Word)>)
    ensures r.Good? ==> |r.toks| <= |toks|
  {
    match Atomic(sc, toks, trace)
    case Good(addr, after, tr) =>
      (match Whole(sc, after, tr)
       case Good(v, after', tr') => Terminated((addr, v), after', tr')
       case Bad(e, tr') => Bad(e, tr'))
    case Bad(e, tr) => Bad(e, tr)
  }

  function Addr(sc: Scope, toks: seq<Token>, trace: Trace): (r: Eval<Word>)
    ensures r.Good? ==> |r.toks| <= |toks|
  {
    match Atomic(sc, toks, trace)
    case Good(addr, after, tr) => Terminated(addr, after, tr)
    case Bad(e, tr) => Bad(e, tr)
  }

  /** A call or a bare expression that starts with the identifier just taken. */
  function CallOrExpr(sc: Scope, id: string, toks: seq<Token>, trace: Trace): (r: Eval<Stmt>)
    ensures r.Good? ==> |r.toks| <= |toks|
  {
    if Head(toks) == LParen then
      if Head(Rest(toks)) == RParen then Terminated(CallStmt(id), Rest(Rest(toks)), trace)
      else Bad(UnexpectedToken, trace)
    else
      match Expr(sc, Identifier(id), toks, trace)
      case Good(v, after, tr) => Terminated(ExprStmt(v), after, tr)
      case Bad(e, tr) => Bad(e, tr)
  }

  function BodyStmt(sc: Scope, toks: seq<Token>, trace: Trace): (r: Eval<Stmt>)
    ensures r.Good? ==> |r.toks| < |toks|
  {
    if !Head(toks).Identifier? then Bad(UnexpectedToken, trace)
    else if VerbOf(toks[0].name) == PokeVerb then
      match AddrAndValue(sc, Rest(toks), trace)
      case Good(p, after, tr) => Good(PokeStmt(p.0, p.1), after, tr)
      case Bad(e, tr) => Bad(e, tr)
    else if VerbOf(toks[0].name) == PeekVerb then
      match Addr(sc, Rest(toks), trace)
      case Good(a, after, tr) => Good(PeekStmt(a), after, tr)
      case Bad(e, tr) => Bad(e, tr)
    else CallOrExpr(sc, toks[0].name, Rest(toks), trace)
  }

  /**
   * A function slot; a free one has the empty name.  `src` keeps the statements
   * the body was compiled from, for the sake of the specification.
   */
  datatype Fn = Fn(name: string, body: seq<Word>, src: seq<Stmt>)

  const FREE_FN := Fn("", [], [])

  function FindFn(fns: seq<Fn>, name: string): (r: Option<nat>)
    ensures r.Some? ==> r.value < |fns| && fns[r.value].name == name && name != ""
    ensures r.None? ==> forall i | 0 <= i < |fns| && fns[i].name != "" :: fns[i].name != name
    decreases |fns|
  {
    if fns == [] then None
    else
      var n := |fns| - 1;
      match FindFn(fns[..n], name)
      case Some(i) => Some(i)
      case None => if fns[n].name != "" && fns[n].name == name then Some(n) else None
  }

  function FindFree(fns: seq<Fn>): (r: Option<nat>)
    ensures r.Some? ==> r.value < |fns| && fns[r.value].name == "" && forall i | 0 <= i < r.value :: fns[i].name != ""
    ensures r.None? ==> forall i | 0 <= i < |fns| :: fns[i].name != ""
    decreases |fns|
  {
    if fns == [] then None
    else
      var n := |fns| - 1;
      match FindFree(fns[..n])
      case Some(i) => Some(i)
      case None => if fns[n].name == "" then Some(n) else None
  }

  /** Who may touch what while a line is parsed. */
  datatype Guard = Guard(arch: Arch, claims: Claims)

  predicate Admits(g: Guard, addr: Word) {
    Allowed(g.arch, g.claims, addr)
  }

  function Pushed(stream: seq<Word>, words: seq<Word>): Result<seq<Word>, ParseError> {
    if |stream| + |words| <= MAX_STREAM_WORDS then Ok(stream + words) else Err(StreamFull)
  }

  /** The code of one statement behind the code so far; a call is the callee's body spliced in. */
  function Emitted(g: Guard, fns: seq<Fn>, stmt: Stmt, stream: seq<Word>): Result<seq<Word>, ParseError> {
    match stmt
    case PokeStmt(addr, value) =>
      if Admits(g, addr) then Pushed(stream, ItemWords(Item.Poke(addr, value))) else Err(CapabilityViolation)
    case PeekStmt(addr) =>
      if Admits(g, addr) then Pushed(stream, ItemWords(Item.Peek(addr))) else Err(CapabilityViolation)
    case CallStmt(name) =>
      (match FindFn(fns, name)
       case Some(i) => Pushed(stream, fns[i].body)
       case None => Err(UnknownSymbol))
    case ExprStmt(_) => Ok(stream)
  }

  datatype Body = Body(src: seq<Stmt>, stream: seq<Word>)

  /** One more statement, compiled behind the body so far. */
  function NextStmt(sc: Scope, g: Guard, fns: seq<Fn>, toks: seq<Token>, body: Body, trace: Trace): (r: Eval<Body>)
    ensures r.Good? ==> |r.toks| < |toks|
  {
    match BodyStmt(sc, toks, trace)
    case Bad(e, tr) => Bad(e, tr)
    case Good(stmt, after, tr) =>
      match Emitted(g, fns, stmt, body.stream)
      case Ok(stream) => Good(Body(body.src + [stmt], stream), after, tr)
      case Err(e) => Bad(e, tr)
  }

  /** Statements up to the closing brace, compiled as they are read. */
  function BodyStmts(sc: Scope, g: Guard, fns: seq<Fn>, toks: seq<Token>, body: Body, trace: Trace): Eval<Body>
    decreases |toks|
  {
    if Head(toks) == RBrace then Good(body, Rest(toks), trace)
    else if Head(toks) == Eof then Bad(UnexpectedToken, trace)
    else
      match NextStmt(sc, g, fns, toks, body, trace)
      case Good(more, after, tr) => BodyStmts(sc, g, fns, after, more, tr)
      case Bad(e, tr) => Bad(e, tr)
  }

  // ---- lines ----

  datatype Outcome =
    | Bound(name: string, value: Word)
    | FnDefined(name: string)
    | RunStream(program: StreamProgram)
    | ClaimCap(name: string)
    | DropCap(name: string)
    | SetBitAt(addr: Word, bit: Word)
    | ClrBitAt(addr: Word, bit: Word)
    | Help
    | Banner
    | SysAudit
    | EnforcedPoke(addr: Word, value: Word)
    | EnforcedPeek(addr: Word)

  /** What survives from line to line. */
  datatype State = State(env: Env, fns: seq<Fn>)

  const INITIAL := State(map[], [FREE_FN, FREE_FN])

  datatype Parsed = Parsed(result: Result<Outcome, ParseError>, state: State, trace: Trace)

  function Named(toks: seq<Token>): Result<string, ParseError> {
    if !Head(toks).Identifier? then Err(UnexpectedToken)
    else if |toks[0].name| > NAME_MAX then Err(NameTooLong)
    else Ok(toks[0].name)
  }

  function ParseLet(sc: Scope, st: State, toks: seq<Token>, trace: Trace): Parsed {
    match Named(toks)
    case Err(e) => Parsed(Err(e), st, trace)
    case Ok(name) =>
      if Head(Rest(toks)) != Operator('=') then Parsed(Err(UnexpectedToken), st, trace)
      else
        match Whole(sc, Rest(Rest(toks)), trace)
        case Bad(e, tr) => Parsed(Err(e), st, tr)
        case Good(v, after, tr) =>
          if !Ends(after) then Parsed(Err(MissingSemicolon), st, tr)
          else if name in st.env || |st.env| < SYMBOL_SLOTS then
            Parsed(Ok(Bound(name, v)), st.(env := st.env[name := v]), tr)
          else Parsed(Err(SymbolTableFull), st, tr)
  }

  /** The slot a new function goes to. */
  function AllocFnSlot(fns: seq<Fn>, name: string): (r: Result<nat, ParseError>)
    ensures r.Ok? ==> r.value < |fns| && fns[r.value].name == ""
  {
    if FindFn(fns, name).Some? then Err(DuplicateFn)
    else
      match FindFree(fns)
      case Some(i) => Ok(i)
      case None => Err(FnTableFull)
  }

  /** Files a compiled body under its name: the size limit, then the slot. */
  function DefineFn(st: State, name: string, body: Body): (r: (Result<Outcome, ParseError>, State))
  {
    if |body.stream| > FN_BODY_WORDS then (Err(StreamFull), st)
    else
      match AllocFnSlot(st.fns, name)
      case Err(e) => (Err(e), st)
      case Ok(i) => (Ok(FnDefined(name)), st.(fns := st.fns[i := Fn(name, body.stream, body.src)]))
  }

  function ParseFn(sc: Scope, g: Guard, st: State, toks: seq<Token>, trace: Trace): Parsed {
    match Named(toks)
    case Err(e) => Parsed(Err(e), st, trace)
    case Ok(name) =>
      if |toks| < 4 || toks[1] != LParen || toks[2] != RParen || toks[3] != LBrace then
        Parsed(Err(UnexpectedToken), st, trace)
      else
        FiledBody(st, name, BodyStmts(sc, g, st.fns, toks[4..], Body([], []), trace))
  }

  function FiledBody(st: State, name: string, body: Eval<Body>): Parsed {
    match body
    case Bad(e, tr) => Parsed(Err(e), st, tr)
    case Good(b, _, tr) => Parsed(DefineFn(st, name, b).0, DefineFn(st, name, b).1, tr)
  }

  function Guarded(g: Guard, addr: Word, ok: Outcome): Result<Outcome, ParseError> {
    if Admits(g, addr) then Ok(ok) else Err(CapabilityViolation)
  }

  function CallOutcome(fns: seq<Fn>, name: string): Result<Outcome, ParseError> {
    match FindFn(fns, name)
    case Some(i) =>
      if |fns[i].body| < MAX_STREAM_WORDS then Ok(RunStream(StreamProgram(fns[i].body + [HALT], false)))
      else Err(StreamFull)
    case None => Err(UnknownSymbol)
  }

  function ValueLine(r: Eval<Word>, st: State): Parsed {
    match r
    case Bad(e, tr) => Parsed(Err(e), st, tr)
    case Good(v, after, tr) =>
      Parsed(if Ends(after) then Ok(RunStream(ValueProgram(v))) else Err(MissingSemicolon), st, tr)
  }

  /** `reg_set_bit` and `reg_clr_bit` take two atomic operands. */
  function TwoAtoms(sc: Scope, toks: seq<Token>, trace: Trace): Eval<(Word, Word)> {
    match Atomic(sc, toks, trace)
    case Good(addr, after, tr) =>
      (match Atomic(sc, after, tr)
       case Good(bit, after', tr') => Terminated((addr, bit), after', tr')
       case Bad(e, tr') => Bad(e, tr'))
    case Bad(e, tr) => Bad(e, tr)
  }

  function NameLine(st: State, toks: seq<Token>, trace: Trace, claim: bool): Parsed {
    match Named(toks)
    case Err(e) => Parsed(Err(e), st, trace)
    case Ok(name) =>
      var ok := if claim then ClaimCap(name) else DropCap(name);
      Parsed(if Ends(Rest(toks)) then Ok(ok) else Err(MissingSemicolon), st, trace)
  }

  /** The four statements that name an address, each behind the mandatory access check. */
  function AccessLine(sc: Scope, g: Guard, st: State, verb: Verb, toks: seq<Token>, trace: Trace): Parsed {
    if verb == PeekVerb then
      match Addr(sc, toks, trace)
      case Good(a, _, tr) => Parsed(Guarded(g, a, EnforcedPeek(a)), st, tr)
      case Bad(e, tr) => Parsed(Err(e), st, tr)
    else if verb == PokeVerb then
      match AddrAndValue(sc, toks, trace)
      case Good(p, _, tr) => Parsed(Guarded(g, p.0, EnforcedPoke(p.0, p.1)), st, tr)
      case Bad(e, tr) => Parsed(Err(e), st, tr)
    else
      match TwoAtoms(sc, toks, trace)
      case Good(p, _, tr) =>
        Parsed(Guarded(g, p.0, if verb == SetBitVerb then SetBitAt(p.0, p.1) else ClrBitAt(p.0, p.1)), st, tr)
      case Bad(e, tr) => Parsed(Err(e), st, tr)
  }

  function ParseCommand(sc: Scope, g: Guard, st: State, id: string, toks: seq<Token>, trace: Trace): Parsed {
    match VerbOf(id)
    case ClaimVerb => NameLine(st, toks, trace, true)
    case DropVerb => NameLine(st, toks, trace, false)
    case HelpVerb => Parsed(Ok(Help), st, trace)
    case BannerVerb => Parsed(Ok(Banner), st, trace)
    case AuditVerb => Parsed(Ok(SysAudit), st, trace)
    case NoVerb => OtherLine(sc, st, id, toks, trace)
    case verb => AccessLine(sc, g, st, verb, toks, trace)
  }

  /** A call of a function, or an expression that starts with a name. */
  function OtherLine(sc: Scope, st: State, id: string, toks: seq<Token>, trace: Trace): Parsed {
    if Head(toks) == LParen then
      if Head(Rest(toks)) != RParen then Parsed(Err(UnexpectedToken), st, trace)
      else if !Ends(Rest(Rest(toks))) then Parsed(Err(MissingSemicolon), st, trace)
      else Parsed(CallOutcome(st.fns, id), st, trace)
    else ValueLine(Expr(sc, Identifier(id), toks, trace), st)
  }

  /** One line of input. */
  function Parse(bus: Bus, g: Guard, st: State, line: string, trace: Trace): Parsed {
    var toks := Tokens(line);
    var sc := Scope(st.env, bus);
    match Head(toks)
    case Eof => Parsed(Err(EmptyLine), st, trace)
    case KwLet => ParseLet(sc, st, Rest(toks), trace)
    case KwFn => ParseFn(sc, g, st, Rest(toks), trace)
    case Identifier(id) => ParseCommand(sc, g, st, id, Rest(toks), trace)
    case Literal(_) => ValueLine(Expr(sc, toks[0], Rest(toks), trace), st)
    case Operator(_) => ValueLine(Expr(sc, toks[0], Rest(toks), trace), st)
    case LParen => ValueLine(Expr(sc, toks[0], Rest(toks), trace), st)
    case Error(e) => Parsed(Err(LexFailure(e)), st, trace)
    case _ => Parsed(Err(UnexpectedToken), st, trace)
  }
}
