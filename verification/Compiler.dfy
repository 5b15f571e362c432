/**
 * The front end as it runs (src/compiler/parser.rs): a cursor with one token of
 * lookahead, recursive descent, a scratch stream and tables updated in place.
 * Every method is tied to the meaning given in `Grammar`.
 */
module Compiler {
  import opened Wrappers
  import opened Machine
  import opened Lexing
  import opened Exec
  import opened Native
  import opened Program
  import opened Symbols
  import opened Registry
  import opened Grammar

  /** One-token-lookahead cursor over the lexer. */
  class Cur {
    const lx: Lexer
    var ahead: Option<Token>

    ghost predicate Valid()
      reads this, lx
    {
      lx.Valid() && (ahead == Some(Eof) ==> Tokens(lx.Ahead()) == [])
    }

    /** The tokens not yet consumed. */
    ghost function Toks(): seq<Token>
      reads this, lx
      requires Valid()
    {
      if ahead.None? then Tokens(lx.Ahead())
      else if ahead.value == Eof then []
      else [ahead.value] + Tokens(lx.Ahead())
    }

    constructor (line: string)
      ensures Valid() && fresh(lx) && Toks() == Tokens(line)
    {
      lx := new Lexer(line);
      ahead := None;
    }

    method Lexed() returns (t: Token)
      requires Valid() && ahead.None?
      modifies lx
      ensures Valid()
      ensures t == Head(old(Toks())) && Toks() == Rest(old(Toks()))
      ensures t == Eof ==> old(Toks()) == []
    {
      ghost var text := lx.Ahead();
      LexProgress(text);
      t := lx.NextToken();
      assert lx.Ahead() == text[Lex(text).1..];
      if t == Eof {
        assert lx.Ahead() == "";
      }
    }

    method Next() returns (t: Token)
      requires Valid()
      modifies this, lx
      ensures Valid()
      ensures t == Head(old(Toks())) && Toks() == Rest(old(Toks()))
    {
      if ahead.Some? {
        t := ahead.value;
        ahead := None;
      } else {
        t := Lexed();
      }
    }

    method PeekToken() returns (t: Token)
      requires Valid()
      modifies this, lx
      ensures Valid()
      ensures t == Head(old(Toks())) && Toks() == old(Toks())
    {
      if ahead.None? {
        var next := Lexed();
        ahead := Some(next);
      }
      t := ahead.value;
    }
  }

  /** What a parsing method did, in the terms of the grammar. */
  function Seen<T>(r: Result<T, ParseError>, toks: seq<Token>, trace: Trace): Eval<T> {
    match r
    case Ok(v) => Good(v, toks, trace)
    case Err(e) => Bad(e, trace)
  }

  /** The stream after a push that may run full. */
  function Streamed(r: Result<(), ParseError>, stream: seq<Word>): Result<seq<Word>, ParseError> {
    match r
    case Ok(_) => Ok(stream)
    case Err(e) => Err(e)
  }

  function SeenBody(r: Result<(), ParseError>, body: Body, toks: seq<Token>, trace: Trace): Eval<Body> {
    match r
    case Ok(_) => Good(body, toks, trace)
    case Err(e) => Bad(e, trace)
  }

  /** The persistent tables and the scratch stream. */
  class Compiler {
    const symbols: SymbolTable
    var fnNames: seq<string>
    var fnBodies: seq<seq<Word>>
    ghost var fnSrcs: seq<seq<Stmt>>
    const stream: array<Word>
    var streamLen: nat

    ghost predicate Valid()
      reads this, symbols, symbols.slots
    {
      symbols.Valid() &&
      |fnNames| == |fnBodies| == |fnSrcs| == MAX_FNS &&
      stream.Length == MAX_STREAM_WORDS && streamLen <= MAX_STREAM_WORDS
    }

    ghost function Fns(): seq<Fn>
      reads this
      requires |fnNames| == |fnBodies| == |fnSrcs|
    {
      seq(|fnNames|, i requires 0 <= i < |fnNames| && |fnNames| == |fnBodies| == |fnSrcs| reads this =>
        Fn(fnNames[i], fnBodies[i], fnSrcs[i]))
    }

    ghost function Persistent(): State
      reads this, symbols, symbols.slots
      requires Valid()
    {
      State(symbols.Contents(), Fns())
    }

    ghost function Stream(): seq<Word>
      reads this, stream
      requires streamLen <= stream.Length
    {
      stream[..streamLen]
    }

    constructor ()
      ensures Valid() && fresh(symbols) && fresh(symbols.slots) && fresh(stream)
      ensures Persistent() == INITIAL
    {
      symbols := new SymbolTable();
      fnNames := ["", ""];
      fnBodies := [[], []];
      fnSrcs := [[], []];
      stream := new Word[MAX_STREAM_WORDS];
      streamLen := 0;
    }

    // ---- expressions ----

    ghost function Names(mem: Memory): Scope
      reads symbols, symbols.slots
    {
      Scope(symbols.Contents(), mem.bus)
    }

    method ResolveTerm(tok: Token, cur: Cur, mem: Memory) returns (r: Result<Word, ParseError>)
      requires symbols.Valid() && cur.Valid()
      modifies cur, cur.lx, mem
      ensures cur.Valid() && Seen(r, cur.Toks(), mem.trace) == Resolve(Names(mem), tok, old(cur.Toks()), old(mem.trace))
      decreases Size(tok, cur.Toks()), 0
    {
      hide VerbOf;
      match tok
      case Literal(v) => return Ok(v as Word);
      case Identifier(id) =>
        if VerbOf(id) == PeekVerb {
          var addr := ParseAtomicTerm(cur, mem);
          if addr.Err? {
            return addr;
          }
          var value := mem.PeekU32(addr.value);
          return Ok(value);
        }
        var found := symbols.LookupSymbol(id);
        return if found.Some? then Ok(found.value) else Err(UnknownSymbol);
      case Error(e) => return Err(LexFailure(e));
      case _ => return Err(UnexpectedToken);
    }

    /** What follows an opening parenthesis, up to its partner. */
    method Parenthesised(cur: Cur, mem: Memory) returns (r: Result<Word, ParseError>)
      requires symbols.Valid() && cur.Valid()
      modifies cur, cur.lx, mem
      ensures cur.Valid()
      ensures Seen(r, cur.Toks(), mem.trace) == Operand(Names(mem), LParen, old(cur.Toks()), old(mem.trace))
      decreases |cur.Toks()| + 1, 0
    {
      r := EvalExpr(None, cur, mem);
      if r.Err? {
        return;
      }
      var close := cur.Next();
      if close != RParen {
        return Err(UnexpectedToken);
      }
    }

    /** A term or parenthesised expression whose first token has been taken. */
    method TakenOperand(tok: Token, cur: Cur, mem: Memory) returns (r: Result<Word, ParseError>)
      requires symbols.Valid() && cur.Valid()
      modifies cur, cur.lx, mem
      ensures cur.Valid() && Seen(r, cur.Toks(), mem.trace) == Operand(Names(mem), tok, old(cur.Toks()), old(mem.trace))
      decreases Size(tok, cur.Toks()), 1
    {
      if tok == LParen {
        r := Parenthesised(cur, mem);
      } else {
        r := ResolveTerm(tok, cur, mem);
      }
    }

    method ParseAtomicTerm(cur: Cur, mem: Memory) returns (r: Result<Word, ParseError>)
      requires symbols.Valid() && cur.Valid()
      modifies cur, cur.lx, mem
      ensures cur.Valid() && Seen(r, cur.Toks(), mem.trace) == Atomic(Names(mem), old(cur.Toks()), old(mem.trace))
      decreases |cur.Toks()|, 2
    {
      var tok := cur.Next();
      r := TakenOperand(tok, cur, mem);
    }

    method EvalExpr(first: Option<Token>, cur: Cur, mem: Memory) returns (r: Result<Word, ParseError>)
      requires symbols.Valid() && cur.Valid()
      modifies cur, cur.lx, mem
      ensures cur.Valid()
      ensures Seen(r, cur.Toks(), mem.trace)
           == match first
              case Some(t) => Expr(Names(mem), t, old(cur.Toks()), old(mem.trace))
              case None => Whole(Names(mem), old(cur.Toks()), old(mem.trace))
      decreases match first case Some(t) => Size(t, cur.Toks()) case None => |cur.Toks()|, 4
    {
      var head: Token;
      if first.Some? {
        head := first.value;
      } else {
        head := cur.Next();
      }
      var operand := TakenOperand(head, cur, mem);
      if operand.Err? {
        return operand;
      }
      r := FoldOperators(operand.value, cur, mem);
    }

    /** The loop of the expression evaluator. */
    method FoldOperators(first: Word, cur: Cur, mem: Memory) returns (r: Result<Word, ParseError>)
      requires symbols.Valid() && cur.Valid()
      modifies cur, cur.lx, mem
      ensures cur.Valid() && Seen(r, cur.Toks(), mem.trace) == Tail(Names(mem), first, old(cur.Toks()), old(mem.trace))
      decreases |cur.Toks()|, 3
    {
      hide Operand, Apply;
      var acc := first;
      var next := cur.PeekToken();
      while IsBinary(next)
        invariant cur.Valid() && next == Head(cur.Toks())
        invariant |cur.Toks()| <= |old(cur.Toks())|
        invariant Tail(Names(mem), acc, cur.Toks(), mem.trace)
               == Tail(Names(mem), first, old(cur.Toks()), old(mem.trace))
        decreases |cur.Toks()|
      {
        var op := cur.Next();
        var tok := cur.Next();
        var rhs := TakenOperand(tok, cur, mem);
        if rhs.Err? {
          return rhs;
        }
        var applied := Apply(op.op, acc, rhs.value);
        if applied.Err? {
          return applied;
        }
        acc := applied.value;
        next := cur.PeekToken();
      }
      return Ok(acc);
    }

    // ---- stream emission ----

    method StreamPush(word: Word) returns (ok: bool)
      requires streamLen <= stream.Length == MAX_STREAM_WORDS
      modifies this`streamLen, stream
      ensures streamLen <= stream.Length
      ensures ok <==> |old(Stream())| < MAX_STREAM_WORDS
      ensures Stream() == old(Stream()) + if ok then [word] else []
    {
      if streamLen >= MAX_STREAM_WORDS {
        return false;
      }
      stream[streamLen] := word;
      streamLen := streamLen + 1;
      assert Stream() == old(Stream()) + [word];
      return true;
    }

    /** Pushes a run of words, stopping at the first that does not fit. */
    method StreamPushAll(words: seq<Word>) returns (r: Result<(), ParseError>)
      requires streamLen <= stream.Length == MAX_STREAM_WORDS
      modifies this`streamLen, stream
      ensures streamLen <= stream.Length
      ensures Streamed(r, Stream()) == Pushed(old(Stream()), words)
    {
      for w := 0 to |words|
        invariant streamLen <= stream.Length
        invariant Stream() == old(Stream()) + words[..w]
      {
        var ok := StreamPush(words[w]);
        if !ok {
          return Err(StreamFull);
        }
        assert words[..w + 1] == words[..w] + [words[w]];
      }
      assert words[..|words|] == words;
      return Ok(());
    }

    // ---- functions ----

    method LookupFn(name: string) returns (r: Option<nat>)
      requires |fnNames| == |fnBodies| == |fnSrcs| == MAX_FNS
      ensures r == FindFn(Fns(), name)
    {
      for i := 0 to |fnNames|
        invariant FindFn(Fns()[..i], name) == None
      {
        assert Fns()[..i + 1][..i] == Fns()[..i];
        if |fnNames[i]| > 0 && fnNames[i] == name {
          FindFnPrefix(Fns(), name, i);
          return Some(i);
        }
      }
      assert Fns()[..|fnNames|] == Fns();
      return None;
    }

    method AllocSlot(name: string) returns (r: Result<nat, ParseError>)
      requires |fnNames| == |fnBodies| == |fnSrcs| == MAX_FNS
      ensures r == AllocFnSlot(Fns(), name)
    {
      var found := LookupFn(name);
      if found.Some? {
        return Err(DuplicateFn);
      }
      for i := 0 to |fnNames|
        invariant FindFree(Fns()[..i]) == None
      {
        assert Fns()[..i + 1][..i] == Fns()[..i];
        if |fnNames[i]| == 0 {
          FindFreePrefix(Fns(), i);
          return Ok(i);
        }
      }
      assert Fns()[..|fnNames|] == Fns();
      return Err(FnTableFull);
    }

    // ---- statements of a body ----

    method ExpectSemicolon(cur: Cur) returns (ok: bool)
      requires cur.Valid()
      modifies cur, cur.lx
      ensures cur.Valid() && cur.Toks() == Rest(old(cur.Toks()))
      ensures ok <==> Ends(old(cur.Toks()))
    {
      var t := cur.Next();
      ok := t == Semicolon || t == Eof;
    }

    method ParseAddr(cur: Cur, mem: Memory) returns (r: Result<Word, ParseError>)
      requires symbols.Valid() && cur.Valid()
      modifies cur, cur.lx, mem
      ensures cur.Valid() && Seen(r, cur.Toks(), mem.trace) == Addr(Names(mem), old(cur.Toks()), old(mem.trace))
    {
      hide Operand;
      r := ParseAtomicTerm(cur, mem);
      if r.Err? {
        return;
      }
      var ended := ExpectSemicolon(cur);
      if !ended {
        return Err(MissingSemicolon);
      }
    }

    method ParseAddrAndValue(cur: Cur, mem: Memory) returns (r: Result<(Word, Word), ParseError>)
      requires symbols.Valid() && cur.Valid()
      modifies cur, cur.lx, mem
      ensures cur.Valid() && Seen(r, cur.Toks(), mem.trace) == AddrAndValue(Names(mem), old(cur.Toks()), old(mem.trace))
    {
      hide Operand, Expr;
      var addr := ParseAtomicTerm(cur, mem);
      if addr.Err? {
        return Err(addr.error);
      }
      var value := EvalExpr(None, cur, mem);
      if value.Err? {
        return Err(value.error);
      }
      var ended := ExpectSemicolon(cur);
      if !ended {
        return Err(MissingSemicolon);
      }
      return Ok((addr.value, value.value));
    }

    method ParseTwoAtoms(cur: Cur, mem: Memory) returns (r: Result<(Word, Word), ParseError>)
      requires symbols.Valid() && cur.Valid()
      modifies cur, cur.lx, mem
      ensures cur.Valid() && Seen(r, cur.Toks(), mem.trace) == TwoAtoms(Names(mem), old(cur.Toks()), old(mem.trace))
    {
      hide Operand;
      var addr := ParseAtomicTerm(cur, mem);
      if addr.Err? {
        return Err(addr.error);
      }
      var bit := ParseAtomicTerm(cur, mem);
      if bit.Err? {
        return Err(bit.error);
      }
      var ended := ExpectSemicolon(cur);
      if !ended {
        return Err(MissingSemicolon);
      }
      return Ok((addr.value, bit.value));
    }

    /** The rest of a call or bare expression that starts with an identifier. */
    method ParseCallOrExpr(id: string, cur: Cur, mem: Memory) returns (r: Result<Stmt, ParseError>)
      requires symbols.Valid() && cur.Valid()
      modifies cur, cur.lx, mem
      ensures cur.Valid()
      ensures Seen(r, cur.Toks(), mem.trace) == CallOrExpr(Names(mem), id, old(cur.Toks()), old(mem.trace))
    {
      hide Expr;
      var next := cur.PeekToken();
      if next == LParen {
        var _ := cur.Next();
        var close := cur.Next();
        if close != RParen {
          return Err(UnexpectedToken);
        }
        var ended := ExpectSemicolon(cur);
        return if ended then Ok(CallStmt(id)) else Err(MissingSemicolon);
      }
      var value := EvalExpr(Some(Identifier(id)), cur, mem);
      if value.Err? {
        return Err(value.error);
      }
      var ended := ExpectSemicolon(cur);
      return if ended then Ok(ExprStmt(value.value)) else Err(MissingSemicolon);
    }

    /** Reads one statement of a body. */
    method ReadBodyStmt(cur: Cur, mem: Memory) returns (r: Result<Stmt, ParseError>)
      requires symbols.Valid() && cur.Valid()
      modifies cur, cur.lx, mem
      ensures cur.Valid() && Seen(r, cur.Toks(), mem.trace) == BodyStmt(Names(mem), old(cur.Toks()), old(mem.trace))
    {
      hide VerbOf, Addr, AddrAndValue, CallOrExpr;
      var tok := cur.Next();
      if !tok.Identifier? {
        return Err(UnexpectedToken);
      }
      if VerbOf(tok.name) == PokeVerb {
        var p := ParseAddrAndValue(cur, mem);
        return match p case Ok(v) => Ok(PokeStmt(v.0, v.1)) case Err(e) => Err(e);
      } else if VerbOf(tok.name) == PeekVerb {
        var addr := ParseAddr(cur, mem);
        return match addr case Ok(v) => Ok(PeekStmt(v)) case Err(e) => Err(e);
      } else {
        r := ParseCallOrExpr(tok.name, cur, mem);
      }
    }

    /** Compiles the statement just read into the stream, after the access check its operands call for. */
    method EmitBodyStmt(stmt: Stmt, reg: CapabilityRegistry) returns (r: Result<(), ParseError>)
      requires Valid() && reg.Valid()
      modifies this`streamLen, stream
      ensures Valid() && reg.Valid() && Fns() == old(Fns())
      ensures Streamed(r, Stream()) == Emitted(Guard(reg.arch, reg.claims), Fns(), stmt, old(Stream()))
    {
      hide CheckAccess, FindFn;
      match stmt
      case PokeStmt(addr, value) =>
        var access := reg.Check(addr);
        if access.Denied? {
          return Err(CapabilityViolation);
        }
        r := StreamPushAll([LIT, addr, LIT, value, WRITE]);
      case PeekStmt(addr) =>
        var access := reg.Check(addr);
        if access.Denied? {
          return Err(CapabilityViolation);
        }
        r := StreamPushAll([LIT, addr, LOAD]);
      case CallStmt(name) =>
        r := SpliceCall(name);
      case ExprStmt(_) =>
        r := Ok(());
    }

    method SpliceCall(name: string) returns (r: Result<(), ParseError>)
      requires Valid()
      modifies this`streamLen, stream
      ensures Valid() && Fns() == old(Fns())
      ensures Streamed(r, Stream())
           == match FindFn(Fns(), name)
              case None => Err(UnknownSymbol)
              case Some(i) => Pushed(old(Stream()), Fns()[i].body)
    {
      var index := LookupFn(name);
      if index.None? {
        return Err(UnknownSymbol);
      }
      r := StreamPushAll(fnBodies[index.value]);
    }

    /** Reads one statement and compiles it behind what is in the stream. */
    method ParseBodyStmt(cur: Cur, mem: Memory, reg: CapabilityRegistry, ghost src: seq<Stmt>)
        returns (r: Result<(), ParseError>, ghost after: seq<Stmt>)
      requires Valid() && cur.Valid() && reg.Valid()
      modifies cur, cur.lx, mem, this`streamLen, stream
      ensures Valid() && reg.Valid() && cur.Valid() && Fns() == old(Fns())
      ensures SeenBody(r, Body(after, Stream()), cur.Toks(), mem.trace)
           == NextStmt(Names(mem), Guard(reg.arch, reg.claims), Fns(), old(cur.Toks()), Body(src, old(Stream())),
                       old(mem.trace))
    {
      hide BodyStmt, Emitted;
      after := src;
      var stmt := ReadBodyStmt(cur, mem);
      if stmt.Err? {
        return Err(stmt.error), after;
      }
      r := EmitBodyStmt(stmt.value, reg);
      after := src + [stmt.value];
    }

    /** One round of the body loop; `over` when it met the brace or an error. */
    method BodyRound(cur: Cur, mem: Memory, reg: CapabilityRegistry, ghost src: seq<Stmt>)
        returns (over: bool, r: Result<(), ParseError>, ghost after: seq<Stmt>)
      requires Valid() && cur.Valid() && reg.Valid()
      modifies cur, cur.lx, mem, this`streamLen, stream
      ensures Valid() && reg.Valid() && cur.Valid() && Fns() == old(Fns())
      ensures var round := BodyStmts(Names(mem), Guard(reg.arch, reg.claims), Fns(), old(cur.Toks()),
                                     Body(src, old(Stream())), old(mem.trace));
              if over then SeenBody(r, Body(after, Stream()), cur.Toks(), mem.trace) == round
              else
                |cur.Toks()| < |old(cur.Toks())| &&
                BodyStmts(Names(mem), Guard(reg.arch, reg.claims), Fns(), cur.Toks(), Body(after, Stream()), mem.trace)
                == round
    {
      hide NextStmt, BodyStmts;
      BodyStmtsStep(Names(mem), Guard(reg.arch, reg.claims), Fns(), cur.Toks(), Body(src, Stream()), mem.trace);
      after := src;
      var next := cur.PeekToken();
      if next == RBrace {
        var _ := cur.Next();
        return true, Ok(()), src;
      }
      if next == Eof {
        return true, Err(UnexpectedToken), src;
      }
      r, after := ParseBodyStmt(cur, mem, reg, src);
      over := r.Err?;
    }

    /** Statements up to the closing brace. */
    method CompileBody(cur: Cur, mem: Memory, reg: CapabilityRegistry)
        returns (r: Result<(), ParseError>, ghost src: seq<Stmt>)
      requires Valid() && cur.Valid() && reg.Valid()
      modifies cur, cur.lx, mem, this`streamLen, stream
      ensures Valid() && reg.Valid() && cur.Valid() && Fns() == old(Fns())
      ensures SeenBody(r, Body(src, Stream()), cur.Toks(), mem.trace)
           == BodyStmts(Names(mem), Guard(reg.arch, reg.claims), Fns(), old(cur.Toks()), Body([], []), old(mem.trace))
    {
      hide BodyStmts, Bindings, Tokens;
      streamLen := 0;
      r, src := Ok(()), [];
      ghost var sc, g, fns := Names(mem), Guard(reg.arch, reg.claims), Fns();
      ghost var all := BodyStmts(sc, g, fns, cur.Toks(), Body([], []), mem.trace);
      var over := false;
      while !over
        invariant Valid() && reg.Valid() && cur.Valid() && Fns() == fns
        invariant if over then SeenBody(r, Body(src, Stream()), cur.Toks(), mem.trace) == all
                  else BodyStmts(sc, g, fns, cur.Toks(), Body(src, Stream()), mem.trace) == all
        decreases if over then 0 else |cur.Toks()| + 1
      {
        over, r, src := BodyRound(cur, mem, reg, src);
      }
    }

    // ---- lines ----

    method ExpectName(cur: Cur) returns (r: Result<string, ParseError>)
      requires cur.Valid()
      modifies cur, cur.lx
      ensures cur.Valid() && cur.Toks() == Rest(old(cur.Toks()))
      ensures r == Named(old(cur.Toks()))
    {
      var t := cur.Next();
      if !t.Identifier? {
        return Err(UnexpectedToken);
      }
      return if |t.name| > NAME_MAX then Err(NameTooLong) else Ok(t.name);
    }

    method ParseLetLine(cur: Cur, mem: Memory) returns (r: Result<Outcome, ParseError>)
      requires Valid() && cur.Valid()
      modifies cur, cur.lx, mem, symbols.slots
      ensures Valid() && Fns() == old(Fns())
      ensures Parsed(r, Persistent(), mem.trace)
           == ParseLet(old(Names(mem)), old(Persistent()), old(cur.Toks()), old(mem.trace))
    {
      hide Expr;
      var name := ExpectName(cur);
      if name.Err? {
        return Err(name.error);
      }
      var eq := cur.Next();
      if eq != Operator('=') {
        return Err(UnexpectedToken);
      }
      var value := EvalExpr(None, cur, mem);
      if value.Err? {
        return Err(value.error);
      }
      var ended := ExpectSemicolon(cur);
      if !ended {
        return Err(MissingSemicolon);
      }
      var stored := symbols.InsertSymbol(name.value, value.value);
      return if stored then Ok(Bound(name.value, value.value)) else Err(SymbolTableFull);
    }

    /** `NAME ( ) {` */
    method ParseFnHeader(cur: Cur) returns (r: Result<string, ParseError>)
      requires cur.Valid()
      modifies cur, cur.lx
      ensures cur.Valid()
      ensures var toks := old(cur.Toks());
              match Named(toks)
              case Err(e) => r == Err(e)
              case Ok(name) =>
                if |toks| < 4 || toks[1] != LParen || toks[2] != RParen || toks[3] != LBrace then
                  r == Err(UnexpectedToken)
                else
                  r == Ok(name) && cur.Toks() == toks[4..]
    {
      r := ExpectName(cur);
      if r.Err? {
        return;
      }
      var open := cur.Next();
      if open != LParen {
        return Err(UnexpectedToken);
      }
      var close := cur.Next();
      if close != RParen {
        return Err(UnexpectedToken);
      }
      var brace := cur.Next();
      if brace != LBrace {
        return Err(UnexpectedToken);
      }
    }

    method ParseFnLine(cur: Cur, mem: Memory, reg: CapabilityRegistry) returns (r: Result<Outcome, ParseError>)
      requires Valid() && cur.Valid() && reg.Valid()
      modifies cur, cur.lx, mem, this, stream
      ensures Valid() && reg.Valid()
      ensures Parsed(r, Persistent(), mem.trace)
           == ParseFn(old(Names(mem)), Guard(reg.arch, reg.claims), old(Persistent()), old(cur.Toks()), old(mem.trace))
    {
      hide BodyStmts, FiledBody, Named;
      var name := ParseFnHeader(cur);
      if name.Err? {
        return Err(name.error);
      }
      r := ParseFnBody(name.value, cur, mem, reg);
    }

    /** The body and its filing, behind the opening brace. */
    method ParseFnBody(name: string, cur: Cur, mem: Memory, reg: CapabilityRegistry)
        returns (r: Result<Outcome, ParseError>)
      requires Valid() && cur.Valid() && reg.Valid()
      modifies cur, cur.lx, mem, this, stream
      ensures Valid() && reg.Valid()
      ensures Parsed(r, Persistent(), mem.trace)
           == FiledBody(old(Persistent()), name,
                        BodyStmts(old(Names(mem)), Guard(reg.arch, reg.claims), old(Fns()), old(cur.Toks()),
                                  Body([], []), old(mem.trace)))
    {
      hide BodyStmts, DefineFn;
      ghost var src;
      var body: Result<(), ParseError>;
      body, src := CompileBody(cur, mem, reg);
      if body.Err? {
        return Err(body.error);
      }
      r := FileFn(name, src);
    }

    method FileFn(name: string, ghost src: seq<Stmt>) returns (r: Result<Outcome, ParseError>)
      requires Valid()
      modifies this`fnNames, this`fnBodies, this`fnSrcs
      ensures Valid()
      ensures (r, Persistent()) == DefineFn(old(Persistent()), name, Body(src, Stream()))
    {
      hide AllocFnSlot;
      if streamLen > FN_BODY_WORDS {
        return Err(StreamFull);
      }
      var index := AllocSlot(name);
      if index.Err? {
        return Err(index.error);
      }
      StoreFn(index.value, name, src);
      return Ok(FnDefined(name));
    }

    method StoreFn(index: nat, name: string, ghost src: seq<Stmt>)
      requires Valid() && index < |fnNames|
      modifies this`fnNames, this`fnBodies, this`fnSrcs
      ensures Valid() && Fns() == old(Fns())[index := Fn(name, Stream(), src)]
    {
      fnNames := fnNames[index := name];
      fnBodies := fnBodies[index := stream[..streamLen]];
      fnSrcs := fnSrcs[index := src];
    }

    /** A three-word program always fits the stream. */
    method BuildValueProgram(value: Word) returns (p: StreamProgram)
      requires Valid()
      modifies this`streamLen, stream
      ensures Valid() && Fns() == old(Fns()) && p == ValueProgram(value)
    {
      streamLen := 0;
      var r := StreamPushAll([LIT, value]);
      var ok := StreamPush(HALT);
      assert Stream() == [LIT, value, HALT];
      return StreamProgram(stream[..streamLen], true);
    }

    method BuildCallProgram(name: string) returns (r: Result<Outcome, ParseError>)
      requires Valid()
      modifies this`streamLen, stream
      ensures Valid() && Fns() == old(Fns()) && r == CallOutcome(Fns(), name)
    {
      var index := LookupFn(name);
      if index.None? {
        return Err(UnknownSymbol);
      }
      streamLen := 0;
      assert Stream() == [] && [] + fnBodies[index.value] == fnBodies[index.value];
      var pushed := StreamPushAll(fnBodies[index.value]);
      if pushed.Err? {
        return Err(pushed.error);
      }
      var ok := StreamPush(HALT);
      if !ok {
        return Err(StreamFull);
      }
      return Ok(RunStream(StreamProgram(stream[..streamLen], false)));
    }

    /** A bare expression whose first token has been taken. */
    method ParseValueLine(first: Token, cur: Cur, mem: Memory) returns (r: Result<Outcome, ParseError>)
      requires Valid() && cur.Valid()
      modifies cur, cur.lx, mem, this`streamLen, stream
      ensures Valid()
      ensures Parsed(r, Persistent(), mem.trace)
           == ValueLine(Expr(Names(mem), first, old(cur.Toks()), old(mem.trace)), old(Persistent()))
    {
      hide Expr;
      var value := EvalExpr(Some(first), cur, mem);
      if value.Err? {
        return Err(value.error);
      }
      var ended := ExpectSemicolon(cur);
      if !ended {
        return Err(MissingSemicolon);
      }
      var p := BuildValueProgram(value.value);
      return Ok(RunStream(p));
    }

    method ParseNameLine(cur: Cur, claim: bool, mem: Memory) returns (r: Result<Outcome, ParseError>)
      requires Valid() && cur.Valid()
      modifies cur, cur.lx
      ensures Valid()
      ensures Parsed(r, Persistent(), mem.trace) == NameLine(Persistent(), old(cur.Toks()), mem.trace, claim)
    {
      var name := ExpectName(cur);
      if name.Err? {
        return Err(name.error);
      }
      var ended := ExpectSemicolon(cur);
      if !ended {
        return Err(MissingSemicolon);
      }
      return Ok(if claim then ClaimCap(name.value) else DropCap(name.value));
    }

    method ParseOtherLine(id: string, cur: Cur, mem: Memory) returns (r: Result<Outcome, ParseError>)
      requires Valid() && cur.Valid()
      modifies cur, cur.lx, mem, this`streamLen, stream
      ensures Valid()
      ensures Parsed(r, Persistent(), mem.trace)
           == OtherLine(Names(mem), old(Persistent()), id, old(cur.Toks()), old(mem.trace))
    {
      hide Expr, CallOutcome, ValueLine;
      var next := cur.PeekToken();
      if next != LParen {
        r := ParseValueLine(Identifier(id), cur, mem);
        return;
      }
      var _ := cur.Next();
      var close := cur.Next();
      if close != RParen {
        return Err(UnexpectedToken);
      }
      var ended := ExpectSemicolon(cur);
      if !ended {
        return Err(MissingSemicolon);
      }
      r := BuildCallProgram(id);
    }

    /** The mandatory access check of a top-level statement. */
    method Enforce(addr: Word, ok: Outcome, reg: CapabilityRegistry) returns (r: Result<Outcome, ParseError>)
      requires reg.Valid()
      ensures r == Guarded(Guard(reg.arch, reg.claims), addr, ok)
    {
      hide CheckAccess;
      var access := reg.Check(addr);
      return if access.Granted? then Ok(ok) else Err(CapabilityViolation);
    }

    method ParseAccessLine(verb: Verb, cur: Cur, mem: Memory, reg: CapabilityRegistry)
        returns (r: Result<Outcome, ParseError>)
      requires Valid() && cur.Valid() && reg.Valid()
      requires verb == PeekVerb || verb == PokeVerb || verb == SetBitVerb || verb == ClrBitVerb
      modifies cur, cur.lx, mem
      ensures Valid() && reg.Valid()
      ensures Parsed(r, Persistent(), mem.trace)
           == AccessLine(Names(mem), Guard(reg.arch, reg.claims), Persistent(), verb, old(cur.Toks()), old(mem.trace))
    {
      hide Addr, AddrAndValue, TwoAtoms, Guarded;
      if verb == PeekVerb {
        var a := ParseAddr(cur, mem);
        if a.Err? {
          return Err(a.error);
        }
        r := Enforce(a.value, EnforcedPeek(a.value), reg);
      } else if verb == PokeVerb {
        var p := ParseAddrAndValue(cur, mem);
        if p.Err? {
          return Err(p.error);
        }
        r := Enforce(p.value.0, EnforcedPoke(p.value.0, p.value.1), reg);
      } else {
        var p := ParseTwoAtoms(cur, mem);
        if p.Err? {
          return Err(p.error);
        }
        var (addr, bit) := p.value;
        r := Enforce(addr, if verb == SetBitVerb then SetBitAt(addr, bit) else ClrBitAt(addr, bit), reg);
      }
    }

    method AllowOptionalSemicolon(cur: Cur)
      requires cur.Valid()
      modifies cur, cur.lx
      ensures cur.Valid()
    {
      var t := cur.PeekToken();
      if t == Semicolon {
        var _ := cur.Next();
      }
    }

    method ParseCommandLine(id: string, cur: Cur, mem: Memory, reg: CapabilityRegistry)
        returns (r: Result<Outcome, ParseError>)
      requires Valid() && cur.Valid() && reg.Valid()
      modifies cur, cur.lx, mem, this`streamLen, stream
      ensures Valid() && reg.Valid()
      ensures Parsed(r, Persistent(), mem.trace)
           == ParseCommand(Names(mem), Guard(reg.arch, reg.claims), old(Persistent()), id, old(cur.Toks()),
                           old(mem.trace))
    {
      hide VerbOf, AccessLine, NameLine, OtherLine;
      match VerbOf(id)
      case ClaimVerb => r := ParseNameLine(cur, true, mem);
      case DropVerb => r := ParseNameLine(cur, false, mem);
      case HelpVerb =>
        AllowOptionalSemicolon(cur);
        r := Ok(Help);
      case BannerVerb =>
        AllowOptionalSemicolon(cur);
        r := Ok(Banner);
      case AuditVerb =>
        AllowOptionalSemicolon(cur);
        r := Ok(SysAudit);
      case NoVerb => r := ParseOtherLine(id, cur, mem);
      case verb => r := ParseAccessLine(verb, cur, mem, reg);
    }

    /** Compiles one line. */
    method ParseLine(line: string, mem: Memory, reg: CapabilityRegistry) returns (r: Result<Outcome, ParseError>)
      requires Valid() && reg.Valid()
      modifies this, stream, symbols.slots, mem
      ensures Valid() && reg.Valid()
      ensures Parsed(r, Persistent(), mem.trace)
           == Parse(mem.bus, Guard(reg.arch, reg.claims), old(Persistent()), line, old(mem.trace))
    {
      hide ParseCommand, ParseLet, ParseFn, ValueLine, Expr, Tokens;
      var cur := new Cur(line);
      var first := cur.Next();
      match first
      case Eof => r := Err(EmptyLine);
      case KwLet => r := ParseLetLine(cur, mem);
      case KwFn => r := ParseFnLine(cur, mem, reg);
      case Identifier(id) => r := ParseCommandLine(id, cur, mem, reg);
      case Literal(_) => r := ParseValueLine(first, cur, mem);
      case Operator(_) => r := ParseValueLine(first, cur, mem);
      case LParen => r := ParseValueLine(first, cur, mem);
      case Error(e) => r := Err(LexFailure(e));
      case _ => r := Err(UnexpectedToken);
    }
  }

  /** One round of the body loop. */
  lemma {:induction false} BodyStmtsStep(sc: Scope, g: Guard, fns: seq<Fn>, toks: seq<Token>, body: Body, trace: Trace)
    ensures BodyStmts(sc, g, fns, toks, body, trace)
         == if Head(toks) == RBrace then Good(body, Rest(toks), trace)
            else if Head(toks) == Eof then Bad(UnexpectedToken, trace)
            else AfterStmt(sc, g, fns, NextStmt(sc, g, fns, toks, body, trace), |toks|)
  {
    hide NextStmt;
  }

  function AfterStmt(sc: Scope, g: Guard, fns: seq<Fn>, next: Eval<Body>, bound: nat): Eval<Body>
    requires next.Good? ==> |next.toks| < bound
  {
    match next
    case Good(more, after, tr) => BodyStmts(sc, g, fns, after, more, tr)
    case Bad(e, tr) => Bad(e, tr)
  }

  lemma {:induction false} FindFnPrefix(fns: seq<Fn>, name: string, i: nat)
    requires i < |fns| && FindFn(fns[..i], name) == None && fns[i].name == name && name != ""
    ensures FindFn(fns, name) == Some(i)
    decreases |fns|
  {
    var n := |fns| - 1;
    if i < n {
      assert fns[..n][..i] == fns[..i];
      FindFnPrefix(fns[..n], name, i);
    }
  }

  lemma {:induction false} FindFreePrefix(fns: seq<Fn>, i: nat)
    requires i < |fns| && FindFree(fns[..i]) == None && fns[i].name == ""
    ensures FindFree(fns) == Some(i)
    decreases |fns|
  {
    var n := |fns| - 1;
    if i < n {
      assert fns[..n][..i] == fns[..i];
      FindFreePrefix(fns[..n], i);
    }
  }
}
