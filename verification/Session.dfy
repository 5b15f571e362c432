/**
 * A console session (src/drivers/repl.rs): lines are parsed, outcomes carried
 * out, and the tables, the registry, the audit log and memory live on.
 */
module Session {
  import opened Wrappers
  import opened Machine
  import opened Lexing
  import opened Target
  import opened Exec
  import opened Program
  import opened Symbols
  import opened Registry
  import opened Audit
  import opened Enforced
  import opened Grammar
  import opened Functions

  /** The engine a program runs on: the real one prefers native code, the other always interprets. */
  datatype Mode = NativeFirst | ThreadedOnly

  datatype Config = Config(arch: Arch, bus: Bus, mode: Mode)

  /** A line, with what the hardware contributes while it runs. */
  datatype Input = Input(line: string, cycles: Word, regs: Regs, junk: Leftovers)

  datatype Sys = Sys(core: State, claims: Claims, log: seq<AuditEntry>, trace: Trace)

  const POWER_ON := Sys(Grammar.INITIAL, {}, [], [])

  /** A store through the enforced path: the store and its audit record, or nothing. */
  function Stored(cfg: Config, s: Sys, addr: Word, value: Word, cycles: Word): Sys {
    if Permits(cfg.arch, s.claims, addr) then
      s.(trace := AfterWrite(s.trace, addr, value),
         log := s.log + if SUPERUSER_ID in s.claims then [AuditEntry(addr, value, cycles)] else [])
    else s
  }

  function Loaded(cfg: Config, s: Sys, addr: Word): Sys {
    s.(trace := AfterRead(cfg.bus, s.trace, addr))
  }

  function ProgramTrace(cfg: Config, p: StreamProgram, input: Input, trace: Trace): Trace {
    match cfg.mode
    case NativeFirst => RunProgram(cfg.arch, cfg.bus, p, input.regs, input.junk, trace).1
    case ThreadedOnly =>
      match Threaded(cfg.bus, p.words, Vm([], trace))
      case Halted(vm) => vm.trace
      case Wild => trace
  }

  /** What carrying out an outcome changes; a bit number counts modulo 32, as a release build shifts. */
  function Execute(cfg: Config, s: Sys, o: Outcome, input: Input): Sys {
    match o
    case RunStream(p) => s.(trace := ProgramTrace(cfg, p, input, s.trace))
    case ClaimCap(name) =>
      (match ResolveName(name)
       case Some(id) => s.(claims := s.claims + {id})
       case None => s)
    case DropCap(name) =>
      (match ResolveName(name)
       case Some(id) => s.(claims := s.claims - {id})
       case None => s)
    case EnforcedPoke(addr, value) => Stored(cfg, s, addr, value, input.cycles)
    case EnforcedPeek(addr) => if Permits(cfg.arch, s.claims, addr) then Loaded(cfg, s, addr) else s
    case SetBitAt(addr, bit) =>
      Stored(cfg, Loaded(cfg, s, addr), addr, SetBit(cfg.bus(s.trace, addr), BitOf(bit)), input.cycles)
    case ClrBitAt(addr, bit) =>
      Stored(cfg, Loaded(cfg, s, addr), addr, ClrBit(cfg.bus(s.trace, addr), BitOf(bit)), input.cycles)
    case _ => s
  }

  function ParsedLine(cfg: Config, s: Sys, input: Input): Parsed {
    Parse(cfg.bus, Guard(cfg.arch, s.claims), s.core, input.line, s.trace)
  }

  /** One line: parse it, then carry out what it asks for.  An empty line is not parsed. */
  function Feed(cfg: Config, s: Sys, input: Input): Sys {
    if input.line == "" then s
    else
      var p := ParsedLine(cfg, s, input);
      var parsed := s.(core := p.state, trace := p.trace);
      match p.result
      case Ok(o) => Execute(cfg, parsed, o, input)
      case Err(_) => parsed
  }

  function FeedAll(cfg: Config, s: Sys, inputs: seq<Input>): Sys {
    if inputs == [] then s
    else Feed(cfg, FeedAll(cfg, s, inputs[..|inputs| - 1]), inputs[|inputs| - 1])
  }

  // ---- a line changes little, a failed line nothing ----

  /** One symbol bound, one free function slot filled, or nothing. */
  ghost predicate ChangesLittle(st: State, result: Result<Outcome, ParseError>, after: State) {
    match result
    case Ok(Bound(name, value)) =>
      after == st.(env := st.env[name := value]) && (name in st.env || |st.env| < SYMBOL_SLOTS)
    case Ok(FnDefined(name)) =>
      exists i | 0 <= i < |st.fns| :: st.fns[i].name == "" && FillsSlot(st, i, name, after)
    case _ => after == st
  }

  predicate FillsSlot(st: State, i: nat, name: string, after: State) {
    i < |st.fns| && |after.fns| == |st.fns| && after.fns[i].name == name &&
    after == st.(fns := st.fns[i := after.fns[i]])
  }

  /** A failed line is a no-op on the tables; a successful one changes at most one symbol or one free slot. */
  lemma ParseChangesLittle(bus: Bus, g: Guard, st: State, line: string, trace: Trace)
    ensures var p := Parse(bus, g, st, line, trace); ChangesLittle(st, p.result, p.state)
  {
    hide Expr, Tokens, ParseFn, ParseLet, ParseCommand;
    var toks := Tokens(line);
    var sc := Scope(st.env, bus);
    match Head(toks)
    case KwFn => FnChangesLittle(sc, g, st, Rest(toks), trace);
    case KwLet => LetChangesLittle(sc, st, Rest(toks), trace);
    case Identifier(id) => CommandChangesNothing(sc, g, st, id, Rest(toks), trace);
    case _ =>
  }

  lemma LetChangesLittle(sc: Scope, st: State, toks: seq<Token>, trace: Trace)
    ensures var p := ParseLet(sc, st, toks, trace); ChangesLittle(st, p.result, p.state)
  {
    hide Expr;
  }

  lemma CommandChangesNothing(sc: Scope, g: Guard, st: State, id: string, toks: seq<Token>, trace: Trace)
    ensures var p := ParseCommand(sc, g, st, id, toks, trace);
            p.state == st && (p.result.Ok? ==> !p.result.value.Bound? && !p.result.value.FnDefined?)
  {
    hide VerbOf, Expr, Addr, AddrAndValue, TwoAtoms, CheckAccess, FindFn;
  }

  lemma FnChangesLittle(sc: Scope, g: Guard, st: State, toks: seq<Token>, trace: Trace)
    ensures var p := ParseFn(sc, g, st, toks, trace); ChangesLittle(st, p.result, p.state)
  {
    hide BodyStmts, AllocFnSlot;
    var p := ParseFn(sc, g, st, toks, trace);
    if p.result.Ok? {
      var name := p.result.value.name;
      var i := AllocFnSlot(st.fns, name).value;
      assert FillsSlot(st, i, name, p.state);
    }
  }

  // ---- the invariant of a session ----

  /** The registry at the start of every parsed line, and the line each function was defined on. */
  datatype History = History(past: seq<Claims>, defs: seq<nat>)

  const NO_HISTORY := History([], [])

  function Track(cfg: Config, h: History, s: Sys, input: Input): History {
    if input.line == "" then h
    else
      var r := ParsedLine(cfg, s, input).result;
      History(h.past + [s.claims], if r.Ok? && r.value.FnDefined? then h.defs + [|h.past|] else h.defs)
  }

  function TrackAll(cfg: Config, h: History, s: Sys, inputs: seq<Input>): History {
    if inputs == [] then h
    else
      var front := inputs[..|inputs| - 1];
      Track(cfg, TrackAll(cfg, h, s, front), FeedAll(cfg, s, front), inputs[|inputs| - 1])
  }

  /** Every access a function's own statements make was admitted when its line was parsed. */
  predicate AdmittedAt(arch: Arch, h: History, fns: seq<Fn>, i: nat)
    requires i < |fns| && i < |h.defs|
  {
    h.defs[i] < |h.past| && AllAdmitted(Guard(arch, h.past[h.defs[i]]), fns[i].src)
  }

  predicate Admitted(arch: Arch, h: History, fns: seq<Fn>) {
    |h.defs| <= |fns| && forall i | 0 <= i < |h.defs| :: AdmittedAt(arch, h, fns, i)
  }

  /**
   * The taken function slots are the first ones; their names differ; each body
   * is the code of its inlined source, at most 32 words; the symbol table holds
   * at most 32 names; and all accesses of functions were admitted.
   */
  predicate SysInv(cfg: Config, s: Sys, h: History) {
    var n := |h.defs|;
    FnInv(s.core.fns, n) && |s.core.env| <= SYMBOL_SLOTS && Admitted(cfg.arch, h, s.core.fns)
  }

  lemma {:induction false} TokensNamed(s: string, k: nat)
    requires k < |Tokens(s)| && Tokens(s)[k].Identifier?
    ensures Tokens(s)[k].name != ""
    decreases |s|
  {
    hide First, Span;
    LexProgress(s);
    var rest := s[Lex(s).1..];
    assert Tokens(s) == [Lex(s).0] + Tokens(rest);
    if k == 0 {
      FirstNamed(s[Span(s, Space)..]);
    } else {
      hide Lex;
      TokensNamed(rest, k - 1);
    }
  }

  lemma FirstNamed(s: string)
    requires s != [] && First(s).0.Identifier?
    ensures First(s).0.name != ""
  {
    hide Number;
  }

  lemma ParseFnKeepsInv(cfg: Config, s: Sys, h: History, toks: seq<Token>)
    requires SysInv(cfg, s, h)
    requires Head(toks).Identifier? ==> toks[0].name != ""
    ensures var p := ParseFn(Scope(s.core.env, cfg.bus), Guard(cfg.arch, s.claims), s.core, toks, s.trace);
            p.result.Ok? ==>
              |h.defs| < MAX_FNS &&
              SysInv(cfg, s.(core := p.state), History(h.past + [s.claims], h.defs + [|h.past|])) &&
              forall i | 0 <= i < |h.defs| :: p.state.fns[i] == s.core.fns[i]
  {
    hide FnInv, Inline, BodyStmts, AllAdmitted;
    var sc, g := Scope(s.core.env, cfg.bus), Guard(cfg.arch, s.claims);
    var p := ParseFn(sc, g, s.core, toks, s.trace);
    if p.result.Ok? {
      var n := |h.defs|;
      var body := BodyStmts(sc, g, s.core.fns, toks[4..], Body([], []), s.trace);
      StartFaithful(s.core.fns, n, g);
      BodyFaithful(sc, g, s.core.fns, n, toks[4..], Body([], []), s.trace);
      DefineKeepsInv(s.core, n, toks[0].name, body.value);
      AdmittedGrows(cfg.arch, h, s, s.core.fns[n := Fn(toks[0].name, body.value.stream, body.value.src)]);
    }
  }

  lemma StartFaithful(fns: seq<Fn>, n: nat, g: Guard)
    requires FnInv(fns, n)
    ensures n <= |fns| == MAX_FNS && Faithful(fns, n, Body([], [])) && AllAdmitted(g, [])
  {
  }

  lemma AdmittedGrows(arch: Arch, h: History, s: Sys, fns: seq<Fn>)
    requires Admitted(arch, h, s.core.fns)
    requires |h.defs| < |fns| == |s.core.fns|
    requires forall i | 0 <= i < |h.defs| :: fns[i] == s.core.fns[i]
    requires AllAdmitted(Guard(arch, s.claims), fns[|h.defs|].src)
    ensures Admitted(arch, History(h.past + [s.claims], h.defs + [|h.past|]), fns)
  {
    hide AllAdmitted;
    var h' := History(h.past + [s.claims], h.defs + [|h.past|]);
    forall i | 0 <= i < |h'.defs|
      ensures AdmittedAt(arch, h', fns, i)
    {
      assert i < |h.defs| ==> AdmittedAt(arch, h, s.core.fns, i);
    }
  }

  /** One line keeps the invariant and every function defined before it. */
  lemma FeedKeepsInv(cfg: Config, s: Sys, h: History, input: Input)
    requires SysInv(cfg, s, h)
    ensures SysInv(cfg, Feed(cfg, s, input), Track(cfg, h, s, input))
    ensures |h.defs| <= |Track(cfg, h, s, input).defs|
    ensures forall i | 0 <= i < |h.defs| :: Feed(cfg, s, input).core.fns[i] == s.core.fns[i]
  {
    if input.line != "" {
      hide FnInv, ParseFn, Execute, AllAdmitted, Parse;
      var p := ParsedLine(cfg, s, input);
      ParseChangesLittle(cfg.bus, Guard(cfg.arch, s.claims), s.core, input.line, s.trace);
      ExecuteKeepsCore(cfg, s.(core := p.state, trace := p.trace), p.result, input);
      if p.result.Ok? && p.result.value.FnDefined? {
        DefinitionLine(cfg, s, input);
        var toks := Rest(Tokens(input.line));
        if Head(toks).Identifier? {
          TokensNamed(input.line, 1);
        }
        ParseFnKeepsInv(cfg, s, h, toks);
      } else {
        PastGrows(cfg.arch, h, s);
        if p.result.Ok? && p.result.value.Bound? {
          EnvGrows(s.core.env, p.result.value.name, p.result.value.value);
        }
      }
    }
  }

  lemma EnvGrows(env: Env, name: string, value: Word)
    requires |env| <= SYMBOL_SLOTS && (name in env || |env| < SYMBOL_SLOTS)
    ensures |env[name := value]| <= SYMBOL_SLOTS
  {
  }

  lemma PastGrows(arch: Arch, h: History, s: Sys)
    requires Admitted(arch, h, s.core.fns)
    ensures Admitted(arch, h.(past := h.past + [s.claims]), s.core.fns)
  {
    hide AllAdmitted;
    forall i | 0 <= i < |h.defs|
      ensures AdmittedAt(arch, h.(past := h.past + [s.claims]), s.core.fns, i)
    {
      assert AdmittedAt(arch, h, s.core.fns, i);
    }
  }

  lemma ExecuteKeepsCore(cfg: Config, s: Sys, r: Result<Outcome, ParseError>, input: Input)
    ensures r.Ok? ==> Execute(cfg, s, r.value, input).core == s.core
  {
    hide CheckAccess, RunProgram, Threaded, ResolveName, Mask;
  }

  /** Only a line that starts with `fn` defines a function. */
  lemma DefinitionLine(cfg: Config, s: Sys, input: Input)
    requires var r := ParsedLine(cfg, s, input).result; r.Ok? && r.value.FnDefined?
    ensures Head(Tokens(input.line)) == KwFn
    ensures ParsedLine(cfg, s, input)
         == ParseFn(Scope(s.core.env, cfg.bus), Guard(cfg.arch, s.claims), s.core, Rest(Tokens(input.line)), s.trace)
  {
    hide Expr, Tokens, ParseFn, ParseCommand;
    var toks := Tokens(input.line);
    if Head(toks).Identifier? {
      var sc, g := Scope(s.core.env, cfg.bus), Guard(cfg.arch, s.claims);
      CommandChangesNothing(sc, g, s.core, toks[0].name, Rest(toks), s.trace);
    }
  }

  /** After any sequence of lines the invariant holds. */
  lemma {:induction false} SessionKeepsInv(cfg: Config, s: Sys, h: History, inputs: seq<Input>)
    requires SysInv(cfg, s, h)
    ensures SysInv(cfg, FeedAll(cfg, s, inputs), TrackAll(cfg, h, s, inputs))
    ensures |h.defs| <= |TrackAll(cfg, h, s, inputs).defs|
    ensures forall i | 0 <= i < |h.defs| :: FeedAll(cfg, s, inputs).core.fns[i] == s.core.fns[i]
  {
    if inputs != [] {
      hide FnInv, Feed, Track;
      var front := inputs[..|inputs| - 1];
      SessionKeepsInv(cfg, s, h, front);
      FeedKeepsInv(cfg, FeedAll(cfg, s, front), TrackAll(cfg, h, s, front), inputs[|inputs| - 1]);
    }
  }

  lemma PowerOnInv(cfg: Config)
    ensures SysInv(cfg, POWER_ON, NO_HISTORY)
  {
  }
}
