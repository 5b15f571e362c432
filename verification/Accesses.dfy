/**
 * Which addresses a session can touch: the access check is made when a line is
 * parsed, and holds good for everything that line, or a function defined on
 * it, does later; how far the native code keeps to it is settled exactly.
 */
module Accesses {
  import opened Wrappers
  import opened Machine
  import opened Lexing
  import opened Exec
  import opened Target
  import opened Simulation
  import opened Program
  import opened Safety
  import opened Registry
  import opened Audit
  import opened Enforced
  import opened Grammar
  import opened Functions
  import opened Session

  // ---- parsing only reads ----

  predicate Extends(before: Trace, after: Trace) {
    |before| <= |after| && after[..|before|] == before
  }

  /** What was added between two points of the traffic is reads. */
  predicate OnlyReads(before: Trace, after: Trace) {
    Extends(before, after) && forall n | |before| <= n < |after| :: after[n].Read?
  }

  lemma ReadsCompose(a: Trace, b: Trace, c: Trace)
    requires OnlyReads(a, b) && OnlyReads(b, c)
    ensures OnlyReads(a, c)
  {
    assert c[..|a|] == c[..|b|][..|a|];
    forall n | |a| <= n < |c|
      ensures c[n].Read?
    {
      assert n < |b| ==> c[n] == c[..|b|][n];
    }
  }

  lemma {:induction false} ResolveReads(sc: Scope, head: Token, toks: seq<Token>, trace: Trace)
    ensures OnlyReads(trace, Resolve(sc, head, toks, trace).trace)
    decreases Size(head, toks), 0
  {
    hide VerbOf;
    if head.Identifier? && VerbOf(head.name) == PeekVerb {
      OperandReads(sc, Head(toks), Rest(toks), trace);
      var r := Operand(sc, Head(toks), Rest(toks), trace);
      if r.Good? {
        ReadsCompose(trace, r.trace, AfterRead(sc.bus, r.trace, r.value));
      }
    }
  }

  lemma {:induction false} OperandReads(sc: Scope, head: Token, toks: seq<Token>, trace: Trace)
    ensures OnlyReads(trace, Operand(sc, head, toks, trace).trace)
    decreases Size(head, toks), 1
  {
    if head == LParen {
      ExprReads(sc, Head(toks), Rest(toks), trace);
    } else {
      ResolveReads(sc, head, toks, trace);
    }
  }

  lemma {:induction false} ExprReads(sc: Scope, head: Token, toks: seq<Token>, trace: Trace)
    ensures OnlyReads(trace, Expr(sc, head, toks, trace).trace)
    decreases Size(head, toks), 2
  {
    OperandReads(sc, head, toks, trace);
    var r := Operand(sc, head, toks, trace);
    if r.Good? {
      TailReads(sc, r.value, r.toks, r.trace);
      ReadsCompose(trace, r.trace, Expr(sc, head, toks, trace).trace);
    }
  }

  lemma {:induction false} TailReads(sc: Scope, acc: Word, toks: seq<Token>, trace: Trace)
    ensures OnlyReads(trace, Tail(sc, acc, toks, trace).trace)
    decreases |toks|, 3
  {
    hide Operand, Apply;
    if IsBinary(Head(toks)) {
      var ahead := Rest(toks);
      OperandReads(sc, Head(ahead), Rest(ahead), trace);
      var r := Operand(sc, Head(ahead), Rest(ahead), trace);
      if r.Good? && Apply(toks[0].op, acc, r.value).Ok? {
        TailReads(sc, Apply(toks[0].op, acc, r.value).value, r.toks, r.trace);
        ReadsCompose(trace, r.trace, Tail(sc, acc, toks, trace).trace);
      }
    }
  }

  lemma AddrReads(sc: Scope, toks: seq<Token>, trace: Trace)
    ensures OnlyReads(trace, Addr(sc, toks, trace).trace)
    ensures OnlyReads(trace, AddrAndValue(sc, toks, trace).trace)
    ensures OnlyReads(trace, TwoAtoms(sc, toks, trace).trace)
  {
    hide Operand, Expr, OnlyReads;
    OperandReads(sc, Head(toks), Rest(toks), trace);
    var r := Atomic(sc, toks, trace);
    if r.Good? {
      ExprReads(sc, Head(r.toks), Rest(r.toks), r.trace);
      OperandReads(sc, Head(r.toks), Rest(r.toks), r.trace);
      ReadsCompose(trace, r.trace, Whole(sc, r.toks, r.trace).trace);
      ReadsCompose(trace, r.trace, Atomic(sc, r.toks, r.trace).trace);
    }
  }

  lemma StmtReads(sc: Scope, toks: seq<Token>, trace: Trace)
    ensures OnlyReads(trace, BodyStmt(sc, toks, trace).trace)
  {
    hide VerbOf, Expr, Addr, AddrAndValue;
    AddrReads(sc, Rest(toks), trace);
    if Head(toks).Identifier? {
      ExprReads(sc, Identifier(toks[0].name), Rest(toks), trace);
    }
  }

  lemma {:induction false} BodyReads(sc: Scope, g: Guard, fns: seq<Fn>, toks: seq<Token>, body: Body, trace: Trace)
    ensures OnlyReads(trace, BodyStmts(sc, g, fns, toks, body, trace).trace)
    decreases |toks|
  {
    hide BodyStmt, Grammar.Emitted;
    if Head(toks) != RBrace && Head(toks) != Eof {
      StmtReads(sc, toks, trace);
      var r := NextStmt(sc, g, fns, toks, body, trace);
      if r.Good? {
        BodyReads(sc, g, fns, r.toks, r.value, r.trace);
        ReadsCompose(trace, r.trace, BodyStmts(sc, g, fns, toks, body, trace).trace);
      }
    }
  }

  /** Whatever a line holds, parsing it writes nothing. */
  lemma ParseReads(bus: Bus, g: Guard, st: State, line: string, trace: Trace)
    ensures OnlyReads(trace, Parse(bus, g, st, line, trace).trace)
  {
    hide Tokens, Expr, ParseCommand, ParseFn, ParseLet, OnlyReads;
    var toks := Tokens(line);
    var sc := Scope(st.env, bus);
    NothingRead(trace);
    if toks != [] {
      ExprReads(sc, toks[0], Rest(toks), trace);
      LetReads(sc, st, Rest(toks), trace);
      FnReads(sc, g, st, Rest(toks), trace);
      if toks[0].Identifier? {
        CommandReads(sc, g, st, toks[0].name, Rest(toks), trace);
      }
    }
  }

  lemma NothingRead(trace: Trace)
    ensures OnlyReads(trace, trace)
  {
  }

  lemma LetReads(sc: Scope, st: State, toks: seq<Token>, trace: Trace)
    ensures OnlyReads(trace, ParseLet(sc, st, toks, trace).trace)
  {
    hide Expr, OnlyReads;
    NothingRead(trace);
    var value := Rest(Rest(toks));
    ExprReads(sc, Head(value), Rest(value), trace);
  }

  lemma FnReads(sc: Scope, g: Guard, st: State, toks: seq<Token>, trace: Trace)
    ensures OnlyReads(trace, ParseFn(sc, g, st, toks, trace).trace)
  {
    hide BodyStmts, DefineFn, OnlyReads;
    NothingRead(trace);
    if |toks| >= 4 {
      BodyReads(sc, g, st.fns, toks[4..], Body([], []), trace);
    }
  }

  lemma CommandReads(sc: Scope, g: Guard, st: State, id: string, toks: seq<Token>, trace: Trace)
    ensures OnlyReads(trace, ParseCommand(sc, g, st, id, toks, trace).trace)
  {
    hide VerbOf, Expr, Addr, AddrAndValue, TwoAtoms, CheckAccess, FindFn, OnlyReads;
    NothingRead(trace);
    AddrReads(sc, toks, trace);
    ExprReads(sc, Identifier(id), toks, trace);
  }

  // ---- what a line may ask for ----

  /** The program is the body of the function in slot `i`. */
  predicate IsDefinedCall(fns: seq<Fn>, i: nat, p: StreamProgram) {
    i < |fns| && fns[i].name != "" && p == StreamProgram(fns[i].body + [HALT], false)
  }

  /** A program the parser hands out prints one value or is the body of a defined function. */
  ghost predicate BuiltProgram(fns: seq<Fn>, p: StreamProgram) {
    (exists v :: p == ValueProgram(v)) || exists i :: IsDefinedCall(fns, i, p)
  }

  /** The slot of the function whose name a line starts with. */
  function CalledSlot(fns: seq<Fn>, line: string): Option<nat> {
    match Head(Tokens(line))
    case Identifier(id) => FindFn(fns, id)
    case _ => Option.None
  }

  /** The line's program prints one value or is the body of the function the line names. */
  ghost predicate BuiltFor(fns: seq<Fn>, called: Option<nat>, p: StreamProgram) {
    (exists v :: p == ValueProgram(v)) || (called.Some? && IsDefinedCall(fns, called.value, p))
  }

  lemma BuiltForIsBuilt(fns: seq<Fn>, called: Option<nat>, p: StreamProgram)
    requires BuiltFor(fns, called, p)
    ensures BuiltProgram(fns, p)
  {
  }

  ghost predicate OutcomeAdmitted(g: Guard, fns: seq<Fn>, called: Option<nat>, o: Outcome) {
    match o
    case RunStream(p) => BuiltFor(fns, called, p)
    case EnforcedPoke(addr, _) => Admits(g, addr)
    case EnforcedPeek(addr) => Admits(g, addr)
    case SetBitAt(addr, _) => Admits(g, addr)
    case ClrBitAt(addr, _) => Admits(g, addr)
    case _ => true
  }

  lemma ValueLineAdmitted(g: Guard, called: Option<nat>, r: Eval<Word>, st: State)
    ensures var p := ValueLine(r, st); p.result.Ok? ==> OutcomeAdmitted(g, st.fns, called, p.result.value)
  {
  }

  lemma {:induction false} CallAdmitted(g: Guard, fns: seq<Fn>, name: string)
    ensures var r := CallOutcome(fns, name); r.Ok? ==> OutcomeAdmitted(g, fns, FindFn(fns, name), r.value)
  {
    var found := FindFn(fns, name);
    if found.Some? && CallOutcome(fns, name).Ok? {
      assert IsDefinedCall(fns, found.value, CallOutcome(fns, name).value.program);
    }
  }

  lemma {:induction false} CommandAdmitted(sc: Scope, g: Guard, st: State, id: string, toks: seq<Token>, trace: Trace)
    ensures var p := ParseCommand(sc, g, st, id, toks, trace);
            p.result.Ok? ==> OutcomeAdmitted(g, st.fns, FindFn(st.fns, id), p.result.value)
  {
    hide VerbOf, Expr, Addr, AddrAndValue, TwoAtoms, CheckAccess, CallOutcome, ValueLine;
    CallAdmitted(g, st.fns, id);
    ValueLineAdmitted(g, FindFn(st.fns, id), Expr(sc, Identifier(id), toks, trace), st);
  }

  /** What a parsed line asks for passed the check, or is the program of one value or of the function it names. */
  lemma ParseAdmitted(bus: Bus, g: Guard, st: State, line: string, trace: Trace)
    ensures var p := Parse(bus, g, st, line, trace);
            p.result.Ok? ==> OutcomeAdmitted(g, st.fns, CalledSlot(st.fns, line), p.result.value)
  {
    hide Tokens, Expr, ParseCommand, ParseFn, ParseLet, ValueLine, OutcomeAdmitted;
    var toks := Tokens(line);
    var sc := Scope(st.env, bus);
    if toks != [] {
      ValueLineAdmitted(g, CalledSlot(st.fns, line), Expr(sc, toks[0], Rest(toks), trace), st);
      TablesAdmitted(sc, g, st, CalledSlot(st.fns, line), Rest(toks), trace);
      if toks[0].Identifier? {
        CommandAdmitted(sc, g, st, toks[0].name, Rest(toks), trace);
      }
    }
  }

  lemma TablesAdmitted(sc: Scope, g: Guard, st: State, called: Option<nat>, toks: seq<Token>, trace: Trace)
    ensures var p := ParseLet(sc, st, toks, trace);
            p.result.Ok? ==> OutcomeAdmitted(g, st.fns, called, p.result.value)
    ensures var p := ParseFn(sc, g, st, toks, trace);
            p.result.Ok? ==> OutcomeAdmitted(g, st.fns, called, p.result.value)
  {
    hide Expr, BodyStmts, AllocFnSlot;
  }

  /** Every program the parser builds runs on eleven slots without a dropped push or an empty pop. */
  lemma BuiltNeverStrainsStack(bus: Bus, fns: seq<Fn>, n: nat, p: StreamProgram, trace: Trace)
    requires FnInv(fns, n) && BuiltProgram(fns, p)
    ensures StrictThreaded(bus, p.words, Vm([], trace), 11).Fine?
  {
    hide Inline, BigStep, StrictThreaded;
    if i: nat :| IsDefinedCall(fns, i, p) {
      assert i < n && Functions.Compiled(fns, i);
      InlineKeepsMeaning(bus, fns, i, fns[i].src, Vm([], trace));
      BodyNeverStrainsStack(bus, Inline(fns, i, fns[i].src), trace);
    } else {
      var v :| p == ValueProgram(v);
      ValueNeverStrainsStack(bus, v, trace);
    }
  }

  /** A body and its `HALT` always fit the stream, so a call of a defined function never answers that it is full. */
  lemma CallsNeverOverflow(fns: seq<Fn>, n: nat, name: string)
    requires FnInv(fns, n)
    ensures CallOutcome(fns, name) != Err(StreamFull)
    ensures CallOutcome(fns, name).Ok? <==> exists i | 0 <= i < n :: fns[i].name == name
  {
    hide Inline;
    var found := FindFn(fns, name);
    if found.Some? {
      assert found.value < n && Functions.Compiled(fns, found.value);
    }
  }

  // ---- the slots a function draws on ----

  /** The slots of the functions that statements of slot `k` call, directly or through others. */
  function Reached(fns: seq<Fn>, k: nat, src: seq<Stmt>): set<nat>
    requires k <= |fns|
    decreases k, |src|
  {
    if src == [] then {}
    else
      Reached(fns, k, src[..|src| - 1]) +
      match src[|src| - 1]
      case CallStmt(name) =>
        (match Callee(fns, k, name)
         case Some(j) => {j} + Reached(fns, j, fns[j].src)
         case None => {})
      case _ => {}
  }

  /** The function itself and all that are spliced into it. */
  function Slots(fns: seq<Fn>, k: nat): set<nat>
    requires k < |fns|
  {
    {k} + Reached(fns, k, fns[k].src)
  }

  lemma {:induction false} ReachedStable(fns: seq<Fn>, other: seq<Fn>, k: nat, src: seq<Stmt>)
    requires k <= |fns| && k <= |other| && fns[..k] == other[..k]
    ensures Reached(fns, k, src) == Reached(other, k, src)
    ensures forall j <- Reached(fns, k, src) :: j < k
    decreases k, |src|
  {
    if src != [] {
      ReachedStable(fns, other, k, src[..|src| - 1]);
      var last := src[|src| - 1];
      if last.CallStmt? && Callee(fns, k, last.name).Some? {
        var j := Callee(fns, k, last.name).value;
        assert fns[..k][j] == fns[j] && other[..k][j] == other[j];
        assert fns[..j] == fns[..k][..j] && other[..j] == other[..k][..j];
        ReachedStable(fns, other, j, fns[j].src);
      }
    }
  }

  // ---- what functions touch ----

  /** The registry admitted the address on the line that defined slot `j`. */
  predicate AllowedOnLineOf(arch: Arch, h: History, j: nat, addr: Word) {
    j < |h.defs| && h.defs[j] < |h.past| && Allowed(arch, h.past[h.defs[j]], addr)
  }

  /** One of the lines that defined these slots admitted the address. */
  ghost predicate AdmittedBy(arch: Arch, h: History, slots: set<nat>, addr: Word) {
    exists j | j in slots :: AllowedOnLineOf(arch, h, j, addr)
  }

  ghost predicate ItemsAdmitted(arch: Arch, h: History, slots: set<nat>, items: seq<Item>) {
    forall i | 0 <= i < |items| :: (items[i].Poke? || items[i].Peek?) && AdmittedBy(arch, h, slots, items[i].addr)
  }

  /** A function inherits the admissions of the functions spliced into it, and no others. */
  lemma {:induction false} InlineAdmitted(arch: Arch, h: History, fns: seq<Fn>, k: nat, src: seq<Stmt>)
    requires Admitted(arch, h, fns) && k < |h.defs|
    requires h.defs[k] < |h.past| && AllAdmitted(Guard(arch, h.past[h.defs[k]]), src)
    ensures ItemsAdmitted(arch, h, {k} + Reached(fns, k, src), Inline(fns, k, src))
    decreases k, |src|
  {
    hide CheckAccess, AdmittedAt, AllAdmitted, ItemsAdmitted;
    if src == [] {
      NothingAdmitted(arch, h, {k});
      assert {k} + Reached(fns, k, src) == {k};
    } else {
      var g := Guard(arch, h.past[h.defs[k]]);
      var front, last := src[..|src| - 1], src[|src| - 1];
      FrontAdmitted(g, src);
      InlineAdmitted(arch, h, fns, k, front);
      var items, slots := Inline(fns, k, front), {k} + Reached(fns, k, front);
      match last
      case PokeStmt(addr, value) =>
        OneAdmitted(arch, h, k, slots, items, Poke(addr, value));
        assert {k} + Reached(fns, k, src) == slots;
      case PeekStmt(addr) =>
        OneAdmitted(arch, h, k, slots, items, Peek(addr));
        assert {k} + Reached(fns, k, src) == slots;
      case CallStmt(name) =>
        var callee := Callee(fns, k, name);
        if callee.Some? {
          var j := callee.value;
          SlotAdmitted(arch, h, fns, j);
          InlineAdmitted(arch, h, fns, j, fns[j].src);
          SplicedAdmitted(arch, h, slots, Slots(fns, j), items, Inline(fns, j, fns[j].src));
          assert Inline(fns, k, src) == items + Inline(fns, j, fns[j].src);
          assert {k} + Reached(fns, k, src) == slots + Slots(fns, j);
        } else {
          assert items + [] == items && {k} + Reached(fns, k, src) == slots;
        }
      case ExprStmt(_) =>
        assert items + [] == items && {k} + Reached(fns, k, src) == slots;
    }
  }

  lemma NothingAdmitted(arch: Arch, h: History, slots: set<nat>)
    ensures ItemsAdmitted(arch, h, slots, [])
  {
  }

  lemma FrontAdmitted(g: Guard, src: seq<Stmt>)
    requires src != [] && AllAdmitted(g, src)
    ensures AllAdmitted(g, src[..|src| - 1]) && StmtAdmitted(g, src[|src| - 1])
  {
  }

  lemma OneAdmitted(arch: Arch, h: History, k: nat, slots: set<nat>, items: seq<Item>, i: Item)
    requires k in slots && (i.Poke? || i.Peek?) && AllowedOnLineOf(arch, h, k, i.addr)
    requires ItemsAdmitted(arch, h, slots, items)
    ensures ItemsAdmitted(arch, h, slots, items + [i])
  {
  }

  lemma SlotAdmitted(arch: Arch, h: History, fns: seq<Fn>, j: nat)
    requires Admitted(arch, h, fns) && j < |h.defs|
    ensures j < |fns| && h.defs[j] < |h.past| && AllAdmitted(Guard(arch, h.past[h.defs[j]]), fns[j].src)
  {
    assert AdmittedAt(arch, h, fns, j);
  }

  lemma SplicedAdmitted(arch: Arch, h: History, slots: set<nat>, more: set<nat>, items: seq<Item>, tail: seq<Item>)
    requires ItemsAdmitted(arch, h, slots, items) && ItemsAdmitted(arch, h, more, tail)
    ensures ItemsAdmitted(arch, h, slots + more, items + tail)
  {
    hide AllowedOnLineOf;
    forall i | 0 <= i < |items + tail|
      ensures AdmittedBy(arch, h, slots + more, (items + tail)[i].addr)
    {
      var addr := (items + tail)[i].addr;
      if i < |items| {
        var j :| j in slots && AllowedOnLineOf(arch, h, j, addr);
      } else {
        var j :| j in more && AllowedOnLineOf(arch, h, j, addr);
      }
    }
  }

  /** Everything a defined function asks for was admitted on its own line or a spliced callee's. */
  lemma {:induction false} BodyAdmitted(arch: Arch, h: History, fns: seq<Fn>, i: nat)
    requires Admitted(arch, h, fns) && i < |h.defs|
    ensures ItemsAdmitted(arch, h, Slots(fns, i), Inline(fns, i, fns[i].src))
  {
    SlotAdmitted(arch, h, fns, i);
    InlineAdmitted(arch, h, fns, i, fns[i].src);
  }

  /** The accesses of a program are at the addresses its items name. */
  lemma {:induction false} MeaningTouches(bus: Bus, items: seq<Item>, vm: Vm, n: nat)
    requires Blocks(items) && |vm.trace| <= n < |Meaning(bus, items, vm).trace|
    ensures vm.trace <= Meaning(bus, items, vm).trace
    ensures exists i | 0 <= i < |items| :: items[i].addr == Meaning(bus, items, vm).trace[n].addr
    decreases |items|
  {
    var next := ItemMeaning(bus, items[0], vm);
    TracesGrow(bus, items[1..], next, AccState(Option.None, next.trace));
    TracesGrow(bus, items, vm, AccState(Option.None, vm.trace));
    if n == |vm.trace| {
      assert Meaning(bus, items, vm).trace[n] == next.trace[n];
    } else {
      MeaningTouches(bus, items[1..], next, n);
      var i :| 0 <= i < |items[1..]| && items[1..][i].addr == Meaning(bus, items, vm).trace[n].addr;
      assert items[i + 1] == items[1..][i];
    }
  }

  /** The generated code makes one access per item, in order, and a peek reads the address of its item. */
  lemma {:induction false} NativeAccess(bus: Bus, items: seq<Item>, s: AccState, j: nat)
    requires Blocks(items) && j < |items|
    ensures var after := NativeMeaning(bus, items, s).trace;
            |after| == |s.trace| + |items| && after[|s.trace| + j].Read? == items[j].Peek? &&
            (items[j].Peek? ==> after[|s.trace| + j].addr == items[j].addr)
    decreases |items|
  {
    var next := NativeItem(bus, items[0], s);
    TracesGrow(bus, items[1..], Vm([], next.trace), next);
    if |items| > 1 {
      NativeAccess(bus, items[1..], next, if j > 0 then j - 1 else 0);
    }
    if j == 0 {
      assert NativeMeaning(bus, items, s).trace[|s.trace|] == next.trace[|s.trace|];
    }
  }

  function CallTrace(cfg: Config, f: Fn, input: Input, trace: Trace): Trace {
    ProgramTrace(cfg, StreamProgram(f.body + [HALT], false), input, trace)
  }

  /** What a call does to memory, on either engine and either target. */
  lemma {:induction false} CallMeans(cfg: Config, fns: seq<Fn>, n: nat, i: nat, input: Input, trace: Trace)
    requires FnInv(fns, n) && i < n
    ensures var items := Inline(fns, i, fns[i].src);
            Blocks(items) &&
            CallTrace(cfg, fns[i], input, trace)
            == (match cfg.mode
                case ThreadedOnly => Meaning(cfg.bus, items, Vm([], trace)).trace
                case NativeFirst =>
                  NativeMeaning(cfg.bus, AsLoaded(cfg.arch, items), AccState(Option.None, trace)).trace)
    ensures trace <= CallTrace(cfg, fns[i], input, trace)
  {
    hide Threaded, Inline, Program.RunProgram, BigStep, AsLoaded;
    assert Functions.Compiled(fns, i);
    var items := Inline(fns, i, fns[i].src);
    InlineKeepsMeaning(cfg.bus, fns, i, fns[i].src, Vm([], trace));
    BlocksAreFragment(items, false, false);
    ThreadedMeaning(cfg.bus, items, [HALT], trace);
    RunIsNative(cfg.arch, cfg.bus, items, false, input.regs, input.junk, trace);
    TracesGrow(cfg.bus, items, Vm([], trace), AccState(Option.None, trace));
    TracesGrow(cfg.bus, AsLoaded(cfg.arch, items), Vm([], trace), AccState(Option.None, trace));
  }

  /**
   * Everything a defined function touches on the threaded engine was admitted
   * when it, or a function spliced into it, was parsed.
   */
  lemma CallTouchesAdmitted(cfg: Config, h: History, fns: seq<Fn>, i: nat, input: Input, trace: Trace, n: nat)
    requires cfg.mode == ThreadedOnly && FnInv(fns, |h.defs|) && Admitted(cfg.arch, h, fns) && i < |h.defs|
    requires |trace| <= n < |CallTrace(cfg, fns[i], input, trace)|
    ensures AdmittedBy(cfg.arch, h, Slots(fns, i), CallTrace(cfg, fns[i], input, trace)[n].addr)
  {
    hide CallTrace, Inline, AdmittedBy, Slots, Admitted;
    var items := Inline(fns, i, fns[i].src);
    BodyAdmitted(cfg.arch, h, fns, i);
    CallMeans(cfg, fns, |h.defs|, i, input, trace);
    MeaningTouches(cfg.bus, items, Vm([], trace), n);
  }

  // ---- when native reads keep to the check ----

  /** Every read of a call is at an address its line, or a spliced callee's line, admitted. */
  ghost predicate ReadsAdmitted(cfg: Config, h: History, fns: seq<Fn>, i: nat, input: Input, trace: Trace)
    requires i < |fns|
  {
    var after := CallTrace(cfg, fns[i], input, trace);
    forall n | |trace| <= n < |after| && after[n].Read? :: AdmittedBy(cfg.arch, h, Slots(fns, i), after[n].addr)
  }

  /** The addresses of a function's peeks, as the target loads them, were admitted. */
  ghost predicate PeeksAdmitted(arch: Arch, h: History, fns: seq<Fn>, i: nat)
    requires i < |fns|
  {
    var items := AsLoaded(arch, Inline(fns, i, fns[i].src));
    forall j | 0 <= j < |items| && items[j].Peek? :: AdmittedBy(arch, h, Slots(fns, i), items[j].addr)
  }

  /**
   * Whatever the devices answer, every native read of a call is at an address
   * that its line or a spliced callee's line admitted, if and only if all its
   * peeks load admitted addresses.
   */
  lemma NativeReadsAdmittedIff(cfg: Config, h: History, fns: seq<Fn>, i: nat, input: Input, trace: Trace)
    requires cfg.mode == NativeFirst && FnInv(fns, |h.defs|) && i < |h.defs|
    ensures ReadsAdmitted(cfg, h, fns, i, input, trace) <==> PeeksAdmitted(cfg.arch, h, fns, i)
  {
    hide CallTrace, Inline, AdmittedBy, Slots, AsLoaded;
    var items := AsLoaded(cfg.arch, Inline(fns, i, fns[i].src));
    var after := CallTrace(cfg, fns[i], input, trace);
    CallMeans(cfg, fns, |h.defs|, i, input, trace);
    LoadedShape(cfg.arch, Inline(fns, i, fns[i].src));
    if PeeksAdmitted(cfg.arch, h, fns, i) {
      forall n | |trace| <= n < |after| && after[n].Read?
        ensures AdmittedBy(cfg.arch, h, Slots(fns, i), after[n].addr)
      {
        if items != [] {
          NativeAccess(cfg.bus, items, AccState(Option.None, trace), 0);
          NativeAccess(cfg.bus, items, AccState(Option.None, trace), n - |trace|);
        }
      }
    } else {
      var j :| 0 <= j < |items| && items[j].Peek? && !AdmittedBy(cfg.arch, h, Slots(fns, i), items[j].addr);
      NativeAccess(cfg.bus, items, AccState(Option.None, trace), j);
      assert after[|trace| + j].Read?;
    }
  }

  /** On ARM peeks load the very addresses that were checked. */
  lemma ArmPeeksAdmitted(h: History, fns: seq<Fn>, i: nat)
    requires Admitted(Arm, h, fns) && i < |h.defs|
    ensures i < |fns| && PeeksAdmitted(Arm, h, fns, i)
  {
    hide Inline, AdmittedBy, Slots;
    SlotAdmitted(Arm, h, fns, i);
    BodyAdmitted(Arm, h, fns, i);
  }

  // ---- when native stores keep to the check ----

  /** Every store of a call is at an address its line, or a spliced callee's line, admitted. */
  ghost predicate StoresAdmitted(cfg: Config, h: History, fns: seq<Fn>, i: nat, input: Input, trace: Trace)
    requires i < |fns|
  {
    var after := CallTrace(cfg, fns[i], input, trace);
    forall n | |trace| <= n < |after| && after[n].Write? :: AdmittedBy(cfg.arch, h, Slots(fns, i), after[n].addr)
  }

  predicate PrivilegedLineOf(h: History, j: nat) {
    j < |h.defs| && h.defs[j] < |h.past| && SUPERUSER_ID in h.past[h.defs[j]]
  }

  /** The superuser capability was held on one of the lines that defined these slots. */
  ghost predicate HeldSuperuser(h: History, slots: set<nat>) {
    exists j | j in slots :: PrivilegedLineOf(h, j)
  }

  /** On RISC-V the first poke goes where its address loads to, which need not be the address checked. */
  ghost predicate FirstPokeAdmitted(arch: Arch, h: History, slots: set<nat>, items: seq<Item>) {
    arch == RiscV32 && items != [] && items[0].Poke? ==> AdmittedBy(arch, h, slots, RiscV.Loaded(items[0].addr))
  }

  /** All pokes come before all peeks, or the function was parsed under the superuser capability. */
  ghost predicate Contained(arch: Arch, h: History, fns: seq<Fn>, i: nat)
    requires i < |fns|
  {
    var items, slots := Inline(fns, i, fns[i].src), Slots(fns, i);
    HeldSuperuser(h, slots) || (PokesFirst(items) && FirstPokeAdmitted(arch, h, slots, items))
  }

  lemma SuperuserAdmitsAll(arch: Arch, h: History, slots: set<nat>, addr: Word)
    requires HeldSuperuser(h, slots)
    ensures AdmittedBy(arch, h, slots, addr)
  {
    var j :| j in slots && PrivilegedLineOf(h, j);
    assert AllowedOnLineOf(arch, h, j, addr);
  }

  /** Nobody but the superuser is admitted to address 0. */
  lemma ZeroNeedsSuperuser(arch: Arch, h: History, slots: set<nat>)
    requires AdmittedBy(arch, h, slots, 0)
    ensures HeldSuperuser(h, slots)
  {
    var j :| j in slots && AllowedOnLineOf(arch, h, j, 0);
    assert PrivilegedLineOf(h, j);
  }

  lemma ContainedStores(cfg: Config, h: History, fns: seq<Fn>, i: nat, input: Input, trace: Trace)
    requires cfg.mode == NativeFirst && FnInv(fns, |h.defs|) && Admitted(cfg.arch, h, fns) && i < |h.defs|
    requires Contained(cfg.arch, h, fns, i)
    ensures StoresAdmitted(cfg, h, fns, i, input, trace)
  {
    hide CallTrace, Inline, AdmittedBy, Slots, Admitted, AsLoaded, PokesFirst, HeldSuperuser, RiscV.Loaded;
    var items, slots := Inline(fns, i, fns[i].src), Slots(fns, i);
    var after := CallTrace(cfg, fns[i], input, trace);
    var loaded := AsLoaded(cfg.arch, items);
    BodyAdmitted(cfg.arch, h, fns, i);
    CallMeans(cfg, fns, |h.defs|, i, input, trace);
    LoadedShape(cfg.arch, items);
    forall n | |trace| <= n < |after| && after[n].Write?
      ensures AdmittedBy(cfg.arch, h, slots, after[n].addr)
    {
      if HeldSuperuser(h, slots) {
        SuperuserAdmitsAll(cfg.arch, h, slots, after[n].addr);
      } else {
        EarlyPokesStay(cfg.bus, loaded, trace, n);
      }
    }
  }

  /** What loading the immediates leaves as it was. */
  lemma LoadedShape(arch: Arch, items: seq<Item>)
    requires Blocks(items)
    ensures var loaded := AsLoaded(arch, items);
            Blocks(loaded) && |loaded| == |items| && (PokesFirst(loaded) <==> PokesFirst(items)) &&
            (items != [] ==>
               loaded[0].Poke? == items[0].Poke? &&
               loaded[0].addr == if arch == Arm then items[0].addr else RiscV.Loaded(items[0].addr))
  {
    hide AsLoaded, RiscV.Loaded;
    LoadingKeepsShape(arch, items);
  }

  lemma StoresContained(cfg: Config, h: History, fns: seq<Fn>, i: nat, input: Input, trace: Trace)
    requires cfg.mode == NativeFirst && FnInv(fns, |h.defs|) && Admitted(cfg.arch, h, fns) && i < |h.defs|
    requires forall bus: Bus :: StoresAdmitted(cfg.(bus := bus), h, fns, i, input, trace)
    ensures Contained(cfg.arch, h, fns, i)
  {
    hide CallTrace, Inline, AdmittedBy, Slots, Admitted, AsLoaded, HeldSuperuser, RiscV.Loaded;
    var items, slots := Inline(fns, i, fns[i].src), Slots(fns, i);
    var zero := cfg.(bus := ConstantBus(0));
    var after := CallTrace(zero, fns[i], input, trace);
    CallMeans(zero, fns, |h.defs|, i, input, trace);
    LoadedShape(cfg.arch, items);
    LoadingKeepsShape(cfg.arch, items);
    assert StoresAdmitted(zero, h, fns, i, input, trace);
    if p, q :| 0 <= p < q < |items| && items[q].Poke? && !items[p].Poke? {
      assert AsLoaded(cfg.arch, items)[p].Peek?;
      LatePokeStrays(AsLoaded(cfg.arch, items), AccState(Option.None, trace), 0, q);
      assert AdmittedBy(cfg.arch, h, slots, after[|trace| + q].addr);
      ZeroNeedsSuperuser(cfg.arch, h, slots);
    } else if cfg.arch == RiscV32 && items != [] && items[0].Poke? {
      FirstPokeStores(ConstantBus(0), AsLoaded(cfg.arch, items), trace);
      assert AdmittedBy(cfg.arch, h, slots, after[|trace|].addr);
    }
  }

  /**
   * Whatever the devices answer, every native store of a call is at an address
   * that its line or a spliced callee's line admitted, if and only if its pokes
   * all precede its peeks (and, on RISC-V, the first of them loads an admitted
   * address), or one of those lines was parsed under the superuser capability.
   */
  lemma NativeStoresAdmittedIff(cfg: Config, h: History, fns: seq<Fn>, i: nat, input: Input, trace: Trace)
    requires cfg.mode == NativeFirst && FnInv(fns, |h.defs|) && Admitted(cfg.arch, h, fns) && i < |h.defs|
    ensures (forall bus: Bus :: StoresAdmitted(cfg.(bus := bus), h, fns, i, input, trace))
            <==> Contained(cfg.arch, h, fns, i)
  {
    assert i < |fns|;
    hide StoresAdmitted, Contained, FnInv, Admitted;
    if Contained(cfg.arch, h, fns, i) {
      forall bus: Bus
        ensures StoresAdmitted(cfg.(bus := bus), h, fns, i, input, trace)
      {
        ContainedStores(cfg.(bus := bus), h, fns, i, input, trace);
      }
    } else if forall bus: Bus :: StoresAdmitted(cfg.(bus := bus), h, fns, i, input, trace) {
      StoresContained(cfg, h, fns, i, input, trace);
    }
  }

  // ---- what a line touches ----

  /**
   * The access follows from what the line asked for: a top-level statement
   * touches the address it names, which the registry admits at that moment; a
   * call touches what the called function's own line or a spliced callee's
   * line admitted.
   */
  ghost predicate Justified(arch: Arch, s: Sys, h: History, line: string, o: Outcome, addr: Word) {
    match o
    case RunStream(_) =>
      var called := CalledSlot(s.core.fns, line);
      called.Some? && called.value < |s.core.fns| && AdmittedBy(arch, h, Slots(s.core.fns, called.value), addr)
    case EnforcedPoke(a, _) => addr == a && Allowed(arch, s.claims, addr)
    case EnforcedPeek(a) => addr == a && Allowed(arch, s.claims, addr)
    case SetBitAt(a, _) => addr == a && Allowed(arch, s.claims, addr)
    case ClrBitAt(a, _) => addr == a && Allowed(arch, s.claims, addr)
    case _ => false
  }

  /**
   * The check binds this access of a call: any access on the threaded engine,
   * and in native code those of a kind that the function keeps to the check.
   */
  ghost predicate Governed(cfg: Config, h: History, fns: seq<Fn>, called: Option<nat>, e: Event) {
    cfg.mode == ThreadedOnly ||
    (called.Some? && called.value < |fns| ==>
       if e.Write? then Contained(cfg.arch, h, fns, called.value) else PeeksAdmitted(cfg.arch, h, fns, called.value))
  }

  /** Everything between two points of the traffic is at one address. */
  predicate TouchesOnly(before: Trace, after: Trace, addr: Word) {
    Extends(before, after) && forall n | |before| <= n < |after| :: after[n].addr == addr
  }

  /** An admitted statement touches its own address and no other, with or without a read first. */
  lemma StatementTouches(cfg: Config, s: Sys, addr: Word, value: Word, cycles: Word)
    requires Allowed(cfg.arch, s.claims, addr)
    ensures Permits(cfg.arch, s.claims, addr)
    ensures TouchesOnly(s.trace, Loaded(cfg, s, addr).trace, addr)
    ensures TouchesOnly(s.trace, Stored(cfg, s, addr, value, cycles).trace, addr)
    ensures TouchesOnly(s.trace, Stored(cfg, Loaded(cfg, s, addr), addr, value, cycles).trace, addr)
  {
    hide CheckAccess, Permits;
    LayersAgree(cfg.arch, s.claims, addr);
  }

  lemma ProgramJustified(cfg: Config, s: Sys, h: History, p: StreamProgram, input: Input, n: nat)
    requires SysInv(cfg, s, h) && BuiltFor(s.core.fns, CalledSlot(s.core.fns, input.line), p)
    ensures var after := ProgramTrace(cfg, p, input, s.trace);
            Extends(s.trace, after) &&
            (|s.trace| <= n < |after| && Governed(cfg, h, s.core.fns, CalledSlot(s.core.fns, input.line), after[n]) ==>
               Justified(cfg.arch, s, h, input.line, RunStream(p), after[n].addr))
  {
    hide ProgramTrace, CalledSlot, Inline, Slots, AdmittedBy, Contained, Admitted;
    var fns, called := s.core.fns, CalledSlot(s.core.fns, input.line);
    var after := ProgramTrace(cfg, p, input, s.trace);
    if called.Some? && IsDefinedCall(fns, called.value, p) {
      var i := called.value;
      assert i < |h.defs| && after == CallTrace(cfg, fns[i], input, s.trace);
      CallMeans(cfg, fns, |h.defs|, i, input, s.trace);
      if |s.trace| <= n < |after| && Governed(cfg, h, fns, called, after[n]) {
        CallJustified(cfg, h, fns, i, input, s.trace, n);
      }
    } else {
      var v :| p == ValueProgram(v);
      ValueTouchesNothing(cfg, v, input, s.trace);
    }
  }

  lemma CallJustified(cfg: Config, h: History, fns: seq<Fn>, i: nat, input: Input, trace: Trace, n: nat)
    requires FnInv(fns, |h.defs|) && Admitted(cfg.arch, h, fns) && i < |h.defs|
    requires |trace| <= n < |CallTrace(cfg, fns[i], input, trace)|
    requires Governed(cfg, h, fns, Some(i), CallTrace(cfg, fns[i], input, trace)[n])
    ensures AdmittedBy(cfg.arch, h, Slots(fns, i), CallTrace(cfg, fns[i], input, trace)[n].addr)
  {
    hide CallTrace, Inline, Slots, AdmittedBy, Contained, Admitted;
    var e := CallTrace(cfg, fns[i], input, trace)[n];
    if cfg.mode == ThreadedOnly {
      CallTouchesAdmitted(cfg, h, fns, i, input, trace, n);
    } else if e.Read? {
      NativeReadsAdmittedIff(cfg, h, fns, i, input, trace);
      assert ReadsAdmitted(cfg, h, fns, i, input, trace);
    } else {
      ContainedStores(cfg, h, fns, i, input, trace);
      assert StoresAdmitted(cfg, h, fns, i, input, trace);
    }
  }

  lemma ValueTouchesNothing(cfg: Config, v: Word, input: Input, trace: Trace)
    ensures ProgramTrace(cfg, ValueProgram(v), input, trace) == trace
  {
    hide Threaded, Program.RunProgram, ValueProgram;
    ValueThreaded(cfg.bus, v, trace);
    ValueProgramRuns(cfg.arch, cfg.bus, v, input.regs, input.junk, trace);
  }

  lemma ValueThreaded(bus: Bus, v: Word, trace: Trace)
    ensures Threaded(bus, ValueProgram(v).words, Vm([], trace)) == Halted(Vm([v], trace))
  {
    var words := ValueProgram(v).words;
    assert words[2..] == [HALT];
    assert Push([], v) == [v];
  }

  /** What carrying out an admitted outcome touches is justified by that outcome. */
  lemma ExecuteJustified(cfg: Config, s: Sys, h: History, o: Outcome, input: Input, n: nat)
    requires SysInv(cfg, s, h)
    requires OutcomeAdmitted(Guard(cfg.arch, s.claims), s.core.fns, CalledSlot(s.core.fns, input.line), o)
    ensures Extends(s.trace, Execute(cfg, s, o, input).trace)
    ensures var after := Execute(cfg, s, o, input).trace;
            |s.trace| <= n < |after| &&
            (o.RunStream? ==> Governed(cfg, h, s.core.fns, CalledSlot(s.core.fns, input.line), after[n])) ==>
              Justified(cfg.arch, s, h, input.line, o, after[n].addr)
  {
    hide CheckAccess, ResolveName, SetBit, ClrBit, Permits, Stored, Loaded, ProgramTrace, SysInv, BuiltFor;
    hide AdmittedBy, Slots, CalledSlot, Governed;
    match o
    case RunStream(p) => ProgramJustified(cfg, s, h, p, input, n);
    case EnforcedPoke(addr, value) => StatementTouches(cfg, s, addr, value, input.cycles);
    case EnforcedPeek(addr) => StatementTouches(cfg, s, addr, 0, 0);
    case SetBitAt(addr, bit) =>
      StatementTouches(cfg, s, addr, SetBit(cfg.bus(s.trace, addr), BitOf(bit)), input.cycles);
    case ClrBitAt(addr, bit) =>
      StatementTouches(cfg, s, addr, ClrBit(cfg.bus(s.trace, addr), BitOf(bit)), input.cycles);
    case _ =>
  }

  /** Access `n` of the traffic is `e`, and this line made it. */
  predicate MadeBy(cfg: Config, s: Sys, input: Input, n: nat, e: Event) {
    var after := Feed(cfg, s, input).trace;
    input.line != "" && |s.trace| <= n < |after| && after[n] == e
  }

  /**
   * The line made the access and was entitled to: a compile-time `peek` read it
   * while the line was parsed, or what the line asked for justifies it.
   */
  ghost predicate AccessOf(cfg: Config, s: Sys, h: History, input: Input, n: nat, e: Event) {
    var p := ParsedLine(cfg, s, input);
    MadeBy(cfg, s, input, n, e) &&
    if n < |p.trace| then e.Read? && p.trace[n] == e
    else p.result.Ok? && Justified(cfg.arch, s, h, input.line, p.result.value, e.addr)
  }

  /** The line made the access by calling a function whose native code the check does not bind here. */
  ghost predicate ExemptOf(cfg: Config, s: Sys, h: History, input: Input, n: nat, e: Event) {
    var p := ParsedLine(cfg, s, input);
    MadeBy(cfg, s, input, n, e) && |p.trace| <= n && p.result.Ok? && p.result.value.RunStream? &&
    !Governed(cfg, h, s.core.fns, CalledSlot(s.core.fns, input.line), e)
  }

  /** Each access a line adds is accounted for, unless a call made it that the check does not bind. */
  lemma FeedAccesses(cfg: Config, s: Sys, h: History, input: Input, n: nat)
    requires SysInv(cfg, s, h)
    ensures Extends(s.trace, Feed(cfg, s, input).trace)
    ensures var after := Feed(cfg, s, input).trace;
            |s.trace| <= n < |after| ==>
              AccessOf(cfg, s, h, input, n, after[n]) || ExemptOf(cfg, s, h, input, n, after[n])
  {
    if input.line != "" {
      hide SysInv, CheckAccess, Execute, Parse, Justified, OutcomeAdmitted, CalledSlot, Governed;
      var g := Guard(cfg.arch, s.claims);
      var p := ParsedLine(cfg, s, input);
      ParseReads(cfg.bus, g, s.core, input.line, s.trace);
      ParseChangesLittle(cfg.bus, g, s.core, input.line, s.trace);
      ParseAdmitted(cfg.bus, g, s.core, input.line, s.trace);
      if p.result.Ok? {
        var parsed := s.(core := p.state, trace := p.trace);
        if p.result.value.Bound? || p.result.value.FnDefined? {
          TablesExecuteQuietly(cfg, parsed, p.result.value, input);
        } else {
          SameTables(cfg, s, h, p.trace);
          ExecuteJustified(cfg, parsed, h, p.result.value, input, n);
          SameJustification(cfg.arch, s, p.trace, h, input.line, p.result.value);
          TraceChains(s.trace, p.trace, Feed(cfg, s, input).trace);
        }
      }
    }
  }

  lemma SameTables(cfg: Config, s: Sys, h: History, trace: Trace)
    requires SysInv(cfg, s, h)
    ensures SysInv(cfg, s.(trace := trace), h)
  {
  }

  lemma SameJustification(arch: Arch, s: Sys, trace: Trace, h: History, line: string, o: Outcome)
    ensures forall addr: Word ::
              Justified(arch, s.(trace := trace), h, line, o, addr) ==> Justified(arch, s, h, line, o, addr)
  {
    hide CheckAccess, AdmittedBy, Slots, CalledSlot;
  }

  lemma TablesExecuteQuietly(cfg: Config, s: Sys, o: Outcome, input: Input)
    requires o.Bound? || o.FnDefined?
    ensures Execute(cfg, s, o, input) == s
  {
  }

  lemma TraceChains(a: Trace, b: Trace, c: Trace)
    requires OnlyReads(a, b) && Extends(b, c)
    ensures Extends(a, c)
    ensures forall n | |a| <= n < |b| :: c[n] == b[n] && c[n].Read?
  {
    assert c[..|a|] == c[..|b|][..|a|];
    assert forall n | |a| <= n < |b| :: c[n] == c[..|b|][n];
  }

  // ---- over a whole session ----

  /** Access `n` belongs to line `k`, seen from the state and the history at that line. */
  ghost predicate AccessOfLine(cfg: Config, inputs: seq<Input>, k: nat, n: nat, e: Event) {
    k < |inputs| &&
    AccessOf(cfg, FeedAll(cfg, POWER_ON, inputs[..k]), TrackAll(cfg, NO_HISTORY, POWER_ON, inputs[..k]),
             inputs[k], n, e)
  }

  lemma HistoryGrows(cfg: Config, s: Sys, h: History, input: Input)
    ensures var after := Track(cfg, h, s, input); h.past <= after.past && h.defs <= after.defs
    ensures input.line == "" ==> Feed(cfg, s, input) == s
  {
    hide Parse, Execute;
  }

  /** Later lines neither add to nor take from what was admitted when a slot was defined. */
  lemma AdmissionsStay(arch: Arch, h: History, later: History, slots: set<nat>)
    requires h.past <= later.past && h.defs <= later.defs
    requires forall j <- slots :: j < |h.defs| && h.defs[j] < |h.past|
    ensures HeldSuperuser(later, slots) ==> HeldSuperuser(h, slots)
    ensures forall addr: Word :: AdmittedBy(arch, later, slots, addr) ==> AdmittedBy(arch, h, slots, addr)
  {
    hide CheckAccess;
    if HeldSuperuser(later, slots) {
      var j :| j in slots && PrivilegedLineOf(later, j);
      assert PrivilegedLineOf(h, j);
    }
    forall addr: Word | AdmittedBy(arch, later, slots, addr)
      ensures AdmittedBy(arch, h, slots, addr)
    {
      var j :| j in slots && AllowedOnLineOf(arch, later, j, addr);
      assert AllowedOnLineOf(arch, h, j, addr);
    }
  }

  /** The line made the access by calling a function whose native code the check does not bind. */
  ghost predicate ExemptOfLine(cfg: Config, inputs: seq<Input>, k: nat, n: nat, e: Event) {
    k < |inputs| &&
    ExemptOf(cfg, FeedAll(cfg, POWER_ON, inputs[..k]), TrackAll(cfg, NO_HISTORY, POWER_ON, inputs[..k]),
             inputs[k], n, e)
  }

  /**
   * Every access of a session was made by one of its lines, and that line was
   * entitled to it, as compile-time read or by what it asked for, unless it
   * called a function whose native code the check does not bind.
   */
  lemma {:induction false} SessionAccesses(cfg: Config, inputs: seq<Input>, n: nat)
    requires n < |FeedAll(cfg, POWER_ON, inputs).trace|
    ensures var e := FeedAll(cfg, POWER_ON, inputs).trace[n];
            exists k: nat :: AccessOfLine(cfg, inputs, k, n, e) || ExemptOfLine(cfg, inputs, k, n, e)
    decreases |inputs|
  {
    hide Feed, Track, SysInv, AccessOf, ExemptOf;
    assert inputs != [];
    var last := |inputs| - 1;
    var front := inputs[..last];
    var s, h := FeedAll(cfg, POWER_ON, front), TrackAll(cfg, NO_HISTORY, POWER_ON, front);
    var e := FeedAll(cfg, POWER_ON, inputs).trace[n];
    PowerOnInv(cfg);
    SessionKeepsInv(cfg, POWER_ON, NO_HISTORY, front);
    FeedAccesses(cfg, s, h, inputs[last], n);
    if n < |s.trace| {
      assert e == s.trace[n];
      SessionAccesses(cfg, front, n);
      var k: nat :| AccessOfLine(cfg, front, k, n, e) || ExemptOfLine(cfg, front, k, n, e);
      assert front[..k] == inputs[..k] && front[k] == inputs[k];
      assert AccessOfLine(cfg, inputs, k, n, e) || ExemptOfLine(cfg, inputs, k, n, e);
    } else {
      assert AccessOfLine(cfg, inputs, last, n, e) || ExemptOfLine(cfg, inputs, last, n, e);
    }
  }

  // ---- sessions that keep to the check ----

  /** All native accesses of the function keep to the check. */
  ghost predicate Disciplined(arch: Arch, h: History, fns: seq<Fn>, i: nat)
    requires i < |fns|
  {
    Contained(arch, h, fns, i) && PeeksAdmitted(arch, h, fns, i)
  }

  ghost predicate AllDisciplined(arch: Arch, h: History, fns: seq<Fn>) {
    forall i | 0 <= i < |fns| && fns[i].name != "" :: Disciplined(arch, h, fns, i)
  }

  /** Functions and what was admitted for them stay, so what keeps to the check after a line did before it. */
  lemma DisciplinedEarlier(cfg: Config, s: Sys, h: History, input: Input)
    requires SysInv(cfg, s, h)
    requires AllDisciplined(cfg.arch, Track(cfg, h, s, input), Feed(cfg, s, input).core.fns)
    ensures AllDisciplined(cfg.arch, h, s.core.fns)
  {
    hide Feed, Track, Inline, AsLoaded, AdmittedBy, HeldSuperuser, PokesFirst, RiscV.Loaded, AdmittedAt;
    var later, fns, after := Track(cfg, h, s, input), s.core.fns, Feed(cfg, s, input).core.fns;
    FeedKeepsInv(cfg, s, h, input);
    HistoryGrows(cfg, s, h, input);
    forall i | 0 <= i < |fns| && fns[i].name != ""
      ensures Disciplined(cfg.arch, h, fns, i)
    {
      assert after[i] == fns[i];
      assert fns[..i] == after[..i];
      InlineStable(fns, after, i, fns[i].src);
      ReachedStable(fns, after, i, fns[i].src);
      forall j <- Slots(fns, i)
        ensures j < |h.defs| && h.defs[j] < |h.past|
      {
        SlotAdmitted(cfg.arch, h, fns, j);
      }
      AdmissionsStay(cfg.arch, h, later, Slots(fns, i));
      assert Disciplined(cfg.arch, later, after, i);
    }
  }

  lemma {:induction false} DisciplinedThroughout(cfg: Config, inputs: seq<Input>, k: nat)
    requires k <= |inputs|
    requires AllDisciplined(cfg.arch, TrackAll(cfg, NO_HISTORY, POWER_ON, inputs),
                            FeedAll(cfg, POWER_ON, inputs).core.fns)
    ensures AllDisciplined(cfg.arch, TrackAll(cfg, NO_HISTORY, POWER_ON, inputs[..k]),
                           FeedAll(cfg, POWER_ON, inputs[..k]).core.fns)
    decreases |inputs|
  {
    hide Feed, Track, SysInv, AllDisciplined;
    if k == |inputs| {
      assert inputs[..k] == inputs;
    } else {
      var front := inputs[..|inputs| - 1];
      PowerOnInv(cfg);
      SessionKeepsInv(cfg, POWER_ON, NO_HISTORY, front);
      DisciplinedEarlier(cfg, FeedAll(cfg, POWER_ON, front), TrackAll(cfg, NO_HISTORY, POWER_ON, front),
                         inputs[|inputs| - 1]);
      assert front[..k] == inputs[..k];
      DisciplinedThroughout(cfg, front, k);
    }
  }

  /**
   * On the threaded engine, and with native code if every function the session
   * has defined keeps to the check, no access is exempt.
   */
  lemma {:induction false} DisciplinedSessionAccesses(cfg: Config, inputs: seq<Input>, n: nat)
    requires n < |FeedAll(cfg, POWER_ON, inputs).trace|
    requires cfg.mode == ThreadedOnly ||
             AllDisciplined(cfg.arch, TrackAll(cfg, NO_HISTORY, POWER_ON, inputs),
                            FeedAll(cfg, POWER_ON, inputs).core.fns)
    ensures exists k: nat :: AccessOfLine(cfg, inputs, k, n, FeedAll(cfg, POWER_ON, inputs).trace[n])
  {
    hide Feed, Track, SysInv, AccessOf, MadeBy, Parse, Contained, PeeksAdmitted;
    var e := FeedAll(cfg, POWER_ON, inputs).trace[n];
    SessionAccesses(cfg, inputs, n);
    var k: nat :| AccessOfLine(cfg, inputs, k, n, e) || ExemptOfLine(cfg, inputs, k, n, e);
    if ExemptOfLine(cfg, inputs, k, n, e) {
      if cfg.mode == NativeFirst {
        DisciplinedThroughout(cfg, inputs, k);
      }
      CalledIsDefined(FeedAll(cfg, POWER_ON, inputs[..k]).core.fns, inputs[k].line);
    }
  }

  lemma CalledIsDefined(fns: seq<Fn>, line: string)
    ensures var called := CalledSlot(fns, line);
            called.Some? ==> called.value < |fns| && fns[called.value].name != ""
  {
    hide Tokens;
  }

  // ---- the reach of the check ----

  /** Where the registry's own words start in memory. */
  function RegistryBase(arch: Arch): Word {
    match arch
    case Arm => 0x2000_1000
    case RiscV32 => 0x8000_1800
  }

  /**
   * The check lets a store through to the words of the registry itself, with
   * nothing claimed: it does not protect what it consults.
   */
  lemma RegistryIsInReach(arch: Arch, word: Word)
    requires word < 8
    ensures Allowed(arch, {}, RegistryBase(arch) + 4 * word) && Permits(arch, {}, RegistryBase(arch) + 4 * word)
  {
  }

  // ---- when the two engines do the same ----

  predicate CallAgrees(cfg: Config, f: Fn, input: Input, trace: Trace) {
    CallTrace(cfg.(mode := NativeFirst), f, input, trace) == CallTrace(cfg.(mode := ThreadedOnly), f, input, trace)
  }

  /** The two engines agree on a defined function, whatever the devices answer, exactly when its body is right. */
  lemma {:induction false} CallAgreesIff(cfg: Config, fns: seq<Fn>, n: nat, i: nat, input: Input, trace: Trace)
    requires FnInv(fns, n) && i < n
    ensures (forall bus: Bus :: CallAgrees(cfg.(bus := bus), fns[i], input, trace))
            <==> Right(cfg.arch, Inline(fns, i, fns[i].src))
  {
    assert i < |fns|;
    hide FnInv, Inline, CallTrace, Right, Blocks, Meaning, NativeMeaning;
    var items := Inline(fns, i, fns[i].src);
    CallMeans(cfg, fns, n, i, input, trace);
    forall bus: Bus
      ensures CallAgrees(cfg.(bus := bus), fns[i], input, trace) <==> RightOn(cfg.arch, bus, items, trace)
    {
      CallMeans(cfg.(bus := bus, mode := NativeFirst), fns, n, i, input, trace);
      CallMeans(cfg.(bus := bus, mode := ThreadedOnly), fns, n, i, input, trace);
    }
    RightIff(cfg.arch, items, trace);
  }

  /** Every defined function is right for the target. */
  predicate AllRight(arch: Arch, fns: seq<Fn>) {
    forall i | 0 <= i < |fns| && fns[i].name != "" :: Right(arch, Inline(fns, i, fns[i].src))
  }

  predicate EnginesAgreeOn(cfg: Config, p: StreamProgram, input: Input, trace: Trace) {
    ProgramTrace(cfg.(mode := NativeFirst), p, input, trace)
    == ProgramTrace(cfg.(mode := ThreadedOnly), p, input, trace)
  }

  lemma ProgramAgrees(cfg: Config, fns: seq<Fn>, n: nat, called: Option<nat>, p: StreamProgram, input: Input,
                      trace: Trace)
    requires FnInv(fns, n) && AllRight(cfg.arch, fns) && BuiltFor(fns, called, p)
    ensures EnginesAgreeOn(cfg, p, input, trace)
  {
    hide Threaded, Program.RunProgram, Inline, Right;
    if called.Some? && IsDefinedCall(fns, called.value, p) {
      var i := called.value;
      assert i < n;
      CallAgreesIff(cfg, fns, n, i, input, trace);
      assert CallAgrees(cfg.(bus := cfg.bus), fns[i], input, trace);
    } else {
      var v :| p == ValueProgram(v);
      ValueTouchesNothing(cfg.(mode := NativeFirst), v, input, trace);
      ValueTouchesNothing(cfg.(mode := ThreadedOnly), v, input, trace);
    }
  }

  /** Only running a program depends on the engine. */
  lemma ExecuteAgrees(cfg: Config, s: Sys, o: Outcome, input: Input)
    requires o.RunStream? ==> EnginesAgreeOn(cfg, o.program, input, s.trace)
    ensures Execute(cfg.(mode := NativeFirst), s, o, input) == Execute(cfg.(mode := ThreadedOnly), s, o, input)
  {
    hide ProgramTrace, ResolveName, Permits, SetBit, ClrBit;
  }

  /** While all functions are right, a line does on the real engine what it does on the threaded one. */
  lemma RightFunctionsAgree(cfg: Config, s: Sys, h: History, input: Input)
    requires SysInv(cfg, s, h) && AllRight(cfg.arch, s.core.fns)
    ensures Feed(cfg.(mode := NativeFirst), s, input) == Feed(cfg.(mode := ThreadedOnly), s, input)
  {
    if input.line != "" {
      hide FnInv, AllRight, Admitted, CheckAccess, Parse, Execute, ProgramTrace, BuiltFor, CalledSlot;
      var p := ParsedLine(cfg, s, input);
      ParseChangesLittle(cfg.bus, Guard(cfg.arch, s.claims), s.core, input.line, s.trace);
      ParseAdmitted(cfg.bus, Guard(cfg.arch, s.claims), s.core, input.line, s.trace);
      if p.result.Ok? {
        if p.result.value.RunStream? {
          var called := CalledSlot(s.core.fns, input.line);
          ProgramAgrees(cfg, s.core.fns, |h.defs|, called, p.result.value.program, input, p.trace);
        }
        ExecuteAgrees(cfg, s.(core := p.state, trace := p.trace), p.result.value, input);
      }
    }
  }

  /** Functions stay, so what is right after a line was right before it. */
  lemma RightEarlier(cfg: Config, s: Sys, h: History, input: Input)
    requires SysInv(cfg, s, h) && AllRight(cfg.arch, Feed(cfg, s, input).core.fns)
    ensures AllRight(cfg.arch, s.core.fns)
  {
    hide Feed, Track, Right, Inline;
    FeedKeepsInv(cfg, s, h, input);
    var fns, after := s.core.fns, Feed(cfg, s, input).core.fns;
    forall i | 0 <= i < |fns| && fns[i].name != ""
      ensures Right(cfg.arch, Inline(fns, i, fns[i].src))
    {
      assert after[i] == fns[i];
      assert fns[..i] == after[..i];
      InlineStable(fns, after, i, fns[i].src);
    }
  }

  /**
   * A session whose functions are all right does with native code, on either
   * target, what it does on the threaded engine, access by access.
   */
  lemma {:induction false} RightSessionAgrees(cfg: Config, s: Sys, h: History, inputs: seq<Input>)
    requires SysInv(cfg, s, h)
    requires AllRight(cfg.arch, FeedAll(cfg.(mode := ThreadedOnly), s, inputs).core.fns)
    ensures FeedAll(cfg.(mode := NativeFirst), s, inputs) == FeedAll(cfg.(mode := ThreadedOnly), s, inputs)
    decreases |inputs|
  {
    if inputs != [] {
      hide Feed, Track, AllRight, FnInv, Admitted;
      var threaded := cfg.(mode := ThreadedOnly);
      var front, last := inputs[..|inputs| - 1], inputs[|inputs| - 1];
      var before, past := FeedAll(threaded, s, front), TrackAll(threaded, h, s, front);
      SessionKeepsInv(threaded, s, h, front);
      RightEarlier(threaded, before, past, last);
      RightSessionAgrees(cfg, s, h, front);
      RightFunctionsAgree(cfg, before, past, last);
    }
  }

  /** On ARM a function that peeks and then pokes stores, natively, to whatever address the peek returned. */
  lemma NativeCallEscapes(bus: Bus, fns: seq<Fn>, n: nat, i: nat, p: Word, a: Word, v: Word, input: Input, trace: Trace)
    requires FnInv(fns, n) && i < n && fns[i].src == [PeekStmt(p), PokeStmt(a, v)]
    ensures CallTrace(Config(Arm, bus, NativeFirst), fns[i], input, trace)
         == trace + [Read(p, bus(trace, p)), Write(bus(trace, p), v)]
  {
    hide Program.RunProgram;
    var src := fns[i].src;
    assert Functions.Compiled(fns, i);
    assert src[..|src| - 1] == [PeekStmt(p)] && [PeekStmt(p)][..0] == [];
    assert Inline(fns, i, []) == [];
    assert Inline(fns, i, [PeekStmt(p)]) == [Peek(p)];
    assert Inline(fns, i, src) == [Peek(p), Poke(a, v)];
    PokeAfterPeekGoesAstray(bus, p, a, v, input.regs, input.junk, trace);
  }

  /**
   * On RISC-V a single poke can escape: `poke 0x80000000 1;` passes the check
   * with nothing claimed, and is stored to address 0, which does not.
   */
  lemma RiscVCallEscapes(bus: Bus, fns: seq<Fn>, n: nat, i: nat, input: Input, trace: Trace)
    requires FnInv(fns, n) && i < n && fns[i].src == [PokeStmt(0x8000_0000, 1)]
    ensures CallTrace(Config(RiscV32, bus, NativeFirst), fns[i], input, trace) == trace + [Write(0, 1)]
    ensures Allowed(RiscV32, {}, 0x8000_0000) && !Allowed(RiscV32, {}, 0)
  {
    hide CallTrace, NativeMeaning;
    var src, none := fns[i].src, AccState(Option.None, trace);
    assert src[..0] == [] && Inline(fns, i, []) == [];
    assert Inline(fns, i, src) == [Poke(0x8000_0000, 1)];
    CallMeans(Config(RiscV32, bus, NativeFirst), fns, n, i, input, trace);
    var loaded := AsLoaded(RiscV32, Inline(fns, i, src));
    OnePokeLoaded();
    assert loaded == [Poke(0, 1)];
    FirstPokeStores(bus, loaded, trace);
    OneItemRuns(bus, Poke(0, 1), none);
  }

  lemma OnePokeLoaded()
    ensures AsLoaded(RiscV32, [Poke(0x8000_0000, 1)]) == [Poke(0, 1)]
  {
    var items := [Poke(0x8000_0000, 1)];
    assert items[1..] == [];
    assert RiscV.Loaded(0x8000_0000) == 0 && RiscV.Loaded(1) == 1;
  }

  lemma {:induction false} OneItemRuns(bus: Bus, i: Item, s: AccState)
    ensures NativeMeaning(bus, [i], s) == NativeItem(bus, i, s)
  {
    assert NativeMeaning(bus, [i], s) == NativeMeaning(bus, [i][1..], NativeItem(bus, i, s));
  }

  // ---- the audit log ----

  /** The store an outcome makes through the enforced path, if any. */
  function StoreOf(cfg: Config, s: Sys, o: Outcome, cycles: Word): Option<AuditEntry> {
    match o
    case EnforcedPoke(addr, value) => Some(AuditEntry(addr, value, cycles))
    case SetBitAt(addr, bit) => Some(AuditEntry(addr, SetBit(cfg.bus(s.trace, addr), BitOf(bit)), cycles))
    case ClrBitAt(addr, bit) => Some(AuditEntry(addr, ClrBit(cfg.bus(s.trace, addr), BitOf(bit)), cycles))
    case _ => Option.None
  }

  /** The store a line makes through the enforced path, if any. */
  function EnforcedStore(cfg: Config, s: Sys, input: Input): Option<AuditEntry> {
    if input.line == "" then Option.None
    else
      var p := ParsedLine(cfg, s, input);
      match p.result
      case Ok(o) => StoreOf(cfg, s.(core := p.state, trace := p.trace), o, input.cycles)
      case Err(_) => Option.None
  }

  /** The enforced stores of a session made while somebody held the superuser capability. */
  function PrivilegedStores(cfg: Config, s: Sys, inputs: seq<Input>): seq<AuditEntry> {
    if inputs == [] then []
    else
      var front := inputs[..|inputs| - 1];
      var before := FeedAll(cfg, s, front);
      var store := EnforcedStore(cfg, before, inputs[|inputs| - 1]);
      PrivilegedStores(cfg, s, front)
      + if store.Some? && SUPERUSER_ID in before.claims then [store.value] else []
  }

  ghost predicate StoreHappened(s: Sys, store: Option<AuditEntry>, after: Sys) {
    (store.Some? ==>
       after.trace != [] && after.trace[|after.trace| - 1] == Write(store.value.addr, store.value.val)) &&
    after.log == s.log + if store.Some? && SUPERUSER_ID in s.claims then [store.value] else []
  }

  lemma ExecuteStores(cfg: Config, s: Sys, fns: seq<Fn>, called: Option<nat>, o: Outcome, input: Input)
    requires OutcomeAdmitted(Guard(cfg.arch, s.claims), fns, called, o)
    ensures StoreHappened(s, StoreOf(cfg, s, o, input.cycles), Execute(cfg, s, o, input))
  {
    hide CheckAccess, ProgramTrace, ResolveName, SetBit, ClrBit, Permits;
    var store := StoreOf(cfg, s, o, input.cycles);
    if store.Some? {
      LayersAgree(cfg.arch, s.claims, store.value.addr);
    }
  }

  /** An enforced store always goes through, and is logged exactly while the superuser capability is held. */
  lemma EnforcedStoreHappens(cfg: Config, s: Sys, input: Input)
    ensures StoreHappened(s, EnforcedStore(cfg, s, input), Feed(cfg, s, input))
  {
    if input.line != "" {
      hide CheckAccess, Parse, Execute, StoreOf, OutcomeAdmitted;
      var g := Guard(cfg.arch, s.claims);
      var p := ParsedLine(cfg, s, input);
      ParseAdmitted(cfg.bus, g, s.core, input.line, s.trace);
      if p.result.Ok? {
        var parsed := s.(core := p.state, trace := p.trace);
        ExecuteStores(cfg, parsed, s.core.fns, CalledSlot(s.core.fns, input.line), p.result.value, input);
      }
    }
  }

  /** Over any session the audit log is exactly the list of enforced stores made under the superuser capability. */
  lemma {:induction false} AuditIsPrivilegedStores(cfg: Config, s: Sys, inputs: seq<Input>)
    ensures FeedAll(cfg, s, inputs).log == s.log + PrivilegedStores(cfg, s, inputs)
    decreases |inputs|
  {
    if inputs == [] {
      assert s.log + [] == s.log;
    } else {
      hide Feed, EnforcedStore;
      var front := inputs[..|inputs| - 1];
      AuditIsPrivilegedStores(cfg, s, front);
      EnforcedStoreHappens(cfg, FeedAll(cfg, s, front), inputs[|inputs| - 1]);
    }
  }
}
