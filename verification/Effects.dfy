/**
 * What lines do, kind by kind: from the parts a line is written from to the
 * tables, claims, log and memory after it.
 */
module Effects {
  import opened Wrappers
  import opened Machine
  import opened Lexing
  import opened Target
  import opened Exec
  import opened Simulation
  import opened Program
  import opened Registry
  import opened Enforced
  import opened Audit
  import opened Grammar
  import opened Spelling
  import opened Expressions
  import opened Functions
  import opened Session
  import opened Accesses
  import opened Lines
  import opened Readings
  import RiscV

  /** The line is written from these parts, with `end` behind it. */
  predicate Written(line: string, l: Line, end: seq<Token>) {
    LineOk(l) && Tokens(line) == LineToks(l) + end && MayFollow(l, end)
  }

  function ScopeOf(cfg: Config, s: Sys): Scope {
    Scope(s.core.env, cfg.bus)
  }

  /** Parsing a written line comes to the meaning of its parts. */
  lemma WrittenIsParsed(cfg: Config, s: Sys, input: Input, l: Line, end: seq<Token>)
    requires Written(input.line, l, end)
    ensures input.line != ""
    ensures ParsedLine(cfg, s, input) == LineMeaning(cfg.bus, Guard(cfg.arch, s.claims), s.core, l, s.trace)
  {
    hide Parse, LineMeaning, LineOk;
    LineTokensParse(cfg.bus, Guard(cfg.arch, s.claims), s.core, l, input.line, end, s.trace);
    HasTokens(l);
    assert Tokens("") == [];
  }

  lemma HasTokens(l: Line)
    ensures LineToks(l) != []
  {
  }

  // ---- the names of resources ----

  const NAMES: seq<(string, Word)> := [
    ("GPIOA", 0), ("GPIOB", 1), ("UART0", 2), ("SPI0", 3), ("I2C0", 4), ("TIMER0", 5), ("DMA0", 6), ("SUPERUSER", 31)]

  predicate Names(name: string, id: Word) {
    exists i | 0 <= i < |NAMES| :: NAMES[i] == (name, id)
  }

  lemma ResolvedByTable(name: string, id: Word)
    ensures ResolveName(name) == Some(id) <==> Names(name, id)
  {
    if ResolveName(name) == Some(id) {
      var i := if id == 31 then 7 else if id == 0 then 0 else if id == 1 then 1 else if id == 2 then 2
               else if id == 3 then 3 else if id == 4 then 4 else if id == 5 then 5 else 6;
      assert NAMES[i] == (name, id);
    }
  }

  // ---- claims ----

  /** `cap_claim NAME` and `cap_drop NAME`, closed by their end or a semicolon. */
  function ClaimLine(line: string): Option<(bool, string)> {
    var toks := Tokens(line);
    if |toks| < 2 || !toks[1].Identifier? || |toks[1].name| > 16 || (|toks| > 2 && toks[2] != Semicolon) then None
    else if toks[0] == Identifier("cap_claim") then Some((true, toks[1].name))
    else if toks[0] == Identifier("cap_drop") then Some((false, toks[1].name))
    else None
  }

  /** Whether the last such line that names the resource claims it. */
  predicate ClaimedAfter(lines: seq<string>, id: Word) {
    lines != [] &&
    var front, last := lines[..|lines| - 1], ClaimLine(lines[|lines| - 1]);
    if last.Some? && Names(last.value.1, id) then last.value.0 else ClaimedAfter(front, id)
  }

  lemma ClaimIsWritten(line: string) returns (l: Line, end: seq<Token>)
    requires ClaimLine(line).Some?
    ensures Written(line, l, end)
    ensures l == if ClaimLine(line).value.0 then Claim(ClaimLine(line).value.1) else Drop(ClaimLine(line).value.1)
  {
    hide Tokens, IsName;
    var toks := Tokens(line);
    TokensAreLexed(line);
    assert Lexed(toks[1]);
    var name := toks[1].name;
    l := if ClaimLine(line).value.0 then Claim(name) else Drop(name);
    end := toks[2..];
    assert toks == [toks[0], toks[1]] + end;
  }

  lemma WrittenIsClaim(line: string, l: Line, end: seq<Token>)
    requires Written(line, l, end) && (l.Claim? || l.Drop?) && |l.name| <= 16
    ensures ClaimLine(line) == Some((l.Claim?, l.name))
  {
    hide Tokens, IsName;
    assert Tokens(line)[..2] == LineToks(l);
    TokensAreLexed(line);
    assert |Tokens(line)| > 2 ==> Tokens(line)[2] == end[0] && Lexed(Tokens(line)[2]);
  }

  /** A line that claims or drops changes exactly the claim on the resource it names. */
  lemma ClaimLineActs(cfg: Config, s: Sys, input: Input, id: Word)
    requires ClaimLine(input.line).Some?
    ensures var (claim, name) := ClaimLine(input.line).value;
            var after := Feed(cfg, s, input);
            (id in after.claims <==> if Names(name, id) then claim else id in s.claims) &&
            after == s.(claims := after.claims)
  {
    hide Parse, ClaimLine, Written, ResolveName, Names;
    var l, end := ClaimIsWritten(input.line);
    WrittenIsParsed(cfg, s, input, l, end);
    ClaimFits(input.line);
    var name := ClaimLine(input.line).value.1;
    ResolvedByTable(name, id);
  }

  lemma ClaimFits(line: string)
    requires ClaimLine(line).Some?
    ensures |ClaimLine(line).value.1| <= 16
  {
    hide Tokens;
  }

  /** Any other line leaves the claims as they were. */
  lemma OtherLinesClaimNothing(cfg: Config, s: Sys, input: Input)
    requires ClaimLine(input.line).None?
    ensures Feed(cfg, s, input).claims == s.claims
  {
    hide Parse, ClaimLine, ProgramTrace, Stored, Loaded, ResolveName, Written;
    var p := ParsedLine(cfg, s, input);
    if input.line != "" && p.result.Ok? {
      var l, end := AcceptedLineIsWritten(cfg.bus, Guard(cfg.arch, s.claims), s.core, input.line, s.trace);
      assert Written(input.line, l, end) by {
        AcceptedIsWritten(input.line, l, end);
      }
      if (l.Claim? || l.Drop?) && |l.name| <= 16 {
        WrittenIsClaim(input.line, l, end);
      }
      OnlyClaimsClaim(cfg.bus, Guard(cfg.arch, s.claims), s.core, l, s.trace);
      ExecuteKeepsClaims(cfg, s.(core := p.state, trace := p.trace), p.result.value, input);
    }
  }

  lemma {:induction false} AcceptedIsWritten(line: string, l: Line, end: seq<Token>)
    requires LineOk(l) && Tokens(line) == LineToks(l) + end && MayFollow(l, end)
    ensures Written(line, l, end)
  {
  }

  lemma OnlyClaimsClaim(bus: Bus, g: Guard, st: State, l: Line, trace: Trace)
    ensures var r := LineMeaning(bus, g, st, l, trace).result;
            r.Ok? && (r.value.ClaimCap? || r.value.DropCap?) ==> (l.Claim? || l.Drop?) && |l.name| <= 16
  {
    hide TermMeaning, TreeMeaning, BodyMeaning, StoreOperands, BitOperands, Admits;
  }

  lemma ExecuteKeepsClaims(cfg: Config, s: Sys, o: Outcome, input: Input)
    requires !o.ClaimCap? && !o.DropCap?
    ensures Execute(cfg, s, o, input).claims == s.claims
  {
    hide ProgramTrace, Permits, SetBit, ClrBit;
  }

  function LinesOf(inputs: seq<Input>): seq<string> {
    seq(|inputs|, i requires 0 <= i < |inputs| => inputs[i].line)
  }

  /** Over any session a resource is claimed exactly if the last line that names it in a claim or drop claims it. */
  lemma {:induction false} ClaimsFollowLines(cfg: Config, inputs: seq<Input>, id: Word)
    ensures id in FeedAll(cfg, POWER_ON, inputs).claims <==> ClaimedAfter(LinesOf(inputs), id)
    decreases |inputs|
  {
    if inputs != [] {
      hide Feed, ClaimLine, Names;
      var front, last := inputs[..|inputs| - 1], inputs[|inputs| - 1];
      ClaimsFollowLines(cfg, front, id);
      assert LinesOf(inputs)[..|inputs| - 1] == LinesOf(front);
      if ClaimLine(last.line).Some? {
        ClaimLineActs(cfg, FeedAll(cfg, POWER_ON, front), last, id);
      } else {
        OtherLinesClaimNothing(cfg, FeedAll(cfg, POWER_ON, front), last);
      }
    }
  }

  // ---- what a claim opens ----

  /** The block of registers of a peripheral, by its name: 1 KiB each on ARM, 4 KiB on RISC-V. */
  predicate InBlock(arch: Arch, name: string, addr: Word) {
    match arch
    case Arm =>
      (name == "GPIOA" && 0x4002_0000 <= addr < 0x4002_0400) ||
      (name == "GPIOB" && 0x4002_0400 <= addr < 0x4002_0800) ||
      (name == "UART0" && 0x4001_1000 <= addr < 0x4001_1400) ||
      (name == "SPI0" && 0x4001_3000 <= addr < 0x4001_3400) ||
      (name == "I2C0" && 0x4001_5400 <= addr < 0x4001_5800) ||
      (name == "TIMER0" && 0x4000_0000 <= addr < 0x4000_0400) ||
      (name == "DMA0" && 0x4000_2000 <= addr < 0x4000_2400)
    case RiscV32 =>
      (name == "GPIOA" && 0x1001_2000 <= addr < 0x1001_3000) ||
      (name == "UART0" && 0x1001_3000 <= addr < 0x1001_4000) ||
      (name == "SPI0" && 0x1001_4000 <= addr < 0x1001_5000) ||
      (name == "I2C0" && 0x1002_0000 <= addr < 0x1002_1000) ||
      (name == "TIMER0" && 0x1001_5000 <= addr < 0x1001_6000) ||
      (name == "DMA0" && 0x1000_0000 <= addr < 0x1000_1000)
  }

  predicate InMemory(arch: Arch, addr: Word) {
    match arch
    case Arm => 0x0800_0000 <= addr < 0x0810_0000 || 0x2000_0000 <= addr <= 0x2001_C000
    case RiscV32 => 0x2000_0000 <= addr < 0x2001_0000 || 0x8000_0000 <= addr < 0x8001_0000
  }

  /** The peripherals, by the names the console knows them by. */
  function NameOf(c: CapId): string {
    match c
    case GpioA => "GPIOA"
    case GpioB => "GPIOB"
    case Uart0 => "UART0"
    case Spi0 => "SPI0"
    case I2c0 => "I2C0"
    case Timer0 => "TIMER0"
    case Dma0 => "DMA0"
    case SuperUser => "SUPERUSER"
  }

  lemma NameHasId(c: CapId)
    ensures Names(NameOf(c), Id(c))
  {
    ResolvedByTable(NameOf(c), Id(c));
  }

  lemma CapOfBlock(arch: Arch, addr: Word, c: CapId)
    ensures AddrToCap(arch, addr) == Some(c) <==> InBlock(arch, NameOf(c), addr)
  {
  }

  lemma NamesAreCaps(name: string, id: Word) returns (c: CapId)
    requires Names(name, id)
    ensures name == NameOf(c) && id == Id(c)
  {
    c := if id == 0 then GpioA else if id == 1 then GpioB else if id == 2 then Uart0 else if id == 3 then Spi0
         else if id == 4 then I2c0 else if id == 5 then Timer0 else if id == 6 then Dma0 else SuperUser;
  }

  lemma MemoryIsRamOrFlash(arch: Arch, addr: Word)
    ensures InMemory(arch, addr) <==> IsRamOrFlash(arch, addr)
    ensures InMemory(arch, addr) ==> AddrToCap(arch, addr) == None
  {
  }

  /** Some claimed resource opens the address: the superuser capability any, a peripheral its own block. */
  ghost predicate OpenedBy(arch: Arch, claims: Claims, addr: Word) {
    exists name, id | Names(name, id) && id in claims :: name == "SUPERUSER" || InBlock(arch, name, addr)
  }

  /** The access check in terms of names and blocks, whatever is claimed. */
  lemma AccessByName(arch: Arch, claims: Claims, addr: Word)
    ensures Allowed(arch, claims, addr) <==> InMemory(arch, addr) || OpenedBy(arch, claims, addr)
  {
    hide Names, NameOf, Id, InBlock, InMemory, AddrToCap, IsRamOrFlash;
    MemoryIsRamOrFlash(arch, addr);
    SuperuserNamed();
    if OpenedBy(arch, claims, addr) {
      var name, id :| Names(name, id) && id in claims && (name == "SUPERUSER" || InBlock(arch, name, addr));
      var c := NamesAreCaps(name, id);
      CapOfBlock(arch, addr, c);
      OnlyOneSuperuser(c);
    }
    var found := AddrToCap(arch, addr);
    if found.Some? && Id(found.value) in claims {
      NameHasId(found.value);
      CapOfBlock(arch, addr, found.value);
    }
  }

  lemma SuperuserNamed()
    ensures Names("SUPERUSER", SUPERUSER_ID)
  {
    NameHasId(SuperUser);
  }

  lemma OnlyOneSuperuser(c: CapId)
    ensures NameOf(c) == "SUPERUSER" <==> Id(c) == SUPERUSER_ID
  {
  }

  /** The registers the kernel's own drivers use lie in the blocks of their names. */
  lemma OwnRegistersInBlocks(offset: Word)
    requires offset in {0, 4, 8, 12, 16}
    ensures InBlock(Arm, "GPIOA", 0x4002_0000 + offset) && InBlock(Arm, "GPIOB", 0x4002_0400 + offset)
    ensures InBlock(Arm, "UART0", 0x4001_1000 + offset) && InBlock(RiscV32, "UART0", 0x1001_3000 + offset)
  {
  }

  /**
   * A line `poke ADDR VALUE` whose operands come to `a` and `v` is accepted
   * exactly if the address is in memory or opened by a claim, and then stores.
   */
  lemma PokeLineStores(cfg: Config, s: Sys, input: Input, addr: Term, value: Tree, end: seq<Token>,
                       a: Word, v: Word, trace: Trace)
    requires Written(input.line, Line.Poke(addr, value), end)
    requires StoreOperands(ScopeOf(cfg, s), addr, value, s.trace) == Both(a, v, trace)
    ensures var r := ParsedLine(cfg, s, input).result;
            var after := Feed(cfg, s, input);
            if InMemory(cfg.arch, a) || OpenedBy(cfg.arch, s.claims, a) then
              r == Ok(EnforcedPoke(a, v)) &&
              after == s.(trace := trace + [Write(a, v)],
                          log := s.log + if 31 in s.claims then [AuditEntry(a, v, input.cycles)] else [])
            else
              r == Err(ParseError.CapabilityViolation) && after == s.(trace := trace)
  {
    hide Parse, Written, CheckAccess, InMemory, OpenedBy, StoreOperands, Permits;
    WrittenIsParsed(cfg, s, input, Line.Poke(addr, value), end);
    AccessByName(cfg.arch, s.claims, a);
    LayersAgree(cfg.arch, s.claims, a);
  }

  lemma NamesDiffer(name: string, other: string, id: Word)
    requires Names(name, id) && Names(other, id)
    ensures name == other
  {
    ResolvedByTable(name, id);
    ResolvedByTable(other, id);
    var c := NamesAreCaps(name, id);
    var d := NamesAreCaps(other, id);
    SameIds(c, d);
  }

  lemma SameIds(c: CapId, d: CapId)
    requires Id(c) == Id(d)
    ensures c == d
  {
  }

  /**
   * With nothing claimed, `cap_claim NAME` opens the block of that name and no
   * other, on top of memory; SUPERUSER opens everything.
   */
  lemma ClaimThenPoke(cfg: Config, s: Sys, claim: Input, name: string, id: Word, poke: Input, addr: Term,
                      value: Tree, end: seq<Token>, a: Word, v: Word, trace: Trace)
    requires s.claims == {} && ClaimLine(claim.line) == Some((true, name)) && Names(name, id)
    requires Written(poke.line, Line.Poke(addr, value), end)
    requires var after := Feed(cfg, s, claim);
             StoreOperands(ScopeOf(cfg, after), addr, value, after.trace) == Both(a, v, trace)
    ensures var r := ParsedLine(cfg, Feed(cfg, s, claim), poke).result;
            r == if name == "SUPERUSER" || InBlock(cfg.arch, name, a) || InMemory(cfg.arch, a)
                 then Ok(EnforcedPoke(a, v)) else Err(ParseError.CapabilityViolation)
  {
    hide Feed, ParsedLine, ClaimLine, Names, InBlock, InMemory, Written, StoreOperands;
    var s1 := Feed(cfg, s, claim);
    ClaimLineActs(cfg, s, claim, id);
    if OpenedBy(cfg.arch, s1.claims, a) {
      var other, oid :| Names(other, oid) && oid in s1.claims &&
                        (other == "SUPERUSER" || InBlock(cfg.arch, other, a));
      ClaimLineActs(cfg, s, claim, oid);
      NamesDiffer(name, other, oid);
    }
    PokeLineStores(cfg, s1, poke, addr, value, end, a, v, trace);
  }

  /** A line `peek ADDR` is accepted on the same condition, and then reads. */
  lemma {:induction false} PeekLineReads(cfg: Config, s: Sys, input: Input, addr: Term, end: seq<Token>, a: Word,
                                         trace: Trace)
    requires Written(input.line, Line.Peek(addr), end)
    requires TermMeaning(ScopeOf(cfg, s), addr, s.trace) == Val(a, trace)
    ensures var r := ParsedLine(cfg, s, input).result;
            var after := Feed(cfg, s, input);
            if InMemory(cfg.arch, a) || OpenedBy(cfg.arch, s.claims, a) then
              r == Ok(EnforcedPeek(a)) && after == s.(trace := trace + [Read(a, cfg.bus(trace, a))])
            else
              r == Err(ParseError.CapabilityViolation) && after == s.(trace := trace)
  {
    hide Parse, Written, CheckAccess, InMemory, OpenedBy, TermMeaning, Permits;
    WrittenIsParsed(cfg, s, input, Line.Peek(addr), end);
    AccessByName(cfg.arch, s.claims, a);
    LayersAgree(cfg.arch, s.claims, a);
  }

  /** Changing a bit reads the register, and stores it back with that one bit set or cleared. */
  lemma BitLineChanges(cfg: Config, s: Sys, input: Input, up: bool, addr: Term, bit: Term, end: seq<Token>,
                       a: Word, b: Word, trace: Trace)
    requires Written(input.line, ChangeBit(up, addr, bit), end)
    requires BitOperands(ScopeOf(cfg, s), addr, bit, s.trace) == Both(a, b, trace)
    ensures var r := ParsedLine(cfg, s, input).result;
            var after := Feed(cfg, s, input);
            var was := cfg.bus(trace, a);
            if InMemory(cfg.arch, a) || OpenedBy(cfg.arch, s.claims, a) then
              r.Ok? && after.core == s.core && after.claims == s.claims &&
              exists now :: after.trace == trace + [Read(a, was), Write(a, now)] &&
                             forall c: Word | c < 32 ::
                               BitAt(now, c) == if c != b % 32 then BitAt(was, c) else if up then 1 else 0
            else
              r == Err(ParseError.CapabilityViolation) && after == s.(trace := trace)
  {
    hide Parse, Written, CheckAccess, InMemory, OpenedBy, BitOperands, Permits, SetBit, ClrBit, BitAt;
    WrittenIsParsed(cfg, s, input, ChangeBit(up, addr, bit), end);
    AccessByName(cfg.arch, s.claims, a);
    LayersAgree(cfg.arch, s.claims, a);
    var w := cfg.bus(trace, a);
    var n := if up then SetBit(w, BitOf(b)) else ClrBit(w, BitOf(b));
    forall c: Word | c < 32
      ensures BitAt(n, c) == if c != b % 32 then BitAt(w, c) else if up then 1 else 0
    {
      BitsByShift(w, BitOf(b), c);
    }
    if InMemory(cfg.arch, a) || OpenedBy(cfg.arch, s.claims, a) {
      assert (trace + [Read(a, w)]) + [Write(a, n)] == trace + [Read(a, w), Write(a, n)];
      assert Feed(cfg, s, input).trace == trace + [Read(a, w), Write(a, n)];
    }
  }

  // ---- calls ----

  /**
   * A line `NAME()` runs the function of that name and yields no value: on the
   * threaded engine it makes the accesses of the function's statements with
   * calls run as calls, and natively those of the generated code's meaning.
   */
  lemma {:induction false} CallLineRuns(cfg: Config, s: Sys, h: History, input: Input, name: string, end: seq<Token>,
                                        i: nat)
    requires SysInv(cfg, s, h) && Written(input.line, Line.Call(name), end)
    requires i < |s.core.fns| && s.core.fns[i].name == name
    ensures var r := ParsedLine(cfg, s, input).result;
            r.Ok? && r.value.RunStream? && !r.value.program.yieldsValue
    ensures var fns := s.core.fns;
            var items := Inline(fns, i, fns[i].src);
            Feed(cfg, s, input)
            == s.(trace := match cfg.mode
                           case ThreadedOnly => BigStep(cfg.bus, fns, i, fns[i].src, s.trace)
                           case NativeFirst =>
                             NativeMeaning(cfg.bus, AsLoaded(cfg.arch, items), AccState(Option.None, s.trace)).trace)
  {
    hide Parse, Written, ProgramTrace, Inline, BigStep, NativeMeaning, Simulation.Meaning, AsLoaded, Admitted;
    var fns := s.core.fns;
    WrittenIsParsed(cfg, s, input, Line.Call(name), end);
    NamedFn(fns, |h.defs|, name, i, end, input.line);
    CallMeans(cfg, fns, |h.defs|, i, input, s.trace);
    InlineKeepsMeaning(cfg.bus, fns, i, fns[i].src, Vm([], s.trace));
  }

  lemma {:induction false} NamedFn(fns: seq<Fn>, n: nat, name: string, i: nat, end: seq<Token>, line: string)
    requires FnInv(fns, n) && i < |fns| && fns[i].name == name && Written(line, Line.Call(name), end)
    ensures i < n && FindFn(fns, name) == Some(i)
    ensures CallOutcome(fns, name) == Ok(RunStream(StreamProgram(fns[i].body + [HALT], false)))
  {
    hide Inline, Tokens;
    assert Functions.Compiled(fns, i);
    var found := FindFn(fns, name);
    assert found.Some?;
  }

  /** A call of a name nobody defined is an error and changes nothing. */
  lemma UnknownCallFails(cfg: Config, s: Sys, input: Input, name: string, end: seq<Token>)
    requires Written(input.line, Line.Call(name), end)
    requires forall i | 0 <= i < |s.core.fns| :: s.core.fns[i].name != name
    ensures ParsedLine(cfg, s, input).result == Err(UnknownSymbol) && Feed(cfg, s, input) == s
  {
    hide Parse, Written;
    WrittenIsParsed(cfg, s, input, Line.Call(name), end);
  }

  /** An expression yields its value and changes nothing but the traffic of its own compile-time reads. */
  lemma {:induction false} ShowLineYields(cfg: Config, s: Sys, input: Input, e: Tree, end: seq<Token>, v: Word,
                                          trace: Trace)
    requires Written(input.line, Show(e), end) && TreeMeaning(ScopeOf(cfg, s), e, s.trace) == Val(v, trace)
    ensures ParsedLine(cfg, s, input).result == Ok(RunStream(ValueProgram(v)))
    ensures Feed(cfg, s, input) == s.(trace := trace)
    ensures Program.RunProgram(cfg.arch, cfg.bus, ValueProgram(v), input.regs, input.junk, trace).0
         == Value(if cfg.arch == Arm then v else RiscV.Loaded(v))
  {
    hide Parse, Written, ProgramTrace, TreeMeaning, Program.RunProgram, ValueProgram, RiscV.Loaded;
    WrittenIsParsed(cfg, s, input, Show(e), end);
    ValueTouchesNothing(cfg, v, input, trace);
    ValueProgramRuns(cfg.arch, cfg.bus, v, input.regs, input.junk, trace);
  }

  // ---- definitions ----

  /** `let NAME = EXPR` is accepted exactly if the name fits, the expression has a value and a slot is left. */
  lemma {:induction false} LetLineBinds(cfg: Config, s: Sys, input: Input, name: string, e: Tree, end: seq<Token>)
    requires Written(input.line, Let(name, e), end)
    ensures var m := TreeMeaning(ScopeOf(cfg, s), e, s.trace);
            var after := Feed(cfg, s, input);
            var accepted := |name| <= 16 && m.Val? && (name in s.core.env || |s.core.env| < 32);
            (ParsedLine(cfg, s, input).result.Ok? <==> accepted) &&
            (accepted ==> after == s.(core := s.core.(env := s.core.env[name := m.value]), trace := m.trace)) &&
            (!accepted ==> after == s.(trace := after.trace))
  {
    hide Parse, Written, TreeMeaning;
    WrittenIsParsed(cfg, s, input, Let(name, e), end);
  }

  /**
   * `fn NAME() { ... }` is accepted exactly if the name fits in 16 characters,
   * every statement compiles, the code fits in 32 words, and one of the two slots
   * is free and none of that name is taken; it then fills the first free slot.
   */
  lemma {:induction false} DefineLineDefines(cfg: Config, s: Sys, h: History, input: Input, name: string,
                                             src: seq<Source>, end: seq<Token>)
    requires SysInv(cfg, s, h) && Written(input.line, Define(name, src), end)
    ensures var n, fns := |h.defs|, s.core.fns;
            var c := BodyMeaning(ScopeOf(cfg, s), Guard(cfg.arch, s.claims), fns, src, Body([], []), s.trace);
            var after := Feed(cfg, s, input);
            var accepted := |name| <= 16 && c.Done? && |c.body.stream| <= 32 && n < 2 &&
                            forall i | 0 <= i < n :: fns[i].name != name;
            n <= |fns| && (ParsedLine(cfg, s, input).result.Ok? <==> accepted) &&
            (accepted ==>
               n < |fns| && after.core == s.core.(fns := fns[n := Fn(name, c.body.stream, c.body.src)]) &&
               after == s.(core := after.core, trace := c.trace)) &&
            (!accepted ==> after == s.(trace := after.trace))
  {
    hide Parse, Written, BodyMeaning, Inline, Admitted, Functions.Compiled;
    WrittenIsParsed(cfg, s, input, Define(name, src), end);
    WrittenNameIsName(input.line, name, src, end);
    FindFreeIs(s.core.fns, |h.defs|);
  }

  lemma WrittenNameIsName(line: string, name: string, src: seq<Source>, end: seq<Token>)
    requires Written(line, Define(name, src), end)
    ensures name != ""
  {
    hide Tokens;
  }
}
