/**
 * The console as it runs (src/drivers/repl.rs): one compiler, one registry, one
 * audit log, one engine and one executable buffer, updated line after line.
 * Each line does to them what `Session.Feed` says.
 */
module Repl {
  import opened Wrappers
  import opened Machine
  import opened Target
  import opened Generator
  import opened Native
  import opened Program
  import opened Registry
  import opened Audit
  import opened Enforced
  import opened Grammar
  import opened Functions
  import opened Compiler
  import opened Session
  import opened Accesses

  /** A program the parser built comes back in an orderly way, on either target. */
  lemma BuiltProgramsReturn(arch: Arch, bus: Bus, fns: seq<Fn>, n: nat, p: StreamProgram, regs: Regs, junk: Leftovers,
                            trace: Trace)
    requires FnInv(fns, n) && BuiltProgram(fns, p)
    ensures |p.words| <= MAX_STREAM_WORDS
    ensures Program.RunProgram(arch, bus, p, regs, junk, trace).0 != Crash
  {
    hide Program.RunProgram, Inline, BigStep;
    if i: nat :| IsDefinedCall(fns, i, p) {
      assert i < n && Functions.Compiled(fns, i);
      var items := Inline(fns, i, fns[i].src);
      InlineKeepsMeaning(bus, fns, i, fns[i].src, Exec.Vm([], trace));
      BlocksAreFragment(items, false, false);
      RunIsNative(arch, bus, items, false, regs, junk, trace);
    } else {
      var v :| p == ValueProgram(v);
      ValueProgramRuns(arch, bus, v, regs, junk, trace);
    }
  }

  class Console {
    const compiler: Compiler
    const mem: Memory
    const reg: CapabilityRegistry
    const log: AuditLog
    const engine: Exec.Engine
    const em: Emitter
    ghost var history: History

    ghost predicate Separate()
      reads this, em, em.riscv
    {
      engine.mem == mem && em.arch == reg.arch &&
      engine.stack != compiler.stream && engine.stack != reg.bits && compiler.stream != reg.bits &&
      em.riscv.buf != engine.stack && em.riscv.buf != compiler.stream && em.riscv.buf != reg.bits
    }

    ghost predicate Valid()
      reads this, compiler, compiler.symbols, compiler.symbols.slots, reg, reg.bits, log, log.buffer, engine, em,
            em.thumb, em.riscv, mem
    {
      Separate() && compiler.Valid() && reg.Valid() && log.Valid() && engine.Valid() && em.Valid() &&
      SysInv(Cfg(), State(), history)
    }

    ghost function Cfg(): Config {
      Config(reg.arch, mem.bus, NativeFirst)
    }

    ghost function State(): Sys
      reads this, compiler, compiler.symbols, compiler.symbols.slots, reg, log, mem
      requires compiler.Valid()
    {
      Sys(compiler.Persistent(), reg.claims, log.history, mem.trace)
    }

    /** All parts but the history are in order. */
    ghost predicate Sound()
      reads this, compiler, compiler.symbols, compiler.symbols.slots, reg, reg.bits, log, log.buffer, engine, em,
            em.thumb, em.riscv
    {
      Separate() && compiler.Valid() && reg.Valid() && log.Valid() && engine.Valid() && em.Valid()
    }

    constructor (arch: Arch, bus: Bus)
      ensures Valid() && Cfg() == Config(arch, bus, NativeFirst)
      ensures State() == POWER_ON && history == NO_HISTORY
    {
      compiler := new Compiler();
      var memory := new Memory(bus);
      mem := memory;
      reg := new CapabilityRegistry(arch);
      log := new AuditLog();
      engine := new Exec.Engine(memory);
      em := new Emitter(arch);
      history := NO_HISTORY;
      new;
      PowerOnInv(Cfg());
    }

    method DoClaim(name: string, ghost input: Input)
      requires Sound()
      modifies reg`claims, reg.bits
      ensures Sound()
      ensures State() == Session.Execute(Cfg(), old(State()), ClaimCap(name), input)
    {
      hide ResolveName;
      KnownIdsSmall(name);
      var id := ResolveName(name);
      if id.Some? {
        var won := reg.Acquire(id.value);
      }
    }

    method DoDrop(name: string, ghost input: Input)
      requires Sound()
      modifies reg`claims, reg.bits
      ensures Sound()
      ensures State() == Session.Execute(Cfg(), old(State()), DropCap(name), input)
    {
      hide ResolveName;
      KnownIdsSmall(name);
      var id := ResolveName(name);
      if id.Some? {
        var free := reg.Available(id.value);
        if !free {
          reg.Release(id.value);
        }
      }
    }

    method StoreEnforced(addr: Word, value: Word, cycles: Word)
      requires Sound()
      modifies mem, log, log.buffer
      ensures Sound()
      ensures State() == Stored(Cfg(), old(State()), addr, value, cycles)
    {
      hide CheckAccess;
      assert old(log.history) + [] == old(log.history);
      var _ := EnforcedPokeU32(mem, reg, log, addr, value, cycles);
    }

    method LoadEnforced(addr: Word)
      requires Sound()
      modifies mem
      ensures Sound()
      ensures State() == if Permits(reg.arch, reg.claims, addr) then Loaded(Cfg(), old(State()), addr) else old(State())
    {
      hide Permits;
      var _ := EnforcedPeekU32(mem, reg, addr);
    }

    /** Reads the register, then stores it back through the enforced path with one bit changed. */
    method UpdateBit(addr: Word, bit: Word, up: bool, cycles: Word)
      requires Sound()
      modifies mem, log, log.buffer
      ensures Sound()
      ensures var word := mem.bus(old(mem.trace), addr);
              State() == Stored(Cfg(), Loaded(Cfg(), old(State()), addr), addr,
                                if up then SetBit(word, BitOf(bit)) else ClrBit(word, BitOf(bit)), cycles)
    {
      hide Permits, SetBit, ClrBit;
      var word := mem.PeekU32(addr);
      StoreEnforced(addr, if up then SetBit(word, BitOf(bit)) else ClrBit(word, BitOf(bit)), cycles);
    }

    method RunBuilt(p: StreamProgram, ghost line: string, ghost cycles: Word, regs: Regs, ghost n: nat)
        returns (ghost junk: Leftovers)
      requires Sound()
      requires FnInv(compiler.Fns(), n) && BuiltProgram(compiler.Fns(), p)
      modifies mem, engine, engine.stack, em.thumb, em.thumb.buf, em.riscv, em.riscv.buf
      ensures Sound()
      ensures State() == Session.Execute(Cfg(), old(State()), RunStream(p), Input(line, cycles, regs, junk))
    {
      hide FnInv, BuiltProgram, Program.RunProgram;
      BuiltProgramsReturn(reg.arch, mem.bus, compiler.Fns(), n, p, regs, NOTHING_LEFT, mem.trace);
      var r := Program.Run(p, engine, em, regs);
      junk := em.Behind();
      BuiltProgramsReturn(reg.arch, mem.bus, compiler.Fns(), n, p, regs, junk, old(mem.trace));
    }

    /** The outcomes that only touch memory and the log, or nothing at all. */
    method TouchMemory(o: Outcome, ghost line: string, cycles: Word, ghost regs: Regs, ghost junk: Leftovers)
      requires Sound() && !o.RunStream? && !o.ClaimCap? && !o.DropCap?
      modifies mem, log, log.buffer
      ensures Sound()
      ensures State() == Session.Execute(Cfg(), old(State()), o, Input(line, cycles, regs, junk))
    {
      hide Permits, SetBit, ClrBit, Stored, Loaded, Symbols.Bindings, Symbols.Table;
      match o
      case EnforcedPoke(addr, value) =>
        StoreEnforced(addr, value, cycles);
      case EnforcedPeek(addr) =>
        LoadEnforced(addr);
      case SetBitAt(addr, bit) =>
        UpdateBit(addr, bit, true, cycles);
      case ClrBitAt(addr, bit) =>
        UpdateBit(addr, bit, false, cycles);
      case _ =>
    }

    /** Carries out an outcome the parser produced; `junk` is what lay in the buffer behind the code that ran. */
    method ExecuteOutcome(o: Outcome, ghost line: string, cycles: Word, regs: Regs, ghost n: nat)
        returns (ghost junk: Leftovers)
      requires Sound()
      requires FnInv(compiler.Fns(), n) && (o.RunStream? ==> BuiltProgram(compiler.Fns(), o.program))
      modifies mem, log, log.buffer, reg`claims, reg.bits, engine, engine.stack,
               em.thumb, em.thumb.buf, em.riscv, em.riscv.buf
      ensures Sound()
      ensures State() == Session.Execute(Cfg(), old(State()), o, Input(line, cycles, regs, junk))
    {
      hide BuiltProgram, FnInv, Session.Execute, Symbols.Bindings, Symbols.Table;
      junk := NOTHING_LEFT;
      match o
      case RunStream(p) =>
        junk := RunBuilt(p, line, cycles, regs, n);
      case ClaimCap(name) =>
        DoClaim(name, Input(line, cycles, regs, NOTHING_LEFT));
      case DropCap(name) =>
        DoDrop(name, Input(line, cycles, regs, NOTHING_LEFT));
      case _ =>
        TouchMemory(o, line, cycles, regs, NOTHING_LEFT);
    }

    /** Parses a line and carries out what it asks for. */
    method ParseAndObey(line: string, cycles: Word, regs: Regs)
        returns (r: Result<Outcome, ParseError>, ghost input: Input)
      requires Valid() && line != ""
      modifies compiler, compiler.stream, compiler.symbols.slots, mem, log, log.buffer, reg`claims, reg.bits,
               engine, engine.stack, em.thumb, em.thumb.buf, em.riscv, em.riscv.buf
      ensures Sound()
      ensures input.line == line && input.cycles == cycles && input.regs == regs
      ensures State() == Session.Feed(Cfg(), old(State()), input)
      ensures r == ParsedLine(Cfg(), old(State()), input).result
    {
      hide Parse, Session.Execute, SysInv, Symbols.Bindings, Symbols.Table;
      input := Input(line, cycles, regs, NOTHING_LEFT);
      ghost var before := State();
      r := compiler.ParseLine(line, mem, reg);
      if r.Ok? {
        ghost var n := FnsStayInvariant(Cfg(), before, history, input);
        ghost var junk := ExecuteOutcome(r.value, line, cycles, regs, n);
        input := Input(line, cycles, regs, junk);
      }
    }

    /** One line, from text to effect; an error changes nothing but the traffic of compile-time reads. */
    method EvalLine(line: string, cycles: Word, regs: Regs)
        returns (r: Option<Result<Outcome, ParseError>>, ghost input: Input)
      requires Valid()
      modifies this`history, compiler, compiler.stream, compiler.symbols.slots, mem, log, log.buffer,
               reg`claims, reg.bits,
               engine, engine.stack, em.thumb, em.thumb.buf, em.riscv, em.riscv.buf
      ensures Valid()
      ensures input.line == line && input.cycles == cycles && input.regs == regs
      ensures State() == Session.Feed(Cfg(), old(State()), input)
      ensures history == Track(Cfg(), old(history), old(State()), input)
      ensures r == if line == "" then None else Some(ParsedLine(Cfg(), old(State()), input).result)
    {
      hide Parse, Session.Execute, SysInv, Symbols.Bindings, Symbols.Table;
      ghost var before, h := State(), history;
      if line == "" {
        return None, Input(line, cycles, regs, NOTHING_LEFT);
      }
      var result;
      result, input := ParseAndObey(line, cycles, regs);
      FeedKeepsInv(Cfg(), before, h, input);
      history := Track(Cfg(), h, before, input);
      return Some(result), input;
    }
  }

  /** The tables a parsed line leaves behind are in order, and what it asks for is still admitted with them. */
  lemma FnsStayInvariant(cfg: Config, s: Sys, h: History, input: Input) returns (n: nat)
    requires SysInv(cfg, s, h) && input.line != "" && ParsedLine(cfg, s, input).result.Ok?
    ensures var p := ParsedLine(cfg, s, input);
            FnInv(p.state.fns, n) && (p.result.value.RunStream? ==> BuiltProgram(p.state.fns, p.result.value.program))
  {
    hide Parse, FnInv, BuiltProgram, BuiltFor, CalledSlot, CheckAccess;
    var g := Guard(cfg.arch, s.claims);
    var p := ParsedLine(cfg, s, input);
    FeedKeepsInv(cfg, s, h, input);
    ExecuteKeepsCore(cfg, s.(core := p.state, trace := p.trace), p.result, input);
    ParseAdmitted(cfg.bus, g, s.core, input.line, s.trace);
    ParseChangesLittle(cfg.bus, g, s.core, input.line, s.trace);
    n := |Track(cfg, h, s, input).defs|;
    if p.result.value.RunStream? {
      BuiltForIsBuilt(s.core.fns, CalledSlot(s.core.fns, input.line), p.result.value.program);
    }
  }

  lemma KnownIdsSmall(name: string)
    ensures ResolveName(name).Some? ==> ResolveName(name).value < MAX_RESOURCES
  {
  }
}
