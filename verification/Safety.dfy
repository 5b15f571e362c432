/**
 * When a function body does natively what it means, whatever the devices
 * answer, and where its native stores go when it does not.
 */
module Safety {
  import opened Wrappers
  import opened Machine
  import opened Exec
  import opened Native
  import opened Target
  import opened Simulation
  import opened RiscVBackend
  import opened Program
  import RiscV

  // ---- on ARM ----

  /** Every poke is preceded by nothing but pokes to its own address. */
  predicate Safe(items: seq<Item>) {
    forall j | 0 <= j < |items| && items[j].Poke? ::
      forall i | 0 <= i < j :: items[i].Poke? && items[i].addr == items[j].addr
  }

  predicate AllPokesTo(items: seq<Item>, addr: Word) {
    forall j | 0 <= j < |items| && items[j].Poke? ::
      items[j].addr == addr && forall i | 0 <= i < j :: items[i].Poke?
  }

  /** The program's pokes hit on every bus. */
  ghost predicate AlwaysHits(items: seq<Item>, trace: Trace) {
    forall bus: Bus :: PokesHit(bus, items, AccState(None, trace))
  }

  predicate NoPokes(items: seq<Item>) {
    forall i <- items :: !i.Poke?
  }

  lemma {:induction false} SafeHits(bus: Bus, items: seq<Item>, s: AccState)
    requires NoPokes(items) || (s.acc.Some? && AllPokesTo(items, s.acc.value))
    ensures PokesHit(bus, items, s)
    decreases |items|
  {
    if items != [] {
      var rest := items[1..];
      if items[0].Poke? {
        assert s.acc.Some? && items[0].addr == s.acc.value;
        assert AllPokesTo(rest, s.acc.value) by {
          assert forall j | 0 <= j < |rest| :: rest[j] == items[j + 1];
        }
      } else {
        assert NoPokes(rest) by {
          assert forall j | 0 <= j < |rest| :: rest[j] == items[j + 1];
        }
      }
      SafeHits(bus, rest, NativeItem(bus, items[0], s));
    }
  }

  function ConstantBus(c: Word): Bus {
    (trace, addr) => c
  }

  /**
   * On a bus that always answers `c`, a hitting poke is addressed to `c` after a
   * peek, else to the first accumulator.
   */
  lemma {:induction false} HitsOnConstantBus(items: seq<Item>, s: AccState, c: Word, j: nat)
    requires Blocks(items) && s.acc.Some? && j < |items| && items[j].Poke?
    requires PokesHit(ConstantBus(c), items, s)
    ensures items[j].addr == if forall i | 0 <= i < j :: items[i].Poke? then s.acc.value else c
    decreases |items|
  {
    if j > 0 {
      var next := NativeItem(ConstantBus(c), items[0], s);
      HitsOnConstantBus(items[1..], next, c, j - 1);
      assert forall i | 0 <= i < j - 1 :: items[1..][i] == items[i + 1];
      if items[0].Poke? {
        assert next.acc == s.acc;
        assert (forall i | 0 <= i < j :: items[i].Poke?) <==> forall i | 0 <= i < j - 1 :: items[1..][i].Poke?;
      } else {
        assert next.acc == Some(c);
      }
    }
  }

  lemma HitsAlwaysIsSafe(items: seq<Item>, trace: Trace, j: nat, i: nat)
    requires Blocks(items) && i < j < |items| && items[j].Poke?
    requires AlwaysHits(items, trace)
    ensures items[i].Poke? && items[i].addr == items[j].addr
  {
    var c := !items[j].addr;
    Complement(items[j].addr);
    var s := AccState(None, trace);
    assert PokesHit(ConstantBus(c), items, s);
    var next := NativeItem(ConstantBus(c), items[0], s);
    var rest := items[1..];
    HitsOnConstantBus(rest, next, c, j - 1);
    assert forall k | 0 <= k < j - 1 :: rest[k] == items[k + 1];
    assert items[0].Poke? && forall k | 0 <= k < j - 1 :: rest[k].Poke?;
    if i > 0 {
      HitsOnConstantBus(rest, next, c, i - 1);
    }
  }

  lemma Complement(w: Word)
    ensures !w != w
  {
  }

  lemma HitsAlwaysMakesSafe(items: seq<Item>, trace: Trace)
    requires Blocks(items)
    requires AlwaysHits(items, trace)
    ensures Safe(items)
  {
    forall j | 0 <= j < |items| && items[j].Poke?
      ensures forall i | 0 <= i < j :: items[i].Poke? && items[i].addr == items[j].addr
    {
      forall i | 0 <= i < j
        ensures items[i].Poke? && items[i].addr == items[j].addr
      {
        HitsAlwaysIsSafe(items, trace, j, i);
      }
    }
  }

  lemma {:induction false} SafeAlwaysHits(bus: Bus, items: seq<Item>, trace: Trace)
    requires Safe(items)
    ensures PokesHit(bus, items, AccState(None, trace))
  {
    if items != [] {
      var rest := items[1..];
      assert forall j | 0 <= j < |rest| :: rest[j] == items[j + 1];
      assert items[0].Poke? ==> AllPokesTo(rest, items[0].addr);
      assert !items[0].Poke? ==> NoPokes(rest);
      SafeHits(bus, rest, NativeItem(bus, items[0], AccState(None, trace)));
    }
  }

  /**
   * A function body does natively what it means, for every device behaviour,
   * exactly when its pokes all come first and all go to one address.
   */
  lemma SafeIff(items: seq<Item>, trace: Trace)
    requires Blocks(items)
    ensures Safe(items) <==> AlwaysHits(items, trace)
  {
    if Safe(items) {
      forall bus: Bus
        ensures PokesHit(bus, items, AccState(None, trace))
      {
        SafeAlwaysHits(bus, items, trace);
      }
    } else if AlwaysHits(items, trace) {
      HitsAlwaysMakesSafe(items, trace);
    }
  }

  /** `fn f() { peek p; poke a v; }`: the store goes where the value read points, not to `a`. */
  lemma PokeAfterPeekGoesAstray(bus: Bus, p: Word, a: Word, v: Word, regs: Regs, junk: Leftovers, trace: Trace)
    ensures var items := [Peek(p), Poke(a, v)];
            var read := bus(trace, p);
            RunProgram(Arm, bus, CallProgram(items), regs, junk, trace)
              == (NoValue, trace + [Read(p, read), Write(read, v)]) &&
            Threaded(bus, CallProgram(items).words, Vm([], trace))
              == Halted(Vm([read], trace + [Read(p, read), Write(a, v)]))
  {
    hide Threaded, RunProgram, StrictThreaded;
    var items := [Peek(p), Poke(a, v)];
    var read := bus(trace, p);
    TwoItems(bus, Peek(p), Poke(a, v), trace);
    BlocksAreFragment(items, false, false);
    RunIsNative(Arm, bus, items, false, regs, junk, trace);
    ThreadedMeaning(bus, items, [HALT], trace);
    assert [] + [read] == [read];
    assert (trace + [Read(p, read)]) + [Write(read, v)] == trace + [Read(p, read), Write(read, v)];
    assert (trace + [Read(p, read)]) + [Write(a, v)] == trace + [Read(p, read), Write(a, v)];
  }

  lemma TwoItems(bus: Bus, i: Item, j: Item, trace: Trace)
    ensures |Words([i, j])| <= 10
    ensures Meaning(bus, [i, j], Vm([], trace)) == ItemMeaning(bus, j, ItemMeaning(bus, i, Vm([], trace)))
    ensures NativeMeaning(bus, [i, j], AccState(None, trace))
         == NativeItem(bus, j, NativeItem(bus, i, AccState(None, trace)))
  {
    assert [i, j][1..] == [j] && [j][1..] == [];
    assert Words([j]) == ItemWords(j) + Words([]);
    assert Words([i, j]) == ItemWords(i) + Words([j]);
    var vm, s := ItemMeaning(bus, i, Vm([], trace)), NativeItem(bus, i, AccState(None, trace));
    assert Meaning(bus, [j], vm) == Meaning(bus, [], ItemMeaning(bus, j, vm));
    assert NativeMeaning(bus, [j], s) == NativeMeaning(bus, [], NativeItem(bus, j, s));
  }

  // ---- on RISC-V ----

  predicate ItemFits(i: Item) {
    match i
    case Poke(addr, value) => RiscV.FitsSigned12(addr) && RiscV.FitsSigned12(value)
    case Peek(addr) => RiscV.FitsSigned12(addr)
    case Lit(value) => RiscV.FitsSigned12(value)
    case Compute(_, operand) => RiscV.FitsSigned12(operand)
  }

  predicate AllFit(items: seq<Item>) {
    forall i | 0 <= i < |items| :: ItemFits(items[i])
  }

  /** The code's accesses are the meaning's. */
  predicate RightOn(arch: Arch, bus: Bus, items: seq<Item>, trace: Trace) {
    NativeMeaning(bus, AsLoaded(arch, items), AccState(None, trace)).trace
    == Meaning(bus, items, Vm([], trace)).trace
  }

  lemma {:induction false} FittingStays(items: seq<Item>)
    requires AllFit(items)
    ensures ReloadItems(items) == items
  {
    if items != [] {
      hide RiscV.Loaded, RiscV.FitsSigned12;
      FittingItemStays(items[0]);
      FittingStays(items[1..]);
    }
  }

  lemma FittingItemStays(i: Item)
    requires ItemFits(i)
    ensures ReloadItem(i) == i
  {
    hide RiscV.Loaded, RiscV.FitsSigned12;
    match i
    case Poke(addr, value) =>
      RiscV.LoadedIff(addr);
      RiscV.LoadedIff(value);
    case Peek(addr) => RiscV.LoadedIff(addr);
    case Lit(value) => RiscV.LoadedIff(value);
    case Compute(_, operand) => RiscV.LoadedIff(operand);
  }

  /** The immediates that show up in some access: all but the address of a poke that is not the first item. */
  predicate ExposedFit(items: seq<Item>, first: bool)
    requires Blocks(items)
  {
    forall i | 0 <= i < |items| ::
      RiscV.FitsSigned12(if items[i].Poke? then items[i].value else items[i].addr) &&
      (first && i == 0 ==> RiscV.FitsSigned12(items[i].addr))
  }

  lemma {:induction false} RightExposes(bus: Bus, items: seq<Item>, vm: Vm, s: AccState)
    requires Blocks(items) && vm.trace == s.trace
    requires NativeMeaning(bus, ReloadItems(items), s).trace == Meaning(bus, items, vm).trace
    ensures ExposedFit(items, s.acc.None?)
    ensures NativeMeaning(bus, ReloadItems(items), s) == NativeMeaning(bus, items, s)
    decreases |items|
  {
    if items != [] {
      hide RiscV.Loaded, RiscV.FitsSigned12;
      var i, again := items[0], ReloadItems(items);
      assert again[0] == ReloadItem(i) && again[1..] == ReloadItems(items[1..]);
      var vm1, s1 := ItemMeaning(bus, i, vm), NativeItem(bus, again[0], s);
      TracesGrow(bus, items[1..], vm1, s1);
      TracesGrow(bus, again[1..], vm1, s1);
      assert vm1.trace[|vm.trace|] == s1.trace[|vm.trace|];
      RiscV.LoadedIff(i.addr);
      if i.Poke? {
        RiscV.LoadedIff(i.value);
      }
      assert s1 == NativeItem(bus, i, s);
      RightExposes(bus, items[1..], vm1, s1);
      assert forall k | 0 < k < |items| :: items[k] == items[1..][k - 1];
    }
  }

  /** Only immediates that show up in an access matter. */
  lemma {:induction false} ExposedReloads(bus: Bus, items: seq<Item>, s: AccState)
    requires Blocks(items) && ExposedFit(items, s.acc.None?)
    ensures NativeMeaning(bus, ReloadItems(items), s) == NativeMeaning(bus, items, s)
    decreases |items|
  {
    if items != [] {
      hide RiscV.Loaded, RiscV.FitsSigned12;
      var i, again := items[0], ReloadItems(items);
      assert again[0] == ReloadItem(i) && again[1..] == ReloadItems(items[1..]);
      RiscV.LoadedIff(i.addr);
      if i.Poke? {
        RiscV.LoadedIff(i.value);
      }
      assert NativeItem(bus, again[0], s) == NativeItem(bus, i, s);
      assert forall k | 0 <= k < |items[1..]| :: items[1..][k] == items[k + 1];
      ExposedReloads(bus, items[1..], NativeItem(bus, i, s));
    }
  }

  /**
   * On RISC-V a body makes, on one given bus, the accesses it means exactly when
   * the immediates that show up fit and its pokes hit.
   */
  lemma {:induction false} RiscVRightOnIff(bus: Bus, items: seq<Item>, trace: Trace)
    requires Blocks(items)
    ensures RightOn(RiscV32, bus, items, trace)
            <==> ExposedFit(items, true) && PokesHit(bus, items, AccState(None, trace))
  {
    hide RiscV.FitsSigned12, ReloadItems, Meaning, NativeMeaning;
    var vm, none := Vm([], trace), AccState(None, trace);
    BlocksAreFragment(items, false, false);
    EnginesAgreeIff(bus, items, trace);
    if ExposedFit(items, true) {
      ExposedReloads(bus, items, none);
    } else if RightOn(RiscV32, bus, items, trace) {
      RightExposes(bus, items, vm, none);
    }
  }

  /** And so does running it, against the threaded engine. */
  lemma {:induction false} RiscVRunAgreesIff(bus: Bus, items: seq<Item>, regs: Regs, junk: Leftovers, trace: Trace)
    requires Blocks(items) && |Words(items)| < MAX_STREAM_WORDS
    ensures var threaded := Threaded(bus, CallProgram(items).words, Vm([], trace));
            threaded.Halted? &&
            (RunProgram(RiscV32, bus, CallProgram(items), regs, junk, trace).1 == threaded.vm.trace
             <==> ExposedFit(items, true) && PokesHit(bus, items, AccState(None, trace)))
  {
    hide RunProgram, Threaded, ReloadItems, Meaning, NativeMeaning, RiscV.FitsSigned12;
    BlocksAreFragment(items, false, false);
    ThreadedMeaning(bus, items, [HALT], trace);
    RunIsNative(RiscV32, bus, items, false, regs, junk, trace);
    RiscVRightOnIff(bus, items, trace);
  }

  lemma RightEverywhereFits(items: seq<Item>, trace: Trace)
    requires Blocks(items)
    requires forall bus: Bus :: RightOn(RiscV32, bus, items, trace)
    ensures Safe(items) && AllFit(items)
  {
    hide RiscV.Loaded, RiscV.FitsSigned12, ReloadItems;
    var vm, none := Vm([], trace), AccState(None, trace);
    BlocksAreFragment(items, false, false);
    forall bus: Bus
      ensures PokesHit(bus, items, none) && ExposedFit(items, true)
    {
      assert RightOn(RiscV32, bus, items, trace);
      RightExposes(bus, items, vm, none);
      EnginesAgreeIff(bus, items, trace);
    }
    SafeIff(items, trace);
    assert RightOn(RiscV32, ConstantBus(0), items, trace);
    RightExposes(ConstantBus(0), items, vm, none);
  }

  /**
   * On RISC-V a function makes the accesses its source asks for, whatever the
   * devices answer, exactly when all its addresses and values fit a signed
   * 12-bit field and all its pokes come first and go to one address.
   */
  lemma BodyRightIff(items: seq<Item>, trace: Trace)
    requires Blocks(items)
    ensures (forall bus: Bus :: RightOn(RiscV32, bus, items, trace)) <==> Safe(items) && AllFit(items)
  {
    hide ReloadItems, NativeMeaning, Meaning;
    if Safe(items) && AllFit(items) {
      FittingStays(items);
      BlocksAreFragment(items, false, false);
      forall bus: Bus
        ensures RightOn(RiscV32, bus, items, trace)
      {
        SafeAlwaysHits(bus, items, trace);
        EnginesAgreeIff(bus, items, trace);
      }
    } else if forall bus: Bus :: RightOn(RiscV32, bus, items, trace) {
      RightEverywhereFits(items, trace);
    }
  }

  // ---- on either target ----

  /** Pokes first and to one address; on RISC-V nothing but signed 12-bit immediates besides. */
  predicate Right(arch: Arch, items: seq<Item>) {
    Safe(items) && (arch == RiscV32 ==> AllFit(items))
  }

  /** The generated code of a body makes the accesses the body means, on every bus, exactly when it is right. */
  lemma RightIff(arch: Arch, items: seq<Item>, trace: Trace)
    requires Blocks(items)
    ensures (forall bus: Bus :: RightOn(arch, bus, items, trace)) <==> Right(arch, items)
  {
    hide NativeMeaning, Meaning, Safe, AllFit;
    match arch
    case RiscV32 => BodyRightIff(items, trace);
    case Arm =>
      BlocksAreFragment(items, false, false);
      forall bus: Bus
        ensures RightOn(Arm, bus, items, trace) <==> PokesHit(bus, items, AccState(None, trace))
      {
        EnginesAgreeIff(bus, items, trace);
      }
      SafeIff(items, trace);
  }

  // ---- where native stores go ----

  /** No poke comes after a peek. */
  predicate PokesFirst(items: seq<Item>) {
    forall i, j | 0 <= i < j < |items| && items[j].Poke? :: items[i].Poke?
  }

  /** Once the accumulator is taken, pokes that come before all peeks are stored where it points. */
  lemma {:induction false} EarlyPokesFollow(bus: Bus, items: seq<Item>, s: AccState, n: nat)
    requires Blocks(items) && PokesFirst(items) && s.acc.Some?
    requires var after := NativeMeaning(bus, items, s).trace; |s.trace| <= n < |after| && after[n].Write?
    ensures NativeMeaning(bus, items, s).trace[n].addr == s.acc.value && items[0].Poke?
    decreases |items|
  {
    var next := NativeItem(bus, items[0], s);
    TracesGrow(bus, items[1..], Vm([], next.trace), next);
    assert forall i | 0 <= i < |items[1..]| :: items[1..][i] == items[i + 1];
    if n == |s.trace| {
      assert NativeMeaning(bus, items, s).trace[n] == next.trace[n];
    } else {
      EarlyPokesFollow(bus, items[1..], next, n);
    }
  }

  /** With all pokes first, every store of the code goes where the first one does. */
  lemma {:induction false} EarlyPokesStay(bus: Bus, items: seq<Item>, trace: Trace, n: nat)
    requires Blocks(items) && PokesFirst(items)
    requires var after := NativeMeaning(bus, items, AccState(None, trace)).trace;
             |trace| <= n < |after| && after[n].Write?
    ensures items[0].Poke? && NativeMeaning(bus, items, AccState(None, trace)).trace[n].addr == items[0].addr
  {
    var next := NativeItem(bus, items[0], AccState(None, trace));
    TracesGrow(bus, items[1..], Vm([], next.trace), next);
    assert forall i | 0 <= i < |items[1..]| :: items[1..][i] == items[i + 1];
    if n == |trace| {
      assert NativeMeaning(bus, items, AccState(None, trace)).trace[n] == next.trace[n];
    } else {
      EarlyPokesFollow(bus, items[1..], next, n);
    }
  }

  /** A poke that a peek precedes is stored, on a bus that always answers `c`, to `c`. */
  lemma {:induction false} LatePokeStrays(items: seq<Item>, s: AccState, c: Word, j: nat)
    requires Blocks(items) && j < |items| && items[j].Poke?
    requires s.acc == Some(c) || exists i | 0 <= i < j :: items[i].Peek?
    ensures var after := NativeMeaning(ConstantBus(c), items, s).trace;
            |after| > |s.trace| + j && after[|s.trace| + j] == Write(c, items[j].value)
    decreases |items|
  {
    var next := NativeItem(ConstantBus(c), items[0], s);
    TracesGrow(ConstantBus(c), items[1..], Vm([], next.trace), next);
    if j == 0 {
      assert NativeMeaning(ConstantBus(c), items, s).trace[|s.trace|] == next.trace[|s.trace|];
    } else {
      if items[0].Poke? && s.acc != Some(c) {
        var i :| 0 <= i < j && items[i].Peek?;
        assert items[1..][i - 1].Peek?;
      }
      LatePokeStrays(items[1..], next, c, j - 1);
    }
  }

  /** The first store of a body whose pokes come first goes to its own address, as loaded. */
  lemma {:induction false} FirstPokeStores(bus: Bus, items: seq<Item>, trace: Trace)
    requires items != [] && items[0].Poke?
    ensures var after := NativeMeaning(bus, items, AccState(None, trace)).trace;
            |after| > |trace| && after[|trace|] == Write(items[0].addr, items[0].value)
  {
    var next := NativeItem(bus, items[0], AccState(None, trace));
    TracesGrow(bus, items[1..], Vm([], next.trace), next);
    assert NativeMeaning(bus, items, AccState(None, trace)).trace[|trace|] == next.trace[|trace|];
  }

  /** Loading changes immediates only, not what kind of item stands where. */
  lemma {:induction false} LoadingKeepsShape(arch: Arch, items: seq<Item>)
    ensures var loaded := AsLoaded(arch, items);
            |loaded| == |items| &&
            (forall i | 0 <= i < |items| :: loaded[i].Poke? == items[i].Poke? && loaded[i].Peek? == items[i].Peek?)
    ensures items != [] && (items[0].Poke? || items[0].Peek?) ==>
              AsLoaded(arch, items)[0].addr == if arch == Arm then items[0].addr else RiscV.Loaded(items[0].addr)
  {
    hide RiscV.Loaded;
    if arch == RiscV32 && items != [] {
      LoadingKeepsShape(arch, items[1..]);
    }
  }
}
