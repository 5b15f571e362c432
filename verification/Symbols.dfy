/**
 * The symbol table (src/compiler/parser.rs): 32 slots, FNV-1a hashing, linear
 * probing, no deletion.  It is a finite map of at most 32 names.
 */
module Symbols {
  import opened Wrappers
  import opened Machine

  const SYMBOL_SLOTS := 32

  datatype Slot = Free | Used(name: string, value: Word)

  type Env = map<string, Word>

  function Fnv(name: string): Word {
    if name == [] then 0x811C_9DC5
    else MulW(XorChar(Fnv(name[..|name| - 1]), name[|name| - 1]), 0x0100_0193)
  }

  function XorChar(h: Word, c: char): Word {
    h ^ (c as int as Word)
  }

  function Hash(name: string): (h: nat)
    ensures h < SYMBOL_SLOTS
  {
    (Fnv(name) as int) % SYMBOL_SLOTS
  }

  /** The slot reached from `start` after `step` probes. */
  function Probe(start: nat, step: nat): (i: nat)
    ensures i < SYMBOL_SLOTS
  {
    (start + step) % SYMBOL_SLOTS
  }

  /** How many probes lead from `start` to slot `i`. */
  function Distance(start: nat, i: nat): (d: nat)
    requires start < SYMBOL_SLOTS && i < SYMBOL_SLOTS
    ensures d < SYMBOL_SLOTS && Probe(start, d) == i
    ensures forall d' | 0 <= d' < SYMBOL_SLOTS && Probe(start, d') == i :: d' == d
  {
    if i >= start then i - start else i - start + SYMBOL_SLOTS
  }

  predicate Unique(slots: seq<Slot>) {
    forall i, j | 0 <= i < j < |slots| && slots[i].Used? && slots[j].Used? :: slots[i].name != slots[j].name
  }

  /** No gap between where a name hashes to and where it is. */
  predicate Reachable(slots: seq<Slot>)
    requires |slots| == SYMBOL_SLOTS
  {
    forall i, step | 0 <= i < SYMBOL_SLOTS && slots[i].Used? && 0 <= step < Distance(Hash(slots[i].name), i) ::
      slots[Probe(Hash(slots[i].name), step)].Used?
  }

  predicate Table(slots: seq<Slot>) {
    |slots| == SYMBOL_SLOTS && Unique(slots) && Reachable(slots)
  }

  /** The bindings held in the slots. */
  function Bindings(slots: seq<Slot>): Env {
    if slots == [] then map[]
    else
      var last := slots[|slots| - 1];
      var front := Bindings(slots[..|slots| - 1]);
      if last.Used? then front[last.name := last.value] else front
  }

  lemma {:induction false} BindingsHave(slots: seq<Slot>, i: nat)
    requires Unique(slots) && i < |slots| && slots[i].Used?
    ensures slots[i].name in Bindings(slots) && Bindings(slots)[slots[i].name] == slots[i].value
  {
    if i < |slots| - 1 {
      BindingsHave(slots[..|slots| - 1], i);
    }
  }

  lemma {:induction false} BindingsOnly(slots: seq<Slot>, name: string) returns (i: nat)
    requires name in Bindings(slots)
    ensures i < |slots| && slots[i].Used? && slots[i].name == name
  {
    var last := slots[|slots| - 1];
    if last.Used? && last.name == name {
      i := |slots| - 1;
    } else {
      i := BindingsOnly(slots[..|slots| - 1], name);
    }
  }

  lemma {:induction false} BindingsCount(slots: seq<Slot>)
    requires Unique(slots)
    ensures |Bindings(slots)| <= |slots|
    ensures |Bindings(slots)| == |slots| <==> forall i | 0 <= i < |slots| :: slots[i].Used?
  {
    if slots != [] {
      var front, last := slots[..|slots| - 1], slots[|slots| - 1];
      BindingsCount(front);
      assert forall i | 0 <= i < |front| :: slots[i] == front[i];
      if last.Used? && last.name in Bindings(front) {
        var i := BindingsOnly(front, last.name);
        assert false;
      }
    }
  }

  lemma {:induction false} BindingsUpdate(slots: seq<Slot>, i: nat, name: string, value: Word)
    requires i < |slots| && Unique(slots) && Unique(slots[i := Used(name, value)])
    requires slots[i].Free? || slots[i].name == name
    ensures Bindings(slots[i := Used(name, value)]) == Bindings(slots)[name := value]
  {
    var after := slots[i := Used(name, value)];
    var last := |slots| - 1;
    if i == last {
      assert after[..last] == slots[..last];
    } else {
      assert after[..last] == slots[..last][i := Used(name, value)];
      BindingsUpdate(slots[..last], i, name, value);
      assert after[i] == Used(name, value) && after[last] == slots[last];
    }
  }

  /** Every slot from the hash of `name` to `step` probes on is used by some other name. */
  predicate Passed(slots: seq<Slot>, name: string, step: nat)
    requires |slots| == SYMBOL_SLOTS
  {
    forall t | 0 <= t < step :: slots[Probe(Hash(name), t)].Used? && slots[Probe(Hash(name), t)].name != name
  }

  /** A probe sequence that met no match and ended on a free slot, or went all the way round, missed nothing. */
  lemma {:induction false} ProbeMissed(slots: seq<Slot>, name: string, step: nat)
    requires Table(slots) && step <= SYMBOL_SLOTS && Passed(slots, name, step)
    requires step < SYMBOL_SLOTS ==> slots[Probe(Hash(name), step)].Free?
    ensures name !in Bindings(slots)
  {
    if name in Bindings(slots) {
      var i := BindingsOnly(slots, name);
      var d := Distance(Hash(name), i);
      assert false;
    }
  }

  lemma StoreKeepsTable(slots: seq<Slot>, name: string, value: Word, step: nat)
    requires Table(slots) && step < SYMBOL_SLOTS && Passed(slots, name, step)
    requires var s := slots[Probe(Hash(name), step)]; s.Free? || s.name == name
    ensures var i := Probe(Hash(name), step);
            Table(slots[i := Used(name, value)]) &&
            Bindings(slots[i := Used(name, value)]) == Bindings(slots)[name := value]
  {
    var i := Probe(Hash(name), step);
    var after := slots[i := Used(name, value)];
    if slots[i].Free? {
      ProbeMissed(slots, name, step);
      forall j | 0 <= j < |slots| && slots[j].Used?
        ensures slots[j].name != name
      {
        BindingsHave(slots, j);
      }
    }
    assert Unique(after);
    assert Distance(Hash(name), i) == step;
    forall k, t | 0 <= k < SYMBOL_SLOTS && after[k].Used? && 0 <= t < Distance(Hash(after[k].name), k)
      ensures after[Probe(Hash(after[k].name), t)].Used?
    {
      if k != i {
        assert slots[Probe(Hash(slots[k].name), t)].Used?;
      }
    }
    BindingsUpdate(slots, i, name, value);
  }

  class SymbolTable {
    const slots: array<Slot>

    ghost predicate Valid()
      reads this, slots
    {
      Table(slots[..])
    }

    ghost function Contents(): Env
      reads this, slots
    {
      Bindings(slots[..])
    }

    constructor ()
      ensures Valid() && fresh(slots) && Contents() == map[]
    {
      slots := new Slot[SYMBOL_SLOTS](_ => Free);
      new;
      EmptyBindings(slots[..]);
    }

    static method ComputeHash(name: string) returns (h: nat)
      ensures h == Hash(name)
    {
      var w: Word := 0x811C_9DC5;
      for i := 0 to |name|
        invariant w == Fnv(name[..i])
      {
        assert name[..i + 1][..i] == name[..i];
        w := MulW(XorChar(w, name[i]), 0x0100_0193);
      }
      assert name[..|name|] == name;
      h := (w as int) % SYMBOL_SLOTS;
    }

    method LookupSymbol(name: string) returns (r: Option<Word>)
      requires Valid()
      ensures r == if name in Contents() then Some(Contents()[name]) else None
    {
      var start := ComputeHash(name);
      for step := 0 to SYMBOL_SLOTS
        invariant Passed(slots[..], name, step)
      {
        var i := (start + step) % SYMBOL_SLOTS;
        var s := slots[i];
        assert slots[..][Probe(Hash(name), step)] == s;
        if s.Free? {
          ProbeMissed(slots[..], name, step);
          return None;
        }
        if s.name == name {
          BindingsHave(slots[..], i);
          return Some(s.value);
        }
      }
      ProbeMissed(slots[..], name, SYMBOL_SLOTS);
      return None;
    }

    /** False is the table-full error; it means that 32 other names are bound. */
    method InsertSymbol(name: string, value: Word) returns (ok: bool)
      requires Valid()
      modifies slots
      ensures Valid()
      ensures ok <==> name in old(Contents()) || |old(Contents())| < 32
      ensures Contents() == if ok then old(Contents())[name := value] else old(Contents())
    {
      hide Bindings, Unique, Reachable;
      var start := ComputeHash(name);
      for step := 0 to SYMBOL_SLOTS
        invariant Valid() && slots[..] == old(slots[..])
        invariant Passed(slots[..], name, step)
      {
        var i := (start + step) % SYMBOL_SLOTS;
        var s := slots[i];
        assert slots[..][Probe(Hash(name), step)] == s;
        if s.Free? || s.name == name {
          StoreAllowed(slots[..], name, i);
          StoreKeepsTable(slots[..], name, value, step);
          slots[i] := Used(name, value);
          assert slots[..] == old(slots[..])[i := Used(name, value)];
          return true;
        }
      }
      ProbeMissed(slots[..], name, SYMBOL_SLOTS);
      FullTable(slots[..], name);
      return false;
    }
  }

  lemma {:induction false} StoreAllowed(slots: seq<Slot>, name: string, i: nat)
    requires Table(slots) && i < |slots|
    requires slots[i].Free? || slots[i].name == name
    ensures name in Bindings(slots) || |Bindings(slots)| < SYMBOL_SLOTS
  {
    BindingsCount(slots);
    if slots[i].Used? {
      BindingsHave(slots, i);
    }
  }

  lemma {:induction false} FullTable(slots: seq<Slot>, name: string)
    requires Table(slots) && Passed(slots, name, SYMBOL_SLOTS)
    ensures |Bindings(slots)| == SYMBOL_SLOTS
  {
    forall i | 0 <= i < |slots|
      ensures slots[i].Used?
    {
      var d := Distance(Hash(name), i);
      assert slots[Probe(Hash(name), d)].Used?;
    }
    BindingsCount(slots);
  }

  lemma {:induction false} EmptyBindings(slots: seq<Slot>)
    requires forall i | 0 <= i < |slots| :: slots[i].Free?
    ensures Bindings(slots) == map[]
  {
    if slots != [] {
      EmptyBindings(slots[..|slots| - 1]);
    }
  }
}
