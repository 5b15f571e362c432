/**
 * Linear capability tokens (src/capabilities/tokens.rs) over the registry, with
 * claims and drops of many holders interleaved one atomic step at a time.
 */
module Tokens {
  import opened Wrappers
  import opened Machine
  import opened Registry

  /**
   * One atomic step on a resource below 256.  `Claim` and `DropCap` move a
   * token; `ReplClaim` and `ReplDrop` are the console commands, which set and
   * clear the bit without one, for the resources the console has names for.
   */
  datatype Step =
    | Claim(id: Word)
    | DropCap(id: Word)
    | ReplClaim(id: Word)
    | ReplDrop(id: Word)

  /** The bitfield and the live tokens, by resource number. */
  datatype State = State(bits: seq<Word>, tokens: multiset<nat>)

  function Number(id: Word): nat {
    id as nat
  }

  lemma NumberInjective(a: Word, b: Word)
    requires a < MAX_RESOURCES && b < MAX_RESOURCES && Number(a) == Number(b)
    ensures a == b
  {
  }

  const INITIAL := State([0, 0, 0, 0, 0, 0, 0, 0], multiset{})

  predicate OnConsole(id: Word) {
    id <= 6 || id == SUPERUSER_ID
  }

  lemma OnConsoleIff(id: Word)
    ensures OnConsole(id) <==> exists name :: ResolveName(name) == Some(id)
  {
    if OnConsole(id) {
      var name := if id == 0 then "GPIOA" else if id == 1 then "GPIOB" else if id == 2 then "UART0"
                  else if id == 3 then "SPI0" else if id == 4 then "I2C0" else if id == 5 then "TIMER0"
                  else if id == 6 then "DMA0" else "SUPERUSER";
      assert ResolveName(name) == Some(id);
    }
  }

  predicate Enabled(s: State, step: Step) {
    step.id < MAX_RESOURCES &&
    (step.DropCap? ==> Number(step.id) in s.tokens) &&
    (step.ReplClaim? || step.ReplDrop? ==> OnConsole(step.id))
  }

  function Next(s: State, step: Step): (s': State)
    requires |s.bits| == WORDS && Enabled(s, step)
    ensures |s'.bits| == WORDS
  {
    match step
    case Claim(id) =>
      State(AcquireBits(s.bits, id), if HasBit(s.bits, id) then s.tokens else s.tokens + multiset{Number(id)})
    case DropCap(id) => State(ReleaseBits(s.bits, id), s.tokens - multiset{Number(id)})
    case ReplClaim(id) => s.(bits := AcquireBits(s.bits, id))
    case ReplDrop(id) => if HasBit(s.bits, id) then s.(bits := ReleaseBits(s.bits, id)) else s
  }

  predicate IsRun(s: State, steps: seq<Step>)
    requires |s.bits| == WORDS
    decreases |steps|
  {
    steps == [] || (Enabled(s, steps[0]) && IsRun(Next(s, steps[0]), steps[1..]))
  }

  function Run(s: State, steps: seq<Step>): (s': State)
    requires |s.bits| == WORDS && IsRun(s, steps)
    ensures |s'.bits| == WORDS
    decreases |steps|
  {
    if steps == [] then s else Run(Next(s, steps[0]), steps[1..])
  }

  // ---- the bitfield is a set ----

  function NextClaims(claims: Claims, step: Step): Claims {
    match step
    case Claim(id) => claims + {id}
    case ReplClaim(id) => claims + {id}
    case DropCap(id) => claims - {id}
    case ReplDrop(id) => claims - {id}
  }

  function RunClaims(claims: Claims, steps: seq<Step>): Claims
    decreases |steps|
  {
    if steps == [] then claims else RunClaims(NextClaims(claims, steps[0]), steps[1..])
  }

  lemma StepRepresents(s: State, claims: Claims, step: Step)
    requires Represents(s.bits, claims) && Enabled(s, step)
    ensures Represents(Next(s, step).bits, NextClaims(claims, step))
  {
    forall other: Word | other < MAX_RESOURCES
      ensures HasBit(Next(s, step).bits, other) <==> other in NextClaims(claims, step)
    {
      hide HasBit, AcquireBits, ReleaseBits;
      StepFrame(s.bits, step.id, other);
    }
  }

  /** After any interleaving the bitfield is the set computed by inserting and removing ids. */
  lemma {:induction false} BitfieldIsSet(s: State, claims: Claims, steps: seq<Step>)
    requires Represents(s.bits, claims) && IsRun(s, steps)
    ensures Represents(Run(s, steps).bits, RunClaims(claims, steps))
    decreases |steps|
  {
    if steps != [] {
      StepRepresents(s, claims, steps[0]);
      BitfieldIsSet(Next(s, steps[0]), NextClaims(claims, steps[0]), steps[1..]);
    }
  }

  lemma InitialIsEmpty()
    ensures Represents(INITIAL.bits, {})
  {
    forall id: Word | id < MAX_RESOURCES
      ensures !HasBit(INITIAL.bits, id)
    {
      hide WordOf, TestBit;
      WordInRange(id);
      assert INITIAL.bits[WordOf(id)] == 0;
      NoBitsInZero(BitOf(id));
    }
  }

  // ---- exclusive ownership ----

  /** A resource has one live token if its bit is set and none otherwise. */
  ghost predicate Exclusive(s: State)
    requires |s.bits| == WORDS
  {
    forall id: Word | id < MAX_RESOURCES :: s.tokens[Number(id)] == if HasBit(s.bits, id) then 1 else 0
  }

  predicate TokensOnly(steps: seq<Step>) {
    forall step <- steps :: step.Claim? || step.DropCap?
  }

  lemma ExclusiveStep(s: State, step: Step)
    requires |s.bits| == WORDS && Exclusive(s) && Enabled(s, step)
    requires step.Claim? || step.DropCap?
    ensures Exclusive(Next(s, step))
  {
    var s' := Next(s, step);
    forall id: Word | id < MAX_RESOURCES
      ensures s'.tokens[Number(id)] == if HasBit(s'.bits, id) then 1 else 0
    {
      hide HasBit, AcquireBits, ReleaseBits, Number;
      StepFrame(s.bits, step.id, id);
      if Number(step.id) == Number(id) {
        NumberInjective(step.id, id);
      }
    }
  }

  /** While only `claim` and `drop_cap` are used, no resource ever has two live tokens. */
  lemma {:induction false} OwnershipIsExclusive(s: State, steps: seq<Step>)
    requires |s.bits| == WORDS && Exclusive(s) && IsRun(s, steps) && TokensOnly(steps)
    ensures Exclusive(Run(s, steps))
    decreases |steps|
  {
    if steps != [] {
      ExclusiveStep(s, steps[0]);
      OwnershipIsExclusive(Next(s, steps[0]), steps[1..]);
    }
  }

  lemma InitialIsExclusive()
    ensures Exclusive(INITIAL)
  {
    InitialIsEmpty();
  }

  lemma {:induction false} TokensAloneAreExclusive(steps: seq<Step>)
    requires IsRun(INITIAL, steps) && TokensOnly(steps)
    ensures Exclusive(Run(INITIAL, steps))
  {
    InitialIsExclusive();
    OwnershipIsExclusive(INITIAL, steps);
  }

  /** A console drop between two claims leaves two live tokens for one resource. */
  lemma ConsoleDropBreaksOwnership(id: Word)
    requires OnConsole(id)
    ensures var steps := [Claim(id), ReplDrop(id), Claim(id)];
            IsRun(INITIAL, steps) && Run(INITIAL, steps).tokens[Number(id)] == 2
  {
    hide HasBit, AcquireBits, ReleaseBits, Number;
    var steps := [Claim(id), ReplDrop(id), Claim(id)];
    InitialIsEmpty();
    StepFrame(INITIAL.bits, id, id);
    var s1 := Next(INITIAL, Claim(id));
    StepFrame(s1.bits, id, id);
    var s2 := Next(s1, ReplDrop(id));
    StepFrame(s2.bits, id, id);
    var s3 := Next(s2, Claim(id));
    assert s3.tokens[Number(id)] == 2;
    var last := steps[1..][1..];
    assert last == [Claim(id)] && last[1..] == [];
    assert IsRun(s3, last[1..]) && Run(s3, last[1..]) == s3;
    assert IsRun(s2, last) && Run(s2, last) == s3;
    assert IsRun(s1, steps[1..]) && Run(s1, steps[1..]) == s3;
  }

  // ---- exactly when ownership is exclusive ----

  /** The state before step `k` of a run. */
  function StateAt(s: State, steps: seq<Step>, k: nat): (s': State)
    requires |s.bits| == WORDS && IsRun(s, steps) && k <= |steps|
    ensures |s'.bits| == WORDS
    decreases |steps|
  {
    if k == 0 then s else StateAt(Next(s, steps[0]), steps[1..], k - 1)
  }

  lemma {:induction false} StateAfter(s: State, steps: seq<Step>, k: nat)
    requires |s.bits| == WORDS && IsRun(s, steps) && k < |steps|
    ensures Enabled(StateAt(s, steps, k), steps[k])
    ensures StateAt(s, steps, k + 1) == Next(StateAt(s, steps, k), steps[k])
    decreases |steps|
  {
    if k > 0 {
      StateAfter(Next(s, steps[0]), steps[1..], k - 1);
    }
  }

  /** What one step does to one resource. */
  lemma StepOn(s: State, step: Step, id: Word)
    requires |s.bits| == WORDS && Enabled(s, step) && id < MAX_RESOURCES
    ensures HasBit(Next(s, step).bits, id)
            == if step.id != id then HasBit(s.bits, id) else step.Claim? || step.ReplClaim?
    ensures Next(s, step).tokens[Number(id)]
            == s.tokens[Number(id)] + if step == Claim(id) && !HasBit(s.bits, id) then 1
                                      else if step == DropCap(id) then -1 else 0
  {
    hide HasBit, AcquireBits, ReleaseBits, Number, OnConsole;
    StepFrame(s.bits, step.id, id);
    if Number(step.id) == Number(id) {
      NumberInjective(step.id, id);
    }
  }

  /** Step `a` is a console drop of a resource whose token is still alive. */
  predicate Orphans(steps: seq<Step>, a: nat, id: Word)
    requires IsRun(INITIAL, steps)
  {
    a < |steps| && steps[a] == ReplDrop(id) && StateAt(INITIAL, steps, a).tokens[Number(id)] > 0
  }

  /** Neither the token nor the console takes the resource back in between. */
  predicate LeftAlone(steps: seq<Step>, a: nat, b: nat, id: Word)
    requires b <= |steps|
  {
    forall c | a < c < b :: steps[c] != DropCap(id) && steps[c] != ReplClaim(id)
  }

  /** A console drop orphans a token, and the resource is claimed before anybody takes it back. */
  predicate Reclaims(steps: seq<Step>, a: nat, b: nat, id: Word)
    requires IsRun(INITIAL, steps)
  {
    a < b < |steps| && Orphans(steps, a, id) && steps[b] == Claim(id) && LeftAlone(steps, a, b, id)
  }

  ghost predicate Reclaimed(steps: seq<Step>)
    requires IsRun(INITIAL, steps)
  {
    exists a, b, id :: Reclaims(steps, a, b, id)
  }

  /** At most one live token of the resource before step `k`. */
  predicate Unshared(steps: seq<Step>, k: nat, id: Word)
    requires IsRun(INITIAL, steps) && k <= |steps|
  {
    StateAt(INITIAL, steps, k).tokens[Number(id)] <= 1
  }

  ghost predicate NeverShared(steps: seq<Step>)
    requires IsRun(INITIAL, steps)
  {
    forall k, id: Word | 0 <= k <= |steps| && id < MAX_RESOURCES :: Unshared(steps, k, id)
  }

  lemma {:induction false} StaysOrphaned(steps: seq<Step>, a: nat, c: nat, id: Word)
    requires IsRun(INITIAL, steps) && Orphans(steps, a, id) && a < c <= |steps| && id < MAX_RESOURCES
    requires LeftAlone(steps, a, c, id) && forall b | a < b < c :: steps[b] != Claim(id)
    ensures var s := StateAt(INITIAL, steps, c); s.tokens[Number(id)] > 0 && !HasBit(s.bits, id)
    decreases c
  {
    hide HasBit, StateAt, Next, Enabled;
    if c > a + 1 {
      StaysOrphaned(steps, a, c - 1, id);
    }
    StateAfter(INITIAL, steps, c - 1);
    StepOn(StateAt(INITIAL, steps, c - 1), steps[c - 1], id);
  }

  lemma {:induction false} ReclaimShares(steps: seq<Step>, a: nat, b: nat, id: Word)
    requires IsRun(INITIAL, steps) && Reclaims(steps, a, b, id)
    ensures !NeverShared(steps)
    decreases b
  {
    hide HasBit, StateAt, Next, Enabled;
    StateAfter(INITIAL, steps, b);
    IdInRange(steps, b);
    if c :| a < c < b && steps[c] == Claim(id) {
      ReclaimShares(steps, a, c, id);
    } else {
      StaysOrphaned(steps, a, b, id);
      StepOn(StateAt(INITIAL, steps, b), steps[b], id);
      assert !Unshared(steps, b + 1, id);
    }
  }

  lemma {:induction false} IdInRange(steps: seq<Step>, k: nat)
    requires IsRun(INITIAL, steps) && k < |steps|
    ensures steps[k].id < MAX_RESOURCES
  {
    StateAfter(INITIAL, steps, k);
  }

  /** A lone token whose bit is clear was orphaned by the console and has been left alone since. */
  ghost predicate Accounted(steps: seq<Step>, k: nat, id: Word)
    requires IsRun(INITIAL, steps) && k <= |steps| && id < MAX_RESOURCES
  {
    var s := StateAt(INITIAL, steps, k);
    s.tokens[Number(id)] <= 1 &&
    (s.tokens[Number(id)] == 1 && !HasBit(s.bits, id) ==>
       exists a | 0 <= a < k :: Orphans(steps, a, id) && LeftAlone(steps, a, k, id))
  }

  lemma {:induction false} UnclaimedIsAccounted(steps: seq<Step>, k: nat, id: Word)
    requires IsRun(INITIAL, steps) && k <= |steps| && id < MAX_RESOURCES
    requires !Reclaimed(steps)
    ensures Accounted(steps, k, id)
    decreases k
  {
    hide HasBit, Next, Enabled, StateAt;
    if k == 0 {
      StartsEmpty(steps);
    } else {
      var s := StateAt(INITIAL, steps, k - 1);
      UnclaimedIsAccounted(steps, k - 1, id);
      StateAfter(INITIAL, steps, k - 1);
      StepOn(s, steps[k - 1], id);
      if s.tokens[Number(id)] == 1 && !HasBit(s.bits, id) {
        var a :| 0 <= a < k - 1 && Orphans(steps, a, id) && LeftAlone(steps, a, k - 1, id);
        assert steps[k - 1] == Claim(id) ==> Reclaims(steps, a, k - 1, id);
        assert steps[k - 1] != DropCap(id) && steps[k - 1] != ReplClaim(id) ==> LeftAlone(steps, a, k, id);
      } else if steps[k - 1] == ReplDrop(id) && s.tokens[Number(id)] == 1 {
        assert Orphans(steps, k - 1, id) && LeftAlone(steps, k - 1, k, id);
      }
    }
  }

  lemma {:induction false} StartsEmpty(steps: seq<Step>)
    requires IsRun(INITIAL, steps)
    ensures StateAt(INITIAL, steps, 0) == INITIAL
  {
  }

  /**
   * From power-on, no resource ever has two live tokens if and only if no
   * console drop that orphans a token is followed by a claim of the resource
   * before the token is dropped or the console claims it back.
   */
  lemma {:induction false} OwnershipIsExclusiveIff(steps: seq<Step>)
    requires IsRun(INITIAL, steps)
    ensures NeverShared(steps) <==> !Reclaimed(steps)
  {
    if Reclaimed(steps) {
      var a, b, id :| Reclaims(steps, a, b, id);
      ReclaimShares(steps, a, b, id);
    } else {
      forall k, id: Word | 0 <= k <= |steps| && id < MAX_RESOURCES
        ensures Unshared(steps, k, id)
      {
        UnclaimedIsAccounted(steps, k, id);
      }
    }
  }
}
