/** The superuser audit log (src/capabilities/audit.rs): a ring of sixteen entries and a saturating count. */
module Audit {
  import opened Machine

  const RING := 16
  const USIZE_MAX := 0xFFFF_FFFF

  datatype AuditEntry = AuditEntry(addr: Word, val: Word, cycles: Word)

  const EMPTY := AuditEntry(0, 0, 0)

  /** What slot `k` of the ring holds after `history`. */
  function Slot(history: seq<AuditEntry>, k: nat): AuditEntry {
    if history == [] then EMPTY
    else if (|history| - 1) % RING == k then history[|history| - 1]
    else Slot(history[..|history| - 1], k)
  }

  /** The last sixteen events are all in the ring, each at its index modulo sixteen. */
  lemma {:induction false} RingHoldsRecent(history: seq<AuditEntry>, i: nat)
    requires i < |history| <= i + 16
    ensures Slot(history, i % 16) == history[i]
  {
    if i < |history| - 1 {
      SameSlot(i, |history| - 1);
      RingHoldsRecent(history[..|history| - 1], i);
    }
  }

  lemma SameSlot(i: nat, j: nat)
    requires i < j < i + RING
    ensures i % RING != j % RING
  {
  }

  /** Before the ring has gone round, the slots ahead are still blank. */
  lemma {:induction false} RingBlankAhead(history: seq<AuditEntry>, k: nat)
    requires |history| <= k < RING
    ensures Slot(history, k) == EMPTY
  {
    if history != [] {
      RingBlankAhead(history[..|history| - 1], k);
    }
  }

  class AuditLog {
    const buffer: array<AuditEntry>
    var head: nat
    var count: nat
    ghost var history: seq<AuditEntry>

    ghost predicate Valid()
      reads this, buffer
    {
      buffer.Length == RING &&
      head == |history| % RING &&
      count == (if |history| <= USIZE_MAX then |history| else USIZE_MAX) &&
      forall k | 0 <= k < RING :: buffer[k] == Slot(history, k)
    }

    constructor ()
      ensures Valid() && fresh(buffer) && history == []
    {
      buffer := new AuditEntry[RING](_ => EMPTY);
      head, count := 0, 0;
      history := [];
    }

    /** The cycle counter is an input. */
    method RecordEvent(addr: Word, val: Word, cycles: Word)
      requires Valid()
      modifies this, buffer
      ensures Valid()
      ensures history == old(history) + [AuditEntry(addr, val, cycles)]
    {
      buffer[head] := AuditEntry(addr, val, cycles);
      head := (head + 1) % RING;
      count := if count < USIZE_MAX then count + 1 else USIZE_MAX;
      history := history + [AuditEntry(addr, val, cycles)];
      assert history[..|history| - 1] == old(history);
    }

    method TotalAudits() returns (n: nat)
      requires Valid()
      ensures n == if |history| <= USIZE_MAX then |history| else USIZE_MAX
    {
      n := count;
    }
  }
}
