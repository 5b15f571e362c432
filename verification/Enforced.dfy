/**
 * Capability-enforced access (src/kernel/memory.rs) and how it compares with
 * the check the parser makes (src/capabilities/registry.rs).
 */
module Enforced {
  import opened Wrappers
  import opened Machine
  import opened Target
  import opened Registry
  import opened Audit

  datatype MemError = CapabilityViolation | PermissionDenied

  /** The rule of both enforced operations: an address outside every peripheral passes. */
  predicate Permits(arch: Arch, claims: Claims, addr: Word) {
    SUPERUSER_ID in claims ||
    match AddrToCap(arch, addr)
    case Some(cap) => Id(cap) in claims
    case None => true
  }

  method EnforcedPokeU32(mem: Memory, reg: CapabilityRegistry, log: AuditLog, addr: Word, value: Word, cycles: Word)
      returns (r: Result<(), MemError>)
    requires reg.Valid() && log.Valid()
    modifies mem, log, log.buffer
    ensures reg.Valid() && log.Valid()
    ensures Permits(reg.arch, reg.claims, addr) ==> r == Ok(()) && mem.trace == AfterWrite(old(mem.trace), addr, value)
    ensures !Permits(reg.arch, reg.claims, addr) ==> r == Err(CapabilityViolation) && mem.trace == old(mem.trace)
    ensures log.history == old(log.history)
                           + if SUPERUSER_ID in reg.claims then [AuditEntry(addr, value, cycles)] else []
  {
    var superuser := reg.IsSuperuserActive();
    if superuser {
      log.RecordEvent(addr, value, cycles);
    } else {
      match AddrToCap(reg.arch, addr)
      case Some(cap) =>
        var claimed := reg.IsClaimed(Id(cap));
        if !claimed {
          return Err(CapabilityViolation);
        }
      case None =>
    }
    mem.PokeU32(addr, value);
    return Ok(());
  }

  method EnforcedPeekU32(mem: Memory, reg: CapabilityRegistry, addr: Word) returns (r: Result<Word, MemError>)
    requires reg.Valid()
    modifies mem
    ensures Permits(reg.arch, reg.claims, addr) ==>
              r == Ok(mem.bus(old(mem.trace), addr)) && mem.trace == AfterRead(mem.bus, old(mem.trace), addr)
    ensures !Permits(reg.arch, reg.claims, addr) ==> r == Err(CapabilityViolation) && mem.trace == old(mem.trace)
  {
    var superuser := reg.IsSuperuserActive();
    if !superuser {
      match AddrToCap(reg.arch, addr)
      case Some(cap) =>
        var claimed := reg.IsClaimed(Id(cap));
        if !claimed {
          return Err(CapabilityViolation);
        }
      case None =>
    }
    var value := mem.PeekU32(addr);
    return Ok(value);
  }

  /**
   * Whatever the parser's check grants, the enforced operation performs.  The
   * converse fails exactly on addresses outside every peripheral and outside
   * RAM and flash while nobody holds the superuser capability.
   */
  lemma LayersAgree(arch: Arch, claims: Claims, addr: Word)
    ensures Allowed(arch, claims, addr) ==> Permits(arch, claims, addr)
    ensures Permits(arch, claims, addr) && !Allowed(arch, claims, addr) <==>
            SUPERUSER_ID !in claims && AddrToCap(arch, addr).None? && !IsRamOrFlash(arch, addr)
  {
  }

  /** The gap is not empty: the second layer lets a store through to address 0 that the first one refuses. */
  lemma LayersDifferAtZero(arch: Arch)
    ensures Permits(arch, {}, 0) && !Allowed(arch, {}, 0)
  {
  }
}
