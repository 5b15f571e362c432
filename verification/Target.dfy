/** The two targets, and what they share: registers, a run of emitted code, emitter results. */
module Target {
  import opened Machine

  datatype Arch = Arm | RiscV32

  type Reg = bv8

  /** The register file; a register nobody has written yet reads 0. */
  type Regs = map<nat, Word>

  function Get(regs: Regs, r: Reg): Word {
    if r as nat in regs then regs[r as nat] else 0
  }

  function Set(regs: Regs, r: Reg, v: Word): Regs {
    regs[r as nat := v]
  }

  datatype Cpu = Cpu(regs: Regs, trace: Trace)

  /** `Returned`: control went back through the link register.  `Fault`: anything else. */
  datatype CodeRun = Returned(cpu: Cpu) | Fault

  /** What older programs left in the executable buffer behind new code, as either target sees it. */
  datatype Leftovers = Leftovers(halfwords: seq<bv16>, words: seq<Word>)

  const NOTHING_LEFT := Leftovers([], [])

  datatype EmitError = Overflow | BadRegister

  datatype EmitResult = Emitted | Failed(error: EmitError)
}
