/**
 * The threaded engine (src/kernel/exec.rs) and its micro-primitives
 * (src/compiler/primitives.rs).
 *
 * A stream is a sequence of words: primitive addresses, each `LIT` followed by
 * its inline argument.  The primitives' addresses are any distinct non-zero
 * words; the constants below fix one choice.
 */
module Exec {
  import opened Machine

  const VM_STACK_SIZE := 64

  const LIT: Word := 0x0800_0101
  const LOAD: Word := 0x0800_0121
  const WRITE: Word := 0x0800_0141
  const ADD: Word := 0x0800_0161
  const SUB: Word := 0x0800_0181
  const MUL: Word := 0x0800_01A1
  const DIV: Word := 0x0800_01C1
  const HALT: Word := 0x0800_01E1

  /** The occupied part of the operand stack, bottom first, and the traffic so far. */
  datatype Vm = Vm(stack: seq<Word>, trace: Trace)

  /** `Wild`: dispatch left the stream or called a word that is no primitive. */
  datatype Dispatch = Halted(vm: Vm) | Wild

  function Push(s: seq<Word>, v: Word): seq<Word> {
    if |s| >= VM_STACK_SIZE then s else s + [v]
  }

  function Top(s: seq<Word>): Word {
    if s == [] then 0 else s[|s| - 1]
  }

  function Pop(s: seq<Word>): seq<Word> {
    if s == [] then [] else s[..|s| - 1]
  }

  predicate IsArith(w: Word) {
    w == ADD || w == SUB || w == MUL || w == DIV
  }

  /** What the four arithmetic primitives compute. */
  function Arith(op: Word, a: Word, b: Word): Word {
    if op == ADD then AddW(a, b)
    else if op == SUB then SubW(a, b)
    else if op == MUL then MulW(a, b)
    else DivW(a, b)
  }

  predicate IsPrimitive(w: Word) {
    w == LIT || w == LOAD || w == WRITE || IsArith(w) || w == HALT
  }

  /** One primitive other than `LIT` and `HALT`. */
  function Step(bus: Bus, op: Word, vm: Vm): Vm {
    if op == LOAD then
      var addr := Top(vm.stack);
      Vm(Push(Pop(vm.stack), bus(vm.trace, addr)), AfterRead(bus, vm.trace, addr))
    else if op == WRITE then
      var value, addr := Top(vm.stack), Top(Pop(vm.stack));
      Vm(Pop(Pop(vm.stack)), AfterWrite(vm.trace, addr, value))
    else
      var b, a := Top(vm.stack), Top(Pop(vm.stack));
      Vm(Push(Pop(Pop(vm.stack)), Arith(op, a, b)), vm.trace)
  }

  /** Dispatch over the words still ahead of the instruction pointer. */
  function Threaded(bus: Bus, words: seq<Word>, vm: Vm): Dispatch
    decreases |words|
  {
    if words == [] then Wild
    else if words[0] == 0 || words[0] == HALT then Halted(vm)
    else if words[0] == LIT then
      if |words| < 2 then Wild else Threaded(bus, words[2..], vm.(stack := Push(vm.stack, words[1])))
    else if IsPrimitive(words[0]) then Threaded(bus, words[1..], Step(bus, words[0], vm))
    else Wild
  }

  /**
   * The same machine with an operand stack of `limit` words that refuses to
   * drop a push or to pop nothing: `None` marks the first such event.
   */
  datatype Strict = Fine(vm: Vm) | Stuck

  function StrictThreaded(bus: Bus, words: seq<Word>, vm: Vm, limit: nat): Strict
    decreases |words|
  {
    if words == [] then Stuck
    else if words[0] == 0 || words[0] == HALT then Fine(vm)
    else if words[0] == LIT then
      if |words| < 2 || |vm.stack| >= limit then Stuck
      else StrictThreaded(bus, words[2..], vm.(stack := vm.stack + [words[1]]), limit)
    else if !IsPrimitive(words[0]) || |vm.stack| < (if words[0] == LOAD then 1 else 2) then Stuck
    else StrictThreaded(bus, words[1..], Step(bus, words[0], vm), limit)
  }

  /** A run that never strains a stack of at most 64 words is the run of the real engine. */
  lemma {:induction false} StrictIsThreaded(bus: Bus, words: seq<Word>, vm: Vm, limit: nat)
    requires limit <= VM_STACK_SIZE
    requires StrictThreaded(bus, words, vm, limit).Fine?
    ensures Threaded(bus, words, vm) == Halted(StrictThreaded(bus, words, vm, limit).vm)
    decreases |words|
  {
    if words[0] == 0 || words[0] == HALT {
    } else if words[0] == LIT {
      StrictIsThreaded(bus, words[2..], vm.(stack := vm.stack + [words[1]]), limit);
    } else {
      StrictIsThreaded(bus, words[1..], Step(bus, words[0], vm), limit);
    }
  }

  /** The statically allocated stack, the dispatcher and the eight primitives. */
  class Engine {
    const mem: Memory
    const stack: array<Word>
    var sp: nat

    ghost predicate Valid()
      reads this
    {
      stack.Length == VM_STACK_SIZE && sp <= VM_STACK_SIZE
    }

    ghost function State(): Vm
      reads this, mem, stack
      requires Valid()
    {
      Vm(stack[..sp], mem.trace)
    }

    constructor (mem: Memory)
      ensures Valid() && fresh(stack) && this.mem == mem && State() == Vm([], mem.trace)
    {
      this.mem := mem;
      stack := new Word[VM_STACK_SIZE];
      sp := 0;
    }

    method VmPush(value: Word) returns (stored: bool)
      requires Valid()
      modifies this, stack
      ensures Valid()
      ensures stored == (old(sp) < VM_STACK_SIZE)
      ensures State() == Vm(Push(old(State()).stack, value), old(mem.trace))
      ensures State().stack == old(State()).stack + if |old(State()).stack| < 64 then [value] else []
    {
      if sp >= VM_STACK_SIZE {
        return false;
      }
      stack[sp] := value;
      sp := sp + 1;
      assert stack[..sp] == old(stack[..sp]) + [value];
      return true;
    }

    method VmPop() returns (value: Word)
      requires Valid()
      modifies this
      ensures Valid()
      ensures value == Top(old(State()).stack)
      ensures State() == Vm(Pop(old(State()).stack), old(mem.trace))
      ensures if old(State()).stack == [] then value == 0 && State().stack == []
              else old(State()).stack == State().stack + [value]
    {
      if sp == 0 {
        return 0;
      }
      sp := sp - 1;
      value := stack[sp];
      assert stack[..sp] == old(stack[..sp])[..sp];
    }

    method VmReset()
      requires Valid()
      modifies this
      ensures Valid() && State() == Vm([], old(mem.trace))
    {
      sp := 0;
    }

    method LoadRegPrim()
      requires Valid()
      modifies this, stack, mem
      ensures Valid() && State() == Step(mem.bus, LOAD, old(State()))
    {
      var addr := VmPop();
      var value := mem.PeekU32(addr);
      var _ := VmPush(value);
    }

    method WriteRegPrim()
      requires Valid()
      modifies this, stack, mem
      ensures Valid() && State() == Step(mem.bus, WRITE, old(State()))
    {
      var value := VmPop();
      var addr := VmPop();
      mem.PokeU32(addr, value);
    }

    method AddPrim()
      requires Valid()
      modifies this, stack
      ensures Valid() && State() == Step(mem.bus, ADD, old(State()))
    {
      var b := VmPop();
      var a := VmPop();
      var _ := VmPush(AddW(a, b));
    }

    method SubPrim()
      requires Valid()
      modifies this, stack
      ensures Valid() && State() == Step(mem.bus, SUB, old(State()))
    {
      var b := VmPop();
      var a := VmPop();
      var _ := VmPush(SubW(a, b));
    }

    method MulPrim()
      requires Valid()
      modifies this, stack
      ensures Valid() && State() == Step(mem.bus, MUL, old(State()))
    {
      var b := VmPop();
      var a := VmPop();
      var _ := VmPush(MulW(a, b));
    }

    method DivPrim()
      requires Valid()
      modifies this, stack
      ensures Valid() && State() == Step(mem.bus, DIV, old(State()))
    {
      var b := VmPop();
      var a := VmPop();
      var _ := VmPush(DivW(a, b));
    }

    /** `ok` is false exactly when dispatch would leave the stream or call a non-primitive. */
    method RunThreadedStream(words: seq<Word>) returns (ok: bool)
      requires Valid()
      modifies this, stack, mem
      ensures Valid()
      ensures ok == Threaded(mem.bus, words, old(State())).Halted?
      ensures ok ==> Halted(State()) == Threaded(mem.bus, words, old(State()))
    {
      var ip := 0;
      while true
        invariant Valid() && ip <= |words|
        invariant Threaded(mem.bus, words[ip..], State()) == Threaded(mem.bus, words, old(State()))
        decreases |words| - ip
      {
        if ip == |words| {
          return false;
        }
        var word := words[ip];
        if word == 0 || word == HALT {
          return true;
        }
        ghost var rest := words[ip..];
        ip := ip + 1;
        if word == LIT {
          if ip == |words| {
            return false;
          }
          var _ := VmPush(words[ip]);
          ip := ip + 1;
          assert rest[2..] == words[ip..];
        } else {
          assert rest[1..] == words[ip..];
          if word == LOAD {
            LoadRegPrim();
          } else if word == WRITE {
            WriteRegPrim();
          } else if word == ADD {
            AddPrim();
          } else if word == SUB {
            SubPrim();
          } else if word == MUL {
            MulPrim();
          } else if word == DIV {
            DivPrim();
          } else {
            return false;
          }
        }
      }
    }
  }
}
