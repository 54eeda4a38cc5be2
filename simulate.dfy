/** The simulator loop as the source runs it: a register array and a memory
    array updated in place, instruction by instruction.  Each method is
    proved to leave the arrays holding the state the functional model of
    `Machine` computes. */
module Simulator {
  import opened Bits
  import opened Outcomes
  import opened Types
  import opened Machine

  /** The state the two arrays hold. */
  function StateOf(regs: array<u16>, mem: array<u8>): State
    requires regs.Length == RegCount && mem.Length == MemSize
    reads regs, mem
  {
    State(regs[..], mem[..])
  }

  /** `mov` in place: read the source, then write the register through
      `applyOp` or the byte or word of memory. */
  method MovInPlace(s: Snapshot, regs: array<u16>, mem: array<u8>, ops: seq<Operand>) returns (r: Result<()>)
    requires regs.Length == RegCount && mem.Length == MemSize
    modifies regs, mem
    ensures var e := ExecMov(s, old(StateOf(regs, mem)), ops);
      && (e.Ok? ==> r.Ok? && StateOf(regs, mem) == e.value)
      && (e.Err? ==> r == Err(e.fault))
  {
    if |ops| < 2 {
      return Err(BadOperand);
    }
    var v :- Load(StateOf(regs, mem), ops[1]);
    match ops[0].op {
      case Reg(n, w) =>
        regs[n] := NewValue(s, Mov, w, regs[n], v);
        r := Ok(());
      case Displacement(k, d) =>
        var off := DispOffset(regs[..], k, d);
        if ops[0].size == SizeNone {
          r := Err(UnsizedMemory);
        } else if off < 0 {
          r := Err(AddressOutOfRange(off));
        } else {
          mem[off] := Low(v);
          if ops[0].size == SizeWord {
            mem[off + 1] := High(v);
          }
          r := Ok(());
        }
      case _ =>
        r := Err(BadOperand);
    }
  }

  /** `add`, `sub` and `cmp` in place. */
  method ArithInPlace(s: Snapshot, regs: array<u16>, mem: array<u8>, op: Op, ops: seq<Operand>) returns (r: Result<()>)
    requires op == Add || op == Sub || op == Cmp
    requires regs.Length == RegCount && mem.Length == MemSize
    modifies regs
    ensures var e := ExecArith(s, old(StateOf(regs, mem)), op, ops);
      && (e.Ok? ==> r.Ok? && StateOf(regs, mem) == e.value)
      && (e.Err? ==> r == Err(e.fault))
  {
    if |ops| == 0 {
      return Err(BadOperand);
    }
    match ops[0].op {
      case Reg(n, w) =>
        if |ops| < 2 {
          return Err(BadOperand);
        }
        var b :- Load(StateOf(regs, mem), ops[1]);
        var a := regs[n];
        if op == Add {
          regs[n] := NewValue(s, Add, w, a, b);
          regs[RegFlags] := NewFlags(s, Add, w, a, b);
        } else {
          regs[RegFlags] := NewFlags(s, Sub, w, a, b);
          if op != Cmp {
            regs[n] := NewValue(s, Sub, w, a, b);
          }
        }
        r := Ok(());
      case _ =>
        r := Ok(());
    }
  }

  /** The jump family in place: the loop family decrements CX, then
      `JumpIf` moves IP when the condition holds. */
  method JumpInPlace(regs: array<u16>, mem: array<u8>, op: Op, ops: seq<Operand>) returns (r: Result<()>)
    requires op.IsJump()
    requires regs.Length == RegCount && mem.Length == MemSize
    modifies regs
    ensures var e := ExecJump(old(StateOf(regs, mem)), op, ops);
      && (e.Ok? ==> r.Ok? && StateOf(regs, mem) == e.value)
      && (e.Err? ==> r == Err(e.fault))
  {
    if |ops| == 0 {
      return Err(BadOperand);
    }
    if Counts(op) {
      regs[RegCx] := (regs[RegCx] as int - 1) % 0x10000;
    }
    r := JumpIf(regs, Taken(op, regs[..]), ops[0].op);
  }

  /** One decoded instruction in place. */
  method ExecuteInPlace(s: Snapshot, regs: array<u16>, mem: array<u8>, inst: Instruction) returns (r: Result<()>)
    requires regs.Length == RegCount && mem.Length == MemSize
    modifies regs, mem
    ensures var e := Execute(s, old(StateOf(regs, mem)), inst);
      && (e.Ok? ==> r.Ok? && StateOf(regs, mem) == e.value)
      && (e.Err? ==> r == Err(e.fault))
  {
    match inst.op {
      case Mov => r := MovInPlace(s, regs, mem, inst.operands);
      case Add => r := ArithInPlace(s, regs, mem, Add, inst.operands);
      case Sub => r := ArithInPlace(s, regs, mem, Sub, inst.operands);
      case Cmp => r := ArithInPlace(s, regs, mem, Cmp, inst.operands);
      case _ => r := JumpInPlace(regs, mem, inst.op, inst.operands);
    }
  }

  /** The source's zeroed register file and memory. */
  method Zero() returns (regs: array<u16>, mem: array<u8>)
    ensures fresh(regs) && fresh(mem)
    ensures regs.Length == RegCount && mem.Length == MemSize
    ensures StateOf(regs, mem) == Initial()
  {
    regs := new u16[RegCount](_ => 0);
    mem := new u8[MemSize](_ => 0);
    assert regs[..] == Initial().regs;
    assert mem[..] == Initial().mem;
  }

  /** One turn of the source's loop in place: decode at IP, advance IP by
      the instruction's length, execute.  The arrays then hold the state
      `Machine.Step` computes, and a failure is its fault. */
  method StepInPlace(s: Snapshot, buf: seq<u8>, regs: array<u16>, mem: array<u8>) returns (r: Result<()>)
    requires regs.Length == RegCount && mem.Length == MemSize
    modifies regs, mem
    ensures var step := Step(s, buf, old(StateOf(regs, mem)));
      && (step.Ok? ==> r.Ok? && StateOf(regs, mem) == step.value)
      && (step.Err? ==> r == Err(step.fault))
  {
    ghost var st := StateOf(regs, mem);
    var d :- DecodeAt(s, buf, regs[RegIp]);
    assert DecodeAt(s, buf, st.regs[RegIp]) == Ok(d);
    regs[RegIp] := Add16(regs[RegIp], d.advance);
    assert StateOf(regs, mem) == Advance(st, d.advance);
    StepIs(s, buf, st);
    r := ExecuteInPlace(s, regs, mem, d.inst);
  }

  /** One turn of the source's loop on a state inside the program, with
      `fuel` turns left: out of fuel, or the step in place. */
  method Turn(s: Snapshot, buf: seq<u8>, regs: array<u16>, mem: array<u8>, fuel: nat, ghost step: State -> Result<State>)
    returns (r: Result<()>)
    requires regs.Length == RegCount && mem.Length == MemSize
    requires regs[RegIp] < |buf| && Steps(s, buf, step)
    modifies regs, mem
    ensures r.Ok? ==> fuel > 0 && Iterate(step, |buf|, old(StateOf(regs, mem)), fuel) == Iterate(step, |buf|, StateOf(regs, mem), fuel - 1)
    ensures r.Err? ==> Iterate(step, |buf|, old(StateOf(regs, mem)), fuel) == Err(r.fault)
  {
    if fuel == 0 {
      return Err(OutOfFuel);
    }
    r := StepInPlace(s, buf, regs, mem);
  }

  /** The source's loop in place: turn after turn while IP is inside the
      program, for at most `fuel` turns. */
  method Loop(s: Snapshot, buf: seq<u8>, regs: array<u16>, mem: array<u8>, fuel: nat, ghost step: State -> Result<State>)
    returns (r: Result<()>)
    requires regs.Length == RegCount && mem.Length == MemSize
    requires Steps(s, buf, step)
    modifies regs, mem
    ensures r.Ok? ==> Iterate(step, |buf|, old(StateOf(regs, mem)), fuel) == Ok(StateOf(regs, mem))
    ensures r.Err? ==> Iterate(step, |buf|, old(StateOf(regs, mem)), fuel) == Err(r.fault)
  {
    ghost var goal := Iterate(step, |buf|, StateOf(regs, mem), fuel);
    var left := fuel;
    while regs[RegIp] < |buf|
      invariant Iterate(step, |buf|, StateOf(regs, mem), left) == goal
      decreases left
    {
      var e := Turn(s, buf, regs, mem, left, step);
      if e.Err? {
        return Err(e.fault);
      }
      left := left - 1;
    }
    r := Ok(());
  }

  /** The source's `Simulate`: the loop from zeroed registers and memory.
      The arrays end up holding the state `Machine.Simulate` computes, and a
      failure is its fault. */
  method Simulate(s: Snapshot, buf: seq<u8>, fuel: nat) returns (r: Result<()>, regs: array<u16>, mem: array<u8>)
    ensures regs.Length == RegCount && mem.Length == MemSize
    ensures r.Ok? ==> Machine.Simulate(s, buf, fuel) == Ok(StateOf(regs, mem))
    ensures r.Err? ==> Machine.Simulate(s, buf, fuel) == Err(r.fault)
  {
    regs, mem := Zero();
    StepperSteps(s, buf);
    r := Loop(s, buf, regs, mem, fuel, Stepper(s, buf));
  }
}
