/** The simulator of part1/main.go and main.go as a state machine: a 14-slot
    register file and 1 MiB of memory, a step that fetches at IP, advances IP
    past the instruction and then executes it, and a run that steps while IP
    is inside the program.  The two snapshots run the same loop and differ
    only in the decoder and in the register arithmetic they call. */
module Machine {
  import opened Bits
  import opened Outcomes
  import opened Types
  import Decode
  import RootDecode
  import Arith
  import RootArith

  /** Which snapshot of the simulator: part1/main.go or the earlier main.go. */
  datatype Snapshot = Part1 | Root

  /** The source's `Memory`: 2^20 bytes. */
  const MemSize := 0x100000
  type Memory = m: seq<u8> | |m| == MemSize witness seq(MemSize, _ => 0)

  /** The simulator's state: the register file and the memory. */
  datatype State = State(regs: Registers, mem: Memory)

  /** The state `Simulate` starts from: every register and byte zero. */
  function Initial(): State {
    State(seq(RegCount, _ => 0), seq(MemSize, _ => 0))
  }

  /** The snapshot's decoder. */
  function DecodeAt(s: Snapshot, buf: seq<u8>, ip: nat): Result<Decode.Decoded> {
    match s
    case Part1 => Decode.DecodeInstruction(buf, ip)
    case Root => RootDecode.DecodeInstruction(buf, ip)
  }

  /** Every instruction either decoder accepts is shaped as the part1
      decoder promises. */
  lemma DecodedShape(s: Snapshot, buf: seq<u8>, ip: nat)
    requires DecodeAt(s, buf, ip).Ok?
    ensures ip + 2 <= |buf| && Operation(buf[ip], buf[ip + 1]).Ok?
    ensures Decode.Shaped(DecodeAt(s, buf, ip).value, buf, ip, Operation(buf[ip], buf[ip + 1]).value.op)
    ensures DecodeAt(s, buf, ip).value.inst.op.IsJump() ==>
      DecodeAt(s, buf, ip).value.advance == 2 &&
      DecodeAt(s, buf, ip).value.inst.operands[0].op == Imm(Int8(buf[ip + 1]))
  {
    if s == Root {
      RootDecode.Agrees(buf, ip);
    }
  }

  /** The register value `applyOp` returns in the snapshot. */
  function NewValue(s: Snapshot, op: Op, w: Width, a: u16, b: u16): u16
    requires Arith.Applies(op)
  {
    match s
    case Part1 => Arith.RegisterValue(op, w, a, b)
    case Root => RootArith.Value(op, w, a, b)
  }

  /** The FLAGS word `applyOp` returns in the snapshot for `add` and `sub`. */
  function NewFlags(s: Snapshot, op: Op, w: Width, a: u16, b: u16): u16
    requires op == Add || op == Sub
  {
    match s
    case Part1 => Arith.ArithmeticFlags(op, w, a, b)
    case Root => RootArith.FlagsWord(op, w, a, b)
  }

  /** Both snapshots' `mov` into a register stores the source operand at the
      register's width, so reading the register back at that width yields
      the source operand, or its low byte at half width. */
  lemma MovValue(s: Snapshot, w: Width, a: u16, b: u16)
    ensures Arith.Operand(w, NewValue(s, Mov, w, a, b)) == if w == WidthFull then b else Low(b)
  {
    if s == Root {
      match w {
        case WidthFull =>
        case WidthLo =>
          RootArith.LoHalf(Mov, a, b);
          assert RootArith.Calc(Mov, Low(a), b) == b;
        case WidthHi =>
          assert RootArith.Calc(Mov, High(a), b) == b;
      }
    }
  }

  /** The base registers an addressing mode sums (Intel 8086 Family User's
      Manual, Table 4-10); the direct address has none. */
  function Bases(k: DispKind): seq<Register> {
    match k
    case DispBxSi => [RegBx, RegSi]
    case DispBxDi => [RegBx, RegDi]
    case DispBpSi => [RegBp, RegSi]
    case DispBpDi => [RegBp, RegDi]
    case DispSi => [RegSi]
    case DispDi => [RegDi]
    case DispBp => [RegBp]
    case DispBx => [RegBx]
    case DispEA => []
  }

  /** The sum of the given registers' values. */
  function SumOf(regs: Registers, rs: seq<Register>): (n: nat)
    ensures n <= 0xFFFF * |rs|
  {
    if rs == [] then 0 else regs[rs[0]] + SumOf(regs, rs[1..])
  }

  /** The source's `dispOffset`: the sum of the mode's base registers plus
      the signed displacement, or the displacement read as uint16 for a
      direct address.  It never reaches the last byte of memory, though it
      can be negative. */
  function DispOffset(regs: Registers, k: DispKind, d: i16): (off: int)
    ensures k == DispEA ==> off == Uint16(d)
    ensures k != DispEA ==> off == SumOf(regs, Bases(k)) + d
    ensures -0x8000 <= off <= 0x27FFD && off + 1 < MemSize
  {
    match k
    case DispBxSi => regs[RegBx] + regs[RegSi] + d
    case DispBxDi => regs[RegBx] + regs[RegDi] + d
    case DispBpSi => regs[RegBp] + regs[RegSi] + d
    case DispBpDi => regs[RegBp] + regs[RegDi] + d
    case DispSi => regs[RegSi] + d
    case DispDi => regs[RegDi] + d
    case DispBp => regs[RegBp] + d
    case DispBx => regs[RegBx] + d
    case DispEA => Uint16(d)
  }

  /** A byte or a little-endian word of memory at `off`. */
  function ReadMem(mem: Memory, off: nat, size: SizeMark): (v: u16)
    requires off + 1 < MemSize && size != SizeNone
    ensures size == SizeByte ==> v == mem[off]
    ensures size == SizeWord ==> Low(v) == mem[off] && High(v) == mem[off + 1]
  {
    if size == SizeByte then mem[off] else Word(mem[off], mem[off + 1])
  }

  /** The low byte of `v` at `off`, and for a word its high byte at `off+1`;
      every other byte of memory is unchanged. */
  function WriteMem(mem: Memory, off: nat, size: SizeMark, v: u16): (m: Memory)
    requires off + 1 < MemSize && size != SizeNone
    ensures m[off] == Low(v)
    ensures size == SizeWord ==> m[off + 1] == High(v)
    ensures forall j | 0 <= j < MemSize && j != off && (size == SizeByte || j != off + 1) :: m[j] == mem[j]
  {
    if size == SizeByte then mem[off := Low(v)] else mem[off := Low(v)][off + 1 := High(v)]
  }

  /** What is written is read back: the word, or the low byte of a byte
      write. */
  lemma ReadAfterWrite(mem: Memory, off: nat, size: SizeMark, v: u16)
    requires off + 1 < MemSize && size != SizeNone
    ensures ReadMem(WriteMem(mem, off, size, v), off, size) == if size == SizeWord then v else Low(v)
  {
    if size == SizeWord {
      WordOfBytes(v);
    }
  }

  /** The source's `immediate`: the value of a source operand.  Immediates
      give their bits as uint16, a register its value at the operand's width,
      and a memory operand the byte or word at its offset; an unsized memory
      operand and a negative offset are the source's panics. */
  function Load(st: State, src: Operand): (r: Result<u16>)
    ensures src.op.Imm? ==> r == Ok(Uint16(src.op.i))
    ensures src.op.ImmU? ==> r == Ok(src.op.u)
    ensures src.op.Reg? ==> r == Ok(Arith.Operand(src.op.width, st.regs[src.op.name]))
    ensures src.op.Displacement? && src.size == SizeNone ==> r == Err(UnsizedMemory)
    ensures src.op.Displacement? && src.size != SizeNone ==>
      var off := DispOffset(st.regs, src.op.kind, src.op.disp);
      r == if off < 0 then Err(AddressOutOfRange(off)) else Ok(ReadMem(st.mem, off, src.size))
  {
    match src.op
    case Imm(i) => Ok(Uint16(i))
    case ImmU(u) => Ok(u)
    case Reg(n, w) => Ok(Arith.Operand(w, st.regs[n]))
    case Displacement(k, d) =>
      var off := DispOffset(st.regs, k, d);
      if src.size == SizeNone then Err(UnsizedMemory)
      else if off < 0 then Err(AddressOutOfRange(off))
      else Ok(ReadMem(st.mem, off, src.size))
  }

  /** `mov`: the source operand is read first; a register destination takes
      it through `applyOp` (flags discarded), a memory destination gets its
      low byte, or its low then high byte for a word. */
  function ExecMov(s: Snapshot, st: State, ops: seq<Operand>): (r: Result<State>)
    ensures r.Ok? ==> |ops| >= 2 && Load(st, ops[1]).Ok?
    ensures r.Ok? ==> r.value.regs[RegFlags] == st.regs[RegFlags] || (ops[0].op.Reg? && ops[0].op.name == RegFlags)
    ensures r.Ok? && ops[0].op.Reg? ==>
      && r.value.mem == st.mem
      && r.value.regs == st.regs[ops[0].op.name := NewValue(s, Mov, ops[0].op.width, st.regs[ops[0].op.name], Load(st, ops[1]).value)]
    ensures r.Ok? && !ops[0].op.Reg? ==> r.value.regs == st.regs && ops[0].op.Displacement? && ops[0].size != SizeNone
    ensures |ops| >= 2 && Load(st, ops[1]).Ok? && ops[0].op.Displacement? && ops[0].size == SizeNone ==> r == Err(UnsizedMemory)
  {
    if |ops| < 2 then Err(BadOperand) else
    var v :- Load(st, ops[1]);
    match ops[0].op
    case Reg(n, w) => Ok(st.(regs := st.regs[n := NewValue(s, Mov, w, st.regs[n], v)]))
    case Displacement(k, d) =>
      var off := DispOffset(st.regs, k, d);
      if ops[0].size == SizeNone then Err(UnsizedMemory)
      else if off < 0 then Err(AddressOutOfRange(off))
      else Ok(st.(mem := WriteMem(st.mem, off, ops[0].size, v)))
    case _ => Err(BadOperand)
  }

  /** `add`, `sub` and `cmp`: only a register destination is handled (any
      other destination leaves the state as it is); `add` writes the value
      and then FLAGS, `sub` writes FLAGS and then the value, and `cmp` writes
      the same FLAGS as `sub` and never the value. */
  function ExecArith(s: Snapshot, st: State, op: Op, ops: seq<Operand>): (r: Result<State>)
    requires op == Add || op == Sub || op == Cmp
    ensures r.Ok? ==> r.value.mem == st.mem
    ensures |ops| >= 1 && !ops[0].op.Reg? ==> r == Ok(st)
  {
    if |ops| == 0 then Err(BadOperand) else
    match ops[0].op
    case Reg(n, w) =>
      if |ops| < 2 then Err(BadOperand) else
      var b :- Load(st, ops[1]);
      if op == Add then
        Ok(st.(regs := st.regs[n := NewValue(s, Add, w, st.regs[n], b)][RegFlags := NewFlags(s, Add, w, st.regs[n], b)]))
      else
        var flagged := st.regs[RegFlags := NewFlags(s, Sub, w, st.regs[n], b)];
        Ok(st.(regs := if op == Cmp then flagged else flagged[n := NewValue(s, Sub, w, st.regs[n], b)]))
    case _ => Ok(st)
  }

  /** `add` and `sub` into a register other than FLAGS write that register
      with `applyOp`'s value and FLAGS with its flags, and nothing else. */
  lemma ArithWrites(s: Snapshot, st: State, op: Op, ops: seq<Operand>)
    requires op == Add || op == Sub
    requires |ops| >= 2 && ops[0].op.Reg? && ops[0].op.name != RegFlags && Load(st, ops[1]).Ok?
    ensures var r := ExecArith(s, st, op, ops);
      var n, w, b := ops[0].op.name, ops[0].op.width, Load(st, ops[1]).value;
      && r.Ok? && r.value.mem == st.mem
      && r.value.regs[n] == NewValue(s, op, w, st.regs[n], b)
      && r.value.regs[RegFlags] == NewFlags(s, op, w, st.regs[n], b)
      && forall k | 0 <= k < RegCount && k != n && k != RegFlags :: r.value.regs[k] == st.regs[k]
  {
  }

  /** `cmp` is `sub` without the write-back: the same outcome, the same
      FLAGS, and the destination register keeps its value. */
  lemma CmpIsSub(s: Snapshot, st: State, ops: seq<Operand>)
    requires |ops| >= 1 && ops[0].op.Reg? && ops[0].op.name != RegFlags
    ensures var sub, cmp := ExecArith(s, st, Sub, ops), ExecArith(s, st, Cmp, ops);
      var n := ops[0].op.name;
      && (sub.Ok? <==> cmp.Ok?)
      && (cmp.Ok? ==> cmp.value == sub.value.(regs := sub.value.regs[n := st.regs[n]]))
  {
    var n := ops[0].op.name;
    var sub, cmp := ExecArith(s, st, Sub, ops), ExecArith(s, st, Cmp, ops);
    if cmp.Ok? {
      assert sub.value.regs[n := st.regs[n]] == cmp.value.regs;
    }
  }

  /** The loop family counts CX down before testing it. */
  predicate Counts(op: Op) {
    op == Loop || op == Loopz || op == Loopnz
  }

  /** The branch condition of a jump, on the register file it reads
      (for the loop family, after CX was decremented).  `jbe` is the
      source's `IsSet(FlagC|FlagZ)`: either flag. */
  predicate Taken(op: Op, rr: Registers)
    requires op.IsJump()
  {
    match op
    case Je => IsSet(rr, FlagZ)
    case Jl => IsSet(rr, FlagS) != IsSet(rr, FlagO)
    case Jle => IsSet(rr, FlagZ) || (IsSet(rr, FlagS) != IsSet(rr, FlagO))
    case Jb => IsSet(rr, FlagC)
    case Jbe => IsSet(rr, FlagC) || IsSet(rr, FlagZ)
    case Jp => IsSet(rr, FlagP)
    case Jo => IsSet(rr, FlagO)
    case Js => IsSet(rr, FlagS)
    case Jne => !IsSet(rr, FlagZ)
    case Jnl => IsSet(rr, FlagS) == IsSet(rr, FlagO)
    case Jnle => !IsSet(rr, FlagZ) && (IsSet(rr, FlagS) == IsSet(rr, FlagO))
    case Jnb => !IsSet(rr, FlagC)
    case Jnbe => !IsSet(rr, FlagC) && !IsSet(rr, FlagZ)
    case Jnp => !IsSet(rr, FlagP)
    case Jno => !IsSet(rr, FlagO)
    case Jns => !IsSet(rr, FlagS)
    case Loop => rr[RegCx] != 0
    case Loopz => rr[RegCx] != 0 && IsSet(rr, FlagZ)
    case Loopnz => rr[RegCx] != 0 && !IsSet(rr, FlagZ)
    case Jcxz => rr[RegCx] == 0
  }

  /** The conditional jump whose opcode differs in bit 0: the same test,
      negated. */
  function Negation(op: Op): (n: Op)
    requires op in {Je, Jl, Jle, Jb, Jbe, Jp, Jo, Js}
    ensures n.IsJump() && !Counts(n) && n != Jcxz
  {
    match op
    case Je => Jne
    case Jl => Jnl
    case Jle => Jnle
    case Jb => Jnb
    case Jbe => Jnbe
    case Jp => Jnp
    case Jo => Jno
    case Js => Jns
  }

  /** Each conditional jump and its negation branch on opposite
      conditions. */
  lemma Complement(op: Op, rr: Registers)
    requires op in {Je, Jl, Jle, Jb, Jbe, Jp, Jo, Js}
    ensures Taken(Negation(op), rr) == !Taken(op, rr)
  {
    match op {
      case Je =>
      case Jl =>
      case Jle =>
      case Jb =>
      case Jbe =>
      case Jp =>
      case Jo =>
      case Js =>
    }
  }

  /** In part1/main.go a full-width `cmp` of two registers sets the flags so
      that `je` branches when they are equal, `jb` when the first is below
      the second as unsigned numbers, and `jl` when it is less as int16,
      unless the second is 0x8000. */
  lemma CmpBranches(st: State, n: Register, m: Register)
    requires n != RegFlags
    ensures var r := ExecArith(Part1, st, Cmp, [Unsized(Reg(n, WidthFull)), Unsized(Reg(m, WidthFull))]);
      var a, b := st.regs[n], st.regs[m];
      && r.Ok?
      && (Taken(Je, r.value.regs) <==> a == b)
      && (Taken(Jb, r.value.regs) <==> a < b)
      && (b != 0x8000 ==> (Taken(Jl, r.value.regs) <==> Int16(a) < Int16(b)))
  {
    var ops := [Unsized(Reg(n, WidthFull)), Unsized(Reg(m, WidthFull))];
    var a, b := st.regs[n], st.regs[m];
    assert Load(st, ops[1]) == Ok(b);
    ArithWrites(Part1, st, Sub, ops);
    CmpIsSub(Part1, st, ops);
    SubBranches(ExecArith(Part1, st, Cmp, ops).value.regs, a, b);
  }

  /** The branches after a full-width `sub` or `cmp` of a and b, on the
      FLAGS word it leaves. */
  lemma SubBranches(rr: Registers, a: u16, b: u16)
    requires rr[RegFlags] == Arith.ArithmeticFlags(Sub, WidthFull, a, b)
    ensures Taken(Je, rr) <==> a == b
    ensures Taken(Jb, rr) <==> a < b
    ensures b != 0x8000 ==> (Taken(Jl, rr) <==> Int16(a) < Int16(b))
  {
    Arith.SubFull(a, b);
    if b != 0x8000 {
      Arith.ArithmeticFlag(Sub, WidthFull, a, b, FlagS);
      Arith.ArithmeticFlag(Sub, WidthFull, a, b, FlagO);
      Arith.SubSignedLess(a, b);
    }
  }

  /** The jump family: the loop family first decrements CX modulo 2^16;
      then IP moves by the displacement when the condition holds.  Nothing
      but CX (for the loop family) and IP changes. */
  function ExecJump(st: State, op: Op, ops: seq<Operand>): (r: Result<State>)
    requires op.IsJump()
    ensures r.Ok? ==> |ops| >= 1 && ops[0].op.Imm? && r.value.mem == st.mem
    ensures r.Ok? ==> forall k | 0 <= k < RegCount && k != RegIp && k != RegCx :: r.value.regs[k] == st.regs[k]
    ensures r.Ok? ==> r.value.regs[RegCx] == if Counts(op) then (st.regs[RegCx] as int - 1) % 0x10000 else st.regs[RegCx]
    ensures r.Ok? ==>
      var rr := st.regs[RegCx := r.value.regs[RegCx]];
      r.value.regs[RegIp] == if Taken(op, rr) then Add16(st.regs[RegIp], Uint16(ops[0].op.i)) else st.regs[RegIp]
    ensures |ops| >= 1 && ops[0].op.Imm? ==> r.Ok?
  {
    if |ops| == 0 then Err(BadOperand) else
    var rr := Counted(op, st.regs);
    var jumped :- Jumped(rr, Taken(op, rr), ops[0].op);
    Ok(st.(regs := jumped))
  }

  /** The register file a jump tests: CX decremented modulo 2^16 for the
      loop family, unchanged otherwise. */
  function Counted(op: Op, regs: Registers): (rr: Registers)
    ensures forall k | 0 <= k < RegCount && k != RegCx :: rr[k] == regs[k]
    ensures rr[RegCx] == if Counts(op) then (regs[RegCx] as int - 1) % 0x10000 else regs[RegCx]
  {
    if Counts(op) then regs[RegCx := (regs[RegCx] as int - 1) % 0x10000] else regs
  }

  /** Executes one decoded instruction on a state whose IP already points
      past it. */
  function Execute(s: Snapshot, st: State, inst: Instruction): (r: Result<State>)
    ensures r.Ok? && inst.op != Mov ==> r.value.mem == st.mem
    ensures r.Ok? && inst.op.IsJump() ==> r.value.regs[RegFlags] == st.regs[RegFlags]
  {
    match inst.op
    case Mov => ExecMov(s, st, inst.operands)
    case Add => ExecArith(s, st, Add, inst.operands)
    case Sub => ExecArith(s, st, Sub, inst.operands)
    case Cmp => ExecArith(s, st, Cmp, inst.operands)
    case _ => ExecJump(st, inst.op, inst.operands)
  }

  /** Every accumulator move (1010000w, 1010001w) fails in simulation: its
      memory operand is decoded without a size mark, which reading it as the
      source, or storing into it as the destination, refuses. */
  lemma AccumulatorMovFaults(s: Snapshot, buf: seq<u8>, ip: nat, st: State)
    requires DecodeAt(s, buf, ip).Ok? && ip < |buf| && 0xA0 <= buf[ip] <= 0xA3
    ensures Execute(s, st, DecodeAt(s, buf, ip).value.inst) == Err(UnsizedMemory)
  {
    DecodedShape(s, buf, ip);
    MovOpcodes(buf[ip], buf[ip + 1]);
    var p := Decode.DecodeInstruction(buf, ip);
    if s == Root {
      RootDecode.Agrees(buf, ip);
    }
    assert DecodeAt(s, buf, ip).value.inst == p.value.inst;
    assert p.value == Decode.DecodeMemToFromAcc(buf, ip, Mov).value;
  }

  /** The state with IP moved past an instruction of `n` bytes, wrapping at
      2^16 as the source's `regs[RegIp] += uint16(advance)` does. */
  function Advance(st: State, n: nat): State {
    st.(regs := st.regs[RegIp := Add16(st.regs[RegIp], n)])
  }

  /** One turn of the source's loop: decode at IP, advance IP by the
      instruction's length, then execute. */
  function Step(s: Snapshot, buf: seq<u8>, st: State): Result<State> {
    var d :- DecodeAt(s, buf, st.regs[RegIp]);
    Execute(s, Advance(st, d.advance), d.inst)
  }

  /** The jump family's branch condition reads only FLAGS and CX. */
  lemma TakenReads(op: Op, rr: Registers, rr2: Registers)
    requires op.IsJump()
    requires rr[RegFlags] == rr2[RegFlags] && rr[RegCx] == rr2[RegCx]
    ensures Taken(op, rr) == Taken(op, rr2)
  {
  }

  /** A step on an instruction the decoder accepts is that instruction's
      execution on the state with IP already past it. */
  lemma StepIs(s: Snapshot, buf: seq<u8>, st: State)
    requires DecodeAt(s, buf, st.regs[RegIp]).Ok?
    ensures var d := DecodeAt(s, buf, st.regs[RegIp]).value;
      Step(s, buf, st) == Execute(s, Advance(st, d.advance), d.inst)
  {
  }

  /** A decoded jump is two bytes long and its operand is the sign-extended
      second byte. */
  lemma StepJumpIs(s: Snapshot, buf: seq<u8>, st: State)
    requires DecodeAt(s, buf, st.regs[RegIp]).Ok? && DecodeAt(s, buf, st.regs[RegIp]).value.inst.op.IsJump()
    ensures var ip, d := st.regs[RegIp], DecodeAt(s, buf, st.regs[RegIp]).value;
      && ip + 2 <= |buf| && d.advance == 2
      && |d.inst.operands| >= 1 && d.inst.operands[0].op == Imm(Int8(buf[ip + 1]))
      && Step(s, buf, st) == ExecJump(Advance(st, 2), d.inst.op, d.inst.operands)
  {
    DecodedShape(s, buf, st.regs[RegIp]);
  }

  /** A jump executed after IP moved past it lands at the displacement
      from the byte after it, or stays there; FLAGS and memory keep their
      values. */
  lemma JumpAdvanced(st: State, op: Op, ops: seq<Operand>, d: i16)
    requires op.IsJump() && |ops| >= 1 && ops[0].op == Imm(d)
    ensures ExecJump(Advance(st, 2), op, ops).Ok?
    ensures var next, ip := ExecJump(Advance(st, 2), op, ops).value, st.regs[RegIp];
      && next.regs[RegIp] == (if Taken(op, Advance(st, 2).regs[RegCx := next.regs[RegCx]]) then Add16(Add16(ip, 2), Uint16(d)) else Add16(ip, 2))
      && next.regs[RegFlags] == st.regs[RegFlags]
      && next.mem == st.mem
  {
  }

  /** A step on a jump instruction moves IP to the byte after the two-byte
      instruction, plus the sign-extended displacement byte when the branch
      is taken, all modulo 2^16 (`Add16Twice` gives the sum as one
      remainder); it changes neither FLAGS nor memory. */
  lemma JumpStep(s: Snapshot, buf: seq<u8>, st: State)
    requires DecodeAt(s, buf, st.regs[RegIp]).Ok? && DecodeAt(s, buf, st.regs[RegIp]).value.inst.op.IsJump()
    ensures Step(s, buf, st).Ok?
    ensures var next, ip, op := Step(s, buf, st).value, st.regs[RegIp], DecodeAt(s, buf, st.regs[RegIp]).value.inst.op;
      && next.regs[RegIp] == (if Taken(op, st.regs[RegCx := next.regs[RegCx]]) then Add16(Add16(ip, 2), Uint16(Int8(buf[ip + 1]))) else Add16(ip, 2))
      && next.regs[RegFlags] == st.regs[RegFlags]
      && next.mem == st.mem
  {
    var ip := st.regs[RegIp];
    StepJumpIs(s, buf, st);
    var d := DecodeAt(s, buf, ip).value;
    JumpAdvanced(st, d.inst.op, d.inst.operands, Int8(buf[ip + 1]));
    var next := Step(s, buf, st).value;
    TakenReads(d.inst.op, Advance(st, 2).regs[RegCx := next.regs[RegCx]], st.regs[RegCx := next.regs[RegCx]]);
  }

  /** The registers a non-jump instruction may write: FLAGS and its
      destination register. */
  predicate Writes(inst: Instruction, k: Register) {
    k == RegFlags || (|inst.operands| >= 1 && inst.operands[0].op.Reg? && inst.operands[0].op.name == k)
  }

  /** `mov`, `add`, `sub` and `cmp` leave every other register as it was. */
  lemma ExecuteWrites(s: Snapshot, st: State, inst: Instruction, k: Register)
    requires !inst.op.IsJump() && !Writes(inst, k)
    requires Execute(s, st, inst).Ok?
    ensures Execute(s, st, inst).value.regs[k] == st.regs[k]
  {
    if inst.op != Mov && inst.operands[0].op.Reg? && inst.operands[0].op.name != RegFlags {
      var op := if inst.op == Cmp then Sub else inst.op;
      ArithWrites(s, st, op, inst.operands);
      if inst.op == Cmp {
        CmpIsSub(s, st, inst.operands);
      }
    }
  }

  /** A step on any other instruction leaves IP just past the instruction
      (modulo 2^16): the decoders never name IP as an operand, and the
      instructions write only their destination and FLAGS. */
  lemma StepAdvances(s: Snapshot, buf: seq<u8>, st: State)
    requires Step(s, buf, st).Ok?
    requires !DecodeAt(s, buf, st.regs[RegIp]).value.inst.op.IsJump()
    ensures Step(s, buf, st).value.regs[RegIp] == Add16(st.regs[RegIp], DecodeAt(s, buf, st.regs[RegIp]).value.advance)
  {
    var ip := st.regs[RegIp];
    DecodedShape(s, buf, ip);
    var d := DecodeAt(s, buf, ip).value;
    StepIs(s, buf, st);
    ExecuteWrites(s, Advance(st, d.advance), d.inst, RegIp);
  }

  /** The snapshot's step as a function value, so that the loop below can
      be reasoned about without unfolding the step. */
  function Stepper(s: Snapshot, buf: seq<u8>): State -> Result<State> {
    st => Step(s, buf, st)
  }

  /** Whether `step` is the snapshot's step at every state. */
  ghost predicate Steps(s: Snapshot, buf: seq<u8>, step: State -> Result<State>) {
    forall st {:trigger Step(s, buf, st)} :: step(st) == Step(s, buf, st)
  }

  /** `Stepper` is the snapshot's step. */
  lemma StepperSteps(s: Snapshot, buf: seq<u8>)
    ensures Steps(s, buf, Stepper(s, buf))
  {
  }

  /** The source's `for int(regs[RegIp]) < len(buf)` loop over a step, for
      at most `fuel` turns: it stops with the state once IP is at or past
      `end`, and fails with the first step that fails. */
  function Iterate(step: State -> Result<State>, end: nat, st: State, fuel: nat): (r: Result<State>)
    ensures r.Ok? ==> r.value.regs[RegIp] >= end
    ensures st.regs[RegIp] >= end ==> r == Ok(st)
    decreases fuel
  {
    if st.regs[RegIp] >= end then Ok(st)
    else if fuel == 0 then Err(OutOfFuel)
    else
      var next :- step(st);
      Iterate(step, end, next, fuel - 1)
  }

  /** More fuel never changes a loop that finished: the result does not
      depend on the bound. */
  lemma {:induction false} IterateFuel(step: State -> Result<State>, end: nat, st: State, fuel: nat, more: nat)
    requires Iterate(step, end, st, fuel).Ok?
    requires fuel <= more
    ensures Iterate(step, end, st, more) == Iterate(step, end, st, fuel)
    decreases fuel
  {
    if st.regs[RegIp] < end {
      IterateFuel(step, end, step(st).value, fuel - 1, more - 1);
    }
  }

  /** The simulation from state `st` with the snapshot's step, while IP is
      inside the program `buf`. */
  function Run(s: Snapshot, buf: seq<u8>, st: State, fuel: nat): (r: Result<State>)
    ensures r.Ok? ==> r.value.regs[RegIp] >= |buf|
    ensures st.regs[RegIp] >= |buf| ==> r == Ok(st)
  {
    Iterate(Stepper(s, buf), |buf|, st, fuel)
  }

  /** `Simulate`: the run from the all-zero state. */
  function Simulate(s: Snapshot, buf: seq<u8>, fuel: nat): (r: Result<State>)
    ensures r.Ok? ==> r.value.regs[RegIp] >= |buf|
  {
    Run(s, buf, Initial(), fuel)
  }

  /** A run that finished with some fuel finishes alike with more. */
  lemma RunFuel(s: Snapshot, buf: seq<u8>, st: State, fuel: nat, more: nat)
    requires Run(s, buf, st, fuel).Ok?
    requires fuel <= more
    ensures Run(s, buf, st, more) == Run(s, buf, st, fuel)
  {
    IterateFuel(Stepper(s, buf), |buf|, st, fuel, more);
  }

  /** A run from a state inside the program with no turns left runs out
      of fuel. */
  lemma RunOutOfFuel(s: Snapshot, buf: seq<u8>, st: State)
    requires st.regs[RegIp] < |buf|
    ensures Run(s, buf, st, 0) == Err(OutOfFuel)
  {
  }

  /** A step fails alike when the decoder fails. */
  lemma StepDecodeFails(s: Snapshot, buf: seq<u8>, st: State)
    requires DecodeAt(s, buf, st.regs[RegIp]).Err?
    ensures Step(s, buf, st) == Err(DecodeAt(s, buf, st.regs[RegIp]).fault)
  {
  }

  /** A run from a state inside the program whose step fails fails with
      the step's fault. */
  lemma RunFails(s: Snapshot, buf: seq<u8>, st: State, fuel: nat)
    requires st.regs[RegIp] < |buf| && fuel > 0 && Step(s, buf, st).Err?
    ensures Run(s, buf, st, fuel) == Err(Step(s, buf, st).fault)
  {
    assert Stepper(s, buf)(st) == Step(s, buf, st);
  }

  /** One turn of a run: from a state inside the program whose instruction
      decodes, the run is the run after that instruction's execution, or its
      fault. */
  lemma RunTurn(s: Snapshot, buf: seq<u8>, st: State, fuel: nat)
    requires st.regs[RegIp] < |buf| && fuel > 0 && DecodeAt(s, buf, st.regs[RegIp]).Ok?
    ensures var d := DecodeAt(s, buf, st.regs[RegIp]).value;
      var e := Execute(s, Advance(st, d.advance), d.inst);
      Run(s, buf, st, fuel) == if e.Ok? then Run(s, buf, e.value, fuel - 1) else Err(e.fault)
  {
    StepIs(s, buf, st);
    if Step(s, buf, st).Ok? {
      RunSteps(s, buf, st, fuel);
    } else {
      RunFails(s, buf, st, fuel);
    }
  }

  /** A run from a state inside the program whose instruction does not
      decode fails with the decoder's fault. */
  lemma RunDecodeFails(s: Snapshot, buf: seq<u8>, st: State, fuel: nat)
    requires st.regs[RegIp] < |buf| && fuel > 0 && DecodeAt(s, buf, st.regs[RegIp]).Err?
    ensures Run(s, buf, st, fuel) == Err(DecodeAt(s, buf, st.regs[RegIp]).fault)
  {
    StepDecodeFails(s, buf, st);
    RunFails(s, buf, st, fuel);
  }

  /** A run from a state inside the program is a step followed by the run
      from the next state. */
  lemma RunSteps(s: Snapshot, buf: seq<u8>, st: State, fuel: nat)
    requires st.regs[RegIp] < |buf| && fuel > 0 && Step(s, buf, st).Ok?
    ensures Run(s, buf, st, fuel) == Run(s, buf, Step(s, buf, st).value, fuel - 1)
  {
    assert Stepper(s, buf)(st) == Step(s, buf, st);
  }
}
