/** The instruction decoder of part1/main.go: one instruction at a time from
    a byte buffer, yielding the instruction and how many bytes it occupied. */
module Decode {
  import opened Bits
  import opened Outcomes
  import opened Types

  /** A decoded instruction and its length in bytes (the source's
      `(in, advance)` pair). */
  datatype Decoded = Decoded(inst: Instruction, advance: nat)

  /** The source's `buf[from : from+n]`, failing where the slice would run
      past the end of the buffer. */
  function Bytes(buf: seq<u8>, from: nat, n: nat): (r: Result<seq<u8>>)
    ensures r.Ok? <==> from + n <= |buf|
    ensures r.Ok? ==> |r.value| == n && forall k | 0 <= k < n :: r.value[k] == buf[from + k]
  {
    if from + n <= |buf| then Ok(buf[from..from + n]) else Err(Truncated)
  }

  /** How many displacement bytes follow the mod-reg-r/m byte (Intel 8086
      Family User's Manual, Table 4-10): none for register mode and for
      memory mode without displacement, one for MOD=01, two for MOD=10 and
      for the direct address (MOD=00, R/M=110). */
  function DispBytes(mode: nat, rm: nat): (n: nat)
    ensures n <= 2
  {
    if mode == 1 then 1
    else if mode == 2 || (mode == 0 && rm == 6) then 2
    else 0
  }

  /** The operand a MOD and R/M field pair denotes (source `RmOperand`), with
      the length so far of an instruction whose mod-reg-r/m byte is at
      `ip+1` (already read by the caller): a register at MOD=11, otherwise a memory reference sized by W
      whose displacement is read from the bytes after the mod-reg-r/m
      byte. */
  function RmOperand(buf: seq<u8>, ip: nat, mode: nat, rm: nat, w: nat): (r: Result<(Operand, nat)>)
    requires mode < 4 && rm < 8 && w < 2
    requires ip + 2 <= |buf|
    ensures r.Ok? <==> ip + 2 + DispBytes(mode, rm) <= |buf|
    ensures r.Ok? ==> r.value.1 == 2 + DispBytes(mode, rm)
    ensures r.Ok? && mode == 3 ==> r.value.0 == Unsized(RegisterOf(rm, w))
    ensures r.Ok? && mode != 3 ==>
      var o := r.value.0;
      && o.size == SizeFrom(w) && o.op.Displacement?
      && (o.op.kind == DispEA <==> mode == 0 && rm == 6)
      && (o.op.kind != DispEA ==> o.op.kind == DisplacementKind(rm))
      && (mode == 0 && rm != 6 ==> o.op.disp == 0)
      && (mode == 1 ==> o.op.disp == Int8(buf[ip + 2]))
      && (DispBytes(mode, rm) == 2 ==> Uint16(o.op.disp) == Word(buf[ip + 2], buf[ip + 3]))
  {
    if mode == 3 then
      Ok((Unsized(RegisterOf(rm, w)), 2))
    else if mode == 0 && rm == 6 then
      var bb :- Bytes(buf, ip + 2, 2);
      Ok((Operand(SizeFrom(w), Displacement(DispEA, Int16(OperandUnsigned(bb)))), 4))
    else if mode == 0 then
      Ok((Operand(SizeFrom(w), Displacement(DisplacementKind(rm), 0)), 2))
    else if mode == 1 then
      var bb :- Bytes(buf, ip + 2, 1);
      Ok((Operand(SizeFrom(w), Displacement(DisplacementKind(rm), OperandSigned(bb))), 3))
    else
      var bb :- Bytes(buf, ip + 2, 2);
      Ok((Operand(SizeFrom(w), Displacement(DisplacementKind(rm), OperandSigned(bb))), 4))
  }

  /** The D bit (bit 1 of byte 1): the REG field names the destination. */
  function DBit(b1: u8): (d: nat)
    ensures d < 2
  {
    (b1 / 2) % 2
  }

  /** The W bit (bit 0 of byte 1): word rather than byte operation. */
  function WBit(b1: u8): (w: nat)
    ensures w < 2
  {
    b1 % 2
  }

  /** The MOD field (bits 7-6 of byte 2). */
  function ModField(b2: u8): (mode: nat)
    ensures mode < 4
  {
    b2 / 64
  }

  /** The R/M field (bits 2-0 of byte 2). */
  function RmField(b2: u8): (rm: nat)
    ensures rm < 8
  {
    b2 % 8
  }

  /** Byte 1 is its top six bits (the opcode), then D, then W. */
  lemma OpcodeFields(b1: u8)
    ensures b1 == (b1 / 4) * 4 + DBit(b1) * 2 + WBit(b1)
  {
  }

  /** The ModR/M byte is MOD, REG and R/M from the top down. */
  lemma ModRmFields(b2: u8)
    ensures b2 == ModField(b2) * 64 + RegField(b2) * 8 + RmField(b2)
  {
  }

  /** The accumulator at the width of W: AL or AX. */
  function Accumulator(w: nat): (r: OperandType)
    requires w < 2
    ensures r == RegisterOf(0, w)
  {
    Reg(RegAx, if w == 0 then WidthLo else WidthFull)
  }

  /** What every decoded instruction satisfies: 2 to 6 bytes, all inside the
      buffer, the classified operation, one operand for the jump family and
      two otherwise, and registers drawn from the general and segment
      registers only (never IP or FLAGS). */
  predicate Shaped(d: Decoded, buf: seq<u8>, ip: nat, op: Op) {
    && 2 <= d.advance <= 6 && ip + d.advance <= |buf|
    && d.inst.op == op
    && |d.inst.operands| == (if op.IsJump() then 1 else 2)
    && (forall k | 0 <= k < |d.inst.operands| ::
          d.inst.operands[k].op.Reg? ==> d.inst.operands[k].op.name < RegIp)
  }

  /** Register/memory to/from register: D=1 makes the REG operand the
      destination. */
  function DecodeRmToFromRm(buf: seq<u8>, ip: nat, op: Op): (r: Result<Decoded>)
    requires ip + 2 <= |buf| && !op.IsJump()
    ensures r.Ok? <==> ip + 2 + DispBytes(ModField(buf[ip + 1]), RmField(buf[ip + 1])) <= |buf|
    ensures r.Err? ==> r == Err(Truncated)
    ensures r.Ok? ==> Shaped(r.value, buf, ip, op)
    ensures r.Ok? ==> r.value.advance == 2 + DispBytes(ModField(buf[ip + 1]), RmField(buf[ip + 1]))
    ensures r.Ok? ==>
      var regOp := Unsized(RegisterOf(RegField(buf[ip + 1]), WBit(buf[ip])));
      var rmOp := RmOperand(buf, ip, ModField(buf[ip + 1]), RmField(buf[ip + 1]), WBit(buf[ip])).value.0;
      r.value.inst.operands == if DBit(buf[ip]) == 1 then [regOp, rmOp] else [rmOp, regOp]
  {
    var b1, b2 := buf[ip], buf[ip + 1];
    var (rmOp, advance) :- RmOperand(buf, ip, ModField(b2), RmField(b2), WBit(b1));
    var regOp := Unsized(RegisterOf(RegField(b2), WBit(b1)));
    var operands := if DBit(b1) == 1 then [regOp, rmOp] else [rmOp, regOp];
    Ok(Decoded(Instruction(op, operands), advance))
  }

  /** The length of an immediate-to-register/memory instruction: the
      mod-reg-r/m form's bytes, then one sign-extended immediate byte when
      the op is not `mov` and bit 1 of byte 1 is set, or 1+W bytes. */
  function ImmToRmLength(op: Op, b1: u8, b2: u8): nat {
    2 + DispBytes(ModField(b2), RmField(b2)) + (if op != Mov && DBit(b1) == 1 then 1 else 1 + WBit(b1))
  }

  /** Immediate to register/memory: a single sign-extended byte when the op
      is not `mov` and bit 1 of byte 1 is set, otherwise 1+W unsigned bytes. */
  function DecodeImmToRm(buf: seq<u8>, ip: nat, op: Op): (r: Result<Decoded>)
    requires ip + 2 <= |buf| && !op.IsJump()
    ensures r.Ok? <==> ip + ImmToRmLength(op, buf[ip], buf[ip + 1]) <= |buf|
    ensures r.Err? ==> r == Err(Truncated)
    ensures r.Ok? ==> Shaped(r.value, buf, ip, op)
    ensures r.Ok? ==> r.value.advance == ImmToRmLength(op, buf[ip], buf[ip + 1])
    ensures r.Ok? ==> r.value.inst.operands[0] == RmOperand(buf, ip, ModField(buf[ip + 1]), RmField(buf[ip + 1]), WBit(buf[ip])).value.0
    ensures r.Ok? ==> r.value.inst.operands[1].size == SizeNone
    ensures r.Ok? && op != Mov && DBit(buf[ip]) == 1 ==>
      var n := r.value.advance; r.value.inst.operands[1].op == Imm(Int8(buf[ip + n - 1]))
    ensures r.Ok? && !(op != Mov && DBit(buf[ip]) == 1) ==>
      var n, w := r.value.advance, WBit(buf[ip]);
      r.value.inst.operands[1].op == ImmU(OperandUnsigned(buf[ip + n - 1 - w..ip + n]))
  {
    var b1, b2 := buf[ip], buf[ip + 1];
    var (dst, offset) :- RmOperand(buf, ip, ModField(b2), RmField(b2), WBit(b1));
    var (src, n) :- Immediate(buf, ip + offset, op != Mov && DBit(b1) == 1, WBit(b1));
    Ok(Decoded(Instruction(op, [dst, src]), offset + n))
  }

  /** The immediate of the immediate-to-register/memory form at `at`: one
      sign-extended byte, or 1+W unsigned bytes; unsized either way. */
  function Immediate(buf: seq<u8>, at: nat, signed: bool, w: nat): (r: Result<(Operand, nat)>)
    requires w < 2
    ensures r.Ok? <==> at + (if signed then 1 else 1 + w) <= |buf|
    ensures r.Err? ==> r == Err(Truncated)
    ensures r.Ok? ==> r.value.1 == (if signed then 1 else 1 + w) && r.value.0.size == SizeNone
    ensures r.Ok? && signed ==> r.value.0.op == Imm(Int8(buf[at]))
    ensures r.Ok? && !signed ==> r.value.0.op == ImmU(OperandUnsigned(buf[at..at + 1 + w]))
  {
    if signed then
      var bb :- Bytes(buf, at, 1);
      Ok((Unsized(Imm(OperandSigned(bb))), 1))
    else
      var bb :- Bytes(buf, at, 1 + w);
      Ok((Unsized(ImmU(OperandUnsigned(bb))), 1 + w))
  }

  /** Memory to/from accumulator: a direct address in the two bytes after the
      opcode, and AL or AX. */
  function DecodeMemToFromAcc(buf: seq<u8>, ip: nat, op: Op): (r: Result<Decoded>)
    requires ip + 2 <= |buf| && !op.IsJump()
    ensures r.Ok? <==> ip + 3 <= |buf|
    ensures r.Err? ==> r == Err(Truncated)
    ensures r.Ok? ==> Shaped(r.value, buf, ip, op) && r.value.advance == 3
    ensures r.Ok? ==>
      var acc := Unsized(Accumulator(WBit(buf[ip])));
      var mem := Unsized(Displacement(DispEA, OperandSigned(buf[ip + 1..ip + 3])));
      r.value.inst.operands == if DBit(buf[ip]) == 0 then [acc, mem] else [mem, acc]
  {
    var b1 := buf[ip];
    var bb :- Bytes(buf, ip + 1, 2);
    var disp := Displacement(DispEA, OperandSigned(bb));
    var reg := Accumulator(WBit(b1));
    var operands := if DBit(b1) == 0 then [Unsized(reg), Unsized(disp)] else [Unsized(disp), Unsized(reg)];
    Ok(Decoded(Instruction(op, operands), 3))
  }

  /** Immediate to register: W is bit 3 and REG bits 2-0 of byte 1. */
  function DecodeImmToReg(buf: seq<u8>, ip: nat, op: Op): (r: Result<Decoded>)
    requires ip + 2 <= |buf| && !op.IsJump()
    ensures r.Ok? <==> ip + 2 + (buf[ip] / 8) % 2 <= |buf|
    ensures r.Err? ==> r == Err(Truncated)
    ensures r.Ok? ==> Shaped(r.value, buf, ip, op)
    ensures r.Ok? ==> r.value.advance == 2 + (buf[ip] / 8) % 2
    ensures r.Ok? ==> r.value.inst.operands[0] == Unsized(RegisterOf(buf[ip] % 8, (buf[ip] / 8) % 2))
    ensures r.Ok? ==> r.value.inst.operands[1] == Unsized(Imm(OperandSigned(buf[ip + 1..ip + r.value.advance])))
  {
    var b1 := buf[ip];
    var w := (b1 / 8) % 2;
    var bb :- Bytes(buf, ip + 1, 1 + w);
    Ok(Decoded(Instruction(op, [Unsized(RegisterOf(b1 % 8, w)), Unsized(Imm(OperandSigned(bb)))]), 2 + w))
  }

  /** Immediate to accumulator: 1+W bytes after the opcode. */
  function DecodeImmToAcc(buf: seq<u8>, ip: nat, op: Op): (r: Result<Decoded>)
    requires ip + 2 <= |buf| && !op.IsJump()
    ensures r.Ok? <==> ip + 2 + WBit(buf[ip]) <= |buf|
    ensures r.Err? ==> r == Err(Truncated)
    ensures r.Ok? ==> Shaped(r.value, buf, ip, op)
    ensures r.Ok? ==> r.value.advance == 2 + WBit(buf[ip])
    ensures r.Ok? ==> r.value.inst.operands[0] == Unsized(Accumulator(WBit(buf[ip])))
    ensures r.Ok? ==> r.value.inst.operands[1] == Unsized(Imm(OperandSigned(buf[ip + 1..ip + r.value.advance])))
  {
    var w := WBit(buf[ip]);
    var bb :- Bytes(buf, ip + 1, 1 + w);
    Ok(Decoded(Instruction(op, [Unsized(Accumulator(w)), Unsized(Imm(OperandSigned(bb)))]), 2 + w))
  }

  /** The segment-register moves: SR in bits 4-3 of byte 2, a word-sized
      register/memory operand, and the segment register as the destination
      when moving into it.  Bit 5 of byte 2 set is an illegal instruction. */
  function DecodeSegment(buf: seq<u8>, ip: nat, op: Op, toSeg: bool): (r: Result<Decoded>)
    requires ip + 2 <= |buf| && !op.IsJump()
    ensures (buf[ip + 1] / 32) % 2 != 0 ==> r == Err(IllegalInstruction)
    ensures (buf[ip + 1] / 32) % 2 == 0 ==>
      (r.Ok? <==> ip + 2 + DispBytes(ModField(buf[ip + 1]), RmField(buf[ip + 1])) <= |buf|)
    ensures (buf[ip + 1] / 32) % 2 == 0 && r.Err? ==> r == Err(Truncated)
    ensures r.Ok? ==> Shaped(r.value, buf, ip, op)
    ensures r.Ok? ==> r.value.advance == 2 + DispBytes(ModField(buf[ip + 1]), RmField(buf[ip + 1]))
    ensures r.Ok? ==>
      var seg := Unsized(Segment((buf[ip + 1] / 8) % 4));
      var rmOp := RmOperand(buf, ip, ModField(buf[ip + 1]), RmField(buf[ip + 1]), 1).value.0;
      r.value.inst.operands == if toSeg then [seg, rmOp] else [rmOp, seg]
  {
    var b2 := buf[ip + 1];
    if (b2 / 32) % 2 != 0 then Err(IllegalInstruction) else
    var (rmOp, advance) :- RmOperand(buf, ip, ModField(b2), RmField(b2), 1);
    var seg := Unsized(Segment((b2 / 8) % 4));
    Ok(Decoded(Instruction(op, if toSeg then [seg, rmOp] else [rmOp, seg]), advance))
  }

  /** The jump family: one sign-extended displacement byte. */
  function DecodeJump(buf: seq<u8>, ip: nat, op: Op): (r: Result<Decoded>)
    requires ip + 2 <= |buf| && op.IsJump()
    ensures r.Ok? && Shaped(r.value, buf, ip, op)
    ensures r.value.advance == 2 && r.value.inst.operands[0] == Unsized(Imm(Int8(buf[ip + 1])))
  {
    Ok(Decoded(Instruction(op, [Unsized(Imm(OperandSigned(buf[ip + 1..ip + 2])))]), 2))
  }

  /** A segment-register move whose byte 2 has bit 5 set: the source's
      "illegal instruction" panic. */
  predicate Illegal(o: OpDescr, b2: u8) {
    (o.kind == RmToSeg || o.kind == SegToRm) && (b2 / 32) % 2 != 0
  }

  /** The length in bytes of an instruction of each family, by the fields of
      its first two bytes (Intel 8086 Family User's Manual, Table 4-12). */
  function Length(o: OpDescr, b1: u8, b2: u8): (n: nat)
    ensures 2 <= n <= 6
  {
    match o.kind
    case RmToFromRm => 2 + DispBytes(ModField(b2), RmField(b2))
    case RmToSeg => 2 + DispBytes(ModField(b2), RmField(b2))
    case SegToRm => 2 + DispBytes(ModField(b2), RmField(b2))
    case ImmToRm => ImmToRmLength(o.op, b1, b2)
    case MemToFromAcc => 3
    case ImmToReg => 2 + (b1 / 8) % 2
    case ImmToAcc => 2 + WBit(b1)
    case CondJmp => 2
  }

  /** The source's `DecodeInstruction`: classify the first two bytes, then
      read the family's fields and operands.  The result is the instruction
      and its length; the failures are the source's panics (an unknown
      opcode, a segment move with bit 5 of byte 2 set, or bytes missing at
      the end of the buffer). */
  function DecodeInstruction(buf: seq<u8>, ip: nat): (r: Result<Decoded>)
    ensures ip + 2 > |buf| ==> r == Err(Truncated)
    ensures ip + 2 <= |buf| && Operation(buf[ip], buf[ip + 1]).Err? ==>
      r == Err(Unimplemented(buf[ip], buf[ip + 1]))
    ensures ip + 2 <= |buf| && Operation(buf[ip], buf[ip + 1]).Ok? && Illegal(Operation(buf[ip], buf[ip + 1]).value, buf[ip + 1]) ==>
      r == Err(IllegalInstruction)
    ensures ip + 2 <= |buf| && Operation(buf[ip], buf[ip + 1]).Ok? && !Illegal(Operation(buf[ip], buf[ip + 1]).value, buf[ip + 1]) ==>
      (r.Ok? <==> ip + Length(Operation(buf[ip], buf[ip + 1]).value, buf[ip], buf[ip + 1]) <= |buf|)
    ensures ip + 2 <= |buf| && Operation(buf[ip], buf[ip + 1]).Ok? && !Illegal(Operation(buf[ip], buf[ip + 1]).value, buf[ip + 1]) && r.Err? ==>
      r == Err(Truncated)
    ensures r.Ok? ==> r.value.advance == Length(Operation(buf[ip], buf[ip + 1]).value, buf[ip], buf[ip + 1])
    ensures r.Ok? ==> Shaped(r.value, buf, ip, Operation(buf[ip], buf[ip + 1]).value.op)
    ensures r.Ok? && r.value.inst.op.IsJump() ==>
      r.value.advance == 2 && r.value.inst.operands[0] == Unsized(Imm(Int8(buf[ip + 1])))
  {
    if ip + 2 > |buf| then Err(Truncated) else
    var o :- Operation(buf[ip], buf[ip + 1]);
    match o.kind
    case RmToFromRm => DecodeRmToFromRm(buf, ip, o.op)
    case ImmToRm => DecodeImmToRm(buf, ip, o.op)
    case MemToFromAcc => DecodeMemToFromAcc(buf, ip, o.op)
    case ImmToReg => DecodeImmToReg(buf, ip, o.op)
    case ImmToAcc => DecodeImmToAcc(buf, ip, o.op)
    case RmToSeg => DecodeSegment(buf, ip, o.op, true)
    case SegToRm => DecodeSegment(buf, ip, o.op, false)
    case CondJmp => DecodeJump(buf, ip, o.op)
  }

  // ---------------------------------------------------------------------
  // Locality: an instruction is decoded from its own bytes only

  /** The `n` bytes at `ip` in `buf` are the `n` bytes at `ip2` in `buf2`. */
  predicate SameBytes(buf: seq<u8>, ip: nat, buf2: seq<u8>, ip2: nat, n: nat) {
    ip + n <= |buf| && ip2 + n <= |buf2| && buf[ip..ip + n] == buf2[ip2..ip2 + n]
  }

  lemma SameByte(buf: seq<u8>, ip: nat, buf2: seq<u8>, ip2: nat, n: nat, k: nat)
    requires SameBytes(buf, ip, buf2, ip2, n) && k < n
    ensures buf[ip + k] == buf2[ip2 + k]
  {
    assert buf[ip..ip + n][k] == buf2[ip2..ip2 + n][k];
  }

  lemma BytesLocal(buf: seq<u8>, ip: nat, buf2: seq<u8>, ip2: nat, n: nat, from: nat, m: nat)
    requires SameBytes(buf, ip, buf2, ip2, n) && from + m <= n
    ensures Bytes(buf, ip + from, m) == Bytes(buf2, ip2 + from, m)
  {
    var a, b := buf[ip + from..ip + from + m], buf2[ip2 + from..ip2 + from + m];
    forall k | 0 <= k < m
      ensures a[k] == b[k]
    {
      SameByte(buf, ip, buf2, ip2, n, from + k);
    }
    assert a == b;
  }

  lemma RmLocal(buf: seq<u8>, ip: nat, buf2: seq<u8>, ip2: nat, n: nat, mode: nat, rm: nat, w: nat)
    requires mode < 4 && rm < 8 && w < 2
    requires 2 + DispBytes(mode, rm) <= n && SameBytes(buf, ip, buf2, ip2, n)
    ensures RmOperand(buf, ip, mode, rm, w) == RmOperand(buf2, ip2, mode, rm, w)
  {
    BytesLocal(buf, ip, buf2, ip2, n, 2, DispBytes(mode, rm));
  }

  lemma ImmToRmLocal(buf: seq<u8>, ip: nat, buf2: seq<u8>, ip2: nat, op: Op)
    requires ip + 2 <= |buf| && !op.IsJump()
    requires SameBytes(buf, ip, buf2, ip2, ImmToRmLength(op, buf[ip], buf[ip + 1]))
    ensures buf[ip] == buf2[ip2] && buf[ip + 1] == buf2[ip2 + 1]
    ensures DecodeImmToRm(buf, ip, op) == DecodeImmToRm(buf2, ip2, op)
  {
    var n := ImmToRmLength(op, buf[ip], buf[ip + 1]);
    SameByte(buf, ip, buf2, ip2, n, 0);
    SameByte(buf, ip, buf2, ip2, n, 1);
    var b1, b2 := buf[ip], buf[ip + 1];
    var mode, rm := ModField(b2), RmField(b2);
    RmLocal(buf, ip, buf2, ip2, n, mode, rm, WBit(b1));
    var signed, w := op != Mov && DBit(b1) == 1, WBit(b1);
    var off := 2 + DispBytes(mode, rm);
    BytesLocal(buf, ip, buf2, ip2, n, off, if signed then 1 else 1 + w);
    assert Immediate(buf, ip + off, signed, w) == Immediate(buf2, ip2 + off, signed, w);
  }

  /** Decoding reads only the instruction's own bytes: the same bytes
      anywhere, in any buffer, decode to the same instruction and length. */
  lemma DecodeLocal(buf: seq<u8>, ip: nat, buf2: seq<u8>, ip2: nat)
    requires DecodeInstruction(buf, ip).Ok?
    requires SameBytes(buf, ip, buf2, ip2, DecodeInstruction(buf, ip).value.advance)
    ensures DecodeInstruction(buf2, ip2) == DecodeInstruction(buf, ip)
  {
    var n := DecodeInstruction(buf, ip).value.advance;
    SameByte(buf, ip, buf2, ip2, n, 0);
    SameByte(buf, ip, buf2, ip2, n, 1);
    var b1, b2 := buf[ip], buf[ip + 1];
    var o := Operation(b1, b2).value;
    match o.kind
    case RmToFromRm => RmLocal(buf, ip, buf2, ip2, n, ModField(b2), RmField(b2), WBit(b1));
    case RmToSeg => RmLocal(buf, ip, buf2, ip2, n, ModField(b2), RmField(b2), 1);
    case SegToRm => RmLocal(buf, ip, buf2, ip2, n, ModField(b2), RmField(b2), 1);
    case ImmToRm => ImmToRmLocal(buf, ip, buf2, ip2, o.op);
    case MemToFromAcc => BytesLocal(buf, ip, buf2, ip2, n, 1, 2);
    case ImmToReg => BytesLocal(buf, ip, buf2, ip2, n, 1, 1 + (b1 / 8) % 2);
    case ImmToAcc => BytesLocal(buf, ip, buf2, ip2, n, 1, 1 + WBit(b1));
    case CondJmp => BytesLocal(buf, ip, buf2, ip2, n, 1, 1);
  }
}
