/** The data model of the decoder and simulator (types.go): operations and
    their encoding families, the opcode classifier, the register file and
    its flag bits, operands, and the little-endian byte readers. */
module Types {
  import opened Bits
  import opened Outcomes

  /** The modelled subset of the 8086 instruction set. */
  datatype Op =
    | Mov | Add | Sub | Cmp
    | Je | Jl | Jle | Jb | Jbe | Jp | Jo | Js
    | Jne | Jnl | Jnle | Jnb | Jnbe | Jnp | Jno | Jns
    | Loop | Loopz | Loopnz | Jcxz
  {
    /** The source's `OpJe <= op && op <= OpJcxz`: the operations whose one
        operand is a relative jump displacement. */
    predicate IsJump() {
      !(Mov? || Add? || Sub? || Cmp?)
    }
  }

  /** The encoding families the first instruction byte selects. */
  datatype OpKind =
    | RmToFromRm    // register/memory to/from register
    | MemToFromAcc  // memory to/from accumulator
    | ImmToRm       // immediate to register/memory
    | ImmToReg      // immediate to register
    | ImmToAcc      // immediate to accumulator
    | RmToSeg       // register/memory to segment register
    | SegToRm       // segment register to register/memory
    | CondJmp       // conditional jumps, the loop family and jcxz

  datatype OpDescr = OpDescr(kind: OpKind, op: Op)

  /** The one-byte opcodes (Intel 8086 Family User's Manual, Table 4-12)
      that select a family by all eight bits of byte 1. */
  function FullByteOperation(b1: u8): (r: Result<OpDescr>)
    ensures r.Ok? ==> r.value.kind in {RmToSeg, SegToRm, CondJmp}
    ensures r.Ok? ==> (r.value.kind == CondJmp <==> r.value.op.IsJump())
  {
    match b1
    case 0x8E => Ok(OpDescr(RmToSeg, Mov))   // 10001110
    case 0x8C => Ok(OpDescr(SegToRm, Mov))   // 10001100
    case 0x74 => Ok(OpDescr(CondJmp, Je))    // 01110100
    case 0x7C => Ok(OpDescr(CondJmp, Jl))    // 01111100
    case 0x7E => Ok(OpDescr(CondJmp, Jle))   // 01111110
    case 0x72 => Ok(OpDescr(CondJmp, Jb))    // 01110010
    case 0x76 => Ok(OpDescr(CondJmp, Jbe))   // 01110110
    case 0x7A => Ok(OpDescr(CondJmp, Jp))    // 01111010
    case 0x70 => Ok(OpDescr(CondJmp, Jo))    // 01110000
    case 0x78 => Ok(OpDescr(CondJmp, Js))    // 01111000
    case 0x75 => Ok(OpDescr(CondJmp, Jne))   // 01110101
    case 0x7D => Ok(OpDescr(CondJmp, Jnl))   // 01111101
    case 0x7F => Ok(OpDescr(CondJmp, Jnle))  // 01111111
    case 0x73 => Ok(OpDescr(CondJmp, Jnb))   // 01110011
    case 0x77 => Ok(OpDescr(CondJmp, Jnbe))  // 01110111
    case 0x7B => Ok(OpDescr(CondJmp, Jnp))   // 01111011
    case 0x71 => Ok(OpDescr(CondJmp, Jno))   // 01110001
    case 0x79 => Ok(OpDescr(CondJmp, Jns))   // 01111001
    case 0xE2 => Ok(OpDescr(CondJmp, Loop))  // 11100010
    case 0xE1 => Ok(OpDescr(CondJmp, Loopz)) // 11100001
    case 0xE0 => Ok(OpDescr(CondJmp, Loopnz)) // 11100000
    case 0xE3 => Ok(OpDescr(CondJmp, Jcxz))  // 11100011
    case _ => Err(Unimplemented(b1, 0))
  }

  /** Bits 5-3 of byte 2 (the REG field), which pick the operation of the
      immediate group. */
  function RegField(b2: u8): (r: nat)
    ensures r < 8
  {
    (b2 / 8) % 8
  }

  /** The classifier (source `operation`): the family and operation the first
      two bytes select, or the "unimplemented instruction" failure naming both
      bytes.  The top six bits of byte 1 decide first, then the top four, then
      all eight. */
  function Operation(b1: u8, b2: u8): (r: Result<OpDescr>)
    ensures r.Err? ==> r.fault == Unimplemented(b1, b2)
    ensures r.Ok? ==> (r.value.kind == CondJmp <==> r.value.op.IsJump())
  {
    var top6 := b1 / 4;
    if top6 == 0x00 then Ok(OpDescr(RmToFromRm, Add))          // 000000
    else if top6 == 0x01 then Ok(OpDescr(ImmToAcc, Add))       // 000001
    else if top6 == 0x22 then Ok(OpDescr(RmToFromRm, Mov))     // 100010
    else if top6 == 0x31 then Ok(OpDescr(ImmToRm, Mov))        // 110001
    else if top6 == 0x28 then Ok(OpDescr(MemToFromAcc, Mov))   // 101000
    else if top6 == 0x0A then Ok(OpDescr(RmToFromRm, Sub))     // 001010
    else if top6 == 0x0B then Ok(OpDescr(ImmToAcc, Sub))       // 001011
    else if top6 == 0x0E then Ok(OpDescr(RmToFromRm, Cmp))     // 001110
    else if top6 == 0x0F then Ok(OpDescr(ImmToAcc, Cmp))       // 001111
    else if top6 == 0x20 && RegField(b2) == 0 then Ok(OpDescr(ImmToRm, Add))  // 100000, 000
    else if top6 == 0x20 && RegField(b2) == 5 then Ok(OpDescr(ImmToRm, Sub))  // 100000, 101
    else if top6 == 0x20 && RegField(b2) == 7 then Ok(OpDescr(ImmToRm, Cmp))  // 100000, 111
    else if b1 / 16 == 0x0B then Ok(OpDescr(ImmToReg, Mov))    // 1011
    else match FullByteOperation(b1)
      case Ok(d) => Ok(d)
      case Err(_) => Err(Unimplemented(b1, b2))
  }

  /** The immediate group 100000sw: the REG field of byte 2 picks add (000),
      sub (101) or cmp (111); every other REG value is unimplemented. */
  lemma ImmGroup(b1: u8, b2: u8)
    requires 0x80 <= b1 <= 0x83
    ensures Operation(b1, b2).Ok? <==> RegField(b2) in {0, 5, 7}
    ensures RegField(b2) == 0 ==> Operation(b1, b2) == Ok(OpDescr(ImmToRm, Add))
    ensures RegField(b2) == 5 ==> Operation(b1, b2) == Ok(OpDescr(ImmToRm, Sub))
    ensures RegField(b2) == 7 ==> Operation(b1, b2) == Ok(OpDescr(ImmToRm, Cmp))
  {
    assert b1 / 4 == 0x20;
  }

  /** mov immediate to register, 1011wreg: any byte 2. */
  lemma ImmToRegAny(b1: u8, b2: u8)
    requires 0xB0 <= b1 <= 0xBF
    ensures Operation(b1, b2) == Ok(OpDescr(ImmToReg, Mov))
  {
    assert b1 / 16 == 0x0B;
  }

  /** The add, sub and cmp opcodes selected by their top six bits
      (00000dw, 0000010w, 001010dw, 0010110w, 001110dw, 0011110w). */
  lemma ArithOpcodes(b1: u8, b2: u8)
    ensures b1 <= 0x03 ==> Operation(b1, b2) == Ok(OpDescr(RmToFromRm, Add))
    ensures 0x04 <= b1 <= 0x07 ==> Operation(b1, b2) == Ok(OpDescr(ImmToAcc, Add))
    ensures 0x28 <= b1 <= 0x2B ==> Operation(b1, b2) == Ok(OpDescr(RmToFromRm, Sub))
    ensures 0x2C <= b1 <= 0x2F ==> Operation(b1, b2) == Ok(OpDescr(ImmToAcc, Sub))
    ensures 0x38 <= b1 <= 0x3B ==> Operation(b1, b2) == Ok(OpDescr(RmToFromRm, Cmp))
    ensures 0x3C <= b1 <= 0x3F ==> Operation(b1, b2) == Ok(OpDescr(ImmToAcc, Cmp))
  {
  }

  /** The mov opcodes: 100010dw, 1100011w, 1010000w/1010001w, and the two
      segment moves 10001110 and 10001100, which need all eight bits. */
  lemma MovOpcodes(b1: u8, b2: u8)
    ensures 0x88 <= b1 <= 0x8B ==> Operation(b1, b2) == Ok(OpDescr(RmToFromRm, Mov))
    ensures 0xC4 <= b1 <= 0xC7 ==> Operation(b1, b2) == Ok(OpDescr(ImmToRm, Mov))
    ensures 0xA0 <= b1 <= 0xA3 ==> Operation(b1, b2) == Ok(OpDescr(MemToFromAcc, Mov))
    ensures b1 == 0x8E ==> Operation(b1, b2) == Ok(OpDescr(RmToSeg, Mov))
    ensures b1 == 0x8C ==> Operation(b1, b2) == Ok(OpDescr(SegToRm, Mov))
  {
  }

  /** The one-byte opcode of each jump (Intel 8086 Family User's Manual,
      Table 4-12), written as an encoder. */
  function JumpOpcode(op: Op): (b1: u8)
    requires op.IsJump()
  {
    match op
    case Jo => 0x70   case Jno => 0x71  case Jb => 0x72   case Jnb => 0x73
    case Je => 0x74   case Jne => 0x75  case Jbe => 0x76  case Jnbe => 0x77
    case Js => 0x78   case Jns => 0x79  case Jp => 0x7A   case Jnp => 0x7B
    case Jl => 0x7C   case Jnl => 0x7D  case Jle => 0x7E  case Jnle => 0x7F
    case Loopnz => 0xE0  case Loopz => 0xE1  case Loop => 0xE2  case Jcxz => 0xE3
  }

  /** Classifying a jump's opcode gives that jump back, whatever byte 2 is. */
  lemma JumpRoundTrip(op: Op, b2: u8)
    requires op.IsJump()
    ensures Operation(JumpOpcode(op), b2) == Ok(OpDescr(CondJmp, op))
  {
  }

  /** Conversely, a byte classified as a jump is that jump's opcode. */
  lemma JumpOpcodeOf(b1: u8, b2: u8)
    requires Operation(b1, b2).Ok? && Operation(b1, b2).value.kind == CondJmp
    ensures JumpOpcode(Operation(b1, b2).value.op) == b1
  {
  }

  /** The first bytes the classifier knows. */
  predicate KnownOpcode(b1: u8) {
    b1 <= 0x07 || 0x28 <= b1 <= 0x2F || 0x38 <= b1 <= 0x3F || 0x70 <= b1 <= 0x7F
    || 0x80 <= b1 <= 0x83 || 0x88 <= b1 <= 0x8C || b1 == 0x8E || 0xA0 <= b1 <= 0xA3
    || 0xB0 <= b1 <= 0xBF || 0xC4 <= b1 <= 0xC7 || 0xE0 <= b1 <= 0xE3
  }

  /** The classifier fails exactly on unknown first bytes and on the
      immediate group with a REG field other than add, sub or cmp. */
  lemma OperationFails(b1: u8, b2: u8)
    ensures Operation(b1, b2).Err? <==>
      !KnownOpcode(b1) || (0x80 <= b1 <= 0x83 && RegField(b2) !in {0, 5, 7})
  {
  }

  /** The register file's slots (source `Register`), in the source's order. */
  const RegCount := 14
  type Register = r: nat | r < RegCount

  const RegAx: Register := 0     // accumulator
  const RegBx: Register := 1     // base
  const RegCx: Register := 2     // count
  const RegDx: Register := 3     // data
  const RegSp: Register := 4     // stack pointer
  const RegBp: Register := 5     // base pointer
  const RegSi: Register := 6     // source index
  const RegDi: Register := 7     // destination index
  const RegEs: Register := 8     // extra segment
  const RegCs: Register := 9     // code segment
  const RegSs: Register := 10    // stack segment
  const RegDs: Register := 11    // data segment
  const RegIp: Register := 12    // instruction pointer
  const RegFlags: Register := 13 // flags

  /** The register file: one uint16 per slot, FLAGS packed into its slot. */
  type Registers = s: seq<u16> | |s| == RegCount witness seq(RegCount, _ => 0)

  /** The flag bits of the FLAGS slot (page 22 of the 8086 manual). */
  datatype Flag = FlagC | FlagP | FlagA | FlagZ | FlagS | FlagO {
    /** The flag's bit in the FLAGS word. */
    function Mask(): (m: u16)
      ensures m == 1 || m == 4 || m == 16 || m == 64 || m == 128 || m == 256
    {
      match this
      case FlagC => 1       // bit 0, carry
      case FlagP => 4       // bit 2, parity
      case FlagA => 16      // bit 4, auxiliary carry
      case FlagZ => 64      // bit 6, zero
      case FlagS => 128     // bit 7, sign
      case FlagO => 256     // bit 8, overflow
    }
  }

  /** Whether a FLAGS word has flag `f`: the source's `flags & f != 0`. */
  predicate Has(flags: u16, f: Flag) {
    match f
    case FlagC => flags % 2 == 1
    case FlagP => (flags / 4) % 2 == 1
    case FlagA => (flags / 16) % 2 == 1
    case FlagZ => (flags / 64) % 2 == 1
    case FlagS => (flags / 128) % 2 == 1
    case FlagO => (flags / 256) % 2 == 1
  }

  /** The source's `rr.IsSet(f)`: `rr[RegFlags] & f > 0`. */
  predicate IsSet(rr: Registers, f: Flag) {
    Has(rr[RegFlags], f)
  }

  /** The source's `boolToInt(cond) * f`. */
  function FlagIf(cond: bool, f: Flag): (r: u16)
    ensures r == 0 || r == f.Mask()
  {
    if cond then f.Mask() else 0
  }

  /** The FLAGS word with exactly the given flags, in the order the source
      ORs them in (its flag bits are distinct, so OR is a sum). */
  function Flags(c: bool, p: bool, a: bool, z: bool, s: bool, o: bool): (f: u16)
    ensures f < 0x200
  {
    FlagIf(c, FlagC) + FlagIf(p, FlagP) + FlagIf(a, FlagA)
      + FlagIf(z, FlagZ) + FlagIf(s, FlagS) + FlagIf(o, FlagO)
  }

  /** The flag among six booleans that a `Flags(...)` argument list gives `f`. */
  function Given(f: Flag, c: bool, p: bool, a: bool, z: bool, s: bool, o: bool): bool {
    match f
    case FlagC => c
    case FlagP => p
    case FlagA => a
    case FlagZ => z
    case FlagS => s
    case FlagO => o
  }

  /** Reading any flag back from `Flags(...)` gives the flag it was built
      with, so the six flags are independent bits. */
  lemma FlagsHas(f: Flag, c: bool, p: bool, a: bool, z: bool, s: bool, o: bool)
    ensures Has(Flags(c, p, a, z, s, o), f) <==> Given(f, c, p, a, z, s, o)
  {
    match f {
      case FlagC => HasC(c, p, a, z, s, o);
      case FlagP => HasP(c, p, a, z, s, o);
      case FlagA => HasA(c, p, a, z, s, o);
      case FlagZ => HasZ(c, p, a, z, s, o);
      case FlagS => HasS(c, p, a, z, s, o);
      case FlagO => HasO(c, p, a, z, s, o);
    }
  }

  lemma HasC(c: bool, p: bool, a: bool, z: bool, s: bool, o: bool)
    ensures Flags(c, p, a, z, s, o) % 2 == 1 <==> c
  {
  }

  lemma HasP(c: bool, p: bool, a: bool, z: bool, s: bool, o: bool)
    ensures (Flags(c, p, a, z, s, o) / 4) % 2 == 1 <==> p
  {
  }

  lemma HasA(c: bool, p: bool, a: bool, z: bool, s: bool, o: bool)
    ensures (Flags(c, p, a, z, s, o) / 16) % 2 == 1 <==> a
  {
  }

  lemma HasZ(c: bool, p: bool, a: bool, z: bool, s: bool, o: bool)
    ensures (Flags(c, p, a, z, s, o) / 64) % 2 == 1 <==> z
  {
  }

  lemma HasS(c: bool, p: bool, a: bool, z: bool, s: bool, o: bool)
    ensures (Flags(c, p, a, z, s, o) / 128) % 2 == 1 <==> s
  {
  }

  lemma HasO(c: bool, p: bool, a: bool, z: bool, s: bool, o: bool)
    ensures (Flags(c, p, a, z, s, o) / 256) % 2 == 1 <==> o
  {
  }

  /** How many bytes of a register an operand touches. */
  datatype Width = WidthFull | WidthLo | WidthHi

  /** The memory addressing modes: the eight base-register sums of the RM
      field, in RM order, and a bare direct address. */
  datatype DispKind = DispBxSi | DispBxDi | DispBpSi | DispBpDi | DispSi | DispDi | DispBp | DispBx | DispEA

  /** A decoded operand.  `Imm` is the source's OperandImm (an int16),
      `ImmU` its OperandImmU (a uint16); `Displacement` is a memory
      reference with a signed 16-bit constant. */
  datatype OperandType =
    | Reg(name: Register, width: Width)
    | Imm(i: i16)
    | ImmU(u: u16)
    | Displacement(kind: DispKind, disp: i16)

  /** The size mark an operand renders with (and that memory accesses use). */
  datatype SizeMark = SizeNone | SizeByte | SizeWord

  datatype Operand = Operand(size: SizeMark, op: OperandType)

  /** One decoded instruction: the operation and its 0-2 operands,
      destination first. */
  datatype Instruction = Instruction(op: Op, operands: seq<Operand>)

  /** The source's `FromUnsized` for one operand. */
  function Unsized(t: OperandType): (o: Operand)
    ensures o.size == SizeNone && o.op == t
  {
    Operand(SizeNone, t)
  }

  /** The size mark of the W bit: byte for 0, word for 1. */
  function SizeFrom(w: nat): (s: SizeMark)
    requires w < 2
    ensures s != SizeNone
    ensures s == SizeWord <==> w == 1
  {
    [SizeByte, SizeWord][w]
  }

  /** The source's `regVal` table, indexed by `w<<3 | reg`; note the
      AX, CX, DX, BX order of the 8086 register codes. */
  const RegVal: seq<OperandType> := [
    Reg(RegAx, WidthLo), Reg(RegCx, WidthLo), Reg(RegDx, WidthLo), Reg(RegBx, WidthLo),
    Reg(RegAx, WidthHi), Reg(RegCx, WidthHi), Reg(RegDx, WidthHi), Reg(RegBx, WidthHi),
    Reg(RegAx, WidthFull), Reg(RegCx, WidthFull), Reg(RegDx, WidthFull), Reg(RegBx, WidthFull),
    Reg(RegSp, WidthFull), Reg(RegBp, WidthFull), Reg(RegSi, WidthFull), Reg(RegDi, WidthFull)
  ]

  /** The codes 0-3 name AX, CX, DX, BX in that order. */
  const GeneralCodes: seq<Register> := [RegAx, RegCx, RegDx, RegBx, RegSp, RegBp, RegSi, RegDi]

  /** The register a 3-bit REG/RM code names at width W (source `register`):
      with W=1 the word registers AX CX DX BX SP BP SI DI, with W=0 the low
      halves of AX CX DX BX for codes 0-3 and their high halves for 4-7. */
  function RegisterOf(reg: nat, w: nat): (r: OperandType)
    requires reg < 8 && w < 2
    ensures r.Reg?
    ensures w == 1 ==> r == Reg(GeneralCodes[reg], WidthFull)
    ensures w == 0 ==> r.name == GeneralCodes[reg % 4] && r.width == (if reg < 4 then WidthLo else WidthHi)
  {
    RegVal[w * 8 + reg]
  }

  /** The segment register of a 2-bit SR code (manual Table 4-11): ES, CS,
      SS, DS, always at full width. */
  function Segment(sr: nat): (r: OperandType)
    requires sr < 4
    ensures r.Reg? && r.width == WidthFull
    ensures r.name == RegEs + sr && RegEs <= r.name <= RegDs
  {
    Reg([RegEs, RegCs, RegSs, RegDs][sr], WidthFull)
  }

  /** The addressing mode of an RM field (the source converts RM directly). */
  function DisplacementKind(rm: nat): (k: DispKind)
    requires rm < 8
    ensures k != DispEA
  {
    [DispBxSi, DispBxDi, DispBpSi, DispBpDi, DispSi, DispDi, DispBp, DispBx][rm]
  }

  /** The RM code of an addressing mode, the inverse of `DisplacementKind`. */
  function DisplacementCode(k: DispKind): (rm: nat)
    requires k != DispEA
    ensures rm < 8 && DisplacementKind(rm) == k
  {
    match k
    case DispBxSi => 0
    case DispBxDi => 1
    case DispBpSi => 2
    case DispBpDi => 3
    case DispSi => 4
    case DispDi => 5
    case DispBp => 6
    case DispBx => 7
  }

  /** A signed immediate of one or two bytes (source `OperandSigned`): one
      byte is sign-extended, two bytes are read little-endian and taken as an
      int16.  Either way the result is the one value of the type that has the
      bytes' bit pattern. */
  function OperandSigned(bb: seq<u8>): (i: i16)
    requires |bb| == 1 || |bb| == 2
    ensures |bb| == 1 ==> -0x80 <= i < 0x80 && (i + 0x100) % 0x100 == bb[0]
    ensures |bb| == 2 ==> (i + 0x10000) % 0x10000 == bb[0] as int + 0x100 * bb[1] as int
  {
    if |bb| == 1 then Int8(bb[0]) else Int16(Word(bb[0], bb[1]))
  }

  /** An unsigned immediate of one or two bytes (source `OperandUnsigned`):
      zero-extended, or little-endian. */
  function OperandUnsigned(bb: seq<u8>): (u: u16)
    requires |bb| == 1 || |bb| == 2
    ensures |bb| == 1 ==> u == bb[0]
    ensures |bb| == 2 ==> u == bb[0] as int + 0x100 * bb[1] as int && Low(u) == bb[0] && High(u) == bb[1]
  {
    if |bb| == 1 then bb[0] else Word(bb[0], bb[1])
  }

  /** The two byte readers agree on two bytes: they read the same sixteen
      bits, once as int16 and once as uint16. */
  lemma {:induction false} ReadersAgree(b0: u8, b1: u8)
    ensures Uint16(OperandSigned([b0, b1])) == OperandUnsigned([b0, b1])
    ensures Int16(OperandUnsigned([b0, b1])) == OperandSigned([b0, b1])
  {
  }

  /** `0x80` sign-extends to -128, `0x7F` to 127, `0xFF` to -1. */
  lemma SignExtendExamples()
    ensures OperandSigned([0x80]) == -128
    ensures OperandSigned([0x7F]) == 127
    ensures OperandSigned([0xFF]) == -1
    ensures OperandSigned([0x00, 0x80]) == -0x8000
  {
  }

  /** The source's `Registers.JumpIf` on register-file values: when `cond`
      holds, the jump displacement is added to IP modulo 2^16; every other
      slot is unchanged.  A destination that is not an immediate panics. */
  function Jumped(rr: Registers, cond: bool, dst: OperandType): (r: Result<Registers>)
    ensures r.Ok? <==> dst.Imm?
    ensures r.Ok? ==> forall k | 0 <= k < RegCount && k != RegIp :: r.value[k] == rr[k]
    ensures r.Ok? && cond ==> (r.value[RegIp] - rr[RegIp] - dst.i) % 0x10000 == 0
    ensures r.Ok? && !cond ==> r.value == rr
  {
    match dst
    case Imm(i) => Ok(if cond then rr[RegIp := Add16(rr[RegIp], Uint16(i))] else rr)
    case _ => Err(BadOperand)
  }

  /** `Registers.JumpIf` in place on the register array. */
  method JumpIf(rr: array<u16>, cond: bool, dst: OperandType) returns (r: Result<()>)
    requires rr.Length == RegCount
    modifies rr
    ensures var j := Jumped(old(rr[..]), cond, dst);
      && (j.Ok? ==> r.Ok? && rr[..] == j.value)
      && (j.Err? ==> r == Err(j.fault) && rr[..] == old(rr[..]))
  {
    match dst
    case Imm(i) => {
      if cond {
        rr[RegIp] := Add16(rr[RegIp], Uint16(i));
      }
      r := Ok(());
    }
    case _ => {
      r := Err(BadOperand);
    }
  }
}
