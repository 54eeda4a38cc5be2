# An 8086 subset: decoder, listing and simulator

This project models the instruction decoder, the disassembly listing and the
register/memory simulator of `pap`, a Go program that works through a subset
of the Intel 8086 instruction set. The subset covers `mov`, `add`, `sub`,
`cmp`, the conditional jumps, the `loop` family and `jcxz`. The model follows
three snapshots of that code:

- `part1/main.go` with `types.go`, the current decoder and simulator. In the
  model: `Decode`, `Arith`, `Machine` with `Snapshot.Part1`, `Simulator`,
  `Render` and `Listing`.
- `main.go`, the previous snapshot. It has no segment-register moves, puts a
  size mark on the immediate of the immediate-to-register/memory form, and
  computes flags differently (`applyOp`, `afAdd`, `afSub`). In the model:
  `RootDecode`, `RootArith` and `Machine` with `Snapshot.Root`.
- `lib.go`, the earliest snapshot. It has a nine-slot register file with no
  overflow flag, sets flags one bit at a time in place with `Flag` and
  `ProcessFlags`, and its classifier has no segment moves. In the model:
  `Lib`.

Machine integers are written out explicitly:

- `u8`, `u16` and `i16` are subsets of `int`.
- Go's `uint16` wrap-around is `Add16`/`Wrap`.
- `int8`/`int16` conversions are `Int8`, `Int16` and `Uint16`.

Every Go `panic` the core can reach becomes an `Err` of an `Outcomes.Fault`:

- a truncated buffer is `Truncated`;
- an unknown opcode is `Unimplemented`;
- a segment move in `main.go` is `UnsupportedKind`;
- a set reserved bit is `IllegalInstruction`;
- an unsized memory operand is `UnsizedMemory`;
- a negative effective address is `AddressOutOfRange`;
- a failing text conversion is `NoText`.

Every accumulator move (opcodes 0xA0-0xA3) decodes, but its memory operand
carries no size mark (part1/main.go:113), so simulating it always ends in
`UnsizedMemory`: reading it as the source fails, and so does storing into it
(`Machine.AccumulatorMovFaults`).

`main.go` is read against `types.go`. It uses `RegIp`, `FlagO`, `JumpIf`
and the segment-move kinds, which only `types.go` declares. Its one call
into lib.go, `GetDisplacementKind` (lib.go:369-371), is the same mapping as
`DisplacementKind(rm)`. With lib.go's classifier instead, the opcodes 0x8C
and 0x8E would fail in `main.go` as `Unimplemented` rather than
`UnsupportedKind`.

Side effects follow the source:

- **Simulator.** `Simulator` keeps the register file and the 1 MiB memory as
  arrays and updates them in place. It is proved equal, step by step, to the
  state-transition functions of `Machine`.
- **Listing.** `Render.InstructionString`/`WriteOperands`,
  `Render.FlagsString` and `Listing.Write` build their text in loops. They
  are proved equal to the text functions and to the parser partners those
  functions are proved against.
- **lib.go's flag updates.** `Lib.SetFlag` and `Lib.ProcessFlags` update the
  FLAGS slot of a register array.

## Model

| member | source | states |
|---|---|---|
| Bits.Int8 | types.go:424 | the int8 reading of a byte is in [-128, 128), agrees with the byte modulo 256, and is negative exactly when bit 7 is set |
| Bits.Int16 | types.go:426 | the int16 reading of a word agrees with it modulo 65536 and is negative exactly when bit 15 is set |
| Bits.Uint16 | part1/main.go:389 | the uint16 conversion of an int16 is its inverse: reading it back as int16 gives the original |
| Bits.Add16 | part1/main.go:203 | uint16 addition equals mathematical addition modulo 65536 |
| Bits.Add16Twice | types.go:243 | advancing IP by the length and then by a signed jump displacement is one addition modulo 65536 |
| Bits.High | part1/main.go:407 | a word is its high byte times 256 plus its low byte |
| Bits.Word | part1/main.go:407 | a word built from two bytes has those bytes as its low and high byte |
| Bits.WordOfBytes | part1/main.go:214-217 | splitting a word into bytes and joining them again gives the word back |
| Bits.IntType.Half | part1/main.go:375 | the sign boundary of int8 or int16 is 0x80 or 0x8000 |
| Bits.Wrap | part1/main.go:375-384 | Go's truncating conversion lands in range, agrees modulo the type's size, and leaves in-range values alone |
| Bits.WrapRange | part1/main.go:380 | a sum of two in-range values wraps by at most one type size, in the direction of the overflow |
| Bits.OrZero | part1/main.go:327 | OR with zero is the identity on values of the width |
| Bits.OrOnes | part1/main.go:327 | OR with all ones gives all ones |
| Bits.OrBit | lib.go:225 | bit j of x OR y is set exactly when it is set in x or in y |
| Bits.AndNotBit | lib.go:227 | bit j of x AND NOT y is set exactly when it is set in x and not in y |
| Bits.PowBit | lib.go:182-186 | the only bit set in 2^i is bit i |
| Bits.Ones | part1/main.go:371 | the population count of an n-bit value is at most n and is zero for zero |
| Bits.OnesOfSmall | part1/main.go:371 | counting ones over more bits than the value occupies gives the same count |
| Bits.ByteOnes | part1/main.go:371 | a byte has the same number of ones counted over 16 bits as over 8 |
| Bits.EvenParity | main.go:335 | definition: Go's `bits.OnesCount16(x) % 2 == 0`; its meaning is stated by Bits.ByteOnes, Lib.ParityOfHundred and the parity clauses of Arith.ArithmeticFlag and RootArith.ParityAtHalfWidth |
| Types.Operation | types.go:86-166 | an unknown byte pair is the "unimplemented instruction" panic carrying both bytes; the jump-family kind is chosen exactly for the jump operations |
| Types.ImmGroup | types.go:106-114 | for 100000sw the REG field 000, 101 and 111 gives immediate `add`, `sub` and `cmp`; every other REG value is unimplemented |
| Types.ImmToRegAny | types.go:116-118 | 1011wreg is the immediate-to-register `mov` whatever byte 2 is |
| Types.ArithOpcodes | types.go:87-105 | the register/memory and accumulator forms of `add`, `sub` and `cmp` by their byte ranges |
| Types.MovOpcodes | types.go:87-123 | the register/memory, immediate, accumulator and both segment forms of `mov` by their bytes |
| Types.JumpRoundTrip | types.go:124-163 | each jump's opcode is classified as that jump, whatever byte 2 is |
| Types.JumpOpcodeOf | types.go:124-163 | a byte classified as a jump is that jump's opcode |
| Types.OperationFails | types.go:86-166 | the classifier fails exactly on unknown first bytes and on the immediate group with a REG field other than 000, 101, 111 |
| Types.FullByteOperation | types.go:119-164 | the full-byte switch selects only the segment moves and the jumps, and the jump kind exactly for jump operations; its table is stated by Types.MovOpcodes, Types.JumpRoundTrip and Types.JumpOpcodeOf |
| Types.Op.IsJump | types.go:458 | definition: the source's `OpJe <= op && op <= OpJcxz`; Types.Operation states that the jump kind is chosen exactly for these operations |
| Types.RegField | part1/main.go:73 | the REG field of byte 2 is below 8 |
| Types.Flag.Mask | types.go:194-201 | each flag is one of the bits 1, 4, 16, 64, 128 and 256 |
| Types.FlagIf | types.go:469-475 | `boolToInt(cond) * f` is 0 or the flag's bit |
| Types.Flags | part1/main.go:366-371 | a word assembled from the six flags stays below 0x200 |
| Types.Has | types.go:235-237 | definition: a flag's bit of a FLAGS word is set; Types.FlagsHas and Lib.HasBit state which bit each flag reads |
| Types.IsSet | types.go:235-237 | definition: `Has` of the FLAGS slot; the branch conditions built on it are stated by Machine.Complement and Machine.CmpBranches |
| Types.FlagsHas | part1/main.go:366-371 | reading any flag back from an assembled word gives the condition it was built from, so the six flags are independent |
| Types.HasC | types.go:195 | the carry bit of an assembled word is the carry condition |
| Types.HasP | types.go:196 | the parity bit of an assembled word is the parity condition |
| Types.HasA | types.go:197 | the auxiliary-carry bit of an assembled word is that condition |
| Types.HasZ | types.go:198 | the zero bit of an assembled word is the zero condition |
| Types.HasS | types.go:199 | the sign bit of an assembled word is the sign condition |
| Types.HasO | types.go:200 | the overflow bit of an assembled word is the overflow condition |
| Types.Unsized | types.go:332-338 | `FromUnsized` gives an operand with no size mark and the given operand |
| Types.SizeFrom | types.go:353-355 | W=1 selects the word mark and W=0 the byte mark, never none |
| Types.RegisterOf | types.go:377-387 | W=1 gives the full register of the REG code (AX, CX, DX, BX, SP, BP, SI, DI order); W=0 gives the low half of codes 0-3 and the high half of codes 4-7 |
| Types.Segment | types.go:389-393 | SR 0-3 select ES, CS, SS, DS, at full width |
| Types.DisplacementKind | types.go:395-407 | every R/M code names a register-based effective address, never the direct one |
| Types.DisplacementCode | types.go:395-407 | every register-based effective address has an R/M code that selects it |
| Types.OperandSigned | types.go:420-431 | one byte sign-extends into [-128, 128); two bytes are little-endian int16, each equal to the bytes modulo 2^8 or 2^16 |
| Types.OperandUnsigned | types.go:433-444 | one byte is its value; two bytes are the little-endian word whose low and high bytes they are |
| Types.ReadersAgree | types.go:420-444 | the signed and unsigned readings of the same two bytes convert into each other |
| Types.SignExtendExamples | types.go:424-426 | 0x80 reads as -128, 0x7F as 127, 0xFF as -1, and 00 80 as -32768 |
| Types.Jumped | types.go:239-248 | a jump to an immediate succeeds, anything else is the panic; a taken jump adds the displacement to IP modulo 2^16, a jump not taken changes nothing, and no other register changes |
| Types.JumpIf | types.go:239-248 | the in-place jump leaves the register array equal to `Jumped`, and unchanged on failure |
| Decode.Bytes | part1/main.go:95-98 | a slice of n bytes from `from` exists exactly when it fits in the buffer and holds those bytes |
| Decode.DispBytes | part1/main.go:164-183 | the displacement after the ModR/M byte is at most two bytes |
| Decode.RmOperand | part1/main.go:156-185 | MOD=3 gives the register of R/M; otherwise the sized memory operand, direct exactly for MOD=0 with R/M=6, with no, sign-extended 8-bit or 16-bit displacement by MOD; fails exactly when the displacement is cut off |
| Decode.Accumulator | part1/main.go:123-127 | the accumulator at W is AL or AX |
| Decode.DBit | part1/main.go:72 | the D bit is 0 or 1 |
| Decode.WBit | part1/main.go:72 | the W bit is 0 or 1 |
| Decode.ModField | part1/main.go:73 | the MOD field is below 4 |
| Decode.RmField | part1/main.go:73 | the R/M field is below 8 |
| Decode.OpcodeFields | part1/main.go:72 | byte 1 is its top six bits, then D, then W, so the fields lose nothing |
| Decode.ModRmFields | part1/main.go:73 | the ModR/M byte is MOD, REG and R/M from the top down, so the fields lose nothing |
| Decode.DecodeRmToFromRm | part1/main.go:71-80 | succeeds exactly when its 2 + displacement bytes fit, else `Truncated`; the operands are the REG register and the R/M operand, REG first when D=1 |
| Decode.ImmToRmLength | part1/main.go:81-101 | the immediate-to-register/memory form is 2 bytes, its displacement, and one immediate byte when S=1 for `add`/`sub`/`cmp`, else 1 + W |
| Decode.Immediate | part1/main.go:94-100 | the immediate is one sign-extended byte when signed, else 1 + W little-endian bytes; it fails exactly when they are cut off |
| Decode.DecodeImmToRm | part1/main.go:81-101 | succeeds exactly when `ImmToRmLength` bytes fit, else `Truncated`; the destination is the R/M operand and the immediate has no size mark and is the sign-extended last byte (S=1, not `mov`) or the last 1 + W bytes |
| Decode.DecodeMemToFromAcc | part1/main.go:102-115 | three bytes exactly when they fit, else `Truncated`; operands are the accumulator at W and the unsized direct address of bytes 2-3, the accumulator first when D=0 |
| Decode.DecodeImmToReg | part1/main.go:116-122 | 2 + W bytes (W is bit 3) exactly when they fit, else `Truncated`; the destination is the register named by bits 0-2 of byte 1 and the source is the unsized immediate of the bytes after the opcode |
| Decode.DecodeImmToAcc | part1/main.go:123-130 | 2 + W bytes exactly when they fit, else `Truncated`; the destination is AL or AX by the W bit and the source the unsized immediate after the opcode |
| Decode.DecodeSegment | part1/main.go:131-142 | bit 5 of byte 2 set is the "illegal instruction" panic; otherwise 2 + displacement bytes exactly when they fit, else `Truncated`, with the SR segment register as destination of `RmToSeg` and source of `SegToRm` and the word R/M operand as the other |
| Decode.Length | part1/main.go:67-154 | every family's instruction is 2 to 6 bytes long |
| Decode.DecodeJump | part1/main.go:143-146 | a jump is two bytes with the sign-extended byte 2 as its one operand |
| Decode.DecodeInstruction | part1/main.go:67-154 | fewer than two bytes left is `Truncated`; an unknown pair fails as `operation` does; an illegal segment move fails as such; otherwise it succeeds exactly when the family's `Length` fits, advancing by it, and the instruction is well shaped for the classified operation |
| Decode.DecodeLocal | part1/main.go:67-154 | decoding reads only the instruction's own bytes: the same bytes elsewhere decode to the same instruction |
| RootDecode.DecodeInstruction | main.go:74-148 | the segment moves, and only they, are refused; every other failure is part1's failure |
| RootDecode.Agrees | main.go:88-107 | an accepted instruction has part1's length, operation and operand values; only the immediate-to-register/memory immediate carries the W bit's size mark (main.go:99 against part1/main.go:93) |
| RootDecode.FailsAlike | main.go:74-148 | outside the segment moves the two decoders succeed on exactly the same inputs |
| RootDecode.DecodeLocal | main.go:74-148 | this decoder too reads only the instruction's own bytes |
| Arith.OverflowAdd | part1/main.go:375-384 | the source's sign test on `ia+ib` is overflow, except that two minimum values (their sum wraps to 0) are not flagged |
| Arith.OverflowSub | part1/main.go:375-384 | `sub` negates `ib` first: unless `ib` is the minimum this is overflow of `ia-ib`; at the minimum the negation wraps and the flag is raised only for negative `ia` |
| Arith.OverflowSubMinExample | part1/main.go:377-379 | `0 - (-32768)` overflows int16 but is not flagged |
| Arith.Overflow | part1/main.go:375-384 | definition of `overflowFlag`; its meaning is stated by Arith.OverflowAdd and Arith.OverflowSub |
| Arith.Operand | part1/main.go:393-399 | the read of a register at a width is the full value, its low byte or its high byte |
| Arith.Max | part1/main.go:343-346 | the carry bound is 0xFF or 0xFFFF |
| Arith.Value | part1/main.go:356-365 | the computed value is the sum or difference of the operand at the width and b, modulo 2^16 |
| Arith.ArithmeticFlags | part1/main.go:338-373 | the flags word of `add`/`sub` fits in nine bits |
| Arith.ArithmeticFlag | part1/main.go:366-371 | each flag of the word is set exactly when its condition on operands and result holds |
| Arith.Raised | part1/main.go:338-373 | definition of the flag conditions of `applyArithmetic`; Arith.ArithmeticFlag states that the FLAGS word holds exactly these |
| Arith.PackLo | part1/main.go:327 | the low-half result keeps the register's high byte |
| Arith.PackHi | part1/main.go:329 | the high-half result keeps the register's low byte and puts the value's low byte on top |
| Arith.RegisterValue | part1/main.go:317-332 | `mov` writes b (or its low byte into the half); `add`/`sub` write the computed value; a half-width write leaves the other half unchanged |
| Arith.HalfPacking | part1/main.go:324-330 | packing a half result and reading that half back gives the value's low byte |
| Arith.SubFull | part1/main.go:356-369 | a 16-bit `sub` gives a-b modulo 2^16, with Z iff a == b, C iff a < b unsigned, S iff the result is negative, A iff the low nibble borrows |
| Arith.SignOfDifference | part1/main.go:362-368 | the int16 result of `sub` is the wrapped signed difference, and S is its sign |
| Arith.SubSignedLess | part1/main.go:244 | after `cmp a, b`, S != O exactly when a < b as signed words, for every b except -32768 |
| Arith.SubSignedLessAtMin | part1/main.go:377-380 | against b = -32768, S != O holds for every a except -32768, although no word is smaller than -32768 |
| RootArith.Calc | main.go:355-357 | `opMov`, `opAdd` and `opSub` give b, a+b and a-b modulo 2^16 |
| RootArith.ValueCalc | main.go:337-348 | the flags look at the whole value at full width, at its low byte at the low half and at its high byte at the high half |
| RootArith.FlagsWord | main.go:312-353 | the flags word fits in nine bits |
| RootArith.Value | main.go:312-353 | definition of the register value `applyOp` returns; its meaning is stated by RootArith.LoHalf, RootArith.LoKeepsHigh, RootArith.HalfWidthByte and RootArith.FullValueAgrees |
| RootArith.AddRaised | main.go:359-389 | definition of the flags of `afAdd`; its meaning is stated by RootArith.Flag and RootArith.AddFullFlagAgrees |
| RootArith.SubRaised | main.go:391-421 | definition of the flags of `afSub`; its meaning is stated by RootArith.Flag, RootArith.SubFullFlagAgrees and RootArith.SubFullDisagrees |
| RootArith.Raised | main.go:312-353 | definition of the flags `applyOp` raises; its meaning is stated by RootArith.Flag, RootArith.ZeroAtHalfWidth, RootArith.SignAtHalfWidth and RootArith.ParityAtHalfWidth |
| RootArith.Flag | main.go:330-348 | each flag of the word is set exactly when `afAdd`/`afSub` or the value test sets it |
| RootArith.AddFullAgrees | main.go:359-389 | at full width, `add` in this snapshot writes the same value and flags as in part1 |
| RootArith.FullValueAgrees | main.go:331-332 | the full-width `add`/`sub` value equals part1's |
| RootArith.AddFullFlagsAgree | main.go:359-389 | the full-width `add` flags word equals part1's |
| RootArith.AddFullFlagAgrees | main.go:359-389 | each full-width `add` flag equals part1's |
| RootArith.AddFullResultAgrees | main.go:333-336 | S, P and Z of a full-width `add` equal part1's |
| RootArith.SubOverflowFull | main.go:397-399 | the subtraction test is int16 overflow, except for 0 - (-32768) |
| RootArith.SubOverflow | main.go:398 | definition of the sign test of `afSub`; its meaning is stated by RootArith.SubOverflowFull |
| RootArith.SubFullFlagAgrees | main.go:391-421 | each full-width `sub` flag equals part1's when b is not 0x8000 |
| RootArith.SubFullResultAgrees | main.go:333-336 | S, P and Z of a full-width `sub` equal part1's |
| RootArith.SubFullAgrees | main.go:391-421 | when b is not 0x8000, full-width `sub` writes the same value and flags as part1 |
| RootArith.SubFullFlagsAgree | main.go:391-421 | the full-width `sub` flags word equals part1's when b is not 0x8000 |
| RootArith.SubFullDisagrees | main.go:398 | against b = 0x8000 the two snapshots disagree on O in both directions (a = 1 and a = 0xFFFF) |
| RootArith.LoHalf | main.go:338 | a low-half operation keeps the low byte of `f(a&0xff, b)` but ORs its high byte into the register's high byte |
| RootArith.LoKeepsHigh | main.go:338 | when `f(a&0xff, b)` fits in a byte the high byte is kept |
| RootArith.LoCarrySpills | main.go:338 | `add al, 1` with AX = 0x00FF leaves AX = 0x0100 here and 0x0000 in part1 |
| RootArith.LoBorrowSpills | main.go:338 | `sub al, 1` with AX = 0 leaves AX = 0xFFFF here and 0x00FF in part1 |
| RootArith.LoMovSpills | main.go:338 | `mov al, 0xFFFF` with AX = 0x1234 leaves AX = 0xFFFF here and 0x12FF in part1 |
| RootArith.ZeroAtHalfWidth | main.go:339-342 | half-width Z tests the low byte of the unmasked result |
| RootArith.HalfWidthByte | main.go:337-348 | at either half the flags look at the low byte of the operation's result on the addressed byte |
| RootArith.SignAtHalfWidth | main.go:339-347 | half-width S is bit 7 of that byte |
| RootArith.ParityAtHalfWidth | main.go:339-347 | half-width P is the even parity of that byte |
| RootArith.ZeroAtHalfWidthExample | main.go:339-342 | `add al, 1` with AL = 0xFF raises Z here but not in part1 |
| Lib.Classify | lib.go:85-163 | lib.go's classifier is types.go's without the two segment moves, which are the "unimplemented instruction" panic |
| Lib.Position | lib.go:182-186 | each flag is the single bit 2^position of a 16-bit word |
| Lib.HasBit | lib.go:219-221 | testing a flag is testing its bit |
| Lib.WithFlag | lib.go:223-229 | definition of the word `Flag(cond, f)` leaves; its meaning is stated by Lib.FlagBit |
| Lib.FlagBit | lib.go:223-229 | `Flag(cond, f)` makes f's bit equal cond and leaves every other bit |
| Lib.SetFlag | lib.go:223-229 | the in-place update changes only the FLAGS slot, to the word `Flag` describes |
| Lib.ProcessFlags | lib.go:235-246 | the in-place update changes only the FLAGS slot, to the processed word |
| Lib.Aligned | lib.go:236-242 | definition of the value `ProcessFlags` tests; its meaning is stated by Lib.ProcessedFlags and Lib.ProcessedHalf |
| Lib.Processed | lib.go:235-246 | definition of the FLAGS word `ProcessFlags` leaves; its meaning is stated by Lib.ProcessedKeeps, Lib.ProcessedFlags and Lib.ProcessedHalf |
| Lib.ProcessedKeeps | lib.go:243-245 | bits other than P, Z and S are left as they were |
| Lib.ProcessedFlags | lib.go:236-245 | S is bit 15 of the aligned value, P is its even parity over all 16 bits, Z is its being zero |
| Lib.OnesShift | lib.go:239 | shifting a value left by k bits keeps its population count |
| Lib.ProcessedHalf | lib.go:237-242 | at low width S, P and Z describe the low byte; at high width the low byte (not the high one) sets P and Z and S is never set |
| Lib.FullParityDiffers | lib.go:244 | for 0x100, part1 sets P (low byte only) and lib.go clears it (all 16 bits) |
| Lib.ParityOfHundred | lib.go:244 | 0x100 has odd parity over 16 bits and even parity over its low byte |
| Machine.DecodedShape | main.go:74-148 | whatever either snapshot decodes has part1's shape; a jump is two bytes with the sign-extended byte 2 as its operand |
| Machine.MovValue | part1/main.go:209 | reading back the `mov` destination at its width gives the moved value (its low byte for a half) |
| Machine.SumOf | part1/main.go:415-432 | the sum of the base registers is at most 0xFFFF per register |
| Machine.DispOffset | part1/main.go:415-437 | the direct address is the unsigned displacement; otherwise the base registers plus the signed displacement, so at least -0x8000 and both bytes inside memory |
| Machine.ReadMem | part1/main.go:403-407 | a byte read is the byte; a word read is little-endian |
| Machine.WriteMem | part1/main.go:212-217 | a write stores the low byte (and the high byte after it for a word) and nothing else changes |
| Machine.ReadAfterWrite | part1/main.go:212-217 | reading back what was written gives the value (its low byte for a byte write) |
| Machine.Load | part1/main.go:386-413 | immediates are their uint16 value, registers are read at their width, memory needs a size mark and a non-negative address |
| Machine.ExecMov | part1/main.go:205-223 | `mov` writes the register (through `applyOp`, memory unchanged, flags discarded) or the sized memory operand (registers unchanged); an unsized memory destination is an error |
| Machine.ExecArith | part1/main.go:224-240 | arithmetic never touches memory and does nothing when the destination is not a register |
| Machine.ArithWrites | part1/main.go:224-239 | `add`/`sub` on a register write its new value and the new flags word and nothing else |
| Machine.CmpIsSub | part1/main.go:230-239 | `cmp` is `sub` with the destination put back |
| Machine.Negation | part1/main.go:241-278 | every jump up to `js` has its negated twin in the family |
| Machine.Complement | part1/main.go:241-278 | the twin's condition is exactly the negation of the jump's condition |
| Machine.CmpBranches | part1/main.go:230-253 | after `cmp a, b` on full registers: `je` iff a == b, `jb` iff a < b unsigned, `jl` iff a < b signed (b not -32768) |
| Machine.SubBranches | part1/main.go:241-253 | the same three conditions on any register file holding the flags of `sub a, b` |
| Machine.ExecJump | part1/main.go:241-290 | a jump changes only IP and, for the loop family, CX (decremented modulo 2^16 before the test); IP moves by the displacement when the condition holds on the updated CX; only an immediate target is valid |
| Machine.Taken | part1/main.go:241-290 | definition of each jump's branch condition; its meaning is stated by Machine.Complement, Machine.CmpBranches, Machine.SubBranches and Machine.TakenReads |
| Machine.Counted | part1/main.go:279-288 | the loop family decrements CX modulo 2^16 and leaves every other register |
| Machine.Execute | part1/main.go:204-291 | only `mov` writes memory, and jumps never change FLAGS |
| Machine.AccumulatorMovFaults | part1/main.go:102-115 | every decoded accumulator move fails to execute with `UnsizedMemory`, in either snapshot and from any state |
| Machine.TakenReads | part1/main.go:241-290 | branch conditions read only FLAGS and CX |
| Machine.StepIs | part1/main.go:200-204 | one turn decodes at IP, advances IP by the length, then executes |
| Machine.Initial | part1/main.go:198-199 | definition of the all-zero starting state; Simulator.Zero states that the in-place arrays start as it |
| Machine.Advance | part1/main.go:203 | definition of IP moved past an instruction modulo 2^16; its meaning is stated by Machine.StepAdvances and Machine.JumpAdvanced |
| Machine.Step | part1/main.go:200-291 | definition of one turn of the loop; its meaning is stated by Machine.StepIs, Machine.StepAdvances, Machine.JumpStep and Machine.StepDecodeFails |
| Machine.StepJumpIs | part1/main.go:201-203 | a decoded jump is two bytes whose operand is byte 2 sign-extended, and the turn executes it after IP += 2 |
| Machine.JumpAdvanced | part1/main.go:203 | a jump leaves IP at ip+2 or at ip+2 plus the displacement, and leaves FLAGS and memory |
| Machine.JumpStep | part1/main.go:200-290 | one turn at a jump always succeeds and its IP is the fall-through or the target, both modulo 2^16 |
| Machine.ExecuteWrites | part1/main.go:204-240 | `mov`, `add`, `sub` and `cmp` leave every register other than the destination and FLAGS |
| Machine.StepAdvances | part1/main.go:203 | a turn at a non-jump moves IP by the instruction's length |
| Machine.StepperSteps | part1/main.go:200-306 | the step function handed to the loop is the snapshot's step at every state |
| Machine.Iterate | part1/main.go:200 | a finished run stops with IP at or past the end, and a run that starts there does nothing |
| Machine.IterateFuel | part1/main.go:200 | more fuel than a finished run needed gives the same result |
| Machine.Run | part1/main.go:200-306 | the loop ends only with IP at or past the end of the buffer |
| Machine.Simulate | part1/main.go:197-310 | from the zeroed machine the run ends with IP past the buffer, or with the first failure |
| Machine.RunFuel | part1/main.go:200 | the result of a finished run does not depend on the fuel beyond what it needs |
| Machine.RunOutOfFuel | part1/main.go:200 | with IP inside the buffer and no fuel the run reports running out |
| Machine.StepDecodeFails | part1/main.go:201 | a decoding failure is the turn's failure |
| Machine.RunFails | part1/main.go:200-291 | the first failing turn is the run's failure |
| Machine.RunTurn | part1/main.go:200-291 | a run inside the buffer is one decode-advance-execute turn followed by the rest |
| Machine.RunDecodeFails | part1/main.go:201 | a decoding failure inside the buffer stops the run with that fault |
| Machine.RunSteps | part1/main.go:200-306 | a successful turn inside the buffer continues the run from its state |
| Simulator.MovInPlace | part1/main.go:205-223 | the arrays end equal to `ExecMov` of the old state, or the fault is returned |
| Simulator.ArithInPlace | part1/main.go:224-240 | the register array ends equal to `ExecArith` of the old state, or the fault is returned |
| Simulator.JumpInPlace | part1/main.go:241-290 | the register array ends equal to `ExecJump` of the old state, or the fault is returned |
| Simulator.ExecuteInPlace | part1/main.go:204-291 | the arrays end equal to `Execute` of the old state, or the fault is returned |
| Simulator.Zero | part1/main.go:198-199 | the fresh register file and memory are all zero |
| Simulator.StepInPlace | part1/main.go:200-291 | one in-place turn is `Step` on the arrays' state |
| Simulator.Turn | part1/main.go:200-291 | one in-place turn inside the buffer consumes one unit of fuel of the run |
| Simulator.Loop | part1/main.go:200-306 | the in-place loop ends in the run's final state, or returns its fault |
| Simulator.Simulate | part1/main.go:197-310 | the arrays `Simulate` returns hold `Machine.Simulate`'s final state, or its fault is returned |
| Render.LastOf | types.go:417 | the last position of a character from the set, with none of them after it |
| Render.LastOfAfter | types.go:417 | the last sign of a displacement text is the one before its number |
| Render.FirstOf | types.go:453 | the first position of a character, with none of it before |
| Render.Digits | types.go:461 | decimal digits: non-empty, no leading zero except for zero itself |
| Render.DigitsValue | types.go:461 | reading the digits back gives the number |
| Render.Decimal | types.go:415 | `%d`: the digits, with a minus sign for negatives |
| Render.Signed | types.go:417 | `%+d`: always a sign, minus exactly for negatives, then digits |
| Render.DecimalParses | types.go:415 | `%d` text reads back as the number |
| Render.SignedParses | types.go:417 | `%+d` text reads back as the number |
| Render.Mnemonic | types.go:37-66 | every mnemonic is 2-6 characters |
| Render.MnemonicParses | types.go:37-66 | mnemonics are lower-case and distinct: each reads back as its operation |
| Render.Column | types.go:373-375 | the width column of the register table is 0-2 |
| Render.RegText | types.go:357-375 | every register has a row of `RegNames` (the source's `regStrsFull`) except FLAGS, whose lookup panics |
| Render.RegTextParses | types.go:357-375 | a register with a name prints two lower-case letters that read back as it; one without prints nothing |
| Render.BaseText | types.go:409-411 | every base text starts with a lower-case letter |
| Render.DisplacementText | types.go:413-418 | a memory operand is printed in brackets |
| Render.DisplacementParses | types.go:413-418 | a memory operand's text reads back as it |
| Render.DirectParses | types.go:414-415 | `[%d]` of the direct address reads back as it |
| Render.BasedParses | types.go:417 | `[base%+d]` reads back as the effective address |
| Render.Bracketed | types.go:417 | the bracket reader passes the inside to the base-and-sign reader |
| Render.BasedTextParses | types.go:417 | base text followed by a signed number reads back as the effective address |
| Render.BaseParses | types.go:409-411 | every base text reads back as its kind |
| Render.OperandTypeText | types.go:373-418 | every operand prints except a FLAGS register |
| Render.OperandText | types.go:340-347 | the size mark and a space, when there is one, precede the operand |
| Render.JumpText | types.go:458-461 | a jump operand prints as `$` with displacement+2 in `%+d` (int16 arithmetic); a non-immediate fails the type assertion |
| Render.Texts | types.go:454-465 | one text per operand |
| Render.InstructionText | types.go:451-467 | an instruction prints exactly when every operand does; otherwise the panic |
| Render.JoinSnoc | types.go:455-457 | joining one more text adds ", " before it unless it is the first |
| Render.InstructionString | types.go:451-467 | the builder loop gives exactly `InstructionText` |
| Render.WriteOperands | types.go:454-465 | the operand loop appends the comma-separated operand texts after the mnemonic, or fails with the first operand that does not print |
| Render.Split | types.go:456 | splitting on ", " gives at least one piece |
| Render.SplitJoin | types.go:454-465 | splitting the joined operand texts on ", " gives them back |
| Render.LineParses | types.go:451-467 | a line of a mnemonic, a space and joined comma-free texts reads back as the operation and the texts |
| Render.ParseLine | types.go:453 | a line reads as the mnemonic before its first space and the split of the rest |
| Render.InstructionParses | types.go:451-467 | the text of every printable instruction with operands reads back as its operation and operand texts |
| Render.DigitsNoComma | types.go:461 | decimal text has no comma |
| Render.SignedNoComma | types.go:461 | signed text has no comma |
| Render.BaseNoComma | types.go:410 | base text has no comma |
| Render.SizeNoComma | types.go:328-330 | size marks have no comma |
| Render.SizeText | types.go:328-330 | definition of `sizeMarkStrs`; Render.OperandText states where the mark goes and Render.SizeNoComma that it has no comma |
| Render.ItemNoComma | types.go:458-464 | no operand text contains a comma |
| Render.TextsNoComma | types.go:454-465 | no operand text of an instruction contains a comma |
| Render.Letters | types.go:286-294 | the flag letters are at most one per flag |
| Render.Letter | types.go:203-219 | definition of `FlagString`; its meaning is stated by Render.LettersHas and Render.FlagsExamples |
| Render.FlagsString | types.go:286-294 | the loop over C, P, A, Z, S, O appends each set flag's letter, giving `Letters` |
| Render.LettersHas | types.go:288-291 | a letter appears exactly when its flag is in the list and set |
| Render.FlagsLetters | types.go:203-223 | a flag's letter is in the text exactly when the flag is set; at most six letters |
| Render.FlagsExamples | types.go:286-294 | 0x1D5 prints "CPAZSO" and 0 prints nothing |
| Listing.DecodedRenders | part1/main.go:193 | every decoded instruction of either snapshot prints |
| Listing.JumpLine | types.go:458-461 | a jump with displacement d prints as its mnemonic, " $" and d+2 |
| Listing.JumpText | types.go:451-467 | a decoded jump prints its byte-2 displacement plus 2 |
| Listing.JumpDistance | part1/main.go:203 | the printed `$+n` is where the simulator lands: ip + 2 + displacement equals ip + n modulo 2^16 |
| Listing.DecoderWalks | part1/main.go:190-193 | each decode advances 2-6 bytes within the buffer and every decoded instruction prints |
| Listing.Program | part1/main.go:190-194 | the instructions between ip and the end take between 2 and 6 bytes each; nothing is left at the end |
| Listing.LinesAreProgram | part1/main.go:190-194 | the listing is one line per instruction of the decoded program, or the program's decoding fault |
| Listing.Then | part1/main.go:188-189 | the header comes first and the rest follows unchanged; failures pass through |
| Listing.Disassembly | part1/main.go:187-195 | the listing is "bits 16", a blank line and one printed line per decoded instruction, or the first decoding fault |
| Listing.Disassemble | part1/main.go:187-195 | the loop writes exactly `Disassembly` |
| Listing.Write | part1/main.go:188-194 | the loop's output is the header and then the lines from 0 |
| Listing.EmptyDisassembly | part1/main.go:187-195 | an empty buffer lists only the header |

## Left out

- Output to an `io.Writer` is left out. `Disassemble` returns its text and the simulator's trace lines are not produced. Also left out: the per-step register and flag change lines (part1/main.go:292-305), `Registers.String` and `Summary` (types.go:250-284), and lib.go's `Registers.String`.
- `main`, `run`, reading the input file and the `nasm` call are left out. They are I/O and a foreign process.
- The reassembly tests (main_test.go and part1/main_test.go) run `nasm`. They are not modelled.
- The rest of the repository (part2, part3, part4: floating point, benchmarks, profilers) is not part of this model.
- Machine.Run, Machine.Simulate, Simulator.Simulate: the Go loop has no bound. The model takes a fuel count, and a program that does not halt within it ends with `OutOfFuel` instead of looping forever.
- Machine.Iterate: the loop condition is `int(regs[RegIp]) < len(buf)`. A buffer longer than 65536 bytes cannot be finished, because IP wraps. The model keeps that, and the fuel bound reports it.
- Go slices: `buf[ip+offset : ip+offset+1+W]` may read past `len(buf)` up to `cap(buf)`. The model treats any byte past the buffer's end as `Truncated`.
- Memory is 2^20 bytes as in the source. An effective address past 0xFFFF is the plain sum, because the source uses `int`. Segment registers take no part in addressing.
- Decoding panics become `Err` results. The Go program would stop with a partial listing already written; the model returns only the fault.
- Render.OperandText: Go's `fmt` recovers a panic inside a `String` method and prints `%!v(PANIC=String method: …)` in place of the operand (for example for the FLAGS register). That recovery is not modelled; the model returns `Err(NoText)` instead. No decoded operand names FLAGS.
- Render.InstructionText: the same `fmt` recovery applies when `Disassemble` prints an instruction whose `String` method panics, so the Go listing goes on with a `%!v(PANIC=…)` line. The model returns `Err(NoText)` instead. Decoded jumps always carry an immediate, so the decoder never produces such an instruction.
- Render.OperandTypeText: `Imm` and `ImmU` operands print the same `%d` digits. An `ImmU` above 0x7FFF prints a different number from the `Imm` with the same bits, so text does not identify the operand kind. Only operand texts, not operands, are read back.
- Render.ParseInstruction: a line with no operands is only the mnemonic and a trailing space. Every decoded instruction has one or two operands, so that form is not read back.
- Lib.SetFlag takes one of the flags rather than an arbitrary mask. lib.go's `Flag` is only called with single flags (lib.go:243-245). lib.go declares no overflow flag (lib.go:180-187), so `SetFlag` refuses O. `Lib.Position` and `Lib.WithFlag` are shared with the six-flag word of types.go, so they still give O bit 8.
- lib.go shares its `register`, `regVal`, `OperandSigned`, `OperandUnsigned`, `SizeFrom`, `Operand.String` and displacement kinds with types.go. The model uses the types.go members for both. lib.go's register file has no segment registers and no IP.
- lib.go's `operation` is modelled as a difference from types.go's (`Lib.Classify`). `main.go`'s decoder is modelled as a difference from part1's (`RootDecode.DecodeInstruction`), since the two listings are otherwise the same code.
- Machine.ExecArith: `add`, `sub` and `cmp` with a memory destination do nothing in the source (the type switch has no other case). The model keeps that, and no error is raised.
