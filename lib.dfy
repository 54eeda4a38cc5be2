/** The earliest snapshot, lib.go: its classifier, its nine-slot register
    file with FLAGS in slot 8 and no overflow flag, and `Registers.Flag` and
    `ProcessFlags`, which set S, P and Z from a result value in place. */
module Lib {
  import opened Bits
  import opened Outcomes
  import opened Types
  import Arith

  /** lib.go's `operation`: the classifier of types.go without the two
      segment-register moves, which reach its "unimplemented instruction"
      panic. */
  function Classify(b1: u8, b2: u8): (r: Result<OpDescr>)
    ensures r.Ok? <==> Operation(b1, b2).Ok? && Operation(b1, b2).value.kind !in {RmToSeg, SegToRm}
    ensures r.Ok? ==> r == Operation(b1, b2)
    ensures r.Err? ==> r.fault == Unimplemented(b1, b2)
  {
    if b1 == 0x8C || b1 == 0x8E then Err(Unimplemented(b1, b2)) else Operation(b1, b2)
  }

  /** The register file's size: AX .. DI and then FLAGS. */
  const Slots := 9
  /** The FLAGS slot. */
  const FlagsSlot := 8

  /** The bit position of a flag. */
  function Position(f: Flag): (i: nat)
    ensures i < 16 && Pow2(i) == f.Mask()
  {
    match f
    case FlagC => 0
    case FlagP => 2
    case FlagA => 4
    case FlagZ => 6
    case FlagS => 7
    case FlagO => 8
  }

  /** Reading a flag is reading its bit. */
  lemma HasBit(x: u16, f: Flag)
    ensures Has(x, f) <==> Bit(x, Position(f))
  {
  }

  lemma Pow16()
    ensures Pow2(16) == 0x10000
  {
    assert Pow2(4) == 16;
    assert Pow2(8) == 0x100;
    assert Pow2(12) == 0x1000;
  }

  /** The FLAGS word after `Flag(cond, f)`: ORed with the flag's bit when
      the condition holds, ANDed with its complement otherwise. */
  function WithFlag(flags: u16, cond: bool, f: Flag): u16 {
    Pow16();
    if cond then Or(flags, f.Mask(), 16) else AndNot(flags, f.Mask(), 16)
  }

  /** `Flag` sets the flag's bit to the condition and leaves every other
      bit of the word as it was. */
  lemma FlagBit(flags: u16, cond: bool, f: Flag, j: nat)
    requires j < 16
    ensures Bit(WithFlag(flags, cond, f), j) <==> if j == Position(f) then cond else Bit(flags, j)
  {
    PowBit(Position(f), j);
    if cond {
      OrBit(flags, f.Mask(), 16, j);
    } else {
      AndNotBit(flags, f.Mask(), 16, j);
    }
  }

  /** `Registers.Flag` on the register array: only the FLAGS slot
      changes.  lib.go declares no overflow flag, so O is not passed. */
  method SetFlag(rr: array<u16>, cond: bool, f: Flag)
    requires rr.Length == Slots && f != FlagO
    modifies rr
    ensures rr[..] == old(rr[..])[FlagsSlot := WithFlag(old(rr[FlagsSlot]), cond, f)]
  {
    Pow16();
    if cond {
      rr[FlagsSlot] := Or(rr[FlagsSlot], f.Mask(), 16);
    } else {
      rr[FlagsSlot] := AndNot(rr[FlagsSlot], f.Mask(), 16);
    }
  }

  /** The value `ProcessFlags` examines: the whole value, the low byte moved
      to bits 15-8, or the low byte alone. */
  function Aligned(w: Width, value: u16): u16 {
    match w
    case WidthFull => value
    case WidthLo => (value % 0x100) * 0x100
    case WidthHi => value % 0x100
  }

  /** The FLAGS word after `ProcessFlags(w, value)`: S from bit 15 of the
      aligned value, then P from the parity of all its 16 bits, then Z from
      its being zero. */
  function Processed(flags: u16, w: Width, value: u16): u16 {
    var v := Aligned(w, value);
    WithFlag(WithFlag(WithFlag(flags, v / 0x8000 > 0, FlagS), EvenParity(v), FlagP), v == 0, FlagZ)
  }

  /** `Registers.ProcessFlags` on the register array. */
  method ProcessFlags(rr: array<u16>, w: Width, value: u16)
    requires rr.Length == Slots
    modifies rr
    ensures rr[..] == old(rr[..])[FlagsSlot := Processed(old(rr[FlagsSlot]), w, value)]
  {
    var v := Aligned(w, value);
    SetFlag(rr, v / 0x8000 > 0, FlagS);
    SetFlag(rr, EvenParity(v), FlagP);
    SetFlag(rr, v == 0, FlagZ);
  }

  /** `ProcessFlags` changes no bit of FLAGS but S (bit 7), P (bit 2) and Z
      (bit 6). */
  lemma ProcessedKeeps(flags: u16, w: Width, value: u16, j: nat)
    requires j < 16 && j != 2 && j != 6 && j != 7
    ensures Bit(Processed(flags, w, value), j) <==> Bit(flags, j)
  {
    var v := Aligned(w, value);
    var s := WithFlag(flags, v / 0x8000 > 0, FlagS);
    var p := WithFlag(s, EvenParity(v), FlagP);
    FlagBit(flags, v / 0x8000 > 0, FlagS, j);
    FlagBit(s, EvenParity(v), FlagP, j);
    FlagBit(p, v == 0, FlagZ, j);
  }

  /** The three flags `ProcessFlags` writes, read back: each is its test on
      the aligned value. */
  lemma ProcessedFlags(flags: u16, w: Width, value: u16)
    ensures var r, v := Processed(flags, w, value), Aligned(w, value);
      && (Has(r, FlagS) <==> v >= 0x8000)
      && (Has(r, FlagP) <==> EvenParity(v))
      && (Has(r, FlagZ) <==> v == 0)
  {
    var v := Aligned(w, value);
    var s := WithFlag(flags, v / 0x8000 > 0, FlagS);
    var p := WithFlag(s, EvenParity(v), FlagP);
    var r := WithFlag(p, v == 0, FlagZ);
    FlagBit(flags, v / 0x8000 > 0, FlagS, 7);
    FlagBit(s, EvenParity(v), FlagP, 7);
    FlagBit(s, EvenParity(v), FlagP, 2);
    FlagBit(p, v == 0, FlagZ, 7);
    FlagBit(p, v == 0, FlagZ, 2);
    FlagBit(p, v == 0, FlagZ, 6);
    HasBit(r, FlagS);
    HasBit(r, FlagP);
    HasBit(r, FlagZ);
  }

  /** Counting the ones of a value shifted left by `k` bits, over `k` more
      bits, counts the ones of the value. */
  lemma {:induction false} OnesShift(x: nat, n: nat, k: nat)
    ensures Ones(x * Pow2(k), n + k) == Ones(x, n)
  {
    if k > 0 {
      Doubled(x, Pow2(k - 1));
      OnesShift(x, n, k - 1);
    }
  }

  /** Doubling a product, and halving it back. */
  lemma Doubled(x: nat, p: nat)
    ensures x * (2 * p) == 2 * (x * p)
    ensures (2 * (x * p)) % 2 == 0 && (2 * (x * p)) / 2 == x * p
  {
  }

  /** At half width the flags describe the low byte of the value: for the
      low half S is its bit 7, P its parity and Z its being zero; for the
      high half S is always clear (the byte never reaches bit 15), and P
      and Z are the same tests. */
  lemma ProcessedHalf(flags: u16, value: u16)
    ensures var lo := Processed(flags, WidthLo, value);
      && (Has(lo, FlagS) <==> Low(value) >= 0x80)
      && (Has(lo, FlagP) <==> EvenParity(Low(value)))
      && (Has(lo, FlagZ) <==> Low(value) == 0)
    ensures var hi := Processed(flags, WidthHi, value);
      && !Has(hi, FlagS)
      && (Has(hi, FlagP) <==> EvenParity(Low(value)))
      && (Has(hi, FlagZ) <==> Low(value) == 0)
  {
    ProcessedFlags(flags, WidthLo, value);
    ProcessedFlags(flags, WidthHi, value);
    var b := Low(value);
    Pow8();
    OnesShift(b, 8, 8);
    ByteOnes(b);
  }

  /** Full-width parity differs from the arithmetic of part1/main.go, which
      counts the low byte only: a full-width `add` whose value is 0x0100
      raises PF there, while `ProcessFlags` clears it. */
  lemma FullParityDiffers(flags: u16)
    ensures Arith.Value(Add, WidthFull, 0x100, 0) == 0x100
    ensures Arith.Raised(Add, WidthFull, 0x100, 0, FlagP)
    ensures !Has(Processed(flags, WidthFull, 0x100), FlagP)
  {
    FullParityDiffersAt(flags, 0x100);
  }

  lemma FullParityDiffersAt(flags: u16, v: u16)
    requires v == 0x100
    ensures Arith.Value(Add, WidthFull, v, 0) == v
    ensures Arith.Raised(Add, WidthFull, v, 0, FlagP)
    ensures !Has(Processed(flags, WidthFull, v), FlagP)
  {
    ProcessedFlags(flags, WidthFull, v);
    ParityOfHundredAt(v);
  }

  /** 0x100 has one bit set, and its low byte none. */
  lemma ParityOfHundred()
    ensures !EvenParity(0x100) && EvenParity(0x100 % 0x100)
  {
    ParityOfHundredAt(0x100);
  }

  lemma ParityOfHundredAt(v: u16)
    requires v == 0x100
    ensures !EvenParity(v) && EvenParity(v % 0x100)
  {
    Pow8();
    OnesShift(1, 8, 8);
    assert 1 * Pow2(8) == v;
    assert Ones(1, 8) == 1;
    OnesOfZero(16);
  }
}
