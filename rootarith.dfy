/** The register arithmetic of main.go: `applyOp` with `afAdd` and `afSub`.
    Unlike part1/main.go it computes the sign, parity and zero flags from
    the byte a half-width operation addresses, and it combines a half-width
    result with the untouched byte by OR. */
module RootArith {
  import opened Bits
  import opened Types
  import Arith

  /** The source's `opMov`, `opAdd` and `opSub` in uint16. */
  function Calc(op: Op, x: u16, b: u16): (v: u16)
    requires Arith.Applies(op)
    ensures op == Mov ==> v == b
    ensures op == Add ==> (v - (x + b)) % 0x10000 == 0
    ensures op == Sub ==> (v - (x - b)) % 0x10000 == 0
  {
    match op
    case Mov => b
    case Add => (x + b) % 0x10000
    case Sub => (x - b) % 0x10000
  }

  /** The full register value `applyOp` returns: at the low half, the
      operation on the low byte ORed with the register's high byte (so a
      result above 0xFF spills into it); at the high half, the result shifted
      into the high byte beside the untouched low byte. */
  function Value(op: Op, w: Width, a: u16, b: u16): (v: u16)
    requires Arith.Applies(op)
  {
    match w
    case WidthFull => Calc(op, a, b)
    case WidthLo =>
      var c := Calc(op, Low(a), b);
      Pow8();
      Word(Low(c), Or(High(c), High(a), 8))
    case WidthHi => Arith.PackHi(Calc(op, High(a), b), a)
  }

  /** The part of the value the sign, parity and zero flags look at: the
      whole word, or the byte the operation addressed. */
  function ValueCalc(w: Width, value: u16): (c: u16)
    ensures w == WidthFull ==> c == value
    ensures w == WidthLo ==> c == value % 0x100
    ensures w == WidthHi ==> c * 0x100 + value % 0x100 == value
    ensures w != WidthFull ==> c < 0x100
  {
    match w
    case WidthFull => value
    case WidthLo => Low(value)
    case WidthHi => High(value)
  }

  /** The flags `afAdd` raises: at half width both operands are reduced to
      the addressed byte; C on a carry out of the width, A on a carry out of
      the low nibble, O by the signed-overflow test at the width. */
  predicate AddRaised(w: Width, a: u16, b: u16, f: Flag) {
    var x := Arith.Operand(w, a);
    var y := if w == WidthFull then b else b % 0x100;
    match f
    case FlagC => x + y > Arith.Max(w)
    case FlagA => (x % 16 + y % 16) % 0x100 > 15
    case FlagO =>
      if w == WidthFull then Arith.Overflow(I16, Add, Int16(x), Int16(y))
      else Arith.Overflow(I8, Add, Int8(x), Int8(y))
    case _ => false
  }

  /** The overflow test of `afSub` on int16 operands: a negative minus a
      positive that comes out positive, or a positive minus a negative that
      comes out negative, where `result` is the difference as the source
      wraps it. */
  predicate SubOverflow(ia: int, ib: int, result: int) {
    (ia < 0 && 0 < ib && 0 < result) || (0 < ia && ib < 0 && result < 0)
  }

  /** The flags `afSub` raises: at half width only the first operand is
      reduced to its byte and read as int8, while the second is read whole as
      int16, and the difference is truncated to int8 for the test. */
  predicate SubRaised(w: Width, a: u16, b: u16, f: Flag) {
    var x := Arith.Operand(w, a);
    match f
    case FlagC => (x - b) % 0x1_0000_0000 > Arith.Max(w)
    case FlagA => (x % 16 - b % 16) % 0x100 > 15
    case FlagO =>
      if w == WidthFull then SubOverflow(Int16(x), Int16(b), Wrap(I16, Int16(x) - Int16(b)))
      else SubOverflow(Int8(x), Int16(b), Wrap(I8, Wrap(I16, Int8(x) - Int16(b))))
    case _ => false
  }

  /** Whether `applyOp` raises flag `f`: C, A and O from `afAdd`/`afSub`
      (none for `mov`), then S from the top bit of the addressed part, P from
      the parity of its low byte, Z when it is zero. */
  predicate Raised(op: Op, w: Width, a: u16, b: u16, f: Flag)
    requires Arith.Applies(op)
  {
    var vc := ValueCalc(w, Value(op, w, a, b));
    match f
    case FlagS => vc / (if w == WidthFull then 0x8000 else 0x80) > 0
    case FlagP => EvenParity(vc % 0x100)
    case FlagZ => vc == 0
    case _ => (op == Add && AddRaised(w, a, b, f)) || (op == Sub && SubRaised(w, a, b, f))
  }

  /** The FLAGS word of `applyOp`: the raised flags ORed together (`Flag`
      reads them back). */
  function FlagsWord(op: Op, w: Width, a: u16, b: u16): (f: u16)
    requires Arith.Applies(op)
    ensures f < 0x200
  {
    Flags(Raised(op, w, a, b, FlagC), Raised(op, w, a, b, FlagP), Raised(op, w, a, b, FlagA),
          Raised(op, w, a, b, FlagZ), Raised(op, w, a, b, FlagS), Raised(op, w, a, b, FlagO))
  }

  /** The FLAGS word of `applyOp` holds exactly the raised flags. */
  lemma Flag(op: Op, w: Width, a: u16, b: u16, f: Types.Flag)
    requires Arith.Applies(op)
    ensures Has(FlagsWord(op, w, a, b), f) <==> Raised(op, w, a, b, f)
  {
    FlagsHas(f, Raised(op, w, a, b, FlagC), Raised(op, w, a, b, FlagP), Raised(op, w, a, b, FlagA),
             Raised(op, w, a, b, FlagZ), Raised(op, w, a, b, FlagS), Raised(op, w, a, b, FlagO));
  }

  /** Full-width `add` computes the same value and flags in both snapshots. */
  lemma AddFullAgrees(a: u16, b: u16)
    ensures Value(Add, WidthFull, a, b) == Arith.RegisterValue(Add, WidthFull, a, b)
    ensures FlagsWord(Add, WidthFull, a, b) == Arith.ArithmeticFlags(Add, WidthFull, a, b)
  {
    AddFullFlagsAgree(a, b);
    FullValueAgrees(Add, a, b);
  }

  /** At full width both snapshots store the operation's 16-bit value. */
  lemma FullValueAgrees(op: Op, a: u16, b: u16)
    requires op == Add || op == Sub
    ensures Value(op, WidthFull, a, b) == Arith.RegisterValue(op, WidthFull, a, b)
  {
    assert Arith.RegisterValue(op, WidthFull, a, b) == Arith.Value(op, WidthFull, a, b);
    assert Arith.Operand(WidthFull, a) == a;
  }

  /** The FLAGS words of a full-width `add` agree flag by flag. */
  lemma AddFullFlagsAgree(a: u16, b: u16)
    ensures FlagsWord(Add, WidthFull, a, b) == Arith.ArithmeticFlags(Add, WidthFull, a, b)
  {
    AddFullFlagAgrees(a, b, FlagC);
    AddFullFlagAgrees(a, b, FlagP);
    AddFullFlagAgrees(a, b, FlagA);
    AddFullFlagAgrees(a, b, FlagZ);
    AddFullFlagAgrees(a, b, FlagS);
    AddFullFlagAgrees(a, b, FlagO);
  }

  /** Each flag of a full-width `add` is raised in both snapshots alike. */
  lemma AddFullFlagAgrees(a: u16, b: u16, f: Flag)
    ensures Raised(Add, WidthFull, a, b, f) == Arith.Raised(Add, WidthFull, a, b, f)
  {
    if f in {FlagS, FlagP, FlagZ} {
      AddFullResultAgrees(a, b, f);
    }
  }

  /** The flags read from a full-width `add`'s value agree. */
  lemma AddFullResultAgrees(a: u16, b: u16, f: Flag)
    requires f in {FlagS, FlagP, FlagZ}
    ensures Raised(Add, WidthFull, a, b, f) == Arith.Raised(Add, WidthFull, a, b, f)
  {
    assert Value(Add, WidthFull, a, b) == Arith.Value(Add, WidthFull, a, b);
  }

  /** The full-width overflow test of `sub` is the true signed overflow of
      the difference, except for 0 minus the most negative value. */
  lemma SubOverflowFull(ia: int, ib: int)
    requires I16.Holds(ia) && I16.Holds(ib)
    ensures SubOverflow(ia, ib, Wrap(I16, ia - ib)) <==> !I16.Holds(ia - ib) && !(ia == 0 && ib == -0x8000)
  {
    WrapRange(I16, ia - ib);
  }

  /** Each flag of a full-width `sub` is raised in both snapshots alike
      when the second operand is not 0x8000. */
  lemma SubFullFlagAgrees(a: u16, b: u16, f: Flag)
    requires b != 0x8000
    ensures Raised(Sub, WidthFull, a, b, f) == Arith.Raised(Sub, WidthFull, a, b, f)
  {
    if f == FlagO {
      SubOverflowFull(Int16(a), Int16(b));
      Arith.OverflowSub(I16, Int16(a), Int16(b));
    } else if f in {FlagS, FlagP, FlagZ} {
      SubFullResultAgrees(a, b, f);
    }
  }

  /** The flags read from a full-width `sub`'s value agree. */
  lemma SubFullResultAgrees(a: u16, b: u16, f: Flag)
    requires f in {FlagS, FlagP, FlagZ}
    ensures Raised(Sub, WidthFull, a, b, f) == Arith.Raised(Sub, WidthFull, a, b, f)
  {
    assert Value(Sub, WidthFull, a, b) == Arith.Value(Sub, WidthFull, a, b);
  }

  /** Full-width `sub` agrees with part1/main.go whenever the second operand
      is not 0x8000. */
  lemma SubFullAgrees(a: u16, b: u16)
    requires b != 0x8000
    ensures Value(Sub, WidthFull, a, b) == Arith.RegisterValue(Sub, WidthFull, a, b)
    ensures FlagsWord(Sub, WidthFull, a, b) == Arith.ArithmeticFlags(Sub, WidthFull, a, b)
  {
    SubFullFlagsAgree(a, b);
    FullValueAgrees(Sub, a, b);
  }

  /** The FLAGS words of a full-width `sub` agree flag by flag. */
  lemma SubFullFlagsAgree(a: u16, b: u16)
    requires b != 0x8000
    ensures FlagsWord(Sub, WidthFull, a, b) == Arith.ArithmeticFlags(Sub, WidthFull, a, b)
  {
    SubFullFlagAgrees(a, b, FlagC);
    SubFullFlagAgrees(a, b, FlagP);
    SubFullFlagAgrees(a, b, FlagA);
    SubFullFlagAgrees(a, b, FlagZ);
    SubFullFlagAgrees(a, b, FlagS);
    SubFullFlagAgrees(a, b, FlagO);
  }

  /** At 0x8000 the two snapshots disagree on OF: `1 - 0x8000` overflows
      and only this snapshot flags it; `0xFFFF - 0x8000` does not overflow
      and only part1/main.go flags it. */
  lemma SubFullDisagrees()
    ensures Raised(Sub, WidthFull, 1, 0x8000, FlagO)
    ensures !Arith.Raised(Sub, WidthFull, 1, 0x8000, FlagO)
    ensures !Raised(Sub, WidthFull, 0xFFFF, 0x8000, FlagO)
    ensures Arith.Raised(Sub, WidthFull, 0xFFFF, 0x8000, FlagO)
  {
  }

  /** At the low half the low byte is the operation's result and the high
      byte is the register's high byte ORed with whatever the 16-bit result
      carried above bit 7; with no such carry the high byte is kept. */
  lemma LoHalf(op: Op, a: u16, b: u16)
    requires Arith.Applies(op)
    ensures Low(Value(op, WidthLo, a, b)) == Low(Calc(op, Low(a), b))
    ensures High(Value(op, WidthLo, a, b)) == Or(High(Calc(op, Low(a), b)), High(a), 8)
  {
    Pow8();
  }

  /** With no carry or borrow above bit 7 the high byte is kept. */
  lemma LoKeepsHigh(op: Op, a: u16, b: u16)
    requires Arith.Applies(op) && Calc(op, Low(a), b) < 0x100
    ensures High(Value(op, WidthLo, a, b)) == High(a)
  {
    LoHalf(op, a, b);
    Pow8();
    OrZero(High(a), 8);
  }

  /** `add al, 1` with AX=0x00FF leaves 0x0100 in AX here (the carry lands
      in AH) and 0x0000 in part1/main.go. */
  lemma LoCarrySpills()
    ensures Value(Add, WidthLo, 0x00FF, 1) == 0x0100
    ensures Arith.RegisterValue(Add, WidthLo, 0x00FF, 1) == 0x0000
  {
    LoCarrySpillsAt(0x00FF, 1);
  }

  lemma LoCarrySpillsAt(ax: u16, imm: u16)
    requires ax == 0x00FF && imm == 1
    ensures Value(Add, WidthLo, ax, imm) == 0x0100
    ensures Arith.RegisterValue(Add, WidthLo, ax, imm) == 0x0000
  {
    var lo := Low(ax);
    assert lo == 0xFF && High(ax) == 0;
    var c := Calc(Add, lo, imm);
    assert c == 0x100 by {
      assert lo + imm == 0x100;
    }
    LoHalf(Add, ax, imm);
    Pow8();
    OrZero(1, 8);
    WordOfBytes(Value(Add, WidthLo, ax, imm));
    assert Arith.Value(Add, WidthLo, ax, imm) == 0x100 by {
      assert Arith.Operand(WidthLo, ax) + imm == 0x100;
    }
    Arith.HalfPacking(Add, WidthLo, ax, imm);
  }

  /** `sub al, 1` with AX=0 leaves 0xFFFF in AX here (the borrow sets every
      bit of AH) and 0x00FF in part1/main.go. */
  lemma LoBorrowSpills()
    ensures Value(Sub, WidthLo, 0, 1) == 0xFFFF
    ensures Arith.RegisterValue(Sub, WidthLo, 0, 1) == 0x00FF
  {
    LoBorrowSpillsAt(0, 1);
  }

  lemma LoBorrowSpillsAt(ax: u16, imm: u16)
    requires ax == 0 && imm == 1
    ensures Value(Sub, WidthLo, ax, imm) == 0xFFFF
    ensures Arith.RegisterValue(Sub, WidthLo, ax, imm) == 0x00FF
  {
    var lo := Low(ax);
    assert lo == 0 && High(ax) == 0;
    var c := Calc(Sub, lo, imm);
    assert c == 0xFFFF by {
      assert lo - imm == -1;
    }
    LoHalf(Sub, ax, imm);
    Pow8();
    OrZero(0xFF, 8);
    WordOfBytes(Value(Sub, WidthLo, ax, imm));
    assert Arith.Value(Sub, WidthLo, ax, imm) == 0xFFFF by {
      assert Arith.Operand(WidthLo, ax) - imm == -1;
    }
    Arith.HalfPacking(Sub, WidthLo, ax, imm);
  }

  /** `mov al, -1` (an immediate that reaches `applyOp` as 0xFFFF)
      overwrites AH here but not in part1/main.go. */
  lemma LoMovSpills()
    ensures Value(Mov, WidthLo, 0x1234, 0xFFFF) == 0xFFFF
    ensures Arith.RegisterValue(Mov, WidthLo, 0x1234, 0xFFFF) == 0x12FF
  {
    LoMovSpillsAt(0x1234, 0xFFFF);
  }

  lemma LoMovSpillsAt(ax: u16, imm: u16)
    requires ax == 0x1234 && imm == 0xFFFF
    ensures Value(Mov, WidthLo, ax, imm) == 0xFFFF
    ensures Arith.RegisterValue(Mov, WidthLo, ax, imm) == 0x12FF
  {
    assert Low(ax) == 0x34 && High(ax) == 0x12;
    assert Calc(Mov, Low(ax), imm) == 0xFFFF;
    LoHalf(Mov, ax, imm);
    Pow8();
    OrOnes(0x12, 8);
    WordOfBytes(Value(Mov, WidthLo, ax, imm));
    Arith.HalfPacking(Mov, WidthLo, ax, imm);
  }

  /** At half width ZF is set exactly when the addressed byte of the result
      is zero. */
  lemma ZeroAtHalfWidth(op: Op, w: Width, a: u16, b: u16)
    requires Arith.Applies(op) && w != WidthFull
    ensures Raised(op, w, a, b, FlagZ) <==> Calc(op, Arith.Operand(w, a), b) % 0x100 == 0
  {
    if w == WidthLo {
      LoHalf(op, a, b);
    }
  }

  /** At half width the byte the flags look at is the low byte of the
      operation's result on the addressed byte, at either half. */
  lemma HalfWidthByte(op: Op, w: Width, a: u16, b: u16)
    requires Arith.Applies(op) && w != WidthFull
    ensures ValueCalc(w, Value(op, w, a, b)) == Low(Calc(op, Arith.Operand(w, a), b))
  {
    if w == WidthLo {
      LoHalf(op, a, b);
    }
  }

  /** At half width SF is bit 7 of that byte. */
  lemma SignAtHalfWidth(op: Op, w: Width, a: u16, b: u16)
    requires Arith.Applies(op) && w != WidthFull
    ensures Raised(op, w, a, b, FlagS) <==> Low(Calc(op, Arith.Operand(w, a), b)) >= 0x80
  {
    HalfWidthByte(op, w, a, b);
  }

  /** At half width PF is the parity of that byte. */
  lemma ParityAtHalfWidth(op: Op, w: Width, a: u16, b: u16)
    requires Arith.Applies(op) && w != WidthFull
    ensures Raised(op, w, a, b, FlagP) <==> EvenParity(Low(Calc(op, Arith.Operand(w, a), b)))
  {
    var vc := ValueCalc(w, Value(op, w, a, b));
    HalfWidthByte(op, w, a, b);
    assert vc % 0x100 == vc;
  }

  /** `add al, 1` with AL=0xFF sets ZF here, while part1/main.go, testing
      the whole 16-bit sum 0x100, leaves it clear. */
  lemma ZeroAtHalfWidthExample()
    ensures Raised(Add, WidthLo, 0xFF, 1, FlagZ)
    ensures !Arith.Raised(Add, WidthLo, 0xFF, 1, FlagZ)
  {
    ZeroAtHalfWidthExampleAt(0xFF, 1);
  }

  lemma ZeroAtHalfWidthExampleAt(al: u16, imm: u16)
    requires al == 0xFF && imm == 1
    ensures Raised(Add, WidthLo, al, imm, FlagZ)
    ensures !Arith.Raised(Add, WidthLo, al, imm, FlagZ)
  {
    ZeroHere(al, imm);
    ZeroNotInPart1(al, imm);
  }

  lemma ZeroHere(al: u16, imm: u16)
    requires al == 0xFF && imm == 1
    ensures Raised(Add, WidthLo, al, imm, FlagZ)
  {
    var x := Arith.Operand(WidthLo, al);
    assert x == 0xFF;
    assert Calc(Add, x, imm) == 0x100 by {
      assert x + imm == 0x100;
    }
    ZeroAtHalfWidth(Add, WidthLo, al, imm);
  }

  lemma ZeroNotInPart1(al: u16, imm: u16)
    requires al == 0xFF && imm == 1
    ensures !Arith.Raised(Add, WidthLo, al, imm, FlagZ)
  {
    assert Arith.Value(Add, WidthLo, al, imm) == 0x100 by {
      assert Arith.Operand(WidthLo, al) + imm == 0x100;
    }
  }
}
