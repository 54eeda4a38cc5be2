/** The register arithmetic of part1/main.go: `applyOp`, `applyArithmetic`
    and `overflowFlag`.  A result is a full 16-bit register value and a
    FLAGS word. */
module Arith {
  import opened Bits
  import opened Types

  /** The operations `applyOp` accepts. */
  predicate Applies(op: Op) {
    op == Mov || op == Add || op == Sub
  }

  /** The source's generic `overflowFlag` in the signed type `t`: subtraction
      negates the second operand in `t` (so the most negative value stays
      itself), then the flag is set when two operands of one sign add,
      wrapping in `t`, to a result strictly of the other sign. */
  predicate Overflow(t: IntType, op: Op, ia: int, ib: int)
    requires t.Holds(ia) && t.Holds(ib)
  {
    var nb := if op == Sub then Wrap(t, -ib) else ib;
    var s := Wrap(t, ia + nb);
    (ia < 0 && nb < 0 && 0 < s) || (0 < ia && 0 < nb && s < 0)
  }

  /** For addition the flag is the signed overflow of `ia + ib`, except
      that the sum of two most-negative values (which wraps to zero) is not
      flagged. */
  lemma OverflowAdd(t: IntType, ia: int, ib: int)
    requires t.Holds(ia) && t.Holds(ib)
    ensures Overflow(t, Add, ia, ib) <==> !t.Holds(ia + ib) && !(ia == -t.Half() && ib == -t.Half())
  {
    WrapRange(t, ia + ib);
  }

  /** For subtraction the flag is the signed overflow of `ia - ib` whenever
      `ib` is not the most negative value.  When it is, the flag is set
      exactly for the negative `ia` other than the most negative one, which
      is the complement of where `ia - ib` really overflows (at every
      `ia >= 0`). */
  lemma OverflowSub(t: IntType, ia: int, ib: int)
    requires t.Holds(ia) && t.Holds(ib)
    ensures ib != -t.Half() ==> (Overflow(t, Sub, ia, ib) <==> !t.Holds(ia - ib))
    ensures ib == -t.Half() ==> (Overflow(t, Sub, ia, ib) <==> -t.Half() < ia < 0)
    ensures ib == -t.Half() ==> (!t.Holds(ia - ib) <==> ia >= 0)
  {
    WrapRange(t, -ib);
    WrapRange(t, ia + Wrap(t, -ib));
  }

  /** `cmp ax, 0x8000` with AX=0: the difference 0x8000 overflows int16,
      but the flag stays clear. */
  lemma OverflowSubMinExample()
    ensures !I16.Holds(0 - (-0x8000))
    ensures !Overflow(I16, Sub, 0, -0x8000)
  {
  }

  /** The operand an arithmetic instruction works on at width `w` (the
      source's `a >>= 8` for the high half and `a &= 0xff`). */
  function Operand(w: Width, a: u16): (x: u16)
    ensures w == WidthFull ==> x == a
    ensures w == WidthLo ==> x == Low(a)
    ensures w == WidthHi ==> x == High(a)
  {
    match w
    case WidthFull => a
    case WidthLo => a % 0x100
    case WidthHi => (a / 0x100) % 0x100
  }

  /** The largest unsigned value of the width: the source's `carry`. */
  function Max(w: Width): (m: nat)
    ensures m == 0xFF || m == 0xFFFF
  {
    if w == WidthFull then 0xFFFF else 0xFF
  }

  /** The 16-bit result of `applyArithmetic`: the operand at width `w`
      plus or minus the whole second operand, wrapping at 2^16. */
  function Value(op: Op, w: Width, a: u16, b: u16): (v: u16)
    ensures (v - (if op == Add then Operand(w, a) + b else Operand(w, a) - b)) % 0x10000 == 0
  {
    var x := Operand(w, a);
    if op == Add then (x + b) % 0x10000 else (x - b) % 0x10000
  }

  /** Whether `applyArithmetic` raises flag `f`: C when the uint32 sum or
      (wrapping) difference exceeds the width's maximum, P when the low byte
      of the value has an even number of ones, A when the uint8 nibble sum or
      (wrapping) difference exceeds 15, Z when the 16-bit value is zero, S
      when the width's sign bit of the value is one, and O by `overflowFlag`
      at int16 or, at half width, int8 (the second operand truncated). */
  predicate Raised(op: Op, w: Width, a: u16, b: u16, f: Flag) {
    var x := Operand(w, a);
    match f
    case FlagC => (if op == Add then x + b else (x - b) % 0x1_0000_0000) > Max(w)
    case FlagP => EvenParity(Value(op, w, a, b) % 0x100)
    case FlagA => (if op == Add then (x % 16 + b % 16) % 0x100 else (x % 16 - b % 16) % 0x100) > 15
    case FlagZ => Value(op, w, a, b) == 0
    case FlagS => (Value(op, w, a, b) / (if w == WidthFull then 0x8000 else 0x80)) % 2 == 1
    case FlagO =>
      if w == WidthFull then Overflow(I16, op, Int16(x), Int16(b))
      else Overflow(I8, op, Int8(x), Int8(b % 0x100))
  }

  /** The FLAGS word of `applyArithmetic`: the raised flags ORed together
      (`ArithmeticFlag` reads them back). */
  function ArithmeticFlags(op: Op, w: Width, a: u16, b: u16): (f: u16)
    requires op == Add || op == Sub
    ensures f < 0x200
  {
    Flags(Raised(op, w, a, b, FlagC), Raised(op, w, a, b, FlagP), Raised(op, w, a, b, FlagA),
          Raised(op, w, a, b, FlagZ), Raised(op, w, a, b, FlagS), Raised(op, w, a, b, FlagO))
  }

  /** The FLAGS word of `applyArithmetic` holds exactly the raised flags. */
  lemma ArithmeticFlag(op: Op, w: Width, a: u16, b: u16, f: Flag)
    requires op == Add || op == Sub
    ensures Has(ArithmeticFlags(op, w, a, b), f) <==> Raised(op, w, a, b, f)
  {
    FlagsHas(f, Raised(op, w, a, b, FlagC), Raised(op, w, a, b, FlagP), Raised(op, w, a, b, FlagA),
             Raised(op, w, a, b, FlagZ), Raised(op, w, a, b, FlagS), Raised(op, w, a, b, FlagO));
  }

  /** A result packed into the low byte of register value `a`: the
      source's `value&0xff | a&0xff00`. */
  function PackLo(value: u16, a: u16): (r: u16)
    ensures Low(r) == Low(value) && High(r) == High(a)
  {
    value % 0x100 + (a / 0x100) * 0x100
  }

  /** A result packed into the high byte of register value `a`: the
      source's `value<<8 | a&0xff` in uint16. */
  function PackHi(value: u16, a: u16): (r: u16)
    ensures Low(r) == Low(a) && High(r) == Low(value)
  {
    (value * 0x100) % 0x10000 + a % 0x100
  }

  /** The register value `applyOp` returns: the second operand for `mov`,
      otherwise the arithmetic value, packed into the full register so that
      a half-width operation changes only its own byte. */
  function RegisterValue(op: Op, w: Width, a: u16, b: u16): (r: u16)
    requires Applies(op)
    ensures w == WidthLo ==> High(r) == High(a)
    ensures w == WidthHi ==> Low(r) == Low(a)
    ensures op == Mov && w == WidthFull ==> r == b
    ensures op == Mov && w == WidthLo ==> Low(r) == Low(b)
    ensures op == Mov && w == WidthHi ==> High(r) == Low(b)
    ensures op != Mov && w == WidthFull ==> r == Value(op, w, a, b)
    ensures op != Mov && w == WidthLo ==> Low(r) == Low(Value(op, w, a, b))
    ensures op != Mov && w == WidthHi ==> High(r) == Low(Value(op, w, a, b))
  {
    var value := if op == Mov then b else Value(op, w, a, b);
    match w
    case WidthFull => value
    case WidthLo => PackLo(value, a)
    case WidthHi => PackHi(value, a)
  }

  /** At half width the result is the register with the addressed byte
      replaced by the low byte of the operation's value (of the second
      operand for `mov`): a carry or borrow never reaches the other byte. */
  lemma HalfPacking(op: Op, w: Width, a: u16, b: u16)
    requires Applies(op) && w != WidthFull
    ensures var v := if op == Mov then b else Value(op, w, a, b);
      RegisterValue(op, w, a, b) == if w == WidthLo then Word(Low(v), High(a)) else Word(Low(a), Low(v))
  {
    WordOfBytes(RegisterValue(op, w, a, b));
  }

  /** A full-width `sub`/`cmp` sets ZF exactly when the operands are equal,
      CF exactly when the first is below the second as unsigned numbers, SF
      when the difference is negative as an int16, and AF on a borrow out of
      the low nibble; the value is the difference modulo 2^16. */
  lemma SubFull(a: u16, b: u16)
    ensures (Value(Sub, WidthFull, a, b) - (a - b)) % 0x10000 == 0
    ensures var flags := ArithmeticFlags(Sub, WidthFull, a, b);
      && (Has(flags, FlagZ) <==> a == b)
      && (Has(flags, FlagC) <==> a < b)
      && (Has(flags, FlagS) <==> Int16(Value(Sub, WidthFull, a, b)) < 0)
      && (Has(flags, FlagA) <==> a % 16 < b % 16)
  {
    var value := Value(Sub, WidthFull, a, b);
    assert Raised(Sub, WidthFull, a, b, FlagZ) <==> a == b;
    assert Raised(Sub, WidthFull, a, b, FlagC) <==> a < b;
    assert Raised(Sub, WidthFull, a, b, FlagS) <==> Int16(value) < 0;
    assert Raised(Sub, WidthFull, a, b, FlagA) <==> a % 16 < b % 16;
    ArithmeticFlag(Sub, WidthFull, a, b, FlagZ);
    ArithmeticFlag(Sub, WidthFull, a, b, FlagC);
    ArithmeticFlag(Sub, WidthFull, a, b, FlagS);
    ArithmeticFlag(Sub, WidthFull, a, b, FlagA);
  }

  /** The full-width difference read as int16 is the int16 difference of the
      operands, wrapped; SF is its sign. */
  lemma SignOfDifference(a: u16, b: u16)
    ensures Int16(Value(Sub, WidthFull, a, b)) == Wrap(I16, Int16(a) - Int16(b))
    ensures Raised(Sub, WidthFull, a, b, FlagS) <==> Int16(Value(Sub, WidthFull, a, b)) < 0
  {
  }

  /** After a full-width `cmp a, b`, SF differs from OF (the condition of
      `jl`) exactly when a is less than b as int16, provided b is not
      0x8000. */
  lemma SubSignedLess(a: u16, b: u16)
    requires b != 0x8000
    ensures Raised(Sub, WidthFull, a, b, FlagS) != Raised(Sub, WidthFull, a, b, FlagO) <==> Int16(a) < Int16(b)
  {
    SignOfDifference(a, b);
    OverflowSub(I16, Int16(a), Int16(b));
    WrapRange(I16, Int16(a) - Int16(b));
  }

  /** With b = 0x8000 (-32768), which no int16 is less than, SF differs from
      OF for every a but 0x8000 itself: `jl` after `cmp a, 0x8000` branches
      the wrong way, because negating -32768 in int16 leaves it negative. */
  lemma SubSignedLessAtMin(a: u16)
    ensures Raised(Sub, WidthFull, a, 0x8000, FlagS) != Raised(Sub, WidthFull, a, 0x8000, FlagO) <==> a != 0x8000
    ensures !(Int16(a) < Int16(0x8000))
  {
    SignOfDifference(a, 0x8000);
    OverflowSub(I16, Int16(a), Int16(0x8000));
    WrapRange(I16, Int16(a) - Int16(0x8000));
  }
}
