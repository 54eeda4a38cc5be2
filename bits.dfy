/** Go's fixed-width integers as bounded Dafny integers.  A Go `byte` is a
    `u8`, a `uint16` a `u16`, an `int16` an `i16`; the wrapping conversions
    between them are written out, and so are the shifts and masks the source
    applies to them (`x & 0xff` is `x % 0x100`, `x >> 8` is `x / 0x100`). */
module Bits {

  type u8 = x: int | 0 <= x < 0x100
  type u16 = x: int | 0 <= x < 0x10000
  type i16 = x: int | -0x8000 <= x < 0x8000

  /** Go's `int8(x)` of a byte: the byte read as two's complement. */
  function Int8(x: u8): (r: int)
    ensures -0x80 <= r < 0x80
    ensures (r + 0x100) % 0x100 == x
    ensures r < 0 <==> x >= 0x80
  {
    if x < 0x80 then x else x - 0x100
  }

  /** Go's `int16(x)` of a uint16: the word read as two's complement. */
  function Int16(x: u16): (r: i16)
    ensures (r + 0x10000) % 0x10000 == x
    ensures r < 0 <==> x >= 0x8000
  {
    if x < 0x8000 then x else x - 0x10000
  }

  /** Go's `uint16(i)` of an int16: its bits, modulo 2^16. */
  function Uint16(i: i16): (r: u16)
    ensures Int16(r) == i
    ensures r % 0x10000 == (i + 0x10000) % 0x10000
  {
    if i < 0 then i + 0x10000 else i
  }

  /** Go's wrapping `uint16` addition. */
  function Add16(a: u16, b: int): (r: u16)
    ensures (a + b - r) % 0x10000 == 0
  {
    (a + b) % 0x10000
  }

  /** Two wrapping additions, the second of an int16 taken as its uint16
      bits, are one addition modulo 2^16. */
  lemma Add16Twice(a: u16, n: nat, i: i16)
    ensures Add16(Add16(a, n), Uint16(i)) == (a + n + i) % 0x10000
  {
    var x := Add16(a, n);
    assert (x + Uint16(i)) % 0x10000 == (a + n + i) % 0x10000 by {
      assert (x + Uint16(i)) - (a + n + i) == (x - (a + n)) + (Uint16(i) - i);
    }
  }

  /** The low byte of a word: Go's `byte(x)` and `x & 0xff`. */
  function Low(x: u16): (r: u8)
  {
    x % 0x100
  }

  /** The high byte of a word: Go's `x >> 8` of a uint16. */
  function High(x: u16): (r: u8)
    ensures x == r * 0x100 + Low(x)
  {
    x / 0x100
  }

  /** The little-endian word `lo | hi<<8`. */
  function Word(lo: u8, hi: u8): (w: u16)
    ensures Low(w) == lo && High(w) == hi
  {
    lo + hi * 0x100
  }

  lemma WordOfBytes(x: u16)
    ensures Word(Low(x), High(x)) == x
  {
  }

  /** The two signed integer types the source computes overflow in. */
  datatype IntType = I8 | I16 {
    /** 2^(bits-1): the magnitude of the type's most negative value. */
    function Half(): (h: int)
      ensures h == 0x80 || h == 0x8000
    {
      if I8? then 0x80 else 0x8000
    }

    /** Whether `x` is a value of this type. */
    predicate Holds(x: int) {
      -Half() <= x < Half()
    }
  }

  /** Go's wrapping conversion of an integer result into type `t`. */
  function Wrap(t: IntType, x: int): (r: int)
    ensures t.Holds(r)
    ensures (x - r) % (2 * t.Half()) == 0
    ensures t.Holds(x) ==> r == x
  {
    match t
    case I8 => (x + 0x80) % 0x100 - 0x80
    case I16 => (x + 0x8000) % 0x10000 - 0x8000
  }

  /** Wrapping a value less than one type-width away from the type's range
      adds or subtracts the width once. */
  lemma WrapRange(t: IntType, x: int)
    requires -2 * t.Half() <= x < 2 * t.Half()
    ensures Wrap(t, x) == if x >= t.Half() then x - 2 * t.Half() else if x < -t.Half() then x + 2 * t.Half() else x
  {
  }

  /** 2^i. */
  function Pow2(i: nat): (p: nat)
    ensures p >= 1
  {
    if i == 0 then 1 else 2 * Pow2(i - 1)
  }

  lemma Pow8()
    ensures Pow2(8) == 0x100
  {
    assert Pow2(4) == 16;
  }

  /** Whether bit `i` of `x` is one. */
  predicate Bit(x: nat, i: nat) {
    (x / Pow2(i)) % 2 == 1
  }

  /** Bitwise OR of the low `n` bits of `x` and `y` (Go's `|` on
      non-negative operands below 2^n). */
  function Or(x: nat, y: nat, n: nat): (r: nat)
    ensures r < Pow2(n)
  {
    if n == 0 then 0
    else (if x % 2 == 1 || y % 2 == 1 then 1 else 0) + 2 * Or(x / 2, y / 2, n - 1)
  }

  /** OR with zero is the identity on values that fit the width. */
  lemma {:induction false} OrZero(x: nat, n: nat)
    requires x < Pow2(n)
    ensures Or(x, 0, n) == x
    ensures Or(0, x, n) == x
  {
    if n > 0 {
      OrZero(x / 2, n - 1);
    }
  }

  /** OR with all ones gives all ones. */
  lemma {:induction false} OrOnes(x: nat, n: nat)
    ensures Or(x, Pow2(n) - 1, n) == Pow2(n) - 1
    ensures Or(Pow2(n) - 1, x, n) == Pow2(n) - 1
  {
    if n > 0 {
      assert (Pow2(n) - 1) / 2 == Pow2(n - 1) - 1;
      OrOnes(x / 2, n - 1);
    }
  }

  /** The low `n` bits of `x` with every bit of `y` cleared (Go's `x &^ y`,
      or `x & ^y`, on operands below 2^n). */
  function AndNot(x: nat, y: nat, n: nat): (r: nat)
    ensures r < Pow2(n)
  {
    if n == 0 then 0
    else (if x % 2 == 1 && y % 2 == 0 then 1 else 0) + 2 * AndNot(x / 2, y / 2, n - 1)
  }

  /** Division by a positive divisor is determined by quotient and
      remainder. */
  lemma DivUnique(x: nat, d: nat, k: nat, m: nat)
    requires d > 0 && x == d * k + m && m < d
    ensures x / d == k
  {
    var k', m' := x / d, x % d;
    var t := k' - k;
    assert d * t == m - m' by {
      assert d * k' + m' == d * k + m;
      assert d * t == d * k' - d * k;
    }
    if t > 0 {
      MulMonotone(d, t);
    }
  }

  lemma MulMonotone(d: nat, t: nat)
    requires t > 0
    ensures d * t >= d
  {
    assert d * t == d * (t - 1) + d;
  }

  /** Bit `j` of `x` is bit `j - 1` of `x / 2`. */
  lemma BitShift(x: nat, j: nat)
    requires j > 0
    ensures Bit(x, j) == Bit(x / 2, j - 1)
  {
    var p := Pow2(j - 1);
    var q := x / 2;
    assert q == p * (q / p) + q % p;
    assert x == (2 * p) * (q / p) + (2 * (q % p) + x % 2);
    DivUnique(x, 2 * p, q / p, 2 * (q % p) + x % 2);
  }

  /** Bit `j` of an OR is one when it is one in either operand. */
  lemma {:induction false} OrBit(x: nat, y: nat, n: nat, j: nat)
    requires j < n
    ensures Bit(Or(x, y, n), j) <==> Bit(x, j) || Bit(y, j)
  {
    var r := Or(x, y, n);
    assert r % 2 == 1 <==> x % 2 == 1 || y % 2 == 1;
    assert r / 2 == Or(x / 2, y / 2, n - 1);
    if j > 0 {
      BitShift(r, j);
      BitShift(x, j);
      BitShift(y, j);
      OrBit(x / 2, y / 2, n - 1, j - 1);
    }
  }

  /** Bit `j` of an AND-NOT is one when it is one in `x` and zero in `y`. */
  lemma {:induction false} AndNotBit(x: nat, y: nat, n: nat, j: nat)
    requires j < n
    ensures Bit(AndNot(x, y, n), j) <==> Bit(x, j) && !Bit(y, j)
  {
    if j > 0 {
      BitShift(AndNot(x, y, n), j);
      BitShift(x, j);
      BitShift(y, j);
      AndNotBit(x / 2, y / 2, n - 1, j - 1);
    }
  }

  /** 2^i has bit `i` and no other. */
  lemma {:induction false} PowBit(i: nat, j: nat)
    ensures Bit(Pow2(i), j) <==> i == j
  {
    if i > 0 && j > 0 {
      BitShift(Pow2(i), j);
      PowBit(i - 1, j - 1);
    } else if i > 0 {
      assert Pow2(i) % 2 == 0;
    } else if j > 0 {
      BitShift(1, j);
      assert !Bit(0, j - 1);
    }
  }

  /** The number of one bits among bits 0 .. n-1 of `x`, counted from bit 0
      upwards. */
  function Ones(x: nat, n: nat): (c: nat)
    ensures c <= n
    ensures x == 0 ==> c == 0
  {
    if n == 0 then 0 else x % 2 + Ones(x / 2, n - 1)
  }

  /** Go's `bits.OnesCount16(x) % 2 == 0`. */
  predicate EvenParity(x: u16) {
    Ones(x, 16) % 2 == 0
  }

  lemma {:induction false} OnesOfSmall(x: nat, n: nat, m: nat)
    requires m <= n
    requires x < Pow2(m)
    ensures Ones(x, n) == Ones(x, m)
  {
    if m == 0 {
      assert x == 0;
      OnesOfZero(n);
    } else {
      OnesOfSmall(x / 2, n - 1, m - 1);
    }
  }

  lemma {:induction false} OnesOfZero(n: nat)
    ensures Ones(0, n) == 0
  {
  }

  /** Go's `bits.OnesCount16(b)` of a byte counts only its eight bits. */
  lemma ByteOnes(b: u8)
    ensures Ones(b, 16) == Ones(b, 8)
  {
    assert Pow2(8) == 0x100;
    OnesOfSmall(b, 16, 8);
  }
}
