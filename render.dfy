/** The assembler text of decoded instructions (types.go): mnemonics,
    register names, size marks, displacements, immediates and jump targets,
    and `Instruction.String`, which joins them.  Each rendering has a
    parser beside it, and the lemmas show the text can be read back. */
module Render {
  import opened Bits
  import opened Outcomes
  import opened Types

  datatype Option<T> = None | Some(value: T)

  /** The last index of `s` holding a character of `cs`, or -1. */
  function LastOf(s: string, cs: set<char>): (i: int)
    ensures -1 <= i < |s|
    ensures i >= 0 ==> s[i] in cs
    ensures forall k | i < k < |s| :: s[k] !in cs
  {
    if |s| == 0 then -1
    else if s[|s| - 1] in cs then |s| - 1
    else LastOf(s[..|s| - 1], cs)
  }

  /** A character of `cs` followed by characters outside it is the last
      one of `cs`. */
  lemma {:induction false} LastOfAfter(a: string, b: string, cs: set<char>)
    requires |b| >= 1 && b[0] in cs
    requires forall k | 1 <= k < |b| :: b[k] !in cs
    ensures LastOf(a + b, cs) == |a|
    decreases |b|
  {
    var s := a + b;
    if |b| > 1 {
      var b' := b[..|b| - 1];
      assert s[|s| - 1] == b[|b| - 1];
      assert s[..|s| - 1] == a + b';
      LastOfAfter(a, b', cs);
    } else {
      assert s[|s| - 1] == b[0];
    }
  }

  /** The two signs `%+d` writes. */
  const Signs: set<char> := {'+', '-'}

  /** The first index of `s` holding `c`, or |s|. */
  function FirstOf(s: string, c: char): (i: nat)
    ensures i <= |s|
    ensures i < |s| ==> s[i] == c
    ensures forall k | 0 <= k < i :: s[k] != c
  {
    if |s| == 0 || s[0] == c then 0 else 1 + FirstOf(s[1..], c)
  }

  // ---------------------------------------------------------------------
  // Decimal numbers: Go's %d and %+d

  predicate IsDigit(c: char) {
    '0' <= c <= '9'
  }

  predicate AllDigits(t: string) {
    forall k | 0 <= k < |t| :: IsDigit(t[k])
  }

  function Digit(d: nat): (c: char)
    requires d < 10
    ensures IsDigit(c)
  {
    (d + '0' as int) as char
  }

  /** The decimal digits of `n`, most significant first, with no leading
      zero. */
  function Digits(n: nat): (t: string)
    ensures |t| >= 1 && AllDigits(t)
    ensures t[0] == '0' <==> n == 0
    ensures n == 0 ==> t == "0"
  {
    if n < 10 then [Digit(n)] else Digits(n / 10) + [Digit(n % 10)]
  }

  /** The number a string of decimal digits denotes. */
  function ValueOf(t: string): nat
    requires AllDigits(t)
  {
    if |t| == 0 then 0 else 10 * ValueOf(t[..|t| - 1]) + (t[|t| - 1] as int - '0' as int)
  }

  /** The digits of a number read back as that number. */
  lemma {:induction false} DigitsValue(n: nat)
    ensures ValueOf(Digits(n)) == n
  {
    if n >= 10 {
      var t := Digits(n);
      assert t[..|t| - 1] == Digits(n / 10);
      DigitsValue(n / 10);
    }
  }

  /** Go's `%d`: a minus sign for negative numbers, none otherwise. */
  function Decimal(i: int): (t: string)
    ensures |t| >= 1
    ensures i >= 0 ==> t == Digits(i)
    ensures i < 0 ==> t[0] == '-' && t[1..] == Digits(-i)
  {
    if i < 0 then "-" + Digits(-i) else Digits(i)
  }

  /** Go's `%+d`: the sign is always written. */
  function Signed(i: int): (t: string)
    ensures |t| >= 2 && t[0] in Signs && AllDigits(t[1..])
    ensures t[0] == '-' <==> i < 0
  {
    if i < 0 then "-" + Digits(-i) else "+" + Digits(i)
  }

  /** Reads `%d` text back. */
  function ParseDecimal(t: string): (r: Option<int>)
    ensures r.Some? ==> |t| >= 1
  {
    if |t| >= 2 && t[0] == '-' && AllDigits(t[1..]) then
      var n: int := ValueOf(t[1..]);
      Some(-n)
    else if |t| >= 1 && AllDigits(t) then Some(ValueOf(t))
    else None
  }

  /** Reads `%+d` text back. */
  function ParseSigned(t: string): (r: Option<int>)
    ensures r.Some? ==> |t| >= 2 && t[0] in Signs
  {
    if |t| >= 2 && t[0] in Signs && AllDigits(t[1..]) then
      var n: int := ValueOf(t[1..]);
      Some(if t[0] == '-' then -n else n)
    else None
  }

  lemma DecimalParses(i: int)
    ensures ParseDecimal(Decimal(i)) == Some(i)
  {
    if i < 0 {
      DigitsValue(-i);
    } else {
      DigitsValue(i);
    }
  }

  lemma SignedParses(i: int)
    ensures ParseSigned(Signed(i)) == Some(i)
  {
    if i < 0 {
      DigitsValue(-i);
    } else {
      DigitsValue(i);
    }
  }

  // ---------------------------------------------------------------------
  // Mnemonics, register names and size marks

  /** The source's `opStrs`. */
  function Mnemonic(op: Op): (t: string)
    ensures 2 <= |t| <= 6
  {
    match op
    case Mov => "mov"
    case Add => "add"
    case Sub => "sub"
    case Cmp => "cmp"
    case Je => "je"
    case Jl => "jl"
    case Jle => "jle"
    case Jb => "jb"
    case Jbe => "jbe"
    case Jp => "jp"
    case Jo => "jo"
    case Js => "js"
    case Jne => "jne"
    case Jnl => "jnl"
    case Jnle => "jnle"
    case Jnb => "jnb"
    case Jnbe => "jnbe"
    case Jnp => "jnp"
    case Jno => "jno"
    case Jns => "jns"
    case Loop => "loop"
    case Loopz => "loopz"
    case Loopnz => "loopnz"
    case Jcxz => "jcxz"
  }

  /** Reads a mnemonic back. */
  function ParseMnemonic(t: string): Option<Op> {
    match t
    case "mov" => Some(Mov)
    case "add" => Some(Add)
    case "sub" => Some(Sub)
    case "cmp" => Some(Cmp)
    case "je" => Some(Je)
    case "jl" => Some(Jl)
    case "jle" => Some(Jle)
    case "jb" => Some(Jb)
    case "jbe" => Some(Jbe)
    case "jp" => Some(Jp)
    case "jo" => Some(Jo)
    case "js" => Some(Js)
    case "jne" => Some(Jne)
    case "jnl" => Some(Jnl)
    case "jnle" => Some(Jnle)
    case "jnb" => Some(Jnb)
    case "jnbe" => Some(Jnbe)
    case "jnp" => Some(Jnp)
    case "jno" => Some(Jno)
    case "jns" => Some(Jns)
    case "loop" => Some(Loop)
    case "loopz" => Some(Loopz)
    case "loopnz" => Some(Loopnz)
    case "jcxz" => Some(Jcxz)
    case _ => None
  }

  /** Every mnemonic names its operation alone, and holds only lower-case
      letters. */
  lemma MnemonicParses(op: Op)
    ensures ParseMnemonic(Mnemonic(op)) == Some(op)
    ensures forall k | 0 <= k < |Mnemonic(op)| :: 'a' <= Mnemonic(op)[k] <= 'z'
  {
  }

  /** The source's `regStrsFull`: the names of the registers AX .. IP at
      full, low and high width; a register without halves has empty names
      for them, and FLAGS has no row. */
  const RegNames: seq<seq<string>> := [
    ["ax", "al", "ah"], ["bx", "bl", "bh"], ["cx", "cl", "ch"], ["dx", "dl", "dh"],
    ["sp", "", ""], ["bp", "", ""], ["si", "", ""], ["di", "", ""],
    ["es", "", ""], ["cs", "", ""], ["ss", "", ""], ["ds", "", ""],
    ["ip", "", ""]
  ]

  /** The source's `RegisterWidth` constants, used as the column index. */
  function Column(w: Width): (c: nat)
    ensures c < 3
  {
    match w
    case WidthFull => 0
    case WidthLo => 1
    case WidthHi => 2
  }

  /** `OperandReg.String`: the table entry, or a fault for FLAGS, which is
      past the end of the table. */
  function RegText(name: Register, w: Width): (r: Result<string>)
    ensures r.Ok? <==> name != RegFlags
    ensures r.Err? ==> r.fault == NoText
  {
    if name < |RegNames| then Ok(RegNames[name][Column(w)]) else Err(NoText)
  }

  /** Reads a register name back. */
  function ParseReg(t: string): Option<OperandType> {
    match t
    case "ax" => Some(Reg(RegAx, WidthFull))
    case "al" => Some(Reg(RegAx, WidthLo))
    case "ah" => Some(Reg(RegAx, WidthHi))
    case "bx" => Some(Reg(RegBx, WidthFull))
    case "bl" => Some(Reg(RegBx, WidthLo))
    case "bh" => Some(Reg(RegBx, WidthHi))
    case "cx" => Some(Reg(RegCx, WidthFull))
    case "cl" => Some(Reg(RegCx, WidthLo))
    case "ch" => Some(Reg(RegCx, WidthHi))
    case "dx" => Some(Reg(RegDx, WidthFull))
    case "dl" => Some(Reg(RegDx, WidthLo))
    case "dh" => Some(Reg(RegDx, WidthHi))
    case "sp" => Some(Reg(RegSp, WidthFull))
    case "bp" => Some(Reg(RegBp, WidthFull))
    case "si" => Some(Reg(RegSi, WidthFull))
    case "di" => Some(Reg(RegDi, WidthFull))
    case "es" => Some(Reg(RegEs, WidthFull))
    case "cs" => Some(Reg(RegCs, WidthFull))
    case "ss" => Some(Reg(RegSs, WidthFull))
    case "ds" => Some(Reg(RegDs, WidthFull))
    case "ip" => Some(Reg(RegIp, WidthFull))
    case _ => None
  }

  /** Whether a register operand has a name: AX .. IP at full width, and
      the halves of AX, BX, CX and DX. */
  predicate Named(name: Register, w: Width) {
    name < RegFlags && (w == WidthFull || name <= RegDx)
  }

  /** A named register renders as two lower-case letters that read back as
      the same register; the halves of SP .. IP render as nothing. */
  lemma RegTextParses(name: Register, w: Width)
    requires name != RegFlags
    ensures var t := RegText(name, w).value;
      && (t == "" <==> !Named(name, w))
      && (Named(name, w) ==> |t| == 2 && ParseReg(t) == Some(Reg(name, w)))
      && (forall k | 0 <= k < |t| :: 'a' <= t[k] <= 'z')
  {
    assert name in {0, 1, 2, 3, 4, 5, 6, 7, 8, 9, 10, 11, 12};
  }

  /** The source's `sizeMarkStrs`. */
  function SizeText(s: SizeMark): string {
    match s
    case SizeNone => ""
    case SizeByte => "byte"
    case SizeWord => "word"
  }

  // ---------------------------------------------------------------------
  // Memory operands

  /** The source's `dispKindStrs`: the base registers of each addressing
      mode. */
  function BaseText(k: DispKind): (t: string)
    requires k != DispEA
    ensures |t| >= 2 && 'a' <= t[0] <= 'z'
  {
    match k
    case DispBxSi => "bx+si"
    case DispBxDi => "bx+di"
    case DispBpSi => "bp+si"
    case DispBpDi => "bp+di"
    case DispSi => "si"
    case DispDi => "di"
    case DispBp => "bp"
    case DispBx => "bx"
  }

  function ParseBase(t: string): Option<DispKind> {
    match t
    case "bx+si" => Some(DispBxSi)
    case "bx+di" => Some(DispBxDi)
    case "bp+si" => Some(DispBpSi)
    case "bp+di" => Some(DispBpDi)
    case "si" => Some(DispSi)
    case "di" => Some(DispDi)
    case "bp" => Some(DispBp)
    case "bx" => Some(DispBx)
    case _ => None
  }

  /** `OperandDisplacement.String`: a direct address as `[n]` with `n` the
      displacement's unsigned 16-bit value, any other mode as
      `[base+d]` or `[base-d]`. */
  function DisplacementText(k: DispKind, d: i16): (t: string)
    ensures |t| >= 3 && t[0] == '[' && t[|t| - 1] == ']'
  {
    if k == DispEA then "[" + Decimal(Uint16(d)) + "]"
    else "[" + BaseText(k) + Signed(d) + "]"
  }

  /** Reads a memory operand back: digits alone are a direct address, and
      otherwise a base and a displacement. */
  function ParseDisplacement(t: string): Option<OperandType> {
    if |t| < 2 || t[0] != '[' || t[|t| - 1] != ']' then None else
    var s := t[1..|t| - 1];
    if |s| >= 1 && AllDigits(s) then
      if ValueOf(s) < 0x10000 then Some(Displacement(DispEA, Int16(ValueOf(s)))) else None
    else ParseBased(s)
  }

  /** Reads `base+d` or `base-d` back: the text after the last sign is the
      displacement. */
  function ParseBased(s: string): Option<OperandType> {
    var j := LastOf(s, Signs);
    if j < 0 then None else
    var k, d := ParseBase(s[..j]), ParseSigned(s[j..]);
    if k.Some? && d.Some? && I16.Holds(d.value) then Some(Displacement(k.value, d.value)) else None
  }

  /** Every memory operand's text reads back as that operand: distinct
      operands render distinctly. */
  lemma DisplacementParses(k: DispKind, d: i16)
    ensures ParseDisplacement(DisplacementText(k, d)) == Some(Displacement(k, d))
  {
    if k == DispEA {
      DirectParses(d);
    } else {
      BasedParses(k, d);
    }
  }

  lemma DirectParses(d: i16)
    ensures ParseDisplacement(DisplacementText(DispEA, d)) == Some(Displacement(DispEA, d))
  {
    var t := DisplacementText(DispEA, d);
    assert t[1..|t| - 1] == Digits(Uint16(d));
    DigitsValue(Uint16(d));
  }

  lemma BasedParses(k: DispKind, d: i16)
    requires k != DispEA
    ensures ParseDisplacement(DisplacementText(k, d)) == Some(Displacement(k, d))
  {
    Bracketed(BaseText(k), Signed(d));
    BasedTextParses(k, d);
  }

  /** Bracketed text that starts with a letter is read as a base and a
      displacement. */
  lemma Bracketed(base: string, sign: string)
    requires |base| >= 1 && !IsDigit(base[0])
    ensures ParseDisplacement("[" + base + sign + "]") == ParseBased(base + sign)
  {
    var t := "[" + base + sign + "]";
    assert t[1..|t| - 1] == base + sign;
    assert (base + sign)[0] == base[0];
  }

  lemma BasedTextParses(k: DispKind, d: i16)
    requires k != DispEA
    ensures ParseBased(BaseText(k) + Signed(d)) == Some(Displacement(k, d))
  {
    var base, sign := BaseText(k), Signed(d);
    var s := base + sign;
    assert forall j | 1 <= j < |sign| :: sign[j] !in Signs by {
      assert AllDigits(sign[1..]);
      forall j | 1 <= j < |sign| ensures sign[j] !in Signs {
        assert sign[j] == sign[1..][j - 1];
      }
    }
    LastOfAfter(base, sign, Signs);
    assert s[..|base|] == base && s[|base|..] == sign;
    BaseParses(k);
    SignedParses(d);
  }

  lemma BaseParses(k: DispKind)
    requires k != DispEA
    ensures ParseBase(BaseText(k)) == Some(k)
  {
  }

  // ---------------------------------------------------------------------
  // Operands and instructions

  /** The text of an operand's value: `%v` of the operand type, which is
      Go's decimal for the two immediate kinds. */
  function OperandTypeText(t: OperandType): (r: Result<string>)
    ensures r.Ok? <==> !(t.Reg? && t.name == RegFlags)
    ensures r.Err? ==> r.fault == NoText
  {
    match t
    case Reg(name, w) => RegText(name, w)
    case Imm(i) => Ok(Decimal(i))
    case ImmU(u) => Ok(Decimal(u))
    case Displacement(k, d) => Ok(DisplacementText(k, d))
  }

  /** `Operand.String`: the size mark and a space, when there is a mark,
      then the operand's value. */
  function OperandText(o: Operand): (r: Result<string>)
    ensures r.Ok? <==> OperandTypeText(o.op).Ok?
    ensures r.Ok? && o.size == SizeNone ==> r.value == OperandTypeText(o.op).value
    ensures r.Ok? && o.size != SizeNone ==>
      r.value == SizeText(o.size) + " " + OperandTypeText(o.op).value
  {
    var v :- OperandTypeText(o.op);
    if o.size == SizeNone then Ok(v) else Ok(SizeText(o.size) + " " + v)
  }

  /** The jump-family operand: its displacement plus 2, wrapped in int16,
      after `$`.  The displacement counts from the end of the two-byte
      instruction and `$` is its start.  An operand that is not an
      immediate fails the source's type assertion. */
  function JumpText(o: Operand): (r: Result<string>)
    ensures r.Ok? <==> o.op.Imm?
    ensures r.Ok? ==> r.value == "$" + Signed(Wrap(I16, o.op.i + 2))
    ensures r.Err? ==> r.fault == NoText
  {
    match o.op
    case Imm(i) => Ok("$" + Signed(Wrap(I16, i + 2)))
    case _ => Err(NoText)
  }

  /** Whether an operand of an instruction whose operation is `op` has a
      text: an immediate for the jump family, anything but FLAGS for the
      others. */
  predicate HasText(op: Op, o: Operand) {
    if op.IsJump() then o.op.Imm? else !(o.op.Reg? && o.op.name == RegFlags)
  }

  /** The text of one operand of an instruction whose operation is `op`. */
  function ItemText(op: Op, o: Operand): (t: string)
    requires HasText(op, o)
  {
    if op.IsJump() then JumpText(o).value else OperandText(o).value
  }

  /** Whether every operand of an instruction has a text. */
  predicate Renders(op: Op, ops: seq<Operand>) {
    forall k | 0 <= k < |ops| :: HasText(op, ops[k])
  }

  /** The texts of the operands, in order. */
  function Texts(op: Op, ops: seq<Operand>): (ts: seq<string>)
    requires Renders(op, ops)
    ensures |ts| == |ops|
  {
    if |ops| == 0 then [] else Texts(op, ops[..|ops| - 1]) + [ItemText(op, ops[|ops| - 1])]
  }

  /** The texts joined with ", ". */
  function Join(ts: seq<string>): string {
    if |ts| == 0 then "" else if |ts| == 1 then ts[0] else Join(ts[..|ts| - 1]) + ", " + ts[|ts| - 1]
  }

  /** `Instruction.String`: the mnemonic, a space, and the operands'
      texts separated by ", ". */
  function InstructionText(inst: Instruction): (r: Result<string>)
    ensures r.Ok? <==> Renders(inst.op, inst.operands)
    ensures r.Err? ==> r.fault == NoText
  {
    if Renders(inst.op, inst.operands) then Ok(Mnemonic(inst.op) + " " + Join(Texts(inst.op, inst.operands)))
    else Err(NoText)
  }

  /** Joining one more text adds a separator unless it is the first. */
  lemma JoinSnoc(ts: seq<string>, t: string)
    ensures Join(ts + [t]) == if |ts| == 0 then t else Join(ts) + ", " + t
  {
    assert (ts + [t])[..|ts|] == ts;
  }

  /** `Instruction.String` as the source writes it, operand by operand into
      a builder. */
  method InstructionString(inst: Instruction) returns (r: Result<string>)
    ensures r == InstructionText(inst)
  {
    r := WriteOperands(inst.op, inst.operands, Mnemonic(inst.op) + " ");
  }

  /** The operand loop of `Instruction.String`, after `prefix` (the
      mnemonic and a space) is in the builder. */
  method WriteOperands(op: Op, ops: seq<Operand>, prefix: string) returns (r: Result<string>)
    ensures r == if Renders(op, ops) then Ok(prefix + Join(Texts(op, ops))) else Err(NoText)
  {
    var sb := prefix;
    var j := 0;
    while j < |ops|
      invariant 0 <= j <= |ops|
      invariant Renders(op, ops[..j])
      invariant sb == prefix + Join(Texts(op, ops[..j]))
    {
      var t := ItemString(op, ops[j]);
      if t.Err? {
        return Err(NoText);
      }
      Extended(op, ops, j, prefix, sb, t.value);
      if j > 0 {
        sb := sb + ", ";
      }
      sb := sb + t.value;
      j := j + 1;
    }
    assert ops[..j] == ops;
    r := Ok(sb);
  }

  /** The text of one operand as the loop writes it: for the jump family
      the type assertion to an immediate, for the others the operand's own
      `String`. */
  method ItemString(op: Op, o: Operand) returns (r: Result<string>)
    ensures r.Ok? <==> HasText(op, o)
    ensures r.Ok? ==> r.value == ItemText(op, o)
    ensures r.Err? ==> r.fault == NoText
  {
    if op.IsJump() {
      if !o.op.Imm? {
        return Err(NoText);
      }
      r := Ok("$" + Signed(Wrap(I16, o.op.i + 2)));
    } else {
      r := OperandText(o);
    }
  }

  /** Writing the separator (after the first operand) and the next
      operand's text extends the builder by that operand's place in the
      joined texts. */
  lemma Extended(op: Op, ops: seq<Operand>, j: nat, prefix: string, sb: string, t: string)
    requires j < |ops| && Renders(op, ops[..j]) && HasText(op, ops[j]) && t == ItemText(op, ops[j])
    requires sb == prefix + Join(Texts(op, ops[..j]))
    ensures Renders(op, ops[..j + 1])
    ensures (if j > 0 then sb + ", " else sb) + t == prefix + Join(Texts(op, ops[..j + 1]))
  {
    var ts := Texts(op, ops[..j]);
    TextsSnoc(op, ops, j);
    JoinSnoc(ts, t);
    Appended(prefix, Join(ts), t, j > 0);
  }

  /** Writing the separator and then the text appends both to the joined
      texts. */
  lemma Appended(prefix: string, joined: string, t: string, sep: bool)
    ensures (if sep then prefix + joined + ", " else prefix + joined) + t
      == prefix + (if sep then joined + ", " + t else joined + t)
  {
  }

  /** The texts of one more operand. */
  lemma TextsSnoc(op: Op, ops: seq<Operand>, j: nat)
    requires j < |ops| && Renders(op, ops[..j]) && HasText(op, ops[j])
    ensures Renders(op, ops[..j + 1])
    ensures Texts(op, ops[..j + 1]) == Texts(op, ops[..j]) + [ItemText(op, ops[j])]
  {
    assert ops[..j + 1][..j] == ops[..j];
  }

  // ---------------------------------------------------------------------
  // Reading an instruction line back

  /** The separator `Instruction.String` writes between operands. */
  const Commas: set<char> := {','}

  /** The texts between the commas of `t`, each without the space written
      after its comma. */
  function Split(t: string): (ts: seq<string>)
    ensures |ts| >= 1
    decreases |t|
  {
    var c := LastOf(t, Commas);
    if c < 0 then [t] else
    var rest := t[c + 1..];
    Split(t[..c]) + [if |rest| >= 1 then rest[1..] else rest]
  }

  /** Splitting joined texts that hold no comma gives the texts back. */
  lemma {:induction false} SplitJoin(ts: seq<string>)
    requires |ts| >= 1
    requires forall k | 0 <= k < |ts| :: ',' !in ts[k]
    ensures Split(Join(ts)) == ts
    decreases |ts|
  {
    if |ts| == 1 {
      assert LastOf(ts[0], Commas) < 0;
    } else {
      var init, last := ts[..|ts| - 1], ts[|ts| - 1];
      SplitSnoc(Join(init), last);
      SplitJoin(init);
      assert ts == init + [last];
    }
  }

  /** Splitting after one more separator and text adds that text. */
  lemma SplitSnoc(j: string, last: string)
    requires ',' !in last
    ensures Split(j + ", " + last) == Split(j) + [last]
  {
    var t := j + ", " + last;
    LastComma(j, last);
    assert t[..|j|] == j;
    assert t[|j| + 1..] == " " + last;
    assert (" " + last)[1..] == last;
  }

  /** The separator before a text without commas is the last comma. */
  lemma LastComma(j: string, last: string)
    requires ',' !in last
    ensures LastOf(j + ", " + last, Commas) == |j|
  {
    var b := ", " + last;
    assert j + ", " + last == j + b;
    forall k | 1 <= k < |b|
      ensures b[k] !in Commas
    {
      if k >= 2 {
        assert b[k] == last[k - 2];
      }
    }
    LastOfAfter(j, b, Commas);
  }

  /** A character first found in `b` after a prefix without it is found
      where `b` starts. */
  lemma {:induction false} FirstOfAfter(a: string, b: string, c: char)
    requires c !in a && |b| >= 1 && b[0] == c
    ensures FirstOf(a + b, c) == |a|
    decreases |a|
  {
    if |a| > 0 {
      assert (a + b)[0] == a[0];
      assert (a + b)[1..] == a[1..] + b;
      assert a == [a[0]] + a[1..];
      FirstOfAfter(a[1..], b, c);
    }
  }

  /** Reads an instruction line back: the mnemonic before the first space,
      then the operand texts. */
  function ParseInstruction(t: string): Option<(Op, seq<string>)> {
    var i := FirstOf(t, ' ');
    if i == |t| then None else
    match ParseMnemonic(t[..i])
    case None => None
    case Some(op) => Some((op, Split(t[i + 1..])))
  }

  /** A line made of a mnemonic without spaces, a space and operand texts
      without commas reads back as that operation and those texts. */
  lemma LineParses(m: string, op: Op, ts: seq<string>)
    requires ParseMnemonic(m) == Some(op) && ' ' !in m
    requires |ts| >= 1 && forall k | 0 <= k < |ts| :: ',' !in ts[k]
    ensures ParseInstruction(m + " " + Join(ts)) == Some((op, ts))
  {
    ParseLine(m, op, Join(ts));
    SplitJoin(ts);
  }

  /** The mnemonic of a line ends at its first space. */
  lemma ParseLine(m: string, op: Op, rest: string)
    requires ParseMnemonic(m) == Some(op) && ' ' !in m
    ensures ParseInstruction(m + " " + rest) == Some((op, Split(rest)))
  {
    var t := m + " " + rest;
    assert t == m + (" " + rest);
    FirstOfAfter(m, " " + rest, ' ');
    assert t[..|m|] == m && t[|m| + 1..] == rest;
  }

  /** The text of an instruction with operands reads back as its operation
      and the texts of its operands, in order. */
  lemma InstructionParses(inst: Instruction)
    requires Renders(inst.op, inst.operands) && |inst.operands| >= 1
    ensures ParseInstruction(InstructionText(inst).value) == Some((inst.op, Texts(inst.op, inst.operands)))
  {
    var m := Mnemonic(inst.op);
    MnemonicParses(inst.op);
    TextsNoComma(inst.op, inst.operands);
    LineParses(m, inst.op, Texts(inst.op, inst.operands));
  }

  /** Letters, digits and the few signs the renderer writes: never a
      comma. */
  lemma NoComma(t: string)
    requires forall k | 0 <= k < |t| :: t[k] != ','
    ensures ',' !in t
  {
  }

  lemma DigitsNoComma(n: nat)
    ensures ',' !in Digits(n)
  {
    var t := Digits(n);
    assert forall k | 0 <= k < |t| :: IsDigit(t[k]);
    NoComma(t);
  }

  lemma SignedNoComma(i: int)
    ensures ',' !in Signed(i) && ',' !in Decimal(i)
  {
    DigitsNoComma(if i < 0 then -i else i);
  }

  lemma BaseNoComma(k: DispKind)
    requires k != DispEA
    ensures ',' !in BaseText(k)
  {
  }

  lemma SizeNoComma(z: SizeMark)
    ensures ',' !in SizeText(z)
  {
  }

  /** No operand text holds a comma. */
  lemma ItemNoComma(op: Op, o: Operand)
    requires HasText(op, o)
    ensures ',' !in ItemText(op, o)
  {
    if op.IsJump() {
      SignedNoComma(Wrap(I16, o.op.i + 2));
    } else {
      SizeNoComma(o.size);
      match o.op
      case Reg(name, w) =>
        RegTextParses(name, w);
        NoComma(RegText(name, w).value);
      case Imm(i) => SignedNoComma(i);
      case ImmU(u) => SignedNoComma(u);
      case Displacement(k, d) =>
        if k == DispEA {
          SignedNoComma(Uint16(d));
        } else {
          BaseNoComma(k);
          SignedNoComma(d);
        }
    }
  }

  lemma {:induction false} TextsNoComma(op: Op, ops: seq<Operand>)
    requires Renders(op, ops)
    ensures forall k | 0 <= k < |ops| :: ',' !in Texts(op, ops)[k]
    decreases |ops|
  {
    if |ops| > 0 {
      var init := ops[..|ops| - 1];
      TextsNoComma(op, init);
      ItemNoComma(op, ops[|ops| - 1]);
    }
  }

  // ---------------------------------------------------------------------
  // The FLAGS word: `FlagsString`

  /** The source's `regFlags`: the order the flags are listed in. */
  const FlagOrder: seq<Flag> := [FlagC, FlagP, FlagA, FlagZ, FlagS, FlagO]

  /** The source's `FlagString`: a flag's letter. */
  function Letter(f: Flag): char {
    match f
    case FlagC => 'C'
    case FlagP => 'P'
    case FlagA => 'A'
    case FlagZ => 'Z'
    case FlagS => 'S'
    case FlagO => 'O'
  }

  /** The letters of the flags of `fs` that are set in `flags`, in the
      order of `fs`. */
  function Letters(flags: u16, fs: seq<Flag>): (t: string)
    ensures |t| <= |fs|
  {
    if |fs| == 0 then ""
    else Letters(flags, fs[..|fs| - 1]) + (if Has(flags, fs[|fs| - 1]) then [Letter(fs[|fs| - 1])] else "")
  }

  /** `FlagsString`: the letter of every set flag, in the order of
      `regFlags`. */
  method FlagsString(flags: u16) returns (t: string)
    ensures t == Letters(flags, FlagOrder)
  {
    t := "";
    var i := 0;
    while i < |FlagOrder|
      invariant 0 <= i <= |FlagOrder|
      invariant t == Letters(flags, FlagOrder[..i])
    {
      assert FlagOrder[..i + 1][..i] == FlagOrder[..i];
      if Has(flags, FlagOrder[i]) {
        t := t + [Letter(FlagOrder[i])];
      }
      i := i + 1;
    }
    assert FlagOrder[..i] == FlagOrder;
  }

  /** A flag's letter is in the text exactly when the flag is listed and
      set. */
  lemma {:induction false} LettersHas(flags: u16, fs: seq<Flag>, f: Flag)
    ensures Letter(f) in Letters(flags, fs) <==> f in fs && Has(flags, f)
    decreases |fs|
  {
    if |fs| > 0 {
      var init, last := fs[..|fs| - 1], fs[|fs| - 1];
      LettersHas(flags, init, f);
      assert fs == init + [last];
    }
  }

  /** The text of FLAGS names exactly the set flags, each once. */
  lemma FlagsLetters(flags: u16, f: Flag)
    ensures Letter(f) in Letters(flags, FlagOrder) <==> Has(flags, f)
    ensures |Letters(flags, FlagOrder)| <= 6
  {
    LettersHas(flags, FlagOrder, f);
  }

  /** All six flags set read "CPAZSO"; none set reads as nothing. */
  lemma FlagsExamples()
    ensures Letters(0x1D5, FlagOrder) == "CPAZSO"
    ensures Letters(0, FlagOrder) == ""
  {
    var p1, p2, p3, p4, p5 := [FlagC], [FlagC, FlagP], [FlagC, FlagP, FlagA],
      [FlagC, FlagP, FlagA, FlagZ], [FlagC, FlagP, FlagA, FlagZ, FlagS];
    assert p1[..0] == [] && p2[..1] == p1 && p3[..2] == p2 && p4[..3] == p3;
    assert p5[..4] == p4 && FlagOrder[..5] == p5;
    assert Letters(0x1D5, p1) == "C";
    assert Letters(0x1D5, p2) == "CP";
    assert Letters(0x1D5, p3) == "CPA";
    assert Letters(0x1D5, p4) == "CPAZ";
    assert Letters(0x1D5, p5) == "CPAZS";
    assert Letters(0, p1) == "";
    assert Letters(0, p2) == "";
    assert Letters(0, p3) == "";
    assert Letters(0, p4) == "";
    assert Letters(0, p5) == "";
  }
}
