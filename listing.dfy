/** The disassembler of part1/main.go and main.go: `Disassemble` writes a
    "bits 16" header and a blank line, then decodes the buffer from its first
    byte and writes one line per instruction.  This module also ties the
    text of a jump to where the simulator sends IP. */
module Listing {
  import opened Bits
  import opened Outcomes
  import opened Types
  import Machine
  import opened Decode
  import Render

  /** Every instruction either decoder accepts has a text: its registers
      are never FLAGS and a jump's operand is an immediate. */
  lemma DecodedRenders(s: Machine.Snapshot, buf: seq<u8>, ip: nat)
    requires Machine.DecodeAt(s, buf, ip).Ok?
    ensures Render.InstructionText(Machine.DecodeAt(s, buf, ip).value.inst).Ok?
  {
    Machine.DecodedShape(s, buf, ip);
  }

  /** A jump-family instruction with its one immediate operand d renders
      as its mnemonic and `$` with d + 2, the distance from the jump's
      first byte. */
  lemma JumpLine(inst: Instruction, d: i16)
    requires inst.op.IsJump() && |inst.operands| == 1 && inst.operands[0].op == Imm(d)
    ensures Render.InstructionText(inst) == Ok(Render.Mnemonic(inst.op) + " $" + Render.Signed(Wrap(I16, d + 2)))
  {
    var o := inst.operands[0];
    assert inst.operands[..0] == [];
    assert Render.Texts(inst.op, inst.operands) == [Render.ItemText(inst.op, o)];
    var m, t := Render.Mnemonic(inst.op), Render.Signed(Wrap(I16, d + 2));
    assert m + " " + ("$" + t) == m + " $" + t;
  }

  /** A decoded jump renders as its mnemonic and `$` with the signed
      distance n from the jump's own first byte (the byte after it plus the
      sign-extended displacement byte, less the jump's address). */
  lemma JumpText(s: Machine.Snapshot, buf: seq<u8>, ip: nat)
    requires Machine.DecodeAt(s, buf, ip).Ok? && Machine.DecodeAt(s, buf, ip).value.inst.op.IsJump()
    ensures ip + 2 <= |buf|
    ensures var inst := Machine.DecodeAt(s, buf, ip).value.inst;
      Render.InstructionText(inst) == Ok(Render.Mnemonic(inst.op) + " $" + Render.Signed(Int8(buf[ip + 1]) + 2))
  {
    Machine.DecodedShape(s, buf, ip);
    JumpLine(Machine.DecodeAt(s, buf, ip).value.inst, Int8(buf[ip + 1]));
  }

  /** The target `JumpStep` gives a taken jump at `ip` with displacement
      byte b, the byte after the jump plus b sign-extended, is the jump's
      own address plus the distance its text shows, modulo 2^16. */
  lemma JumpDistance(ip: u16, b: u8)
    ensures Add16(Add16(ip, 2), Uint16(Int8(b))) == (ip + (Int8(b) + 2)) % 0x10000
  {
    Add16Twice(ip, 2, Int8(b));
  }

  /** The snapshot's decoder as a function of the offset. */
  function Decoder(s: Machine.Snapshot, buf: seq<u8>): nat -> Result<Decoded> {
    (ip: nat) => Machine.DecodeAt(s, buf, ip)
  }

  /** Whether `dec` is the snapshot's decoder at every offset. */
  ghost predicate Decodes(s: Machine.Snapshot, buf: seq<u8>, dec: nat -> Result<Decoded>) {
    forall ip: nat {:trigger Machine.DecodeAt(s, buf, ip)} :: dec(ip) == Machine.DecodeAt(s, buf, ip)
  }

  /** Whether `text` is the instruction renderer. */
  ghost predicate Prints(text: Instruction -> Result<string>) {
    forall inst {:trigger Render.InstructionText(inst)} :: text(inst) == Render.InstructionText(inst)
  }

  /** Whether decoding by `dec` walks a buffer of `end` bytes: every
      instruction it accepts before the end is 2 to 6 bytes long and ends
      within the buffer. */
  ghost predicate Walks(dec: nat -> Result<Decoded>, end: nat) {
    forall ip: nat {:trigger dec(ip)} :: ip < end && dec(ip).Ok? ==>
      2 <= dec(ip).value.advance <= 6 && ip + dec(ip).value.advance <= end
  }

  /** Whether every instruction `dec` accepts before the end has a text. */
  ghost predicate Legible(dec: nat -> Result<Decoded>, text: Instruction -> Result<string>, end: nat) {
    forall ip: nat {:trigger dec(ip)} :: ip < end && dec(ip).Ok? ==> text(dec(ip).value.inst).Ok?
  }

  /** Both decoders walk every buffer, and the renderer has a text for
      every instruction they accept. */
  lemma DecoderWalks(s: Machine.Snapshot, buf: seq<u8>)
    ensures Decodes(s, buf, Decoder(s, buf))
    ensures Walks(Decoder(s, buf), |buf|)
    ensures Legible(Decoder(s, buf), Render.InstructionText, |buf|)
  {
    forall ip: nat | ip < |buf| && Machine.DecodeAt(s, buf, ip).Ok?
      ensures var d := Machine.DecodeAt(s, buf, ip).value;
        2 <= d.advance <= 6 && ip + d.advance <= |buf| && Render.InstructionText(d.inst).Ok?
    {
      Machine.DecodedShape(s, buf, ip);
      DecodedRenders(s, buf, ip);
    }
  }

  /** The instructions decoded from `ip` to the end of the buffer, or the
      first decoding failure.  Each instruction is 2 to 6 bytes long and
      none runs past the end, so together they cover the rest of the
      buffer exactly. */
  function Program(dec: nat -> Result<Decoded>, end: nat, ip: nat): (r: Result<seq<Instruction>>)
    requires Walks(dec, end) && ip <= end
    ensures r.Ok? ==> 2 * |r.value| <= end - ip <= 6 * |r.value|
    ensures ip == end ==> r == Ok([])
    decreases end - ip
  {
    if ip == end then Ok([]) else
    var d :- dec(ip);
    var rest :- Program(dec, end, ip + d.advance);
    Ok([d.inst] + rest)
  }

  /** Whether every instruction of a sequence has a text. */
  predicate AllRender(text: Instruction -> Result<string>, insts: seq<Instruction>) {
    forall k | 0 <= k < |insts| :: text(insts[k]).Ok?
  }

  /** The texts of a sequence of instructions, each followed by a newline. */
  function Rendered(text: Instruction -> Result<string>, insts: seq<Instruction>): string
    requires AllRender(text, insts)
  {
    if |insts| == 0 then "" else text(insts[0]).value + "\n" + Rendered(text, insts[1..])
  }

  /** The loop of `Disassemble` from `ip` on: decode, advance, write the
      instruction's line, until IP reaches the end of the buffer. */
  function Lines(dec: nat -> Result<Decoded>, text: Instruction -> Result<string>, end: nat, ip: nat): Result<string>
    requires Walks(dec, end) && ip <= end
    decreases end - ip
  {
    if ip == end then Ok("") else
    var d :- dec(ip);
    var line :- text(d.inst);
    var rest :- Lines(dec, text, end, ip + d.advance);
    Ok(line + "\n" + rest)
  }

  /** Writing each line as its instruction is decoded gives the text of
      the whole decoded program: when every instruction has a text, the
      listing fails exactly when decoding does, with the same fault. */
  lemma {:induction false} LinesAreProgram(dec: nat -> Result<Decoded>, text: Instruction -> Result<string>, end: nat, ip: nat)
    requires Walks(dec, end) && Legible(dec, text, end) && ip <= end
    ensures var p := Program(dec, end, ip);
      p.Ok? ==> AllRender(text, p.value) && Lines(dec, text, end, ip) == Ok(Rendered(text, p.value))
    ensures Program(dec, end, ip).Err? ==> Lines(dec, text, end, ip) == Err(Program(dec, end, ip).fault)
    decreases end - ip
  {
    if ip < end && dec(ip).Ok? {
      var d := dec(ip).value;
      LinesAreProgram(dec, text, end, ip + d.advance);
      if Program(dec, end, ip).Ok? {
        var insts := Program(dec, end, ip).value;
        assert insts[1..] == Program(dec, end, ip + d.advance).value;
      }
    }
  }

  /** A text after a prefix, or the failure as it is. */
  function Then(prefix: string, r: Result<string>): (p: Result<string>)
    ensures p.Ok? <==> r.Ok?
    ensures r.Ok? ==> |p.value| == |prefix| + |r.value|
    ensures r.Ok? ==> p.value[..|prefix|] == prefix && p.value[|prefix|..] == r.value
    ensures r.Err? ==> p == r
  {
    if r.Ok? then Ok(prefix + r.value) else r
  }

  /** The header `Disassemble` writes before the instructions. */
  const Header := "bits 16\n\n"

  /** The text `Disassemble` writes for a buffer: the header and then one
      line per decoded instruction, or the decoding fault that stops it. */
  function Disassembly(s: Machine.Snapshot, buf: seq<u8>): (r: Result<string>)
    ensures var p := (DecoderWalks(s, buf); Program(Decoder(s, buf), |buf|, 0));
      && (p.Ok? ==> AllRender(Render.InstructionText, p.value) &&
                    r == Ok(Header + Rendered(Render.InstructionText, p.value)))
      && (p.Err? ==> r == Err(p.fault))
  {
    DecoderWalks(s, buf);
    LinesAreProgram(Decoder(s, buf), Render.InstructionText, |buf|, 0);
    Then(Header, Lines(Decoder(s, buf), Render.InstructionText, |buf|, 0))
  }

  /** `Disassemble`: the header, then for each instruction from byte 0
      its decoding, the advance of IP and its line. */
  method Disassemble(s: Machine.Snapshot, buf: seq<u8>) returns (r: Result<string>)
    ensures r == Disassembly(s, buf)
  {
    DecoderWalks(s, buf);
    r := Write(s, buf, Decoder(s, buf), Render.InstructionText);
  }

  /** The decoder call of `Disassemble`'s loop. */
  method DecodeNext(s: Machine.Snapshot, buf: seq<u8>, ip: nat, ghost dec: nat -> Result<Decoded>)
    returns (r: Result<Decoded>)
    requires Decodes(s, buf, dec)
    ensures r == dec(ip)
  {
    r := Machine.DecodeAt(s, buf, ip);
  }

  /** The renderer call of `Disassemble`'s loop. */
  method PrintNext(inst: Instruction, ghost text: Instruction -> Result<string>) returns (r: Result<string>)
    requires Prints(text)
    ensures r == text(inst)
  {
    r := Render.InstructionString(inst);
  }

  /** `Disassemble`'s loop, with the decoder as `dec` and the renderer as
      `text`. */
  method Write(s: Machine.Snapshot, buf: seq<u8>, ghost dec: nat -> Result<Decoded>, ghost text: Instruction -> Result<string>)
    returns (r: Result<string>)
    requires Decodes(s, buf, dec) && Prints(text) && Walks(dec, |buf|)
    ensures r == Then(Header, Lines(dec, text, |buf|, 0))
  {
    var out := Header;
    var ip := 0;
    while ip < |buf|
      invariant ip <= |buf|
      invariant Then(Header, Lines(dec, text, |buf|, 0)) == Then(out, Lines(dec, text, |buf|, ip))
      decreases |buf| - ip
    {
      var d :- DecodeNext(s, buf, ip, dec);
      var line :- PrintNext(d.inst, text);
      Advanced(dec, text, |buf|, ip, out);
      ip := ip + d.advance;
      out := out + line + "\n";
    }
    assert out + "" == out;
    r := Ok(out);
  }

  /** Writing the line of the instruction at `ip` after `out` and going on
      from the next instruction leaves the whole text unchanged. */
  lemma Advanced(dec: nat -> Result<Decoded>, text: Instruction -> Result<string>, end: nat, ip: nat, out: string)
    requires Walks(dec, end) && ip < end && dec(ip).Ok? && text(dec(ip).value.inst).Ok?
    ensures var d := dec(ip).value;
      Then(out, Lines(dec, text, end, ip)) == Then(out + text(d.inst).value + "\n", Lines(dec, text, end, ip + d.advance))
  {
    var d := dec(ip).value;
    var line := text(d.inst).value;
    var rest := Lines(dec, text, end, ip + d.advance);
    if rest.Ok? {
      assert out + (line + "\n" + rest.value) == out + line + "\n" + rest.value;
    }
  }

  /** An empty buffer disassembles to the header alone. */
  lemma EmptyDisassembly(s: Machine.Snapshot)
    ensures Disassembly(s, []) == Ok(Header)
  {
    assert Header + "" == Header;
  }
}
