/** The instruction decoder of main.go.  It reads every family the part1
    decoder reads in the same way, with two differences: it has no case for
    the segment-register moves (the classifier still selects them, and the
    decoder then panics on the family), and it marks the immediate of the
    immediate-to-register/memory family with the size of the W bit. */
module RootDecode {
  import opened Bits
  import opened Outcomes
  import opened Types
  import Decode

  /** The source's `DecodeInstruction`, as the part1 decoder changed in the
      two places above. */
  function DecodeInstruction(buf: seq<u8>, ip: nat): (r: Result<Decode.Decoded>)
    ensures r == Err(UnsupportedKind) <==>
      ip + 2 <= |buf| && Operation(buf[ip], buf[ip + 1]).Ok? &&
      Operation(buf[ip], buf[ip + 1]).value.kind in {RmToSeg, SegToRm}
    ensures r.Err? && r != Err(UnsupportedKind) ==> r == Decode.DecodeInstruction(buf, ip)
  {
    if ip + 2 > |buf| then Decode.DecodeInstruction(buf, ip) else
    match Operation(buf[ip], buf[ip + 1])
    case Err(_) => Decode.DecodeInstruction(buf, ip)
    case Ok(o) =>
      if o.kind == RmToSeg || o.kind == SegToRm then Err(UnsupportedKind)
      else
        var d :- Decode.DecodeInstruction(buf, ip);
        if o.kind == ImmToRm then
          var src := d.inst.operands[1];
          Ok(d.(inst := d.inst.(operands := [d.inst.operands[0], src.(size := SizeFrom(Decode.WBit(buf[ip])))])))
        else Ok(d)
  }

  /** An instruction this decoder accepts is the part1 decoder's, with the
      same length, operation and operand values; only the immediate of the
      immediate-to-register/memory family carries the W bit's size mark. */
  lemma Agrees(buf: seq<u8>, ip: nat)
    requires DecodeInstruction(buf, ip).Ok?
    ensures var r, p := DecodeInstruction(buf, ip), Decode.DecodeInstruction(buf, ip);
      && ip + 2 <= |buf| && Operation(buf[ip], buf[ip + 1]).Ok?
      && p.Ok? && r.value.advance == p.value.advance
      && r.value.inst.op == p.value.inst.op
      && |r.value.inst.operands| == |p.value.inst.operands|
      && (forall k | 0 <= k < |p.value.inst.operands| :: r.value.inst.operands[k].op == p.value.inst.operands[k].op)
      && (Operation(buf[ip], buf[ip + 1]).value.kind == ImmToRm ==>
            r.value.inst.operands[1].size == SizeFrom(Decode.WBit(buf[ip])))
      && (Operation(buf[ip], buf[ip + 1]).value.kind != ImmToRm ==> r.value.inst == p.value.inst)
  {
  }

  /** The two decoders fail alike except on the segment-register moves: this
      one fails on every such instruction, the part1 decoder only where byte 2
      has bit 5 set or bytes are missing. */
  lemma FailsAlike(buf: seq<u8>, ip: nat)
    requires !(ip + 2 <= |buf| && Operation(buf[ip], buf[ip + 1]).Ok? &&
               Operation(buf[ip], buf[ip + 1]).value.kind in {RmToSeg, SegToRm})
    ensures DecodeInstruction(buf, ip).Ok? <==> Decode.DecodeInstruction(buf, ip).Ok?
  {
  }

  /** This decoder too reads only the instruction's own bytes. */
  lemma DecodeLocal(buf: seq<u8>, ip: nat, buf2: seq<u8>, ip2: nat)
    requires DecodeInstruction(buf, ip).Ok?
    requires Decode.SameBytes(buf, ip, buf2, ip2, DecodeInstruction(buf, ip).value.advance)
    ensures DecodeInstruction(buf2, ip2) == DecodeInstruction(buf, ip)
  {
    Agrees(buf, ip);
    var n := DecodeInstruction(buf, ip).value.advance;
    Decode.DecodeLocal(buf, ip, buf2, ip2);
    Decode.SameByte(buf, ip, buf2, ip2, n, 0);
    Decode.SameByte(buf, ip, buf2, ip2, n, 1);
  }
}
