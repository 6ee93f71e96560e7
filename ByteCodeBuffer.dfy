/** The byte-code assembling methods of the runtime's command buffer: an
    opcode byte, constants, global and local variable references and string
    literals in the parameter encoding the VM reads. */
module ByteCodeBuffer {
  import opened Common
  import opened BinaryBuffer
  import opened DataReader
  import opened Disassembler

  /** The parameter encoding CONST appends: one byte for -32..31, otherwise
      a lead byte 0x81, 0x82 or 0x83 and 1, 2 or 4 little-endian bytes. */
  function ConstBytes(par: int): (r: seq<byte>)
    ensures -32 <= par <= 31 <==> |r| == 1
    ensures 1 <= |r| <= 5
  {
    if -32 <= par <= 31 then [par % 64]
    else if -128 <= par <= 127 then [0x81, LowByte(par)]
    else if -32768 <= par <= 32767 then [0x82] + LowBytes(par, 2)
    else [0x83] + LowBytes(par, 4)
  }

  /** The encoding of a variable index: short is 0x40 (local) or 0x60
      (global), long1 the lead byte of the one-byte long form. */
  function VarBytes(index: int, short: byte, long1: byte): (r: seq<byte>)
    requires short <= 0x60 && long1 <= 0xfd
    ensures 1 <= |r| <= 5
    ensures index <= 31 <==> |r| == 1
  {
    if index <= 31 then [(index % 32) + short]
    else if index <= 255 then [long1, LowByte(index)]
    else if index <= 65535 then [long1 + 1] + LowBytes(index, 2)
    else [long1 + 2] + LowBytes(index, 4)
  }

  function GlobVarBytes(index: int): seq<byte> { VarBytes(index, 0x60, 0xe1) }

  function LocVarBytes(index: int): seq<byte> { VarBytes(index, 0x40, 0xc1) }

  /** STRING: the lead byte 0x84, the characters as bytes, then a zero. */
  function StringBytes(text: string): (r: seq<byte>)
    ensures |r| == |text| + 2 && r[0] == 0x84 && r[|r| - 1] == 0
    ensures 0 !in r[1..|r| - 1]
  {
    TextBytesNonZero(text);
    assert ([0x84] + TextBytes(text) + [0])[1..|text| + 1] == TextBytes(text);
    [0x84] + TextBytes(text) + [0]
  }

  method OP(buf: Buffer, opcode: byte)
    requires buf.Valid()
    modifies buf, buf.buffer
    ensures buf.Valid() && buf.Contents() == old(buf.Contents()) + [opcode]
  {
    buf.Append8(opcode);
  }

  method CONST(buf: Buffer, par: int)
    requires buf.Valid() && IsInt32(par)
    modifies buf, buf.buffer
    ensures buf.Valid() && buf.Contents() == old(buf.Contents()) + ConstBytes(par)
  {
    ghost var before := buf.Contents();
    if par >= -32 && par <= 31 {
      buf.Append8(par % 64);
    } else if par >= -128 && par <= 127 {
      buf.Append8(0x81);
      buf.Append8(par);
      assert buf.Contents() == before + [0x81, LowByte(par)];
    } else if par >= -32768 && par <= 32767 {
      buf.Append8(0x82);
      buf.Append16(par);
      assert buf.Contents() == before + ([0x82] + LowBytes(par, 2));
    } else {
      buf.Append8(0x83);
      buf.Append32(par);
      assert buf.Contents() == before + ([0x83] + LowBytes(par, 4));
    }
  }

  method GLOBVAR(buf: Buffer, index: int)
    requires buf.Valid()
    modifies buf, buf.buffer
    ensures buf.Valid() && buf.Contents() == old(buf.Contents()) + GlobVarBytes(index)
  {
    ghost var before := buf.Contents();
    if index <= 31 {
      buf.Append8((index % 32) + 0x60);
    } else if index <= 255 {
      buf.Append8(0xe1);
      buf.Append8(index);
      assert buf.Contents() == before + [0xe1, LowByte(index)];
    } else if index <= 65535 {
      buf.Append8(0xe2);
      buf.Append16(index);
      assert buf.Contents() == before + ([0xe2] + LowBytes(index, 2));
    } else {
      buf.Append8(0xe3);
      buf.Append32(index);
      assert buf.Contents() == before + ([0xe3] + LowBytes(index, 4));
    }
  }

  method LOCVAR(buf: Buffer, index: int)
    requires buf.Valid()
    modifies buf, buf.buffer
    ensures buf.Valid() && buf.Contents() == old(buf.Contents()) + LocVarBytes(index)
  {
    ghost var before := buf.Contents();
    if index <= 31 {
      buf.Append8((index % 32) + 0x40);
    } else if index <= 255 {
      buf.Append8(0xc1);
      buf.Append8(index);
      assert buf.Contents() == before + [0xc1, LowByte(index)];
    } else if index <= 65535 {
      buf.Append8(0xc2);
      buf.Append16(index);
      assert buf.Contents() == before + ([0xc2] + LowBytes(index, 2));
    } else {
      buf.Append8(0xc3);
      buf.Append32(index);
      assert buf.Contents() == before + ([0xc3] + LowBytes(index, 4));
    }
  }

  method STRING(buf: Buffer, text: string)
    requires buf.Valid()
    modifies buf, buf.buffer
    ensures buf.Valid() && buf.Contents() == old(buf.Contents()) + StringBytes(text)
  {
    buf.Append8(0x84);
    buf.AppendZeroTerminated(text);
  }

  // ------------------------------------------------------------ decoding

  lemma BitWeights()
    ensures Pow2(4) == 16 && Pow2(5) == 32 && Pow2(6) == 64 && Pow2(7) == 128
  {
  }

  /** The 16-bit form reads back every 16-bit value. */
  lemma Sign16(v: int, rest: seq<byte>)
    requires IsInt16(v)
    ensures Wrap16(LittleEndian(Window(LowBytes(v, 2) + rest, 0, 2))) == v
  {
    LowBytesValue(v, 2);
    assert Window(LowBytes(v, 2) + rest, 0, 2) == LowBytes(v, 2);
  }

  /** The 32-bit form reads back every 32-bit value. */
  lemma Sign32(v: int, rest: seq<byte>)
    requires IsInt32(v)
    ensures Wrap32(LittleEndian(Window(LowBytes(v, 4) + rest, 0, 4))) == v
  {
    LowBytesValue(v, 4);
    assert Window(LowBytes(v, 4) + rest, 0, 4) == LowBytes(v, 4);
    Wrap32Mod(v);
  }

  /** The extra bytes after a long-form lead byte decode to v, in all three
      widths, whenever v fits the width chosen. */
  lemma ExtraRoundTrip(lead: byte, v: int, width: nat, rest: seq<byte>)
    requires lead % 8 in {1, 2, 3}
    requires width == (if lead % 8 == 1 then 1 else if lead % 8 == 2 then 2 else 4)
    requires lead % 8 == 1 ==> -128 <= v <= 127
    requires lead % 8 == 2 ==> IsInt16(v)
    requires lead % 8 == 3 ==> IsInt32(v)
    ensures DecodeExtra([lead] + LowBytes(v, width) + rest, 1, lead) == Ok((v, width))
  {
    var data := [lead] + LowBytes(v, width) + rest;
    var tail := LowBytes(v, width) + rest;
    assert forall k :: 0 <= k < |tail| ==> ByteAt(data, 1 + k) == ByteAt(tail, k);
    assert Window(data, 1, width) == Window(tail, 0, width);
    if lead % 8 == 1 {
      assert ByteAt(data, 1) == v % 256;
    } else if lead % 8 == 2 {
      Sign16(v, rest);
    } else {
      Sign32(v, rest);
    }
  }

  /** Decoding the output of CONST(par) with the disassembler gives par back,
      and consumes exactly the bytes CONST appended. */
  lemma ConstRoundTrip(par: int, rest: seq<byte>)
    requires IsInt32(par)
    ensures DecodeParameter(ConstBytes(par) + rest, 0) == Ok((Number(par), |ConstBytes(par)|))
  {
    BitWeights();
    var e := ConstBytes(par);
    if -32 <= par <= 31 {
      assert ByteAt(e + rest, 0) == par % 64;
    } else if -128 <= par <= 127 {
      assert e + rest == [0x81] + LowBytes(par, 1) + rest;
      ExtraRoundTrip(0x81, par, 1, rest);
    } else if -32768 <= par <= 32767 {
      assert e + rest == [0x82] + LowBytes(par, 2) + rest;
      ExtraRoundTrip(0x82, par, 2, rest);
    } else {
      assert e + rest == [0x83] + LowBytes(par, 4) + rest;
      ExtraRoundTrip(0x83, par, 4, rest);
    }
  }

  /** The indices for which the disassembler reads a variable reference back
      as written: the one-byte long form is read sign-extended, and so is
      the two-byte one. */
  predicate ReadsBack(index: int)
  {
    0 <= index <= 127 || 256 <= index <= 32767 || 65536 <= index < TWO_31
  }

  /** A long form whose extra bytes hold v is read back as v, whatever
      the kind of operand its lead byte announces. */
  lemma LongFormReadsBack(lead: byte, v: int, width: nat, rest: seq<byte>)
    requires lead >= 0x80 && lead % 8 in {1, 2, 3}
    requires width == (if lead % 8 == 1 then 1 else if lead % 8 == 2 then 2 else 4)
    requires lead % 8 == 1 ==> -128 <= v <= 127
    requires lead % 8 == 2 ==> IsInt16(v)
    requires lead % 8 == 3 ==> IsInt32(v)
    ensures DecodeParameter([lead] + LowBytes(v, width) + rest, 0) == Ok((LongOperand(lead, v), 1 + width))
  {
    ExtraRoundTrip(lead, v, width, rest);
    assert ByteAt([lead] + LowBytes(v, width) + rest, 0) == lead;
    assert !IsStringLead(lead);
  }

  /** The lead bytes of the long variable forms. */
  lemma VariableLeads(v: int)
    ensures LongOperand(0xc1, v) == LongOperand(0xc2, v) == LongOperand(0xc3, v) == Local(v)
    ensures LongOperand(0xe1, v) == LongOperand(0xe2, v) == LongOperand(0xe3, v) == Global(v)
  {
    BitWeights();
  }

  lemma GlobVarRoundTrip(index: int, rest: seq<byte>)
    requires ReadsBack(index)
    ensures DecodeParameter(GlobVarBytes(index) + rest, 0) == Ok((Global(index), |GlobVarBytes(index)|))
  {
    BitWeights();
    VariableLeads(index);
    var e := GlobVarBytes(index);
    if index <= 31 {
      assert ByteAt(e + rest, 0) == index + 0x60;
    } else if index <= 255 {
      assert e + rest == [0xe1] + LowBytes(index, 1) + rest;
      LongFormReadsBack(0xe1, index, 1, rest);
    } else if index <= 65535 {
      assert e + rest == [0xe2] + LowBytes(index, 2) + rest;
      LongFormReadsBack(0xe2, index, 2, rest);
    } else {
      assert e + rest == [0xe3] + LowBytes(index, 4) + rest;
      LongFormReadsBack(0xe3, index, 4, rest);
    }
  }

  lemma LocVarRoundTrip(index: int, rest: seq<byte>)
    requires ReadsBack(index)
    ensures DecodeParameter(LocVarBytes(index) + rest, 0) == Ok((Local(index), |LocVarBytes(index)|))
  {
    BitWeights();
    VariableLeads(index);
    var e := LocVarBytes(index);
    if index <= 31 {
      assert ByteAt(e + rest, 0) == index + 0x40;
    } else if index <= 255 {
      assert e + rest == [0xc1] + LowBytes(index, 1) + rest;
      LongFormReadsBack(0xc1, index, 1, rest);
    } else if index <= 65535 {
      assert e + rest == [0xc2] + LowBytes(index, 2) + rest;
      LongFormReadsBack(0xc2, index, 2, rest);
    } else {
      assert e + rest == [0xc3] + LowBytes(index, 4) + rest;
      LongFormReadsBack(0xc3, index, 4, rest);
    }
  }

  /** GLOBVAR(200) is read back by the disassembler as GLOBAL-56. */
  lemma GlobVarMisread()
    ensures DecodeParameter(GlobVarBytes(200), 0) == Ok((Global(-56), 2))
  {
    BitWeights();
    assert GlobVarBytes(200) == [0xe1, 200];
  }

  /** STRING(text) decodes to the text with every character outside 1..255
      replaced by the character 1. */
  lemma StringRoundTrip(text: string, rest: seq<byte>)
    ensures DecodeParameter(StringBytes(text) + rest, 0) == Ok((Literal(SentText(text)), |text| + 2))
  {
    var data := StringBytes(text) + rest;
    var sent := SentText(text);
    StringFacts(text, rest);
    DecodeStringLead(data, sent);
    assert |sent| + 2 == |text| + 2;
  }

  lemma StringFacts(text: string, rest: seq<byte>)
    ensures IsStringLead(ByteAt(StringBytes(text) + rest, 0))
    ensures StringScan(StringBytes(text) + rest, 1) == Some(SentText(text))
  {
    LeadIsString(StringBytes(text) + rest);
    ScanText(text, rest);
  }

  lemma LeadIsString(data: seq<byte>)
    requires |data| > 0 && data[0] == 0x84
    ensures IsStringLead(ByteAt(data, 0))
  {
    BitWeights();
  }

  /** The characters the brick receives for text. */
  function SentText(text: string): (r: string)
    ensures |r| == |text|
    ensures forall k :: 0 <= k < |text| ==> r[k] == CharByte(text[k]) as char
    ensures (forall k :: 0 <= k < |text| ==> 0 < CodeOf(text[k]) <= 255) ==> r == text
  {
    if text == [] then [] else [CharByte(text[0]) as char] + SentText(text[1..])
  }

  /** Bytes read as characters. */
  function Chars(t: seq<byte>): (r: string)
    ensures |r| == |t| && forall k :: 0 <= k < |t| ==> r[k] == t[k] as char
  {
    if t == [] then [] else [t[0] as char] + Chars(t[1..])
  }

  lemma ScanText(text: string, rest: seq<byte>)
    ensures StringScan(StringBytes(text) + rest, 1) == Some(SentText(text))
  {
    var data := StringBytes(text) + rest;
    var t := TextBytes(text);
    TextBytesNonZero(text);
    assert data == [0x84] + t + [0] + rest;
    assert data[1..1 + |t|] == t;
    ScanFrom(data, 1, t);
    assert Chars(t) == SentText(text);
  }

  /** Scanning over non-zero bytes followed by a zero yields their
      characters. */
  lemma {:induction false} ScanFrom(data: seq<byte>, i: nat, t: seq<byte>)
    requires i + |t| < |data| && data[i..i + |t|] == t && data[i + |t|] == 0 && 0 !in t
    ensures StringScan(data, i) == Some(Chars(t))
    decreases |t|
  {
    if t != [] {
      assert data[i] == t[0];
      assert data[i + 1..i + 1 + |t[1..]|] == t[1..];
      ScanFrom(data, i + 1, t[1..]);
    }
  }
}
