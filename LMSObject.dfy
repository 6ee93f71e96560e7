/** The code objects of the assembler: a thread or a subcall collects its
    byte code, its jump labels and the places that refer to labels, and is
    finally written out with every label reference patched. A subcall also
    records its IN/OUT/IO parameters and the argument lists of the CALLs
    made to it. */
module LMSObjects {
  import opened Common
  import opened DataTypes
  import opened DataTypeChecker
  import opened DataArea
  import opened DataWriter
  import opened DataReader
  import opened BinaryBuffer
  import opened Disassembler
  import opened ByteCodeBuffer

  // ------------------------------------------------------ parameter encodings

  /** Whether the encoding of n bytes can hold value: the short form
      -32..31, then 1, 2 or 4 extra bytes. */
  predicate FormFits(value: int, n: nat)
  {
    (n == 1 && -32 <= value <= 31) || (n == 2 && -128 <= value <= 127)
    || (n == 3 && IsInt16(value)) || (n == 5 && IsInt32(value))
  }

  /** AddConstant: the first encoding that holds the value and is at least
      minimumencodingbytes long. */
  function ConstEncoding(value: int, minimumencodingbytes: int): (r: seq<byte>)
    ensures |r| in {1, 2, 3, 5}
    ensures IsInt32(value) ==> FormFits(value, |r|)
    ensures minimumencodingbytes <= 5 ==> |r| >= minimumencodingbytes
    ensures forall n :: n in {1, 2, 3} && n < |r| ==> !(FormFits(value, n) && n >= minimumencodingbytes)
  {
    if -32 <= value <= 31 && minimumencodingbytes <= 1 then [value % 64]
    else if -128 <= value <= 127 && minimumencodingbytes <= 2 then [0x81, LowByte(value)]
    else if -32768 <= value <= 32767 && minimumencodingbytes <= 3 then [0x82] + Le16(value)
    else [0x83] + Le32(value)
  }

  /** AddVariableReference of a non-negative index: one byte 0x40|i (local)
      or 0x60|i (global) up to 31, otherwise a lead byte 0xc1/0xe1, 0xc2/0xe2
      or 0xc3/0xe3 and 1, 2 or 4 little-endian bytes. */
  function VariableEncoding(index: nat, local: bool): (r: seq<byte>)
    ensures index <= 31 <==> |r| == 1
    ensures 1 <= |r| <= 5
  {
    var lead: byte := if local then 0xc1 else 0xe1;
    if index <= 31 then [(if local then 0x40 else 0x60) + index]
    else if index <= 127 then [lead, index]
    else if index <= 32767 then [lead + 1] + Le16(index)
    else [lead + 2] + Le32(index)
  }

  /** A character AddStringLiteral accepts. */
  predicate LiteralChar(c: char) { 0 < CodeOf(c) <= 255 }

  /** The number of leading characters of s that AddStringLiteral accepts
      before it meets one it rejects. */
  function AcceptedPrefix(s: string): (n: nat)
    ensures n <= |s|
    ensures forall k :: 0 <= k < n ==> LiteralChar(s[k])
    ensures n < |s| ==> !LiteralChar(s[n])
  {
    if s == [] || !LiteralChar(s[0]) then 0 else 1 + AcceptedPrefix(s[1..])
  }

  /** AddStringLiteral of an accepted text: 0x80, the character codes, 0. */
  function LiteralEncoding(s: string): (r: seq<byte>)
  {
    [0x80] + TextBytes(s) + [0]
  }

  /** The encoding AddLabelReference writes for a label already defined at
      target when the code is len bytes long: the distance from the end of
      the parameter, in the shortest form whose length was assumed. */
  function BackwardReference(target: int, len: int): (r: seq<byte>)
  {
    var d := target - len;
    if d - 1 >= -32 then ConstEncoding(d - 1, 1)
    else if d - 2 >= -128 then ConstEncoding(d - 2, 2)
    else if d - 3 >= -32768 then ConstEncoding(d - 3, 3)
    else ConstEncoding(d - 5, 5)
  }

  /** The placeholder of a forward reference or a label difference: the
      32-bit form of 0. */
  const PLACEHOLDER: seq<byte> := [0x83, 0, 0, 0, 0]

  // ------------------------------------------------------------ back-patching

  /** Every recorded reference position k is the first of four value bytes
      after a 0x83 lead byte inside the code, and the windows of two
      references never overlap. */
  ghost predicate WellPlaced(b: seq<byte>, refs: map<nat, string>)
  {
    (forall k :: k in refs ==> 1 <= k && k + 4 <= |b| && b[k - 1] == 0x83)
    && (forall k1, k2 :: k1 in refs && k2 in refs && k1 < k2 ==> k1 + 5 <= k2)
  }

  /** The value patched in at reference position k: for "A:B" (a colon
      after at least one character) labels[B] - labels[A], for a plain label
      L the distance labels[L] - (k + 4) from the end of the parameter, in
      32-bit arithmetic. */
  function Resolve(labels: map<string, nat>, refs: map<nat, string>, k: nat): (r: Result<int>)
    requires k in refs
    ensures r.Ok? ==> IsInt32(r.value)
  {
    var labelName := refs[k];
    var colon := IndexOf(labelName, ':');
    if colon > 0 then
      var first, second := labelName[..colon], labelName[colon + 1..];
      if first !in labels || second !in labels then Err("Unresolved label distance: " + labelName)
      else Ok(Wrap32(labels[second] as int - labels[first]))
    else if labelName !in labels then Err("Unresolved jump target: " + labelName)
    else Ok(Wrap32(labels[labelName] - (k + 4)))
  }

  predicate AllResolved(labels: map<string, nat>, refs: map<nat, string>)
  {
    forall k :: k in refs ==> Resolve(labels, refs, k).Ok?
  }

  /** What a walk over the code writes: the bytes written, and the message
      of the error that stopped it, if any. */
  datatype Emitted = Emitted(bytes: seq<byte>, error: Option<string>)

  /** WriteByteCodes from position i on: a byte is copied, a reference
      position gets its resolved 32-bit value and the walk skips the four
      bytes it replaces. */
  function Emit(b: seq<byte>, labels: map<string, nat>, refs: map<nat, string>, i: nat): (e: Emitted)
    decreases |b| - i
  {
    if i >= |b| then Emitted([], None)
    else if i in refs then
      match Resolve(labels, refs, i)
      case Err(m) => Emitted([], Some(m))
      case Ok(v) => var rest := Emit(b, labels, refs, i + 4); Emitted(Le32(v) + rest.bytes, rest.error)
    else
      var rest := Emit(b, labels, refs, i + 1);
      Emitted([b[i]] + rest.bytes, rest.error)
  }

  /** The byte at position j of the patched code, defined position by
      position: byte m of the value of a reference at j - m, for m < 4, and
      otherwise the byte the code holds. */
  function OutByte(b: seq<byte>, labels: map<string, nat>, refs: map<nat, string>, j: nat): byte
    requires j < |b| && AllResolved(labels, refs)
  {
    if j in refs then Le32(Resolve(labels, refs, j).value)[0]
    else if j >= 1 && j - 1 in refs then Le32(Resolve(labels, refs, j - 1).value)[1]
    else if j >= 2 && j - 2 in refs then Le32(Resolve(labels, refs, j - 2).value)[2]
    else if j >= 3 && j - 3 in refs then Le32(Resolve(labels, refs, j - 3).value)[3]
    else b[j]
  }

  /** No reference window has i strictly inside it. */
  predicate NotInside(refs: map<nat, string>, i: nat)
  {
    forall k :: k in refs ==> !(k < i < k + 4)
  }

  /** Position j lies in no reference window. */
  predicate Untouched(refs: map<nat, string>, j: nat)
  {
    j !in refs && (j >= 1 ==> j - 1 !in refs) && (j >= 2 ==> j - 2 !in refs) && (j >= 3 ==> j - 3 !in refs)
  }

  /** Byte m of the window of reference k is byte m of its value. */
  lemma WindowByte(b: seq<byte>, labels: map<string, nat>, refs: map<nat, string>, k: nat, m: nat)
    requires WellPlaced(b, refs) && AllResolved(labels, refs)
    requires k in refs && m < 4
    ensures k + m < |b|
    ensures OutByte(b, labels, refs, k + m) == Le32(Resolve(labels, refs, k).value)[m]
  {
    assert k + 1 !in refs && k + 2 !in refs && k + 3 !in refs by {
      forall k2 | k2 in refs && k < k2
        ensures k + 5 <= k2
      {
      }
    }
    var v := Le32(Resolve(labels, refs, k).value);
    if m == 0 {
      assert OutByte(b, labels, refs, k) == v[0];
    } else if m == 1 {
      assert OutByte(b, labels, refs, k + 1) == v[1];
    } else if m == 2 {
      assert OutByte(b, labels, refs, k + 2) == v[2];
    } else {
      assert OutByte(b, labels, refs, k + 3) == v[3];
    }
  }

  /** The walk steps from a position outside the windows to the next one. */
  lemma StepOutside(b: seq<byte>, refs: map<nat, string>, i: nat)
    requires WellPlaced(b, refs) && NotInside(refs, i)
    ensures i in refs ==> i + 4 <= |b| && NotInside(refs, i + 4)
    ensures i !in refs ==> NotInside(refs, i + 1) && Untouched(refs, i)
  {
    if i in refs {
      assert i + 4 <= |b|;
      forall k | k in refs && i < k
        ensures i + 5 <= k
      {
      }
    }
  }

  /** With every label resolved, the walk from a position outside the
      windows writes exactly the rest of the code, patched. */
  lemma {:induction false} EmitFrom(b: seq<byte>, labels: map<string, nat>, refs: map<nat, string>, i: nat)
    requires WellPlaced(b, refs) && AllResolved(labels, refs)
    requires i <= |b| && NotInside(refs, i)
    ensures EmitsFrom(b, labels, refs, i)
    decreases |b| - i
  {
    if i < |b| {
      StepOutside(b, refs, i);
      if i in refs {
        EmitFrom(b, labels, refs, i + 4);
        WindowStep(b, labels, refs, i);
      } else {
        EmitFrom(b, labels, refs, i + 1);
        ByteStep(b, labels, refs, i);
      }
    } else {
      assert Emit(b, labels, refs, i) == Emitted([], None);
    }
  }

  /** The walk from i writes, without error, the patched code from i on. */
  ghost predicate EmitsFrom(b: seq<byte>, labels: map<string, nat>, refs: map<nat, string>, i: nat)
  {
    && i <= |b| && AllResolved(labels, refs)
    && Emit(b, labels, refs, i).error == None
    && |Emit(b, labels, refs, i).bytes| == |b| - i
    && forall j :: 0 <= j < |b| - i ==> Emit(b, labels, refs, i).bytes[j] == OutByte(b, labels, refs, i + j)
  }

  /** The walk at a reference position, given what the walk after its
      window writes. */
  lemma WindowStep(b: seq<byte>, labels: map<string, nat>, refs: map<nat, string>, i: nat)
    requires WellPlaced(b, refs) && AllResolved(labels, refs) && i < |b| && i in refs
    requires EmitsFrom(b, labels, refs, i + 4)
    ensures EmitsFrom(b, labels, refs, i)
  {
    var v := Resolve(labels, refs, i).value;
    var rest := Emit(b, labels, refs, i + 4);
    assert Emit(b, labels, refs, i) == Emitted(Le32(v) + rest.bytes, rest.error);
    WindowBytes(b, labels, refs, i);
    Prepended(b, labels, refs, i, i + 4, Le32(v));
  }

  /** The four bytes of a window are the patched code there. */
  lemma WindowBytes(b: seq<byte>, labels: map<string, nat>, refs: map<nat, string>, i: nat)
    requires WellPlaced(b, refs) && AllResolved(labels, refs) && i in refs
    ensures i + 4 <= |b|
    ensures forall m :: 0 <= m < 4 ==> Le32(Resolve(labels, refs, i).value)[m] == OutByte(b, labels, refs, i + m)
  {
    WindowByte(b, labels, refs, i, 3);
    forall m | 0 <= m < 4
      ensures Le32(Resolve(labels, refs, i).value)[m] == OutByte(b, labels, refs, i + m)
    {
      WindowByte(b, labels, refs, i, m);
    }
  }

  /** The walk at a position outside every window, given what the walk
      from the next position writes. */
  lemma ByteStep(b: seq<byte>, labels: map<string, nat>, refs: map<nat, string>, i: nat)
    requires AllResolved(labels, refs) && i < |b| && i !in refs && Untouched(refs, i)
    requires EmitsFrom(b, labels, refs, i + 1)
    ensures EmitsFrom(b, labels, refs, i)
  {
    var rest := Emit(b, labels, refs, i + 1);
    assert Emit(b, labels, refs, i) == Emitted([b[i]] + rest.bytes, rest.error);
    assert OutByte(b, labels, refs, i) == b[i];
    Prepended(b, labels, refs, i, i + 1, [b[i]]);
  }

  /** Bytes that are the patched code at i, followed by what the walk from
      the position after them writes, are the patched code from i on. */
  lemma Prepended(b: seq<byte>, labels: map<string, nat>, refs: map<nat, string>, i: nat, next: nat, head: seq<byte>)
    requires next == i + |head| && EmitsFrom(b, labels, refs, next)
    requires forall m :: 0 <= m < |head| ==> head[m] == OutByte(b, labels, refs, i + m)
    ensures |head + Emit(b, labels, refs, next).bytes| == |b| - i
    ensures forall j :: 0 <= j < |b| - i ==> (head + Emit(b, labels, refs, next).bytes)[j] == OutByte(b, labels, refs, i + j)
  {
    var rest := Emit(b, labels, refs, next).bytes;
    forall j | 0 <= j < |b| - i
      ensures (head + rest)[j] == OutByte(b, labels, refs, i + j)
    {
      if j >= |head| {
        assert (head + rest)[j] == rest[j - |head|];
        assert rest[j - |head|] == OutByte(b, labels, refs, next + (j - |head|));
      }
    }
  }

  /** WriteByteCodes writes exactly as many bytes as the code holds: the
      patched values inside the reference windows and every other byte
      unchanged. */
  lemma PatchedCode(b: seq<byte>, labels: map<string, nat>, refs: map<nat, string>)
    requires WellPlaced(b, refs) && AllResolved(labels, refs)
    ensures Emit(b, labels, refs, 0).error == None
    ensures |Emit(b, labels, refs, 0).bytes| == |b|
    ensures forall j :: 0 <= j < |b| && Untouched(refs, j) ==> Emit(b, labels, refs, 0).bytes[j] == b[j]
    ensures forall k :: k in refs ==> Emit(b, labels, refs, 0).bytes[k..k + 4] == Le32(Resolve(labels, refs, k).value)
  {
    EmitFrom(b, labels, refs, 0);
    var out := Emit(b, labels, refs, 0).bytes;
    forall j | 0 <= j < |b| && Untouched(refs, j)
      ensures out[j] == b[j]
    {
      KeptByte(b, labels, refs, out, j);
    }
    forall k | k in refs
      ensures out[k..k + 4] == Le32(Resolve(labels, refs, k).value)
    {
      PatchedWindow(b, labels, refs, out, k);
    }
  }

  /** A byte outside every window is written as the code holds it. */
  lemma KeptByte(b: seq<byte>, labels: map<string, nat>, refs: map<nat, string>, out: seq<byte>, j: nat)
    requires AllResolved(labels, refs) && j < |b| && Untouched(refs, j)
    requires |out| == |b| && forall n :: 0 <= n < |b| - 0 ==> out[n] == OutByte(b, labels, refs, 0 + n)
    ensures out[j] == b[j]
  {
    assert out[j] == OutByte(b, labels, refs, 0 + j);
  }

  /** The window of a reference holds the reference's resolved value. */
  lemma PatchedWindow(b: seq<byte>, labels: map<string, nat>, refs: map<nat, string>, out: seq<byte>, k: nat)
    requires WellPlaced(b, refs) && AllResolved(labels, refs) && k in refs
    requires |out| == |b| && forall n :: 0 <= n < |b| - 0 ==> out[n] == OutByte(b, labels, refs, 0 + n)
    ensures k + 4 <= |out| && out[k..k + 4] == Le32(Resolve(labels, refs, k).value)
  {
    var v := Le32(Resolve(labels, refs, k).value);
    WindowByte(b, labels, refs, k, 3);
    forall m | 0 <= m < 4
      ensures out[k..k + 4][m] == v[m]
    {
      WindowByte(b, labels, refs, k, m);
      assert out[k + m] == OutByte(b, labels, refs, 0 + (k + m));
    }
  }


  /** The five bytes of a patched forward jump reference: the 0x83 lead
      byte and the distance from their end to the label. */
  lemma PatchedJump(b: seq<byte>, labels: map<string, nat>, refs: map<nat, string>, k: nat)
    requires WellPlaced(b, refs) && AllResolved(labels, refs)
    requires k in refs && IndexOf(refs[k], ':') <= 0
    ensures |Emit(b, labels, refs, 0).bytes| == |b|
    ensures Emit(b, labels, refs, 0).bytes[k - 1..k + 4] == [0x83] + Le32(Wrap32(labels[refs[k]] - (k + 4)))
  {
    EmitFrom(b, labels, refs, 0);
    Window(Emit(b, labels, refs, 0).bytes, b, labels, refs, k);
    ResolveJump(labels, refs, k);
  }

  /** The value of a plain label reference. */
  lemma ResolveJump(labels: map<string, nat>, refs: map<nat, string>, k: nat)
    requires k in refs && IndexOf(refs[k], ':') <= 0 && AllResolved(labels, refs)
    ensures Resolve(labels, refs, k) == Ok(Wrap32(labels[refs[k]] - (k + 4)))
  {
    assert Resolve(labels, refs, k).Ok?;
  }

  /** The five bytes of any reference in the patched code. */
  lemma Window(out: seq<byte>, b: seq<byte>, labels: map<string, nat>, refs: map<nat, string>, k: nat)
    requires WellPlaced(b, refs) && AllResolved(labels, refs) && k in refs
    requires |out| == |b| && forall j :: 0 <= j < |b| ==> out[j - 0] == OutByte(b, labels, refs, j)
    ensures out[k - 1..k + 4] == [0x83] + Le32(Resolve(labels, refs, k).value)
  {
    var v := Resolve(labels, refs, k).value;
    assert Untouched(refs, k - 1) by {
      forall k2 | k2 in refs && k2 < k
        ensures k2 + 5 <= k
      {
      }
    }
    assert out[k - 1] == 0x83 by {
      assert out[(k - 1) - 0] == OutByte(b, labels, refs, k - 1);
    }
    forall m | 0 <= m < 4
      ensures out[k + m] == Le32(v)[m]
    {
      WindowByte(b, labels, refs, k, m);
      assert out[(k + m) - 0] == OutByte(b, labels, refs, k + m);
    }
    assert out[k - 1..k + 4] == [0x83] + Le32(v);
  }

  /** A patched jump reference is read back by the disassembler as the
      distance from the end of its five-byte parameter to the label, the
      same rule AddLabelReference follows for labels already known. */
  lemma ForwardReferenceReadsBack(b: seq<byte>, labels: map<string, nat>, refs: map<nat, string>, k: nat, rest: seq<byte>)
    requires WellPlaced(b, refs) && AllResolved(labels, refs)
    requires k in refs && IndexOf(refs[k], ':') <= 0
    ensures |Emit(b, labels, refs, 0).bytes| == |b|
    ensures DecodeParameter(Emit(b, labels, refs, 0).bytes[k - 1..k + 4] + rest, 0)
              == Ok((Number(Wrap32(labels[refs[k]] - (k + 4))), 5))
  {
    var v := Wrap32(labels[refs[k]] - (k + 4));
    PatchedJump(b, labels, refs, k);
    var w := Emit(b, labels, refs, 0).bytes[k - 1..k + 4];
    assert w == ConstEncoding(v, 5);
    ConstEncodingReadsBack(v, 5, rest);
  }

  // --------------------------------------------------------- what is decoded

  /** AddConstant is read back by the disassembler as the constant, over
      exactly the bytes written, whatever minimum length was asked for. */
  lemma ConstEncodingReadsBack(value: int, minimumencodingbytes: int, rest: seq<byte>)
    requires IsInt32(value)
    ensures DecodeParameter(ConstEncoding(value, minimumencodingbytes) + rest, 0)
              == Ok((Number(value), |ConstEncoding(value, minimumencodingbytes)|))
  {
    var e := ConstEncoding(value, minimumencodingbytes);
    if -32 <= value <= 31 && minimumencodingbytes <= 1 {
      ShortConstReadsBack(value, rest);
    } else if -128 <= value <= 127 && minimumencodingbytes <= 2 {
      assert e + rest == [0x81] + LowBytes(value, 1) + rest;
      LongConstReadsBack(0x81, value, 1, rest);
    } else if -32768 <= value <= 32767 && minimumencodingbytes <= 3 {
      assert e + rest == [0x82] + LowBytes(value, 2) + rest;
      LongConstReadsBack(0x82, value, 2, rest);
    } else {
      assert e + rest == [0x83] + LowBytes(value, 4) + rest;
      LongConstReadsBack(0x83, value, 4, rest);
    }
  }

  lemma ShortConstReadsBack(value: int, rest: seq<byte>)
    requires -32 <= value <= 31
    ensures DecodeParameter([value % 64] + rest, 0) == Ok((Number(value), 1))
  {
    BitWeights();
    assert ByteAt([value % 64] + rest, 0) == value % 64;
  }

  lemma LongConstReadsBack(lead: byte, value: int, width: nat, rest: seq<byte>)
    requires lead in {0x81, 0x82, 0x83}
    requires width == (if lead == 0x81 then 1 else if lead == 0x82 then 2 else 4)
    requires lead == 0x81 ==> -128 <= value <= 127
    requires lead == 0x82 ==> IsInt16(value)
    requires IsInt32(value)
    ensures DecodeParameter([lead] + LowBytes(value, width) + rest, 0) == Ok((Number(value), 1 + width))
  {
    BitWeights();
    ExtraRoundTrip(lead, value, width, rest);
  }

  /** The assembler's constants and the runtime's CONST use one encoding. */
  lemma ConstEncodingIsConst(value: int)
    ensures ConstEncoding(value, 0) == ConstBytes(value)
  {
  }

  /** Every non-negative 32-bit variable index is read back as written
      (unlike GLOBVAR/LOCVAR, the assembler switches to the two-byte form
      already at 128). */
  lemma VariableEncodingReadsBack(index: nat, local: bool, rest: seq<byte>)
    requires IsInt32(index)
    ensures DecodeParameter(VariableEncoding(index, local) + rest, 0)
              == Ok(((if local then Local(index) else Global(index)), |VariableEncoding(index, local)|))
  {
    if index <= 31 {
      ShortVariableReadsBack(index, local, rest);
    } else {
      LongVariableReadsBack(index, local, rest);
    }
  }

  lemma ShortVariableReadsBack(index: nat, local: bool, rest: seq<byte>)
    requires index <= 31
    ensures DecodeParameter(VariableEncoding(index, local) + rest, 0)
              == Ok(((if local then Local(index) else Global(index)), 1))
  {
    BitWeights();
    var e := VariableEncoding(index, local);
    assert ByteAt(e + rest, 0) == (if local then 0x40 else 0x60) + index;
  }

  lemma LongVariableReadsBack(index: nat, local: bool, rest: seq<byte>)
    requires 31 < index && IsInt32(index)
    ensures DecodeParameter(VariableEncoding(index, local) + rest, 0)
              == Ok(((if local then Local(index) else Global(index)), |VariableEncoding(index, local)|))
  {
    var e := VariableEncoding(index, local);
    VariableLeads(index);
    var width: nat := if index <= 127 then 1 else if index <= 32767 then 2 else 4;
    var lead: byte := (if local then 0xc0 else 0xe0) + (if width == 4 then 3 else width);
    assert e + rest == [lead] + LowBytes(index, width) + rest;
    LongFormReadsBack(lead, index, width, rest);
  }

  /** An accepted string literal is read back as the same text. */
  lemma LiteralEncodingReadsBack(s: string, rest: seq<byte>)
    requires AcceptedPrefix(s) == |s|
    ensures DecodeParameter(LiteralEncoding(s) + rest, 0) == Ok((Literal(s), |s| + 2))
  {
    LiteralScan(s, rest);
    DecodeStringLead(LiteralEncoding(s) + rest, s);
  }

  lemma LiteralScan(s: string, rest: seq<byte>)
    requires AcceptedPrefix(s) == |s|
    ensures IsStringLead(ByteAt(LiteralEncoding(s) + rest, 0))
    ensures StringScan(LiteralEncoding(s) + rest, 1) == Some(s)
  {
    var t := TextBytes(s);
    var data := LiteralEncoding(s) + rest;
    TextBytesNonZero(s);
    assert data == [0x80] + t + [0] + rest;
    assert data[1..1 + |t|] == t;
    ScanFrom(data, 1, t);
    AcceptedText(s);
    LeadByte80(data);
  }

  /** The characters of an accepted text are their own bytes. */
  lemma AcceptedText(s: string)
    requires AcceptedPrefix(s) == |s|
    ensures Chars(TextBytes(s)) == s
  {
    var t := TextBytes(s);
    forall k | 0 <= k < |s|
      ensures Chars(t)[k] == s[k]
    {
      assert LiteralChar(s[k]);
    }
  }

  lemma LeadByte80(data: seq<byte>)
    requires |data| > 0 && data[0] == 0x80
    ensures IsStringLead(ByteAt(data, 0))
  {
    BitWeights();
  }

  /** A reference to a label already defined is read back as the distance
      from the end of the encoded parameter to the label. */
  lemma BackwardReferenceReadsBack(target: int, len: int, rest: seq<byte>)
    requires 0 <= target <= len < TWO_31 - 5
    ensures var e := BackwardReference(target, len);
      DecodeParameter(e + rest, 0) == Ok((Number(target - (len + |e|)), |e|))
  {
    var d := target - len;
    var e := BackwardReference(target, len);
    if d - 1 >= -32 {
      ConstEncodingReadsBack(d - 1, 1, rest);
    } else if d - 2 >= -128 {
      ConstEncodingReadsBack(d - 2, 2, rest);
    } else if d - 3 >= -32768 {
      ConstEncodingReadsBack(d - 3, 3, rest);
    } else {
      ConstEncodingReadsBack(d - 5, 5, rest);
    }
  }

  // ------------------------------------------------------------- the objects

  datatype Kind = Thread | SubCall

  /** The descriptor byte(s) of one IO parameter: 0x80 for input, 0x40 for
      output, 0xC0 for both, or-ed with the type 0..4; a string (type 4) is
      followed by its size. Other types write nothing. */
  function Descriptor(dt: DataType, at: AccessType, size: nat): (r: seq<byte>)
    ensures dt in {I8, I16, I32, F} ==> 1 <= |r| && r[0] / 64 == (match at case Read => 2 case ReadMany => 2 case Write => 1 case ReadWrite => 3)
    ensures dt in {I8, I16, I32, F} ==> r[0] % 64 == (match dt case I8 => (if size == 0 then 0 else 4) case I16 => 1 case I32 => 2 case _ => 3)
  {
    var flags: byte := match at case Read => 0x80 case ReadMany => 0x80 case Write => 0x40 case ReadWrite => 0xC0;
    match dt
    case I8 => if size == 0 then [flags] else [flags + 4, LowByte(size)]
    case I16 => [flags + 1]
    case I32 => [flags + 2]
    case F => [flags + 3]
    case _ => []
  }

  /** The descriptors of the first n IO parameters, in order. */
  function Descriptors(dts: seq<DataType>, ats: seq<AccessType>, sizes: seq<nat>, n: nat): seq<byte>
    requires n <= |dts| && n <= |ats| && n <= |sizes|
  {
    if n == 0 then [] else Descriptors(dts, ats, sizes, n - 1) + Descriptor(dts[n - 1], ats[n - 1], sizes[n - 1])
  }

  /** The first argument of a CALL that does not fit its parameter, checked
      in order. */
  function CheckArguments(args: seq<Argument>, dts: seq<DataType>, ats: seq<AccessType>, i: nat): Result<()>
    requires |args| <= |dts| && |args| <= |ats|
    decreases |args| - i
  {
    if i >= |args| then Ok(())
    else match Check(args[i], dts[i], ats[i])
      case Err(m) => Err(m)
      case Ok(_) => CheckArguments(args, dts, ats, i + 1)
  }

  /** The arguments pass exactly when each fits its parameter. */
  lemma {:induction false} CheckArgumentsMeaning(args: seq<Argument>, dts: seq<DataType>, ats: seq<AccessType>, i: nat)
    requires |args| <= |dts| && |args| <= |ats|
    ensures CheckArguments(args, dts, ats, i).Ok? <==> forall k :: i <= k < |args| ==> Check(args[k], dts[k], ats[k]).Ok?
    decreases |args| - i
  {
    if i < |args| {
      CheckArgumentsMeaning(args, dts, ats, i + 1);
    }
  }

  /** The test WriteBody makes of every recorded CALL of subcall name, from
      the first recorded one on. */
  function CheckCalls(name: string, calls: seq<seq<Argument>>, dts: seq<DataType>, ats: seq<AccessType>, i: nat): Result<()>
    requires |ats| == |dts|
    decreases |calls| - i
  {
    if i >= |calls| then Ok(())
    else if |calls[i]| != |dts| then
      Err("Detected use of CALL " + name + " with " + IntToString(|calls[i]|) + " parameters instead of " + IntToString(|dts|))
    else match CheckArguments(calls[i], dts, ats, 0)
      case Err(m) => Err(m)
      case Ok(_) => CheckCalls(name, calls, dts, ats, i + 1)
  }

  /** The recorded CALLs pass exactly when each has one argument per
      parameter and every argument fits its parameter. */
  lemma {:induction false} CheckCallsMeaning(name: string, calls: seq<seq<Argument>>, dts: seq<DataType>, ats: seq<AccessType>, i: nat)
    requires |ats| == |dts|
    ensures CheckCalls(name, calls, dts, ats, i).Ok? <==> forall c :: i <= c < |calls| ==>
              |calls[c]| == |dts| && forall k :: 0 <= k < |dts| ==> Check(calls[c][k], dts[k], ats[k]).Ok?
    decreases |calls| - i
  {
    if i < |calls| {
      if |calls[i]| == |dts| {
        CheckArgumentsMeaning(calls[i], dts, ats, 0);
      }
      CheckCallsMeaning(name, calls, dts, ats, i + 1);
    }
  }

  /** LMSThread and LMSSubCall, told apart by kind. started stands for the
      program stream having been created. */
  class LMSObject {
    const name: string
    const id: int
    const kind: Kind
    const locals: Area
    var started: bool
    var program: seq<byte>
    var labels: map<string, nat>
    var references: map<nat, string>
    var offsetToInstructions: int
    var ioDataTypes: seq<DataType>
    var ioAccessTypes: seq<AccessType>
    var ioStringSizes: seq<nat>
    var callerMemorization: seq<seq<Argument>>
    var implementation: LMSObject?

    /** The code and its tables agree. Writing the offset of the code
        does not touch it. */
    ghost predicate Valid()
      reads this`started, this`program, this`labels, this`references, this`implementation
      reads this`ioDataTypes, this`ioAccessTypes, this`ioStringSizes, this`callerMemorization
    {
      WellPlaced(program, references)
      && (forall l :: l in labels ==> labels[l] <= |program|)
      && IoShaped()
      && (!started ==> program == [] && labels == map[] && references == map[])
      && (kind == Thread ==> implementation == null && ioDataTypes == [] && callerMemorization == [])
    }

    /** One access type and one string size per IO parameter. */
    ghost predicate IoShaped()
      reads this`ioDataTypes, this`ioAccessTypes, this`ioStringSizes
    {
      |ioAccessTypes| == |ioDataTypes| && |ioStringSizes| == |ioDataTypes|
    }

    constructor (name: string, id: int, kind: Kind)
      ensures Valid() && fresh(locals) && locals.Valid()
      ensures this.name == name && this.id == id && this.kind == kind
      ensures !started && program == [] && labels == map[] && references == map[] && offsetToInstructions == 0
      ensures ioDataTypes == [] && ioAccessTypes == [] && ioStringSizes == [] && callerMemorization == []
      ensures implementation == null && locals.elements == map[] && locals.endofarea == 0
    {
      this.name := name;
      this.id := id;
      this.kind := kind;
      locals := new Area();
      started := false;
      program := [];
      labels := map[];
      references := map[];
      offsetToInstructions := 0;
      ioDataTypes := [];
      ioAccessTypes := [];
      ioStringSizes := [];
      callerMemorization := [];
      implementation := null;
    }

    /** Starting the code of an object whose code was already started, or
        of a subcall that is an alias of another one, is an error. */
    method StartCode() returns (r: Result<()>)
      requires Valid()
      modifies this`started, this`program
      ensures Valid()
      ensures old(started) || old(implementation) != null ==>
                r == Err("Duplicate definition of " + name) && started == old(started) && program == old(program)
      ensures !old(started) && old(implementation) == null ==> r == Ok(()) && started && program == []
    {
      if started || implementation != null {
        return Err("Duplicate definition of " + name);
      }
      started := true;
      program := [];
      r := Ok(());
    }

    /** Makes this subcall an alias of impl, whose code and locals it uses. */
    method SetImplementation(impl: LMSObject) returns (r: Result<()>)
      requires Valid() && kind == SubCall
      modifies this`implementation
      ensures Valid()
      ensures old(started) || old(implementation) != null ==>
                r == Err("Duplicate definition of " + name) && implementation == old(implementation)
      ensures !old(started) && old(implementation) == null ==> r == Ok(()) && implementation == impl
    {
      if started || implementation != null {
        return Err("Duplicate definition of " + name);
      }
      implementation := impl;
      r := Ok(());
    }

    method AddConstant(value: int, minimumencodingbytes: int)
      requires Valid() && started && IsInt32(value)
      modifies this`program
      ensures Valid()
      ensures program == old(program) + ConstEncoding(value, minimumencodingbytes)
    {
      var e := ConstEncoding(value, minimumencodingbytes);
      program := program + e;
    }

    /** The opcode byte; a second opcode byte follows as a constant. */
    method AddOpCode(opcode: seq<byte>)
      requires Valid() && started && |opcode| >= 1
      modifies this`program
      ensures Valid()
      ensures program == old(program) + [opcode[0]] + (if |opcode| > 1 then ConstEncoding(opcode[1], 0) else [])
    {
      program := program + [opcode[0]];
      if |opcode| > 1 {
        AddConstant(opcode[1], 0);
      }
    }

    method AddVariableReference(index: int, local: bool) returns (r: Result<()>)
      requires Valid() && started && IsInt32(index)
      modifies this`program
      ensures Valid()
      ensures index < 0 ==> r == Err("Negative variable index!") && program == old(program)
      ensures index >= 0 ==> r == Ok(()) && program == old(program) + VariableEncoding(index, local)
    {
      if index < 0 {
        return Err("Negative variable index!");
      }
      program := program + VariableEncoding(index, local);
      r := Ok(());
    }

    /** Writes 0x80 and the characters one by one; a character outside
        1..255 stops it with an error, leaving what was written so far. */
    method AddStringLiteral(s: string) returns (r: Result<()>)
      requires Valid() && started
      modifies this`program
      ensures Valid()
      ensures AcceptedPrefix(s) == |s| ==> r == Ok(()) && program == old(program) + LiteralEncoding(s)
      ensures AcceptedPrefix(s) < |s| ==>
                r == Err("String literal contains non-ascii character")
                && program == old(program) + [0x80] + TextBytes(s[..AcceptedPrefix(s)])
    {
      program := program + [0x80];
      ghost var start := program;
      var i := 0;
      while i < |s|
        invariant 0 <= i <= |s| && i <= AcceptedPrefix(s)
        invariant program == start + TextBytes(s[..i])
      {
        var c := CodeOf(s[i]);
        if c <= 0 || c > 255 {
          AppendTwo(old(program), [0x80], TextBytes(s[..i]));
          KeepsPlaced(old(program), [0x80] + TextBytes(s[..i]), references, labels);
          return Err("String literal contains non-ascii character");
        }
        TextBytesAppend(s, i);
        AppendTwo(start, TextBytes(s[..i]), [c]);
        program := program + [c];
        i := i + 1;
      }
      assert s[..i] == s;
      program := program + [0];
      AppendTwo(old(program), [0x80], TextBytes(s));
      AppendTwo(old(program), [0x80] + TextBytes(s), [0]);
      KeepsPlaced(old(program), LiteralEncoding(s), references, labels);
      r := Ok(());
    }

    /** A reference to a known label is written at once as the distance to
        it; any other label gets a placeholder that WriteByteCodes patches. */
    method AddLabelReference(labelName: string)
      requires Valid() && started && |program| < TWO_31 - 5
      modifies this`program, this`references
      ensures Valid()
      ensures labelName in labels ==>
                program == old(program) + BackwardReference(labels[labelName], |old(program)|)
                && references == old(references)
      ensures labelName !in labels ==>
                program == old(program) + PLACEHOLDER
                && references == old(references)[|old(program)| + 1 := labelName]
    {
      if labelName in labels {
        var target := labels[labelName];
        var d := target - |program|;
        if d > 0 {
          assert false;
        }
        if d - 1 >= -32 {
          AddConstant(d - 1, 1);
        } else if d - 2 >= -128 {
          AddConstant(d - 2, 2);
        } else if d - 3 >= -32768 {
          AddConstant(d - 3, 3);
        } else {
          AddConstant(d - 5, 5);
        }
      } else {
        AddPlaceholder(labelName);
      }
    }

    /** A "A:B" operand: a placeholder patched with the distance between
        two labels. */
    method AddLabelDifference(descriptor: string)
      requires Valid() && started
      modifies this`program, this`references
      ensures Valid()
      ensures program == old(program) + PLACEHOLDER
      ensures references == old(references)[|old(program)| + 1 := descriptor]
    {
      AddPlaceholder(descriptor);
    }

    method AddPlaceholder(labelName: string)
      requires Valid() && started
      modifies this`program, this`references
      ensures Valid()
      ensures program == old(program) + PLACEHOLDER
      ensures references == old(references)[|old(program)| + 1 := labelName]
    {
      var k := |program| + 1;
      assert forall k2 :: k2 in references ==> k2 + 5 <= k;
      references := references[k := labelName];
      program := program + PLACEHOLDER;
    }

    method MemorizeLabel(labelName: string)
      requires Valid() && started
      modifies this`labels
      ensures Valid()
      ensures labels == old(labels)[labelName := |program|]
    {
      labels := labels[labelName := |program|];
    }

    /** Records an IN/OUT/IO parameter of a subcall; threads have none. */
    method MemorizeIOParameter(dt: DataType, at: AccessType) returns (r: Result<()>)
      requires Valid()
      modifies this`ioDataTypes, this`ioAccessTypes, this`ioStringSizes
      ensures Valid()
      ensures kind == Thread ==>
                r == Err("Can not add IN or OUT data to this object")
                && ioDataTypes == old(ioDataTypes) && ioAccessTypes == old(ioAccessTypes) && ioStringSizes == old(ioStringSizes)
      ensures kind == SubCall ==>
                r == Ok(())
                && ioDataTypes == old(ioDataTypes) + [dt] && ioAccessTypes == old(ioAccessTypes) + [at]
                && ioStringSizes == old(ioStringSizes) + [0]
    {
      if kind == Thread {
        return Err("Can not add IN or OUT data to this object");
      }
      ioDataTypes := ioDataTypes + [dt];
      ioAccessTypes := ioAccessTypes + [at];
      ioStringSizes := ioStringSizes + [0];
      r := Ok(());
    }

    /** Records a string IN/OUT/IO parameter of 1..255 bytes. */
    method MemorizeStringIOParameter(size: int, at: AccessType) returns (r: Result<()>)
      requires Valid()
      modifies this`ioDataTypes, this`ioAccessTypes, this`ioStringSizes
      ensures Valid()
      ensures r.Ok? <==> kind == SubCall && 1 <= size <= 255
      ensures kind == Thread ==> r == Err("Can not add IN or OUT data to this object")
      ensures kind == SubCall && !(1 <= size <= 255) ==> r == Err("Length of IO parameter must not exceed 255 bytes")
      ensures r.Err? ==> ioDataTypes == old(ioDataTypes) && ioAccessTypes == old(ioAccessTypes) && ioStringSizes == old(ioStringSizes)
      ensures r.Ok? ==>
                ioDataTypes == old(ioDataTypes) + [I8] && ioAccessTypes == old(ioAccessTypes) + [at]
                && ioStringSizes == old(ioStringSizes) + [size]
    {
      if kind == Thread {
        return Err("Can not add IN or OUT data to this object");
      }
      if size < 1 || size > 255 {
        return Err("Length of IO parameter must not exceed 255 bytes");
      }
      ioDataTypes := ioDataTypes + [I8];
      ioAccessTypes := ioAccessTypes + [at];
      ioStringSizes := ioStringSizes + [size];
      r := Ok(());
    }

    method StartCallerMemorization()
      requires Valid() && kind == SubCall
      modifies this`callerMemorization
      ensures Valid()
      ensures callerMemorization == old(callerMemorization) + [[]]
    {
      callerMemorization := callerMemorization + [[]];
    }

    method MemorizeCallerParameter(p: Argument)
      requires Valid() && kind == SubCall && |callerMemorization| > 0
      modifies this`callerMemorization
      ensures Valid()
      ensures var n := |old(callerMemorization)|;
        callerMemorization == old(callerMemorization)[n - 1 := old(callerMemorization)[n - 1] + [p]]
    {
      var n := |callerMemorization|;
      callerMemorization := callerMemorization[n - 1 := callerMemorization[n - 1] + [p]];
    }

    /** Writes the code with every reference patched. An object whose code
        was never started (only referred to) is an error. */
    method WriteByteCodes(stream: OutStream, offset: int) returns (r: Result<()>)
      requires IsInt32(offset)
      modifies this`offsetToInstructions, stream
      ensures offsetToInstructions == offset
      ensures !started ==> r == Err("Unresolved subcall: " + name) && stream.bytes == old(stream.bytes)
      ensures started ==> var e := Emit(program, labels, references, 0);
        stream.bytes == old(stream.bytes) + e.bytes
        && (e.error.None? ==> r == Ok(())) && (e.error.Some? ==> r == Err(e.error.value))
    {
      offsetToInstructions := offset;
      if !started {
        return Err("Unresolved subcall: " + name);
      }
      r := EmitCode(stream, program, labels, references);
    }

    /** The fixed-size record of the object in the image header: code
        offset, two 16-bit words (the second 1 for a subcall) and the size
        of the local data; an alias takes both from its implementation. */
    method WriteHeader(stream: OutStream)
      requires IsInt32(offsetToInstructions)
      requires implementation != null ==> IsInt32(implementation.offsetToInstructions)
      modifies stream
      ensures stream.bytes == old(stream.bytes) + HeaderRecord(old(Info(this)))
    {
      var src := if implementation != null then implementation else this;
      var offset, flag, size := src.offsetToInstructions, if kind == SubCall then 1 else 0, Wrap32(src.locals.endofarea);
      ghost var b0 := stream.bytes;
      Write32(stream, offset);
      Write16(stream, 0);
      Write16(stream, flag);
      Write32(stream, size);
      AppendFour(b0, Le32(offset), Le16(0), Le16(flag), Le32(size));
    }

    /** A thread's body is its code and OBJECT_END. */
    method WriteThreadBody(stream: OutStream, offset: int) returns (r: Result<()>)
      requires kind == Thread && IsInt32(offset)
      modifies this`offsetToInstructions, stream
      ensures offsetToInstructions == offset
      ensures !started ==> r == Err("Unresolved subcall: " + name) && stream.bytes == old(stream.bytes)
      ensures started ==> var e := Emit(program, labels, references, 0);
        (e.error.None? ==> r == Ok(()) && stream.bytes == old(stream.bytes) + e.bytes + [0x0A])
        && (e.error.Some? ==> r == Err(e.error.value) && stream.bytes == old(stream.bytes) + e.bytes)
    {
      r := WriteByteCodes(stream, offset);
      if r.Ok? {
        stream.WriteByte(0x0A);
      }
    }

    /** A subcall's body: the parameter count, one descriptor per IO
        parameter, the code, RETURN and OBJECT_END; then every recorded CALL
        is checked against the parameters. An alias writes nothing. */
    method WriteSubCallBody(stream: OutStream, offset: int) returns (r: Result<()>)
      requires IoShaped() && kind == SubCall && IsInt32(offset)
      modifies this`offsetToInstructions, stream
      ensures implementation != null ==>
                r == Ok(()) && stream.bytes == old(stream.bytes) && offsetToInstructions == old(offsetToInstructions)
      ensures implementation == null ==> offsetToInstructions == offset
      ensures implementation == null && !started ==>
                r == Err("Unresolved subcall: " + name) && stream.bytes == old(stream.bytes) + SubCallHead()
      ensures implementation == null && started ==>
                var e := Emit(program, labels, references, 0);
                (e.error.Some? ==>
                   r == Err(e.error.value) && stream.bytes == old(stream.bytes) + SubCallHead() + e.bytes)
                && (e.error.None? ==>
                   r == CheckCalls(name, callerMemorization, ioDataTypes, ioAccessTypes, 0)
                   && stream.bytes == old(stream.bytes) + SubCallHead() + e.bytes + [0x08, 0x0A])
    {
      if implementation != null {
        return Ok(());
      }
      WriteDescriptors(stream);
      r := WriteByteCodes(stream, offset);
      if r.Err? {
        return;
      }
      stream.WriteByte(0x08);
      stream.WriteByte(0x0A);
      r := CheckCallList();
    }

    /** WriteBody of LMSThread or LMSSubCall, as the kind says. */
    method WriteBody(stream: OutStream, offset: int) returns (r: Result<()>)
      requires IoShaped() && IsInt32(offset)
      modifies this`offsetToInstructions, stream
      ensures old(Body()).Ok? ==> r.Ok? && stream.bytes == old(stream.bytes) + old(Body()).value
      ensures old(Body()).Err? ==> r == Err(old(Body()).msg)
      ensures kind == SubCall && implementation != null ==> offsetToInstructions == old(offsetToInstructions)
      ensures kind == Thread || implementation == null ==> offsetToInstructions == offset
    {
      ghost var body := Body();
      ghost var e := Emit(program, labels, references, 0);
      if kind == Thread {
        assert body == if !started then Err("Unresolved subcall: " + name)
          else if e.error.Some? then Err(e.error.value) else Ok(e.bytes + [0x0A]);
        r := WriteThreadBody(stream, offset);
      } else {
        ghost var c := CheckCalls(name, callerMemorization, ioDataTypes, ioAccessTypes, 0);
        assert body == if implementation != null then Ok([])
          else if !started then Err("Unresolved subcall: " + name)
          else if e.error.Some? then Err(e.error.value)
          else if c.Err? then Err(c.msg) else Ok(SubCallHead() + e.bytes + [0x08, 0x0A]);
        r := WriteSubCallBody(stream, offset);
      }
    }

    /** The bytes WriteBody contributes to the image, or the error it
        stops with: a thread's code and OBJECT_END; a subcall's descriptors,
        code, RETURN and OBJECT_END once every recorded CALL fits; nothing
        for an alias. */
    function Body(): (r: Result<seq<byte>>)
      reads this`started, this`program, this`labels, this`references, this`implementation
      reads this`ioDataTypes, this`ioAccessTypes, this`ioStringSizes, this`callerMemorization
      requires IoShaped()
      ensures kind == SubCall && implementation != null ==> r == Ok([])
      ensures (kind == Thread || implementation == null) && !started ==> r == Err("Unresolved subcall: " + name)
      ensures r.Ok? && kind == Thread ==> |r.value| >= 1 && r.value[|r.value| - 1] == 0x0A
      ensures r.Ok? && kind == SubCall && implementation == null ==>
                |r.value| >= |SubCallHead()| + 2 && r.value[..|SubCallHead()|] == SubCallHead()
                && r.value[|r.value| - 2..] == [0x08, 0x0A]
    {
      if kind == SubCall && implementation != null then Ok([])
      else if !started then Err("Unresolved subcall: " + name)
      else
        var e := Emit(program, labels, references, 0);
        if e.error.Some? then Err(e.error.value)
        else if kind == Thread then Ok(e.bytes + [0x0A])
        else match CheckCalls(name, callerMemorization, ioDataTypes, ioAccessTypes, 0)
          case Err(m) => Err(m)
          case Ok(_) => Ok(SubCallHead() + e.bytes + [0x08, 0x0A])
    }

    /** The parameter count and the descriptor of each IO parameter. */
    method WriteDescriptors(stream: OutStream)
      requires IoShaped()
      modifies stream
      ensures stream.bytes == old(stream.bytes) + SubCallHead()
    {
      var numpar := |ioDataTypes|;
      stream.WriteByte(LowByte(numpar));
      ghost var start := stream.bytes;
      var i := 0;
      while i < numpar
        invariant 0 <= i <= numpar
        invariant stream.bytes == start + Descriptors(ioDataTypes, ioAccessTypes, ioStringSizes, i)
      {
        var d := Descriptor(ioDataTypes[i], ioAccessTypes[i], ioStringSizes[i]);
        ghost var before := stream.bytes;
        var k := 0;
        while k < |d|
          invariant 0 <= k <= |d|
          invariant stream.bytes == before + d[..k]
        {
          assert d[..k + 1] == d[..k] + [d[k]];
          stream.WriteByte(d[k]);
          k := k + 1;
        }
        assert d[..k] == d;
        AppendTwo(start, Descriptors(ioDataTypes, ioAccessTypes, ioStringSizes, i), d);
        i := i + 1;
      }
      AppendTwo(old(stream.bytes), [LowByte(numpar)], Descriptors(ioDataTypes, ioAccessTypes, ioStringSizes, numpar));
    }

    /** The bytes in front of a subcall's code. */
    function SubCallHead(): seq<byte>
      reads this`ioDataTypes, this`ioAccessTypes, this`ioStringSizes
      requires IoShaped()
    {
      [LowByte(|ioDataTypes|)] + Descriptors(ioDataTypes, ioAccessTypes, ioStringSizes, |ioDataTypes|)
    }

    /** Checks every recorded CALL: the argument count first, then each
        argument against its parameter. */
    method CheckCallList() returns (r: Result<()>)
      requires IoShaped()
      ensures r == CheckCalls(name, callerMemorization, ioDataTypes, ioAccessTypes, 0)
    {
      var numpar := |ioDataTypes|;
      var c := 0;
      while c < |callerMemorization|
        invariant 0 <= c <= |callerMemorization|
        invariant CheckCalls(name, callerMemorization, ioDataTypes, ioAccessTypes, 0)
                  == CheckCalls(name, callerMemorization, ioDataTypes, ioAccessTypes, c)
      {
        var l := callerMemorization[c];
        if |l| != numpar {
          return Err("Detected use of CALL " + name + " with " + IntToString(|l|) + " parameters instead of " + IntToString(numpar));
        }
        var i := 0;
        while i < numpar
          invariant 0 <= i <= numpar
          invariant CheckArguments(l, ioDataTypes, ioAccessTypes, 0) == CheckArguments(l, ioDataTypes, ioAccessTypes, i)
        {
          var ok := Check(l[i], ioDataTypes[i], ioAccessTypes[i]);
          if ok.Err? {
            return Err(ok.msg);
          }
          i := i + 1;
        }
        c := c + 1;
      }
      r := Ok(());
    }
  }

  /** What the image header records about an object: the offset of its
      code, the subcall flag and the size of its local data. */
  datatype HeaderInfo = HeaderInfo(offset: int, flag: int, localBytes: int)

  /** An object's header entry; an alias takes offset and size from its
      implementation. */
  function Info(o: LMSObject): (r: HeaderInfo)
    reads o, o.locals, if o.implementation != null then {o.implementation, o.implementation.locals} else {}
  {
    var src := if o.implementation != null then o.implementation else o;
    HeaderInfo(src.offsetToInstructions, if o.kind == SubCall then 1 else 0, src.locals.endofarea)
  }

  /** The 12-byte record of an object in the image header: the offset of
      its code, two 16-bit words (the second is the subcall flag) and the
      size of its local data. */
  function HeaderRecord(h: HeaderInfo): (r: seq<byte>)
    ensures |r| == 12
  {
    Le32(h.offset) + Le16(0) + Le16(h.flag) + Le32(Wrap32(h.localBytes))
  }

  /** Appending to the code keeps the references and labels in place. */
  lemma KeepsPlaced(b: seq<byte>, e: seq<byte>, refs: map<nat, string>, labels: map<string, nat>)
    requires WellPlaced(b, refs) && forall l :: l in labels ==> labels[l] <= |b|
    ensures WellPlaced(b + e, refs) && forall l :: l in labels ==> labels[l] <= |b + e|
  {
    forall k | k in refs
      ensures (b + e)[k - 1] == 0x83
    {
    }
  }

  /** The walk of WriteByteCodes over a snapshot of the code. */
  method EmitCode(stream: OutStream, b: seq<byte>, labels: map<string, nat>, refs: map<nat, string>) returns (r: Result<()>)
    modifies stream
    ensures var e := Emit(b, labels, refs, 0);
      stream.bytes == old(stream.bytes) + e.bytes
      && (e.error.None? ==> r == Ok(())) && (e.error.Some? ==> r == Err(e.error.value))
  {
    var i := 0;
    ghost var acc: seq<byte> := [];
    EmitStarted(b, labels, refs);
    while i < |b|
      invariant stream.bytes == old(stream.bytes) + acc
      invariant EmittedSoFar(b, labels, refs, i, acc)
      decreases |b| - i
    {
      ghost var x: seq<byte>;
      var next, err;
      next, err, x := EmitAt(stream, b, labels, refs, i);
      if err.Some? {
        EmitStopped(b, labels, refs, i, acc);
        return Err(err.value);
      }
      EmitMoved(b, labels, refs, i, next - i, x, acc);
      acc := acc + x;
      i := next;
    }
    EmitFinished(b, labels, refs, i, acc);
    r := Ok(());
  }

  /** Before the walk nothing has been emitted. */
  lemma EmitStarted(b: seq<byte>, labels: map<string, nat>, refs: map<nat, string>)
    ensures EmittedSoFar(b, labels, refs, 0, [])
  {
    assert [] + Emit(b, labels, refs, 0).bytes == Emit(b, labels, refs, 0).bytes;
  }

  /** A walk that reaches the end has emitted everything, without error. */
  lemma EmitFinished(b: seq<byte>, labels: map<string, nat>, refs: map<nat, string>, i: nat, acc: seq<byte>)
    requires i >= |b| && EmittedSoFar(b, labels, refs, i, acc)
    ensures Emit(b, labels, refs, 0) == Emitted(acc, None)
  {
    assert acc + [] == acc;
  }

  /** One turn of WriteByteCodes' loop: a reference position gets its
      resolved value, or stops the walk with the error; any other position
      gets its byte. */
  method EmitAt(stream: OutStream, b: seq<byte>, labels: map<string, nat>, refs: map<nat, string>, i: nat)
    returns (next: nat, err: Option<string>, ghost x: seq<byte>)
    requires i < |b|
    modifies stream
    ensures stream.bytes == old(stream.bytes) + x
    ensures err.Some? ==> i in refs && Resolve(labels, refs, i) == Err(err.value) && x == []
    ensures err.None? && i in refs ==> next == i + 4 && Resolve(labels, refs, i).Ok? && x == Le32(Resolve(labels, refs, i).value)
    ensures err.None? && i !in refs ==> next == i + 1 && x == [b[i]]
  {
    if i in refs {
      var v := Resolve(labels, refs, i);
      if v.Err? {
        return i, Some(v.msg), [];
      }
      Write32(stream, v.value);
      return i + 4, None, Le32(v.value);
    }
    stream.WriteByte(b[i]);
    return i + 1, None, [b[i]];
  }

  /** The walk so far has emitted acc, and from i on it emits the rest. */
  ghost predicate EmittedSoFar(b: seq<byte>, labels: map<string, nat>, refs: map<nat, string>, i: nat, acc: seq<byte>)
  {
    Emit(b, labels, refs, 0) == Emitted(acc + Emit(b, labels, refs, i).bytes, Emit(b, labels, refs, i).error)
  }

  /** A walk that stops at an unresolved reference emits what it emitted
      before and the error. */
  lemma EmitStopped(b: seq<byte>, labels: map<string, nat>, refs: map<nat, string>, i: nat, acc: seq<byte>)
    requires i < |b| && i in refs && Resolve(labels, refs, i).Err?
    requires EmittedSoFar(b, labels, refs, i, acc)
    ensures Emit(b, labels, refs, 0) == Emitted(acc, Some(Resolve(labels, refs, i).msg))
  {
    assert acc + [] == acc;
  }

  /** One step of the walk: the bytes x written at i move from what is
      still to emit to what has been emitted. */
  lemma EmitMoved(b: seq<byte>, labels: map<string, nat>, refs: map<nat, string>, i: nat, k: nat, x: seq<byte>, acc: seq<byte>)
    requires i < |b|
    requires i in refs ==> k == 4 && Resolve(labels, refs, i).Ok? && x == Le32(Resolve(labels, refs, i).value)
    requires i !in refs ==> k == 1 && x == [b[i]]
    requires EmittedSoFar(b, labels, refs, i, acc)
    ensures EmittedSoFar(b, labels, refs, i + k, acc + x)
  {
    var rest := Emit(b, labels, refs, i + k);
    assert Emit(b, labels, refs, i) == Emitted(x + rest.bytes, rest.error);
    assert acc + (x + rest.bytes) == (acc + x) + rest.bytes;
  }

  lemma TextBytesAppend(s: string, i: nat)
    requires i < |s|
    ensures TextBytes(s[..i + 1]) == TextBytes(s[..i]) + [CharByte(s[i])]
  {
    var a, b := TextBytes(s[..i + 1]), TextBytes(s[..i]) + [CharByte(s[i])];
    forall k | 0 <= k < i + 1
      ensures a[k] == b[k]
    {
      assert s[..i + 1][k] == s[k];
    }
  }
}
