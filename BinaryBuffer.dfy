/** The growable byte buffer that direct and system commands are assembled
    in before they are sent to the brick. */
module BinaryBuffer {
  import opened Common

  /** (byte)i in C#: the low eight bits of i. */
  function LowByte(i: int): (b: byte)
    ensures b == ByteOf(i, 0)
    ensures (i - b) % 256 == 0
  {
    i % 256
  }

  /** The byte a character is sent as: its code when that is 1..255, and 1
      for the null character and everything beyond Latin-1. */
  function CharByte(c: char): (b: byte)
    ensures b != 0
    ensures 0 < CodeOf(c) <= 255 ==> b == CodeOf(c)
  {
    var code := CodeOf(c);
    if code <= 0 || code > 255 then 1 else code
  }

  /** The bytes AppendNonZeroTerminated emits for s. */
  function TextBytes(s: string): (r: seq<byte>)
    ensures |r| == |s|
    ensures forall k :: 0 <= k < |s| ==> r[k] == CharByte(s[k])
  {
    if s == [] then [] else [CharByte(s[0])] + TextBytes(s[1..])
  }

  /** The four bytes Append32 appends are the four low bytes of i. */
  lemma FourBytes(i: int)
    ensures LowBytes(i, 4) == [LowByte(i % 256), LowByte((i / 256) % 256), LowByte((i / 65536) % 256), LowByte((i / 16777216) % 256)]
  {
    ModSplit(i, 256);
    ModSplit(i, 65536);
    ModSplit(i / 256, 256);
    assert LowBytes(i, 4) == [i % 256] + LowBytes(i / 256, 3);
    assert LowBytes(i / 256, 3) == [(i / 256) % 256] + LowBytes(i / 65536, 2);
    assert LowBytes(i / 65536, 2) == [(i / 65536) % 256] + LowBytes(i / 16777216, 1);
  }

  lemma TextPrefixStep(s: string, i: nat)
    requires i < |s|
    ensures TextBytes(s)[..i + 1] == TextBytes(s)[..i] + [CharByte(s[i])]
  {
    var r := TextBytes(s);
    assert r[i] == CharByte(s[i]);
    assert r[..i + 1] == r[..i] + [r[i]];
  }

  lemma TextBytesNonZero(s: string)
    ensures 0 !in TextBytes(s)
  {
    var r := TextBytes(s);
    forall k | 0 <= k < |r|
      ensures r[k] != 0
    {
      assert r[k] == CharByte(s[k]);
    }
  }

  class Buffer {
    var buffer: array<byte>
    var len: nat

    ghost predicate Valid()
      reads this
    {
      len <= buffer.Length && buffer.Length >= 1
    }

    /** The bytes appended since construction or the last Clear. */
    function Contents(): seq<byte>
      reads this, buffer
      requires Valid()
    {
      buffer[..len]
    }

    constructor ()
      ensures Valid() && fresh(buffer) && buffer.Length == 20
      ensures Contents() == []
    {
      buffer := new byte[20];
      len := 0;
    }

    function Length(): (n: nat)
      reads this, buffer
      requires Valid()
      ensures n == |Contents()|
    {
      len
    }

    method Clear()
      requires Valid()
      modifies this
      ensures Valid() && buffer == old(buffer)
      ensures Contents() == []
    {
      len := 0;
    }

    /** Appends (byte)i; a full array is replaced by one of twice the size
        holding the same bytes. */
    method Append8(i: int)
      requires Valid()
      modifies this, buffer
      ensures Valid()
      ensures Contents() == old(Contents()) + [LowByte(i)]
      ensures buffer == old(buffer) || fresh(buffer)
      ensures old(len) < old(buffer.Length) ==> buffer == old(buffer)
      ensures old(len) >= old(buffer.Length) ==> buffer.Length == 2 * old(buffer.Length)
    {
      if len >= buffer.Length {
        var buffer2 := new byte[buffer.Length * 2];
        forall k | 0 <= k < buffer.Length {
          buffer2[k] := buffer[k];
        }
        buffer := buffer2;
      }
      buffer[len] := LowByte(i);
      len := len + 1;
    }

    method Append16(i: int)
      requires Valid()
      modifies this, buffer
      ensures Valid() && (buffer == old(buffer) || fresh(buffer))
      ensures Contents() == old(Contents()) + LowBytes(i, 2)
    {
      Append8(i % 256);
      Append8((i / 256) % 256);
      assert LowBytes(i, 2) == [ByteOf(i, 0), ByteOf(i, 1)];
    }

    method Append32(i: int)
      requires Valid()
      modifies this, buffer
      ensures Valid() && (buffer == old(buffer) || fresh(buffer))
      ensures Contents() == old(Contents()) + LowBytes(i, 4)
    {
      ghost var before := Contents();
      Append8(i % 256);
      Append8((i / 256) % 256);
      Append8((i / 65536) % 256);
      Append8((i / 16777216) % 256);
      FourBytes(i);
      assert Contents() == before + [LowByte(i % 256), LowByte((i / 256) % 256), LowByte((i / 65536) % 256), LowByte((i / 16777216) % 256)];
    }

    /** AppendBytes(b, start, length) with the slice b[start..start+length]
        passed by value. */
    method AppendBytes(b: seq<byte>)
      requires Valid()
      modifies this, buffer
      ensures Valid() && (buffer == old(buffer) || fresh(buffer))
      ensures Contents() == old(Contents()) + b
    {
      var i := 0;
      while i < |b|
        invariant 0 <= i <= |b|
        invariant Valid() && (buffer == old(buffer) || fresh(buffer))
        invariant Contents() == old(Contents()) + b[..i]
      {
        Append8(b[i]);
        i := i + 1;
      }
    }

    method AppendNonZeroTerminated(s: string)
      requires Valid()
      modifies this, buffer
      ensures Valid() && (buffer == old(buffer) || fresh(buffer))
      ensures Contents() == old(Contents()) + TextBytes(s)
    {
      var i := 0;
      while i < |s|
        invariant 0 <= i <= |s|
        invariant Valid() && (buffer == old(buffer) || fresh(buffer))
        invariant Contents() == old(Contents()) + TextBytes(s)[..i]
      {
        AppendChar(s[i]);
        TextPrefixStep(s, i);
        i := i + 1;
      }
    }

    /** One character of AppendNonZeroTerminated: its code when that is
        1..255, otherwise 1. */
    method AppendChar(ch: char)
      requires Valid()
      modifies this, buffer
      ensures Valid() && (buffer == old(buffer) || fresh(buffer))
      ensures Contents() == old(Contents()) + [CharByte(ch)]
    {
      var c := CodeOf(ch);
      if c <= 0 || c > 255 {
        Append8(1);
      } else {
        Append8(c);
      }
    }

    method AppendZeroTerminated(s: string)
      requires Valid()
      modifies this, buffer
      ensures Valid() && (buffer == old(buffer) || fresh(buffer))
      ensures Contents() == old(Contents()) + TextBytes(s) + [0]
    {
      AppendNonZeroTerminated(s);
      Append8(0);
    }

    /** Copies the bytes to target[position..position+len]; Array.Copy
        behaves as if it copied through a temporary. */
    method CopyToArray(target: array<byte>, position: nat)
      requires Valid() && position + len <= target.Length
      modifies target
      ensures target[..] == old(target[..position]) + old(Contents()) + old(target[position + len..])
    {
      var snapshot := buffer[..len];
      forall k | 0 <= k < len {
        target[position + k] := snapshot[k];
      }
      assert target[..] == old(target[..position]) + snapshot + old(target[position + len..]);
    }

    /** Appends this buffer's bytes to target, which may be this buffer
        itself. */
    method CopyTo(target: Buffer)
      requires Valid() && target.Valid()
      modifies target, target.buffer
      ensures target.Valid()
      ensures target.Contents() == old(target.Contents()) + old(Contents())
      ensures target != this && old(target.buffer) != buffer ==> len == old(len) && Contents() == old(Contents())
    {
      var snapshot := buffer[..len];
      target.AppendBytes(snapshot);
    }
  }

  /** The 16-bit value stored little-endian at position. */
  function Extract16(buffer: seq<byte>, position: nat): (r: int)
    requires position + 1 < |buffer|
    ensures 0 <= r < TWO_16
    ensures r == LittleEndian(buffer[position..position + 2])
  {
    var b1: int := buffer[position];
    var b2: int := buffer[position + 1];
    assert LittleEndian(buffer[position..position + 2][1..]) == b2;
    b1 + b2 * 256
  }

  /** As written: the second byte is used for bits 8..15 and again for bits
      16..23, the third byte lands in bits 24..31 and the fourth is never
      read. */
  function Extract32(buffer: seq<byte>, position: nat): (r: int)
    requires position + 3 < |buffer|
    ensures IsInt32(r)
  {
    var b1: int := buffer[position];
    var b2: int := buffer[position + 1];
    var b3: int := buffer[position + 2];
    Wrap32(b1 + b2 * 256 + b2 * 65536 + b3 * 16777216)
  }

  /** The fourth byte has no influence on Extract32. */
  lemma Extract32IgnoresFourthByte(buffer: seq<byte>, position: nat, b: byte)
    requires position + 3 < |buffer|
    ensures Extract32(buffer[position + 3 := b], position) == Extract32(buffer, position)
  {
  }

  /** Append32(65536) followed by Extract32 gives 16777216, not 65536. */
  lemma Extract32NotInverse()
    ensures LowBytes(65536, 4) == [0, 0, 1, 0]
    ensures Extract32(LowBytes(65536, 4), 0) == 16777216
  {
    assert LowBytes(65536, 4) == [0, 0, 1, 0];
  }

  /** The little-endian 32-bit read the name promises. */
  function Extract32Intended(buffer: seq<byte>, position: nat): (r: int)
    requires position + 3 < |buffer|
    ensures IsInt32(r)
  {
    var b1: int := buffer[position];
    var b2: int := buffer[position + 1];
    var b3: int := buffer[position + 2];
    var b4: int := buffer[position + 3];
    Wrap32(b1 + b2 * 256 + b3 * 65536 + b4 * 16777216)
  }

  /** Extract32Intended reads back every int that Append32 stored. */
  lemma Extract32IntendedRoundTrip(prefix: seq<byte>, i: int, rest: seq<byte>)
    requires IsInt32(i)
    ensures Extract32Intended(prefix + LowBytes(i, 4) + rest, |prefix|) == i
  {
    var w := LowBytes(i, 4);
    LowBytesValue(i, 4);
    assert Pow256(4) == TWO_32;
    LittleEndian4(w);
    Wrap32Mod(i);
    var s := prefix + w + rest;
    assert s[|prefix|] == w[0] && s[|prefix| + 1] == w[1] && s[|prefix| + 2] == w[2] && s[|prefix| + 3] == w[3];
  }

  /** Extract16 reads back the low 16 bits of what Append16 stored. */
  lemma Extract16RoundTrip(prefix: seq<byte>, i: int, rest: seq<byte>)
    ensures Extract16(prefix + LowBytes(i, 2) + rest, |prefix|) == i % TWO_16
  {
    LowBytesValue(i, 2);
    assert (prefix + LowBytes(i, 2) + rest)[|prefix|..|prefix| + 2] == LowBytes(i, 2);
  }
}
