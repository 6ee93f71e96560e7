/** The assembler's little-endian writers: a 32-bit or 16-bit value is
    appended to a byte stream least significant byte first. */
module DataWriter {
  import opened Common

  /** A byte stream that is only appended to (the image file or the
      MemoryStream an object's code is collected in). */
  class OutStream {
    var bytes: seq<byte>

    constructor ()
      ensures bytes == []
    {
      bytes := [];
    }

    method WriteByte(b: byte)
      modifies this
      ensures bytes == old(bytes) + [b]
    {
      bytes := bytes + [b];
    }

    /** MemoryStream.WriteTo: the whole content of another stream. */
    method Write(b: seq<byte>)
      modifies this
      ensures bytes == old(bytes) + b
    {
      bytes := bytes + b;
    }
  }

  /** The four bytes Write32 emits: byte k is (value >> 8k) & 0xff. */
  function Le32(value: int): (r: seq<byte>)
    ensures |r| == 4
    ensures forall k :: 0 <= k < 4 ==> r[k] == ByteOf(value, k)
    ensures LittleEndian(r) == value % TWO_32
  {
    LowBytesValue(value, 4);
    LowBytes(value, 4)
  }

  /** The two bytes Write16 emits: byte k is (value >> 8k) & 0xff. */
  function Le16(value: int): (r: seq<byte>)
    ensures |r| == 2
    ensures forall k :: 0 <= k < 2 ==> r[k] == ByteOf(value, k)
    ensures LittleEndian(r) == value % TWO_16
  {
    LowBytesValue(value, 2);
    LowBytes(value, 2)
  }

  method Write32(stream: OutStream, value: int)
    requires IsInt32(value)
    modifies stream
    ensures stream.bytes == old(stream.bytes) + Le32(value)
  {
    stream.WriteByte(ByteOf(value, 0));
    stream.WriteByte(ByteOf(value, 1));
    stream.WriteByte(ByteOf(value, 2));
    stream.WriteByte(ByteOf(value, 3));
  }

  method Write16(stream: OutStream, value: int)
    requires IsInt32(value)
    modifies stream
    ensures stream.bytes == old(stream.bytes) + Le16(value)
  {
    stream.WriteByte(ByteOf(value, 0));
    stream.WriteByte(ByteOf(value, 1));
  }

  /** One element shorter, a longer prefix is the shorter one. */
  lemma PrefixOfPrefix<T>(s: seq<T>, i: nat)
    requires i < |s|
    ensures s[..i + 1][..i] == s[..i] && s[..i + 1][i] == s[i]
  {
  }

  /** The prefix of full length is the whole sequence. */
  lemma PrefixAll<T>(s: seq<T>)
    ensures s[..|s|] == s
  {
  }

  /** Two writes one after the other append the two parts together. */
  lemma AppendTwo<T>(b0: seq<T>, a: seq<T>, b: seq<T>)
    ensures b0 + a + b == b0 + (a + b)
  {
  }

  /** Three writes one after the other append the three parts together. */
  lemma AppendThree<T>(b0: seq<T>, a: seq<T>, b: seq<T>, c: seq<T>)
    ensures b0 + a + b + c == b0 + (a + b + c)
  {
  }

  /** Four writes one after the other append the four parts together. */
  lemma AppendFour<T>(b0: seq<T>, a: seq<T>, b: seq<T>, c: seq<T>, d: seq<T>)
    ensures b0 + a + b + c + d == b0 + (a + b + c + d)
  {
  }

  /** Write16 only sees the low 16 bits of its argument. */
  lemma Le16Periodic(value: int)
    ensures Le16(value) == Le16(value + TWO_16)
  {
    var a, b := Le16(value), Le16(value + TWO_16);
    assert (value + TWO_16) / 256 == value / 256 + 256;
    assert a[0] == b[0];
    assert a[1] == ByteOf(value / 256, 0) == ByteOf((value + TWO_16) / 256, 0) == b[1];
  }
}
