/** The disassembler's little-endian readers. A byte read past the end of the
    stream comes back as 0xff, and the caller's read counter advances by the
    full width whether or not the bytes were there. */
module DataReader {
  import opened Common
  import DataWriter

  /** A byte stream read from the front: the contents and the stream
      position, which never moves past the end. */
  class InStream {
    const data: seq<byte>
    var pos: nat

    predicate Valid()
      reads this
    {
      pos <= |data|
    }

    constructor (contents: seq<byte>)
      ensures data == contents && pos == 0 && Valid()
    {
      data := contents;
      pos := 0;
    }

    /** Stream.ReadByte: the next byte, or -1 at the end. */
    method ReadByte() returns (b: int)
      requires Valid()
      modifies this
      ensures Valid()
      ensures old(pos) < |data| ==> b == data[old(pos)] && pos == old(pos) + 1
      ensures old(pos) == |data| ==> b == -1 && pos == old(pos)
    {
      if pos < |data| {
        b := data[pos];
        pos := pos + 1;
      } else {
        b := -1;
      }
    }
  }

  /** ReadByte() & 0xff for a read at index i. */
  function ByteAt(data: seq<byte>, i: nat): (b: byte)
    ensures i < |data| ==> b == data[i]
    ensures i >= |data| ==> b == 0xff
  {
    if i < |data| then data[i] else 0xff
  }

  /** The n bytes that n successive reads from index start yield. */
  function Window(data: seq<byte>, start: nat, n: nat): (w: seq<byte>)
    ensures |w| == n
    ensures forall k :: 0 <= k < n ==> w[k] == ByteAt(data, start + k)
    decreases n
  {
    if n == 0 then [] else [ByteAt(data, start)] + Window(data, start + 1, n - 1)
  }


  /** One masked read: the byte at the stream position, which then moves on
      unless the end was reached. */
  method ReadMasked(stream: InStream) returns (b: byte)
    requires stream.Valid()
    modifies stream
    ensures stream.Valid()
    ensures b == ByteAt(stream.data, old(stream.pos))
    ensures stream.pos == Min(old(stream.pos) + 1, |stream.data|)
  {
    var x := stream.ReadByte();
    b := if x < 0 then 0xff else x;
  }

  method Read32(stream: InStream, readposition: int) returns (value: int, newReadposition: int)
    requires stream.Valid()
    modifies stream
    ensures stream.Valid()
    ensures value == Wrap32(LittleEndian(Window(stream.data, old(stream.pos), 4)))
    ensures newReadposition == readposition + 4
    ensures stream.pos == Min(old(stream.pos) + 4, |stream.data|)
  {
    ghost var start := stream.pos;
    var b0 := ReadMasked(stream);
    var b1 := ReadMasked(stream);
    var b2 := ReadMasked(stream);
    var b3 := ReadMasked(stream);
    newReadposition := readposition + 4;
    // the four shifted bytes occupy disjoint bits, so | is +
    value := Wrap32(b0 as int + 256 * (b1 as int) + 65536 * (b2 as int) + 16777216 * (b3 as int));
    assert Window(stream.data, start, 4) == [b0, b1, b2, b3];
    FourLittleEndian(b0, b1, b2, b3);
  }

  /** The value of four bytes, least significant first. */
  lemma FourLittleEndian(b0: byte, b1: byte, b2: byte, b3: byte)
    ensures LittleEndian([b0, b1, b2, b3]) == b0 as int + 256 * (b1 as int) + 65536 * (b2 as int) + 16777216 * (b3 as int)
  {
    var w := [b0, b1, b2, b3];
    assert LittleEndian(w[3..]) == b3;
    assert LittleEndian(w[2..]) == b2 as int + 256 * (b3 as int);
    assert LittleEndian(w[1..]) == b1 as int + 256 * (b2 as int) + 65536 * (b3 as int);
  }

  method Read16(stream: InStream, readposition: int) returns (value: int, newReadposition: int)
    requires stream.Valid()
    modifies stream
    ensures stream.Valid()
    ensures value == Wrap16(LittleEndian(Window(stream.data, old(stream.pos), 2)))
    ensures newReadposition == readposition + 2
    ensures stream.pos == Min(old(stream.pos) + 2, |stream.data|)
  {
    ghost var start := stream.pos;
    var b0 := ReadMasked(stream);
    var b1 := ReadMasked(stream);
    newReadposition := readposition + 2;
    value := Wrap16(b0 as int + 256 * (b1 as int));
    assert Window(stream.data, start, 2) == [b0, b1];
  }

  method Read8(stream: InStream, readposition: int) returns (value: int, newReadposition: int)
    requires stream.Valid()
    modifies stream
    ensures stream.Valid()
    ensures value == Wrap8(ByteAt(stream.data, old(stream.pos)))
    ensures newReadposition == readposition + 1
    ensures stream.pos == Min(old(stream.pos) + 1, |stream.data|)
  {
    var b0 := ReadMasked(stream);
    newReadposition := readposition + 1;
    value := Wrap8(b0);
  }

  /** Reading back what Write32 wrote gives the value written. */
  lemma Read32OfWrite32(value: int, rest: seq<byte>)
    requires IsInt32(value)
    ensures Wrap32(LittleEndian(Window(DataWriter.Le32(value) + rest, 0, 4))) == value
  {
    var w := DataWriter.Le32(value);
    assert Window(w + rest, 0, 4) == w;
    Wrap32Mod(value);
  }

  /** Reading back what Write16 wrote gives the value written, for every
      16-bit value. */
  lemma Read16OfWrite16(value: int, rest: seq<byte>)
    requires IsInt16(value)
    ensures Wrap16(LittleEndian(Window(DataWriter.Le16(value) + rest, 0, 2))) == value
  {
    var w := DataWriter.Le16(value);
    assert Window(w + rest, 0, 2) == w;
    assert LittleEndian(w) == value % TWO_16;
  }

  /** Past the end every byte reads as 0xff: a 32-bit read there gives -1. */
  lemma {:induction false} Read32PastEnd(data: seq<byte>, start: nat)
    requires start >= |data|
    ensures Wrap32(LittleEndian(Window(data, start, 4))) == -1
  {
    var w := Window(data, start, 4);
    assert w == [0xff, 0xff, 0xff, 0xff];
    assert LittleEndian(w) == 0xffff_ffff by {
      assert LittleEndian(w[3..]) == 0xff;
      assert LittleEndian(w[2..]) == 0xffff;
      assert LittleEndian(w[1..]) == 0xff_ffff;
    }
  }
}
