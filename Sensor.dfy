/** The argument and reply handling of the runtime library's Sensor class:
    port numbers, raw 32-bit values, the percent reading, the raw-value array
    and the clamped counts and reversed reply of an I2C transfer. */
module SensorPorts {
  import opened Common

  /** `DecodePort`: ports 1..16 name four sensors on each of four daisy-chained
      bricks; anything else (missing, not an int, out of range) is port 0 of
      layer 0. */
  function DecodePort(port: Option<string>): (r: (int, int))
    ensures 0 <= r.0 <= 3 && 0 <= r.1 <= 3
    ensures port.Some? && ParseInt32(port.value).Some? && 1 <= ParseInt32(port.value).value <= 16 ==>
              4 * r.0 + r.1 + 1 == ParseInt32(port.value).value
    ensures port.None? || ParseInt32(port.value).None? || !(1 <= ParseInt32(port.value).value <= 16) ==>
              r == (0, 0)
  {
    if port.None? then (0, 0)
    else match ParseInt32(port.value)
         case Some(p) => if 1 <= p <= 16 then ((p - 1) / 4, (p - 1) % 4) else (0, 0)
         case None => (0, 0)
  }

  /** Layer and port number identify the port number uniquely. */
  lemma DecodePortInverse(p: int)
    requires 1 <= p <= 16
    ensures var r := DecodePort(Some(IntToString(p))); 4 * r.0 + r.1 + 1 == p
  {
    ParseIntToString(p);
  }

  /** `DecodeRaw`: four bytes from start, least significant first, as a
      32-bit int. */
  function DecodeRaw(result: seq<byte>, start: nat): (v: int)
    requires start + 4 <= |result|
    ensures IsInt32(v)
    ensures v % TWO_32 == LittleEndian(result[start..start + 4])
  {
    var x := LittleEndian(result[start..start + 4]);
    assert Pow256(4) == TWO_32;
    assert 0 <= (x + TWO_31) % TWO_32 - TWO_31 + TWO_31 < TWO_32;
    Wrap32(x)
  }

  /** The value ReadPercent returns for its one-byte reply: bytes above 127
      (negative as the brick's signed byte) read as 0, a missing reply too. */
  function ReadPercent(result: Option<seq<byte>>): (v: int)
    ensures 0 <= v <= 127
    ensures result.Some? && |result.value| >= 1 && result.value[0] <= 127 ==> v == result.value[0]
    ensures result.None? || |result.value| < 1 || result.value[0] > 127 ==> v == 0
  {
    if result.None? || |result.value| < 1 then 0
    else if result.value[0] > 127 then 0 else result.value[0]
  }

  /** Element i of ReadRaw's array: the i-th raw value when the reply holds
      it, otherwise 0, and 0 for values below -1000000000 (the brick's marker
      for no data). */
  function RawElement(result: Option<seq<byte>>, i: nat): (v: int)
    ensures v == 0 || v >= -1000000000
    ensures !(result.Some? && i * 4 + 3 < |result.value|) ==> v == 0
    ensures result.Some? && i * 4 + 3 < |result.value| ==>
              var w := DecodeRaw(result.value, i * 4);
              (w >= -1000000000 ==> v == w) && (w < -1000000000 ==> v == 0)
  {
    var w := if result.Some? && i * 4 + 3 < |result.value| then DecodeRaw(result.value, i * 4) else 0;
    if w < -1000000000 then 0 else w
  }

  /** `ReadRaw`'s result array for the requested count: empty for a count of
      at most 0. */
  method ReadRaw(values: int, result: Option<seq<byte>>) returns (map_: seq<int>)
    ensures values <= 0 ==> map_ == []
    ensures values > 0 ==> |map_| == values
    ensures forall i :: 0 <= i < |map_| ==> map_[i] == RawElement(result, i)
  {
    if values <= 0 {
      return [];
    }
    map_ := [];
    var i := 0;
    while i < values
      invariant 0 <= i <= values && |map_| == i
      invariant forall k :: 0 <= k < i ==> map_[k] == RawElement(result, k)
    {
      var v := 0;
      if result.Some? && i * 4 + 3 < |result.value| {
        v := DecodeRaw(result.value, i * 4);
      }
      map_ := map_ + [if v < -1000000000 then 0 else v];
      i := i + 1;
    }
  }

  /** A 32-bit value the brick sends as four little-endian bytes at the
      element's place reads back as itself, unless it is the no-data marker
      range below -1000000000. */
  lemma RawReadsBack(x: int, before: seq<byte>, after: seq<byte>)
    requires IsInt32(x) && |before| % 4 == 0
    ensures var result := before + LowBytes(x, 4) + after;
            RawElement(Some(result), |before| / 4) == if x < -1000000000 then 0 else x
  {
    var result := before + LowBytes(x, 4) + after;
    var i := |before| / 4;
    assert result[i * 4..i * 4 + 4] == LowBytes(x, 4);
    LowBytesValue(x, 4);
    assert Pow256(4) == TWO_32;
    var w := DecodeRaw(result, i * 4);
    assert w % TWO_32 == x % TWO_32;
    Wrap32Mod(w);
    Wrap32Mod(x);
  }

  /** The percent reading is the brick's signed byte, negative values
      read as 0. */
  lemma PercentIsSignedByte(b: byte, rest: seq<byte>)
    ensures ReadPercent(Some([b] + rest)) == Max(0, if b < 128 then b as int else b as int - 256)
  {
  }

  /** The two counts are the parsed ints clamped to the transfer limits. */
  lemma CountsAreClamped(writebytes: Option<string>, readbytes: Option<string>)
    ensures WriteCount(writebytes) == Min(Max(ParsedOrZero(writebytes), 0), 31)
    ensures ReadCount(readbytes) == Min(Max(ParsedOrZero(readbytes), 1), 32)
  {
  }

  /** The address as text reads back as the address byte: unchanged for
      0..127, its low seven bits otherwise. */
  lemma AddressReadsBack(a: int)
    requires IsInt32(a)
    ensures AddressByte(Some(IntToString(a))) == a % 128
    ensures 0 <= a < 128 ==> AddressByte(Some(IntToString(a))) == a
  {
    ParseIntToString(a);
  }

  /** A raw element beyond the reply is 0. */
  lemma RawBeyondReply(result: seq<byte>, i: nat)
    requires i * 4 + 3 >= |result|
    ensures RawElement(Some(result), i) == 0
  {
  }

  /** The number of bytes CommunicateI2C writes after the address: 0..31. */
  function WriteCount(writebytes: Option<string>): (wrt: int)
    ensures 0 <= wrt <= 31
    ensures 0 <= ParsedOrZero(writebytes) <= 31 ==> wrt == ParsedOrZero(writebytes)
    ensures ParsedOrZero(writebytes) < 0 ==> wrt == 0
    ensures ParsedOrZero(writebytes) > 31 ==> wrt == 31
  {
    var w := ParsedOrZero(writebytes);
    if w < 0 then 0 else if w > 31 then 31 else w
  }

  /** The number of bytes CommunicateI2C reads: at least 1, at most 32. */
  function ReadCount(readbytes: Option<string>): (rd: int)
    ensures 1 <= rd <= 32
    ensures 1 <= ParsedOrZero(readbytes) <= 32 ==> rd == ParsedOrZero(readbytes)
    ensures ParsedOrZero(readbytes) < 1 ==> rd == 1
    ensures ParsedOrZero(readbytes) > 32 ==> rd == 32
  {
    var r := ParsedOrZero(readbytes);
    if r < 1 then 1 else if r > 32 then 32 else r
  }

  /** The address byte sent first, `addr & 0x7f`: the low seven bits of the
      int, also of a negative one in two's complement. */
  function AddressByte(address: Option<string>): (b: int)
    ensures 0 <= b < 128
    ensures (ParsedOrZero(address) - b) % 128 == 0
    ensures 0 <= ParsedOrZero(address) < 128 ==> b == ParsedOrZero(address)
  {
    ParsedOrZero(address) % 128
  }

  /** CommunicateI2C's result array: the reply reversed when it has exactly
      the requested length, all zeros otherwise. */
  method I2CResult(rd: int, result: Option<seq<byte>>) returns (map_: seq<int>)
    requires rd >= 1
    ensures |map_| == rd
    ensures result.Some? && |result.value| == rd ==> forall i :: 0 <= i < rd ==> map_[i] == result.value[rd - 1 - i]
    ensures !(result.Some? && |result.value| == rd) ==> forall i :: 0 <= i < rd ==> map_[i] == 0
  {
    map_ := [];
    var i := 0;
    while i < rd
      invariant 0 <= i <= rd && |map_| == i
      invariant result.Some? && |result.value| == rd ==> forall k :: 0 <= k < i ==> map_[k] == result.value[rd - 1 - k]
      invariant !(result.Some? && |result.value| == rd) ==> forall k :: 0 <= k < i ==> map_[k] == 0
    {
      map_ := map_ + [if result.Some? && |result.value| == rd then result.value[rd - 1 - i] else 0];
      i := i + 1;
    }
  }
}
