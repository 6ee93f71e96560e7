/** The argument decoding of the runtime library's Motor class: port
    descriptors such as "AB" or "3C", the clamped power and speed, the
    direction and brake flags, and the tacho count of a reply. */
module MotorPorts {
  import opened Common

  /** The daisy-chain layer a character selects ('2', '3', '4' give 1, 2, 3)
      and the motor index of a port letter in either case. */
  function LayerOf(c: char): Option<int>
  {
    if c == '2' then Some(1) else if c == '3' then Some(2) else if c == '4' then Some(3) else None
  }

  function PortOf(c: char): Option<int>
  {
    if c == 'a' || c == 'A' then Some(0)
    else if c == 'b' || c == 'B' then Some(1)
    else if c == 'c' || c == 'C' then Some(2)
    else if c == 'd' || c == 'D' then Some(3)
    else None
  }

  /** The layer the descriptor selects: that of its last layer digit, 0 when
      there is none. */
  function Layer(d: string): (layer: int)
    ensures 0 <= layer <= 3
  {
    if d == [] then 0
    else match LayerOf(d[|d| - 1])
         case Some(l) => l
         case None => Layer(d[..|d| - 1])
  }

  /** The motor of the descriptor's last port letter, -1 when there is none. */
  function Port(d: string): (no: int)
    ensures -1 <= no <= 3
  {
    if d == [] then -1
    else match PortOf(d[|d| - 1])
         case Some(n) => n
         case None => Port(d[..|d| - 1])
  }

  /** The bit mask of all port letters in the descriptor: A=1, B=2, C=4,
      D=8. */
  function Ports(d: string): (nos: bv8)
  {
    if d == [] then 0 else Ports(d[..|d| - 1]) | PortBit(d[|d| - 1])
  }

  lemma PortsStep(d: string, c: char)
    ensures Ports(d + [c]) == Ports(d) | PortBit(c)
  {
    assert (d + [c])[..|d|] == d;
  }

  /** The bit of a port letter, 0 for any other character. */
  function PortBit(c: char): (b: bv8)
  {
    if c == 'a' || c == 'A' then 1
    else if c == 'b' || c == 'B' then 2
    else if c == 'c' || c == 'C' then 4
    else if c == 'd' || c == 'D' then 8
    else 0
  }

  /** `DecodePortDescriptor`: the last layer digit and the last port letter
      win; every other character is ignored. */
  method DecodePortDescriptor(descriptor: string) returns (layer: int, no: int)
    ensures layer == Layer(descriptor) && no == Port(descriptor)
  {
    layer := 0;
    no := -1;
    var i := 0;
    while i < |descriptor|
      invariant 0 <= i <= |descriptor|
      invariant layer == Layer(descriptor[..i]) && no == Port(descriptor[..i])
    {
      assert descriptor[..i + 1][..i] == descriptor[..i];
      var c := descriptor[i];
      if c == '2' { layer := 1; }
      else if c == '3' { layer := 2; }
      else if c == '4' { layer := 3; }
      else if c == 'a' || c == 'A' { no := 0; }
      else if c == 'b' || c == 'B' { no := 1; }
      else if c == 'c' || c == 'C' { no := 2; }
      else if c == 'd' || c == 'D' { no := 3; }
      i := i + 1;
    }
    assert descriptor[..i] == descriptor;
  }

  /** `DecodePortsDescriptor`: the last layer digit wins, and every port
      letter sets its bit. */
  method DecodePortsDescriptor(descriptor: string) returns (layer: int, nos: int)
    ensures layer == Layer(descriptor) && nos == Ports(descriptor) as int
  {
    layer := 0;
    var mask: bv8 := 0;
    var i := 0;
    while i < |descriptor|
      invariant 0 <= i <= |descriptor|
      invariant layer == Layer(descriptor[..i]) && mask == Ports(descriptor[..i])
    {
      var c := descriptor[i];
      assert descriptor[..i + 1] == descriptor[..i] + [c];
      PortsStep(descriptor[..i], c);
      LayerStep(descriptor[..i], c);
      layer, mask := DecodePortsChar(layer, mask, c);
      i := i + 1;
    }
    assert descriptor[..i] == descriptor;
    nos := mask as int;
  }

  /** One case of the switch in `DecodePortsDescriptor`. */
  method DecodePortsChar(layer: int, mask: bv8, c: char) returns (layer': int, mask': bv8)
    ensures layer' == (if LayerOf(c).Some? then LayerOf(c).value else layer)
    ensures mask' == mask | PortBit(c)
  {
    layer', mask' := layer, mask;
    if c == '2' { layer' := 1; }
    else if c == '3' { layer' := 2; }
    else if c == '4' { layer' := 3; }
    else if c == 'a' || c == 'A' { mask' := mask | 1; }
    else if c == 'b' || c == 'B' { mask' := mask | 2; }
    else if c == 'c' || c == 'C' { mask' := mask | 4; }
    else if c == 'd' || c == 'D' { mask' := mask | 8; }
  }

  lemma LayerStep(d: string, c: char)
    ensures Layer(d + [c]) == if LayerOf(c).Some? then LayerOf(c).value else Layer(d)
  {
    assert (d + [c])[..|d|] == d;
  }

  predicate HasPort(d: string, n: int)
  {
    exists k :: 0 <= k < |d| && PortOf(d[k]) == Some(n)
  }

  /** The mask holds exactly the bits of the port letters that occur, so it is
      in 0..15. */
  lemma {:induction false} PortsMask(d: string)
    ensures Ports(d) < 16
    ensures forall n :: 0 <= n < 4 ==> (Ports(d) & (1 << n) != 0 <==> HasPort(d, n))
    decreases |d|
  {
    if d != [] {
      var init := d[..|d| - 1];
      PortsMask(init);
      forall n | 0 <= n < 4 ensures HasPort(d, n) <==> HasPort(init, n) || PortOf(d[|d| - 1]) == Some(n) {
        if HasPort(init, n) {
          var k :| 0 <= k < |init| && PortOf(init[k]) == Some(n);
          assert d[k] == init[k];
        }
        if HasPort(d, n) && PortOf(d[|d| - 1]) != Some(n) {
          var k :| 0 <= k < |d| && PortOf(d[k]) == Some(n);
          assert k < |d| - 1 && init[k] == d[k];
        }
      }
    }
  }

  /** The port is -1 exactly when there is no port letter; otherwise it is
      the port of a letter after which no port letter follows. */
  lemma {:induction false} PortIsLast(d: string)
    ensures Port(d) == -1 <==> forall k :: 0 <= k < |d| ==> PortOf(d[k]).None?
    ensures Port(d) >= 0 ==> exists k :: 0 <= k < |d| && PortOf(d[k]) == Some(Port(d))
                                   && forall j :: k < j < |d| ==> PortOf(d[j]).None?
    decreases |d|
  {
    if d != [] {
      var init := d[..|d| - 1];
      PortIsLast(init);
      if PortOf(d[|d| - 1]).None? {
        assert forall k :: 0 <= k < |init| ==> init[k] == d[k];
        if Port(d) >= 0 {
          var k :| 0 <= k < |init| && PortOf(init[k]) == Some(Port(init))
                   && forall j :: k < j < |init| ==> PortOf(init[j]).None?;
          assert forall j :: k < j < |d| ==> PortOf(d[j]).None? by {
            forall j | k < j < |d| ensures PortOf(d[j]).None? {
              if j < |d| - 1 { assert d[j] == init[j]; }
            }
          }
        }
      }
    }
  }

  /** The power or speed that Power and Speed send: the parsed value clamped
      to -100..100. */
  function Clamped(s: Option<string>): (v: int)
    ensures -100 <= v <= 100
    ensures -100 <= ParsedOrZero(s) <= 100 ==> v == ParsedOrZero(s)
    ensures ParsedOrZero(s) < -100 ==> v == -100
    ensures ParsedOrZero(s) > 100 ==> v == 100
  {
    var p := ParsedOrZero(s);
    if p < -100 then -100 else if p > 100 then 100 else p
  }

  /** Input that does not parse as an int gives 0. */
  lemma UnparsableIsZero(s: Option<string>)
    requires s.None? || ParseInt32(s.value).None?
    ensures Clamped(s) == 0
  {
  }

  predicate IsTrue(s: Option<string>)
  {
    Upper(if s.None? then "" else s.value) == Upper("true")
  }

  /** The polarity RevertDirection sends: -1 for "true" in any case, else 1. */
  function Direction(revert: Option<string>): (dir: int)
    ensures dir == -1 <==> IsTrue(revert)
    ensures dir == 1 <==> !IsTrue(revert)
  {
    if IsTrue(revert) then -1 else 1
  }

  /** The brake flag Stop and the scheduled movements send: 1 for "true" in
      any case, else 0. */
  function Brake(brake: Option<string>): (brk: int)
    ensures brk == 1 <==> IsTrue(brake)
    ensures brk == 0 <==> !IsTrue(brake)
  {
    if IsTrue(brake) then 1 else 0
  }

  /** The tacho count of GetCount's four-byte reply: the bytes OR-ed together
      shifted by 0, 8, 16 and 24 bits in a 32-bit int; 0 for a missing
      reply. */
  function Tacho(reply: Option<seq<byte>>): (t: int)
    requires reply.Some? ==> |reply.value| >= 4
    ensures IsInt32(t)
    ensures reply.Some? ==> t % TWO_32 == LittleEndian(reply.value[..4])
  {
    if reply.None? then 0
    else
      LittleEndian4(reply.value[..4]);
      Wrap32(LittleEndian(reply.value[..4]))
  }

  /** GetCount and GetSpeed answer 0 without asking the brick when the
      descriptor names no port; otherwise GetCount returns the tacho count. */
  function GetCount(port: string, reply: Option<seq<byte>>): (r: int)
    requires reply.Some? ==> |reply.value| >= 4
    ensures Port(port) < 0 ==> r == 0
    ensures Port(port) >= 0 ==> r == Tacho(reply)
  {
    if Port(port) < 0 then 0 else Tacho(reply)
  }

  /** GetSpeed: the fifth reply byte read as a signed byte, so the answer
      lies in -128..127 and agrees with the byte modulo 256; 0 for a missing
      reply or a descriptor that names no port. */
  function GetSpeed(port: string, reply: Option<seq<byte>>): (spd: int)
    requires reply.Some? ==> |reply.value| >= 5
    ensures Port(port) < 0 || reply.None? ==> spd == 0
    ensures -128 <= spd <= 127
    ensures Port(port) >= 0 && reply.Some? ==> spd % 256 == reply.value[4]
    ensures Port(port) >= 0 && reply.Some? ==> (spd >= 0 <==> reply.value[4] < 128)
  {
    if Port(port) < 0 || reply.None? then 0
    else if reply.value[4] < 128 then reply.value[4]
    else reply.value[4] as int - 256
  }

  /** ScheduleSyncForCount sends its command only for a positive count. */
  function SyncForCountSends(count: Option<string>): (sends: bool)
    ensures sends <==> ParsedOrZero(count) > 0
  {
    ParsedOrZero(count) > 0
  }
}
