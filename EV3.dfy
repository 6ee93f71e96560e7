/** The brick-level helpers of the runtime library's EV3 class: the LED code,
    the brick name in a reply, and the result bytes of a system call and of
    the native helper. The replies of the direct commands are parameters. */
module EV3Brick {
  import opened Common

  /** String.Equals with StringComparison.OrdinalIgnoreCase, on ASCII
      letters. */
  predicate EqualsIgnoreCase(a: string, b: string)
  {
    |a| == |b| && forall i :: 0 <= i < |a| ==> UpperChar(a[i]) == UpperChar(b[i])
  }

  /** GREEN, RED and ORANGE in any case give 1, 2 and 3, anything else 0. */
  function ColorBase(cs: string): (base: int)
    ensures 0 <= base <= 3
    ensures base == 1 <==> EqualsIgnoreCase(cs, "GREEN")
  {
    if EqualsIgnoreCase(cs, "GREEN") then 1
    else if EqualsIgnoreCase(cs, "RED") then 2
    else if EqualsIgnoreCase(cs, "ORANGE") then 3
    else 0
  }

  /** What an effect adds to a lit colour: FLASH 3, PULSE 6, anything else
      nothing. */
  function EffectOffset(es: string): (offset: int)
    ensures offset in {0, 3, 6}
  {
    if EqualsIgnoreCase(es, "FLASH") then 3
    else if EqualsIgnoreCase(es, "PULSE") then 6
    else 0
  }

  /** The argument of SetLEDColor's LED command: only a lit colour takes an
      effect. A null argument reads as "". */
  function LEDCode(color: Option<string>, effect: Option<string>): (col: int)
  {
    var base := ColorBase(if color.None? then "" else color.value);
    if base == 0 then 0
    else base + EffectOffset(if effect.None? then "" else effect.value)
  }

  /** The code is in 0..9; it is 0 exactly when the colour is none of the
      three; the colour is recovered as the code modulo 3 (3 for ORANGE) and
      the effect as the code's third. */
  lemma LEDCodeRange(color: Option<string>, effect: Option<string>)
    ensures 0 <= LEDCode(color, effect) <= 9
    ensures var cs := if color.None? then "" else color.value;
      LEDCode(color, effect) == 0 <==>
        !(EqualsIgnoreCase(cs, "GREEN") || EqualsIgnoreCase(cs, "RED") || EqualsIgnoreCase(cs, "ORANGE"))
    ensures var cs := if color.None? then "" else color.value;
      LEDCode(color, effect) != 0 ==>
        (LEDCode(color, effect) - 1) % 3 + 1 == ColorBase(cs)
    ensures var es := if effect.None? then "" else effect.value;
      LEDCode(color, effect) != 0 ==>
        (LEDCode(color, effect) - 1) / 3 * 3 == EffectOffset(es)
  {
    var base := ColorBase(if color.None? then "" else color.value);
    var offset := EffectOffset(if effect.None? then "" else effect.value);
    if base != 0 {
      assert LEDCode(color, effect) - 1 == 3 * (offset / 3) + (base - 1);
      ModUnique(LEDCode(color, effect) - 1, 3, offset / 3, base - 1);
    }
  }

  /** A missing effect, and NORMAL, leave the colour steady. */
  lemma LEDCodeNormal(color: Option<string>)
    ensures LEDCode(color, None) == LEDCode(color, Some("NORMAL")) == ColorBase(if color.None? then "" else color.value)
  {
    assert UpperChar("NORMAL"[0]) == 'N' && UpperChar("FLASH"[0]) == 'F' && UpperChar("PULSE"[0]) == 'P';
  }

  /** The getter BrickName: for a reply of at least 20 bytes, the characters
      before the first zero among the first 19 bytes; "" for a missing or
      short reply and when none of those bytes is zero. */
  method BrickName(response: Option<seq<byte>>) returns (name: string)
    ensures response.None? || |response.value| < 20 || 0 !in response.value[..19] ==> name == ""
    ensures response.Some? && |response.value| >= 20 && 0 in response.value[..19] ==>
      exists z :: 0 <= z < 19 && response.value[z] == 0 && 0 !in response.value[..z]
        && name == seq(z, i requires 0 <= i < z => response.value[i] as char)
  {
    if response.Some? && |response.value| >= 20 {
      var b := response.value;
      var len := 0;
      while len < 19
        invariant 0 <= len <= 19
        invariant 0 !in b[..len]
      {
        if b[len] == 0 {
          var msg := new char[len];
          var i := 0;
          while i < len
            invariant 0 <= i <= len
            invariant forall k :: 0 <= k < i ==> msg[k] == b[k] as char
          {
            msg[i] := b[i] as char;
            i := i + 1;
          }
          name := msg[..];
          return;
        }
        assert b[..len + 1] == b[..len] + [b[len]];
        len := len + 1;
      }
    }
    name := "";
  }

  /** The result of SystemCall: -1 for a missing or empty reply, otherwise
      the exit status in reply byte 0. */
  function SystemCallResult(reply: Option<seq<byte>>): (r: int)
    ensures -1 <= r < 256
    ensures r == -1 <==> reply.None? || |reply.value| < 1
  {
    if reply.None? || |reply.value| < 1 then -1 else reply.value[0]
  }

  /** The command line NativeCode hands to the brick's shell; the argument is
      passed untrimmed. */
  function NativeCommandLine(command: string): string
  {
    "/tmp/nativecode " + command
  }

  /** The result of NativeCode: -1 for a blank command (no command is sent)
      or for a reply shorter than 4 bytes, otherwise the helper's exit status,
      which the brick delivers in reply byte 1. */
  function NativeCodeResult(command: Option<string>, reply: Option<seq<byte>>): (r: int)
    ensures -1 <= r < 256
    ensures r == -1 <==> (command.None? || Trim(command.value) == []) || reply.None? || |reply.value| < 4
  {
    var cmd := if command.None? then "" else Trim(command.value);
    if |cmd| == 0 then -1
    else if reply.None? || |reply.value| < 4 then -1
    else reply.value[1]
  }
}
