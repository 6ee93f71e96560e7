/** One line of the opcode table: the opcode bytes, the mnemonic, and the
    type and access mode of every parameter. */
module VMCommand {
  import opened Common
  import opened DataTypes

  datatype Command = Command(name: string, opcode: seq<byte>, parameters: seq<DataType>, access: seq<AccessType>)

  const DELIMITERS: set<char> := {'\t', ' '}

  function HexDigit(c: char): (r: Option<nat>)
    ensures r.Some? ==> r.value < 16
  {
    if '0' <= c <= '9' then Some(c as int - '0' as int)
    else if 'a' <= c <= 'f' then Some(c as int - 'a' as int + 10)
    else if 'A' <= c <= 'F' then Some(c as int - 'A' as int + 10)
    else None
  }

  /** Convert.ToInt32(s, 16) for a two-character s: two hexadecimal digits,
      or a '+' sign, which the conversion skips, and one digit. */
  function HexByte(s: string): (r: Option<byte>)
    requires |s| == 2
    ensures r.Some? <==> (s[0] == '+' || HexDigit(s[0]).Some?) && HexDigit(s[1]).Some?
    ensures r.Some? && s[0] != '+' ==> r.value == 16 * HexDigit(s[0]).value + HexDigit(s[1]).value
    ensures r.Some? && s[0] == '+' ==> r.value == HexDigit(s[1]).value
  {
    match (HexDigit(s[0]), HexDigit(s[1]))
    case (Some(hi), Some(lo)) => Some(16 * hi + lo)
    case (None, Some(lo)) => if s[0] == '+' then Some(lo) else None
    case _ => None
  }

  /** A signed one-digit opcode field is read as that digit, in a one-byte
      and in a two-byte opcode. */
  lemma SignedOpcode()
    ensures Header(["+F", "NOP"]) == Ok(([15], "NOP", 2))
    ensures Header(["+1+2", "A", "B"]) == Ok(([1, 2], "A B", 3))
  {
    var t := "+1+2";
    assert t[..2] == "+1" && t[2..] == "+2";
    assert HexByte(t[..2]) == Some(1) && HexByte(t[2..]) == Some(2);
    assert "A" + " " + "B" == "A B";
  }

  /** The opcode bytes, the name and the index of the first parameter token,
      decided by the length of the first token. */
  function Header(tokens: seq<string>): (r: Result<(seq<byte>, string, nat)>)
    ensures r.Ok? ==> 0 < |tokens| && r.value.2 <= |tokens|
    ensures r.Ok? && |tokens[0]| == 2 ==> |tokens| >= 2 && |r.value.0| == 1 && r.value.1 == tokens[1] && r.value.2 == 2
    ensures r.Ok? && |tokens[0]| == 4 ==> |tokens| >= 3 && |r.value.0| == 2 && r.value.1 == tokens[1] + " " + tokens[2] && r.value.2 == 3
    ensures r.Ok? ==> |tokens[0]| == 2 || |tokens[0]| == 4
    ensures |tokens| >= 2 && |tokens[0]| == 2 && HexByte(tokens[0]).Some? ==> r.Ok?
    ensures |tokens| >= 3 && |tokens[0]| == 4 && HexByte(tokens[0][..2]).Some? && HexByte(tokens[0][2..]).Some? ==> r.Ok?
  {
    if |tokens| == 0 then Err("Index was outside the bounds of the array.")
    else if |tokens[0]| == 2 && |tokens| >= 2 then
      match HexByte(tokens[0])
      case Some(b) => Ok(([b], tokens[1], 2))
      case None => Err("Could not find any recognizable digits.")
    else if |tokens[0]| == 4 && |tokens| >= 3 then
      match (HexByte(tokens[0][..2]), HexByte(tokens[0][2..]))
      case (Some(b0), Some(b1)) => Ok(([b0, b1], tokens[1] + " " + tokens[2], 3))
      case _ => Err("Could not find any recognizable digits.")
    else Err("Can not decode definition list")
  }

  /** The type a parameter token names: by prefix for the value types, by
      the whole token for the others. */
  function ParamType(t: string): (r: Option<DataType>)
    ensures r.Some? && r.value == Label ==> t == "L"
    ensures r.Some? && r.value == VMThread ==> t == "T"
    ensures r.Some? && r.value == VMSubcall ==> t == "S"
    ensures r.Some? && r.value == ParameterCount ==> t == "P"
    ensures r.Some? && r.value == I16 ==> StartsWith(t, "16")
  {
    if StartsWith(t, "8") then Some(I8)
    else if StartsWith(t, "16") then Some(I16)
    else if StartsWith(t, "32") then Some(I32)
    else if StartsWith(t, "F") then Some(F)
    else if StartsWith(t, "?") then Some(Unspecified)
    else if t == "L" then Some(Label)
    else if t == "T" then Some(VMThread)
    else if t == "S" then Some(VMSubcall)
    else if t == "P" then Some(ParameterCount)
    else None
  }

  function ParamAccess(t: string): (a: AccessType)
    ensures a == Write <==> EndsWith(t, "*")
    ensures a == ReadMany <==> !EndsWith(t, "*") && EndsWith(t, "+")
    ensures a != ReadWrite
  {
    if EndsWith(t, "*") then Write else if EndsWith(t, "+") then ReadMany else Read
  }

  /** Every token from pstart on names a parameter type. */
  predicate AllTyped(tokens: seq<string>, pstart: nat)
  {
    forall i :: pstart <= i < |tokens| ==> ParamType(tokens[i]).Some?
  }

  /** The parameter types and access modes read from the tokens from pstart on. */
  predicate TypedAs(tokens: seq<string>, pstart: nat, parameters: seq<DataType>, access: seq<AccessType>)
    requires pstart <= |tokens|
  {
    && |parameters| == |tokens| - pstart == |access|
    && forall i :: 0 <= i < |tokens| - pstart ==>
         Some(parameters[i]) == ParamType(tokens[pstart + i]) && access[i] == ParamAccess(tokens[pstart + i])
  }

  /** The loop of the constructor that fills the parameter and access
      arrays from the tokens after the name. */
  method ParseParameters(tokens: seq<string>, pstart: nat, descriptor: string)
    returns (r: Result<(seq<DataType>, seq<AccessType>)>)
    requires pstart <= |tokens|
    ensures r.Ok? <==> AllTyped(tokens, pstart)
    ensures r.Err? ==> r.msg == "Can not read opcode descriptor: " + descriptor
    ensures r.Ok? ==> TypedAs(tokens, pstart, r.value.0, r.value.1)
  {
    var nump := |tokens| - pstart;
    var parameters := new DataType[nump];
    var access := new AccessType[nump];
    for i := 0 to nump
      invariant forall j :: 0 <= j < i ==> ParamType(tokens[pstart + j]) == Some(parameters[j])
      invariant forall j :: 0 <= j < i ==> access[j] == ParamAccess(tokens[pstart + j])
    {
      var t := tokens[pstart + i];
      var pt := ParamType(t);
      if pt.None? {
        assert pstart <= pstart + i < |tokens| && ParamType(tokens[pstart + i]).None?;
        return Err("Can not read opcode descriptor: " + descriptor);
      }
      parameters[i] := pt.value;
      access[i] := ParamAccess(t);
    }
    forall j | pstart <= j < |tokens|
      ensures ParamType(tokens[j]).Some?
    {
      assert ParamType(tokens[pstart + (j - pstart)]) == Some(parameters[j - pstart]);
    }
    r := Ok((parameters[..], access[..]));
  }

  /** The command a descriptor's tokens describe once Header has accepted
      them: its opcode, its name, and a type and access mode per parameter token. */
  predicate Describes(c: Command, tokens: seq<string>)
  {
    && Header(tokens).Ok?
    && var (opcode, name, pstart) := Header(tokens).value;
    && c.opcode == opcode && c.name == name
    && TypedAs(tokens, pstart, c.parameters, c.access)
  }

  /** The VMCommand constructor: parses one descriptor line, or yields the
      message of the exception it throws. */
  method NewCommand(descriptor: string) returns (r: Result<Command>)
    ensures var tokens := SplitNonEmpty(descriptor, DELIMITERS);
      && (r.Ok? <==> Header(tokens).Ok? && AllTyped(tokens, Header(tokens).value.2))
      && (r.Ok? ==> Describes(r.value, tokens))
  {
    var tokens := SplitNonEmpty(descriptor, DELIMITERS);
    var header := Header(tokens);
    if header.Err? {
      return Err(header.msg);
    }
    var (opcode, name, pstart) := header.value;
    var ps := ParseParameters(tokens, pstart, descriptor);
    if ps.Err? {
      return Err(ps.msg);
    }
    r := Ok(Command(name, opcode, ps.value.0, ps.value.1));
  }
}
