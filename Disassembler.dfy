/** The decoding half of the assembler: reading opcodes and parameters back
    from a bytecode image, and the left-padded numbers of the listing. */
module Disassembler {
  import opened Common
  import opened DataReader
  import opened VMCommand

  /** What a parameter encoding denotes. */
  datatype Operand =
    | Number(v: int)
    | Local(i: int)
    | Global(i: int)
    | LocalHandle(i: int)
    | GlobalHandle(i: int)
    | Literal(s: string)
    | Offset(v: int)

  /** The text ReadParameter returns for an operand. */
  function OperandText(o: Operand): string
  {
    match o
    case Number(v) => IntToString(v)
    case Local(i) => "LOCAL" + IntToString(i)
    case Global(i) => "GLOBAL" + IntToString(i)
    case LocalHandle(i) => "@LOCAL" + IntToString(i)
    case GlobalHandle(i) => "@GLOBAL" + IntToString(i)
    case Literal(s) => "'" + s + "'"
    case Offset(v) => "offset" + IntToString(v)
  }

  /** Bit k of a byte. */
  predicate Bit(x: byte, k: nat)
    requires k < 8
  {
    (x / Pow2(k)) % 2 == 1
  }

  /** ReadExtraBytes: the value of the 1, 2 or 4 bytes after a long-form
      lead byte, selected by its low three bits and sign-extended, with the
      number of bytes read. */
  function DecodeExtra(data: seq<byte>, pos: nat, firstbyte: byte): (r: Result<(int, nat)>)
    ensures r.Ok? <==> firstbyte % 8 in {1, 2, 3}
    ensures firstbyte % 8 == 1 ==> r == Ok((Wrap8(ByteAt(data, pos)), 1))
    ensures firstbyte % 8 == 2 ==> r == Ok((Wrap16(LittleEndian(Window(data, pos, 2))), 2))
    ensures firstbyte % 8 == 3 ==> r == Ok((Wrap32(LittleEndian(Window(data, pos, 4))), 4))
  {
    match firstbyte % 8
    case 1 => Ok((Wrap8(ByteAt(data, pos)), 1))
    case 2 => Ok((Wrap16(LittleEndian(Window(data, pos, 2))), 2))
    case 3 => Ok((Wrap32(LittleEndian(Window(data, pos, 4))), 4))
    case _ => Err("Can not decode parameter " + IntToString(firstbyte))
  }

  /** The characters of a zero-terminated string starting at index i, or
      None when the data ends before the terminating zero. */
  function StringScan(data: seq<byte>, i: nat): (r: Option<string>)
    ensures r.Some? ==> i + |r.value| < |data| && data[i + |r.value|] == 0
    ensures r.Some? ==> forall k :: i <= k < i + |r.value| ==> data[k] != 0
    ensures r.Some? ==> forall k :: 0 <= k < |r.value| ==> r.value[k] == data[i + k] as char
    decreases |data| - i
  {
    if i >= |data| then None
    else if data[i] == 0 then Some([])
    else
      var rest := StringScan(data, i + 1);
      if rest.None? then None
      else Some([data[i] as char] + rest.value)
  }

  /** s in front of an optional string. */
  function Prepend(s: string, o: Option<string>): (r: Option<string>)
    ensures r.None? <==> o.None?
    ensures o.Some? ==> r.value == s + o.value
  {
    match o
    case None => None
    case Some(t) => Some(s + t)
  }

  /** The operand of a one-byte (short-form) encoding: bit 6 tells a
      variable from a constant, bit 5 a global from a local variable or a
      negative from a positive constant. */
  function ShortOperand(x: byte): Operand
    requires x < 0x80
  {
    if !Bit(x, 6) then Number(if !Bit(x, 5) then x % 32 else -32 + x % 32)
    else if !Bit(x, 5) then Local(x % 32) else Global(x % 32)
  }

  /** A long-form lead byte announcing a zero-terminated string. */
  predicate IsStringLead(x: byte)
  {
    x >= 0x80 && !Bit(x, 6) && !Bit(x, 5) && (x % 8 == 0 || x % 8 == 4)
  }

  /** The operand of a long-form encoding whose extra bytes hold v. */
  function LongOperand(x: byte, v: int): Operand
    requires x >= 0x80
  {
    if !Bit(x, 6) then (if !Bit(x, 5) then Number(v) else Offset(v))
    else if !Bit(x, 5) then (if !Bit(x, 4) then Local(v) else LocalHandle(v))
    else (if !Bit(x, 4) then Global(v) else GlobalHandle(v))
  }

  /** The operand encoded at pos and the number of bytes it occupies. A
      string literal whose terminating zero is missing is an error. */
  function DecodeParameter(data: seq<byte>, pos: nat): (r: Result<(Operand, nat)>)
  {
    var x := ByteAt(data, pos);
    if x < 0x80 then Ok((ShortOperand(x), 1))
    else if IsStringLead(x) then
      match StringScan(data, pos + 1)
      case None => Err("Unterminated string literal")
      case Some(s) => Ok((Literal(s), |s| + 2))
    else
      match DecodeExtra(data, pos + 1, x)
      case Err(m) => Err(m)
      case Ok((v, n)) => Ok((LongOperand(x, v), 1 + n))
  }

  /** A string lead byte followed by a terminated string decodes to that
      string, occupying the lead byte, the characters and the zero. */
  lemma DecodeStringLead(data: seq<byte>, s: string)
    requires IsStringLead(ByteAt(data, 0)) && StringScan(data, 1) == Some(s)
    ensures DecodeParameter(data, 0) == Ok((Literal(s), |s| + 2))
  {
  }

  method ReadExtraBytes(binary: InStream, didread: int, firstbyte: byte) returns (r: Result<int>, newDidread: int)
    requires binary.Valid()
    modifies binary
    ensures binary.Valid()
    ensures var d := DecodeExtra(binary.data, old(binary.pos), firstbyte);
      && (d.Ok? ==> r == Ok(d.value.0) && newDidread == didread + d.value.1
                    && binary.pos == Min(old(binary.pos) + d.value.1, |binary.data|))
      && (d.Err? ==> r == Err(d.msg) && newDidread == didread && binary.pos == old(binary.pos))
  {
    var v;
    match firstbyte % 8
    case 1 =>
      v, newDidread := Read8(binary, didread);
      r := Ok(v);
    case 2 =>
      v, newDidread := Read16(binary, didread);
      r := Ok(v);
    case 3 =>
      v, newDidread := Read32(binary, didread);
      r := Ok(v);
    case _ =>
      r, newDidread := Err("Can not decode parameter " + IntToString(firstbyte)), didread;
  }

  /** Reads the characters of a string literal up to its terminating zero,
      stopping with None at the end of the data. */
  method ReadString(binary: InStream, didread: int) returns (r: Option<string>, newDidread: int)
    requires binary.Valid()
    modifies binary
    ensures binary.Valid()
    ensures r == StringScan(binary.data, old(binary.pos))
    ensures r.Some? ==> newDidread == didread + |r.value| + 1 && binary.pos == old(binary.pos) + |r.value| + 1
  {
    var s: string := "";
    ghost var start := binary.pos;
    newDidread := didread;
    ghost var whole := StringScan(binary.data, start);
    assert whole.Some? ==> s + whole.value == whole.value;
    while binary.pos < |binary.data|
      invariant binary.Valid() && start <= binary.pos
      invariant binary.pos == start + |s| && newDidread == didread + |s|
      invariant StringScan(binary.data, start) == Prepend(s, StringScan(binary.data, binary.pos))
      decreases |binary.data| - binary.pos
    {
      ghost var p := binary.pos;
      var c;
      c, newDidread := Read8(binary, newDidread);
      Wrap8Byte(binary.data[p]);
      var b := c % 256;
      assert b == binary.data[p];
      if b == 0 {
        assert s + [] == s;
        return Some(s), newDidread;
      }
      ghost var rest := StringScan(binary.data, p + 1);
      assert rest.Some? ==> s + ([b as char] + rest.value) == (s + [b as char]) + rest.value;
      s := s + [b as char];
    }
    r := None;
  }

  method ReadParameter(binary: InStream, didread: int) returns (r: Result<string>, newDidread: int)
    requires binary.Valid()
    modifies binary
    ensures binary.Valid()
    ensures var d := DecodeParameter(binary.data, old(binary.pos));
      && (d.Ok? ==> r == Ok(OperandText(d.value.0)) && newDidread == didread + d.value.1
                    && binary.pos == Min(old(binary.pos) + d.value.1, |binary.data|))
      && (d.Err? ==> r == Err(d.msg))
  {
    ghost var p := binary.pos;
    var x0;
    x0, newDidread := Read8(binary, didread);
    Wrap8Byte(ByteAt(binary.data, p));
    var x: byte := x0 % 256;
    if x < 0x80 {
      r := Ok(OperandText(ShortOperand(x)));
    } else if IsStringLead(x) {
      var s;
      s, newDidread := ReadString(binary, newDidread);
      r := if s.Some? then Ok(OperandText(Literal(s.value))) else Err("Unterminated string literal");
    } else {
      var v;
      v, newDidread := ReadExtraBytes(binary, newDidread, x);
      r := if v.Err? then Err(v.msg) else Ok(OperandText(LongOperand(x, v.value)));
    }
  }

  // ------------------------------------------------ the string loop as written

  /** The string-literal loop of ReadParameter exactly as written, run for at
      most fuel iterations; None means it is still running. Each iteration
      reads one byte with Read8 and masks it: at the end of the stream that
      byte is 0xff, never 0, and the stream stays where it is. */
  function StringLoopAsWritten(data: seq<byte>, pos: nat, s: string, fuel: nat): Option<string>
    requires pos <= |data|
    decreases fuel
  {
    if fuel == 0 then None
    else
      var c := ByteAt(data, pos);
      if c == 0 then Some(s)
      else StringLoopAsWritten(data, Min(pos + 1, |data|), s + [c as char], fuel - 1)
  }

  /** Once the stream is exhausted the loop as written never returns, however
      many iterations it is given. */
  lemma {:induction false} StringLoopNeverEndsAtEnd(data: seq<byte>, s: string, fuel: nat)
    ensures StringLoopAsWritten(data, |data|, s, fuel) == None
    decreases fuel
  {
    if fuel > 0 {
      StringLoopNeverEndsAtEnd(data, s + [0xff as char], fuel - 1);
    }
  }

  /** The image [0x80]: a string literal cut off by the end of the file. The
      loop as written never ends on it; the decoder reports an error. */
  lemma UnterminatedLiteralHangs(fuel: nat)
    ensures StringLoopAsWritten([0x80], 1, "", fuel) == None
    ensures DecodeParameter([0x80], 0) == Err("Unterminated string literal")
  {
    StringLoopNeverEndsAtEnd([0x80], "", fuel);
    assert IsStringLead(0x80);
  }

  /** Where the terminating zero is present the loop as written and the
      decoder agree. */
  lemma {:induction false} StringLoopAgrees(data: seq<byte>, pos: nat, s: string)
    requires pos <= |data| && StringScan(data, pos).Some?
    ensures StringLoopAsWritten(data, pos, s, |StringScan(data, pos).value| + 1) == Some(s + StringScan(data, pos).value)
    decreases |data| - pos
  {
    var t := StringScan(data, pos).value;
    if data[pos] == 0 {
      assert t == [] && s + t == s;
    } else {
      var c := data[pos];
      StringLoopAgrees(data, pos + 1, s + [c as char]);
      assert s + [c as char] + StringScan(data, pos + 1).value == s + t;
    }
  }

  // ------------------------------------------------------------- opcodes

  /** The first command in the table whose opcode bytes are opcode. */
  function FindCommand(commands: seq<Command>, opcode: seq<byte>): (r: Option<Command>)
    ensures r.Some? ==> r.value in commands && r.value.opcode == opcode
    ensures r.None? <==> forall k :: 0 <= k < |commands| ==> commands[k].opcode != opcode
  {
    if commands == [] then None
    else if commands[0].opcode == opcode then Some(commands[0])
    else FindCommand(commands[1..], opcode)
  }

  /** ReadOpCode: None for the CALL byte 0x09; otherwise the one-byte opcode,
      or failing that the two-byte opcode, with the bytes read. */
  function DecodeOpCode(commands: seq<Command>, data: seq<byte>, pos: nat): (r: Result<(Option<Command>, nat)>)
    ensures r.Ok? && r.value.0.None? ==> ByteAt(data, pos) == 0x09 && r.value.1 == 1
    ensures r.Ok? && r.value.0.Some? ==>
              r.value.0.value in commands && r.value.0.value.opcode == Window(data, pos, r.value.1)
  {
    var op := ByteAt(data, pos);
    if op == 0x09 then Ok((None, 1))
    else match FindCommand(commands, [op])
      case Some(c) => Ok((Some(c), 1))
      case None =>
        var op1 := ByteAt(data, pos + 1);
        match FindCommand(commands, [op, op1])
        case Some(c) => Ok((Some(c), 2))
        case None => Err("Unrecognized opcode: " + IntToString(op) + "(" + IntToString(op1) + ")")
  }

  /** One foreach over the table. */
  method SearchCommand(commands: seq<Command>, opcode: seq<byte>) returns (r: Option<Command>)
    ensures r == FindCommand(commands, opcode)
  {
    var i := 0;
    while i < |commands|
      invariant 0 <= i <= |commands|
      invariant FindCommand(commands, opcode) == FindCommand(commands[i..], opcode)
    {
      if commands[i].opcode == opcode {
        return Some(commands[i]);
      }
      assert commands[i..][1..] == commands[i + 1..];
      i := i + 1;
    }
    r := None;
  }

  method ReadOpCode(binary: InStream, didread: int, commands: seq<Command>)
    returns (r: Result<Option<Command>>, newDidread: int)
    requires binary.Valid()
    modifies binary
    ensures binary.Valid()
    ensures var d := DecodeOpCode(commands, binary.data, old(binary.pos));
      && (d.Ok? ==> r == Ok(d.value.0) && newDidread == didread + d.value.1
                    && binary.pos == Min(old(binary.pos) + d.value.1, |binary.data|))
      && (d.Err? ==> r == Err(d.msg))
  {
    ghost var p := binary.pos;
    var op0;
    op0, newDidread := Read8(binary, didread);
    Wrap8Byte(ByteAt(binary.data, p));
    var op: byte := op0 % 256;
    if op == 0x09 {
      return Ok(None), newDidread;
    }
    var c := SearchCommand(commands, [op]);
    if c.Some? {
      return Ok(c), newDidread;
    }
    var op1x;
    op1x, newDidread := Read8(binary, newDidread);
    Wrap8Byte(ByteAt(binary.data, p + 1));
    var op1: byte := op1x % 256;
    c := SearchCommand(commands, [op, op1]);
    if c.Some? {
      return Ok(c), newDidread;
    }
    r := Err("Unrecognized opcode: " + IntToString(op) + "(" + IntToString(op1) + ")");
  }

  // ------------------------------------------------------------ listing

  function Spaces(n: nat): (r: string)
    ensures |r| == n && forall k :: 0 <= k < n ==> r[k] == ' '
  {
    if n == 0 then [] else [' '] + Spaces(n - 1)
  }

  /** The decimal numeral of number, left-padded with spaces to at least
      places characters. */
  method Format(number: int, places: int) returns (s: string)
    ensures var d := IntToString(number);
      s == Spaces(if places > |d| then places - |d| else 0) + d
  {
    s := IntToString(number);
    ghost var d := s;
    ghost var k := 0;
    assert s == Spaces(0) + d;
    while |s| < places
      invariant s == Spaces(k) + d && |s| == |d| + k
      invariant k == 0 || |s| <= places
      decreases places - |s|
    {
      PadStep(k, d);
      s := " " + s;
      k := k + 1;
    }
  }

  /** One more blank in front widens the padding by one. */
  lemma PadStep(k: nat, d: string)
    ensures " " + (Spaces(k) + d) == Spaces(k + 1) + d
  {
    assert Spaces(k + 1) == [' '] + Spaces(k);
  }

  lemma NumeralHead(number: int)
    ensures |IntToString(number)| >= 1
    ensures IntToString(number)[0] == '-' || IsDigit(IntToString(number)[0])
  {
  }

  /** The padded field is exactly as wide as asked (or the numeral, if that
      is wider), and trimming its blanks gives the numeral back. */
  lemma FormatTrims(number: int, places: int, d: string)
    requires d == IntToString(number)
    ensures var s := Spaces(if places > |d| then places - |d| else 0) + d;
      && |s| == (if places > |d| then places else |d|)
      && TrimStart(s) == d
  {
    NumeralHead(number);
    SpacesTrim(if places > |d| then places - |d| else 0, d);
  }

  lemma {:induction false} SpacesTrim(n: nat, d: string)
    requires d != [] && !IsBlank(d[0])
    ensures TrimStart(Spaces(n) + d) == d
  {
    if n > 0 {
      SpacesTrim(n - 1, d);
      assert (Spaces(n) + d)[1..] == Spaces(n - 1) + d;
    } else {
      assert Spaces(0) + d == d;
    }
  }
}
