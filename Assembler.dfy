/** The line-level front end of the LMS assembler and the layout of the
    .rbf image it writes: tokenizing a line, decoding escapes in string
    tokens, identifier and number operands, label declarations, the number
    of parameters an opcode line supplies, the numbering of objects and the
    image header. */
module LMSAssembler {
  import opened Common
  import opened DataTypes
  import opened DataArea
  import opened DataWriter
  import opened LMSObjects

  // ------------------------------------------------------------- escapes

  /** Three characters read as octal digits, whatever they are. */
  function DecodeOctal(s: string): (r: int)
    requires |s| >= 3
    ensures '0' <= s[0] <= '3' && '0' <= s[1] <= '7' && '0' <= s[2] <= '7' ==> 0 <= r < 256
  {
    64 * (s[0] as int - '0' as int) + 8 * (s[1] as int - '0' as int) + (s[2] as int - '0' as int)
  }

  /** The character (char)DecodeOctal(d) gives: the low 16 bits. */
  function OctalChar(d: string): char
    requires |d| >= 3
  {
    CharOfCode(DecodeOctal(d) % TWO_16)
  }

  /** The text Unescape produces: \n, \t and a backslash followed by three
      characters the first of which is 0..3 each become one character; any
      other character, backslashes included, is kept. */
  function Unescaped(s: string): (r: string)
    ensures |r| <= |s|
    ensures |s| > 0 && s[0] != '\\' ==> |r| > 0 && r[0] == s[0]
    decreases |s|
  {
    if s == [] then []
    else if s[0] == '\\' && |s| > 1 && s[1] == 'n' then "\n" + Unescaped(s[2..])
    else if s[0] == '\\' && |s| > 1 && s[1] == 't' then "\t" + Unescaped(s[2..])
    else if s[0] == '\\' && |s| > 3 && '0' <= s[1] <= '3' then [OctalChar(s[1..4])] + Unescaped(s[4..])
    else [s[0]] + Unescaped(s[1..])
  }

  /** Rewrites the string in place; the cursor moves on past the character
      that replaced an escape. */
  method Unescape(s0: string) returns (s: string)
    ensures s == Unescaped(s0)
  {
    s := s0;
    var i := 0;
    while i < |s|
      invariant 0 <= i <= |s|
      invariant Unescaped(s0) == s[..i] + Unescaped(s[i..])
      decreases |s| - i
    {
      s := UnescapeAt(s, i);
      i := i + 1;
    }
  }

  /** One turn of Unescape's loop: the escape at i, if any, is replaced by
      its character; what is still to be produced is unchanged. */
  method UnescapeAt(s: string, i: nat) returns (t: string)
    requires i < |s|
    ensures i + 1 <= |t| <= |s|
    ensures s[..i] + Unescaped(s[i..]) == t[..i + 1] + Unescaped(t[i + 1..])
  {
    ghost var u := s[i..];
    if s[i] == '\\' && |s| > i + 1 && s[i + 1] == 'n' {
      EscapeStep(s, i, 2, '\n');
      t := s[..i] + ['\n'] + s[i + 2..];
    } else if s[i] == '\\' && |s| > i + 1 && s[i + 1] == 't' {
      EscapeStep(s, i, 2, '\t');
      t := s[..i] + ['\t'] + s[i + 2..];
    } else if s[i] == '\\' && |s| > i + 3 && '0' <= s[i + 1] <= '3' {
      assert u[1..4] == s[i + 1..i + 4];
      EscapeStep(s, i, 4, OctalChar(s[i + 1..i + 4]));
      t := s[..i] + [OctalChar(s[i + 1..i + 4])] + s[i + 4..];
    } else {
      KeptStep(s, i);
      t := s;
    }
  }

  /** Replacing the escape of length k at i by the character x it stands
      for keeps the text still to be produced. */
  lemma EscapeStep(s: string, i: nat, k: nat, x: char)
    requires i + k <= |s| && 2 <= k
    requires Unescaped(s[i..]) == [x] + Unescaped(s[i..][k..])
    ensures var t := s[..i] + [x] + s[i + k..];
      i + 1 <= |t| <= |s| && s[..i] + Unescaped(s[i..]) == t[..i + 1] + Unescaped(t[i + 1..])
  {
    assert s[i..][k..] == s[i + k..];
    var t := s[..i] + [x] + s[i + k..];
    assert t[..i + 1] == s[..i] + [x];
    assert t[i + 1..] == s[i + k..];
  }

  /** A character that starts no escape is kept, and the cursor passes it. */
  lemma KeptStep(s: string, i: nat)
    requires i < |s|
    requires Unescaped(s[i..]) == [s[i]] + Unescaped(s[i..][1..])
    ensures s[..i] + Unescaped(s[i..]) == s[..i + 1] + Unescaped(s[i + 1..])
  {
    assert s[i..][1..] == s[i + 1..];
    assert s[..i + 1] == s[..i] + [s[i]];
  }

  /** A text without backslashes is its own unescaping. */
  lemma {:induction false} NoEscapes(s: string)
    requires '\\' !in s
    ensures Unescaped(s) == s
    decreases |s|
  {
    if s != [] {
      assert s[0] != '\\';
      NoEscapes(s[1..]);
    }
  }

  // -------------------------------------------------------------- tokens

  /** Characters that separate tokens and produce none. */
  predicate Skipped(c: char) { c == ' ' || c == '\t' || c == ',' || c == '(' || c == ')' || c == '{' }

  /** The first character of an identifier or number token. */
  predicate TokenStart(c: char) { IsLetter(c) || IsDigit(c) || c == '_' || c == '-' }

  /** The further characters of an identifier or number token. */
  predicate TokenChar(c: char) { IsLetter(c) || IsDigit(c) || c == '_' || c == '.' || c == ':' || c == '+' }

  /** An identifier or number token as the tokenizer hands it on. */
  predicate PlainToken(t: string)
  {
    |t| > 0 && TokenStart(t[0]) && (forall k :: 1 <= k < |t| ==> TokenChar(t[k]))
    && forall k :: 0 <= k < |t| ==> !IsLower(t[k])
  }

  /** Every token is a closing brace, a quoted string that still starts
      with its quote, or an upper-case identifier or number. */
  predicate WellFormedToken(t: string)
  {
    t == "}" || (|t| > 0 && t[0] == '\'') || PlainToken(t)
  }

  /** Where an identifier or number token whose rest starts at p ends. */
  function WordEnd(l: string, p: nat): (e: nat)
    requires p <= |l|
    ensures p <= e <= |l|
    ensures forall k :: p <= k < e ==> TokenChar(l[k])
    ensures e < |l| ==> !TokenChar(l[e])
    decreases |l| - p
  {
    if p == |l| || !TokenChar(l[p]) then p else WordEnd(l, p + 1)
  }

  /** The position of the next quote from p on, if there is one. */
  function QuoteEnd(l: string, p: nat): (r: Option<nat>)
    requires p <= |l|
    ensures r.Some? ==> p <= r.value < |l| && l[r.value] == '\'' && forall k :: p <= k < r.value ==> l[k] != '\''
    ensures r.None? ==> forall k :: p <= k < |l| ==> l[k] != '\''
    decreases |l| - p
  {
    if p == |l| then None else if l[p] == '\'' then Some(p) else QuoteEnd(l, p + 1)
  }

  function Cons(t: string, rest: Result<seq<string>>): Result<seq<string>>
  {
    match rest
    case Ok(ts) => Ok([t] + ts)
    case Err(m) => Err(m)
  }

  function Then(done: seq<string>, rest: Result<seq<string>>): Result<seq<string>>
  {
    match rest
    case Ok(ts) => Ok(done + ts)
    case Err(m) => Err(m)
  }

  /** The tokens of line l from position pos on: a '/' ends the line; a
      quoted string keeps its quotes and goes through Unescape; an
      identifier or number is upper-cased; '}' stands alone. */
  function Tokens(l: string, pos: nat): (r: Result<seq<string>>)
    requires pos <= |l|
    ensures r.Ok? ==> forall t :: t in r.value ==> WellFormedToken(t)
    decreases |l| - pos
  {
    if pos == |l| || l[pos] == '/' then Ok([])
    else if Skipped(l[pos]) then Tokens(l, pos + 1)
    else if l[pos] == '\'' then
      match QuoteEnd(l, pos + 1)
      case None => Err("Nonterminated string")
      case Some(e) => Cons(Unescaped(l[pos..e + 1]), Tokens(l, e + 1))
    else if TokenStart(l[pos]) then
      var e := WordEnd(l, pos + 1);
      UpperPlain(l, pos, e);
      Cons(Upper(l[pos..e]), Tokens(l, e))
    else if l[pos] == '}' then Cons("}", Tokens(l, pos + 1))
    else Err("Unknown letter '" + [l[pos]] + "' ")
  }

  /** Handing one more token on is the same as consing it to the rest. */
  lemma ThenCons(done: seq<string>, t: string, rest: Result<seq<string>>)
    ensures Then(done + [t], rest) == Then(done, Cons(t, rest))
  {
    if rest.Ok? {
      assert done + [t] + rest.value == done + ([t] + rest.value);
    }
  }

  lemma UpperPlain(l: string, pos: nat, e: nat)
    requires pos < e <= |l| && TokenStart(l[pos]) && forall k :: pos < k < e ==> TokenChar(l[k])
    ensures PlainToken(Upper(l[pos..e]))
  {
    var t := Upper(l[pos..e]);
    forall k | 1 <= k < |t|
      ensures TokenChar(t[k])
    {
      assert l[pos..e][k] == l[pos + k];
    }
  }

  method TokenizeLine(l: string) returns (r: Result<seq<string>>)
    ensures r == Tokens(l, 0)
  {
    var tokens: seq<string> := [];
    var pos := 0;
    ThenNothing(Tokens(l, 0));
    while pos < |l|
      invariant 0 <= pos <= |l|
      invariant Tokens(l, 0) == Then(tokens, Tokens(l, pos))
      decreases |l| - pos
    {
      var c := l[pos];
      if c == '/' {
        break;
      } else if c == ' ' || c == '\t' || c == ',' || c == '(' || c == ')' || c == '{' {
        assert Tokens(l, pos) == Tokens(l, pos + 1);
        pos := pos + 1;
      } else if c == '\'' {
        var start := pos;
        var e := QuoteScan(l, pos + 1);
        if e.None? {
          return Err("Nonterminated string");
        }
        pos := e.value + 1;
        var t := Unescape(l[start..pos]);
        ThenCons(tokens, t, Tokens(l, pos));
        tokens := tokens + [t];
      } else if IsLetter(c) || IsDigit(c) || c == '_' || c == '-' {
        var start := pos;
        pos := WordScan(l, pos + 1);
        ThenCons(tokens, Upper(l[start..pos]), Tokens(l, pos));
        tokens := tokens + [Upper(l[start..pos])];
      } else if c == '}' {
        ThenCons(tokens, "}", Tokens(l, pos + 1));
        pos := pos + 1;
        tokens := tokens + ["}"];
      } else {
        return Err("Unknown letter '" + [c] + "' ");
      }
    }
    assert tokens + [] == tokens;
    r := Ok(tokens);
  }

  /** The scan for the quote closing a string literal. */
  method QuoteScan(l: string, p: nat) returns (r: Option<nat>)
    requires p <= |l|
    ensures r == QuoteEnd(l, p)
  {
    var q := p;
    while q < |l| && l[q] != '\''
      invariant p <= q <= |l|
      invariant QuoteEnd(l, p) == QuoteEnd(l, q)
      decreases |l| - q
    {
      q := q + 1;
    }
    r := if q < |l| then Some(q) else None;
  }

  /** The scan for the end of an identifier or number; at the end of the
      line the token runs to the end. */
  method WordScan(l: string, p: nat) returns (e: nat)
    requires p <= |l|
    ensures e == WordEnd(l, p)
  {
    e := p;
    while e < |l| && TokenChar(l[e])
      invariant p <= e <= |l|
      invariant WordEnd(l, p) == WordEnd(l, e)
      decreases |l| - e
    {
      e := e + 1;
    }
  }

  lemma ThenNothing(r: Result<seq<string>>)
    ensures Then([], r) == r
  {
    if r.Ok? {
      assert [] + r.value == r.value;
    }
  }

  /** What follows a '/' outside a string literal never matters. */
  lemma {:induction false} CommentIgnored(l: string, c1: string, c2: string, pos: nat)
    requires pos <= |l| && forall k :: pos <= k < |l| ==> l[k] != '\''
    ensures Tokens(l + "/" + c1, pos) == Tokens(l + "/" + c2, pos)
    decreases |l| - pos
  {
    var a, b := l + "/" + c1, l + "/" + c2;
    if pos < |l| {
      assert a[pos] == b[pos] == l[pos];
      if l[pos] != '/' && Skipped(l[pos]) {
        CommentIgnored(l, c1, c2, pos + 1);
      } else if l[pos] != '/' && TokenStart(l[pos]) {
        SameWordEnd(l, c1, c2, pos + 1);
        var e := WordEnd(a, pos + 1);
        assert a[pos..e] == b[pos..e];
        CommentIgnored(l, c1, c2, e);
      } else if l[pos] != '/' && l[pos] == '}' {
        CommentIgnored(l, c1, c2, pos + 1);
      }
    } else {
      assert a[pos] == b[pos] == '/';
    }
  }

  lemma {:induction false} SameWordEnd(l: string, c1: string, c2: string, p: nat)
    requires p <= |l|
    ensures WordEnd(l + "/" + c1, p) == WordEnd(l + "/" + c2, p) <= |l|
    decreases |l| - p
  {
    var a, b := l + "/" + c1, l + "/" + c2;
    if p < |l| {
      assert a[p] == b[p] == l[p];
      if TokenChar(l[p]) {
        SameWordEnd(l, c1, c2, p + 1);
      }
    } else {
      assert a[p] == b[p] == '/';
    }
  }

  // ------------------------------------------------------------ operands

  /** An identifier operand: it must be there, be the last token when
      mustBeLast, and start with an upper-case letter or '_'. */
  function FetchID(tokens: seq<string>, position: nat, mustBeLast: bool): (r: Result<string>)
    requires position < |tokens| ==> tokens[position] != []
    ensures r.Ok? <==>
              position < |tokens| && !(mustBeLast && position + 1 < |tokens|)
              && (IsUpper(tokens[position][0]) || tokens[position][0] == '_')
    ensures r.Ok? ==> r.value == tokens[position]
    ensures position >= |tokens| ==> r == Err("Identifier expected")
  {
    if |tokens| <= position then Err("Identifier expected")
    else if mustBeLast && position + 1 < |tokens| then Err("Too many elements for command")
    else
      var token := tokens[position];
      if IsUpper(token[0]) || token[0] == '_' then Ok(token)
      else Err("Identifer expected instead of " + token)
  }

  /** A number operand: an integer token (Int64.TryParse) in 1..32767. */
  function FetchNumber(tokens: seq<string>, position: nat, mustBeLast: bool): (r: Result<int>)
    ensures r.Ok? <==>
              position < |tokens| && !(mustBeLast && position + 1 < |tokens|)
              && ParseInt64(tokens[position]).Some? && 1 <= ParseInt64(tokens[position]).value <= 0x7FFF
    ensures r.Ok? ==> 1 <= r.value <= 0x7FFF && ParseInteger(tokens[position]) == Some(r.value)
    ensures position < |tokens| && !(mustBeLast && position + 1 < |tokens|) && ParseInt64(tokens[position]).None? ==>
              r == Err("Number expected")
  {
    if |tokens| <= position then Err("Number expected")
    else if mustBeLast && position + 1 < |tokens| then Err("Too many elements for command")
    else match ParseInt64(tokens[position])
      case None => Err("Number expected")
      case Some(v) => if v < 1 || v > 0x7FFF then Err("Number ouf of range") else Ok(v)
  }

  /** The decimal numeral of a number in range is accepted as that number. */
  lemma FetchNumeral(tokens: seq<string>, position: nat, n: int)
    requires position < |tokens| && 1 <= n <= 0x7FFF && tokens[position] == NatToString(n)
    ensures FetchNumber(tokens, position, false) == Ok(n)
  {
    ParseIntToString(n);
    assert IntToString(n) == NatToString(n);
  }

  /** The name a label declaration "name:" declares; the ':' must be the
      only one. */
  function LabelName(first: string): (r: Result<string>)
    requires EndsWith(first, ":")
    ensures r.Ok? <==> ':' !in first[..|first| - 1]
    ensures r.Ok? ==> r.value + ":" == first
    ensures r.Err? ==> r.msg == "Label must only have one trailing ':'"
  {
    LabelColon(first);
    if IndexOf(first, ':') < |first| - 1 then Err("Label must only have one trailing ':'")
    else Ok(first[..|first| - 1])
  }

  lemma LabelColon(first: string)
    requires |first| > 0 && first[|first| - 1] == ':'
    ensures IndexOf(first, ':') < |first| - 1 <==> ':' in first[..|first| - 1]
    ensures first[..|first| - 1] + ":" == first
  {
    var n := |first| - 1;
    var r := IndexOf(first, ':');
    var p := first[..n];
    assert first[n] == ':';
    assert first == p + [first[n]];
    if r < n {
      assert p[r] == first[r] == ':';
    } else {
      assert r == n && p == first[..r];
    }
  }

  // -------------------------------------------------- parameter counting

  /** A parameter-count operand at k that sets the count to n. */
  ghost predicate SpecifiedCount(parameters: seq<DataType>, tokens: seq<string>, paramstart: nat, k: nat, n: int)
  {
    |parameters| > 0 && paramstart + k < |tokens|
    && parameters[if k < |parameters| then k else |parameters| - 1] == ParameterCount
    && ParseInt32(tokens[paramstart + k]).Some?
    && 0 <= ParseInt32(tokens[paramstart + k]).value <= 1_000_000_000
    && n == |parameters| - 1 + ParseInt32(tokens[paramstart + k]).value
  }

  /** The walk over the operands of an opcode line that fixes how many it
      must have: one per parameter, unless a parameter-count operand says
      how many of the last type follow. The line must end exactly there. */
  method CountParameters(name: string, parameters: seq<DataType>, tokens: seq<string>, paramstart: nat)
    returns (r: Result<nat>)
    requires paramstart <= |tokens|
    ensures r.Ok? ==> paramstart + r.value == |tokens|
    ensures ParameterCount !in parameters ==> (r.Ok? <==> paramstart + |parameters| == |tokens|)
    ensures r.Ok? ==> r.value == |parameters| || exists k :: SpecifiedCount(parameters, tokens, paramstart, k, r.value)
  {
    var paramcount: int := |parameters|;
    ghost var specified := false;
    var i := 0;
    while i < paramcount
      invariant 0 <= i <= |tokens| - paramstart
      invariant !specified ==> paramcount == |parameters| && i <= |parameters|
      invariant specified ==> exists k :: SpecifiedCount(parameters, tokens, paramstart, k, paramcount)
      invariant !specified ==> forall k :: 0 <= k < i ==> parameters[k] != ParameterCount
      invariant ParameterCount !in parameters ==> !specified
      decreases |tokens| - paramstart - i
    {
      if paramstart + i >= |tokens| {
        return Err("Too few parameters for " + name);
      }
      var pidx := if i < |parameters| - 1 then i else |parameters| - 1;
      if parameters[pidx] == ParameterCount {
        var p := ParseInt32(tokens[paramstart + i]);
        if p.None? {
          return Err("Can not decode parameter count specifier");
        }
        if p.value < 0 || p.value > 1_000_000_000 {
          return Err("Parameter count specifier out of range");
        }
        paramcount := |parameters| - 1 + p.value;
        specified := true;
        assert SpecifiedCount(parameters, tokens, paramstart, i, paramcount);
      }
      i := i + 1;
    }
    if paramstart + paramcount != |tokens| {
      return Err("Invalid number of parameters for " + name);
    }
    r := Ok(paramcount);
  }

  // ------------------------------------------------------ objects, image

  /** The objects of the program in the order of their ids. */
  function InOrder(order: seq<string>, objects: map<string, LMSObject>): (os: seq<LMSObject>)
    requires forall n :: n in order ==> n in objects
    ensures |os| == |order| && forall k :: 0 <= k < |order| ==> os[k] == objects[order[k]]
  {
    seq(|order|, k requires 0 <= k < |order| => objects[order[k]])
  }

  /** The parts one after the other. */
  function Flatten(parts: seq<seq<byte>>): (r: seq<byte>)
  {
    if parts == [] then [] else Flatten(parts[..|parts| - 1]) + parts[|parts| - 1]
  }

  /** What WriteBody yields for each object, in order. */
  ghost function Results(os: seq<LMSObject>): (r: seq<Result<seq<byte>>>)
    reads os
    requires forall k :: 0 <= k < |os| ==> os[k].IoShaped()
    ensures |r| == |os| && forall k :: 0 <= k < |os| ==> r[k] == os[k].Body()
  {
    if os == [] then [] else Results(os[..|os| - 1]) + [os[|os| - 1].Body()]
  }

  /** Every body was written without error. */
  predicate AllOk(rs: seq<Result<seq<byte>>>)
  {
    forall k :: 0 <= k < |rs| ==> rs[k].Ok?
  }

  /** The bodies, in order. */
  function Values(rs: seq<Result<seq<byte>>>): (r: seq<seq<byte>>)
    requires AllOk(rs)
    ensures |r| == |rs| && forall k :: 0 <= k < |rs| ==> r[k] == rs[k].value
  {
    if rs == [] then [] else Values(rs[..|rs| - 1]) + [rs[|rs| - 1].value]
  }

  /** Every offset fits in 32 bits and every alias is an alias of one of
      the objects. */
  ghost predicate RecordsOk(os: seq<LMSObject>)
    reads os
  {
    forall k :: 0 <= k < |os| ==>
      IsInt32(os[k].offsetToInstructions) && (os[k].implementation != null ==> os[k].implementation in os)
  }

  /** The header entries of the first n objects, in order. */
  ghost function Infos(os: seq<LMSObject>, n: nat): (r: seq<HeaderInfo>)
    reads os, set o | o in os :: o.locals
    requires n <= |os| && RecordsOk(os)
    ensures |r| == n && forall k :: 0 <= k < n ==> r[k] == Info(os[k])
  {
    if n == 0 then [] else Infos(os, n - 1) + [Info(os[n - 1])]
  }

  /** The header records of a sequence of header entries. */
  function Records(infos: seq<HeaderInfo>): (r: seq<seq<byte>>)
    ensures |r| == |infos|
  {
    if |infos| == 0 then [] else Records(infos[..|infos| - 1]) + [HeaderRecord(infos[|infos| - 1])]
  }

  const MAGIC: seq<byte> := ['L' as int, 'E' as int, 'G' as int, 'O' as int]
  const FORMAT_VERSION := 0x0068

  /** The 16 bytes in front of the object headers: "LEGO", the image size,
      the format version, the number of objects and the size of the global
      data. */
  function ImageHeader(objectCount: int, bodyBytes: int, globalBytes: int): (r: seq<byte>)
    ensures |r| == 16 && r[..4] == MAGIC
  {
    MAGIC + Le32(Wrap32(16 + 12 * objectCount + bodyBytes)) + Le16(FORMAT_VERSION) + Le16(objectCount)
    + Le32(Wrap32(globalBytes))
  }

  /** The .rbf image of objects with these headers and bodies. */
  function Image(headers: seq<seq<byte>>, bodies: seq<seq<byte>>, globalBytes: int): seq<byte>
  {
    ImageHeader(|headers|, |Flatten(bodies)|, globalBytes) + Flatten(headers) + Flatten(bodies)
  }

  /** Where each part starts when the parts follow a header of h bytes, as
      C# int arithmetic computes it. */
  function Offsets(h: int, parts: seq<seq<byte>>): (r: seq<int>)
    ensures |r| == |parts|
  {
    if parts == [] then [] else Offsets(h, parts[..|parts| - 1]) + [Wrap32(h + |Flatten(parts[..|parts| - 1])|)]
  }

  /** An object with code of its own starts at offset. */
  ghost predicate Placed(o: LMSObject, offset: int)
    reads o`offsetToInstructions, o`implementation
  {
    o.kind == Thread || o.implementation == null ==> o.offsetToInstructions == offset
  }

  /** The assembler's table of objects, keyed by name, and its global
      data. */
  class Assembler {
    var objects: map<string, LMSObject>
    /** The names in the order the objects were created. */
    ghost var order: seq<string>
    const globals: Area

    ghost predicate Valid()
      reads this, objects.Values
    {
      Numbered(objects, order)
      && (forall n :: n in objects ==> objects[n].name == n && objects[n].IoShaped())
      && (forall n :: n in objects ==> IsInt32(objects[n].offsetToInstructions))
      && (forall n :: n in objects && objects[n].implementation != null ==> Registered(objects, objects[n].implementation))
    }

    constructor ()
      ensures Valid() && objects == map[] && fresh(globals) && globals.Valid()
    {
      objects := map[];
      order := [];
      globals := new Area();
    }

    /** The ids of the objects are exactly 1..n, one object each. */
    lemma IdsAreOneToN()
      requires Valid()
      ensures forall n :: n in objects ==> 1 <= objects[n].id <= |objects|
      ensures forall n1, n2 :: n1 in objects && n2 in objects && objects[n1].id == objects[n2].id ==> n1 == n2
      ensures forall id :: 1 <= id <= |objects| ==> id in Ids(objects)
    {
      NumberedIds(objects, order);
    }

    /** A thread or subcall met for the first time, by definition or by
        reference, gets the next id. */
    method NewObject(name: string, kind: Kind) returns (o: LMSObject)
      requires Valid() && name !in objects
      modifies this`objects, this`order
      ensures Valid() && fresh(o) && fresh(o.locals)
      ensures objects == old(objects)[name := o] && o.id == |old(objects)| + 1
      ensures o.kind == kind && !o.started && o.implementation == null && o.program == []
    {
      o := new LMSObject(name, |objects| + 1, kind);
      NumberedExtend(objects, order, name, o);
      objects := objects[name := o];
      order := order + [name];
      forall n | n in objects
        ensures objects[n].name == n && objects[n].IoShaped() && IsInt32(objects[n].offsetToInstructions)
      {
        if n != name {
          assert objects[n] == old(objects)[n];
          assert old(objects[n].IoShaped() && IsInt32(objects[n].offsetToInstructions));
        }
      }
      forall n | n in objects && objects[n].implementation != null
        ensures Registered(objects, objects[n].implementation)
      {
        var impl := objects[n].implementation;
        assert n != name && Registered(old(objects), impl);
        assert impl.name != name;
      }
    }

    /** Numbers the objects by id, writes every body into one buffer at the
        offset it will have in the image, then writes the image header, the
        object headers and the bodies. An object whose body fails stops it
        before anything is written. */
    method GenerateOutput(target: OutStream) returns (r: Result<()>)
      requires Valid() && |objects| < TWO_31
      modifies target, objects.Values`offsetToInstructions
      ensures Valid()
      ensures r.Ok? <==> AllOk(old(Results(InOrder(order, objects))))
      ensures r.Err? ==> target.bytes == old(target.bytes)
      ensures r.Ok? ==> Output(old(target.bytes), target.bytes, old(InOrder(order, objects)),
                               old(Results(InOrder(order, objects))), old(globals.endofarea))
    {
      ghost var os := InOrder(order, objects);
      OrderFacts(os);
      r := WriteSorted(objects, order, os, globals.endofarea, target);
      ValidKept(os);
    }

    /** The objects in id order are valid, numbered from 1, and every alias
        is an alias of one of them. */
    lemma OrderFacts(os: seq<LMSObject>)
      requires Valid() && os == InOrder(order, objects)
      ensures forall k :: 0 <= k < |os| ==>
                os[k].IoShaped() && IsInt32(os[k].offsetToInstructions) && os[k].id == k + 1 && os[k] in objects.Values
      ensures forall k :: 0 <= k < |os| && os[k].implementation != null ==> os[k].implementation in os
      ensures RecordsOk(os)
    {
      forall k | 0 <= k < |os|
        ensures os[k].IoShaped() && IsInt32(os[k].offsetToInstructions) && os[k].id == k + 1 && os[k] in objects.Values
      {
        assert order[k] in objects;
      }
      forall k | 0 <= k < |os| && os[k].implementation != null
        ensures os[k].implementation in os
      {
        assert order[k] in objects;
        var impl := os[k].implementation;
        var j :| 0 <= j < |order| && order[j] == impl.name;
        assert os[j] == impl;
      }
    }

    /** Moving objects' code leaves the table valid, as long as each offset
        still fits in 32 bits. */
    twostate lemma ValidKept(os: seq<LMSObject>)
      requires old(Valid()) && unchanged(this) && os == InOrder(order, objects)
      requires forall k :: 0 <= k < |os| ==>
                 os[k].IoShaped() && IsInt32(os[k].offsetToInstructions) && os[k].implementation == old(os[k].implementation)
      ensures Valid()
    {
      forall n | n in objects
        ensures objects[n].IoShaped() && IsInt32(objects[n].offsetToInstructions)
        ensures objects[n].implementation != null ==> Registered(objects, objects[n].implementation)
      {
        var k :| 0 <= k < |order| && order[k] == n;
        assert os[k] == objects[n];
      }
    }
  }

  /** o is the object the table holds under o's name. */
  ghost predicate Registered(objects: map<string, LMSObject>, o: LMSObject)
  {
    o.name in objects && objects[o.name] == o
  }

  function Ids(objects: map<string, LMSObject>): set<int>
  {
    set n | n in objects :: objects[n].id
  }

  /** The objects are numbered 1..n in the order their names were first
      met. */
  ghost predicate Numbered(objects: map<string, LMSObject>, order: seq<string>)
  {
    |order| == |objects|
    && (forall i :: 0 <= i < |order| ==> order[i] in objects && objects[order[i]].id == i + 1)
    && (forall n :: n in objects ==> n in order)
  }

  lemma NumberedIds(objects: map<string, LMSObject>, order: seq<string>)
    requires Numbered(objects, order)
    ensures forall n :: n in objects ==> 1 <= objects[n].id <= |objects|
    ensures forall n1, n2 :: n1 in objects && n2 in objects && objects[n1].id == objects[n2].id ==> n1 == n2
    ensures forall id :: 1 <= id <= |objects| ==> id in Ids(objects)
  {
    forall n | n in objects
      ensures 1 <= objects[n].id <= |objects|
    {
      var i :| 0 <= i < |order| && order[i] == n;
    }
    forall n1, n2 | n1 in objects && n2 in objects && objects[n1].id == objects[n2].id
      ensures n1 == n2
    {
      var i :| 0 <= i < |order| && order[i] == n1;
      var j :| 0 <= j < |order| && order[j] == n2;
    }
    forall id | 1 <= id <= |objects|
      ensures id in Ids(objects)
    {
      assert order[id - 1] in objects && objects[order[id - 1]].id == id;
    }
  }

  /** A new name with the next id keeps the numbering. */
  lemma NumberedExtend(objects: map<string, LMSObject>, order: seq<string>, name: string, o: LMSObject)
    requires Numbered(objects, order) && name !in objects && o.id == |objects| + 1
    ensures Numbered(objects[name := o], order + [name])
  {
    var objects', order' := objects[name := o], order + [name];
    assert |objects'| == |objects| + 1;
    forall i | 0 <= i < |order'|
      ensures order'[i] in objects' && objects'[order'[i]].id == i + 1
    {
      if i < |order| {
        assert order'[i] == order[i] != name;
      }
    }
  }

  /** oarray[o.id - 1] := o for every object. */
  method SortById(objects: map<string, LMSObject>, ghost order: seq<string>) returns (placed: array<LMSObject?>)
    requires Numbered(objects, order)
    ensures fresh(placed) && placed.Length == |objects|
    ensures forall k :: 0 <= k < |objects| ==> placed[k] == objects[order[k]]
  {
    NumberedIds(objects, order);
    placed := new LMSObject?[|objects|];
    var rest := objects.Keys;
    while rest != {}
      invariant rest <= objects.Keys
      invariant forall n :: n in objects.Keys - rest ==> placed[objects[n].id - 1] == objects[n]
      decreases |rest|
    {
      var name :| name in rest;
      var o := objects[name];
      placed[o.id - 1] := o;
      rest := rest - {name};
    }
    forall k | 0 <= k < |objects|
      ensures placed[k] == objects[order[k]]
    {
      assert order[k] in objects.Keys;
    }
  }

  /** Writes the body of each object, in id order, into a fresh buffer, each
      at the offset it will have in the image, and stops at the first one
      that fails. results are the bodies the objects describe beforehand. */
  method WriteBodies(oarray: array<LMSObject?>, ghost os: seq<LMSObject>, ghost results: seq<Result<seq<byte>>>,
                     ghost pool: set<LMSObject>)
    returns (r: Result<()>, all: OutStream, ghost bodies: seq<seq<byte>>)
    requires oarray.Length == |os| == |results| < TWO_31
    requires forall k :: 0 <= k < |os| ==> os[k] in pool
    requires forall k :: 0 <= k < |os| ==> oarray[k] == os[k]
    requires forall k :: 0 <= k < |os| ==> os[k].id == k + 1
    requires forall k :: 0 <= k < |os| ==> os[k].IoShaped() && os[k].Body() == results[k]
    requires RecordsOk(os)
    modifies pool`offsetToInstructions
    ensures fresh(all) && RecordsOk(os)
    ensures forall k :: 0 <= k < |os| ==>
              os[k].IoShaped() && IsInt32(os[k].offsetToInstructions) && os[k].implementation == old(os[k].implementation)
    ensures r.Ok? <==> AllOk(results)
    ensures r.Ok? ==> bodies == Values(results) && all.bytes == Flatten(bodies)
    ensures r.Ok? ==> forall k :: 0 <= k < |os| ==> Placed(os[k], Offsets(16 + 12 * |os|, bodies)[k])
  {
    all := new OutStream();
    var n := oarray.Length;
    var headersize := 16 + 12 * n;
    var i := 0;
    bodies := [];
    ghost var offsets := [];
    LaidStart(results, headersize);
    while i < n
      invariant 0 <= i <= n && fresh(all)
      invariant Progress(os, results, i, bodies, offsets, headersize) && all.bytes == Flatten(bodies)
    {
      var o := oarray[i];
      var offset := Wrap32(headersize + |all.bytes|);
      var res := WriteNext(o, offset, os, results, i, all, bodies, offsets, headersize);
      if res.Err? {
        return Err(res.msg), all, bodies;
      }
      offsets := offsets + [offset];
      bodies := bodies + [results[i].value];
      i := i + 1;
    }
    assert i == |os|;
    BodiesPlaced(os, results, bodies, offsets, headersize);
    r := Ok(());
  }

  /** The first i bodies are laid out, every offset fits in 32 bits, every
      alias is among the objects and the first i objects are placed. */
  ghost predicate Progress(os: seq<LMSObject>, results: seq<Result<seq<byte>>>, i: nat, bodies: seq<seq<byte>>,
                           offsets: seq<int>, h: int)
    reads os
  {
    i <= |os| && Laid(results, i, bodies, offsets, h) && RecordsOk(os)
    && forall k :: 0 <= k < i ==> Placed(os[k], offsets[k])
  }

  /** Writes the body of the object with index i, right after the bodies
      before it. */
  method WriteNext(o: LMSObject, offset: int, ghost os: seq<LMSObject>, ghost results: seq<Result<seq<byte>>>,
                   ghost i: nat, all: OutStream, ghost bodies: seq<seq<byte>>, ghost offsets: seq<int>, ghost h: int)
    returns (res: Result<()>)
    requires offset == Wrap32(h + |all.bytes|)
    requires i < |results| == |os| && o == os[i] && forall k :: 0 <= k < |os| ==> os[k].id == k + 1
    requires o.IoShaped() && o.Body() == results[i]
    requires Progress(os, results, i, bodies, offsets, h) && all.bytes == Flatten(bodies)
    modifies o`offsetToInstructions, all
    ensures RecordsOk(os)
    ensures res.Err? ==> !AllOk(results)
    ensures res.Ok? ==> results[i].Ok? && Progress(os, results, i + 1, bodies + [results[i].value], offsets + [offset], h)
                        && all.bytes == Flatten(bodies + [results[i].value])
  {
    res := o.WriteBody(all, offset);
    if res.Err? {
      assert !results[i].Ok?;
      return;
    }
    LaidNext(results, i, bodies, offsets, h);
    forall k | 0 <= k < i
      ensures Placed(os[k], (offsets + [offset])[k])
    {
      assert os[k].id != o.id;
    }
  }

  /** Once every body is written, the objects are placed at the offsets
      of their bodies. */
  lemma BodiesPlaced(os: seq<LMSObject>, results: seq<Result<seq<byte>>>, bodies: seq<seq<byte>>, offsets: seq<int>, h: int)
    requires |os| == |results| && h == 16 + 12 * |os| && Progress(os, results, |os|, bodies, offsets, h)
    ensures RecordsOk(os) && AllOk(results) && bodies == Values(results)
    ensures forall k :: 0 <= k < |os| ==> Placed(os[k], Offsets(16 + 12 * |os|, bodies)[k])
  {
    LaidAll(results, bodies, offsets, h);
  }

  /** The first i bodies were written without error, one after the other,
      each at its offset after a header of h bytes. */
  predicate Laid(results: seq<Result<seq<byte>>>, i: nat, bodies: seq<seq<byte>>, offsets: seq<int>, h: int)
    ensures Laid(results, i, bodies, offsets, h) ==> |bodies| == |offsets| == i
  {
    i <= |results| && AllOk(results[..i]) && bodies == Values(results[..i]) && offsets == Offsets(h, bodies)
  }

  /** Before the first body nothing is laid out. */
  lemma LaidStart(results: seq<Result<seq<byte>>>, h: int)
    ensures Laid(results, 0, [], [], h)
  {
    assert results[..0] == [];
  }

  /** One more body written without error extends the bodies, their
      concatenation and their offsets. */
  lemma LaidNext(results: seq<Result<seq<byte>>>, i: nat, bodies: seq<seq<byte>>, offsets: seq<int>, h: int)
    requires i < |results| && results[i].Ok? && Laid(results, i, bodies, offsets, h)
    ensures Laid(results, i + 1, bodies + [results[i].value], offsets + [Wrap32(h + |Flatten(bodies)|)], h)
    ensures Flatten(bodies + [results[i].value]) == Flatten(bodies) + results[i].value
  {
    ValuesNext(results, i);
    FlattenSnoc(bodies, results[i].value);
    OffsetsNext(h, bodies, results[i].value);
  }

  /** Once every body is written, they are all the bodies. */
  lemma LaidAll(results: seq<Result<seq<byte>>>, bodies: seq<seq<byte>>, offsets: seq<int>, h: int)
    requires Laid(results, |results|, bodies, offsets, h)
    ensures AllOk(results) && bodies == Values(results) && offsets == Offsets(h, Values(results))
  {
    PrefixAll(results);
  }

  /** after is before followed by the image of the objects whose bodies
      are results: the image header, the object headers as they stand now
      and the bodies; and each object with code of its own is placed at
      the offset of its body in the image. */
  ghost predicate Output(before: seq<byte>, after: seq<byte>, os: seq<LMSObject>, results: seq<Result<seq<byte>>>,
                         globalBytes: int)
    reads os, set o | o in os :: o.locals
  {
    |results| == |os| && AllOk(results) && RecordsOk(os)
    && after == before + Image(Records(Infos(os, |os|)), Values(results), globalBytes)
    && forall k :: 0 <= k < |os| ==> Placed(os[k], Offsets(16 + 12 * |os|, Values(results))[k])
  }

  /** The objects placed into an array by id, then written out. */
  method WriteSorted(objects: map<string, LMSObject>, ghost order: seq<string>, ghost os: seq<LMSObject>,
                     globalBytes: int, target: OutStream) returns (r: Result<()>)
    requires Numbered(objects, order) && |objects| < TWO_31
    requires forall n :: n in order ==> n in objects
    requires os == InOrder(order, objects)
    requires forall k :: 0 <= k < |os| ==> os[k].IoShaped() && os[k].id == k + 1 && os[k] in objects.Values
    requires RecordsOk(os)
    modifies objects.Values`offsetToInstructions, target
    ensures forall k :: 0 <= k < |os| ==>
              os[k].IoShaped() && IsInt32(os[k].offsetToInstructions) && os[k].implementation == old(os[k].implementation)
    ensures r.Ok? <==> AllOk(old(Results(os)))
    ensures r.Err? ==> target.bytes == old(target.bytes)
    ensures r.Ok? ==> Output(old(target.bytes), target.bytes, os, old(Results(os)), globalBytes)
  {
    var oarray := SortById(objects, order);
    ghost var results := Results(os);
    assert results == old(Results(os));
    r := WriteOutput(oarray, os, results, objects.Values, globalBytes, target);
  }

  /** Writes the bodies of the objects, numbered in order, and then the
      whole image: nothing reaches target when a body fails. */
  method WriteOutput(oarray: array<LMSObject?>, ghost os: seq<LMSObject>, ghost results: seq<Result<seq<byte>>>,
                     ghost pool: set<LMSObject>, globalBytes: int, target: OutStream)
    returns (r: Result<()>)
    requires oarray.Length == |os| == |results| < TWO_31
    requires forall k :: 0 <= k < |os| ==> os[k] in pool
    requires forall k :: 0 <= k < |os| ==> oarray[k] == os[k]
    requires forall k :: 0 <= k < |os| ==> os[k].id == k + 1
    requires forall k :: 0 <= k < |os| ==> os[k].IoShaped() && os[k].Body() == results[k]
    requires RecordsOk(os)
    modifies pool`offsetToInstructions, target
    ensures forall k :: 0 <= k < |os| ==>
              os[k].IoShaped() && IsInt32(os[k].offsetToInstructions) && os[k].implementation == old(os[k].implementation)
    ensures r.Ok? <==> AllOk(results)
    ensures r.Err? ==> target.bytes == old(target.bytes)
    ensures r.Ok? ==> Output(old(target.bytes), target.bytes, os, results, globalBytes)
  {
    var all;
    ghost var bodies;
    r, all, bodies := WriteBodies(oarray, os, results, pool);
    if r.Err? {
      return;
    }
    WriteImage(oarray, os, results, all, bodies, globalBytes, target);
  }

  /** The image header, the object headers and the bodies, one after the
      other, once the bodies are laid out. */
  method WriteImage(oarray: array<LMSObject?>, ghost os: seq<LMSObject>, ghost results: seq<Result<seq<byte>>>,
                    all: OutStream, ghost bodies: seq<seq<byte>>, globalBytes: int, target: OutStream)
    requires oarray.Length == |os| == |results| && RecordsOk(os) && all != target
    requires forall k :: 0 <= k < |os| ==> oarray[k] == os[k]
    requires AllOk(results) && bodies == Values(results) && all.bytes == Flatten(bodies)
    requires forall k :: 0 <= k < |os| ==> Placed(os[k], Offsets(16 + 12 * |os|, bodies)[k])
    modifies target
    ensures Output(old(target.bytes), target.bytes, os, results, globalBytes)
  {
    ghost var start := target.bytes;
    ghost var image := start + Image(Records(Infos(os, |os|)), bodies, globalBytes);
    assert Output(start, image, os, results, globalBytes);
    var header := ImageHeader(oarray.Length, |all.bytes|, globalBytes);
    WriteParts(oarray, os, header, all, target);
  }

  /** The image header, the object headers and the bodies, written in one
      go; the objects are not touched. */
  method WriteParts(oarray: array<LMSObject?>, ghost os: seq<LMSObject>, header: seq<byte>, all: OutStream, target: OutStream)
    requires oarray.Length == |os| && RecordsOk(os) && all != target
    requires forall k :: 0 <= k < |os| ==> oarray[k] == os[k]
    modifies target
    ensures target.bytes == old(target.bytes) + (header + Flatten(Records(old(Infos(os, |os|)))) + all.bytes)
  {
    target.Write(header);
    ghost var records := WriteHeaders(oarray, os, target);
    target.Write(all.bytes);
    AppendThree(old(target.bytes), header, Flatten(records), all.bytes);
  }

  /** Writes the header of every object; records are the twelve bytes
      written for each. */
  method WriteHeaders(oarray: array<LMSObject?>, ghost os: seq<LMSObject>, target: OutStream)
    returns (ghost records: seq<seq<byte>>)
    requires oarray.Length == |os| && RecordsOk(os)
    requires forall k :: 0 <= k < |os| ==> oarray[k] == os[k]
    modifies target
    ensures records == Records(old(Infos(os, |os|))) && target.bytes == old(target.bytes) + Flatten(records)
  {
    ghost var infos := Infos(os, |os|);
    var i := 0;
    records := [];
    while i < oarray.Length
      invariant 0 <= i <= |os|
      invariant records == Records(infos[..i])
      invariant target.bytes == old(target.bytes) + Flatten(records)
    {
      var o := oarray[i];
      assert Info(os[i]) == infos[i];
      o.WriteHeader(target);
      ghost var h := HeaderRecord(infos[i]);
      RecordsNext(old(target.bytes), infos, records, i);
      records := records + [h];
      i := i + 1;
    }
    PrefixAll(infos);
  }

  /** One more header record extends the records of the first i entries. */
  lemma RecordsNext(b0: seq<byte>, infos: seq<HeaderInfo>, records: seq<seq<byte>>, i: nat)
    requires i < |infos| && records == Records(infos[..i])
    ensures records + [HeaderRecord(infos[i])] == Records(infos[..i + 1])
    ensures b0 + Flatten(records) + HeaderRecord(infos[i]) == b0 + Flatten(records + [HeaderRecord(infos[i])])
  {
    PrefixOfPrefix(infos, i);
    FlattenSnoc(records, HeaderRecord(infos[i]));
  }

  /** One more body written without error extends the bodies by it. */
  lemma ValuesNext(rs: seq<Result<seq<byte>>>, i: nat)
    requires i < |rs| && AllOk(rs[..i]) && rs[i].Ok?
    ensures AllOk(rs[..i + 1]) && Values(rs[..i + 1]) == Values(rs[..i]) + [rs[i].value]
  {
    assert rs[..i + 1][..i] == rs[..i];
  }

  /** One more part of the image starts where the parts before it end. */
  lemma OffsetsNext(h: int, parts: seq<seq<byte>>, last: seq<byte>)
    ensures Offsets(h, parts + [last]) == Offsets(h, parts) + [Wrap32(h + |Flatten(parts)|)]
  {
    assert (parts + [last])[..|parts|] == parts;
  }

  lemma FlattenSnoc(parts: seq<seq<byte>>, last: seq<byte>)
    ensures Flatten(parts + [last]) == Flatten(parts) + last
  {
    assert (parts + [last])[..|parts|] == parts;
  }
}
