/** The native helper that runs on the brick beside the VM: it answers
    "tablelookup <file> <bytes_per_row> <row> <column>" with the byte found at
    row * bytes_per_row + column in the file, or with the sentinel 255, either
    once from its arguments or for every line of its standard input. */
module NativeCode {
  import opened Common

  /** Largest step handed to one lseek call. */
  const MAXSEEK: nat := 2147483647

  /** The single failure value of every command. */
  const SENTINEL: int := 255

  const COMMAND_PREFIX: string := "tablelookup "

  const END_MESSAGE: string := "Ending native code process...\n"

  /** The two properties of the C implementation the result depends on: the
      width of unsigned long and whether plain char is signed. */
  datatype Platform = Platform(ulongBits: nat, charSigned: bool)

  /** The EV3 brick: 32-bit ARM, where plain char is unsigned. */
  const BRICK: Platform := Platform(32, false)

  /** The files the helper can open, by path; a path absent from the map
      cannot be opened. */
  type FileSystem = map<string, seq<byte>>

  // ------------------------------------------------- parsing the parameters

  /** The four values that sscanf(tail, "%s %f %f %f") stores; a float is
      modelled by the exact value of its decimal numeral. */
  datatype Request = Request(path: string, bytesPerRow: real, row: real, column: real)

  const BLANKS: set<char> := {' ', '\t', '\n', '\r', '\U{B}', '\U{C}'}

  /** The blanks of "%s" and "%f" are C's isspace. */
  lemma BlanksAreBlank(c: char)
    ensures c in BLANKS <==> IsNumberBlank(c)
  {
  }

  function Pow10(k: nat): (r: nat)
    ensures r >= 1
  {
    if k == 0 then 1 else 10 * Pow10(k - 1)
  }

  /** The longest prefix of s made of decimal digits. */
  function DigitRun(s: string): (d: string)
    ensures |d| <= |s| && d == s[..|d|] && AllDigits(d)
    ensures |d| < |s| ==> !IsDigit(s[|d|])
  {
    if s != [] && IsDigit(s[0]) then [s[0]] + DigitRun(s[1..]) else []
  }

  /** The value of the numeral intDigits.fracDigits. */
  function DecimalValue(intDigits: string, fracDigits: string): (v: real)
    requires AllDigits(intDigits) && AllDigits(fracDigits)
    ensures v >= 0.0
    ensures v.Floor == DigitsValue(intDigits)
  {
    var f := Fraction(fracDigits);
    var n := DigitsValue(intDigits);
    assert (n as real + f).Floor == n;
    n as real + f
  }

  /** The value of the digits after the decimal point. */
  function Fraction(fracDigits: string): (f: real)
    requires AllDigits(fracDigits)
    ensures 0.0 <= f < 1.0
  {
    var d := DigitsValue(fracDigits);
    var q := Pow10(|fracDigits|);
    FractionBelowOne(fracDigits);
    QuotientBelowOne(d, q);
    d as real / q as real
  }

  lemma QuotientBelowOne(d: nat, q: nat)
    requires d < q
    ensures 0.0 <= d as real / q as real < 1.0
  {
    assert d as real < q as real;
  }

  lemma {:induction false} FractionBelowOne(s: string)
    requires AllDigits(s)
    ensures DigitsValue(s) < Pow10(|s|)
  {
    if s != [] {
      FractionBelowOne(s[..|s| - 1]);
    }
  }

  /** One "%f" conversion: blanks, an optional sign, digits with an optional
      fraction and at least one digit in all; the value and the rest. */
  function ScanFloat(s: string): (r: Option<(real, string)>)
    ensures r.Some? ==> |r.value.1| < |s|
  {
    var t := NumberTrimStart(s);
    var neg := t != [] && t[0] == '-';
    var u := if t != [] && (t[0] == '-' || t[0] == '+') then t[1..] else t;
    var whole := DigitRun(u);
    var afterWhole := u[|whole|..];
    var frac := if afterWhole != [] && afterWhole[0] == '.' then DigitRun(afterWhole[1..]) else [];
    var used := |whole| + (if afterWhole != [] && afterWhole[0] == '.' then 1 + |frac| else 0);
    if |whole| + |frac| == 0 then None
    else
      var v := DecimalValue(whole, frac);
      Some((if neg then -v else v, u[used..]))
  }

  /** One "%s" conversion: blanks, then the non-empty run of non-blanks. */
  function ScanWord(s: string): (r: Option<(string, string)>)
    ensures r.Some? ==> r.value.0 != [] && |r.value.1| < |s|
    ensures r.Some? ==> forall c :: c in r.value.0 ==> !IsNumberBlank(c)
  {
    var t := NumberTrimStart(s);
    var w := Word(t, BLANKS);
    if w == [] then None
    else
      assert forall c :: c in w ==> !IsNumberBlank(c) by {
        forall c | c in w ensures !IsNumberBlank(c) { BlanksAreBlank(c); }
      }
      Some((w, t[|w|..]))
  }

  /** sscanf(tail, "%s %f %f %f") == 4, with the values it stores. */
  function ScanRequest(tail: string): Option<Request>
  {
    match ScanWord(tail)
    case None => None
    case Some((path, r1)) =>
      match ScanFloat(r1)
      case None => None
      case Some((bpr, r2)) =>
        match ScanFloat(r2)
        case None => None
        case Some((row, r3)) =>
          match ScanFloat(r3)
          case None => None
          case Some((column, _)) => Some(Request(path, bpr, row, column))
  }

  // ---------------------------------------------------- the offset and byte

  predicate InRange(q: Request) { q.bytesPerRow >= 1.0 && q.row >= 0.0 && q.column >= 0.0 }

  /** The cast (unsigned long) of a non-negative float: truncation toward
      zero, reduced to the platform's width. */
  function ToULong(x: real, p: Platform): (r: nat)
    requires x >= 0.0
    ensures r < Pow2(p.ulongBits)
  {
    x.Floor % Pow2(p.ulongBits)
  }

  /** The offset of the wanted byte, computed in unsigned long arithmetic. */
  function Offset(q: Request, p: Platform): (r: nat)
    requires InRange(q)
    ensures r < Pow2(p.ulongBits)
  {
    (ToULong(q.bytesPerRow, p) * ToULong(q.row, p) + ToULong(q.column, p)) % Pow2(p.ulongBits)
  }

  /** As long as nothing wraps around, the offset is the row-major position
      of the cell: row whole rows of bytesPerRow bytes, then column bytes,
      each value truncated toward zero. */
  lemma OffsetIsRowMajor(q: Request, p: Platform)
    requires InRange(q)
    requires q.bytesPerRow.Floor * q.row.Floor + q.column.Floor < Pow2(p.ulongBits)
    ensures Offset(q, p) == q.bytesPerRow.Floor * q.row.Floor + q.column.Floor
  {
    NoWrap(q.bytesPerRow.Floor, q.row.Floor, q.column.Floor, Pow2(p.ulongBits));
  }

  /** In general the offset is the row-major position reduced modulo
      2^ulongBits: unsigned arithmetic wraps around exactly once at the end. */
  lemma OffsetWrapsAround(q: Request, p: Platform)
    requires InRange(q)
    ensures Offset(q, p) == (q.bytesPerRow.Floor * q.row.Floor + q.column.Floor) % Pow2(p.ulongBits)
  {
    ReducedFactors(q.bytesPerRow.Floor, q.row.Floor, q.column.Floor, Pow2(p.ulongBits));
  }

  /** Reducing the factors and the summand modulo m before the arithmetic
      leaves the result modulo m unchanged. */
  lemma ReducedFactors(b: int, r: int, c: int, m: int)
    requires m > 0
    ensures ((b % m) * (r % m) + c % m) % m == (b * r + c) % m
  {
    var qb, rb := b / m, b % m;
    var qr, rr := r / m, r % m;
    var qc, rc := c / m, c % m;
    assert b * r == m * (qb * r + rb * qr) + rb * rr by {
      assert b == m * qb + rb;
      assert r == m * qr + rr;
      calc {
        b * r;
        (m * qb + rb) * r;
        m * qb * r + rb * r;
        m * qb * r + rb * (m * qr + rr);
        m * (qb * r + rb * qr) + rb * rr;
      }
    }
    var k := qb * r + rb * qr + qc;
    assert b * r + c == m * k + (rb * rr + rc);
    var x := rb * rr + rc;
    var t := x / m;
    ModUnique(b * r + c, m, k + t, x % m);
  }

  /** Reducing the factors and the sum modulo m changes nothing when the
      result is below m. */
  lemma NoWrap(b: int, r: int, c: int, m: int)
    requires b >= 1 && r >= 0 && c >= 0 && b * r + c < m
    ensures ((b % m) * (r % m) + c % m) % m == b * r + c
  {
    var br := b * r;
    FactorsBelow(b, r);
    ModUnique(r, m, 0, r);
    ModUnique(c, m, 0, c);
    if r >= 1 {
      ModUnique(b, m, 0, b);
    }
    ModUnique(br + c, m, 0, br + c);
  }

  /** A product of non-negative factors, the first at least 1, is at
      least the second factor, and at least the first unless it is 0. */
  lemma FactorsBelow(b: int, r: int)
    requires b >= 1 && r >= 0
    ensures r <= b * r && (r >= 1 ==> b <= b * r)
  {
    assert b * r == (b - 1) * r + r;
    assert b * r == b * (r - 1) + b;
    assert (b - 1) * r >= 0;
    if r >= 1 {
      assert b * (r - 1) >= 0;
    }
  }

  /** The int that `return value;` yields for a char holding byte b. */
  function CharValue(b: byte, p: Platform): (r: int)
    ensures p.charSigned ==> -128 <= r < 128 && (r - b) % 256 == 0
    ensures !p.charSigned ==> r == b
  {
    if p.charSigned && b >= 128 then b - 256 else b
  }

  /** What tablelookup(tail) returns. */
  function LookupResult(tail: string, fs: FileSystem, p: Platform): int
  {
    match ScanRequest(tail)
    case None => SENTINEL
    case Some(q) =>
      if !InRange(q) || q.path !in fs then SENTINEL
      else
        var off := Offset(q, p);
        if off < |fs[q.path]| then CharValue(fs[q.path][off], p) else SENTINEL
  }

  /** The steps the seek loop hands to lseek for a total offset. */
  function SeekSteps(off: nat): seq<nat>
    decreases off
  {
    if off == 0 then []
    else if off <= MAXSEEK then [off]
    else [MAXSEEK] + SeekSteps(off - MAXSEEK)
  }

  function Sum(s: seq<nat>): nat
  {
    if s == [] then 0 else s[0] + Sum(s[1..])
  }

  /** The seek loop lands exactly on the offset, in steps of at most MAXSEEK,
      and performs no seek at all for offset 0. */
  lemma {:induction false} SeekStepsExact(off: nat)
    ensures Sum(SeekSteps(off)) == off
    ensures forall k :: 0 <= k < |SeekSteps(off)| ==> 0 < SeekSteps(off)[k] <= MAXSEEK
    ensures off == 0 <==> SeekSteps(off) == []
    decreases off
  {
    if off > MAXSEEK {
      SeekStepsExact(off - MAXSEEK);
      assert SeekSteps(off)[1..] == SeekSteps(off - MAXSEEK);
    }
  }

  // ------------------------------------------------- the open descriptor

  /** An open file descriptor: the file's bytes, the current position, the
      lseek steps applied so far, and whether it is still open. */
  class Descriptor {
    const content: seq<byte>
    var pos: nat
    var seeks: seq<nat>
    var isOpen: bool

    constructor Open(content: seq<byte>)
      ensures this.content == content && pos == 0 && seeks == [] && isOpen
    {
      this.content := content;
      pos := 0;
      seeks := [];
      isOpen := true;
    }

    /** lseek(fd, n, SEEK_CUR); a position beyond the end is allowed. */
    method SeekForward(n: nat)
      requires isOpen
      modifies this
      ensures pos == old(pos) + n && seeks == old(seeks) + [n] && isOpen
    {
      pos := pos + n;
      seeks := seeks + [n];
    }

    /** read(fd, &value, 1): the count read and the byte. */
    method ReadOne() returns (count: int, value: byte)
      requires isOpen
      modifies this
      ensures isOpen && seeks == old(seeks)
      ensures count == (if old(pos) < |content| then 1 else 0)
      ensures count == 1 ==> value == content[old(pos)] && pos == old(pos) + 1
      ensures count == 0 ==> pos == old(pos)
    {
      if pos < |content| {
        count, value := 1, content[pos];
        pos := pos + 1;
      } else {
        count, value := 0, 0;
      }
    }

    method Close()
      modifies this
      ensures !isOpen && pos == old(pos) && seeks == old(seeks)
    {
      isOpen := false;
    }
  }

  /** The seek loop of tablelookup: steps of MAXSEEK while more than MAXSEEK
      remains, then one step for the remainder. */
  method SeekInChunks(fd: Descriptor, total: nat)
    requires fd.isOpen
    modifies fd
    ensures fd.isOpen && fd.pos == old(fd.pos) + total
    ensures fd.seeks == old(fd.seeks) + SeekSteps(total)
  {
    var off: nat := total;
    while off > 0
      invariant fd.isOpen
      invariant fd.pos + off == old(fd.pos) + total
      invariant fd.seeks + SeekSteps(off) == old(fd.seeks) + SeekSteps(total)
      decreases off
    {
      if off <= MAXSEEK {
        fd.SeekForward(off);
        off := 0;
      } else {
        assert SeekSteps(off) == [MAXSEEK] + SeekSteps(off - MAXSEEK);
        fd.SeekForward(MAXSEEK);
        off := off - MAXSEEK;
      }
    }
  }

  /** tablelookup: parse, validate, open, seek in bounded steps, read one byte
      and close. fd is the descriptor it opened, if any. */
  method TableLookup(tail: string, fs: FileSystem, p: Platform) returns (result: int, fd: Descriptor?)
    ensures result == LookupResult(tail, fs, p)
    ensures ScanRequest(tail).None? ==> result == SENTINEL && fd == null
    ensures ScanRequest(tail).Some? && !InRange(ScanRequest(tail).value) ==> result == SENTINEL && fd == null
    ensures ScanRequest(tail).Some? && ScanRequest(tail).value.path !in fs ==> result == SENTINEL && fd == null
    ensures fd != null ==> !fd.isOpen
    ensures ScanRequest(tail).Some? && InRange(ScanRequest(tail).value) && ScanRequest(tail).value.path in fs ==> fd != null
    ensures fd != null ==>
      var q := ScanRequest(tail).value;
      InRange(q) && q.path in fs && fd.content == fs[q.path] && fd.seeks == SeekSteps(Offset(q, p))
  {
    var scanned := ScanRequest(tail);
    if scanned.None? {
      return SENTINEL, null;
    }
    var q := scanned.value;
    if q.bytesPerRow < 1.0 || q.row < 0.0 || q.column < 0.0 {
      return SENTINEL, null;
    }
    if q.path !in fs {
      return SENTINEL, null;
    }
    fd := new Descriptor.Open(fs[q.path]);
    var total := Offset(q, p);
    SeekInChunks(fd, total);
    assert fd.pos == total;
    var didread, value := fd.ReadOne();
    fd.Close();
    if didread != 1 {
      return SENTINEL, fd;
    }
    result := CharValue(value, p);
  }

  // --------------------------------------------------------- dispatching

  /** strstr(buffer, "tablelookup ") == buffer: the first occurrence of the
      keyword is at the very start, which is the case exactly when the buffer
      begins with it. */
  lemma FirstOccurrenceAtStart(buffer: string)
    ensures Find(buffer, COMMAND_PREFIX) == 0 <==> StartsWith(buffer, COMMAND_PREFIX)
  {
  }

  /** What processcommand(buffer) returns. */
  function CommandResult(buffer: string, fs: FileSystem, p: Platform): int
  {
    if StartsWith(buffer, COMMAND_PREFIX) then LookupResult(buffer[|COMMAND_PREFIX|..], fs, p) else SENTINEL
  }

  method ProcessCommand(buffer: string, fs: FileSystem, p: Platform) returns (r: int)
    ensures r == CommandResult(buffer, fs, p)
  {
    if Find(buffer, COMMAND_PREFIX) == 0 {
      var fd;
      r, fd := TableLookup(buffer[12..], fs, p);
    } else {
      r := SENTINEL;
    }
  }

  /** Every result is a byte, or 255, or (with a signed plain char) a
      negative value congruent to the byte. */
  lemma ResultRange(buffer: string, fs: FileSystem, p: Platform)
    ensures !p.charSigned ==> 0 <= CommandResult(buffer, fs, p) <= 255
    ensures p.charSigned ==> -128 <= CommandResult(buffer, fs, p) <= 255
  {
  }

  // ----------------------------------------------------------- run modes

  /** The copy into buffer of argv[1] and then, for every further argument,
      " " and the argument. */
  method JoinArguments(argv: seq<string>) returns (buffer: string)
    requires |argv| > 1
    ensures buffer == Join(argv[1..], " ")
  {
    buffer := argv[1];
    var i := 2;
    while i < |argv|
      invariant 2 <= i <= |argv|
      invariant buffer + (if i < |argv| then " " + Join(argv[i..], " ") else []) == Join(argv[1..], " ")
    {
      JoinStep(argv[1..], i - 1);
      assert argv[1..][i - 1..] == argv[i..];
      buffer := buffer + " " + argv[i];
      i := i + 1;
    }
  }

  /** Join peels off its first part. */
  lemma JoinStep(parts: seq<string>, k: nat)
    requires k < |parts|
    ensures Join(parts[k..], " ") == parts[k] + (if k + 1 < |parts| then " " + Join(parts[k + 1..], " ") else [])
  {
    assert parts[k..][1..] == parts[k + 1..];
  }

  /** fgets(buffer, 1000, stdin) on the remaining input: up to and including
      the first newline, at most 999 characters; None at end of input. */
  function ReadLine(input: string): (r: Option<(string, string)>)
    ensures input == [] <==> r.None?
    ensures r.Some? ==> r.value.0 != [] && r.value.0 + r.value.1 == input && |r.value.0| <= 999
  {
    if input == [] then None
    else
      var nl := IndexOf(input, '\n');
      var n := if 0 <= nl < 999 then nl + 1 else if |input| < 999 then |input| else 999;
      Some((input[..n], input[n..]))
  }

  /** What the helper writes to standard output. */
  datatype OutputEvent = Text(s: string) | Flush

  /** Pipe mode for a given way of answering a line: one decimal line and a
      flush per line read, then the termination message. */
  function Session(input: string, respond: string -> int): seq<OutputEvent>
    decreases |input|
  {
    match ReadLine(input)
    case None => [Text(END_MESSAGE)]
    case Some((line, rest)) => [Text(IntToString(respond(line)) + "\n"), Flush] + Session(rest, respond)
  }

  /** processcommand as the way pipe mode answers a line. */
  function Responder(fs: FileSystem, p: Platform): string -> int
  {
    line => CommandResult(line, fs, p)
  }

  /** The number of lines fgets hands to processcommand. */
  function LineCount(input: string): nat
    decreases |input|
  {
    match ReadLine(input)
    case None => 0
    case Some((_, rest)) => 1 + LineCount(rest)
  }

  /** Exactly one result line and one flush per input line, then the
      termination message. */
  lemma {:induction false} SessionShape(input: string, respond: string -> int)
    ensures |Session(input, respond)| == 2 * LineCount(input) + 1
    ensures forall k :: 0 <= k < LineCount(input) ==> Session(input, respond)[2 * k + 1] == Flush
    ensures Session(input, respond)[2 * LineCount(input)] == Text(END_MESSAGE)
    decreases |input|
  {
    if ReadLine(input).Some? {
      var rest := ReadLine(input).value.1;
      SessionShape(rest, respond);
      var x := SessionStep(input, respond);
      ShapeStep(x, Session(rest, respond), LineCount(rest));
    }
  }

  /** One line read: its answer and a flush come before the rest of the session. */
  lemma SessionStep(input: string, respond: string -> int) returns (x: OutputEvent)
    requires ReadLine(input).Some?
    ensures var rest := ReadLine(input).value.1;
      Session(input, respond) == [x, Flush] + Session(rest, respond) && LineCount(input) == LineCount(rest) + 1
  {
    var line := ReadLine(input).value.0;
    x := Text(IntToString(respond(line)) + "\n");
  }

  lemma ShapeStep(x: OutputEvent, tail: seq<OutputEvent>, n: nat)
    requires |tail| == 2 * n + 1 && tail[2 * n] == Text(END_MESSAGE)
    requires forall k :: 0 <= k < n ==> tail[2 * k + 1] == Flush
    ensures var out := [x, Flush] + tail;
      |out| == 2 * (n + 1) + 1 && out[2 * (n + 1)] == Text(END_MESSAGE)
      && forall k :: 0 <= k < n + 1 ==> out[2 * k + 1] == Flush
  {
    var out := [x, Flush] + tail;
    forall k | 1 <= k < n + 1
      ensures out[2 * k + 1] == Flush
    {
      assert out[2 * k + 1] == tail[2 * (k - 1) + 1];
    }
  }

  /** main: with arguments, the joined command is processed once and its
      result is the exit status (reduced modulo 256 by exit); without, the
      pipe loop runs and main returns 0. */
  method RunNative(argv: seq<string>, stdin: string, fs: FileSystem, p: Platform)
    returns (status: int, out: seq<OutputEvent>)
    requires |argv| >= 1
    ensures |argv| > 1 ==> out == [] && status == CommandResult(Join(argv[1..], " "), fs, p) % 256
    ensures |argv| == 1 ==> status == 0 && out == Session(stdin, Responder(fs, p))
  {
    if |argv| > 1 {
      var buffer := JoinArguments(argv);
      var r := ProcessCommand(buffer, fs, p);
      return r % 256, [];
    }
    out := [];
    var rest := stdin;
    while ReadLine(rest).Some?
      invariant out + Session(rest, Responder(fs, p)) == Session(stdin, Responder(fs, p))
      decreases |rest|
    {
      var line := ReadLine(rest).value.0;
      var r := ProcessCommand(line, fs, p);
      assert Responder(fs, p)(line) == r;
      rest := ReadLine(rest).value.1;
      out := out + [Text(IntToString(r) + "\n"), Flush];
    }
    out := out + [Text(END_MESSAGE)];
    status := 0;
  }

  lemma CommandIsLookup(buffer: string, fs: FileSystem, p: Platform)
    requires StartsWith(buffer, COMMAND_PREFIX)
    ensures CommandResult(buffer, fs, p) == LookupResult(buffer[12..], fs, p)
  {
  }

  lemma LookupFound(tail: string, fs: FileSystem, p: Platform, q: Request)
    requires ScanRequest(tail) == Some(q) && InRange(q) && q.path in fs
    requires Offset(q, p) < |fs[q.path]|
    ensures LookupResult(tail, fs, p) == CharValue(fs[q.path][Offset(q, p)], p)
  {
  }

  /** On the brick a successful lookup reports the byte itself, and in
      single-call mode the exit status is the byte whatever the signedness of
      char. */
  lemma ExitStatusIsByte(buffer: string, fs: FileSystem, p: Platform, q: Request)
    requires StartsWith(buffer, COMMAND_PREFIX)
    requires ScanRequest(buffer[12..]) == Some(q) && InRange(q) && q.path in fs
    requires Offset(q, p) < |fs[q.path]|
    ensures CommandResult(buffer, fs, p) % 256 == fs[q.path][Offset(q, p)]
    ensures p == BRICK ==> CommandResult(buffer, fs, p) == fs[q.path][Offset(q, BRICK)]
  {
    CommandIsLookup(buffer, fs, p);
    LookupFound(buffer[12..], fs, p, q);
    CharValueModulo(fs[q.path][Offset(q, p)], p);
  }

  lemma CharValueModulo(b: byte, p: Platform)
    ensures CharValue(b, p) % 256 == b
  {
  }
}
