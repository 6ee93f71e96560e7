/** The parts of the Basic compiler that are not the parser itself: the
    escaping of text literals for the assembler, the decoding of the native
    helper's hexadecimal image, the reading of the runtime library, the
    closure of library references, the call structure between subs and
    functions, and the rule that fixes the type of a variable. */
module BasicCompiler {
  import opened Common
  import opened ExpressionTypes
  import opened LibraryEntries
  import opened FunctionDefinitions
  import opened ByteFunctions
  import LMSAssembler

  // ---------------------------------------------------- text literals

  /** A character's code, with codes outside 1..255 replaced by 1. */
  function Clamp(code: int): (c: int)
    ensures 1 <= c <= 255
    ensures 1 <= code <= 255 ==> c == code
  {
    if code <= 0 || code > 255 then 1 else code
  }

  /** Codes the assembler cannot take literally inside a quoted string. */
  predicate NeedsEscape(c: int)
  {
    c < 32 || c > 127 || c == '\'' as int || c == '\\' as int
  }

  /** The replacement of one character: a backslash and three octal digits,
      or the character itself. */
  function EscapeChar(ch: char): (r: string)
  {
    var c := Clamp(CodeOf(ch));
    if NeedsEscape(c) then ['\\', DigitChar(c / 64), DigitChar((c / 8) % 8), DigitChar(c % 8)]
    else [ch]
  }

  /** The text EscapeString returns: every character replaced in turn. */
  function Escaped(v: string): string
  {
    if v == [] then [] else EscapeChar(v[0]) + Escaped(v[1..])
  }

  predicate Printable(s: string)
  {
    forall k :: 0 <= k < |s| ==> 32 <= s[k] as int <= 127 && s[k] != '\''
  }

  /** Every character of an escaped text is printable ASCII and none is a
      quote, so it can stand between the quotes of an assembler string. */
  lemma {:induction false} EscapedPrintable(v: string)
    ensures Printable(Escaped(v))
  {
    if v != [] {
      EscapedPrintable(v[1..]);
      var e := EscapeChar(v[0]);
      var c := Clamp(CodeOf(v[0]));
      assert Printable(e) by {
        if !NeedsEscape(c) {
          assert CodeOf(v[0]) == v[0] as int;
        }
      }
      assert Escaped(v) == e + Escaped(v[1..]);
    }
  }

  /** The character the assembler reads back: the character itself when its
      code is 1..255, else the character with code 1. */
  function ClampChar(ch: char): char
  {
    Clamp(CodeOf(ch)) as char
  }

  function Clamped(v: string): (r: string)
    ensures |r| == |v|
  {
    if v == [] then [] else [ClampChar(v[0])] + Clamped(v[1..])
  }

  /** Escaping one more character appends its replacement. */
  lemma {:induction false} EscapedSnoc(v: string, ch: char)
    ensures Escaped(v + [ch]) == Escaped(v) + EscapeChar(ch)
    decreases |v|
  {
    if v == [] {
      assert [] + [ch] == [ch];
      assert [ch][1..] == [];
    } else {
      assert (v + [ch])[1..] == v[1..] + [ch];
      EscapedSnoc(v[1..], ch);
    }
  }

  /** Rewrites the text in place: an escaped character is replaced by its
      four-character escape and the cursor moves past it. */
  method EscapeString(v: string) returns (s: string)
    ensures s == Escaped(v)
  {
    s := v;
    var i := 0;
    ghost var j := 0;
    while i < |s|
      invariant 0 <= j <= |v|
      invariant i == |Escaped(v[..j])|
      invariant s == Escaped(v[..j]) + v[j..]
      decreases |v| - j
    {
      ghost var pre := Escaped(v[..j]);
      Unfolded(v, j);
      assert s == pre + [v[j]] + v[j + 1..];
      var c := Clamp(CodeOf(s[i]));
      if NeedsEscape(c) {
        var esc := ['\\', DigitChar(c / 64), DigitChar((c / 8) % 8), DigitChar(c % 8)];
        Replaced(s, pre, v[j], v[j + 1..], esc);
        s := s[..i] + esc + s[i + 1..];
        i := i + |esc| - 1;
        assert esc == EscapeChar(v[j]);
      } else {
        assert [v[j]] == EscapeChar(v[j]);
      }
      i := i + 1;
      EscapedSnoc(v[..j], v[j]);
      assert v[..j + 1] == v[..j] + [v[j]];
      assert s == Escaped(v[..j + 1]) + v[j + 1..];
      j := j + 1;
    }
    assert v[..j] == v;
  }

  lemma Unfolded(v: string, j: nat)
    requires j < |v|
    ensures v[j..] == [v[j]] + v[j + 1..]
  {
  }

  lemma Replaced(s: string, pre: string, x: char, post: string, esc: string)
    requires s == pre + [x] + post
    ensures s[|pre|] == x
    ensures s[..|pre|] + esc + s[|pre| + 1..] == pre + esc + post
  {
    assert s[..|pre|] == pre;
    assert s[|pre| + 1..] == post;
  }

  lemma OctalDigits(c: int)
    requires 0 <= c < 256
    ensures 64 * (c / 64) + 8 * ((c / 8) % 8) + c % 8 == c
  {
    var q := c / 8;
    assert c == 8 * q + c % 8;
    assert q == 8 * (q / 8) + q % 8;
    assert q / 8 == c / 64;
  }

  /** The assembler reads one replacement back as the clamped character. */
  lemma UnescapeOne(ch: char, rest: string)
    ensures LMSAssembler.Unescaped(EscapeChar(ch) + rest) == [ClampChar(ch)] + LMSAssembler.Unescaped(rest)
  {
    var e := EscapeChar(ch);
    var s := e + rest;
    var c := Clamp(CodeOf(ch));
    if NeedsEscape(c) {
      assert s[0] == '\\' && |s| > 3 && s[1] == DigitChar(c / 64);
      assert s[1..4] == e[1..4];
      assert s[4..] == rest;
      OctalDigits(c);
      assert LMSAssembler.DecodeOctal(e[1..4]) == c;
      assert LMSAssembler.OctalChar(e[1..4]) == ClampChar(ch);
    } else {
      assert s[0] == ch && s[1..] == rest;
      assert CodeOf(ch) == ch as int;
    }
  }

  /** Escaping then unescaping gives back the text, out-of-range characters
      as code 1. */
  lemma {:induction false} UnescapeEscaped(v: string, t: string)
    ensures LMSAssembler.Unescaped(Escaped(v) + t) == Clamped(v) + LMSAssembler.Unescaped(t)
    decreases |v|
  {
    if v == [] {
      assert Escaped(v) + t == t;
    } else {
      var x := ClampChar(v[0]);
      var cs := Clamped(v[1..]);
      assert Clamped(v) == [x] + cs;
      var rest := Escaped(v[1..]) + t;
      assert Escaped(v) + t == EscapeChar(v[0]) + rest;
      var u := LMSAssembler.Unescaped(t);
      assert [x] + (cs + u) == ([x] + cs) + u;
      UnescapeOne(v[0], rest);
      UnescapeEscaped(v[1..], t);
    }
  }

  /** The quoted literal unescapes to the quoted clamped text. */
  lemma UnescapedLiteral(v: string)
    ensures LMSAssembler.Unescaped("'" + Escaped(v) + "'") == "'" + Clamped(v) + "'"
  {
    var e := Escaped(v);
    var l := "'" + e + "'";
    assert l[0] == '\'' && l[1..] == e + "'";
    assert LMSAssembler.Unescaped(l) == "'" + LMSAssembler.Unescaped(e + "'");
    UnescapeEscaped(v, "'");
    assert LMSAssembler.Unescaped("'") == "'";
  }

  /** The closing quote of the literal is the first quote after the opening
      one. */
  lemma LiteralQuoteEnd(v: string)
    ensures LMSAssembler.QuoteEnd("'" + Escaped(v) + "'", 1) == Some(|Escaped(v)| + 1)
  {
    var e := Escaped(v);
    var l := "'" + e + "'";
    EscapedPrintable(v);
    assert l[|l| - 1] == '\'';
    assert forall k :: 1 <= k < |l| - 1 ==> l[k] == e[k - 1];
  }

  /** A text literal the compiler emits, "'" + EscapeString(v) + "'", is one
      token for the assembler's line tokenizer, and that token is the quoted
      text, out-of-range characters as code 1. */
  lemma QuotedLiteralToken(v: string)
    ensures LMSAssembler.Tokens("'" + Escaped(v) + "'", 0) == Ok(["'" + Clamped(v) + "'"])
  {
    var l := "'" + Escaped(v) + "'";
    LiteralQuoteEnd(v);
    UnescapedLiteral(v);
    assert l[0..|l|] == l;
    assert LMSAssembler.Tokens(l, |l|) == Ok([]);
    assert l[0] == '\'' && !LMSAssembler.Skipped(l[0]) && l[0] != '/' && |l| > 0;
    var q := LMSAssembler.QuoteEnd(l, 0 + 1);
    assert q == Some(|l| - 1);
    assert LMSAssembler.Tokens(l, 0) == LMSAssembler.Cons(LMSAssembler.Unescaped(l[0..q.value + 1]), LMSAssembler.Tokens(l, q.value + 1));
    var t := "'" + Clamped(v) + "'";
    assert LMSAssembler.Cons(t, Ok([])) == Ok([t] + []);
    assert [t] + [] == [t];
  }

  // ------------------------------------------------- hexadecimal images

  /** Convert.ToByte(s.Substring(2 * k, 2), 16) succeeds: two hexadecimal
      digits, or a '+' sign, which the conversion skips, and one digit. */
  predicate PairParses(s: string, k: nat)
    requires 2 * k + 1 < |s|
  {
    (s[2 * k] == '+' || HexValue(s[2 * k]).Some?) && HexValue(s[2 * k + 1]).Some?
  }

  predicate AllPairsParse(s: string)
  {
    forall k :: 0 <= k < |s| / 2 ==> PairParses(s, k)
  }

  /** The byte Convert.ToByte makes of the k-th pair of characters. */
  function PairValue(s: string, k: nat): (b: byte)
    requires 2 * k + 1 < |s| && PairParses(s, k)
  {
    if s[2 * k] == '+' then HexValue(s[2 * k + 1]).value
    else 16 * HexValue(s[2 * k]).value + HexValue(s[2 * k + 1]).value
  }

  /** Fills a fresh array with one byte per pair of hexadecimal digits. A
      text of odd length, or with a character that is no hexadecimal digit,
      makes the conversion throw. */
  method ToByteArray(hexString: string) returns (r: Result<seq<byte>>)
    ensures r.Ok? <==> |hexString| % 2 == 0 && AllPairsParse(hexString)
    ensures r.Ok? ==> |r.value| == |hexString| / 2
    ensures r.Ok? ==> forall k :: 0 <= k < |r.value| ==> r.value[k] == PairValue(hexString, k)
  {
    var retval := new byte[|hexString| / 2];
    var i := 0;
    while i < |hexString|
      invariant 0 <= i <= |hexString| && i % 2 == 0
      invariant forall k :: 0 <= k < i / 2 ==> PairParses(hexString, k)
      invariant forall k :: 0 <= k < i / 2 ==> retval[k] == PairValue(hexString, k)
    {
      if i + 2 > |hexString| {
        return Err("Index and length must refer to a location within the string.");
      }
      var hi := HexValue(hexString[i]);
      var lo := HexValue(hexString[i + 1]);
      if (hi.None? && hexString[i] != '+') || lo.None? {
        assert !PairParses(hexString, i / 2);
        return Err("Could not find any recognizable digits.");
      }
      retval[i / 2] := if hi.None? then lo.value else 16 * hi.value + lo.value;
      i := i + 2;
    }
    r := Ok(retval[..]);
  }

  /** The hexadecimal text of a byte sequence, two upper-case digits a byte. */
  function HexText(bs: seq<byte>): (h: string)
    ensures |h| == 2 * |bs|
  {
    if bs == [] then [] else ToHex(bs[0]) + HexText(bs[1..])
  }

  lemma HexDigitValue(d: int)
    requires 0 <= d < 16
    ensures HexValue(HexDigit(d)) == Some(d)
  {
  }

  /** The two digits of the k-th byte. */
  lemma {:induction false} HexTextAt(bs: seq<byte>, k: nat)
    requires k < |bs|
    ensures HexText(bs)[2 * k..2 * k + 2] == ToHex(bs[k])
    decreases k
  {
    var t := HexText(bs[1..]);
    assert HexText(bs) == ToHex(bs[0]) + t;
    if k > 0 {
      HexTextAt(bs[1..], k - 1);
      assert HexText(bs)[2 * k..2 * k + 2] == t[2 * (k - 1)..2 * (k - 1) + 2];
    }
  }

  lemma HexPair(bs: seq<byte>, k: nat)
    requires k < |bs|
    ensures 2 * k + 1 < |HexText(bs)|
    ensures HexValue(HexText(bs)[2 * k]) == Some(bs[k] / 16)
    ensures HexValue(HexText(bs)[2 * k + 1]) == Some(bs[k] % 16)
  {
    var h := HexText(bs);
    var b := bs[k];
    HexTextAt(bs, k);
    var hi, lo := ByteDigits(b);
    assert h[2 * k] == HexDigit(hi) && h[2 * k + 1] == HexDigit(lo);
    HexDigitValue(hi);
    HexDigitValue(lo);
  }

  /** The two digits ToHex writes for a byte. */
  lemma ByteDigits(b: byte) returns (hi: int, lo: int)
    ensures hi == b / 16 && lo == b % 16 && 0 <= hi < 16 && 0 <= lo < 16
    ensures ToHex(b) == [HexDigit(hi), HexDigit(lo)]
  {
    assert b % 256 == b;
    hi, lo := b / 16, b % 16;
  }

  /** The hexadecimal text of bytes is accepted by ToByteArray, and every pair
      reads back as the byte it was written from. */
  lemma HexTextPairs(bs: seq<byte>)
    ensures AllPairsParse(HexText(bs)) && |HexText(bs)| % 2 == 0
    ensures forall k :: 0 <= k < |bs| ==> PairValue(HexText(bs), k) == bs[k]
  {
    var h := HexText(bs);
    forall k | 0 <= k < |bs|
      ensures PairParses(h, k) && PairValue(h, k) == bs[k]
    {
      PairAt(bs, k);
    }
  }

  /** A pair made of a '+' sign and one digit is that digit's byte. */
  lemma SignedPairs()
    ensures AllPairsParse("+F0A") && PairValue("+F0A", 0) == 15 && PairValue("+F0A", 1) == 10
    ensures !AllPairsParse("-F")
  {
    assert HexValue('F') == Some(15) && HexValue('0') == Some(0) && HexValue('A') == Some(10);
    assert !PairParses("-F", 0);
  }

  lemma PairAt(bs: seq<byte>, k: nat)
    requires k < |bs|
    ensures 2 * k + 1 < |HexText(bs)|
    ensures HexValue(HexText(bs)[2 * k]).Some? && HexValue(HexText(bs)[2 * k + 1]).Some?
    ensures PairValue(HexText(bs), k) == bs[k]
  {
    HexPair(bs, k);
    var b: int := bs[k];
    assert 16 * (b / 16) + b % 16 == b;
  }

  // ---------------------------------------------------- runtime library

  /** The line break StringBuilder.AppendLine adds. */
  const NEWLINE := "\r\n"

  const WHITESPACE: set<char> := {' ', '\t'}

  /** The text read so far: global declarations, initialisation code and
      entries by upper-case name. */
  datatype Library = Library(globals: string, init: string, entries: map<string, LibraryEntry>)

  /** An entry whose closing line has not been seen: its first line and the
      lines collected so far, each with its line break. */
  datatype Pending = Pending(firstline: string, body: string)

  predicate OpensEntry(line: string)
  {
    StartsWith(line, "subcall") || StartsWith(line, "inline") || StartsWith(line, "init")
  }

  /** A line outside entries with its "//" comment cut off. */
  function StripComment(line: string): (r: string)
    ensures StartsWith(line, r)
  {
    var k := Find(line, "//");
    if k >= 0 then line[..k] else line
  }

  /** Outside entries, a line that is not blank once its comment is cut off
      is added to the globals. */
  function GlobalOf(line: string): string
  {
    var l := StripComment(line);
    if |Trim(l)| > 0 then l + "\n" else []
  }

  function AddGlobal(lib: Library, line: string): Library
  {
    lib.(globals := lib.globals + GlobalOf(line))
  }

  /** Every curly bracket replaced by a space. */
  function Unbraced(s: string): (r: string)
    ensures |r| == |s| && '{' !in r && '}' !in r
  {
    if s == [] then [] else [if s[0] == '{' || s[0] == '}' then ' ' else s[0]] + Unbraced(s[1..])
  }

  /** The index of "//" at or after from, or -1. */
  function FindFrom(s: string, p: string, from: nat): (r: int)
    requires from <= |s|
    ensures r == -1 || from <= r <= |s|
  {
    var k := Find(s[from..], p);
    if k < 0 then -1 else from + k
  }

  /** The effect of an entry's closing line: init code is added to the
      initialisation with its brackets blanked out; a subcall or inline entry
      is decoded and stored under the upper-cased name found between the
      keyword and "//". */
  function CloseEntry(lib: Library, p: Pending): Result<Library>
    requires OpensEntry(p.firstline) && StartsWith(p.body, p.firstline)
  {
    var first := p.firstline;
    if StartsWith(first, "init") then
      Ok(lib.(init := lib.init + "    " + Trim(Unbraced(p.body[|first|..])) + "\n"))
    else
      var inline := StartsWith(first, "inline");
      var idx1 := if inline then 6 else 7;
      var idx2 := FindFrom(first, "//", idx1);
      if idx2 < idx1 then Err("Length cannot be less than zero.")
      else
        var name := Trim(first[idx1..idx2]);
        var descriptorAndReferences := SplitNonEmpty(Trim(first[idx2 + 2..]), WHITESPACE);
        var entry := EntryOf(inline, descriptorAndReferences, p.body);
        if entry.Err? then Err(entry.msg) else Ok(lib.(entries := lib.entries[Upper(name) := entry.value]))
  }

  /** The library text after reading lines one by one from a state with or
      without an open entry. Lines beginning with "subcall", "inline" or
      "init" open an entry; the next line beginning with '}' closes it; an
      entry still open at the end is dropped. */
  function ReadLines(lines: seq<string>, lib: Library, open: Option<Pending>): Result<Library>
    requires open.Some? ==> OpensEntry(open.value.firstline) && StartsWith(open.value.body, open.value.firstline)
    decreases |lines|
  {
    if lines == [] then Ok(lib)
    else
      var line := lines[0];
      match open
      case None =>
        if OpensEntry(line) then ReadLines(lines[1..], lib, Some(Pending(line, line + NEWLINE)))
        else ReadLines(lines[1..], AddGlobal(lib, line), None)
      case Some(p) =>
        var body := p.body + line + NEWLINE;
        assert StartsWith(body, p.firstline) by { assert body[..|p.firstline|] == p.body[..|p.firstline|]; }
        if StartsWith(line, "}") then
          var closed := CloseEntry(lib, Pending(p.firstline, body));
          if closed.Err? then Err(closed.msg) else ReadLines(lines[1..], closed.value, None)
        else ReadLines(lines[1..], lib, Some(Pending(p.firstline, body)))
  }

  /** The globals contributed by lines outside any entry. */
  function GlobalsOf(lines: seq<string>): string
  {
    if lines == [] then [] else GlobalOf(lines[0]) + GlobalsOf(lines[1..])
  }

  lemma Associative(a: string, b: string, c: string)
    ensures (a + b) + c == a + (b + c)
  {
  }

  lemma GlobalStep(lines: seq<string>, lib: Library)
    requires lines != [] && !OpensEntry(lines[0])
    ensures ReadLines(lines, lib, None) == ReadLines(lines[1..], AddGlobal(lib, lines[0]), None)
  {
  }

  lemma OpenStep(lines: seq<string>, lib: Library)
    requires lines != [] && OpensEntry(lines[0])
    ensures StartsWith(lines[0] + NEWLINE, lines[0])
    ensures ReadLines(lines, lib, None) == ReadLines(lines[1..], lib, Some(Pending(lines[0], lines[0] + NEWLINE)))
  {
    assert (lines[0] + NEWLINE)[..|lines[0]|] == lines[0];
  }

  lemma BodyStep(lines: seq<string>, lib: Library, p: Pending)
    requires lines != [] && !StartsWith(lines[0], "}")
    requires OpensEntry(p.firstline) && StartsWith(p.body, p.firstline)
    ensures StartsWith(p.body + lines[0] + NEWLINE, p.firstline)
    ensures ReadLines(lines, lib, Some(p)) == ReadLines(lines[1..], lib, Some(Pending(p.firstline, p.body + lines[0] + NEWLINE)))
  {
    assert (p.body + lines[0] + NEWLINE)[..|p.firstline|] == p.body[..|p.firstline|];
  }

  lemma CloseStep(lines: seq<string>, lib: Library, p: Pending)
    requires lines != [] && StartsWith(lines[0], "}")
    requires OpensEntry(p.firstline) && StartsWith(p.body, p.firstline)
    ensures StartsWith(p.body + lines[0] + NEWLINE, p.firstline)
    ensures var closed := CloseEntry(lib, Pending(p.firstline, p.body + lines[0] + NEWLINE));
            ReadLines(lines, lib, Some(p)) == if closed.Err? then Err(closed.msg) else ReadLines(lines[1..], closed.value, None)
  {
    assert (p.body + lines[0] + NEWLINE)[..|p.firstline|] == p.body[..|p.firstline|];
  }

  /** Lines that open no entry only add their comment-free, non-blank text to
      the globals, in order. */
  lemma {:induction false} GlobalLines(lines: seq<string>, lib: Library)
    requires forall k :: 0 <= k < |lines| ==> !OpensEntry(lines[k])
    ensures ReadLines(lines, lib, None) == Ok(Library(lib.globals + GlobalsOf(lines), lib.init, lib.entries))
    decreases |lines|
  {
    if lines == [] {
      assert lib.globals + GlobalsOf(lines) == lib.globals;
    } else {
      var next := AddGlobal(lib, lines[0]);
      GlobalStep(lines, lib);
      GlobalLines(lines[1..], next);
      Associative(lib.globals, GlobalOf(lines[0]), GlobalsOf(lines[1..]));
    }
  }

  /** The lines of an entry body, each followed by its line break. */
  function BodyText(lines: seq<string>): string
  {
    if lines == [] then [] else lines[0] + NEWLINE + BodyText(lines[1..])
  }

  lemma {:induction false} BodyTextSnoc(lines: seq<string>, line: string)
    ensures BodyText(lines + [line]) == BodyText(lines) + line + NEWLINE
    decreases |lines|
  {
    if lines == [] {
      assert [] + [line] == [line];
      assert [line][1..] == [];
    } else {
      assert (lines + [line])[1..] == lines[1..] + [line];
      BodyTextSnoc(lines[1..], line);
    }
  }

  /** Inside an open entry, lines that do not begin with '}' are collected
      into its body and nothing else changes. */
  lemma {:induction false} CollectBody(first: string, body: string, mid: seq<string>, rest: seq<string>, lib: Library)
    requires OpensEntry(first) && StartsWith(body, first)
    requires forall k :: 0 <= k < |mid| ==> !StartsWith(mid[k], "}")
    ensures StartsWith(body + BodyText(mid), first)
    ensures ReadLines(mid + rest, lib, Some(Pending(first, body))) == ReadLines(rest, lib, Some(Pending(first, body + BodyText(mid))))
    decreases |mid|
  {
    assert (body + BodyText(mid))[..|first|] == body[..|first|];
    if mid == [] {
      assert mid + rest == rest;
      assert body + BodyText(mid) == body;
    } else {
      var b := body + mid[0] + NEWLINE;
      assert b[..|first|] == body[..|first|];
      assert (mid + rest)[0] == mid[0] && (mid + rest)[1..] == mid[1..] + rest;
      CollectBody(first, b, mid[1..], rest, lib);
      assert b + BodyText(mid[1..]) == body + BodyText(mid);
    }
  }

  /** An entry -- its opening line, body lines none of which begins with '}',
      and the closing line -- has the effect of CloseEntry on the whole text
      of the entry, after which reading goes on outside any entry. */
  lemma EntryLines(first: string, mid: seq<string>, close: string, rest: seq<string>, lib: Library)
    requires OpensEntry(first) && StartsWith(close, "}")
    requires forall k :: 0 <= k < |mid| ==> !StartsWith(mid[k], "}")
    ensures StartsWith(BodyText([first] + mid + [close]), first)
    ensures var closed := CloseEntry(lib, Pending(first, BodyText([first] + mid + [close])));
            ReadLines([first] + mid + [close] + rest, lib, None)
            == if closed.Err? then Err(closed.msg) else ReadLines(rest, closed.value, None)
  {
    var all := [first] + mid + [close] + rest;
    var b0 := first + NEWLINE;
    assert b0[..|first|] == first;
    assert all[0] == first && all[1..] == mid + ([close] + rest);
    CollectBody(first, b0, mid, [close] + rest, lib);
    var b := b0 + BodyText(mid);
    assert BodyText([first] + mid) == b by {
      assert ([first] + mid)[1..] == mid;
    }
    BodyTextSnoc([first] + mid, close);
    assert BodyText([first] + mid + [close]) == b + close + NEWLINE;
    assert ([close] + rest)[1..] == rest;
  }

  /** An entry that is still open when the text ends is dropped. */
  lemma UnclosedEntry(first: string, mid: seq<string>, lib: Library)
    requires OpensEntry(first)
    requires forall k :: 0 <= k < |mid| ==> !StartsWith(mid[k], "}")
    ensures ReadLines([first] + mid, lib, None) == Ok(lib)
  {
    var b0 := first + NEWLINE;
    assert b0[..|first|] == first;
    assert ([first] + mid)[1..] == mid;
    CollectBody(first, b0, mid, [], lib);
    assert mid + [] == mid;
  }

  /** The first "//" of a text is found at the end of a prefix free of '/'. */
  lemma FindAfter(a: string, b: string)
    requires '/' !in a
    ensures Find(a + "//" + b, "//") == |a|
  {
    var s := a + "//" + b;
    assert StartsWith(s[|a|..], "//");
    forall j | 0 <= j < |a|
      ensures !StartsWith(s[j..], "//")
    {
      assert s[j..][0] == a[j];
    }
  }

  /** A subcall entry "subcall NAME // DESCRIPTOR REFERENCES" is stored under
      the trimmed, upper-cased name, read from its descriptor and references
      with the whole entry text as its code. */
  lemma SubcallEntry(name: string, tail: string, body: string, lib: Library)
    requires '/' !in name
    requires StartsWith(body, "subcall" + name + "//" + tail)
    ensures var first := "subcall" + name + "//" + tail;
            var e := EntryOf(false, SplitNonEmpty(Trim(tail), WHITESPACE), body);
            CloseEntry(lib, Pending(first, body))
            == if e.Ok? then Ok(lib.(entries := lib.entries[Upper(Trim(name)) := e.value])) else Err(e.msg)
  {
    var first := "subcall" + name + "//" + tail;
    assert first[..7] == "subcall";
    assert !StartsWith(first, "init") by { assert first[2] == 'b'; }
    assert !StartsWith(first, "inline") by { assert first[1] == 'u'; }
    assert first[7..] == name + "//" + tail;
    FindAfter(name, tail);
    assert first[7..7 + |name|] == name;
    assert first[7 + |name| + 2..] == tail;
  }

  // ------------------------------------------------------ call structure

  /** What the first parser pass records: the function each sub belongs to,
      the functions each sub calls, and the names of the functions defined.
      A function is identified by its name. */
  datatype CallGraph = CallGraph(
    functionofsub: map<string, string>,
    functioncallstructure: map<string, seq<string>>,
    functions: set<string>)

  /** The defined functions called from some sub that belongs to fd. */
  function DirectCallees(g: CallGraph, fd: string): set<string>
  {
    set c | c in g.functions && exists s :: s in g.functionofsub && g.functionofsub[s] == fd
                                             && s in g.functioncallstructure && c in g.functioncallstructure[s]
  }

  /** The callees contributed by the subs in done. */
  function CalleesFrom(g: CallGraph, fd: string, done: set<string>): set<string>
  {
    set c | c in g.functions && exists s :: s in done && s in g.functionofsub && g.functionofsub[s] == fd
                                             && s in g.functioncallstructure && c in g.functioncallstructure[s]
  }

  /** Taking one more sub into account adds its defined callees when it
      belongs to fd. */
  lemma CalleesFromStep(g: CallGraph, fd: string, done: set<string>, sub: string)
    requires sub in g.functionofsub
    ensures forall c :: c in CalleesFrom(g, fd, done + {sub}) <==>
              c in CalleesFrom(g, fd, done)
              || (g.functionofsub[sub] == fd && sub in g.functioncallstructure && c in g.functions && c in g.functioncallstructure[sub])
  {
  }

  /** g can be reached from f in exactly n direct-callee steps. */
  ghost predicate ReachIn(g: CallGraph, f: string, h: string, n: nat)
    decreases n
  {
    if n <= 1 then n == 1 && h in DirectCallees(g, f)
    else exists m :: ReachIn(g, f, m, n - 1) && h in DirectCallees(g, m)
  }

  /** f could call h through one or more calls. */
  ghost predicate CouldCall(g: CallGraph, f: string, h: string)
  {
    exists n :: ReachIn(g, f, h, n)
  }

  /** Whatever f reaches lies in every set that holds f's direct callees and
      is closed under taking direct callees. */
  lemma {:induction false} ReachStaysInside(g: CallGraph, f: string, inside: seq<string>, h: string, n: nat)
    requires forall c :: c in DirectCallees(g, f) ==> c in inside
    requires forall m :: m in inside ==> forall c :: c in DirectCallees(g, m) ==> c in inside
    requires ReachIn(g, f, h, n)
    ensures h in inside
    decreases n
  {
    if n > 1 {
      var m :| ReachIn(g, f, m, n - 1) && h in DirectCallees(g, m);
      ReachStaysInside(g, f, inside, m, n - 1);
    }
  }

  /** f1 could call m, and m calls h directly. */
  lemma CouldCallStep(g: CallGraph, f1: string, m: string, h: string)
    requires CouldCall(g, f1, m) && h in DirectCallees(g, m)
    ensures CouldCall(g, f1, h)
  {
    var n: nat :| ReachIn(g, f1, m, n);
    assert n >= 1;
    assert ReachIn(g, f1, h, n + 1);
  }

  /** What the worklist of FunctionCouldCall keeps before item i: it holds
      distinct defined functions, all of f1's direct callees, only functions
      f1 could call, not f2 among the first i items, and the direct callees
      of each of those. */
  ghost predicate Worklist(g: CallGraph, f1: string, f2: string, xs: seq<string>, i: nat)
  {
    i <= |xs| && NoDuplicates(xs) && |xs| <= |g.functions|
    && (forall x :: x in xs ==> x in g.functions)
    && (forall c :: c in DirectCallees(g, f1) ==> c in xs)
    && (forall x :: x in xs ==> CouldCall(g, f1, x))
    && f2 !in xs[..i]
    && (forall x :: x in xs[..i] ==> forall c :: c in DirectCallees(g, x) ==> c in xs)
  }

  lemma WorklistStart(g: CallGraph, f1: string, f2: string, xs: seq<string>)
    requires NoDuplicates(xs) && forall c :: c in xs <==> c in DirectCallees(g, f1)
    ensures Worklist(g, f1, f2, xs, 0)
  {
    forall x | x in xs
      ensures CouldCall(g, f1, x)
    {
      assert ReachIn(g, f1, x, 1);
    }
    NoDuplicatesBound(xs, g.functions);
  }

  /** Taking in the direct callees of item i keeps the worklist invariant
      for the next item. */
  lemma WorklistStep(g: CallGraph, f1: string, f2: string, xs: seq<string>, i: nat, ys: seq<string>)
    requires Worklist(g, f1, f2, xs, i) && i < |xs| && xs[i] != f2
    requires |xs| <= |ys| && ys[..|xs|] == xs && NoDuplicates(ys)
    requires forall x :: x in ys <==> x in xs || x in DirectCallees(g, xs[i])
    ensures Worklist(g, f1, f2, ys, i + 1)
  {
    forall x | x in ys
      ensures x in g.functions && CouldCall(g, f1, x)
    {
      if x !in xs {
        CouldCallStep(g, f1, xs[i], x);
      }
    }
    assert ys[..i + 1] == xs[..i] + [xs[i]] by {
      assert ys[..i + 1] == ys[..|xs|][..i + 1];
    }
    NoDuplicatesBound(ys, g.functions);
  }

  /** A finished worklist without f2 holds everything f1 could call. */
  lemma WorklistDone(g: CallGraph, f1: string, f2: string, xs: seq<string>)
    requires Worklist(g, f1, f2, xs, |xs|)
    ensures !CouldCall(g, f1, f2)
  {
    assert xs[..|xs|] == xs;
    if CouldCall(g, f1, f2) {
      var n: nat :| ReachIn(g, f1, f2, n);
      ReachStaysInside(g, f1, xs, f2, n);
    }
  }

  /** items followed by the elements of more it does not hold yet, in the
      order of more and each once. */
  method AppendMissing(items: seq<string>, more: seq<string>) returns (r: seq<string>)
    ensures |items| <= |r| && r[..|items|] == items
    ensures forall x :: x in r <==> x in items || x in more
    ensures NoDuplicates(items) ==> NoDuplicates(r)
  {
    r := items;
    var j := 0;
    while j < |more|
      invariant 0 <= j <= |more|
      invariant |items| <= |r| && r[..|items|] == items
      invariant forall x :: x in r <==> x in items || x in more[..j]
      invariant NoDuplicates(items) ==> NoDuplicates(r)
    {
      if more[j] !in r {
        r := r + [more[j]];
      }
      assert more[..j + 1] == more[..j] + [more[j]];
      j := j + 1;
    }
    assert more[..j] == more;
  }

  predicate NoDuplicates(xs: seq<string>)
  {
    forall a, b :: 0 <= a < b < |xs| ==> xs[a] != xs[b]
  }

  /** A list without duplicates drawn from a finite set is no longer than the
      set. */
  lemma {:induction false} NoDuplicatesBound(xs: seq<string>, s: set<string>)
    requires NoDuplicates(xs) && forall x :: x in xs ==> x in s
    ensures |xs| <= |s|
    decreases |xs|
  {
    if xs != [] {
      forall x | x in xs[1..]
        ensures x in s - {xs[0]}
      {
        var k :| 0 <= k < |xs[1..]| && xs[1..][k] == x;
        assert xs[k + 1] == x;
      }
      NoDuplicatesBound(xs[1..], s - {xs[0]});
    }
  }

  lemma ProperSubsetSmaller(a: set<string>, b: set<string>)
    requires a < b
    ensures |a| < |b|
  {
    assert b == a + (b - a);
    var x :| x in b - a;
    assert x in b - a;
  }

  // -------------------------------------------------------- sub structure

  /** Every sub the call structure mentions, as caller or as callee. */
  function SubUniverse(subcallstructure: map<string, seq<string>>): set<string>
  {
    subcallstructure.Keys + set s, c | s in subcallstructure && c in subcallstructure[s] :: c
  }

  /** b is reached from a through exactly n sub calls. */
  ghost predicate SubReach(subcallstructure: map<string, seq<string>>, a: string, b: string, n: nat)
    decreases n
  {
    if n == 0 then a == b
    else a in subcallstructure && exists c :: c in subcallstructure[a] && SubReach(subcallstructure, c, b, n - 1)
  }

  /** Every sub mapped to a function has its callees mapped to the same one. */
  ghost predicate SubsClosed(functionofsub: map<string, string>, subcallstructure: map<string, seq<string>>)
  {
    forall s :: s in functionofsub && s in subcallstructure ==>
      forall c :: c in subcallstructure[s] ==> c in functionofsub && functionofsub[c] == functionofsub[s]
  }

  /** In a closed assignment, every sub reachable from a mapped sub belongs to
      the same function. */
  lemma {:induction false} ReachableSubsMapped(functionofsub: map<string, string>, subcallstructure: map<string, seq<string>>, a: string, b: string, n: nat)
    requires SubsClosed(functionofsub, subcallstructure) && a in functionofsub
    requires SubReach(subcallstructure, a, b, n)
    ensures b in functionofsub && functionofsub[b] == functionofsub[a]
    decreases n
  {
    if n > 0 {
      var c :| c in subcallstructure[a] && SubReach(subcallstructure, c, b, n - 1);
      ReachableSubsMapped(functionofsub, subcallstructure, c, b, n - 1);
    }
  }

  /** after keeps every entry of before and maps the subs it adds to fd. */
  ghost predicate Extends(before: map<string, string>, after: map<string, string>, fd: string)
  {
    (forall k :: k in before ==> k in after && after[k] == before[k])
    && (forall k :: k in after && k !in before ==> after[k] == fd)
  }

  /** Every sub that after adds to before, except those in skip, has all its
      callees assigned to fd. */
  ghost predicate AddedClosed(before: map<string, string>, after: map<string, string>, subcallstructure: map<string, seq<string>>,
                              fd: string, skip: set<string>)
  {
    forall k :: k in after && k !in before && k !in skip && k in subcallstructure ==>
      forall c :: c in subcallstructure[k] ==> c in after && after[c] == fd
  }

  /** A successful SetAllFunctionOfSub keeps a closed assignment closed: the
      subs it adds call only subs of the same function, and the old entries
      are untouched. */
  lemma AssignmentStaysClosed(before: map<string, string>, after: map<string, string>, subcallstructure: map<string, seq<string>>, fd: string)
    requires SubsClosed(before, subcallstructure)
    requires Extends(before, after, fd) && AddedClosed(before, after, subcallstructure, fd, {})
    ensures SubsClosed(after, subcallstructure)
  {
  }

  lemma ExtendsTransitive(before: map<string, string>, atcall: map<string, string>, after: map<string, string>, fd: string)
    requires Extends(before, atcall, fd) && Extends(atcall, after, fd)
    ensures Extends(before, after, fd)
  {
  }

  /** Every sub in subs is assigned to fd. */
  ghost predicate AllAssigned(functionofsub: map<string, string>, subs: seq<string>, fd: string)
  {
    forall c :: c in subs ==> c in functionofsub && functionofsub[c] == fd
  }

  lemma AssignedKept(atcall: map<string, string>, after: map<string, string>, subs: seq<string>, callee: string, fd: string)
    requires Extends(atcall, after, fd) && AllAssigned(atcall, subs, fd)
    requires callee in after && after[callee] == fd
    ensures AllAssigned(after, subs + [callee], fd)
  {
  }

  /** One more callee assigned keeps what the loop over the callees of a sub
      maintains. */
  lemma CalleeStep(before: map<string, string>, atcall: map<string, string>, after: map<string, string>,
                   subcallstructure: map<string, seq<string>>, fd: string, callees: seq<string>, i: nat)
    requires i < |callees|
    requires Extends(before, atcall, fd) && AllAssigned(atcall, callees[..i], fd) && AddedClosed(before, atcall, subcallstructure, fd, {})
    requires Extends(atcall, after, fd) && callees[i] in after && after[callees[i]] == fd && AddedClosed(atcall, after, subcallstructure, fd, {})
    ensures Extends(before, after, fd) && AllAssigned(after, callees[..i + 1], fd) && AddedClosed(before, after, subcallstructure, fd, {})
  {
    ExtendsTransitive(before, atcall, after, fd);
    ClosureStep(before, atcall, after, subcallstructure, fd, {});
    AssignedKept(atcall, after, callees[..i], callees[i], fd);
    assert callees[..i + 1] == callees[..i] + [callees[i]];
  }

  /** Two extensions in a row are one; the subs either adds stay closed. */
  lemma ClosureStep(before: map<string, string>, atcall: map<string, string>, after: map<string, string>,
                    subcallstructure: map<string, seq<string>>, fd: string, skip: set<string>)
    requires Extends(before, atcall, fd) && Extends(atcall, after, fd)
    requires AddedClosed(before, atcall, subcallstructure, fd, skip) && AddedClosed(atcall, after, subcallstructure, fd, {})
    ensures AddedClosed(before, after, subcallstructure, fd, skip)
  {
  }

  /** Once the callees of sub are assigned, sub need not be skipped. */
  lemma SubClosed(before: map<string, string>, after: map<string, string>, subcallstructure: map<string, seq<string>>, fd: string, sub: string)
    requires AddedClosed(before, after, subcallstructure, fd, {sub})
    requires sub in subcallstructure ==> AllAssigned(after, subcallstructure[sub], fd)
    ensures AddedClosed(before, after, subcallstructure, fd, {})
  {
  }

  /** The error of a clashing assignment: it names a sub, reachable from sub,
      that is already assigned to a function other than fd. */
  ghost predicate Clash(functionofsub: map<string, string>, subcallstructure: map<string, seq<string>>, sub: string, fd: string, msg: string)
  {
    exists k, n: nat :: k in functionofsub && functionofsub[k] != fd && SubReach(subcallstructure, sub, k, n)
                        && msg == "Subroutine called from outside function context: " + k
  }

  /** A clash found below a callee of sub is a clash of sub. */
  lemma ClashPropagates(before: map<string, string>, atcall: map<string, string>, subcallstructure: map<string, seq<string>>,
                        sub: string, callee: string, fd: string, msg: string)
    requires Extends(before, atcall, fd)
    requires sub in subcallstructure && callee in subcallstructure[sub]
    requires Clash(atcall, subcallstructure, callee, fd, msg)
    ensures Clash(before, subcallstructure, sub, fd, msg)
  {
    var k: string, n: nat :| k in atcall && atcall[k] != fd && SubReach(subcallstructure, callee, k, n)
                             && msg == "Subroutine called from outside function context: " + k;
    assert k in before;
    assert SubReach(subcallstructure, sub, k, n + 1);
  }

  /** A clash found after sub was assigned to fd was there before. */
  lemma ClashBack(before: map<string, string>, atcall: map<string, string>, subcallstructure: map<string, seq<string>>,
                  sub: string, fd: string, msg: string)
    requires atcall == before[sub := fd]
    requires Clash(atcall, subcallstructure, sub, fd, msg)
    ensures Clash(before, subcallstructure, sub, fd, msg)
  {
    var k: string, n: nat :| k in atcall && atcall[k] != fd && SubReach(subcallstructure, sub, k, n)
                             && msg == "Subroutine called from outside function context: " + k;
    assert k in before;
  }

  /** How many subs, of those mentioned and sub itself, have no function yet. */
  function Unassigned(subcallstructure: map<string, seq<string>>, sub: string, functionofsub: map<string, string>): nat
  {
    |SubUniverse(subcallstructure) + {sub} - functionofsub.Keys|
  }

  /** Assigning sub before visiting one of its callees shrinks the set of
      subs still unassigned. */
  lemma MeasureDrops(subcallstructure: map<string, seq<string>>, before: map<string, string>, now: map<string, string>, sub: string, callee: string)
    requires sub in subcallstructure && (callee == sub || callee in subcallstructure[sub])
    requires before.Keys <= now.Keys
    ensures Unassigned(subcallstructure, callee, now) <= Unassigned(subcallstructure, sub, before)
    ensures sub !in before && sub in now ==> Unassigned(subcallstructure, callee, now) < Unassigned(subcallstructure, sub, before)
  {
    var u := SubUniverse(subcallstructure);
    assert sub in u;
    assert callee in u by {
      if callee != sub {
        assert callee in subcallstructure[sub];
      }
    }
    assert u + {callee} == u && u + {sub} == u;
    FewerLeft(u, before.Keys, now.Keys, sub);
  }

  /** Taking more names out of u leaves no more behind, and fewer when one of
      them is new. */
  lemma FewerLeft(u: set<string>, before: set<string>, now: set<string>, sub: string)
    requires sub in u && before <= now
    ensures |u - now| <= |u - before|
    ensures sub !in before && sub in now ==> |u - now| < |u - before|
  {
    var a, b := u - now, u - before;
    assert b == a + (b - a) && a * (b - a) == {};
    if sub !in before && sub in now {
      assert sub in b - a;
    }
  }

  /** Every referenced entry has its own references referenced. */
  ghost predicate ReferencesClosed(library: map<string, LibraryEntry>, references: set<string>)
  {
    forall x :: x in references && x in library ==> forall y :: y in library[x].references ==> y in references
  }

  /** What MemorizeReference adds keeps a closed reference set closed. */
  lemma ReferencesStayClosed(library: map<string, LibraryEntry>, before: set<string>, after: set<string>)
    requires ReferencesClosed(library, before) && before <= after && after <= library.Keys
    requires forall x :: x in after && x !in before ==> forall y :: y in library[x].references ==> y in after
    ensures ReferencesClosed(library, after)
  {
  }

  // ------------------------------------------------------- variable types

  /** The rule every assignment follows: a variable's first assignment fixes
      its type; a later one of another type is an error carrying msg. */
  function AssignType(variables: map<string, ExpressionType>, varname: string, t: ExpressionType, msg: string)
    : (r: Result<map<string, ExpressionType>>)
    ensures r.Ok? <==> varname !in variables || variables[varname] == t
    ensures r.Err? ==> r.msg == msg
    ensures r.Ok? ==> r.value.Keys == variables.Keys + {varname} && r.value[varname] == t
    ensures r.Ok? ==> forall v :: v in variables ==> r.value[v] == variables[v]
  {
    if varname !in variables then Ok(variables[varname := t])
    else if variables[varname] != t then Err(msg)
    else Ok(variables)
  }

  /** The type of the array an element of type t is stored into, if any. */
  function ArrayTypeOf(t: ExpressionType): (r: Option<ExpressionType>)
    ensures r.Some? <==> t == Number || t == Text
    ensures r == Some(NumberArray) <==> t == Number
  {
    match t
    case Number => Some(NumberArray)
    case Text => Some(TextArray)
    case _ => None
  }

  /** Once a variable has a type, no assignment rule changes it. */
  lemma {:induction false} TypeNeverChanges(variables: map<string, ExpressionType>, steps: seq<(string, ExpressionType)>, v: string)
    requires v in variables
    ensures var r := AssignAll(variables, steps); r.Ok? ==> v in r.value && r.value[v] == variables[v]
    decreases |steps|
  {
    if steps != [] {
      var r := AssignType(variables, steps[0].0, steps[0].1, "");
      if r.Ok? {
        TypeNeverChanges(r.value, steps[1..], v);
      }
    }
  }

  /** A run of assignments, stopping at the first type clash. */
  function AssignAll(variables: map<string, ExpressionType>, steps: seq<(string, ExpressionType)>): Result<map<string, ExpressionType>>
    decreases |steps|
  {
    if steps == [] then Ok(variables)
    else
      var r := AssignType(variables, steps[0].0, steps[0].1, "");
      if r.Err? then Err(r.msg) else AssignAll(r.value, steps[1..])
  }

  // ------------------------------------------------------------ compiler

  class Compiler {
    var library: map<string, LibraryEntry>
    var runtimeglobals: string
    var runtimeinit: string
    /** The library entries the program needs, by name. */
    var references: set<string>
    var functionofsub: map<string, string>
    var subcallstructure: map<string, seq<string>>
    var functioncallstructure: map<string, seq<string>>
    var functiondefinitions: map<string, FunctionDefinition>
    var variables: map<string, ExpressionType>
    var labelcount: int

    /** Only defined entries are referenced. */
    ghost predicate Valid()
      reads this
    {
      references <= library.Keys
    }

    function Graph(): CallGraph
      reads this
    {
      CallGraph(functionofsub, functioncallstructure, functiondefinitions.Keys)
    }

    /** A compiler before the runtime library is read. */
    constructor ()
      ensures Valid()
      ensures library == map[] && runtimeglobals == "" && runtimeinit == "" && references == {}
      ensures functionofsub == map[] && subcallstructure == map[] && functioncallstructure == map[]
      ensures functiondefinitions == map[] && variables == map[] && labelcount == 0
    {
      library := map[];
      runtimeglobals := "";
      runtimeinit := "";
      references := {};
      functionofsub := map[];
      subcallstructure := map[];
      functioncallstructure := map[];
      functiondefinitions := map[];
      variables := map[];
      labelcount := 0;
    }

    /** Hands out consecutive label numbers. */
    method GetLabelNumber() returns (n: int)
      modifies this`labelcount
      ensures n == old(labelcount) && labelcount == n + 1
    {
      n := labelcount;
      labelcount := labelcount + 1;
    }

    /** Reads one module of the runtime library, line by line. */
    method ReadLibraryModule(lines: seq<string>) returns (r: Result<()>)
      modifies this`runtimeglobals, this`runtimeinit, this`library
      ensures var expected := ReadLines(lines, Library(old(runtimeglobals), old(runtimeinit), old(library)), None);
              (r.Ok? <==> expected.Ok?) && (r.Err? ==> r.msg == expected.msg)
              && (r.Ok? ==> Library(runtimeglobals, runtimeinit, library) == expected.value)
    {
      ghost var start := Library(runtimeglobals, runtimeinit, library);
      var currentfirstline: Option<string> := None;
      var body := "";
      var i := 0;
      while i < |lines|
        invariant 0 <= i <= |lines|
        invariant currentfirstline.Some? ==> OpensEntry(currentfirstline.value) && StartsWith(body, currentfirstline.value)
        invariant ReadLines(lines, start, None)
                  == ReadLines(lines[i..], Library(runtimeglobals, runtimeinit, library), PendingOf(currentfirstline, body))
      {
        var closed;
        closed, currentfirstline, body := ReadLibraryLine(lines[i], currentfirstline, body, lines[i..]);
        assert lines[i..][1..] == lines[i + 1..];
        if closed.Err? {
          return closed;
        }
        i := i + 1;
      }
      r := Ok(());
    }

    /** One line of a library module: it opens an entry, adds to the globals,
        adds to the open entry's body, or closes the entry. */
    method ReadLibraryLine(line: string, currentfirstline: Option<string>, body: string, ghost lines: seq<string>)
      returns (r: Result<()>, nextfirstline: Option<string>, nextbody: string)
      requires lines != [] && lines[0] == line
      requires currentfirstline.Some? ==> OpensEntry(currentfirstline.value) && StartsWith(body, currentfirstline.value)
      modifies this`runtimeglobals, this`runtimeinit, this`library
      ensures nextfirstline.Some? ==> OpensEntry(nextfirstline.value) && StartsWith(nextbody, nextfirstline.value)
      ensures var before := ReadLines(lines, Library(old(runtimeglobals), old(runtimeinit), old(library)), PendingOf(currentfirstline, body));
              if r.Err? then before == Err(r.msg)
              else before == ReadLines(lines[1..], Library(runtimeglobals, runtimeinit, library), PendingOf(nextfirstline, nextbody))
    {
      ghost var here := Library(runtimeglobals, runtimeinit, library);
      r := Ok(());
      if currentfirstline.None? {
        if StartsWith(line, "subcall") || StartsWith(line, "inline") || StartsWith(line, "init") {
          OpenStep(lines, here);
          nextfirstline := Some(line);
          nextbody := line + NEWLINE;
        } else {
          GlobalStep(lines, here);
          AddGlobalLine(line);
          nextfirstline := None;
          nextbody := body;
        }
      } else {
        var first := currentfirstline.value;
        nextbody := body + line + NEWLINE;
        if StartsWith(line, "}") {
          CloseStep(lines, here, Pending(first, body));
          r := CloseLibraryEntry(first, nextbody);
          nextfirstline := None;
        } else {
          BodyStep(lines, here, Pending(first, body));
          nextfirstline := currentfirstline;
        }
      }
    }

    /** A line outside entries: its text before any "//", when not blank, is
        a global declaration. */
    method AddGlobalLine(line: string)
      modifies this`runtimeglobals
      ensures runtimeglobals == old(runtimeglobals) + GlobalOf(line)
    {
      var text := line;
      var commentidx := Find(line, "//");
      if commentidx >= 0 {
        text := line[..commentidx];
      }
      if |Trim(text)| > 0 {
        runtimeglobals := runtimeglobals + text + "\n";
      }
    }

    /** The closing line of an entry: stores the entry's effect. */
    method CloseLibraryEntry(first: string, body: string) returns (r: Result<()>)
      requires OpensEntry(first) && StartsWith(body, first)
      modifies this`runtimeinit, this`library
      ensures var c := CloseEntry(Library(runtimeglobals, old(runtimeinit), old(library)), Pending(first, body));
              (r.Ok? <==> c.Ok?) && (r.Err? ==> r.msg == c.msg)
              && (r.Ok? ==> Library(runtimeglobals, runtimeinit, library) == c.value)
    {
      ghost var lib := Library(runtimeglobals, runtimeinit, library);
      ghost var c := CloseEntry(lib, Pending(first, body));
      if StartsWith(first, "init") {
        runtimeinit := runtimeinit + "    " + Trim(Unbraced(body[|first|..])) + "\n";
        assert c == Ok(lib.(init := runtimeinit));
      } else {
        var inline := StartsWith(first, "inline");
        var idx1 := if inline then 6 else 7;
        var idx2 := FindFrom(first, "//", idx1);
        if idx2 < idx1 {
          assert c == Err("Length cannot be less than zero.");
          return Err("Length cannot be less than zero.");
        }
        var functionname := Trim(first[idx1..idx2]);
        var descriptorAndReferences := SplitNonEmpty(Trim(first[idx2 + 2..]), WHITESPACE);
        var le := NewLibraryEntry(inline, descriptorAndReferences, body);
        if le.Err? {
          assert c == Err(le.msg);
          return Err(le.msg);
        }
        library := library[Upper(functionname) := le.value];
        assert c == Ok(lib.(entries := library));
      }
      r := Ok(());
    }

    /** Adds a library entry and, depth first, every entry it refers to that
        is not referenced yet. */
    method MemorizeReference(name: string) returns (r: Result<()>)
      requires Valid()
      modifies this`references
      ensures Valid()
      ensures old(references) <= references
      ensures r.Ok? ==> name in references
      ensures r.Ok? ==> forall x :: x in references && x !in old(references) ==>
                          forall y :: y in library[x].references ==> y in references
      ensures name in library && (forall x :: x in library ==> forall y :: y in library[x].references ==> y in library) ==> r.Ok?
      ensures r.Err? ==> exists u :: u !in library && r.msg == "Reference to undefined function: " + u
      decreases |library.Keys - references|
    {
      if name !in library {
        return Err("Reference to undefined function: " + name);
      }
      if name in references {
        return Ok(());
      }
      ghost var before := references;
      var impl := library[name];
      references := references + {name};
      r := Ok(());
      var i := 0;
      while i < |impl.references|
        invariant 0 <= i <= |impl.references|
        invariant Valid()
        invariant before + {name} <= references
        invariant forall x :: x in references && x !in before && x != name ==>
                    forall y :: y in library[x].references ==> y in references
        invariant forall k :: 0 <= k < i ==> impl.references[k] in references
      {
        ProperSubsetSmaller(library.Keys - references, library.Keys - before);
        r := MemorizeReference(impl.references[i]);
        if r.Err? {
          return r;
        }
        i := i + 1;
      }
      r := Ok(());
    }

    /** Assigns fd to sub and to every sub it calls, directly or not, that is
        not assigned yet; a sub already assigned to another function is an
        error. */
    method SetAllFunctionOfSub(fd: string, sub: string) returns (r: Result<()>)
      modifies this`functionofsub
      ensures Extends(old(functionofsub), functionofsub, fd)
      ensures r.Ok? ==> sub in functionofsub && functionofsub[sub] == fd
      ensures r.Ok? ==> AddedClosed(old(functionofsub), functionofsub, subcallstructure, fd, {})
      ensures r.Err? ==> Clash(old(functionofsub), subcallstructure, sub, fd, r.msg)
      decreases Unassigned(subcallstructure, sub, functionofsub), 0
    {
      if sub in functionofsub {
        if functionofsub[sub] != fd {
          assert SubReach(subcallstructure, sub, sub, 0);
          assert Clash(functionofsub, subcallstructure, sub, fd, "Subroutine called from outside function context: " + sub);
          return Err("Subroutine called from outside function context: " + sub);
        }
        return Ok(());
      }
      ghost var before := functionofsub;
      functionofsub := functionofsub[sub := fd];
      if sub in subcallstructure {
        ghost var atcall := functionofsub;
        MeasureDrops(subcallstructure, before, functionofsub, sub, sub);
        r := SetAllCallees(fd, sub);
        ExtendsTransitive(before, atcall, functionofsub, fd);
        if r.Err? {
          ClashBack(before, atcall, subcallstructure, sub, fd, r.msg);
          return r;
        }
        ClosureStep(before, atcall, functionofsub, subcallstructure, fd, {sub});
        SubClosed(before, functionofsub, subcallstructure, fd, sub);
      }
      r := Ok(());
    }

    /** The loop of SetAllFunctionOfSub over the subs that sub calls. */
    method SetAllCallees(fd: string, sub: string) returns (r: Result<()>)
      requires sub in functionofsub && functionofsub[sub] == fd && sub in subcallstructure
      modifies this`functionofsub
      ensures Extends(old(functionofsub), functionofsub, fd)
      ensures r.Ok? ==> AllAssigned(functionofsub, subcallstructure[sub], fd)
      ensures r.Ok? ==> AddedClosed(old(functionofsub), functionofsub, subcallstructure, fd, {})
      ensures r.Err? ==> Clash(old(functionofsub), subcallstructure, sub, fd, r.msg)
      decreases Unassigned(subcallstructure, sub, functionofsub), 1
    {
      ghost var before := functionofsub;
      var callees := subcallstructure[sub];
      var i := 0;
      while i < |callees|
        invariant 0 <= i <= |callees|
        invariant Extends(before, functionofsub, fd)
        invariant AllAssigned(functionofsub, callees[..i], fd)
        invariant AddedClosed(before, functionofsub, subcallstructure, fd, {})
      {
        var callee := callees[i];
        assert callee in subcallstructure[sub];
        assert before.Keys <= functionofsub.Keys;
        MeasureDrops(subcallstructure, before, functionofsub, sub, callee);
        ghost var atcall := functionofsub;
        r := SetAllFunctionOfSub(fd, callee);
        if r.Err? {
          ExtendsTransitive(before, atcall, functionofsub, fd);
          ClashPropagates(before, atcall, subcallstructure, sub, callee, fd, r.msg);
          return r;
        }
        CalleeStep(before, atcall, functionofsub, subcallstructure, fd, callees, i);
        i := i + 1;
      }
      assert callees[..i] == callees;
      r := Ok(());
    }

    /** The distinct defined functions called from the subs of fd, found by
        going through the sub assignment in whatever order it is stored. */
    method DetermineDirectCallees(fd: string) returns (callees: seq<string>)
      ensures NoDuplicates(callees)
      ensures forall c :: c in callees <==> c in DirectCallees(Graph(), fd)
    {
      ghost var g := Graph();
      callees := [];
      var remaining := functionofsub.Keys;
      while remaining != {}
        invariant remaining <= functionofsub.Keys
        invariant NoDuplicates(callees)
        invariant forall c :: c in callees <==> c in CalleesFrom(g, fd, functionofsub.Keys - remaining)
        decreases |remaining|
      {
        var sub :| sub in remaining;
        ghost var done := functionofsub.Keys - remaining;
        CalleesFromStep(g, fd, done, sub);
        if functionofsub[sub] == fd && sub in functioncallstructure {
          callees := AppendDefined(callees, functioncallstructure[sub]);
        }
        remaining := remaining - {sub};
        assert functionofsub.Keys - remaining == done + {sub};
      }
      assert functionofsub.Keys - remaining == functionofsub.Keys;
    }

    /** callees followed by the defined functions of list it does not hold
        yet, each once. */
    method AppendDefined(callees: seq<string>, list: seq<string>) returns (r: seq<string>)
      requires NoDuplicates(callees)
      ensures NoDuplicates(r)
      ensures forall c :: c in r <==> c in callees || (c in functiondefinitions && c in list)
    {
      r := callees;
      var j := 0;
      while j < |list|
        invariant 0 <= j <= |list|
        invariant NoDuplicates(r)
        invariant forall c :: c in r <==> c in callees || (c in functiondefinitions && c in list[..j])
      {
        var fn := list[j];
        if fn in functiondefinitions && fn !in r {
          r := r + [fn];
        }
        assert list[..j + 1] == list[..j] + [fn];
        j := j + 1;
      }
      assert list[..j] == list;
    }

    /** Whether f1 could call f2 through one or more calls: a worklist that
        starts with f1's direct callees and takes in each item's direct
        callees that it does not hold yet. */
    method FunctionCouldCall(f1: string, f2: string) returns (b: bool)
      ensures b <==> CouldCall(Graph(), f1, f2)
    {
      ghost var g := Graph();
      var allcallees := DetermineDirectCallees(f1);
      WorklistStart(g, f1, f2, allcallees);
      var i := 0;
      while i < |allcallees|
        invariant 0 <= i <= |allcallees|
        invariant Worklist(g, f1, f2, allcallees, i)
        decreases |functiondefinitions.Keys| - i
      {
        if allcallees[i] == f2 {
          return true;
        }
        var more := DetermineDirectCallees(allcallees[i]);
        ghost var xs := allcallees;
        allcallees := AppendMissing(allcallees, more);
        WorklistStep(g, f1, f2, xs, i, allcallees);
        i := i + 1;
      }
      WorklistDone(g, f1, f2, allcallees);
      return false;
    }

    /** compile_variable_assignment: the variable takes the expression's type,
        or must already have it. */
    method VariableAssignment(basicvarname: string, etype: ExpressionType) returns (r: Result<()>)
      modifies this`variables
      ensures var a := AssignType(old(variables), "V" + basicvarname, etype, "Can not assign different types to " + basicvarname);
              (r.Ok? <==> a.Ok?) && (a.Err? ==> r.msg == a.msg && variables == old(variables)) && (a.Ok? ==> variables == a.value)
    {
      var varname := "V" + basicvarname;
      if varname !in variables {
        variables := variables[varname := etype];
      } else if variables[varname] != etype {
        return Err("Can not assign different types to " + basicvarname);
      }
      r := Ok(());
    }

    /** compile_array_assignment: only numbers and texts can be stored, and
        the variable becomes, or must already be, the matching array. */
    method ArrayAssignment(basicvarname: string, etype: ExpressionType) returns (r: Result<()>)
      modifies this`variables
      ensures ArrayTypeOf(etype).None? ==> r == Err("Can only store numbers or strings into arrays") && variables == old(variables)
      ensures ArrayTypeOf(etype).Some? ==>
                var a := AssignType(old(variables), "V" + basicvarname, ArrayTypeOf(etype).value, "Can not use " + basicvarname + " as array to store this type");
                (r.Ok? <==> a.Ok?) && (a.Err? ==> r.msg == a.msg && variables == old(variables)) && (a.Ok? ==> variables == a.value)
    {
      if etype != Number && etype != Text {
        return Err("Can only store numbers or strings into arrays");
      }
      var atype := if etype == Number then NumberArray else TextArray;
      var varname := "V" + basicvarname;
      if varname !in variables {
        variables := variables[varname := atype];
      } else if variables[varname] != atype {
        return Err("Can not use " + basicvarname + " as array to store this type");
      }
      r := Ok(());
    }

    /** compile_for: the loop counter is, or becomes, a number. */
    method ForCounter(basicvarname: string) returns (r: Result<()>)
      modifies this`variables
      ensures var a := AssignType(old(variables), "V" + basicvarname, Number,
                                  "Can not use " + basicvarname + " as loop counter. Is already defined to contain non-number");
              (r.Ok? <==> a.Ok?) && (a.Err? ==> r.msg == a.msg && variables == old(variables)) && (a.Ok? ==> variables == a.value)
    {
      var varname := "V" + basicvarname;
      if varname !in variables {
        variables := variables[varname := Number];
      } else if variables[varname] != Number {
        return Err("Can not use " + basicvarname + " as loop counter. Is already defined to contain non-number");
      }
      r := Ok(());
    }
  }

  function PendingOf(currentfirstline: Option<string>, body: string): (p: Option<Pending>)
    ensures p.Some? <==> currentfirstline.Some?
  {
    if currentfirstline.Some? then Some(Pending(currentfirstline.value, body)) else None
  }
}
