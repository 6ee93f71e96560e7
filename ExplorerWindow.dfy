/** The string logic of the explorer window: brick path mapping and
    navigation, the name of a compiled program, the parsing of a brick
    directory listing, and the text of the error box. */
module ExplorerWindow {
  import opened Common
  import opened DirectoryEntries
  import ByteFunctions

  /** `internalPath`: the brick's system commands address paths relative to
      the lms2012 directory, so a path under /home/root/lms2012/ becomes ".."
      followed by its tail from index 18 (which keeps the '/'), and any other
      path is made relative to the root by "/." in front. */
  function InternalPath(p: string): (r: string)
    ensures StartsWith(p, "/home/root/lms2012/") ==> r == ".." + p[18..]
    ensures !StartsWith(p, "/home/root/lms2012/") ==> r == "/." + p
    ensures StartsWith(r, "../") || StartsWith(r, "/.")
  {
    if StartsWith(p, "/home/root/lms2012/") then
      assert p[18] == '/';
      ".." + p[18..]
    else "/." + p
  }

  /** String.LastIndexOf(c, start): the greatest index <= start holding c,
      or -1. */
  function LastIndexOfFrom(s: string, c: char, start: nat): (r: int)
    requires start < |s|
    ensures -1 <= r <= start
    ensures r >= 0 ==> s[r] == c && c !in s[r + 1..start + 1]
    ensures r < 0 ==> c !in s[..start + 1]
  {
    LastIndexOf(s[..start + 1], c)
  }

  /** The name of the program a source file compiles to: the stem of an .lms
      or .sb file (extension in any case) with ".rbf"; other files are not
      compiled. */
  function TargetName(name: string): (r: Option<string>)
    ensures r.Some? <==> EndsWithIgnoreCase(name, ".lms") || EndsWithIgnoreCase(name, ".sb")
    ensures r.Some? ==> EndsWith(r.value, ".rbf")
  {
    if EndsWithIgnoreCase(name, ".lms") then Some(name[..|name| - 4] + ".rbf")
    else if EndsWithIgnoreCase(name, ".sb") then Some(name[..|name| - 3] + ".rbf")
    else None
  }

  /** The stem is kept: the target name and the source name agree up to the
      extension. */
  lemma TargetStem(name: string)
    requires TargetName(name).Some?
    ensures var t := TargetName(name).value;
      t[..|t| - 4] == name[..|name| - (if EndsWithIgnoreCase(name, ".lms") then 4 else 3)]
  {
  }

  /** The window's current brick directory and the handlers that change it. */
  class Explorer {
    var ev3path: string

    constructor ()
      ensures ev3path == "/home/root/lms2012/prjs/"
    {
      ev3path := "/home/root/lms2012/prjs/";
    }

    /** `EV3NavigateUp_clicked`: cut the path just after the last '/' that
        precedes its final character; a path of one character, or one
        without such a '/', stays. */
    method NavigateUp()
      modifies this
      ensures ev3path == Up(old(ev3path))
    {
      if |ev3path| > 1 {
        var idx := LastIndexOfFrom(ev3path, '/', |ev3path| - 2);
        if idx >= 0 {
          ev3path := ev3path[..idx + 1];
        }
      }
    }

    /** `EV3Directory_SelectionChanged`: a selected directory is entered,
        unless that would lead into /proc/, which locks up the brick. */
    method Select(selected: Option<DirectoryEntry>)
      modifies this
      ensures selected.Some? && selected.value.directory ==> ev3path == Enter(old(ev3path), selected.value.name)
      ensures selected.None? || !selected.value.directory ==> ev3path == old(ev3path)
    {
      if selected.Some? && selected.value.directory {
        var newpath := ev3path + selected.value.name + "/";
        if newpath != "/proc/" {
          ev3path := newpath;
        }
      }
    }
  }

  /** The path after navigating up. */
  function Up(p: string): (r: string)
    ensures |p| > 1 && '/' in p[..|p| - 1] ==> StartsWith(p, r) && 0 < |r| < |p| && r[|r| - 1] == '/'
                                                && '/' !in p[|r|..|p| - 1]
    ensures !(|p| > 1 && '/' in p[..|p| - 1]) ==> r == p
  {
    if |p| > 1 then
      var idx := LastIndexOfFrom(p, '/', |p| - 2);
      if idx >= 0 then p[..idx + 1] else p
    else p
  }

  /** The path after entering the directory called name. */
  function Enter(p: string, name: string): (r: string)
    ensures r == p || r == p + name + "/"
    ensures r == p <==> p + name + "/" == "/proc/"
  {
    var newpath := p + name + "/";
    if newpath != "/proc/" then newpath else p
  }

  /** Entering a directory and navigating up again comes back to the same
      directory, for a directory path ending in '/' and a name without '/'. */
  lemma UpAfterEnter(p: string, name: string)
    requires |p| > 0 && p[|p| - 1] == '/' && '/' !in name
    ensures Up(Enter(p, name)) == p
  {
    var e := p + name + "/";
    if e != "/proc/" {
      assert e[..|e| - 1] == p + name;
      assert e[|p| - 1] == '/';
      assert '/' !in e[|p|..|e| - 1] by {
        assert e[|p|..|e| - 1] == name;
      }
      var idx := LastIndexOfFrom(e, '/', |e| - 2);
      assert e[..|e| - 2 + 1] == p + name;
      assert idx == |p| - 1 by {
        var t := e[..|e| - 1];
        assert t[|p| - 1] == '/';
        assert t[|p|..] == name;
      }
      assert e[..idx + 1] == p;
    } else {
      assert Enter(p, name) == p;
      assert p == "/" by {
        assert |p| + |name| + 1 == 6;
        assert e[|p| - 1] == '/';
      }
    }
  }

  // ----------------------------------------------------- directory listing

  /** The characters of ISO-8859-1 bytes. */
  function Latin1(data: seq<byte>): (s: string)
    ensures |s| == |data|
    ensures forall i :: 0 <= i < |data| ==> s[i] as int == data[i]
  {
    seq(|data|, i requires 0 <= i < |data| => data[i] as char)
  }

  predicate IsBreak(c: char) { c == '\n' || c == '\r' }

  /** The index of the first line break in s, or |s|. */
  function LineEnd(s: string): (i: nat)
    ensures i <= |s| && (i < |s| ==> IsBreak(s[i]))
    ensures forall k :: 0 <= k < i ==> !IsBreak(s[k])
  {
    if s == [] || IsBreak(s[0]) then 0 else 1 + LineEnd(s[1..])
  }

  predicate NoBreak(l: string)
  {
    forall j :: 0 <= j < |l| ==> !IsBreak(l[j])
  }

  /** The text of lines, each followed by its line break. */
  function Joined(r: seq<(string, string)>): string
  {
    if r == [] then [] else r[0].0 + r[0].1 + Joined(r[1..])
  }

  /** A line that starts the text: its first character, when it is empty,
      is that of its break. */
  lemma JoinedHead(r: seq<(string, string)>)
    requires r != [] && r[0].0 == [] && r[0].1 != []
    ensures |Joined(r)| > 0 && Joined(r)[0] == r[0].1[0]
  {
    var j := Joined(r[1..]);
    assert Joined(r) == r[0].0 + r[0].1 + j;
    assert (r[0].0 + r[0].1 + j)[0] == r[0].1[0];
  }

  /** Where the line starting s ends after its break: past "\r\n" as one
      break, past a single "\n" or "\r", or at the end of s. */
  function NextLine(s: string): (next: nat)
    requires s != []
    ensures 0 < next <= |s| && LineEnd(s) <= next
    ensures LineEnd(s) == |s| ==> next == |s|
    ensures LineEnd(s) < |s| ==> LineEnd(s) < next
  {
    var i := LineEnd(s);
    if i == |s| then |s|
    else if s[i] == '\r' && i + 1 < |s| && s[i + 1] == '\n' then i + 2
    else i + 1
  }

  /** A line break: "\n", "\r" or "\r\n". */
  predicate IsLineBreak(b: string)
  {
    (|b| == 1 && IsBreak(b[0])) || (|b| == 2 && b[0] == '\r' && b[1] == '\n')
  }

  /** b is the single character c. */
  predicate Lone(b: string, c: char)
  {
    |b| == 1 && b[0] == c
  }

  /** How StreamReader.ReadLine cuts a text: each line with the break that
      ends it, "\n", "\r" or "\r\n" (one break), and no break for a last
      line running to the end of the text; no empty line follows a final
      break, and a "\r" break is never followed by an empty line ended by
      "\n" (that would have been one "\r\n" break). */
  function SplitLines(s: string): (r: seq<(string, string)>)
    ensures Joined(r) == s
    ensures forall k :: 0 <= k < |r| ==> NoBreak(r[k].0)
    ensures forall k :: 0 <= k < |r| ==>
              IsLineBreak(r[k].1) || (k == |r| - 1 && r[k].1 == [] && r[k].0 != [])
    ensures forall k :: 0 < k < |r| && Lone(r[k - 1].1, '\r') ==> r[k].0 != [] || !Lone(r[k].1, '\n')
    decreases |s|
  {
    if s == [] then []
    else
      var rest := SplitLines(s[NextLine(s)..]);
      SplitLinesStep(s, rest);
      [(s[..LineEnd(s)], s[LineEnd(s)..NextLine(s)])] + rest
  }

  /** The first line of s and its break. */
  lemma HeadLine(s: string)
    requires s != []
    ensures var b := s[LineEnd(s)..NextLine(s)];
      IsLineBreak(b) || (NextLine(s) == |s| && b == [] && s[..LineEnd(s)] != [])
    ensures Lone(s[LineEnd(s)..NextLine(s)], '\r') ==> NextLine(s) == |s| || s[NextLine(s)] != '\n'
  {
    var i, next := LineEnd(s), NextLine(s);
    var b := s[i..next];
    if i == |s| {
      assert b == [] && s[..i] == s;
    } else if next == i + 2 {
      assert |b| == 2 && b[0] == s[i] && b[1] == s[i + 1];
    } else {
      assert |b| == 1 && b[0] == s[i];
    }
  }

  /** Lines of which the first is not empty make a text that is not empty. */
  lemma JoinedNonEmpty(r: seq<(string, string)>)
    ensures r != [] && (r[0].0 != [] || r[0].1 != []) ==> Joined(r) != []
  {
    if r != [] {
      assert Joined(r) == r[0].0 + r[0].1 + Joined(r[1..]);
    }
  }

  /** The first line of s holds no break. */
  lemma HeadText(s: string)
    ensures NoBreak(s[..LineEnd(s)])
  {
    assert forall j :: 0 <= j < LineEnd(s) ==> s[..LineEnd(s)][j] == s[j];
  }

  /** The step of SplitLines: the first line of s, then the lines of the
      rest, keep the properties SplitLines promises. */
  lemma SplitLinesStep(s: string, rest: seq<(string, string)>)
    requires s != []
    requires Joined(rest) == s[NextLine(s)..]
    requires forall k :: 0 <= k < |rest| ==> NoBreak(rest[k].0)
    requires forall k :: 0 <= k < |rest| ==>
               IsLineBreak(rest[k].1) || (k == |rest| - 1 && rest[k].1 == [] && rest[k].0 != [])
    requires forall k :: 0 < k < |rest| && Lone(rest[k - 1].1, '\r') ==> rest[k].0 != [] || !Lone(rest[k].1, '\n')
    ensures var r := [(s[..LineEnd(s)], s[LineEnd(s)..NextLine(s)])] + rest;
      Joined(r) == s
      && (forall k :: 0 <= k < |r| ==> NoBreak(r[k].0))
      && (forall k :: 0 <= k < |r| ==>
            IsLineBreak(r[k].1) || (k == |r| - 1 && r[k].1 == [] && r[k].0 != []))
      && (forall k :: 0 < k < |r| && Lone(r[k - 1].1, '\r') ==> r[k].0 != [] || !Lone(r[k].1, '\n'))
  {
    var i, next := LineEnd(s), NextLine(s);
    var head := (s[..i], s[i..next]);
    var r := [head] + rest;
    assert r[0] == head && r[1..] == rest;
    assert Joined(r) == head.0 + head.1 + Joined(rest);
    assert s == head.0 + head.1 + s[next..];
    HeadText(s);
    HeadLine(s);
    JoinedNonEmpty(rest);
    if Lone(head.1, '\r') && rest != [] && rest[0].0 == [] && Lone(rest[0].1, '\n') {
      JoinedHead(rest);
    }
    forall k | 0 < k < |r| ensures r[k] == rest[k - 1] { }
  }

  /** The lines StreamReader.ReadLine returns, one by one: the lines of
      SplitLines without their breaks. */
  function ReadLines(s: string): (lines: seq<string>)
    ensures |lines| == |SplitLines(s)|
    ensures forall k :: 0 <= k < |lines| ==> lines[k] == SplitLines(s)[k].0 && NoBreak(lines[k])
  {
    var r := SplitLines(s);
    seq(|r|, k requires 0 <= k < |r| => r[k].0)
  }

  predicate AllHexDigits(s: string)
  {
    forall k :: 0 <= k < |s| ==> ByteFunctions.HexValue(s[k]).Some?
  }

  /** The value of a string of hexadecimal digits, if it is one. */
  function HexNumber(s: string): (r: Option<nat>)
    ensures r.Some? <==> s != [] && AllHexDigits(s)
    ensures r.Some? && |s| == 1 ==> r.value == ByteFunctions.HexValue(s[0]).value
    decreases |s|
  {
    if s == [] then None
    else
      var d := ByteFunctions.HexValue(s[|s| - 1]);
      if d.None? then None
      else if |s| == 1 then Some(d.value)
      else match HexNumber(s[..|s| - 1])
           case Some(v) => Some(16 * v + d.value)
           case None => None
  }

  /** Digits after digits: the value of the first shifted four bits per
      digit of the second, plus the value of the second. With the value of a
      single digit, this makes HexNumber the base-16 reading of the digits. */
  lemma {:induction false} HexNumberAppend(s: string, t: string)
    requires HexNumber(s).Some? && HexNumber(t).Some?
    ensures HexNumber(s + t) == Some(HexNumber(s).value * Pow2(4 * |t|) + HexNumber(t).value)
    decreases |t|
  {
    var st := s + t;
    assert st[..|st| - 1] == s + t[..|t| - 1];
    assert st[|st| - 1] == t[|t| - 1];
    var d := ByteFunctions.HexValue(t[|t| - 1]).value;
    Pow2Nibble(4 * |t|);
    if |t| == 1 {
      assert st[..|st| - 1] == s;
    } else {
      var u := t[..|t| - 1];
      HexNumberAppend(s, u);
      ShiftDigit(HexNumber(s).value, HexNumber(u).value, d, Pow2(4 * |u|));
    }
  }

  lemma Pow2Nibble(n: nat)
    requires n >= 4
    ensures Pow2(n) == 16 * Pow2(n - 4)
  {
    assert Pow2(n) == 2 * Pow2(n - 1) == 4 * Pow2(n - 2) == 8 * Pow2(n - 3);
  }

  lemma ShiftDigit(S: int, U: int, d: int, p: int)
    ensures 16 * (S * p + U) + d == S * (16 * p) + (16 * U + d)
  {
  }

  /** int.Parse with NumberStyles.HexNumber of a trimmed text: hexadecimal
      digits only; a value above 0xFFFFFFFF overflows, and eight digits with
      the top bit set denote a negative int, the two's complement. */
  function ParseHexInt(s: string): (r: Result<int>)
    ensures r.Ok? <==> HexNumber(Trim(s)).Some? && HexNumber(Trim(s)).value < TWO_32
    ensures r.Ok? ==> IsInt32(r.value) && r.value % TWO_32 == HexNumber(Trim(s)).value
  {
    match HexNumber(Trim(s))
    case None => Err("Input string was not in a correct format.")
    case Some(v) =>
      if v >= TWO_32 then Err("Value was either too large or too small for an Int32.")
      else
        assert Wrap32(v) == if v < TWO_31 then v else v - TWO_32;
        Ok(Wrap32(v))
  }

  /** l holds at most one space. */
  predicate AtMostOneSpace(l: string)
  {
    forall i, j :: 0 <= i < j < |l| && l[i] == ' ' ==> l[j] != ' '
  }

  /** first and second are the places of the first two spaces of l. */
  predicate SpacePair(l: string, first: nat, second: nat)
  {
    first < second < |l| && l[first] == ' ' && l[second] == ' '
    && forall k :: 0 <= k < second && k != first ==> l[k] != ' '
  }

  /** The entry a listing line describes, if any: a line ending in '/' is a
      directory ("." and ".." excepted); any other line needs two spaces,
      with the size in hexadecimal between them and the name after the
      second (ListingEntrySplit). A size that is no hexadecimal int raises an
      exception. */
  function ListingEntry(l: string): (r: Result<Option<DirectoryEntry>>)
    ensures EndsWith(l, "/") ==> r.Ok? && (r.value.Some? <==> l != "./" && l != "../")
    ensures r.Ok? && r.value.Some? ==> (r.value.value.directory <==> EndsWith(l, "/"))
    ensures r.Ok? && r.value.Some? && r.value.value.directory ==>
      l == r.value.value.name + "/" && r.value.value.size == 0
  {
    if EndsWith(l, "/") then
      var n := l[..|l| - 1];
      assert l == n + "/";
      Ok(if n != "." && n != ".." then Some(DirectoryEntry(n, 0, true)) else None)
    else
      match Spaces(l)
      case None => Ok(None)
      case Some((first, second)) => FileEntry(l, first, second)
  }

  /** The places of the first two spaces of l, found as the source finds
      them: the first space, then the first space after it. */
  function Spaces(l: string): (r: Option<(nat, nat)>)
    ensures r.Some? ==> SpacePair(l, r.value.0, r.value.1)
    ensures r.None? ==> AtMostOneSpace(l)
  {
    var first := IndexOf(l, ' ');
    if first < 0 then None
    else
      var after := IndexOf(l[first + 1..], ' ');
      if after < 0 then
        OneSpace(l, first);
        None
      else
        var second := first + 1 + after;
        assert l[first + 1..][after] == l[second];
        Some((first, second))
  }

  /** Two places that are the first two spaces are unique. */
  lemma SpacePairUnique(l: string, f1: nat, s1: nat, f2: nat, s2: nat)
    requires SpacePair(l, f1, s1) && SpacePair(l, f2, s2)
    ensures f1 == f2 && s1 == s2
  {
  }

  /** A file line cut at its first two spaces. */
  function FileEntry(l: string, first: nat, second: nat): (r: Result<Option<DirectoryEntry>>)
    requires first < second < |l|
    ensures r.Ok? ==> r.value.Some? && !r.value.value.directory
  {
    match ParseHexInt(l[first..second])
    case Err(m) => Err(m)
    case Ok(size) => Ok(Some(DirectoryEntry(l[second + 1..], size, false)))
  }

  /** A file line as the brick lists it, with its size in hexadecimal. */
  lemma FileLineExample()
    ensures ListingEntry("AB 2A x.rbf") == Ok(Some(DirectoryEntry("x.rbf", 42, false)))
  {
    var l := "AB 2A x.rbf";
    SizeExample();
    assert l[2..5] == " 2A" && l[6..] == "x.rbf";
    assert SpacePair(l, 2, 5);
    ListingEntrySplit(l, 2, 5);
  }

  /** The size field of a listing line, a blank before the hexadecimal digits. */
  lemma SizeExample()
    ensures ParseHexInt(" 2A") == Ok(42)
  {
    var t := " 2A";
    assert IsBlank(t[0]) && t[1..] == "2A";
    assert !IsBlank('2') && !IsBlank('A');
    assert TrimStart(t) == "2A";
    assert TrimEnd("2A") == "2A";
    assert ByteFunctions.HexValue('2') == Some(2) && ByteFunctions.HexValue('A') == Some(10);
    assert "2A"[..1] == "2";
    assert HexNumber("2A") == Some(42);
  }

  /** Directory lines: a subdirectory is listed, the parent is dropped. */
  lemma DirectoryLineExamples()
    ensures ListingEntry("sub/") == Ok(Some(DirectoryEntry("sub", 0, true)))
    ensures ListingEntry("../") == Ok(None)
  {
    assert "sub/"[..3] == "sub";
    assert "../"[..2] == "..";
  }

  /** A file line is skipped exactly when it holds fewer than two spaces. */
  lemma ListingEntrySkips(l: string)
    requires !EndsWith(l, "/")
    ensures ListingEntry(l) == Ok(None) <==> AtMostOneSpace(l)
  {
    var sp := Spaces(l);
    if sp.Some? {
      assert l[sp.value.0] == ' ' && l[sp.value.1] == ' ';
    }
  }

  /** A line whose only space is the first one holds at most one space. */
  lemma OneSpace(l: string, first: nat)
    requires first < |l| && ' ' !in l[..first] && ' ' !in l[first + 1..]
    ensures AtMostOneSpace(l)
  {
    forall i, j | 0 <= i < j < |l| && l[i] == ' '
      ensures l[j] != ' '
    {
      if i == first {
        assert l[first + 1..][j - first - 1] == l[j];
      }
    }
  }

  /** A file line: the name is the text after the second space, and the size
      the hexadecimal int between the first two spaces, blanks trimmed; the
      line fails exactly when that size does not parse. */
  lemma ListingEntrySplit(l: string, first: nat, second: nat)
    requires !EndsWith(l, "/") && SpacePair(l, first, second)
    ensures ListingEntry(l).Ok? <==> ParseHexInt(l[first..second]).Ok?
    ensures ListingEntry(l).Ok? ==>
              ListingEntry(l).value == Some(DirectoryEntry(l[second + 1..], ParseHexInt(l[first..second]).value, false))
  {
    var sp := Spaces(l);
    SpacePairUnique(l, first, second, sp.value.0, sp.value.1);
  }

  /** The entries of per-line results, in order, or the first error. */
  function Collect(rs: seq<Result<Option<DirectoryEntry>>>): (r: Result<seq<DirectoryEntry>>)
    ensures r.Ok? <==> forall k :: 0 <= k < |rs| ==> rs[k].Ok?
    ensures r.Ok? ==> |r.value| <= |rs|
    decreases |rs|
  {
    if rs == [] then Ok([])
    else
      var init := rs[..|rs| - 1];
      assert forall k :: 0 <= k < |init| ==> init[k] == rs[k];
      match Collect(init)
      case Err(m) => Err(m)
      case Ok(es) =>
        match rs[|rs| - 1]
        case Err(m) => Err(m)
        case Ok(None) => Ok(es)
        case Ok(Some(e)) => Ok(es + [e])
  }

  /** The entries collected are those of the results, and only those. */
  lemma {:induction false} CollectEntries(rs: seq<Result<Option<DirectoryEntry>>>)
    requires Collect(rs).Ok?
    ensures forall k :: 0 <= k < |rs| && rs[k].value.Some? ==> rs[k].value.value in Collect(rs).value
    ensures forall e :: e in Collect(rs).value ==> exists k :: 0 <= k < |rs| && rs[k] == Ok(Some(e))
    decreases |rs|
  {
    if rs != [] {
      var init := rs[..|rs| - 1];
      assert forall k :: 0 <= k < |init| ==> init[k] == rs[k];
      CollectEntries(init);
    }
  }

  /** Collecting two runs of results one after the other: the entries of the
      first followed by those of the second; the first error wins. */
  lemma {:induction false} CollectAppend(a: seq<Result<Option<DirectoryEntry>>>, b: seq<Result<Option<DirectoryEntry>>>)
    ensures Collect(a).Err? ==> Collect(a + b) == Collect(a)
    ensures Collect(a).Ok? && Collect(b).Err? ==> Collect(a + b) == Collect(b)
    ensures Collect(a).Ok? && Collect(b).Ok? ==> Collect(a + b) == Ok(Collect(a).value + Collect(b).value)
    decreases |b|
  {
    if b == [] {
      assert a + b == a;
      if Collect(a).Ok? {
        assert Collect(a).value + [] == Collect(a).value;
      }
    } else {
      var init := b[..|b| - 1];
      assert (a + b)[..|a + b| - 1] == a + init;
      assert (a + b)[|a + b| - 1] == b[|b| - 1];
      CollectAppend(a, init);
      if Collect(a).Ok? && Collect(init).Ok? && b[|b| - 1].Ok? && b[|b| - 1].value.Some? {
        var ea, ei, e := Collect(a).value, Collect(init).value, b[|b| - 1].value.value;
        assert ea + (ei + [e]) == (ea + ei) + [e];
      }
    }
  }

  /** What a line parser makes of each line. */
  function LineResults(parse: string -> Result<Option<DirectoryEntry>>, lines: seq<string>)
    : (rs: seq<Result<Option<DirectoryEntry>>>)
    ensures |rs| == |lines| && forall k :: 0 <= k < |lines| ==> rs[k] == parse(lines[k])
  {
    seq(|lines|, k requires 0 <= k < |lines| => parse(lines[k]))
  }

  lemma LineResultsAppend(parse: string -> Result<Option<DirectoryEntry>>, a: seq<string>, b: seq<string>)
    ensures LineResults(parse, a + b) == LineResults(parse, a) + LineResults(parse, b)
  {
    var ra, rb := LineResults(parse, a), LineResults(parse, b);
    forall k | 0 <= k < |a + b| ensures LineResults(parse, a + b)[k] == (ra + rb)[k] {
      if k >= |a| {
        assert (a + b)[k] == b[k - |a|];
      }
    }
  }

  /** The entries of the listing's lines, in order, or the first error
      (ListingEntriesLines, ListingEntriesAppend). */
  function ListingEntries(lines: seq<string>): (r: Result<seq<DirectoryEntry>>)
    ensures r.Ok? ==> |r.value| <= |lines|
  {
    Collect(LineResults(ListingEntry, lines))
  }

  /** The listing parses exactly when each line does; then every entry a
      line describes is listed, every listed entry comes from a line, and
      "." and ".." are never listed. */
  lemma ListingEntriesLines(lines: seq<string>)
    ensures ListingEntries(lines).Ok? <==> forall k :: 0 <= k < |lines| ==> ListingEntry(lines[k]).Ok?
    ensures ListingEntries(lines).Ok? ==>
              forall k :: 0 <= k < |lines| && ListingEntry(lines[k]).value.Some? ==>
                ListingEntry(lines[k]).value.value in ListingEntries(lines).value
    ensures ListingEntries(lines).Ok? ==>
              forall e :: e in ListingEntries(lines).value ==>
                exists k :: 0 <= k < |lines| && ListingEntry(lines[k]) == Ok(Some(e))
    ensures ListingEntries(lines).Ok? ==>
              forall e :: e in ListingEntries(lines).value && e.directory ==> e.name != "." && e.name != ".."
  {
    var rs := LineResults(ListingEntry, lines);
    var r := Collect(rs);
    if r.Ok? {
      CollectEntries(rs);
      forall e | e in r.value && e.directory
        ensures e.name != "." && e.name != ".."
      {
        var k :| 0 <= k < |rs| && rs[k] == Ok(Some(e));
        assert lines[k] == e.name + "/";
      }
    }
  }

  /** The entries of two listings one after the other are the entries of the
      first followed by those of the second; the first error wins. */
  lemma ListingEntriesAppend(a: seq<string>, b: seq<string>)
    ensures ListingEntries(a).Err? ==> ListingEntries(a + b) == ListingEntries(a)
    ensures ListingEntries(a).Ok? && ListingEntries(b).Err? ==> ListingEntries(a + b) == ListingEntries(b)
    ensures ListingEntries(a).Ok? && ListingEntries(b).Ok? ==>
              ListingEntries(a + b) == Ok(ListingEntries(a).value + ListingEntries(b).value)
  {
    LineResultsAppend(ListingEntry, a, b);
    CollectAppend(LineResults(ListingEntry, a), LineResults(ListingEntry, b));
  }

  /** The entries of one line: its entry, if any, or its error. */
  lemma ListingEntriesOne(l: string)
    ensures ListingEntry(l).Err? ==> ListingEntries([l]) == Err(ListingEntry(l).msg)
    ensures ListingEntry(l) == Ok(None) ==> ListingEntries([l]) == Ok([])
    ensures ListingEntry(l).Ok? && ListingEntry(l).value.Some? ==> ListingEntries([l]) == Ok([ListingEntry(l).value.value])
  {
    var rs := LineResults(ListingEntry, [l]);
    assert rs[..0] == [];
    if ListingEntry(l).Ok? && ListingEntry(l).value.Some? {
      assert [] + [ListingEntry(l).value.value] == [ListingEntry(l).value.value];
    }
  }

  /** The parsing loop of ReadEV3Directory over the lines of the listing. */
  method ParseListing(lines: seq<string>) returns (r: Result<seq<DirectoryEntry>>)
    ensures r == ListingEntries(lines)
  {
    var list: seq<DirectoryEntry> := [];
    var i := 0;
    while i < |lines|
      invariant 0 <= i <= |lines|
      invariant ListingEntries(lines[..i]) == Ok(list)
    {
      ListingEntriesStep(lines, i, list);
      var entry := ListingEntry(lines[i]);
      if entry.Err? {
        return Err(entry.msg);
      }
      if entry.value.Some? {
        list := list + [entry.value.value];
      }
      i := i + 1;
    }
    assert lines[..i] == lines;
    r := Ok(list);
  }

  /** One more line: its error ends the listing, its entry (if any) is
      added to the entries so far. */
  lemma ListingEntriesStep(lines: seq<string>, i: nat, list: seq<DirectoryEntry>)
    requires i < |lines| && ListingEntries(lines[..i]) == Ok(list)
    ensures ListingEntry(lines[i]).Err? ==> ListingEntries(lines) == Err(ListingEntry(lines[i]).msg)
    ensures ListingEntry(lines[i]) == Ok(None) ==> ListingEntries(lines[..i + 1]) == Ok(list)
    ensures ListingEntry(lines[i]).Ok? && ListingEntry(lines[i]).value.Some? ==>
              ListingEntries(lines[..i + 1]) == Ok(list + [ListingEntry(lines[i]).value.value])
  {
    assert lines[..i + 1] == lines[..i] + [lines[i]];
    ListingEntriesAppend(lines[..i], [lines[i]]);
    ListingEntriesOne(lines[i]);
    assert list + [] == list;
    if ListingEntry(lines[i]).Err? {
      PrefixErr(lines, i + 1);
    }
  }

  /** An error on a prefix of the lines is the error of all of them. */
  lemma PrefixErr(lines: seq<string>, n: nat)
    requires n <= |lines| && ListingEntries(lines[..n]).Err?
    ensures ListingEntries(lines) == ListingEntries(lines[..n])
  {
    assert lines == lines[..n] + lines[n..];
    ListingEntriesAppend(lines[..n], lines[n..]);
  }

  // ------------------------------------------------------------ sorting

  /** The listing is sorted with `x.FileName.CompareTo(y.FileName)`, whose
      order depends on the culture the explorer runs under. It is a
      parameter here: leq(a, b) holds when CompareTo(a, b) <= 0, and any
      such comparison is total and transitive. */
  ghost predicate TotalPreorder(leq: (string, string) -> bool)
  {
    && (forall a, b :: leq(a, b) || leq(b, a))
    && (forall a, b, c :: leq(a, b) && leq(b, c) ==> leq(a, c))
  }

  predicate SortedByName(es: seq<DirectoryEntry>, leq: (string, string) -> bool)
  {
    forall i, j :: 0 <= i < j < |es| ==> leq(es[i].name, es[j].name)
  }

  /** Every entry's name is at least lo. */
  predicate AllAbove(lo: string, es: seq<DirectoryEntry>, leq: (string, string) -> bool)
  {
    forall i :: 0 <= i < |es| ==> leq(lo, es[i].name)
  }

  /** e placed into a list before the first entry with a name not below e's. */
  function Insert(e: DirectoryEntry, es: seq<DirectoryEntry>, leq: (string, string) -> bool): (r: seq<DirectoryEntry>)
    ensures multiset(r) == multiset(es) + multiset{e}
    decreases |es|
  {
    if es == [] || leq(e.name, es[0].name) then [e] + es
    else
      assert es == [es[0]] + es[1..];
      [es[0]] + Insert(e, es[1..], leq)
  }

  /** Inserting a name not below lo keeps every name not below lo. */
  lemma {:induction false} InsertAbove(lo: string, e: DirectoryEntry, es: seq<DirectoryEntry>, leq: (string, string) -> bool)
    requires AllAbove(lo, es, leq) && leq(lo, e.name)
    ensures AllAbove(lo, Insert(e, es, leq), leq)
    decreases |es|
  {
    if es != [] && !leq(e.name, es[0].name) {
      InsertAbove(lo, e, es[1..], leq);
    }
  }

  /** Insert keeps a list sorted. */
  lemma {:induction false} InsertSorted(e: DirectoryEntry, es: seq<DirectoryEntry>, leq: (string, string) -> bool)
    requires TotalPreorder(leq) && SortedByName(es, leq)
    ensures SortedByName(Insert(e, es, leq), leq)
    decreases |es|
  {
    if es == [] {
    } else if leq(e.name, es[0].name) {
    } else {
      InsertSorted(e, es[1..], leq);
      InsertAbove(es[0].name, e, es[1..], leq);
    }
  }

  /** The listing sorted by FileName under the comparison leq: sorted, and a
      permutation of the entries. List.Sort is not stable, so entries whose
      names compare equal may come out in another order than here; any order
      it produces is sorted and a permutation as well. */
  function SortByName(es: seq<DirectoryEntry>, leq: (string, string) -> bool): (r: seq<DirectoryEntry>)
    requires TotalPreorder(leq)
    ensures SortedByName(r, leq) && multiset(r) == multiset(es)
    decreases |es|
  {
    if es == [] then []
    else
      assert es == es[..|es| - 1] + [es[|es| - 1]];
      InsertSorted(es[|es| - 1], SortByName(es[..|es| - 1], leq), leq);
      Insert(es[|es| - 1], SortByName(es[..|es| - 1], leq), leq)
  }

  /** The list ReadEV3Directory shows for the bytes of a brick listing: its
      ISO-8859-1 lines parsed into entries, then sorted by name; or the error
      of the first line whose size does not parse. */
  function ReadEV3Directory(data: seq<byte>, leq: (string, string) -> bool): (r: Result<seq<DirectoryEntry>>)
    requires TotalPreorder(leq)
    ensures ListingEntries(ReadLines(Latin1(data))).Err? <==> r.Err?
    ensures r.Ok? ==> SortedByName(r.value, leq)
    ensures r.Ok? ==> multiset(r.value) == multiset(ListingEntries(ReadLines(Latin1(data))).value)
  {
    match ListingEntries(ReadLines(Latin1(data)))
    case Err(m) => Err(m)
    case Ok(es) => Ok(SortByName(es, leq))
  }

  /** Ordinal order: the first differing character decides, and a proper
      prefix comes first. It is one comparison the sort can run under. */
  predicate Ordinal(a: string, b: string)
    decreases |a|
  {
    a == [] || (b != [] && (a[0] < b[0] || (a[0] == b[0] && Ordinal(a[1..], b[1..]))))
  }

  lemma {:induction false} OrdinalTotal(a: string, b: string)
    ensures Ordinal(a, b) || Ordinal(b, a)
    decreases |a|
  {
    if a != [] && b != [] && a[0] == b[0] {
      OrdinalTotal(a[1..], b[1..]);
    }
  }

  lemma {:induction false} OrdinalTrans(a: string, b: string, c: string)
    requires Ordinal(a, b) && Ordinal(b, c)
    ensures Ordinal(a, c)
    decreases |a|
  {
    if a != [] && a[0] == b[0] && b[0] == c[0] {
      OrdinalTrans(a[1..], b[1..], c[1..]);
    }
  }

  lemma OrdinalIsTotalPreorder()
    ensures TotalPreorder((a, b) => Ordinal(a, b))
  {
    forall a, b ensures Ordinal(a, b) || Ordinal(b, a) {
      OrdinalTotal(a, b);
    }
    forall a, b, c | Ordinal(a, b) && Ordinal(b, c) ensures Ordinal(a, c) {
      OrdinalTrans(a, b, c);
    }
  }

  // ------------------------------------------------------------ errors

  /** The message ShowErrorMessages builds: each line joined to the text so
      far with the two characters "/n" (not a line break); while the text is
      still empty, a line replaces it. */
  function ErrorText(lines: seq<string>): string
    decreases |lines|
  {
    if lines == [] then ""
    else
      var s := ErrorText(lines[..|lines| - 1]);
      var l := lines[|lines| - 1];
      if |s| == 0 then l else s + "/n" + l
  }

  method ShowErrorMessages(lines: seq<string>) returns (s: string)
    ensures s == ErrorText(lines)
  {
    s := "";
    var i := 0;
    while i < |lines|
      invariant 0 <= i <= |lines|
      invariant s == ErrorText(lines[..i])
    {
      assert lines[..i + 1][..i] == lines[..i];
      if |s| == 0 {
        s := lines[i];
      } else {
        s := s + "/n" + lines[i];
      }
      i := i + 1;
    }
    assert lines[..i] == lines;
  }

  /** When no message is empty, the text is the messages joined by "/n". */
  lemma {:induction false} ErrorTextJoins(lines: seq<string>)
    requires forall k :: 0 <= k < |lines| ==> lines[k] != []
    ensures ErrorText(lines) == Join(lines, "/n")
    decreases |lines|
  {
    if |lines| > 1 {
      var init := lines[..|lines| - 1];
      ErrorTextJoins(init);
      JoinLast(init, lines[|lines| - 1], "/n");
      assert init + [lines[|lines| - 1]] == lines;
      assert Join(init, "/n") != [] by {
        assert init[0] != [];
        JoinFirst(init, "/n");
      }
    } else if |lines| == 1 {
      assert lines[..0] == [];
    }
  }

  lemma {:induction false} JoinFirst(parts: seq<string>, sep: string)
    requires parts != []
    ensures StartsWith(Join(parts, sep), parts[0])
  {
  }

  lemma {:induction false} JoinLast(parts: seq<string>, last: string, sep: string)
    requires parts != []
    ensures Join(parts + [last], sep) == Join(parts, sep) + sep + last
    decreases |parts|
  {
    if |parts| >= 2 {
      JoinLast(parts[1..], last, sep);
      assert (parts + [last])[1..] == parts[1..] + [last];
    } else {
      assert (parts + [last])[1..] == [last];
    }
  }

  /** An empty first message is overwritten rather than joined: the "/n"
      that would separate it does not appear. */
  lemma EmptyFirstMessage(l: string)
    ensures ErrorText(["", l]) == l
  {
    assert ["", l][..1] == [""];
    assert [""][..0] == [];
  }
}
