/** The runtime library's EV3File class: a table of open file handles on the
    PC side, read cursors over downloaded file contents, the brick path of a
    file name, line truncation, and the table-lookup command for the native
    helper. The brick's replies and file contents are parameters. */
module EV3Files {
  import opened Common
  import NativeCode

  const PRJS: string := "/home/root/lms2012/prjs/"

  /** A name not starting with '/' is relative to the projects folder. */
  function FullName(filename: string): (f: string)
    ensures StartsWith(f, "/")
    ensures StartsWith(filename, "/") ==> f == filename
    ensures !StartsWith(filename, "/") ==> f == PRJS + filename
  {
    if StartsWith(filename, "/") then filename else PRJS + filename
  }

  /** An open file: its full name and, for a file opened for reading, its
      content with the read cursor. */
  datatype FileHandle = FileHandle(name: string, content: Option<seq<byte>>, readcursor: int)

  /** `WriteLine`'s text: at most 251 characters, the string limit of the
      VM. */
  function Truncated(text: string): (t: string)
    ensures |t| <= 251 && StartsWith(text, t)
    ensures |text| <= 251 ==> t == text
  {
    if |text| > 251 then text[..251] else text
  }

  /** The table of open files: slot 0 is never used, so that the handle 0
      can report a failure. */
  class FileTable {
    const openFiles: array<Option<FileHandle>>

    /** A hundred slots; slot 0 stays free and no two open files share a
        name. */
    predicate Valid()
      reads this, openFiles
    {
      openFiles.Length == 100 && Distinct(openFiles[..])
    }

    constructor ()
      ensures Valid() && forall i :: 0 <= i < 100 ==> openFiles[i].None?
    {
      openFiles := new Option<FileHandle>[100](_ => None);
    }

    /** `findHandle`: the least slot holding a file of that name, or -1. */
    method FindHandle(name: string) returns (i: int)
      requires Valid()
      ensures -1 <= i < 100
      ensures i >= 0 ==> openFiles[i].Some? && openFiles[i].value.name == name
      ensures i >= 0 ==> forall k :: 0 <= k < i ==> !(openFiles[k].Some? && openFiles[k].value.name == name)
      ensures i < 0 ==> forall k :: 0 <= k < 100 ==> !(openFiles[k].Some? && openFiles[k].value.name == name)
    {
      i := 0;
      while i < openFiles.Length
        invariant 0 <= i <= 100
        invariant forall k :: 0 <= k < i ==> !(openFiles[k].Some? && openFiles[k].value.name == name)
      {
        if openFiles[i].Some? && openFiles[i].value.name == name {
          return;
        }
        i := i + 1;
      }
      i := -1;
    }

    /** `findUnusedHandleSlot`: the least free slot from 1 on, or -1. */
    method FindUnusedHandleSlot() returns (i: int)
      requires Valid()
      ensures i == -1 || 1 <= i < 100
      ensures i >= 1 ==> openFiles[i].None? && forall k :: 1 <= k < i ==> openFiles[k].Some?
      ensures i == -1 ==> forall k :: 1 <= k < 100 ==> openFiles[k].Some?
    {
      i := 1;
      while i < openFiles.Length
        invariant 1 <= i <= 100
        invariant forall k :: 1 <= k < i ==> openFiles[k].Some?
      {
        if openFiles[i].None? {
          return;
        }
        i := i + 1;
      }
      i := -1;
    }

    /** `OpenWrite`/`OpenAppend`: a name already open, a full table, or a
        reply that reports no handle (missing, short or both bytes zero) give
        the handle 0 and leave the table alone; otherwise the file takes the
        least free slot, whose number is returned. */
    method OpenWrite(filename: string, reply: Option<seq<byte>>) returns (handle: int)
      requires Valid()
      modifies openFiles
      ensures Valid()
      ensures handle == 0 || 1 <= handle < 100
      ensures handle == 0 <==> NameOpen(old(openFiles[..]), FullName(filename)) || TableFull(old(openFiles[..])) || NoHandle(reply)
      ensures handle == 0 ==> openFiles[..] == old(openFiles[..])
      ensures handle != 0 ==> old(openFiles[handle]).None? && forall k :: 1 <= k < handle ==> old(openFiles[k]).Some?
      ensures handle != 0 ==> openFiles[..] == old(openFiles[..])[handle := Some(FileHandle(FullName(filename), None, 0))]
    {
      var f := FullName(filename);
      var h := FindHandle(f);
      if h >= 0 {
        assert openFiles[..][h] == openFiles[h];
        return 0;
      }
      var i := FindUnusedHandleSlot();
      if i <= 0 {
        return 0;
      }
      assert openFiles[..][i] == openFiles[i];
      if NoHandle(reply) {
        return 0;
      }
      OpenKeepsDistinct(openFiles[..], i, FileHandle(f, None, 0));
      openFiles[i] := Some(FileHandle(f, None, 0));
      handle := i;
    }

    /** `OpenRead`: like OpenWrite, with the downloaded content (missing when
        the brick could not deliver the file) stored behind a cursor at 0. */
    method OpenRead(filename: string, content: Option<seq<byte>>) returns (handle: int)
      requires Valid()
      modifies openFiles
      ensures Valid()
      ensures handle == 0 || 1 <= handle < 100
      ensures handle == 0 <==> NameOpen(old(openFiles[..]), FullName(filename)) || TableFull(old(openFiles[..])) || content.None?
      ensures handle == 0 ==> openFiles[..] == old(openFiles[..])
      ensures handle != 0 ==> old(openFiles[handle]).None? && forall k :: 1 <= k < handle ==> old(openFiles[k]).Some?
      ensures handle != 0 ==> openFiles[..] == old(openFiles[..])[handle := Some(FileHandle(FullName(filename), content, 0))]
    {
      var f := FullName(filename);
      var h := FindHandle(f);
      if h >= 0 {
        assert openFiles[..][h] == openFiles[h];
        return 0;
      }
      var i := FindUnusedHandleSlot();
      if i <= 0 {
        return 0;
      }
      assert openFiles[..][i] == openFiles[i];
      if content.None? {
        return 0;
      }
      OpenKeepsDistinct(openFiles[..], i, FileHandle(f, content, 0));
      openFiles[i] := Some(FileHandle(f, content, 0));
      handle := i;
    }

    /** `Close`: an in-range handle of an open file frees its slot; any other
        handle changes nothing. */
    method Close(hdl: int)
      requires Valid()
      modifies openFiles
      ensures Valid()
      ensures 0 <= hdl < 100 ==> openFiles[..] == old(openFiles[..])[hdl := None]
      ensures !(0 <= hdl < 100) ==> openFiles[..] == old(openFiles[..])
    {
      if 0 <= hdl < openFiles.Length && openFiles[hdl].Some? {
        CloseKeepsDistinct(openFiles[..], hdl);
        openFiles[hdl] := None;
      }
    }

    predicate Readable(hdl: int)
      requires Valid()
      reads this, openFiles
    {
      0 <= hdl < 100 && openFiles[hdl].Some? && openFiles[hdl].value.content.Some?
      && 0 <= openFiles[hdl].value.readcursor < |openFiles[hdl].value.content.value|
    }

    /** `ReadLine`: the bytes from the cursor up to the next '\n' (or the
        end), as characters; the cursor moves past the '\n'. At the end of the
        content or for a bad handle the result is "" and nothing changes. */
    method ReadLine(hdl: int) returns (line: string)
      requires Valid()
      modifies openFiles
      ensures Valid()
      ensures !old(Readable(hdl)) ==> line == "" && openFiles[..] == old(openFiles[..])
      ensures old(Readable(hdl)) ==>
        var fh := old(openFiles[hdl]).value;
        && LineFrom(fh.content.value, fh.readcursor, line)
        && openFiles[..] == old(openFiles[..])[hdl := Some(fh.(readcursor := fh.readcursor + |line| + 1))]
    {
      if 0 <= hdl < openFiles.Length && openFiles[hdl].Some? {
        var fh := openFiles[hdl].value;
        if fh.content.Some? && 0 <= fh.readcursor < |fh.content.value| {
          var c := fh.content.value;
          var cursor := fh.readcursor;
          var b := "";
          while cursor < |c| && c[cursor] != 10
            invariant fh.readcursor <= cursor <= |c| && cursor == fh.readcursor + |b|
            invariant forall k :: 0 <= k < |b| ==> b[k] as int == c[fh.readcursor + k] && c[fh.readcursor + k] != 10
          {
            b := b + [c[cursor] as char];
            cursor := cursor + 1;
          }
          RenameFreeKeepsDistinct(openFiles[..], hdl, fh.(readcursor := cursor + 1));
          openFiles[hdl] := Some(fh.(readcursor := cursor + 1));
          assert openFiles[..] == old(openFiles[..])[hdl := Some(fh.(readcursor := cursor + 1))];
          assert LineFrom(c, fh.readcursor, b);
          return b;
        }
      }
      line := "";
    }

    /** `ReadByte`: the byte under the cursor, which advances by one; 0 at the
        end of the content or for a bad handle, with nothing changed. */
    method ReadByte(hdl: int) returns (b: int)
      requires Valid()
      modifies openFiles
      ensures Valid()
      ensures !old(Readable(hdl)) ==> b == 0 && openFiles[..] == old(openFiles[..])
      ensures old(Readable(hdl)) ==>
        var fh := old(openFiles[hdl]).value;
        && b == fh.content.value[fh.readcursor]
        && openFiles[..] == old(openFiles[..])[hdl := Some(fh.(readcursor := fh.readcursor + 1))]
    {
      if 0 <= hdl < openFiles.Length && openFiles[hdl].Some? {
        var fh := openFiles[hdl].value;
        if fh.content.Some? && 0 <= fh.readcursor < |fh.content.value| {
          b := fh.content.value[fh.readcursor];
          RenameFreeKeepsDistinct(openFiles[..], hdl, fh.(readcursor := fh.readcursor + 1));
          openFiles[hdl] := Some(fh.(readcursor := fh.readcursor + 1));
          return;
        }
      }
      b := 0;
    }
  }

  /** line holds the bytes of c from start up to the next '\n', or up to
      the end when there is none. */
  predicate LineFrom(c: seq<byte>, start: int, line: string)
  {
    && 0 <= start && start + |line| <= |c|
    && (forall k :: 0 <= k < |line| ==> line[k] as int == c[start + k] && c[start + k] != 10)
    && (start + |line| < |c| ==> c[start + |line|] == 10)
  }

  /** Some slot holds an open file of that name. */
  predicate NameOpen(slots: seq<Option<FileHandle>>, name: string)
  {
    exists k :: 0 <= k < |slots| && slots[k].Some? && slots[k].value.name == name
  }

  /** Every slot from 1 on holds an open file. */
  predicate TableFull(slots: seq<Option<FileHandle>>)
  {
    forall k :: 1 <= k < |slots| ==> slots[k].Some?
  }

  /** The reply of the direct command that creates the file reports no
      handle: missing, shorter than two bytes, or both bytes zero. */
  predicate NoHandle(reply: Option<seq<byte>>)
  {
    reply.None? || |reply.value| < 2 || (reply.value[0] == 0 && reply.value[1] == 0)
  }

  /** Two open files never share a slot with handle 0 and never share a
      name: the table's invariant as OpenWrite and OpenRead keep it. */
  predicate Distinct(slots: seq<Option<FileHandle>>)
  {
    && (|slots| > 0 ==> slots[0].None?)
    && forall i, j :: 0 <= i < j < |slots| && slots[i].Some? && slots[j].Some? ==> slots[i].value.name != slots[j].value.name
  }

  /** Replacing an open file by one of the same name (a moved cursor) keeps
      the table distinct. */
  lemma RenameFreeKeepsDistinct(slots: seq<Option<FileHandle>>, i: int, fh: FileHandle)
    requires Distinct(slots) && 0 <= i < |slots| && slots[i].Some? && slots[i].value.name == fh.name
    ensures Distinct(slots[i := Some(fh)])
  {
  }

  /** Freeing a slot keeps the table distinct. */
  lemma CloseKeepsDistinct(slots: seq<Option<FileHandle>>, i: int)
    requires Distinct(slots) && 0 <= i < |slots|
    ensures Distinct(slots[i := None])
  {
  }

  /** Storing a file under a name that no slot holds, in a free slot other
      than 0, keeps the table distinct. */
  lemma OpenKeepsDistinct(slots: seq<Option<FileHandle>>, i: int, fh: FileHandle)
    requires Distinct(slots) && 1 <= i < |slots| && slots[i].None?
    requires forall k :: 0 <= k < |slots| ==> !(slots[k].Some? && slots[k].value.name == fh.name)
    ensures Distinct(slots[i := Some(fh)])
  {
  }

  // ------------------------------------------------------------ table lookup

  /** `TableLookup`: 0 without asking the brick for a row length below 1 or a
      negative row or column; otherwise the command line for the native
      helper. */
  function TableLookupCommand(filename: string, bpr: int, row: int, column: int): (r: Option<string>)
    ensures r.None? <==> bpr <= 0 || row < 0 || column < 0
  {
    if bpr <= 0 || row < 0 || column < 0 then None
    else Some("tablelookup " + FullName(filename) + " " + IntToString(bpr) + " " + IntToString(row) + " " + IntToString(column))
  }

  /** The longest digit run of a numeral followed by a non-digit is the
      numeral. */
  lemma {:induction false} DigitRunOf(d: string, rest: string)
    requires AllDigits(d) && (rest == [] || !IsDigit(rest[0]))
    ensures NativeCode.DigitRun(d + rest) == d
    decreases |d|
  {
    if d != [] {
      DigitRunOf(d[1..], rest);
      assert (d + rest)[1..] == d[1..] + rest;
    } else {
      assert d + rest == rest;
    }
  }

  /** "%f" reads back a non-negative int written in decimal after a blank. */
  lemma ScanNatural(n: nat, rest: string)
    requires rest == [] || rest[0] == ' '
    ensures NativeCode.ScanFloat(" " + NatToString(n) + rest) == Some((n as real, rest))
  {
    DigitsOfNat(n);
    ScanDigits(" " + NatToString(n) + rest, NatToString(n), rest);
  }

  /** "%f" reads a blank, a run of digits and then a blank or the end as the
      value of the digits. */
  lemma ScanDigits(s: string, d: string, rest: string)
    requires s == " " + d + rest && d != [] && AllDigits(d)
    requires rest == [] || rest[0] == ' '
    ensures NativeCode.ScanFloat(s) == Some((DigitsValue(d) as real, rest))
  {
    var u := d + rest;
    assert s[1..] == u && IsNumberBlank(s[0]);
    assert u[0] == d[0] && !IsNumberBlank(u[0]);
    assert NumberTrimStart(s) == u by {
      assert NumberTrimStart(s) == NumberTrimStart(u);
    }
    DigitRunOf(d, rest);
    assert u[|d|..] == rest;
    assert NativeCode.Fraction([]) == 0.0 by {
      assert DigitsValue([]) == 0;
    }
  }

  lemma WordOf(p: string, rest: string)
    requires forall c :: c in p ==> !IsNumberBlank(c)
    requires rest == [] || rest[0] == ' '
    ensures Word(p + rest, NativeCode.BLANKS) == p
    decreases |p|
  {
    if p != [] {
      NativeCode.BlanksAreBlank(p[0]);
      WordOf(p[1..], rest);
      assert (p + rest)[1..] == p[1..] + rest;
    } else {
      assert p + rest == rest;
    }
  }

  /** The native helper accepts the command TableLookup sends for a file name
      without C blanks (isspace): it parses the full name and the three numbers back, and
      answers with the lookup of exactly that request. */
  lemma TableLookupAccepted(filename: string, bpr: int, row: int, column: int,
                            fs: NativeCode.FileSystem, p: NativeCode.Platform)
    requires bpr > 0 && row >= 0 && column >= 0
    requires forall c :: c in filename ==> !IsNumberBlank(c)
    ensures var cmd := TableLookupCommand(filename, bpr, row, column).value;
      var q := NativeCode.Request(FullName(filename), bpr as real, row as real, column as real);
      NativeCode.InRange(q) && NativeCode.CommandResult(cmd, fs, p) == NativeCode.LookupResult(cmd[12..], fs, p)
      && NativeCode.ScanRequest(cmd[12..]) == Some(q)
  {
    var f := FullName(filename);
    FullNameUnblank(filename);
    var a, b, c := NatToString(bpr), NatToString(row), NatToString(column);
    var cmd := TableLookupCommand(filename, bpr, row, column).value;
    assert cmd == "tablelookup " + f + " " + a + " " + b + " " + c;
    RequestTextShape("tablelookup ", f, a, b, c);
    ScanRequestOf(f, bpr, row, column);
  }

  /** The command text regrouped so that each blank leads its number. */
  lemma RequestTextShape(p: string, f: string, a: string, b: string, c: string)
    ensures var x := f + ((" " + a) + ((" " + b) + (" " + c)));
      f + " " + a + " " + b + " " + c == x && p + f + " " + a + " " + b + " " + c == p + x && (p + x)[|p|..] == x
  {
  }

  /** ScanRequest chains one "%s" and three "%f" conversions. */
  lemma ScanRequestSteps(tail: string, f: string, r1: string, r2: string, r3: string, x: real, y: real, z: real)
    requires NativeCode.ScanWord(tail) == Some((f, r1))
    requires NativeCode.ScanFloat(r1) == Some((x, r2))
    requires NativeCode.ScanFloat(r2) == Some((y, r3))
    requires NativeCode.ScanFloat(r3) == Some((z, []))
    ensures NativeCode.ScanRequest(tail) == Some(NativeCode.Request(f, x, y, z))
  {
  }

  /** The full name of a file name without blanks has no blanks. */
  lemma FullNameUnblank(filename: string)
    requires forall c :: c in filename ==> !IsNumberBlank(c)
    ensures forall c :: c in FullName(filename) ==> !IsNumberBlank(c)
  {
    var f := FullName(filename);
    forall ch | ch in f ensures !IsNumberBlank(ch) {
      if !StartsWith(filename, "/") {
        assert f == PRJS + filename;
        if ch !in filename {
          assert ch in PRJS;
        }
      }
    }
  }

  /** The request text of a path starting with '/' and without blanks, and
      three non-negative numbers, scans back to that request. */
  lemma ScanRequestOf(f: string, bpr: nat, row: nat, column: nat)
    requires StartsWith(f, "/") && forall c :: c in f ==> !IsNumberBlank(c)
    ensures NativeCode.ScanRequest(f + " " + NatToString(bpr) + " " + NatToString(row) + " " + NatToString(column))
      == Some(NativeCode.Request(f, bpr as real, row as real, column as real))
  {
    var a, b, c := NatToString(bpr), NatToString(row), NatToString(column);
    var r3 := " " + c;
    var r2 := " " + b + r3;
    var r1 := " " + a + r2;
    RequestTextShape([], f, a, b, c);
    assert f + " " + a + " " + b + " " + c == f + r1;
    ScanWordOf(f, r1);
    ScanNatural(bpr, r2);
    ScanNatural(row, r3);
    assert r3 == " " + c + [];
    ScanNatural(column, []);
    ScanRequestSteps(f + r1, f, r1, r2, r3, bpr as real, row as real, column as real);
  }

  /** "%s" reads a word starting with '/' up to the blank after it. */
  lemma ScanWordOf(f: string, rest: string)
    requires StartsWith(f, "/") && forall c :: c in f ==> !IsNumberBlank(c)
    requires rest == [] || rest[0] == ' '
    ensures NativeCode.ScanWord(f + rest) == Some((f, rest))
  {
    var t := f + rest;
    assert t[0] == '/';
    assert NumberTrimStart(t) == t;
    WordOf(f, rest);
    assert t[|f|..] == rest;
  }
}
