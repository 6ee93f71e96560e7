/** The explorer's persistent settings: window geometry, the local directory
    and the program filter, read from and written to lines of "KEY=value". */
module ExplorerSettingsFile {
  import opened Common

  /** The five settings as one value. */
  datatype Fields = Fields(width: int, height: int, splitter: int, localDirectory: string, onlyShowPrograms: bool)

  /** String.StartsWith with StringComparison.InvariantCultureIgnoreCase, on
      ASCII letters. */
  predicate StartsWithIgnoreCase(s: string, prefix: string)
  {
    |prefix| <= |s| && forall i :: 0 <= i < |prefix| ==> UpperChar(s[i]) == UpperChar(prefix[i])
  }

  /** Int32.TryParse into the field: the parsed value, or 0 when the text is
      not an int. */
  function TryParse(s: string): (v: int)
    ensures IsInt32(v)
    ensures ParseInt32(s).None? ==> v == 0
  {
    match ParseInt32(s)
    case Some(n) => n
    case None => 0
  }

  /** The five tests of Load, one per key, on a trimmed line. */
  function SetWidth(f: Fields, line: string): Fields
  {
    if StartsWithIgnoreCase(line, "WIDTH=") then f.(width := TryParse(Trim(line[6..]))) else f
  }

  function SetHeight(f: Fields, line: string): Fields
  {
    if StartsWithIgnoreCase(line, "HEIGHT=") then f.(height := TryParse(Trim(line[7..]))) else f
  }

  function SetSplitter(f: Fields, line: string): Fields
  {
    if StartsWithIgnoreCase(line, "SPLITTER=") then f.(splitter := TryParse(Trim(line[9..]))) else f
  }

  function SetLocalDirectory(f: Fields, line: string): Fields
  {
    if StartsWithIgnoreCase(line, "LOCALDIR=") then f.(localDirectory := Trim(line[9..])) else f
  }

  function SetFilter(f: Fields, line: string): Fields
  {
    if StartsWithIgnoreCase(line, "ONLYSHOWPROGRAMS") then f.(onlyShowPrograms := true) else f
  }

  /** The effect of one line read by Load. The line is trimmed; every key it
      starts with (ignoring case) sets its field from the trimmed rest, and an
      ONLYSHOWPROGRAMS line only ever sets the flag. */
  function ApplyLine(f: Fields, raw: string): Fields
  {
    var line := Trim(raw);
    SetFilter(SetLocalDirectory(SetSplitter(SetHeight(SetWidth(f, line), line), line), line), line)
  }

  /** ApplyLine field by field. */
  lemma ApplyLineFields(f: Fields, raw: string)
    ensures var line := Trim(raw);
      ApplyLine(f, raw) == Fields(
        if StartsWithIgnoreCase(line, "WIDTH=") then TryParse(Trim(line[6..])) else f.width,
        if StartsWithIgnoreCase(line, "HEIGHT=") then TryParse(Trim(line[7..])) else f.height,
        if StartsWithIgnoreCase(line, "SPLITTER=") then TryParse(Trim(line[9..])) else f.splitter,
        if StartsWithIgnoreCase(line, "LOCALDIR=") then Trim(line[9..]) else f.localDirectory,
        f.onlyShowPrograms || StartsWithIgnoreCase(line, "ONLYSHOWPROGRAMS"))
  {
  }

  /** The settings after the lines, read in order. */
  function ApplyLines(f: Fields, lines: seq<string>): Fields
    decreases |lines|
  {
    if lines == [] then f else ApplyLines(ApplyLine(f, lines[0]), lines[1..])
  }

  /** The lines Save writes for the settings. */
  function SaveLines(f: Fields): (lines: seq<string>)
    ensures |lines| == if f.onlyShowPrograms then 5 else 4
  {
    ["WIDTH=" + IntToString(f.width), "HEIGHT=" + IntToString(f.height),
     "SPLITTER=" + IntToString(f.splitter), "LOCALDIR=" + f.localDirectory]
    + (if f.onlyShowPrograms then ["ONLYSHOWPROGRAMS"] else [])
  }

  const Defaults: Fields := Fields(800, 600, 400, "", false)

  class ExplorerSettings {
    var windowWidth: int
    var windowHeight: int
    var splitterPosition: int
    var localDirectory: string
    var onlyShowPrograms: bool

    function State(): Fields
      reads this
    {
      Fields(windowWidth, windowHeight, splitterPosition, localDirectory, onlyShowPrograms)
    }

    /** The defaults: 800 by 600, splitter at 400, no local directory, all
        files shown. */
    constructor ()
      ensures State() == Defaults
    {
      windowWidth := 800;
      windowHeight := 600;
      splitterPosition := 400;
      localDirectory := "";
      onlyShowPrograms := false;
    }

    /** `Load`, over the lines of the settings file. */
    method Load(lines: seq<string>)
      modifies this
      ensures State() == ApplyLines(old(State()), lines)
    {
      var i := 0;
      while i < |lines|
        invariant 0 <= i <= |lines|
        invariant ApplyLines(old(State()), lines) == ApplyLines(State(), lines[i..])
      {
        LoadLine(lines[i]);
        assert lines[i..][1..] == lines[i + 1..];
        i := i + 1;
      }
    }

    /** The body of Load's loop: one line. */
    method LoadLine(raw: string)
      modifies this
      ensures State() == ApplyLine(old(State()), raw)
    {
      var line := Trim(raw);
      LoadWidth(line);
      LoadHeight(line);
      LoadSplitter(line);
      LoadLocalDirectory(line);
      LoadFilter(line);
    }

    /** The five tests of Load's loop body, one key each. */
    method LoadWidth(line: string)
      modifies this
      ensures State() == SetWidth(old(State()), line)
    {
      ghost var g := SetWidth(State(), line);
      if StartsWithIgnoreCase(line, "WIDTH=") {
        windowWidth := TryParse(Trim(line[6..]));
      }
      assert State() == g;
    }

    method LoadHeight(line: string)
      modifies this
      ensures State() == SetHeight(old(State()), line)
    {
      ghost var g := SetHeight(State(), line);
      if StartsWithIgnoreCase(line, "HEIGHT=") {
        windowHeight := TryParse(Trim(line[7..]));
      }
      assert State() == g;
    }

    method LoadSplitter(line: string)
      modifies this
      ensures State() == SetSplitter(old(State()), line)
    {
      ghost var g := SetSplitter(State(), line);
      if StartsWithIgnoreCase(line, "SPLITTER=") {
        splitterPosition := TryParse(Trim(line[9..]));
      }
      assert State() == g;
    }

    method LoadLocalDirectory(line: string)
      modifies this
      ensures State() == SetLocalDirectory(old(State()), line)
    {
      ghost var g := SetLocalDirectory(State(), line);
      if StartsWithIgnoreCase(line, "LOCALDIR=") {
        localDirectory := Trim(line[9..]);
      }
      assert State() == g;
    }

    method LoadFilter(line: string)
      modifies this
      ensures State() == SetFilter(old(State()), line)
    {
      if StartsWithIgnoreCase(line, "ONLYSHOWPROGRAMS") {
        onlyShowPrograms := true;
      }
    }

    /** `Save`: the lines written to the settings file. */
    method Save() returns (lines: seq<string>)
      ensures lines == SaveLines(State())
    {
      lines := ["WIDTH=" + IntToString(windowWidth)];
      lines := lines + ["HEIGHT=" + IntToString(windowHeight)];
      lines := lines + ["SPLITTER=" + IntToString(splitterPosition)];
      lines := lines + ["LOCALDIR=" + localDirectory];
      if onlyShowPrograms {
        lines := lines + ["ONLYSHOWPROGRAMS"];
      }
    }
  }

  /** Lines are applied one after another, so a later line overrides an
      earlier one. */
  lemma {:induction false} ApplyLinesAppend(f: Fields, a: seq<string>, b: seq<string>)
    ensures ApplyLines(f, a + b) == ApplyLines(ApplyLines(f, a), b)
    decreases |a|
  {
    if a != [] {
      assert (a + b)[0] == a[0];
      assert (a + b)[1..] == a[1..] + b;
      ApplyLinesAppend(ApplyLine(f, a[0]), a[1..], b);
    } else {
      assert a + b == b;
    }
  }

  /** Load never clears the program filter. */
  lemma {:induction false} LoadKeepsFilter(f: Fields, lines: seq<string>)
    requires f.onlyShowPrograms
    ensures ApplyLines(f, lines).onlyShowPrograms
    decreases |lines|
  {
    if lines != [] {
      LoadKeepsFilter(ApplyLine(f, lines[0]), lines[1..]);
    }
  }

  /** A WIDTH line whose value is not an int sets the width to 0. */
  lemma UnparsableIsZero(f: Fields, raw: string)
    requires StartsWithIgnoreCase(Trim(raw), "WIDTH=")
    requires ParseInt32(Trim(Trim(raw)[6..])).None?
    ensures ApplyLine(f, raw).width == 0
  {
    var line := Trim(raw);
    assert SetWidth(f, line).width == 0;
  }

  /** The text Save writes for a number, as Load sees it: no surrounding
      blanks, and Int32.TryParse gives the number back. */
  predicate NumberText(t: string, n: int)
  {
    t != [] && !IsBlank(t[0]) && !IsBlank(t[|t| - 1]) && TryParse(t) == n
  }

  lemma SavedNumber(n: int)
    requires IsInt32(n)
    ensures NumberText(IntToString(n), n)
  {
    IntToStringTrimmed(n);
    ParseIntToString(n);
  }

  /** A line Save writes, a key followed by its value, as Load reads it:
      trimming leaves it alone, it starts with the key, and what follows the
      key is the value, which trimming leaves alone too. */
  lemma KeyText(key: string, t: string)
    requires |key| > 0 && !IsBlank(key[0]) && !IsBlank(key[|key| - 1])
    requires t == [] || (!IsBlank(t[0]) && !IsBlank(t[|t| - 1]))
    ensures Trim(key + t) == key + t
    ensures StartsWithIgnoreCase(key + t, key)
    ensures (key + t)[|key|..] == t && Trim(t) == t
  {
    KeyTextTrimmed(key, t);
    KeyTextStarts(key, t);
    TrimOfTrimmed(t);
  }

  lemma KeyTextStarts(key: string, t: string)
    ensures StartsWithIgnoreCase(key + t, key)
    ensures (key + t)[|key|..] == t
  {
    var l := key + t;
    assert l[|key|..] == t;
    assert forall i :: 0 <= i < |key| ==> l[i] == key[i];
  }

  lemma KeyTextTrimmed(key: string, t: string)
    requires |key| > 0 && !IsBlank(key[0]) && !IsBlank(key[|key| - 1])
    requires t == [] || !IsBlank(t[|t| - 1])
    ensures Trim(key + t) == key + t
  {
    var l := key + t;
    assert l[0] == key[0];
    assert l[|l| - 1] == if t == [] then key[|key| - 1] else t[|t| - 1];
    TrimOfTrimmed(l);
  }

  /** A line whose first letter differs from a key's (ignoring case) does
      not start with that key. */
  lemma OtherKey(key: string, t: string, other: string)
    requires |key| > 0 && |other| > 0 && UpperChar(key[0]) != UpperChar(other[0])
    ensures !StartsWithIgnoreCase(key + t, other)
  {
    assert (key + t)[0] == key[0];
  }

  /** A trimmed line that starts with exactly one key sets exactly that
      field. */
  lemma OnlyWidth(f: Fields, l: string, n: int)
    requires Trim(l) == l && |l| >= 6 && TryParse(Trim(l[6..])) == n
    requires StartsWithIgnoreCase(l, "WIDTH=")
    requires !StartsWithIgnoreCase(l, "HEIGHT=") && !StartsWithIgnoreCase(l, "SPLITTER=")
    requires !StartsWithIgnoreCase(l, "LOCALDIR=") && !StartsWithIgnoreCase(l, "ONLYSHOWPROGRAMS")
    ensures ApplyLine(f, l) == f.(width := n)
  {
    ApplyLineFields(f, l);
  }

  lemma OnlyHeight(f: Fields, l: string, n: int)
    requires Trim(l) == l && |l| >= 7 && TryParse(Trim(l[7..])) == n
    requires StartsWithIgnoreCase(l, "HEIGHT=")
    requires !StartsWithIgnoreCase(l, "WIDTH=") && !StartsWithIgnoreCase(l, "SPLITTER=")
    requires !StartsWithIgnoreCase(l, "LOCALDIR=") && !StartsWithIgnoreCase(l, "ONLYSHOWPROGRAMS")
    ensures ApplyLine(f, l) == f.(height := n)
  {
    ApplyLineFields(f, l);
  }

  lemma OnlySplitter(f: Fields, l: string, n: int)
    requires Trim(l) == l && |l| >= 9 && TryParse(Trim(l[9..])) == n
    requires StartsWithIgnoreCase(l, "SPLITTER=")
    requires !StartsWithIgnoreCase(l, "WIDTH=") && !StartsWithIgnoreCase(l, "HEIGHT=")
    requires !StartsWithIgnoreCase(l, "LOCALDIR=") && !StartsWithIgnoreCase(l, "ONLYSHOWPROGRAMS")
    ensures ApplyLine(f, l) == f.(splitter := n)
  {
    ApplyLineFields(f, l);
  }

  lemma OnlyDirectory(f: Fields, l: string, d: string)
    requires Trim(l) == l && |l| >= 9 && Trim(l[9..]) == d
    requires StartsWithIgnoreCase(l, "LOCALDIR=")
    requires !StartsWithIgnoreCase(l, "WIDTH=") && !StartsWithIgnoreCase(l, "HEIGHT=")
    requires !StartsWithIgnoreCase(l, "SPLITTER=") && !StartsWithIgnoreCase(l, "ONLYSHOWPROGRAMS")
    ensures ApplyLine(f, l) == f.(localDirectory := d)
  {
    ApplyLineFields(f, l);
  }

  /** A saved WIDTH line sets exactly the width. */
  lemma WidthLine(f: Fields, t: string, n: int)
    requires NumberText(t, n)
    ensures ApplyLine(f, "WIDTH=" + t) == f.(width := n)
  {
    OtherKey("WIDTH=", t, "HEIGHT=");
    OtherKey("WIDTH=", t, "SPLITTER=");
    OtherKey("WIDTH=", t, "LOCALDIR=");
    OtherKey("WIDTH=", t, "ONLYSHOWPROGRAMS");
    KeyText("WIDTH=", t);
    OnlyWidth(f, "WIDTH=" + t, n);
  }

  /** A saved HEIGHT line sets exactly the height. */
  lemma HeightLine(f: Fields, t: string, n: int)
    requires NumberText(t, n)
    ensures ApplyLine(f, "HEIGHT=" + t) == f.(height := n)
  {
    OtherKey("HEIGHT=", t, "WIDTH=");
    OtherKey("HEIGHT=", t, "SPLITTER=");
    OtherKey("HEIGHT=", t, "LOCALDIR=");
    OtherKey("HEIGHT=", t, "ONLYSHOWPROGRAMS");
    KeyText("HEIGHT=", t);
    OnlyHeight(f, "HEIGHT=" + t, n);
  }

  /** A saved SPLITTER line sets exactly the splitter position. */
  lemma SplitterLine(f: Fields, t: string, n: int)
    requires NumberText(t, n)
    ensures ApplyLine(f, "SPLITTER=" + t) == f.(splitter := n)
  {
    OtherKey("SPLITTER=", t, "WIDTH=");
    OtherKey("SPLITTER=", t, "HEIGHT=");
    OtherKey("SPLITTER=", t, "LOCALDIR=");
    OtherKey("SPLITTER=", t, "ONLYSHOWPROGRAMS");
    KeyText("SPLITTER=", t);
    OnlySplitter(f, "SPLITTER=" + t, n);
  }

  /** A saved LOCALDIR line sets exactly the directory, when the directory has
      no surrounding blanks. */
  lemma DirectoryLine(f: Fields, d: string)
    requires d == [] || (!IsBlank(d[0]) && !IsBlank(d[|d| - 1]))
    ensures ApplyLine(f, "LOCALDIR=" + d) == f.(localDirectory := d)
  {
    OtherKey("LOCALDIR=", d, "WIDTH=");
    OtherKey("LOCALDIR=", d, "HEIGHT=");
    OtherKey("LOCALDIR=", d, "SPLITTER=");
    OtherKey("LOCALDIR=", d, "ONLYSHOWPROGRAMS");
    KeyText("LOCALDIR=", d);
    OnlyDirectory(f, "LOCALDIR=" + d, d);
  }

  /** The filter line sets exactly the flag. */
  lemma FilterLine(f: Fields)
    ensures ApplyLine(f, "ONLYSHOWPROGRAMS") == f.(onlyShowPrograms := true)
  {
    OtherKey("ONLYSHOWPROGRAMS", [], "WIDTH=");
    OtherKey("ONLYSHOWPROGRAMS", [], "HEIGHT=");
    OtherKey("ONLYSHOWPROGRAMS", [], "SPLITTER=");
    OtherKey("ONLYSHOWPROGRAMS", [], "LOCALDIR=");
    KeyText("ONLYSHOWPROGRAMS", []);
    assert "ONLYSHOWPROGRAMS" + [] == "ONLYSHOWPROGRAMS";
    ApplyLineFields(f, "ONLYSHOWPROGRAMS");
  }


  /** Loading the lines Save wrote into fresh settings restores every field,
      provided the numbers are ints and the local directory has no
      surrounding blanks (which the trimming in Load would drop) and no line
      break (which the file would split into two lines). */
  lemma SaveLoadRoundTrip(f: Fields)
    requires IsInt32(f.width) && IsInt32(f.height) && IsInt32(f.splitter)
    requires '\n' !in f.localDirectory && '\r' !in f.localDirectory
    requires f.localDirectory == [] || (!IsBlank(f.localDirectory[0]) && !IsBlank(f.localDirectory[|f.localDirectory| - 1]))
    ensures ApplyLines(Defaults, SaveLines(f)) == f
  {
    SavedNumber(f.width);
    SavedNumber(f.height);
    SavedNumber(f.splitter);
    LoadSavedText(f, IntToString(f.width), IntToString(f.height), IntToString(f.splitter));
  }

  /** The round trip over any number texts Load reads back exactly. */
  lemma LoadSavedText(f: Fields, w: string, h: string, sp: string)
    requires NumberText(w, f.width) && NumberText(h, f.height) && NumberText(sp, f.splitter)
    requires f.localDirectory == [] || (!IsBlank(f.localDirectory[0]) && !IsBlank(f.localDirectory[|f.localDirectory| - 1]))
    ensures ApplyLines(Defaults, ["WIDTH=" + w, "HEIGHT=" + h, "SPLITTER=" + sp, "LOCALDIR=" + f.localDirectory]
                                 + (if f.onlyShowPrograms then ["ONLYSHOWPROGRAMS"] else [])) == f
  {
    var rest: seq<string> := if f.onlyShowPrograms then ["ONLYSHOWPROGRAMS"] else [];
    var f1 := Defaults.(width := f.width);
    var f2 := f1.(height := f.height);
    var f3 := f2.(splitter := f.splitter);
    var f4 := f3.(localDirectory := f.localDirectory);
    WidthLine(Defaults, w, f.width);
    HeightLine(f1, h, f.height);
    SplitterLine(f2, sp, f.splitter);
    DirectoryLine(f3, f.localDirectory);
    ApplyFourLines(Defaults, f1, f2, f3, f4, "WIDTH=" + w, "HEIGHT=" + h, "SPLITTER=" + sp, "LOCALDIR=" + f.localDirectory, rest);
    if f.onlyShowPrograms {
      FilterLine(f4);
      ApplyLinesStep(f4, f, rest);
      assert rest[1..] == [];
    }
  }

  /** Four steps of ApplyLines. */
  lemma ApplyFourLines(f0: Fields, f1: Fields, f2: Fields, f3: Fields, f4: Fields,
                       l0: string, l1: string, l2: string, l3: string, rest: seq<string>)
    requires ApplyLine(f0, l0) == f1 && ApplyLine(f1, l1) == f2
    requires ApplyLine(f2, l2) == f3 && ApplyLine(f3, l3) == f4
    ensures ApplyLines(f0, [l0, l1, l2, l3] + rest) == ApplyLines(f4, rest)
  {
    ApplyTwoLines(f0, f1, f2, l0, l1, [l2, l3] + rest);
    ApplyTwoLines(f2, f3, f4, l2, l3, rest);
    assert [l0, l1, l2, l3] + rest == [l0, l1] + ([l2, l3] + rest);
  }

  lemma ApplyTwoLines(f0: Fields, f1: Fields, f2: Fields, l0: string, l1: string, rest: seq<string>)
    requires ApplyLine(f0, l0) == f1 && ApplyLine(f1, l1) == f2
    ensures ApplyLines(f0, [l0, l1] + rest) == ApplyLines(f2, rest)
  {
    var ls := [l0, l1] + rest;
    ApplyLinesStep(f0, f1, ls);
    ApplyLinesStep(f1, f2, ls[1..]);
    assert ls[1..][1..] == rest;
  }

  /** One step of ApplyLines. */
  lemma ApplyLinesStep(f: Fields, g: Fields, lines: seq<string>)
    requires lines != [] && ApplyLine(f, lines[0]) == g
    ensures ApplyLines(f, lines) == ApplyLines(g, lines[1..])
  {
  }


}
