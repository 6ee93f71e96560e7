/** The token scanner of the Basic compiler: it walks the source line by line
    and delivers one symbol at a time, with a stack of pushed-back symbols
    that are delivered again before scanning resumes. */
module Scanning {
  import opened Common

  datatype SymType = ID | NUMBER | STRING | KEYWORD | SPECIAL | EOL | EOF | PRAGMA

  /** The sixteen words that scan as KEYWORD rather than ID. */
  const Keywords: set<string> := {
    "AND", "ELSE", "ELSEIF", "ENDFOR", "ENDIF", "ENDSUB", "ENDWHILE", "FOR",
    "GOTO", "IF", "OR", "STEP", "SUB", "THEN", "TO", "WHILE" }

  predicate IsSpace(c: char) { c == ' ' || c == '\t' }
  predicate IsNumberChar(c: char) { IsDigit(c) || c == '.' }
  predicate IsIdentStart(c: char) { IsLetter(c) || c == '_' }
  predicate IsIdentChar(c: char) { IsIdentStart(c) || IsDigit(c) }

  /** A character that starts none of the other kinds of symbol. */
  predicate IsSpecialStart(c: char)
  {
    !IsDigit(c) && c != '"' && !IsIdentStart(c) && c != '\'' && !IsSpace(c)
  }

  predicate IsPragmaLine(line: string) { StartsWith(line, "'PRAGMA ") }

  /** The line a line number designates: the reader's list ends with a null
      entry after the last line of text. */
  function LineAt(lines: seq<string>, n: nat): (r: Option<string>)
    ensures r.Some? <==> n < |lines|
    ensures n < |lines| ==> r.value == lines[n]
  {
    if n < |lines| then Some(lines[n]) else None
  }

  /** The end of the run of digits and '.' that begins at i. */
  function NumberEnd(line: string, i: nat): (e: nat)
    requires i <= |line|
    ensures i <= e <= |line|
    ensures forall k :: i <= k < e ==> IsNumberChar(line[k])
    ensures e == |line| || !IsNumberChar(line[e])
    decreases |line| - i
  {
    if i < |line| && IsNumberChar(line[i]) then NumberEnd(line, i + 1) else i
  }

  /** The end of the run of identifier characters that begins at i. */
  function IdentEnd(line: string, i: nat): (e: nat)
    requires i <= |line|
    ensures i <= e <= |line|
    ensures forall k :: i <= k < e ==> IsIdentChar(line[k])
    ensures e == |line| || !IsIdentChar(line[e])
    decreases |line| - i
  {
    if i < |line| && IsIdentChar(line[i]) then IdentEnd(line, i + 1) else i
  }

  /** How the search for a string's closing quote ends: just after the
      quote, or at the column where the line ran out. */
  datatype StringScan = Closed(end: nat) | Open(column: nat)

  /** The search for the closing quote of a string whose text starts at col.
      A quote followed by a second quote continues the string; the scan then
      also passes over the character after the pair without looking at it. */
  function StringEnd(line: string, col: nat): (r: StringScan)
    ensures r.Closed? ==> col < r.end <= |line| && line[r.end - 1] == '"'
    ensures r.Closed? ==> r.end == |line| || line[r.end] != '"'
    ensures r.Open? ==> r.column >= |line| && r.column >= col
    decreases |line| - col
  {
    if col >= |line| then Open(col)
    else if line[col] == '"' then
      if col + 1 < |line| && line[col + 1] == '"' then StringEnd(line, col + 3)
      else Closed(col + 1)
    else StringEnd(line, col + 1)
  }

  /** Text s without quotes, followed by a single quote, is a whole string. */
  lemma {:induction false} StringEndPlain(line: string, col: nat, s: string)
    requires col + |s| < |line| && line[col..col + |s|] == s && '"' !in s
    requires line[col + |s|] == '"'
    requires col + |s| + 1 == |line| || line[col + |s| + 1] != '"'
    ensures StringEnd(line, col) == Closed(col + |s| + 1)
    decreases |s|
  {
    if s != [] {
      assert line[col] == s[0];
      assert line[col + 1..col + 1 + |s[1..]|] == s[1..];
      StringEndPlain(line, col + 1, s[1..]);
    }
  }

  /** Without a quote in the rest of the line the string is not terminated. */
  lemma {:induction false} StringEndNoQuote(line: string, col: nat)
    requires forall k :: col <= k < |line| ==> line[k] != '"'
    ensures StringEnd(line, col).Open?
    decreases |line| - col
  {
    if col < |line| {
      StringEndNoQuote(line, col + 1);
    }
  }

  /** What one scan from a column of a line finds: a symbol, with the column
      where the skipped text ended and the column where scanning resumes, or a
      string that runs off the end of the line. */
  datatype Lexeme =
    | Lexeme(kind: SymType, content: string, start: nat, end: nat)
    | Unterminated(start: nat, column: nat)

  /** The symbol that begins at col, which is no blank and no comment. */
  function LexAt(line: string, col: nat): (r: Lexeme)
    requires col < |line|
  {
    var c := line[col];
    if IsDigit(c) then
      var e := NumberEnd(line, col + 1);
      Lexeme(NUMBER, line[col..e], col, e)
    else if c == '"' then
      match StringEnd(line, col + 1)
      case Closed(e) => Lexeme(STRING, line[col + 1..e - 1], col, e)
      case Open(k) => Unterminated(col, k)
    else if IsIdentStart(c) then
      var e := IdentEnd(line, col + 1);
      var w := Upper(line[col..e]);
      Lexeme(if w in Keywords then KEYWORD else ID, w, col, e)
    else if c == '<' && col + 1 < |line| && line[col + 1] == '=' then Lexeme(SPECIAL, "<=", col, col + 2)
    else if c == '>' && col + 1 < |line| && line[col + 1] == '=' then Lexeme(SPECIAL, ">=", col, col + 2)
    else if c == '<' && col + 1 < |line| && line[col + 1] == '>' then Lexeme(SPECIAL, "<>", col, col + 2)
    else Lexeme(SPECIAL, [c], col, col + 1)
  }

  /** One scan of a line from column col: a pragma line is one PRAGMA symbol,
      spaces and tabs are skipped, a quote starts a comment that ends the
      line, and the end of the line is an EOL symbol. */
  function Lex(line: string, col: nat): (r: Lexeme)
    decreases |line| - col
  {
    if col >= |line| then Lexeme(EOL, "", col, col)
    else if col == 0 && IsPragmaLine(line) then Lexeme(PRAGMA, Trim(line[8..]), 0, |line|)
    else if line[col] == '\'' then Lexeme(EOL, "", col, |line|)
    else if IsSpace(line[col]) then Lex(line, col + 1)
    else LexAt(line, col)
  }

  /** Two scans after which the scanner is in the same state: they differ at
      most in where the skipped text ended. */
  predicate SameEffect(x: Lexeme, y: Lexeme)
  {
    match x
    case Lexeme(k, c, _, e) => y.Lexeme? && y.kind == k && y.content == c && y.end == e
    case Unterminated(_, k) => y.Unterminated? && y.column == k
  }

  // ------------------------------------------------ the reading of a scan

  /** Columns i..j of the line hold only spaces and tabs. */
  predicate Gap(line: string, i: nat, j: nat)
  {
    (i < j ==> j <= |line|) && forall k :: i <= k < j ==> IsSpace(line[k])
  }

  /** An identifier occupies exactly columns s..e. */
  predicate IsIdentWord(line: string, s: nat, e: nat)
    requires s < e <= |line|
  {
    IsIdentStart(line[s])
    && (forall k :: s < k < e ==> IsIdentChar(line[k]))
    && (e == |line| || !IsIdentChar(line[e]))
  }

  /** A token of the given kind and content occupies exactly columns s..e. */
  predicate TokenAt(line: string, s: nat, kind: SymType, content: string, e: nat)
    requires s < e <= |line|
  {
    match kind
    case NUMBER =>
      IsDigit(line[s]) && content == line[s..e]
      && (forall k :: s < k < e ==> IsNumberChar(line[k]))
      && (e == |line| || !IsNumberChar(line[e]))
    case STRING =>
      line[s] == '"' && s + 2 <= e && line[e - 1] == '"'
      && (e == |line| || line[e] != '"')
      && content == line[s + 1..e - 1]
    case ID => IsIdentWord(line, s, e) && content == Upper(line[s..e]) && content !in Keywords
    case KEYWORD => IsIdentWord(line, s, e) && content == Upper(line[s..e]) && content in Keywords
    case SPECIAL =>
      IsSpecialStart(line[s]) && content == line[s..e]
      && (e == s + 1 || (e == s + 2 && (content == "<=" || content == ">=" || content == "<>")))
      && (e == s + 1 && e < |line| ==>
            !(line[s] == '<' && (line[e] == '=' || line[e] == '>')) && !(line[s] == '>' && line[e] == '='))
    case _ => false
  }

  /** What a scan from col must deliver, stated without the scanning steps:
      after a gap of spaces and tabs, the end of the line (possibly at a
      comment), a token occupying the columns it reports, or an opening quote
      whose string does not close. */
  predicate WellScanned(line: string, col: nat, r: Lexeme)
  {
    if col == 0 && IsPragmaLine(line) then
      r == Lexeme(PRAGMA, Trim(line[8..]), 0, |line|)
    else
      col <= r.start && Gap(line, col, r.start) &&
      match r
      case Unterminated(s, k) => s < |line| && line[s] == '"' && k >= |line| && StringEnd(line, s + 1).Open?
      case Lexeme(kind, content, s, e) =>
        if kind == EOL then content == "" && (s >= |line| || line[s] == '\'')
        else s < e <= |line| && TokenAt(line, s, kind, content, e)
  }

  lemma LexAtSound(line: string, col: nat)
    requires col < |line| && line[col] != '\'' && !IsSpace(line[col])
    requires col != 0 || !IsPragmaLine(line)
    ensures WellScanned(line, col, LexAt(line, col))
  {
    var c := line[col];
    if IsDigit(c) || c == '"' || IsIdentStart(c) {
    } else {
      assert IsSpecialStart(c);
    }
  }

  /** Every scan delivers what WellScanned describes. */
  lemma {:induction false} LexSound(line: string, col: nat)
    ensures WellScanned(line, col, Lex(line, col))
    decreases |line| - col
  {
    if col >= |line| || (col == 0 && IsPragmaLine(line)) || line[col] == '\'' {
    } else if IsSpace(line[col]) {
      LexSound(line, col + 1);
      var r := Lex(line, col + 1);
      assert Gap(line, col + 1, r.start);
    } else {
      LexAtSound(line, col);
    }
  }

  /** A doubled quote stays in the string's content as two characters. */
  lemma DoubledQuoteKept()
    ensures Lex("\"a\"\"b\"", 0) == Lexeme(STRING, "a\"\"b", 0, 6)
  {
    assert StringEnd("\"a\"\"b\"", 1) == Closed(6);
  }

  /** The character after a doubled quote is passed over unexamined, so a
      string that ends in a doubled quote followed by its closing quote is
      reported as not terminated. */
  lemma DoubledQuoteSkipsNext()
    ensures Lex("\"a\"\"\"", 0) == Unterminated(0, 5)
  {
    assert StringEnd("\"a\"\"\"", 1) == Open(5);
  }

  function UnterminatedMessage(linenumber: nat, column: nat): string
  {
    "Nonterminated string at: " + IntToString(linenumber + 1) + ":" + IntToString(column + 1)
  }

  // --------------------------------------------------------- the scanner

  class Scanner {
    var lines: seq<string>
    var line: Option<string>
    var linenumber: nat
    var columnnumber: nat
    var nexttype: SymType
    var nextcontent: string
    var pushbackTypes: seq<SymType>
    var pushbackContents: seq<string>

    ghost predicate Valid()
      reads this
    {
      linenumber <= |lines| && line == LineAt(lines, linenumber)
      && |pushbackTypes| == |pushbackContents|
    }

    /** The scanner over the lines the reader delivered before its null. */
    constructor (source: seq<string>)
      ensures Valid() && lines == source
      ensures linenumber == 0 && columnnumber == 0 && nexttype == EOF && nextcontent == ""
      ensures pushbackTypes == [] && pushbackContents == []
    {
      lines := source;
      new;
      StartFromBegin();
    }

    /** Rewinds to the first column of the first line with nothing pushed back. */
    method StartFromBegin()
      modifies this
      ensures Valid() && lines == old(lines)
      ensures linenumber == 0 && columnnumber == 0 && nexttype == EOF && nextcontent == ""
      ensures pushbackTypes == [] && pushbackContents == []
    {
      nexttype := EOF;
      nextcontent := "";
      linenumber := 0;
      columnnumber := 0;
      line := LineAt(lines, 0);
      pushbackTypes := [];
      pushbackContents := [];
    }

    predicate NextIsKeyword(txt: string)
      reads this
    {
      nexttype == KEYWORD && nextcontent == txt
    }

    predicate NextIsSpecial(txt: string)
      reads this
    {
      nexttype == SPECIAL && nextcontent == txt
    }

    /** Makes (previoustype, previouscontent) current again; the current
        symbol goes on top of the push-back stack. */
    method PushBack(previoustype: SymType, previouscontent: string)
      requires Valid()
      modifies this`nexttype, this`nextcontent, this`pushbackTypes, this`pushbackContents
      ensures Valid()
      ensures pushbackTypes == old(pushbackTypes) + [old(nexttype)]
      ensures pushbackContents == old(pushbackContents) + [old(nextcontent)]
      ensures nexttype == previoustype && nextcontent == previouscontent
    {
      pushbackTypes := pushbackTypes + [nexttype];
      pushbackContents := pushbackContents + [nextcontent];
      nexttype := previoustype;
      nextcontent := previouscontent;
    }

    /** Advances to the next symbol: the top of the push-back stack if there
        is one, EOF once the lines are used up, and otherwise the result of
        scanning the current line from the current column. */
    method GetSym() returns (r: Result<()>)
      requires Valid()
      modifies this
      ensures Valid() && lines == old(lines)
      ensures old(pushbackTypes) != [] ==>
                var n := |old(pushbackTypes)| - 1;
                && r.Ok?
                && nexttype == old(pushbackTypes)[n] && nextcontent == old(pushbackContents)[n]
                && pushbackTypes == old(pushbackTypes)[..n] && pushbackContents == old(pushbackContents)[..n]
                && linenumber == old(linenumber) && columnnumber == old(columnnumber)
      ensures old(pushbackTypes) == [] && old(line).None? ==>
                && r.Ok? && nexttype == EOF && nextcontent == ""
                && linenumber == old(linenumber) && columnnumber == old(columnnumber)
                && pushbackTypes == [] && pushbackContents == []
      ensures old(pushbackTypes) == [] && old(line).Some? ==>
                && pushbackTypes == [] && pushbackContents == []
                && match Lex(old(line).value, old(columnnumber))
                   case Lexeme(k, c, _, e) =>
                     && r.Ok? && nexttype == k && nextcontent == c
                     && (if k == EOL || k == PRAGMA
                         then linenumber == old(linenumber) + 1 && columnnumber == 0
                         else linenumber == old(linenumber) && columnnumber == e)
                   case Unterminated(_, k) =>
                     && r == Err(UnterminatedMessage(old(linenumber), k))
                     && linenumber == old(linenumber) && columnnumber == k
                     && nexttype == old(nexttype) && nextcontent == old(nextcontent)
                     && line == old(line)
    {
      if |pushbackTypes| > 0 {
        var n := |pushbackTypes| - 1;
        nexttype := pushbackTypes[n];
        nextcontent := pushbackContents[n];
        pushbackTypes := pushbackTypes[..n];
        pushbackContents := pushbackContents[..n];
        return Ok(());
      }
      if line.None? {
        nexttype := EOF;
        nextcontent := "";
        return Ok(());
      }
      var x := ScanLine(line.value, columnnumber);
      match x
      case Lexeme(k, content, _, e) =>
        nexttype := k;
        nextcontent := content;
        if k == EOL || k == PRAGMA {
          linenumber := linenumber + 1;
          line := LineAt(lines, linenumber);
          columnnumber := 0;
        } else {
          columnnumber := e;
        }
        r := Ok(());
      case Unterminated(_, k) =>
        columnnumber := k;
        r := Err(UnterminatedMessage(linenumber, k));
    }

    /** The scanning loop over one line from column col: it passes over
        spaces, tabs and comments and stops at the end of the line, at a
        pragma line or at the first character of a symbol. */
    static method ScanLine(l: string, col: nat) returns (x: Lexeme)
      ensures SameEffect(x, Lex(l, col))
    {
      var c := col;
      while true
        invariant SameEffect(Lex(l, c), Lex(l, col))
        decreases |l| - c
      {
        if c >= |l| {
          return Lexeme(EOL, "", c, c);
        }
        if c == 0 && IsPragmaLine(l) {
          return Lexeme(PRAGMA, Trim(l[8..]), 0, |l|);
        }
        if l[c] == '\'' {
          assert Lex(l, c) == Lexeme(EOL, "", c, |l|);
          c := |l|;
        } else if IsSpace(l[c]) {
          c := c + 1;
        } else {
          x := ScanToken(l, c);
          return;
        }
      }
    }

    /** Scans the symbol that begins at column col of l. */
    static method ScanToken(l: string, col: nat) returns (x: Lexeme)
      requires col < |l|
      ensures x == LexAt(l, col)
    {
      var c := l[col];
      if IsDigit(c) {
        var e := NumberRun(l, col + 1);
        x := Lexeme(NUMBER, l[col..e], col, e);
      } else if c == '"' {
        var s := StringRun(l, col + 1);
        match s
        case Open(k) => x := Unterminated(col, k);
        case Closed(e) => x := Lexeme(STRING, l[col + 1..e - 1], col, e);
      } else if IsIdentStart(c) {
        var e := IdentRun(l, col + 1);
        var w := Upper(l[col..e]);
        x := Lexeme(if w in Keywords then KEYWORD else ID, w, col, e);
      } else {
        x := Lexeme(SPECIAL, [c], col, col + 1);
        if c == '<' && col + 1 < |l| && l[col + 1] == '=' {
          x := Lexeme(SPECIAL, "<=", col, col + 2);
        } else if c == '>' && col + 1 < |l| && l[col + 1] == '=' {
          x := Lexeme(SPECIAL, ">=", col, col + 2);
        } else if c == '<' && col + 1 < |l| && l[col + 1] == '>' {
          x := Lexeme(SPECIAL, "<>", col, col + 2);
        }
      }
    }
  }

  /** The loop that passes over the rest of a number. */
  method NumberRun(l: string, i: nat) returns (e: nat)
    requires i <= |l|
    ensures e == NumberEnd(l, i)
  {
    e := i;
    while e < |l| && IsNumberChar(l[e])
      invariant i <= e <= |l| && NumberEnd(l, e) == NumberEnd(l, i)
      decreases |l| - e
    {
      e := e + 1;
    }
  }

  /** The loop that passes over the rest of an identifier. */
  method IdentRun(l: string, i: nat) returns (e: nat)
    requires i <= |l|
    ensures e == IdentEnd(l, i)
  {
    e := i;
    while e < |l| && IsIdentChar(l[e])
      invariant i <= e <= |l| && IdentEnd(l, e) == IdentEnd(l, i)
      decreases |l| - e
    {
      e := e + 1;
    }
  }

  /** The loop that looks for a string's closing quote. */
  method StringRun(l: string, i: nat) returns (s: StringScan)
    ensures s == StringEnd(l, i)
  {
    var col := i;
    while true
      invariant StringEnd(l, col) == StringEnd(l, i)
      decreases |l| - col
    {
      if col >= |l| {
        return Open(col);
      }
      if l[col] == '"' {
        col := col + 1;
        if col < |l| && l[col] == '"' {
          col := col + 1;
        } else {
          return Closed(col);
        }
      }
      col := col + 1;
    }
  }
}
