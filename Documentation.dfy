/** The string helpers of the documentation generator: re-indenting summary
    texts, shortening the member names of the compiler's XML documentation,
    and the parameter list of a documented function. */
module Documentation {
  import opened Common

  /** `TrimIndents`: while the first line break of the text is followed by a
      space, the rest after the break is trimmed and processed again. The
      source reads the character after the first '\n', so that character must
      exist. */
  function TrimIndents(s: string): (r: string)
    requires IndexOf(s, '\n') < 0 || IndexOf(s, '\n') + 1 < |s|
    ensures IndexOf(s, '\n') < 0 ==> r == s
    ensures IndexOf(s, '\n') >= 0 && s[IndexOf(s, '\n') + 1] != ' ' ==> r == s
    ensures StartsWith(r, s[..if IndexOf(s, '\n') < 0 then |s| else IndexOf(s, '\n') + 1])
    ensures |r| <= |s| && (r != [] ==> s != [] && r[0] == s[0])
    decreases |s|
  {
    var idx := IndexOf(s, '\n');
    if idx >= 0 && s[idx + 1] == ' ' then
      var rest := Trim(s[idx + 1..]);
      TrimmedLast(s[idx + 1..]);
      s[..idx + 1] + TrimIndents(rest)
    else s
  }

  /** A trimmed text never ends in a line break, so the precondition of
      TrimIndents holds for it. */
  lemma TrimmedLast(s: string)
    ensures IndexOf(Trim(s), '\n') < 0 || IndexOf(Trim(s), '\n') + 1 < |Trim(s)|
  {
  }

  /** Every line break of s is followed by a space. */
  ghost predicate IndentedBreaks(s: string)
  {
    forall i, j {:trigger s[i], s[j]} :: 0 <= i < j < |s| && j == i + 1 && s[i] == '\n' ==> s[j] == ' '
  }

  /** No line break of s is followed by a blank. */
  ghost predicate NoIndents(s: string)
  {
    forall i, j {:trigger s[i], s[j]} :: 0 <= i < j < |s| && j == i + 1 && s[i] == '\n' ==> !IsBlank(s[j])
  }

  /** Trimming the text after a line keeps its breaks indented. */
  lemma TrimKeepsIndentedBreaks(s: string, k: nat)
    requires k <= |s| && IndentedBreaks(s)
    ensures IndentedBreaks(Trim(s[k..]))
  {
    var t := s[k..];
    var st := TrimStart(t);
    var rest := Trim(t);
    var off := k + |t| - |st|;
    TrimStartSuffix(t);
    TrimEndPrefix(st);
    assert rest == st[..|rest|];
    forall i, j | 0 <= i < j < |rest| && j == i + 1 && rest[i] == '\n'
      ensures rest[j] == ' '
    {
      assert rest[i] == s[off + i] && rest[j] == s[off + j];
    }
  }

  /** When every line break of the text is followed by a space, no line
      break of the result is followed by a blank: every indentation is
      removed. */
  lemma {:induction false} NoIndentAfterBreaks(s: string)
    requires s == [] || s[|s| - 1] != '\n'
    requires IndentedBreaks(s)
    ensures IndexOf(s, '\n') < 0 || IndexOf(s, '\n') + 1 < |s|
    ensures NoIndents(TrimIndents(s))
    decreases |s|
  {
    var idx := IndexOf(s, '\n');
    if idx >= 0 {
      var t := s[idx + 1..];
      var rest := Trim(t);
      TrimKeepsIndentedBreaks(s, idx + 1);
      NoIndentAfterBreaks(rest);
      PrefixNoIndents(s[..idx + 1], rest, TrimIndents(rest));
    }
  }

  /** A first line ending in its only line break, followed by a re-indented
      text that starts like the trimmed rest, has no indentation. */
  lemma PrefixNoIndents(first: string, rest: string, tr: string)
    requires |first| > 0 && first[|first| - 1] == '\n' && '\n' !in first[..|first| - 1]
    requires rest == [] || !IsBlank(rest[0])
    requires |tr| <= |rest| && (tr != [] ==> tr[0] == rest[0])
    requires NoIndents(tr)
    ensures NoIndents(first + tr)
  {
    var r := first + tr;
    var idx := |first| - 1;
    forall i, j | 0 <= i < j < |r| && j == i + 1 && r[i] == '\n'
      ensures !IsBlank(r[j])
    {
      if i > idx {
        assert r[i] == tr[i - idx - 1] && r[j] == tr[j - idx - 1];
      }
    }
  }

  /** The member name without its parameter list: everything before the
      first '('. */
  function WithoutParameters(name: string): (n: string)
    ensures '(' !in n && StartsWith(name, n)
  {
    var paridx := IndexOf(name, '(');
    if paridx >= 0 then name[..paridx] else name
  }

  /** The name a documented member is filed under. A type ('T' kind) keeps
      the last dotted segment of its name and any other member the last two.
      The source searches for the second-to-last dot from the index before the
      last one, which fails with an exception when the last dot is at index 0
      or missing. */
  function MemberName(name: string): (r: Result<string>)
    requires |name| > 0
    ensures r.Err? <==> name[0] != 'T' && LastIndexOf(WithoutParameters(name), '.') < 1
  {
    var n := WithoutParameters(name);
    var dot := LastIndexOf(n, '.');
    if name[0] == 'T' then
      Ok(if dot >= 0 then n[dot + 1..] else n)
    else if dot < 1 then Err("Index was out of range. Must be non-negative and less than the size of the collection.")
    else
      var dot2 := LastIndexOf(n[..dot], '.');
      Ok(if dot2 >= 0 then n[dot2 + 1..] else n)
  }

  /** A type keeps the segment after its last dot; any other member keeps its
      last two segments: a suffix of the name whose only dot is the name's
      last dot. */
  lemma MemberNameSegments(name: string)
    requires |name| > 0 && MemberName(name).Ok?
    ensures var n := WithoutParameters(name); var r := MemberName(name).value;
      && EndsWith(n, r) && '(' !in r
      && (name[0] == 'T' ==> forall k :: |n| - |r| <= k < |n| ==> n[k] != '.')
      && (name[0] != 'T' ==>
            && |n| - |r| <= LastIndexOf(n, '.')
            && forall k :: |n| - |r| <= k < |n| && n[k] == '.' ==> k == LastIndexOf(n, '.'))
  {
    var n := WithoutParameters(name);
    var r := MemberName(name).value;
    if name[0] == 'T' {
      TypeMemberName(name);
      TypeSegment(n);
    } else {
      OtherMemberName(name);
      OtherSegments(n);
    }
    SuffixNoParen(n, r);
  }

  lemma TypeMemberName(name: string)
    requires |name| > 0 && name[0] == 'T'
    ensures var n := WithoutParameters(name); var dot := LastIndexOf(n, '.');
      MemberName(name) == Ok(if dot >= 0 then n[dot + 1..] else n)
  {
  }

  lemma OtherMemberName(name: string)
    requires |name| > 0 && name[0] != 'T' && MemberName(name).Ok?
    ensures var n := WithoutParameters(name); var dot := LastIndexOf(n, '.');
      && dot >= 1
      && var dot2 := LastIndexOf(n[..dot], '.');
         MemberName(name) == Ok(if dot2 >= 0 then n[dot2 + 1..] else n)
  {
  }

  /** A suffix of a text without '(' holds none. */
  lemma SuffixNoParen(n: string, r: string)
    requires '(' !in n && EndsWith(n, r)
    ensures '(' !in r
  {
    assert forall c :: c in r ==> c in n[|n| - |r|..];
  }

  lemma TypeSegment(n: string)
    ensures var dot := LastIndexOf(n, '.');
      var r := if dot >= 0 then n[dot + 1..] else n;
      && EndsWith(n, r)
      && forall k :: |n| - |r| <= k < |n| ==> n[k] != '.'
  {
  }

  lemma OtherSegments(n: string)
    requires LastIndexOf(n, '.') >= 1
    ensures var dot := LastIndexOf(n, '.');
      var dot2 := LastIndexOf(n[..dot], '.');
      var r := if dot2 >= 0 then n[dot2 + 1..] else n;
      && EndsWith(n, r)
      && |n| - |r| <= dot
      && forall k :: |n| - |r| <= k < |n| && n[k] == '.' ==> k == dot
  {
    var dot := LastIndexOf(n, '.');
    var dot2 := LastIndexOf(n[..dot], '.');
    var start := if dot2 >= 0 then dot2 + 1 else 0;
    forall k | start <= k < dot
      ensures n[k] != '.'
    {
      assert n[k] == n[..dot][k];
    }
  }

  /** `EV3Function.GetParameterList`: the parameter names in the dictionary's
      order, separated by ", " and enclosed in parentheses. */
  method GetParameterList(keys: seq<string>) returns (r: string)
    ensures r == "(" + Join(keys, ", ") + ")"
  {
    var b := "(";
    var first := true;
    var i := 0;
    while i < |keys|
      invariant 0 <= i <= |keys|
      invariant first <==> i == 0
      invariant b == "(" + Join(keys[..i], ", ")
    {
      if !first {
        b := b + ", ";
      }
      first := false;
      JoinSnoc(keys[..i], keys[i], ", ");
      assert keys[..i + 1] == keys[..i] + [keys[i]];
      b := b + keys[i];
      i := i + 1;
    }
    assert keys[..i] == keys;
    r := b + ")";
  }

  lemma {:induction false} JoinSnoc(parts: seq<string>, last: string, sep: string)
    ensures Join(parts + [last], sep) == if parts == [] then last else Join(parts, sep) + sep + last
    decreases |parts|
  {
    if |parts| >= 2 {
      JoinSnoc(parts[1..], last, sep);
      assert (parts + [last])[1..] == parts[1..] + [last];
    } else if |parts| == 1 {
      assert (parts + [last])[1..] == [last];
    }
  }
}
