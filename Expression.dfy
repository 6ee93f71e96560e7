/** The types of Basic variables and expressions. */
module ExpressionTypes {
  datatype ExpressionType = Number | Text | NumberArray | TextArray | Void
}

/** Expressions of the Basic dialect and the code the compiler generates for
    them: value computation of calls, conditional jumps, and the save and
    restore of locals around a possibly recursive function call. */
module Expressions {
  import opened Common
  import opened ExpressionTypes
  import opened FunctionDefinitions
  import opened BasicCompiler
  import opened LibraryEntries
  import opened FunctionCalls

  /** An expression tree. Number and Atomic have a prepared value (a
      literal or a variable); every other kind is a call of an LMS
      instruction template whose parameters are computed first. And and Or
      are the calls "CALL AND" and "CALL OR"; a comparison carries the two
      jump instructions used when it is a condition. A UserCall calls a
      function of the program itself, of which it knows the definition. */
  datatype Expression =
    | NumberLiteral(literal: string)
    | Atomic(etype: ExpressionType, v: string)
    | Call(etype: ExpressionType, template: string, parameters: seq<Expression>)
    | Comparison(template: string, jumpiftrue: string, jumpifnottrue: string, left: Expression, right: Expression)
    | And(left: Expression, right: Expression)
    | Or(left: Expression, right: Expression)
    | UserCall(callee: FunctionDefinition, etype: ExpressionType, parameters: seq<Expression>)

  function TypeOf(e: Expression): ExpressionType
  {
    match e
    case NumberLiteral(_) => Number
    case Atomic(t, _) => t
    case Call(t, _, _) => t
    case UserCall(_, t, _) => t
    case _ => Text
  }

  /** Where the value can be taken from without computing anything. */
  function PreparedValue(e: Expression): (r: Option<string>)
    ensures r.Some? <==> e.NumberLiteral? || e.Atomic?
  {
    match e
    case NumberLiteral(l) => Some(l)
    case Atomic(_, v) => Some(v)
    case _ => None
  }

  /** The instruction template of a call. */
  function Template(e: Expression): string
    requires PreparedValue(e).None? && !e.UserCall?
  {
    match e
    case Call(_, f, _) => f
    case Comparison(f, _, _, _, _) => f
    case And(_, _) => "CALL AND"
    case Or(_, _) => "CALL OR"
  }

  function Parameters(e: Expression): (ps: seq<Expression>)
    ensures forall p :: p in ps ==> p < e
  {
    match e
    case Call(_, _, ps) => ps
    case Comparison(_, _, _, l, r) => [l, r]
    case And(l, r) => [l, r]
    case Or(l, r) => [l, r]
    case UserCall(_, _, ps) => ps
    case _ => []
  }

  // ------------------------------------------------------ InjectPlaceholders

  const INDEX_OUT_OF_RANGE := "Index was out of range. Must be non-negative and less than the size of the collection."
  const NULL_REFERENCE := "Object reference not set to an instance of an object."

  /** String.IndexOf(c, from): the least index at or after from holding c,
      or -1. */
  function IndexFrom(s: string, c: char, from: nat): (r: int)
    requires from <= |s|
    ensures r == -1 || from <= r < |s|
    decreases |s| - from
  {
    if from == |s| then -1
    else if s[from] == c then from
    else IndexFrom(s, c, from + 1)
  }

  lemma {:induction false} IndexFromFacts(s: string, c: char, from: nat)
    requires from <= |s|
    ensures var r := IndexFrom(s, c, from);
            (r >= 0 ==> s[r] == c && forall k :: from <= k < r ==> s[k] != c)
            && (r == -1 ==> forall k :: from <= k < |s| ==> s[k] != c)
    decreases |s| - from
  {
    if from < |s| && s[from] != c {
      IndexFromFacts(s, c, from + 1);
    }
  }

  /** The text with the two characters at idx replaced by ins. */
  function Spliced(format: string, idx: nat, ins: string): (r: string)
    requires idx + 2 <= |format|
    ensures |r| == |format| - 2 + |ins|
  {
    format[..idx] + ins + format[idx + 2..]
  }

  /** The outcome of one round of the placeholder scan. */
  datatype Scan =
    | Finished(format: string, uses: seq<nat>)
    | Failed(msg: string)
    | Next(format: string, cursor: nat, uses: seq<nat>)

  /** One round of the scan from cursor: look for the next ':'; ":#" gets
      the counter, ":d" argument d, and the cursor moves on from the OLD
      cursor by the length of what was inserted; any other ':' is skipped. */
  function ScanStep(format: string, par: seq<Option<string>>, counter: int, cursor: nat, uses: seq<nat>): (s: Scan)
    requires cursor < |format|
    ensures s.Finished? ==> s.format == format && s.uses == uses
    ensures s.Next? ==> s.cursor <= |s.format| && |s.format| - s.cursor < |format| - cursor
    ensures s.Next? ==> uses <= s.uses && forall i :: |uses| <= i < |s.uses| ==> s.uses[i] < |par| && par[s.uses[i]].Some?
  {
    var idx := IndexFrom(format, ':', cursor);
    if idx < 0 then Finished(format, uses)
    else if idx + 1 < |format| && format[idx + 1] == '#' then
      var str := IntToString(counter);
      Next(Spliced(format, idx, str), cursor + |str|, uses)
    else if idx + 1 < |format| && IsDigit(format[idx + 1]) then
      var pnum := format[idx + 1] as int - '0' as int;
      if pnum >= |par| then Failed(INDEX_OUT_OF_RANGE)
      else if par[pnum].None? then Failed(NULL_REFERENCE)
      else
        var v := par[pnum].value;
        Next(Spliced(format, idx, v), cursor + |v|, uses + [pnum])
    else Next(format, idx + 1, uses)
  }

  /** What the placeholder scan produces from cursor on: the filled-in text
      and the arguments used, in order of use. */
  function Injected(format: string, par: seq<Option<string>>, counter: int, cursor: nat, uses: seq<nat>): (r: Result<(string, seq<nat>)>)
    requires cursor <= |format|
    decreases |format| - cursor, 1
  {
    if cursor == |format| then Ok((format, uses))
    else Resume(ScanStep(format, par, counter, cursor, uses), par, counter, |format| - cursor)
  }

  /** The scan after one round; bound is the distance that round started
      from, which the next round has shortened. */
  function Resume(s: Scan, par: seq<Option<string>>, counter: int, bound: nat): (r: Result<(string, seq<nat>)>)
    requires s.Next? ==> s.cursor <= |s.format| && |s.format| - s.cursor < bound
    decreases bound, 0
  {
    match s
    case Finished(f, u) => Ok((f, u))
    case Failed(m) => Err(m)
    case Next(f, c, u) => Injected(f, par, counter, c, u)
  }

  /** The scan only records arguments that exist and are not null. */
  predicate UsesValid(par: seq<Option<string>>, uses: seq<nat>)
  {
    forall i :: 0 <= i < |uses| ==> uses[i] < |par| && par[uses[i]].Some?
  }

  lemma {:induction false} InjectedUses(format: string, par: seq<Option<string>>, counter: int, cursor: nat, uses: seq<nat>)
    requires cursor <= |format| && UsesValid(par, uses)
    ensures var r := Injected(format, par, counter, cursor, uses);
            r.Ok? ==> uses <= r.value.1 && UsesValid(par, r.value.1)
    decreases |format| - cursor
  {
    if cursor < |format| {
      var step := ScanStep(format, par, counter, cursor, uses);
      if step.Next? {
        InjectedUses(step.format, par, counter, step.cursor, step.uses);
      }
    }
  }

  /** The arguments with every used one set to null. */
  function Nulled(par: seq<Option<string>>, uses: seq<nat>): (r: seq<Option<string>>)
    ensures |r| == |par|
  {
    if uses == [] then par
    else
      var u := uses[|uses| - 1];
      var before := Nulled(par, uses[..|uses| - 1]);
      if u < |par| then before[u := None] else before
  }

  /** Exactly the used arguments are null afterwards; the others keep
      their value. */
  lemma {:induction false} NulledAt(par: seq<Option<string>>, uses: seq<nat>, k: nat)
    requires forall i :: 0 <= i < |uses| ==> uses[i] < |par|
    requires k < |par|
    ensures Nulled(par, uses)[k] == if k in uses then None else par[k]
    decreases |uses|
  {
    if uses != [] {
      var init := uses[..|uses| - 1];
      NulledAt(par, init, k);
      assert uses == init + [uses[|uses| - 1]];
      assert k in uses <==> k in init || k == uses[|uses| - 1];
    }
  }

  /** The rounds of the scan, case by case, with the colon found at idx. */
  lemma ScanCases(format: string, par: seq<Option<string>>, counter: int, cursor: nat, uses: seq<nat>, idx: int)
    requires cursor < |format| && idx == IndexFrom(format, ':', cursor)
    ensures idx < 0 ==> ScanStep(format, par, counter, cursor, uses) == Finished(format, uses)
    ensures idx >= 0 && idx + 1 < |format| && format[idx + 1] == '#' ==>
              var str := IntToString(counter);
              ScanStep(format, par, counter, cursor, uses) == Next(Spliced(format, idx, str), cursor + |str|, uses)
    ensures idx >= 0 && idx + 1 < |format| && IsDigit(format[idx + 1]) ==>
              var pnum := format[idx + 1] as int - '0' as int;
              ScanStep(format, par, counter, cursor, uses)
                == if pnum >= |par| then Failed(INDEX_OUT_OF_RANGE)
                   else if par[pnum].None? then Failed(NULL_REFERENCE)
                   else Next(Spliced(format, idx, par[pnum].value), cursor + |par[pnum].value|, uses + [pnum])
    ensures idx >= 0 && !(idx + 1 < |format| && (format[idx + 1] == '#' || IsDigit(format[idx + 1]))) ==>
              ScanStep(format, par, counter, cursor, uses) == Next(format, idx + 1, uses)
  {
  }

  /** The scan, round by round, with the colon found at idx. */
  lemma InjectedRound(format: string, par: seq<Option<string>>, counter: int, cursor: nat, uses: seq<nat>, idx: int)
    requires cursor < |format| && idx == IndexFrom(format, ':', cursor)
    ensures idx < 0 ==> Injected(format, par, counter, cursor, uses) == Ok((format, uses))
    ensures idx >= 0 && idx + 1 < |format| && format[idx + 1] == '#' ==>
              var str := IntToString(counter);
              Injected(format, par, counter, cursor, uses) == Injected(Spliced(format, idx, str), par, counter, cursor + |str|, uses)
    ensures idx >= 0 && idx + 1 < |format| && IsDigit(format[idx + 1]) ==>
              var pnum := format[idx + 1] as int - '0' as int;
              Injected(format, par, counter, cursor, uses)
                == if pnum >= |par| then Err(INDEX_OUT_OF_RANGE)
                   else if par[pnum].None? then Err(NULL_REFERENCE)
                   else Injected(Spliced(format, idx, par[pnum].value), par, counter, cursor + |par[pnum].value|, uses + [pnum])
    ensures idx >= 0 && !(idx + 1 < |format| && (format[idx + 1] == '#' || IsDigit(format[idx + 1]))) ==>
              Injected(format, par, counter, cursor, uses) == Injected(format, par, counter, idx + 1, uses)
  {
    ScanCases(format, par, counter, cursor, uses, idx);
  }

  /** The round that finds no further colon ends the scan. */
  lemma InjectedDone(format: string, par: seq<Option<string>>, counter: int, cursor: nat, uses: seq<nat>)
    requires cursor < |format| && IndexFrom(format, ':', cursor) < 0
    ensures Injected(format, par, counter, cursor, uses) == Ok((format, uses))
  {
    InjectedRound(format, par, counter, cursor, uses, IndexFrom(format, ':', cursor));
  }

  /** The round that replaces ":#" by the expansion counter. */
  lemma InjectedCounter(format: string, par: seq<Option<string>>, counter: int, cursor: nat, uses: seq<nat>, idx: int)
    requires cursor < |format| && idx == IndexFrom(format, ':', cursor)
    requires idx >= 0 && idx + 1 < |format| && format[idx + 1] == '#'
    ensures Injected(format, par, counter, cursor, uses)
            == Injected(Spliced(format, idx, IntToString(counter)), par, counter, cursor + |IntToString(counter)|, uses)
  {
    InjectedRound(format, par, counter, cursor, uses, idx);
  }

  /** The round that meets a digit naming a missing or null argument
      raises the exception. */
  lemma InjectedFails(format: string, par: seq<Option<string>>, counter: int, cursor: nat, uses: seq<nat>, idx: int, pnum: nat)
    requires cursor < |format| && idx == IndexFrom(format, ':', cursor)
    requires idx >= 0 && idx + 1 < |format| && IsDigit(format[idx + 1])
    requires pnum == format[idx + 1] as int - '0' as int
    requires pnum >= |par| || par[pnum].None?
    ensures Injected(format, par, counter, cursor, uses)
            == Err(if pnum >= |par| then INDEX_OUT_OF_RANGE else NULL_REFERENCE)
  {
    InjectedRound(format, par, counter, cursor, uses, idx);
  }

  /** The round whose colon starts no placeholder moves past it. */
  lemma InjectedSkip(format: string, par: seq<Option<string>>, counter: int, cursor: nat, uses: seq<nat>, idx: int)
    requires cursor < |format| && idx == IndexFrom(format, ':', cursor)
    requires idx >= 0 && !(idx + 1 < |format| && (format[idx + 1] == '#' || IsDigit(format[idx + 1])))
    ensures Injected(format, par, counter, cursor, uses) == Injected(format, par, counter, idx + 1, uses)
  {
    InjectedRound(format, par, counter, cursor, uses, idx);
  }

  /** The round that inserts argument pnum. */
  lemma InjectedArgument(format: string, par: seq<Option<string>>, counter: int, cursor: nat, uses: seq<nat>, idx: int, pnum: nat)
    requires cursor < |format| && idx == IndexFrom(format, ':', cursor)
    requires idx >= 0 && idx + 1 < |format| && IsDigit(format[idx + 1])
    requires pnum == format[idx + 1] as int - '0' as int
    requires pnum < |par| && par[pnum].Some?
    ensures Injected(format, par, counter, cursor, uses)
            == Injected(Spliced(format, idx, par[pnum].value), par, counter, cursor + |par[pnum].value|, uses + [pnum])
  {
    InjectedRound(format, par, counter, cursor, uses, idx);
  }

  /** Sets every used argument to null, in the order of use. */
  method NullUsed(par: seq<Option<string>>, uses: seq<nat>) returns (newpar: seq<Option<string>>)
    requires forall i :: 0 <= i < |uses| ==> uses[i] < |par|
    ensures newpar == Nulled(par, uses)
  {
    newpar := par;
    var j := 0;
    while j < |uses|
      invariant 0 <= j <= |uses|
      invariant newpar == Nulled(par, uses[..j])
    {
      assert uses[..j + 1][..j] == uses[..j];
      newpar := newpar[uses[j] := None];
      j := j + 1;
    }
    assert uses[..j] == uses;
  }

  /** The scan loop of CallExpression.InjectPlaceholders: the filled-in
      template and the arguments used, or the exception it raises. */
  method ScanPlaceholders(format0: string, par: seq<Option<string>>, expansioncounter: int) returns (r: Result<(string, seq<nat>)>)
    ensures r == Injected(format0, par, expansioncounter, 0, [])
  {
    var format := format0;
    var uses: seq<nat> := [];
    var cursor: nat := 0;
    while cursor < |format|
      invariant cursor <= |format|
      invariant Injected(format0, par, expansioncounter, 0, []) == Injected(format, par, expansioncounter, cursor, uses)
      decreases |format| - cursor
    {
      var idx := IndexFrom(format, ':', cursor);
      if idx < 0 {
        InjectedDone(format, par, expansioncounter, cursor, uses);
        return Ok((format, uses));
      }
      if idx + 1 < |format| {
        if format[idx + 1] == '#' {
          var str := IntToString(expansioncounter);
          InjectedCounter(format, par, expansioncounter, cursor, uses, idx);
          format := Spliced(format, idx, str);
          cursor := cursor + |str|;
          continue;
        } else if '0' <= format[idx + 1] <= '9' {
          var pnum := format[idx + 1] as int - '0' as int;
          if pnum >= |par| {
            InjectedFails(format, par, expansioncounter, cursor, uses, idx, pnum);
            return Err(INDEX_OUT_OF_RANGE);
          }
          if par[pnum].None? {
            InjectedFails(format, par, expansioncounter, cursor, uses, idx, pnum);
            return Err(NULL_REFERENCE);
          }
          var v := par[pnum].value;
          InjectedArgument(format, par, expansioncounter, cursor, uses, idx, pnum);
          format := Spliced(format, idx, v);
          cursor := cursor + |v|;
          uses := uses + [pnum];
          continue;
        }
      }
      InjectedSkip(format, par, expansioncounter, cursor, uses, idx);
      cursor := idx + 1;
    }
    return Ok((format, uses));
  }

  /** CallExpression.InjectPlaceholders: fills in the template and nulls
      the arguments it consumed, so that they are not appended again. */
  method InjectPlaceholders(format: string, par: seq<Option<string>>, expansioncounter: int) returns (r: Result<string>, newpar: seq<Option<string>>)
    ensures var spec := Injected(format, par, expansioncounter, 0, []);
            (r.Ok? <==> spec.Ok?)
            && (r.Err? ==> r.msg == spec.msg)
            && (r.Ok? ==> r.value == spec.value.0 && newpar == Nulled(par, spec.value.1))
  {
    var scan := ScanPlaceholders(format, par, expansioncounter);
    if scan.Err? {
      return Err(scan.msg), par;
    }
    InjectedUses(format, par, expansioncounter, 0, []);
    newpar := NullUsed(par, scan.value.1);
    r := Ok(scan.value.0);
  }

  // ------------------------------------------------ what the scan promises

  lemma {:induction false} IndexFromAt(s: string, c: char, from: nat, k: nat)
    requires from <= k < |s| && s[k] == c
    requires forall j :: from <= j < k ==> s[j] != c
    ensures IndexFrom(s, c, from) == k
    decreases k - from
  {
    if from < k {
      IndexFromAt(s, c, from + 1, k);
    }
  }

  lemma IndexFromNone(s: string, c: char, from: nat)
    requires from <= |s|
    requires forall j :: from <= j < |s| ==> s[j] != c
    ensures IndexFrom(s, c, from) == -1
  {
    IndexFromFacts(s, c, from);
  }

  /** Without a ':' from the cursor on, the rest of the template is kept
      as it is. */
  lemma NoPlaceholder(format: string, par: seq<Option<string>>, counter: int, cursor: nat, uses: seq<nat>)
    requires cursor <= |format|
    requires forall k :: cursor <= k < |format| ==> format[k] != ':'
    ensures Injected(format, par, counter, cursor, uses) == Ok((format, uses))
  {
    if cursor < |format| {
      IndexFromNone(format, ':', cursor);
      InjectedRound(format, par, counter, cursor, uses, -1);
    }
  }

  /** The counter is written in decimal, with a '-' when negative. */
  lemma CounterHasNoColon(counter: int)
    ensures ':' !in IntToString(counter)
  {
    var n := if counter < 0 then -counter else counter;
    var digits := NatToString(n);
    assert forall k :: 0 <= k < |digits| ==> digits[k] != ':';
    if counter < 0 {
      assert IntToString(counter) == "-" + digits;
    }
  }

  lemma SplicedIs(a: string, d: char, b: string, v: string)
    ensures Spliced(a + [':', d] + b, |a|, v) == a + v + b
  {
    var f := a + [':', d] + b;
    assert f[..|a|] == a;
    assert f[|a| + 2..] == b;
  }

  /** A template with one ":d" becomes the template with argument d in its
      place, and d is recorded as used. */
  lemma OneArgument(a: string, d: char, b: string, par: seq<Option<string>>, counter: int)
    requires ':' !in a && ':' !in b && IsDigit(d)
    requires var pnum := d as int - '0' as int; pnum < |par| && par[pnum].Some? && ':' !in par[pnum].value
    ensures var pnum := d as int - '0' as int;
            Injected(a + [':', d] + b, par, counter, 0, []) == Ok((a + par[pnum].value + b, [pnum]))
  {
    var f := a + [':', d] + b;
    var pnum: nat := d as int - '0' as int;
    var v := par[pnum].value;
    assert forall j :: 0 <= j < |a| ==> f[j] == a[j];
    IndexFromAt(f, ':', 0, |a|);
    InjectedArgument(f, par, counter, 0, [], |a|, pnum);
    SplicedIs(a, d, b, v);
    var g := a + v + b;
    assert [] + [pnum] == [pnum];
    assert Injected(f, par, counter, 0, []) == Injected(g, par, counter, |v|, [pnum]);
    assert forall k :: |v| <= k < |g| ==> g[k] != ':' by {
      forall k | |v| <= k < |g| ensures g[k] != ':' {
        if k < |a| { assert g[k] == a[k]; }
        else if k < |a| + |v| { assert g[k] == v[k - |a|]; }
        else { assert g[k] == b[k - |a| - |v|]; }
      }
    }
    NoPlaceholder(g, par, counter, |v|, [pnum]);
  }

  /** A template with one ":#" gets the counter in its place. */
  lemma OneCounter(a: string, b: string, par: seq<Option<string>>, counter: int)
    requires ':' !in a && ':' !in b
    ensures Injected(a + ":#" + b, par, counter, 0, []) == Ok((a + IntToString(counter) + b, []))
  {
    var f := a + [':', '#'] + b;
    assert f == a + ":#" + b;
    var str := IntToString(counter);
    assert forall j :: 0 <= j < |a| ==> f[j] == a[j];
    IndexFromAt(f, ':', 0, |a|);
    InjectedRound(f, par, counter, 0, [], |a|);
    SplicedIs(a, '#', b, str);
    CounterHasNoColon(counter);
    var g := a + str + b;
    assert forall k :: |str| <= k < |g| ==> g[k] != ':' by {
      forall k | |str| <= k < |g| ensures g[k] != ':' {
        if k < |a| { assert g[k] == a[k]; }
        else if k < |a| + |str| { assert g[k] == str[k - |a|]; }
        else { assert g[k] == b[k - |a| - |str|]; }
      }
    }
    NoPlaceholder(g, par, counter, |str|, []);
  }

  /** A ':' that is last, or followed by neither '#' nor a digit, stays. */
  lemma PlainColon(a: string, b: string, par: seq<Option<string>>, counter: int)
    requires ':' !in a && ':' !in b
    requires b == [] || (b[0] != '#' && !IsDigit(b[0]))
    ensures Injected(a + ":" + b, par, counter, 0, []) == Ok((a + ":" + b, []))
  {
    var f := a + ":" + b;
    assert forall j :: 0 <= j < |a| ==> f[j] == a[j];
    IndexFromAt(f, ':', 0, |a|);
    InjectedRound(f, par, counter, 0, [], |a|);
    assert forall k :: |a| + 1 <= k < |f| ==> f[k] == b[k - |a| - 1];
    NoPlaceholder(f, par, counter, |a| + 1, []);
  }

  /** ":d" with no argument d, or a null one, raises an exception. */
  lemma MissingArgument(a: string, d: char, b: string, par: seq<Option<string>>, counter: int)
    requires ':' !in a && IsDigit(d)
    ensures var pnum := d as int - '0' as int;
            pnum >= |par| ==> Injected(a + [':', d] + b, par, counter, 0, []) == Err(INDEX_OUT_OF_RANGE)
    ensures var pnum := d as int - '0' as int;
            pnum < |par| && par[pnum].None? ==> Injected(a + [':', d] + b, par, counter, 0, []) == Err(NULL_REFERENCE)
  {
    var f := a + [':', d] + b;
    assert forall j :: 0 <= j < |a| ==> f[j] == a[j];
    IndexFromAt(f, ':', 0, |a|);
    InjectedRound(f, par, counter, 0, [], |a|);
  }

  // ------------------------------------- the scan as a plain substitution

  /** The prefix p and the uses u in front of a scan outcome. */
  function Prepend(p: string, u: seq<nat>, r: Result<(string, seq<nat>)>): Result<(string, seq<nat>)>
  {
    if r.Err? then r else Ok((p + r.value.0, u + r.value.1))
  }

  lemma PrependPrepend(p: string, u: seq<nat>, q: string, w: seq<nat>, r: Result<(string, seq<nat>)>)
    ensures Prepend(p, u, Prepend(q, w, r)) == Prepend(p + q, u + w, r)
  {
    if r.Ok? {
      assert p + (q + r.value.0) == (p + q) + r.value.0;
      assert u + (w + r.value.1) == (u + w) + r.value.1;
    }
  }

  /** The template with every ":#" replaced by the counter and every ":d"
      by argument d, read once from left to right; the first ":d" naming a
      missing or null argument raises the exception. */
  function Substituted(rest: string, par: seq<Option<string>>, counter: int): Result<(string, seq<nat>)>
    decreases |rest|
  {
    if rest == [] then Ok(([], []))
    else if rest[0] == ':' && |rest| >= 2 && rest[1] == '#' then
      Prepend(IntToString(counter), [], Substituted(rest[2..], par, counter))
    else if rest[0] == ':' && |rest| >= 2 && IsDigit(rest[1]) then
      var pnum := rest[1] as int - '0' as int;
      if pnum >= |par| then Err(INDEX_OUT_OF_RANGE)
      else if par[pnum].None? then Err(NULL_REFERENCE)
      else Prepend(par[pnum].value, [pnum], Substituted(rest[2..], par, counter))
    else Prepend([rest[0]], [], Substituted(rest[1..], par, counter))
  }

  /** Text without a ':' passes the substitution unchanged. */
  lemma {:induction false} SubstitutedPlain(p: string, rest: string, par: seq<Option<string>>, counter: int)
    requires ':' !in p
    ensures Substituted(p + rest, par, counter) == Prepend(p, [], Substituted(rest, par, counter))
    decreases |p|
  {
    if p == [] {
      assert p + rest == rest;
      var r := Substituted(rest, par, counter);
      if r.Ok? {
        assert p + r.value.0 == r.value.0 && [] + r.value.1 == r.value.1;
      }
    } else {
      assert p[0] in p;
      assert (p + rest)[0] == p[0] && (p + rest)[1..] == p[1..] + rest;
      assert Substituted(p + rest, par, counter) == Prepend([p[0]], [], Substituted(p[1..] + rest, par, counter));
      assert forall c :: c in p[1..] ==> c in p;
      SubstitutedPlain(p[1..], rest, par, counter);
      PrependPrepend([p[0]], [], p[1..], [], Substituted(rest, par, counter));
      assert [p[0]] + p[1..] == p;
      var none: seq<nat> := [];
      assert none + none == none;
    }
  }

  /** No argument value contains a ':'. */
  predicate ValuesColonFree(par: seq<Option<string>>)
  {
    forall i :: 0 <= i < |par| && par[i].Some? ==> ':' !in par[i].value
  }

  /** The text around an insertion of s at idx, and where it holds no
      ':' from the cursor moved on by |s|. */
  lemma SplicedParts(format: string, cursor: nat, idx: nat, s: string)
    requires cursor <= idx && idx + 2 <= |format|
    requires forall j :: cursor <= j < idx ==> format[j] != ':'
    requires ':' !in s
    ensures var f := Spliced(format, idx, s);
            f[..idx + |s|] == format[..idx] + s
            && f[idx + |s|..] == format[idx + 2..]
            && forall j :: cursor + |s| <= j < idx + |s| ==> f[j] != ':'
  {
    var f := Spliced(format, idx, s);
    assert f[..idx + |s|] == format[..idx] + s;
    assert f[idx + |s|..] == format[idx + 2..];
    forall j | cursor + |s| <= j < idx + |s|
      ensures f[j] != ':'
    {
      if j < idx {
        assert f[j] == format[j];
      } else {
        assert f[j] == s[j - idx];
      }
    }
  }

  /** An insertion of s with uses u after the colon-free text up to idx. */
  lemma InsertionPrepends(format: string, k: nat, idx: nat, s: string, uses: seq<nat>, u: seq<nat>, r: Result<(string, seq<nat>)>)
    requires k <= idx <= |format|
    ensures Prepend(format[..k], uses, Prepend(format[k..idx], [], Prepend(s, u, r)))
            == Prepend(format[..idx] + s, uses + u, r)
  {
    PrependPrepend(format[k..idx], [], s, u, r);
    PrependPrepend(format[..k], uses, format[k..idx] + s, [] + u, r);
    assert format[..k] + (format[k..idx] + s) == format[..idx] + s;
    assert uses + ([] + u) == uses + u;
  }

  /** The colon-free text from k to the colon at idx passes unchanged. */
  lemma UpToColon(format: string, par: seq<Option<string>>, counter: int, k: nat, idx: nat)
    requires k <= idx < |format| && forall j :: k <= j < idx ==> format[j] != ':'
    ensures Substituted(format[k..], par, counter) == Prepend(format[k..idx], [], Substituted(format[idx..], par, counter))
  {
    assert format[k..] == format[k..idx] + format[idx..];
    SubstitutedPlain(format[k..idx], format[idx..], par, counter);
  }

  /** The case of the scan that finds no further ':'. */
  lemma NoColonCase(format: string, par: seq<Option<string>>, counter: int, cursor: nat, uses: seq<nat>, k: nat)
    requires cursor <= k <= |format| && cursor < |format|
    requires forall j :: cursor <= j < |format| ==> format[j] != ':'
    ensures Injected(format, par, counter, cursor, uses) == Prepend(format[..k], uses, Substituted(format[k..], par, counter))
  {
    NoPlaceholder(format, par, counter, cursor, uses);
    assert format[k..] + [] == format[k..];
    SubstitutedPlain(format[k..], [], par, counter);
    assert format[..k] + (format[k..] + []) == format && uses + ([] + []) == uses;
  }

  /** The case of a ':' that starts no placeholder, given the scan from
      the character after it. */
  lemma SkipCase(format: string, par: seq<Option<string>>, counter: int, cursor: nat, uses: seq<nat>, k: nat, idx: nat)
    requires cursor <= k <= idx < |format| && idx == IndexFrom(format, ':', cursor)
    requires forall j :: cursor <= j < idx ==> format[j] != ':'
    requires !(idx + 1 < |format| && (format[idx + 1] == '#' || IsDigit(format[idx + 1])))
    requires Injected(format, par, counter, idx + 1, uses) == Prepend(format[..idx + 1], uses, Substituted(format[idx + 1..], par, counter))
    ensures Injected(format, par, counter, cursor, uses) == Prepend(format[..k], uses, Substituted(format[k..], par, counter))
  {
    InjectedSkip(format, par, counter, cursor, uses, idx);
    IndexFromFacts(format, ':', cursor);
    UpToColon(format, par, counter, k, idx);
    var tail := format[idx..];
    assert tail[0] == ':' && tail[1..] == format[idx + 1..];
    assert Substituted(tail, par, counter) == Prepend([':'], [], Substituted(format[idx + 1..], par, counter));
    InsertionPrepends(format, k, idx, [':'], uses, [], Substituted(format[idx + 1..], par, counter));
    assert format[..idx] + [':'] == format[..idx + 1] && uses + [] == uses;
  }

  /** The case of ":#", given the scan of the text with the counter in. */
  lemma CounterCase(format: string, par: seq<Option<string>>, counter: int, cursor: nat, uses: seq<nat>, k: nat, idx: nat)
    requires cursor <= k <= idx && idx + 1 < |format| && idx == IndexFrom(format, ':', cursor) && format[idx + 1] == '#'
    requires forall j :: cursor <= j < idx ==> format[j] != ':'
    requires var str := IntToString(counter);
             var f := Spliced(format, idx, str);
             Injected(f, par, counter, cursor + |str|, uses) == Prepend(format[..idx] + str, uses, Substituted(format[idx + 2..], par, counter))
    ensures Injected(format, par, counter, cursor, uses) == Prepend(format[..k], uses, Substituted(format[k..], par, counter))
  {
    var str := IntToString(counter);
    InjectedCounter(format, par, counter, cursor, uses, idx);
    IndexFromFacts(format, ':', cursor);
    UpToColon(format, par, counter, k, idx);
    var tail := format[idx..];
    assert tail[0] == ':' && tail[1] == '#' && tail[2..] == format[idx + 2..];
    InsertionPrepends(format, k, idx, str, uses, [], Substituted(format[idx + 2..], par, counter));
    assert uses + [] == uses;
  }

  /** The case of ":d" with argument d present, given the scan of the
      text with the argument in. */
  lemma ArgumentCase(format: string, par: seq<Option<string>>, counter: int, cursor: nat, uses: seq<nat>, k: nat, idx: nat, pnum: nat)
    requires cursor <= k <= idx && idx + 1 < |format| && idx == IndexFrom(format, ':', cursor) && IsDigit(format[idx + 1])
    requires forall j :: cursor <= j < idx ==> format[j] != ':'
    requires pnum == format[idx + 1] as int - '0' as int && pnum < |par| && par[pnum].Some?
    requires var v := par[pnum].value;
             var f := Spliced(format, idx, v);
             Injected(f, par, counter, cursor + |v|, uses + [pnum]) == Prepend(format[..idx] + v, uses + [pnum], Substituted(format[idx + 2..], par, counter))
    ensures Injected(format, par, counter, cursor, uses) == Prepend(format[..k], uses, Substituted(format[k..], par, counter))
  {
    var v := par[pnum].value;
    InjectedArgument(format, par, counter, cursor, uses, idx, pnum);
    IndexFromFacts(format, ':', cursor);
    UpToColon(format, par, counter, k, idx);
    var tail := format[idx..];
    assert tail[0] == ':' && tail[1] == format[idx + 1] && tail[2..] == format[idx + 2..];
    InsertionPrepends(format, k, idx, v, uses, [pnum], Substituted(format[idx + 2..], par, counter));
  }

  /** The case of ":d" with argument d missing or null. */
  lemma FailCase(format: string, par: seq<Option<string>>, counter: int, cursor: nat, uses: seq<nat>, k: nat, idx: nat, pnum: nat)
    requires cursor <= k <= idx && idx + 1 < |format| && idx == IndexFrom(format, ':', cursor) && IsDigit(format[idx + 1])
    requires forall j :: cursor <= j < idx ==> format[j] != ':'
    requires pnum == format[idx + 1] as int - '0' as int && (pnum >= |par| || par[pnum].None?)
    ensures Injected(format, par, counter, cursor, uses) == Prepend(format[..k], uses, Substituted(format[k..], par, counter))
  {
    InjectedFails(format, par, counter, cursor, uses, idx, pnum);
    IndexFromFacts(format, ':', cursor);
    UpToColon(format, par, counter, k, idx);
    var tail := format[idx..];
    assert |tail| >= 2 && tail[0] == ':' && tail[1] == format[idx + 1] && tail[1] != '#';
    assert Substituted(tail, par, counter) == Err(if pnum >= |par| then INDEX_OUT_OF_RANGE else NULL_REFERENCE);
  }

  /** When no argument value holds a ':', the scan does exactly the left
      to right substitution, whatever the template: moving the cursor on
      from where it was instead of from the end of the insertion only
      rescans text without a ':'. */
  lemma {:induction false} InjectedIsSubstituted(format: string, par: seq<Option<string>>, counter: int, cursor: nat, uses: seq<nat>, k: nat)
    requires cursor <= k <= |format|
    requires forall j :: cursor <= j < k ==> format[j] != ':'
    requires ValuesColonFree(par)
    ensures Injected(format, par, counter, cursor, uses) == Prepend(format[..k], uses, Substituted(format[k..], par, counter))
    decreases |format| - cursor, 1
  {
    if cursor == |format| {
      assert format[..k] + [] == format && uses + [] == uses;
      return;
    }
    var idx := IndexFrom(format, ':', cursor);
    IndexFromFacts(format, ':', cursor);
    if idx < 0 {
      NoColonCase(format, par, counter, cursor, uses, k);
    } else if !(idx + 1 < |format| && (format[idx + 1] == '#' || IsDigit(format[idx + 1]))) {
      SkipBranch(format, par, counter, cursor, uses, k, idx);
    } else if format[idx + 1] == '#' {
      CounterBranch(format, par, counter, cursor, uses, k, idx);
    } else {
      DigitBranch(format, par, counter, cursor, uses, k, idx);
    }
  }

  lemma {:induction false} SkipBranch(format: string, par: seq<Option<string>>, counter: int, cursor: nat, uses: seq<nat>, k: nat, idx: nat)
    requires cursor <= k <= idx < |format| && idx == IndexFrom(format, ':', cursor)
    requires forall j :: cursor <= j < idx ==> format[j] != ':'
    requires !(idx + 1 < |format| && (format[idx + 1] == '#' || IsDigit(format[idx + 1])))
    requires ValuesColonFree(par)
    ensures Injected(format, par, counter, cursor, uses) == Prepend(format[..k], uses, Substituted(format[k..], par, counter))
    decreases |format| - cursor, 0
  {
    InjectedIsSubstituted(format, par, counter, idx + 1, uses, idx + 1);
    SkipCase(format, par, counter, cursor, uses, k, idx);
  }

  lemma {:induction false} CounterBranch(format: string, par: seq<Option<string>>, counter: int, cursor: nat, uses: seq<nat>, k: nat, idx: nat)
    requires cursor <= k <= idx && idx + 1 < |format| && idx == IndexFrom(format, ':', cursor) && format[idx + 1] == '#'
    requires forall j :: cursor <= j < idx ==> format[j] != ':'
    requires ValuesColonFree(par)
    ensures Injected(format, par, counter, cursor, uses) == Prepend(format[..k], uses, Substituted(format[k..], par, counter))
    decreases |format| - cursor, 0
  {
    var str := IntToString(counter);
    CounterHasNoColon(counter);
    SplicedParts(format, cursor, idx, str);
    InjectedIsSubstituted(Spliced(format, idx, str), par, counter, cursor + |str|, uses, idx + |str|);
    CounterCase(format, par, counter, cursor, uses, k, idx);
  }

  lemma {:induction false} DigitBranch(format: string, par: seq<Option<string>>, counter: int, cursor: nat, uses: seq<nat>, k: nat, idx: nat)
    requires cursor <= k <= idx && idx + 1 < |format| && idx == IndexFrom(format, ':', cursor) && IsDigit(format[idx + 1])
    requires forall j :: cursor <= j < idx ==> format[j] != ':'
    requires ValuesColonFree(par)
    ensures Injected(format, par, counter, cursor, uses) == Prepend(format[..k], uses, Substituted(format[k..], par, counter))
    decreases |format| - cursor, 0
  {
    var pnum: nat := format[idx + 1] as int - '0' as int;
    if pnum >= |par| || par[pnum].None? {
      FailCase(format, par, counter, cursor, uses, k, idx, pnum);
    } else {
      var v := par[pnum].value;
      SplicedParts(format, cursor, idx, v);
      InjectedIsSubstituted(Spliced(format, idx, v), par, counter, cursor + |v|, uses + [pnum], idx + |v|);
      ArgumentCase(format, par, counter, cursor, uses, k, idx, pnum);
    }
  }

  /** InjectPlaceholders on a whole template whose argument values hold no
      ':' fills in the template left to right. */
  lemma InjectedTemplate(format: string, par: seq<Option<string>>, counter: int)
    requires ValuesColonFree(par)
    ensures Injected(format, par, counter, 0, []) == Substituted(format, par, counter)
  {
    InjectedIsSubstituted(format, par, counter, 0, [], 0);
    var r := Substituted(format, par, counter);
    assert format[..0] == [] && format[0..] == format;
    if r.Ok? {
      assert [] + r.value.0 == r.value.0 && [] + r.value.1 == r.value.1;
    }
  }

  /** The second round of the rescan: the inserted ":e" sits at |a|,
      beyond the cursor 2. */
  lemma RescanSecondRound(a: string, e: char, b: string, par: seq<Option<string>>, counter: int, pd: nat)
    requires ':' !in a && ':' !in b && IsDigit(e) && |a| >= 2
    requires var pe := e as int - '0' as int; pe < |par| && par[pe].Some? && ':' !in par[pe].value
    ensures var pe := e as int - '0' as int;
            Injected(a + [':', e] + b, par, counter, 2, [pd]) == Ok((a + par[pe].value + b, [pd, pe]))
  {
    var g := a + [':', e] + b;
    var pe: nat := e as int - '0' as int;
    assert forall j :: 2 <= j < |a| ==> g[j] == a[j];
    IndexFromAt(g, ':', 2, |a|);
    InjectedArgument(g, par, counter, 2, [pd], |a|, pe);
    var w := par[pe].value;
    SplicedIs(a, e, b, w);
    var h := a + w + b;
    assert [pd] + [pe] == [pd, pe];
    assert Injected(g, par, counter, 2, [pd]) == Injected(h, par, counter, 2 + |w|, [pd, pe]);
    assert forall k :: 2 + |w| <= k < |h| ==> h[k] != ':' by {
      forall k | 2 + |w| <= k < |h| ensures h[k] != ':' {
        if k < |a| { assert h[k] == a[k]; }
        else if k < |a| + |w| { assert h[k] == w[k - |a|]; }
        else { assert h[k] == b[k - |a| - |w|]; }
      }
    }
    NoPlaceholder(h, par, counter, 2 + |w|, [pd, pe]);
  }

  /** The scan resumes at the old cursor plus the length of the inserted
      text, not behind the insertion: when an argument ":e" is inserted
      at least two characters into the template, its own placeholder is
      expanded as well, and both arguments are recorded as used. */
  lemma InsertedTextRescanned(a: string, d: char, e: char, b: string, par: seq<Option<string>>, counter: int)
    requires ':' !in a && ':' !in b && IsDigit(d) && IsDigit(e) && |a| >= 2
    requires var pd := d as int - '0' as int; pd < |par| && par[pd] == Some([':', e])
    requires var pe := e as int - '0' as int; pe < |par| && par[pe].Some? && ':' !in par[pe].value
    ensures var pd := d as int - '0' as int;
            var pe := e as int - '0' as int;
            Injected(a + [':', d] + b, par, counter, 0, []) == Ok((a + par[pe].value + b, [pd, pe]))
  {
    var f := a + [':', d] + b;
    var pd: nat := d as int - '0' as int;
    assert forall j :: 0 <= j < |a| ==> f[j] == a[j];
    IndexFromAt(f, ':', 0, |a|);
    InjectedArgument(f, par, counter, 0, [], |a|, pd);
    SplicedIs(a, d, b, [':', e]);
    assert [] + [pd] == [pd];
    assert Injected(f, par, counter, 0, []) == Injected(a + [':', e] + b, par, counter, 2, [pd]);
    RescanSecondRound(a, e, b, par, counter, pd);
  }

  /** An instance: "abc:0" with the arguments ":1" and "Z" gives "abcZ",
      not "abc:1". */
  lemma RescanExample()
    ensures Injected("abc:0", [Some(":1"), Some("Z")], 7, 0, []) == Ok(("abcZ", [0, 1]))
  {
    assert "abc:0" == "abc" + [':', '0'] + "";
    InsertedTextRescanned("abc", '0', '1', "", [Some(":1"), Some("Z")], 7);
    assert "abc" + "Z" + "" == "abcZ";
  }

  // --------------------------------------------------- conditional jumps

  /** A jump target: a label of the program, or the skip label of an And
      ("and" and a number) or an Or ("or" and a number). */
  datatype Label = External(name: string) | AndSkip(n: int) | OrSkip(n: int)

  function LabelName(l: Label): string
  {
    match l
    case External(name) => name
    case AndSkip(n) => "and" + IntToString(n)
    case OrSkip(n) => "or" + IntToString(n)
  }

  /** The control flow of the generated code: an unconditional jump (the
      line "    JR " and the label), a test of a leaf condition that jumps
      when its value equals jumpIfTrue, and a label definition (the line
      "  " label ":"). */
  datatype Instr = Jr(target: Label) | Test(cond: Expression, jumpIfTrue: bool, target: Label) | Def(defined: Label)

  function InstrLine(i: Instr): string
    requires !i.Test?
  {
    match i
    case Jr(l) => "    JR " + LabelName(l)
    case Def(l) => "  " + LabelName(l) + ":"
  }

  /** A text literal is true when it is 'TRUE' in any case. */
  predicate IsTrueLiteral(v: string)
  {
    Upper(v) == "'TRUE'"
  }

  predicate IsTextLiteral(e: Expression)
  {
    e.Atomic? && e.etype == Text && StartsWith(e.v, "'")
  }

  /** The truth of a condition, given the truth of the leaf conditions
      that are computed at run time. */
  predicate Eval(e: Expression, env: Expression -> bool)
  {
    match e
    case And(l, r) => Eval(l, env) && Eval(r, env)
    case Or(l, r) => Eval(l, env) || Eval(r, env)
    case _ => if IsTextLiteral(e) then IsTrueLiteral(e.v) else env(e)
  }

  /** Runs code from its start: Some(l) when control leaves it by a jump
      to l, which it does not define after the jump; None when control
      falls through its end. */
  function Exec(code: seq<Instr>, env: Expression -> bool): Option<Label>
    decreases |code|, 1
  {
    if code == [] then None
    else
      match code[0]
      case Def(_) => Exec(code[1..], env)
      case Jr(l) => Goto(code[1..], l, env)
      case Test(c, jt, l) => if Eval(c, env) == jt then Goto(code[1..], l, env) else Exec(code[1..], env)
  }

  /** A forward jump to l: execution resumes after the first definition
      of l in rest; without one, control leaves rest towards l. */
  function Goto(rest: seq<Instr>, l: Label, env: Expression -> bool): Option<Label>
    decreases |rest|, 0
  {
    if rest == [] then Some(l)
    else if rest[0] == Def(l) then Exec(rest[1..], env)
    else Goto(rest[1..], l, env)
  }

  /** Where control goes in y after leaving x by outcome o. */
  function Then(o: Option<Label>, y: seq<Instr>, env: Expression -> bool): Option<Label>
  {
    match o
    case None => Exec(y, env)
    case Some(l) => Goto(y, l, env)
  }

  /** Running a concatenation runs the first part, then continues in the
      second from where control left the first. */
  lemma {:induction false} ExecAppend(x: seq<Instr>, y: seq<Instr>, env: Expression -> bool)
    ensures Exec(x + y, env) == Then(Exec(x, env), y, env)
    decreases |x|, 1
  {
    if x != [] {
      assert (x + y)[0] == x[0];
      assert (x + y)[1..] == x[1..] + y;
      match x[0]
      case Def(_) => ExecAppend(x[1..], y, env);
      case Jr(l) => GotoAppend(x[1..], y, l, env);
      case Test(c, jt, l) =>
        ExecAppend(x[1..], y, env);
        GotoAppend(x[1..], y, l, env);
    } else {
      assert x + y == y;
    }
  }

  lemma {:induction false} GotoAppend(x: seq<Instr>, y: seq<Instr>, l: Label, env: Expression -> bool)
    ensures Goto(x + y, l, env) == Then(Goto(x, l, env), y, env)
    decreases |x|, 0
  {
    if x != [] {
      assert (x + y)[0] == x[0];
      assert (x + y)[1..] == x[1..] + y;
      if x[0] == Def(l) {
        ExecAppend(x[1..], y, env);
      } else {
        GotoAppend(x[1..], y, l, env);
      }
    } else {
      assert x + y == y;
    }
  }

  /** A jump to a label the code does not define leaves the code. */
  lemma {:induction false} GotoMissing(x: seq<Instr>, l: Label, env: Expression -> bool)
    requires Def(l) !in x
    ensures Goto(x, l, env) == Some(l)
    decreases |x|
  {
    if x != [] {
      assert Def(l) !in x[1..];
      GotoMissing(x[1..], l, env);
    }
  }

  /** Two pieces that each jump to t under a condition jump to t when
      either condition holds. */
  lemma EitherJump(c1: seq<Instr>, c2: seq<Instr>, t: Label, env: Expression -> bool, p1: bool, p2: bool)
    requires Exec(c1, env) == (if p1 then Some(t) else None)
    requires Exec(c2, env) == (if p2 then Some(t) else None)
    requires Def(t) !in c2
    ensures Exec(c1 + c2, env) == (if p1 || p2 then Some(t) else None)
  {
    ExecAppend(c1, c2, env);
    if p1 {
      GotoMissing(c2, t, env);
    }
  }

  /** A first piece that jumps to a skip label defined at the end, then a
      second that jumps to t: the whole jumps to t when the first does not
      jump and the second does. */
  lemma SkipJump(c1: seq<Instr>, c2: seq<Instr>, skip: Label, t: Label, env: Expression -> bool, p1: bool, p2: bool)
    requires Exec(c1, env) == (if p1 then Some(skip) else None)
    requires Exec(c2, env) == (if p2 then Some(t) else None)
    requires Def(skip) !in c2 && t != skip
    ensures Exec(c1 + c2 + [Def(skip)], env) == (if !p1 && p2 then Some(t) else None)
  {
    assert c1 + c2 + [Def(skip)] == c1 + (c2 + [Def(skip)]);
    ExecAppend(c1, c2 + [Def(skip)], env);
    ExecAppend(c2, [Def(skip)], env);
    GotoAppend(c2, [Def(skip)], skip, env);
    assert [Def(skip)][1..] == [];
    if p1 {
      GotoMissing(c2, skip, env);
      assert Exec(c1 + c2 + [Def(skip)], env) == Goto([Def(skip)], skip, env);
      assert Goto([Def(skip)], skip, env) == Exec([], env);
    } else {
      assert Exec(c1 + c2 + [Def(skip)], env) == Then(Exec(c2, env), [Def(skip)], env);
      if p2 {
        assert Goto([Def(skip)], t, env) == Goto([], t, env);
      } else {
        assert Exec([Def(skip)], env) == Exec([], env);
      }
    }
  }

  /** The skip labels are numbered by the label counter. */
  predicate IsSkip(l: Label) { l.AndSkip? || l.OrSkip? }

  /** Every label the code defines is a skip label numbered in [lo, hi). */
  predicate DefsBetween(code: seq<Instr>, lo: int, hi: int)
  {
    forall i :: 0 <= i < |code| && code[i].Def? ==> IsSkip(code[i].defined) && lo <= code[i].defined.n < hi
  }

  /** A target no code numbered from lo on defines. */
  predicate FreshFrom(t: Label, lo: int)
  {
    IsSkip(t) ==> t.n < lo
  }

  lemma NotDefined(code: seq<Instr>, lo: int, hi: int, t: Label)
    requires DefsBetween(code, lo, hi) && FreshFrom(t, lo)
    ensures Def(t) !in code
  {
  }

  /** Whether GenerateJumpIfCondition accepts the condition: a comparison
      needs two number operands, any other leaf must be a text. */
  predicate JumpTyped(e: Expression)
  {
    match e
    case And(l, r) => JumpTyped(l) && JumpTyped(r)
    case Or(l, r) => JumpTyped(l) && JumpTyped(r)
    case Comparison(_, _, _, l, r) => TypeOf(l) == Number && TypeOf(r) == Number
    case _ => TypeOf(e) == Text
  }

  lemma DefsJoin(c1: seq<Instr>, c2: seq<Instr>, lo1: int, hi1: int, lo2: int, hi2: int, lo: int, hi: int)
    requires DefsBetween(c1, lo1, hi1) && DefsBetween(c2, lo2, hi2)
    requires lo <= lo1 && hi1 <= hi && lo <= lo2 && hi2 <= hi
    ensures DefsBetween(c1 + c2, lo, hi)
  {
    forall i | 0 <= i < |c1 + c2| && (c1 + c2)[i].Def?
      ensures IsSkip((c1 + c2)[i].defined) && lo <= (c1 + c2)[i].defined.n < hi
    {
      if i >= |c1| {
        assert (c1 + c2)[i] == c2[i - |c1|];
      }
    }
  }

  const NOT_TEXT_CONDITION := "Internal error: Try to generate jump for non text condition type"
  const NON_NUMBER_COMPARISON := "Internal error: Found subexpressions with non-number type inside ComparisonExpression"

  /** GenerateJumpIfCondition of every kind of expression: code that
      jumps to jumplabel exactly when the condition's value equals
      jumpIfTrue, and falls through otherwise. And and Or short-circuit;
      where they would have to jump past their second operand they define
      a fresh skip label numbered by the label counter. */
  method GenerateJump(compiler: Compiler, e: Expression, jumplabel: Label, jumpIfTrue: bool) returns (r: Result<seq<Instr>>)
    requires FreshFrom(jumplabel, compiler.labelcount)
    modifies compiler`labelcount
    ensures compiler.labelcount >= old(compiler.labelcount)
    ensures r.Ok? <==> JumpTyped(e)
    ensures IsTextLiteral(e) ==> r == Ok(if jumpIfTrue == IsTrueLiteral(e.v) then [Jr(jumplabel)] else [])
    ensures r.Err? ==> r.msg == NOT_TEXT_CONDITION || r.msg == NON_NUMBER_COMPARISON
    ensures r.Ok? ==> DefsBetween(r.value, old(compiler.labelcount), compiler.labelcount)
    ensures r.Ok? ==> forall env :: Exec(r.value, env) == if Eval(e, env) == jumpIfTrue then Some(jumplabel) else None
    decreases e, 1
  {
    if IsTextLiteral(e) {
      var isTrue := Upper(e.v) == "'TRUE'";
      if jumpIfTrue == isTrue {
        return Ok([Jr(jumplabel)]);
      }
      return Ok([]);
    }
    match e
    case And(_, _) =>
      r := GenerateAndJump(compiler, e, jumplabel, jumpIfTrue);
    case Or(_, _) =>
      r := GenerateOrJump(compiler, e, jumplabel, jumpIfTrue);
    case Comparison(_, _, _, left, right) =>
      if TypeOf(left) != Number || TypeOf(right) != Number {
        return Err(NON_NUMBER_COMPARISON);
      }
      return Ok([Test(e, jumpIfTrue, jumplabel)]);
    case _ =>
      if TypeOf(e) != Text {
        return Err(NOT_TEXT_CONDITION);
      }
      return Ok([Test(e, jumpIfTrue, jumplabel)]);
  }

  /** The code of a short-circuit condition with a skip label: the first
      operand's test jumps to skip when the operand is t1, the second
      operand's test jumps to the target when it is t2, and skip is
      defined last. For "and" jumping when true (t1 false, t2 true) and
      "or" jumping when false (t1 true, t2 false) this jumps exactly when
      the condition equals jumpIfTrue. */
  lemma SkipCode(e: Expression, jumpIfTrue: bool, c1: seq<Instr>, c2: seq<Instr>, skip: Label, t: Label, t1: bool, t2: bool, lo: int, mid: int, hi: int)
    requires (e.And? && jumpIfTrue && !t1 && t2) || (e.Or? && !jumpIfTrue && t1 && !t2)
    requires IsSkip(skip) && skip.n == lo && FreshFrom(t, lo)
    requires forall env :: Exec(c1, env) == if Eval(e.left, env) == t1 then Some(skip) else None
    requires forall env :: Exec(c2, env) == if Eval(e.right, env) == t2 then Some(t) else None
    requires DefsBetween(c1, lo + 1, mid) && DefsBetween(c2, mid, hi) && lo + 1 <= mid <= hi
    ensures forall env :: Exec(c1 + c2 + [Def(skip)], env) == if Eval(e, env) == jumpIfTrue then Some(t) else None
    ensures DefsBetween(c1 + c2 + [Def(skip)], lo, hi)
  {
    NotDefined(c2, mid, hi, skip);
    forall env
      ensures Exec(c1 + c2 + [Def(skip)], env) == if Eval(e, env) == jumpIfTrue then Some(t) else None
    {
      SkipJump(c1, c2, skip, t, env, Eval(e.left, env) == t1, Eval(e.right, env) == t2);
    }
    DefsJoin(c1, c2, lo + 1, mid, mid, hi, lo, hi);
    DefsJoin(c1 + c2, [Def(skip)], lo, hi, lo, lo + 1, lo, hi);
  }

  /** The code of a condition whose two operand tests both jump to the
      target, when the operand is t: for "and" jumping when false and
      "or" jumping when true this jumps exactly when the condition equals
      jumpIfTrue. */
  lemma EitherCode(e: Expression, jumpIfTrue: bool, c1: seq<Instr>, c2: seq<Instr>, t: Label, tv: bool, lo: int, mid: int, hi: int)
    requires (e.And? && !jumpIfTrue && !tv) || (e.Or? && jumpIfTrue && tv)
    requires FreshFrom(t, mid)
    requires forall env :: Exec(c1, env) == if Eval(e.left, env) == tv then Some(t) else None
    requires forall env :: Exec(c2, env) == if Eval(e.right, env) == tv then Some(t) else None
    requires DefsBetween(c1, lo, mid) && DefsBetween(c2, mid, hi) && lo <= mid <= hi
    ensures forall env :: Exec(c1 + c2, env) == if Eval(e, env) == jumpIfTrue then Some(t) else None
    ensures DefsBetween(c1 + c2, lo, hi)
  {
    NotDefined(c2, mid, hi, t);
    forall env
      ensures Exec(c1 + c2, env) == if Eval(e, env) == jumpIfTrue then Some(t) else None
    {
      EitherJump(c1, c2, t, env, Eval(e.left, env) == tv, Eval(e.right, env) == tv);
    }
    DefsJoin(c1, c2, lo, mid, mid, hi, lo, hi);
  }

  /** AndExpression.GenerateJumpIfCondition: to jump when both hold, skip
      past the second test when the first fails; to jump when either
      fails, test both. */
  method GenerateAndJump(compiler: Compiler, e: Expression, jumplabel: Label, jumpIfTrue: bool) returns (r: Result<seq<Instr>>)
    requires e.And?
    requires FreshFrom(jumplabel, compiler.labelcount)
    modifies compiler`labelcount
    ensures compiler.labelcount >= old(compiler.labelcount)
    ensures r.Ok? <==> JumpTyped(e)
    ensures r.Err? ==> r.msg == NOT_TEXT_CONDITION || r.msg == NON_NUMBER_COMPARISON
    ensures r.Ok? ==> DefsBetween(r.value, old(compiler.labelcount), compiler.labelcount)
    ensures r.Ok? ==> forall env :: Exec(r.value, env) == if Eval(e, env) == jumpIfTrue then Some(jumplabel) else None
    decreases e, 0
  {
    ghost var lo := compiler.labelcount;
    var left, right := e.left, e.right;
    if jumpIfTrue {
      var l := compiler.GetLabelNumber();
      var r1 := GenerateJump(compiler, left, AndSkip(l), false);
      if r1.Err? { return r1; }
      ghost var mid := compiler.labelcount;
      var r2 := GenerateJump(compiler, right, jumplabel, true);
      if r2.Err? { return r2; }
      SkipCode(e, jumpIfTrue, r1.value, r2.value, AndSkip(l), jumplabel, false, true, lo, mid, compiler.labelcount);
      return Ok(r1.value + r2.value + [Def(AndSkip(l))]);
    } else {
      var r1 := GenerateJump(compiler, left, jumplabel, false);
      if r1.Err? { return r1; }
      ghost var mid := compiler.labelcount;
      var r2 := GenerateJump(compiler, right, jumplabel, false);
      if r2.Err? { return r2; }
      EitherCode(e, jumpIfTrue, r1.value, r2.value, jumplabel, false, lo, mid, compiler.labelcount);
      return Ok(r1.value + r2.value);
    }
  }

  /** OrExpression.GenerateJumpIfCondition: to jump when either holds,
      test both; to jump when both fail, skip past the second test when
      the first holds. */
  method GenerateOrJump(compiler: Compiler, e: Expression, jumplabel: Label, jumpIfTrue: bool) returns (r: Result<seq<Instr>>)
    requires e.Or?
    requires FreshFrom(jumplabel, compiler.labelcount)
    modifies compiler`labelcount
    ensures compiler.labelcount >= old(compiler.labelcount)
    ensures r.Ok? <==> JumpTyped(e)
    ensures r.Err? ==> r.msg == NOT_TEXT_CONDITION || r.msg == NON_NUMBER_COMPARISON
    ensures r.Ok? ==> DefsBetween(r.value, old(compiler.labelcount), compiler.labelcount)
    ensures r.Ok? ==> forall env :: Exec(r.value, env) == if Eval(e, env) == jumpIfTrue then Some(jumplabel) else None
    decreases e, 0
  {
    ghost var lo := compiler.labelcount;
    var left, right := e.left, e.right;
    if jumpIfTrue {
      var r1 := GenerateJump(compiler, left, jumplabel, true);
      if r1.Err? { return r1; }
      ghost var mid := compiler.labelcount;
      var r2 := GenerateJump(compiler, right, jumplabel, true);
      if r2.Err? { return r2; }
      EitherCode(e, jumpIfTrue, r1.value, r2.value, jumplabel, true, lo, mid, compiler.labelcount);
      return Ok(r1.value + r2.value);
    } else {
      var l := compiler.GetLabelNumber();
      var r1 := GenerateJump(compiler, left, OrSkip(l), true);
      if r1.Err? { return r1; }
      ghost var mid := compiler.labelcount;
      var r2 := GenerateJump(compiler, right, jumplabel, false);
      if r2.Err? { return r2; }
      SkipCode(e, jumpIfTrue, r1.value, r2.value, OrSkip(l), jumplabel, true, false, lo, mid, compiler.labelcount);
      return Ok(r1.value + r2.value + [Def(OrSkip(l))]);
    }
  }

  // ------------------------------------------------ computing a call's value

  /** The text C# makes of a possibly null string in a concatenation. */
  function OrEmpty(o: Option<string>): string
  {
    if o.Some? then o.value else ""
  }

  /** Expression.Generate for a prepared value: a copy by type into the
      output variable. */
  function MoveLines(t: ExpressionType, v: string, outputvar: Option<string>): (lines: seq<string>)
    ensures t == Void <==> lines == []
    ensures |lines| <= 1
  {
    match t
    case Number => ["    MOVEF_F " + v + " " + OrEmpty(outputvar)]
    case Text => ["    STRINGS DUPLICATE " + v + " " + OrEmpty(outputvar)]
    case NumberArray => ["    ARRAY COPY " + v + " " + OrEmpty(outputvar)]
    case TextArray => ["    ARRAY COPY " + v + " " + OrEmpty(outputvar)]
    case Void => []
  }

  /** The arguments attached after the template: " " and the argument for
      every one that is not null, in order. */
  function Appended(args: seq<Option<string>>): string
  {
    if args == [] then ""
    else Appended(args[..|args| - 1]) + OrAppend(args[|args| - 1])
  }

  function OrAppend(o: Option<string>): string
  {
    if o.Some? then " " + o.value else ""
  }

  lemma {:induction false} AppendedSnoc(args: seq<Option<string>>, last: Option<string>)
    ensures Appended(args + [last]) == Appended(args) + OrAppend(last)
  {
    assert (args + [last])[..|args|] == args;
  }

  /** When every argument was consumed by a placeholder nothing is
      attached. */
  lemma {:induction false} NothingAppended(args: seq<Option<string>>)
    requires forall k :: 0 <= k < |args| ==> args[k].None?
    ensures Appended(args) == ""
    decreases |args|
  {
    if args != [] {
      NothingAppended(args[..|args| - 1]);
    }
  }

  /** Nulling leaves an argument beyond the used indices alone. */
  lemma {:induction false} NulledSnoc(args: seq<Option<string>>, last: Option<string>, uses: seq<nat>)
    requires |args| !in uses
    ensures Nulled(args + [last], uses) == Nulled(args, uses) + [last]
    decreases |uses|
  {
    if uses != [] {
      var init := uses[..|uses| - 1];
      assert forall u :: u in init ==> u in uses;
      NulledSnoc(args, last, init);
    }
  }

  /** The output variable, added as the last argument, is attached at the
      end when the template has no placeholder for it. */
  lemma OutputLast(args: seq<Option<string>>, outputvar: string, uses: seq<nat>)
    requires |args| !in uses
    ensures Appended(Nulled(args + [Some(outputvar)], uses)) == Appended(Nulled(args, uses)) + " " + outputvar
  {
    NulledSnoc(args, Some(outputvar), uses);
    AppendedSnoc(Nulled(args, uses), Some(outputvar));
  }

  /** The types of the parameters without a prepared value, in order: one
      temporary is reserved for each. */
  function UnpreparedTypes(ps: seq<Expression>): seq<ExpressionType>
  {
    if ps == [] then []
    else
      var last := ps[|ps| - 1];
      UnpreparedTypes(ps[..|ps| - 1]) + (if PreparedValue(last).None? then [TypeOf(last)] else [])
  }

  /** "CALL " at k, at the start or after a blank: the template calls a
      library function there. */
  predicate CallAt(template: string, k: int)
  {
    0 <= k <= |template| && StartsWith(template[k..], "CALL ")
    && (k == 0 || template[k - 1] == ' ' || template[k - 1] == '\t')
  }

  /** The name after "CALL ": the rest trimmed, cut at its first space. */
  function CalledName(template: string, k: int): string
    requires CallAt(template, k)
  {
    var n := Trim(template[k + 5..]);
    var space := IndexOf(n, ' ');
    if space >= 0 then Trim(n[..space]) else n
  }

  lemma TrimInside(s: string)
    ensures forall i :: 0 <= i < |Trim(s)| ==> Trim(s)[i] in s
  {
    TrimStartSuffix(s);
    TrimEndPrefix(TrimStart(s));
    var t := TrimStart(s);
    forall i | 0 <= i < |Trim(s)|
      ensures Trim(s)[i] in s
    {
      assert Trim(s)[i] == t[i];
      assert t[i] == s[|s| - |t| + i];
    }
  }

  /** The referenced name is one word. */
  lemma CalledNameIsWord(template: string, k: int)
    requires CallAt(template, k)
    ensures ' ' !in CalledName(template, k)
  {
    var n := Trim(template[k + 5..]);
    var space := IndexOf(n, ' ');
    if space >= 0 {
      TrimInside(n[..space]);
    }
  }

  /** What String.IndexOf("CALL ", idx) tells about the calls from idx
      on. */
  lemma NextCall(template: string, idx: nat)
    requires idx <= |template|
    ensures var f := Find(template[idx..], "CALL ");
            (f < 0 ==> forall k :: idx <= k <= |template| ==> !CallAt(template, k))
            && (f >= 0 ==> idx + f + 5 <= |template| && StartsWith(template[idx + f..], "CALL ")
                           && forall k :: idx <= k < idx + f ==> !CallAt(template, k))
  {
    var f := Find(template[idx..], "CALL ");
    forall k | idx <= k <= |template|
      ensures template[idx..][k - idx..] == template[k..]
    {
    }
  }

  /** Registers the library function called at k. */
  method MemorizeCallAt(compiler: Compiler, template: string, k: int) returns (r: Result<()>)
    requires compiler.Valid() && CallAt(template, k)
    modifies compiler`references
    ensures compiler.Valid() && old(compiler.references) <= compiler.references
    ensures r.Ok? ==> CalledName(template, k) in compiler.references
    ensures r.Err? ==> exists u :: u !in compiler.library && r.msg == "Reference to undefined function: " + u
    ensures LibraryClosed(compiler.library) && CalledName(template, k) in compiler.library ==> r.Ok?
  {
    var n := Trim(template[k + 5..]);
    var space := IndexOf(n, ' ');
    if space >= 0 {
      n := Trim(n[..space]);
    }
    r := compiler.MemorizeReference(n);
  }

  /** Every call before position n names a registered function. */
  ghost predicate Covered(template: string, refs: set<string>, n: int)
  {
    forall k :: 0 <= k < n && CallAt(template, k) ==> CalledName(template, k) in refs
  }

  lemma CoveredGrow(template: string, refs: set<string>, more: set<string>, n: int)
    requires Covered(template, refs, n) && refs <= more
    ensures Covered(template, more, n)
  {
  }

  lemma CoveredSkip(template: string, refs: set<string>, n: int, m: int)
    requires Covered(template, refs, n) && n <= m
    requires forall k :: n <= k < m && k <= |template| ==> !CallAt(template, k)
    ensures Covered(template, refs, m)
  {
  }

  lemma CoveredNext(template: string, refs: set<string>, n: int)
    requires Covered(template, refs, n)
    requires CallAt(template, n) ==> CalledName(template, n) in refs
    ensures Covered(template, refs, n + 1)
  {
  }

  /** The loop of CallExpression.Generate that registers every library
      function the template calls. */
  method MemorizeCalls(compiler: Compiler, template: string) returns (r: Result<()>)
    requires compiler.Valid()
    modifies compiler`references
    ensures compiler.Valid() && old(compiler.references) <= compiler.references
    ensures r.Ok? ==> forall k :: CallAt(template, k) ==> CalledName(template, k) in compiler.references
    ensures r.Err? ==> exists u :: u !in compiler.library && r.msg == "Reference to undefined function: " + u
    ensures LibraryClosed(compiler.library) && (forall k :: CallAt(template, k) ==> CalledName(template, k) in compiler.library) ==> r.Ok?
  {
    var idx := 0;
    while true
      invariant 0 <= idx <= |template|
      invariant compiler.Valid() && old(compiler.references) <= compiler.references
      invariant Covered(template, compiler.references, idx)
      decreases |template| - idx
    {
      var f := Find(template[idx..], "CALL ");
      NextCall(template, idx);
      if f < 0 {
        CoveredSkip(template, compiler.references, idx, |template| + 1);
        break;
      }
      CoveredSkip(template, compiler.references, idx, idx + f);
      idx := idx + f;
      if idx == 0 || template[idx - 1] == ' ' || template[idx - 1] == '\t' {
        ghost var refs := compiler.references;
        var m := MemorizeCallAt(compiler, template, idx);
        if m.Err? {
          return m;
        }
        CoveredGrow(template, refs, compiler.references, idx);
      }
      CoveredNext(template, compiler.references, idx);
      idx := idx + 1;
    }
    r := Ok(());
  }

  /** The loop that releases the temporaries, one per entry. */
  method ReleaseTemporaries(fd: FunctionDefinition, releases: seq<ExpressionType>)
    requires fd.Valid() && forall t :: t in releases ==> t in fd.reservedtemporaries
    modifies fd`reservedtemporaries
    ensures fd.Valid() && fd.reservedtemporaries.Keys == old(fd.reservedtemporaries.Keys)
    ensures forall t :: Count(fd.reservedtemporaries, t) == Count(old(fd.reservedtemporaries), t) - multiset(releases)[t]
  {
    var j := 0;
    while j < |releases|
      invariant 0 <= j <= |releases|
      invariant fd.Valid() && fd.reservedtemporaries.Keys == old(fd.reservedtemporaries.Keys)
      invariant forall t :: Count(fd.reservedtemporaries, t) == Count(old(fd.reservedtemporaries), t) - multiset(releases[..j])[t]
    {
      assert releases[..j + 1] == releases[..j] + [releases[j]];
      var _ := fd.ReleaseVariable(releases[j]);
      j := j + 1;
    }
    assert releases[..j] == releases;
  }

  /** The loop that attaches the arguments left after the placeholders. */
  method AppendArguments(text: string, args: seq<Option<string>>) returns (line: string)
    ensures line == text + Appended(args)
  {
    var tail := "";
    var k := 0;
    while k < |args|
      invariant 0 <= k <= |args|
      invariant tail == Appended(args[..k])
    {
      assert args[..k + 1] == args[..k] + [args[k]];
      AppendedSnoc(args[..k], args[k]);
      if args[k].Some? {
        tail := tail + " " + args[k].value;
      }
      k := k + 1;
    }
    assert args[..k] == args;
    line := text + tail;
  }

  /** The line of the call: the template with its placeholders filled from
      the arguments, then the arguments no placeholder consumed. */
  method WriteCall(template: string, arguments: seq<Option<string>>, expansioncounter: int) returns (line: string, r: Result<()>)
    ensures var inj := Injected(template, arguments, expansioncounter, 0, []);
            (r.Ok? <==> inj.Ok?)
            && (r.Err? ==> r.msg == inj.msg)
            && (r.Ok? ==> line == "    " + inj.value.0 + Appended(Nulled(arguments, inj.value.1)))
  {
    var text, remaining := InjectPlaceholders(template, arguments, expansioncounter);
    if text.Err? {
      return "", Err(text.msg);
    }
    line := AppendArguments("    " + text.value, remaining);
    r := Ok(());
  }

  /** How many temporaries of a type a reservation map holds. */
  function Count(m: map<ExpressionType, int>, t: ExpressionType): int
  {
    if t in m then m[t] else 0
  }

  /** The reservations now are those before plus one per pending release,
      and every pending type has an entry. */
  ghost predicate Pending(now: map<ExpressionType, int>, before: map<ExpressionType, int>, releases: seq<ExpressionType>)
  {
    before.Keys <= now.Keys
    && (forall t :: t in releases ==> t in now)
    && forall t :: Count(now, t) == Count(before, t) + multiset(releases)[t]
  }

  /** Reserving a temporary of type t and then computing into it with
      the reservations back where they were adds t to the pending ones. */
  lemma PendingReserve(before: map<ExpressionType, int>, m0: map<ExpressionType, int>, m1: map<ExpressionType, int>, m2: map<ExpressionType, int>, releases: seq<ExpressionType>, t: ExpressionType)
    requires Pending(m0, before, releases)
    requires m1 == m0[t := Count(m0, t) + 1]
    requires m1.Keys <= m2.Keys && forall u :: Count(m2, u) == Count(m1, u)
    ensures Pending(m2, before, releases + [t])
  {
    assert multiset(releases + [t]) == multiset(releases) + multiset{t};
    forall u | u in releases + [t]
      ensures u in m2
    {
      if u != t { assert u in releases; }
    }
  }

  /** Expression.Generate: the code that computes e into outputvar. */
  method GenerateValue(compiler: Compiler, fd: FunctionDefinition, e: Expression, outputvar: Option<string>) returns (lines: seq<string>, r: Result<()>)
    requires compiler.Valid() && fd.Valid()
    modifies compiler`labelcount, compiler`references, fd`reservedtemporaries, fd`maxreservedtemporaries
    ensures compiler.Valid() && fd.Valid()
    ensures old(compiler.references) <= compiler.references && old(compiler.labelcount) <= compiler.labelcount
    ensures old(fd.reservedtemporaries).Keys <= fd.reservedtemporaries.Keys
    ensures r.Ok? ==> forall t :: Count(fd.reservedtemporaries, t) == Count(old(fd.reservedtemporaries), t)
    ensures PreparedValue(e).Some? ==> r.Ok? && lines == MoveLines(TypeOf(e), PreparedValue(e).value, outputvar)
    decreases e, 5
  {
    var v := PreparedValue(e);
    if v.Some? {
      return MoveLines(TypeOf(e), v.value, outputvar), Ok(());
    }
    if e.UserCall? {
      ghost var body, retlabel, tmps;
      lines, r, body, retlabel, tmps := GenerateFunctionCall(compiler, fd, e, outputvar);
      return;
    }
    ghost var args, counter;
    lines, r, args, counter := GenerateCall(compiler, fd, e, outputvar);
  }

  /** CallExpression.Generate: computes the parameters without a prepared
      value into reserved temporaries, writes the template with its
      placeholders filled and the remaining arguments attached, releases
      the temporaries and registers the library functions the template
      calls. args are the arguments the template was filled from and
      counter the label number it got. */
  method GenerateCall(compiler: Compiler, fd: FunctionDefinition, e: Expression, outputvar: Option<string>)
    returns (lines: seq<string>, r: Result<()>, ghost args: seq<Option<string>>, ghost counter: int)
    requires PreparedValue(e).None? && !e.UserCall?
    requires compiler.Valid() && fd.Valid()
    modifies compiler`labelcount, compiler`references, fd`reservedtemporaries, fd`maxreservedtemporaries
    ensures compiler.Valid() && fd.Valid()
    ensures old(compiler.references) <= compiler.references && old(compiler.labelcount) <= compiler.labelcount
    ensures old(fd.reservedtemporaries).Keys <= fd.reservedtemporaries.Keys
    ensures r.Ok? ==> forall t :: Count(fd.reservedtemporaries, t) == Count(old(fd.reservedtemporaries), t)
    ensures r.Ok? ==> |args| == |Parameters(e)| + (if outputvar.Some? then 1 else 0)
    ensures r.Ok? ==> forall i :: 0 <= i < |Parameters(e)| && PreparedValue(Parameters(e)[i]).Some? ==> args[i] == PreparedValue(Parameters(e)[i])
    ensures r.Ok? && outputvar.Some? ==> args[|args| - 1] == outputvar
    ensures r.Ok? ==> var inj := Injected(Template(e), args, counter, 0, []);
                      inj.Ok? && |lines| >= 1 && lines[|lines| - 1] == "    " + inj.value.0 + Appended(Nulled(args, inj.value.1))
    ensures r.Ok? ==> forall k :: CallAt(Template(e), k) ==> CalledName(Template(e), k) in compiler.references
    decreases e, 2
  {
    var sublines, arguments, releases, pr := PrepareArguments(compiler, fd, e);
    args, counter := arguments, 0;
    if pr.Err? {
      return sublines, pr, args, counter;
    }
    if outputvar.Some? {
      arguments := arguments + [outputvar];
    }
    args := arguments;
    var expansioncounter := compiler.GetLabelNumber();
    counter := expansioncounter;
    var line, wr := WriteCall(Template(e), arguments, expansioncounter);
    if wr.Err? {
      return sublines, wr, args, counter;
    }
    lines := sublines + [line];
    ReleaseTemporaries(fd, releases);
    r := MemorizeCalls(compiler, Template(e));
  }

  /** Pending releases add up. */
  lemma PendingJoin(before: map<ExpressionType, int>, mid: map<ExpressionType, int>, now: map<ExpressionType, int>, r1: seq<ExpressionType>, r2: seq<ExpressionType>)
    requires Pending(mid, before, r1) && Pending(now, mid, r2)
    ensures Pending(now, before, r1 + r2)
  {
    assert multiset(r1 + r2) == multiset(r1) + multiset(r2);
    forall u | u in r1 + r2
      ensures u in now
    {
      if u in r1 { assert u in mid; }
    }
  }

  /** One parameter of a call: its prepared value, or a temporary reserved
      for its type (the name ReserveVariable gives) with the code that
      computes the parameter into it. */
  method PrepareArgument(compiler: Compiler, fd: FunctionDefinition, p: Expression)
    returns (lines: seq<string>, arg: Option<string>, releases: seq<ExpressionType>, r: Result<()>)
    requires compiler.Valid() && fd.Valid()
    modifies compiler`labelcount, compiler`references, fd`reservedtemporaries, fd`maxreservedtemporaries
    ensures compiler.Valid() && fd.Valid()
    ensures old(compiler.references) <= compiler.references && old(compiler.labelcount) <= compiler.labelcount
    ensures old(fd.reservedtemporaries).Keys <= fd.reservedtemporaries.Keys
    ensures PreparedValue(p).Some? ==> arg == PreparedValue(p) && lines == [] && releases == [] && r.Ok?
    ensures PreparedValue(p).None? ==> releases == [TypeOf(p)]
    ensures r.Ok? ==> Pending(fd.reservedtemporaries, old(fd.reservedtemporaries), releases)
    decreases p, 6
  {
    arg := PreparedValue(p);
    if arg.Some? {
      return [], arg, [], Ok(());
    }
    ghost var m0 := fd.reservedtemporaries;
    arg := fd.ReserveVariable(TypeOf(p));
    ghost var m1 := fd.reservedtemporaries;
    releases := [TypeOf(p)];
    lines, r := GenerateValue(compiler, fd, p, arg);
    if r.Ok? {
      assert Pending(m0, m0, []);
      PendingReserve(m0, m0, m1, fd.reservedtemporaries, [], TypeOf(p));
      assert [] + [TypeOf(p)] == releases;
    }
  }

  /** The loop of CallExpression.Generate over the parameters: a prepared
      value is used as it is; any other parameter is computed into a
      temporary reserved for its type, whose type is noted for release. */
  method PrepareArguments(compiler: Compiler, fd: FunctionDefinition, e: Expression)
    returns (lines: seq<string>, args: seq<Option<string>>, releases: seq<ExpressionType>, r: Result<()>)
    requires compiler.Valid() && fd.Valid()
    modifies compiler`labelcount, compiler`references, fd`reservedtemporaries, fd`maxreservedtemporaries
    ensures compiler.Valid() && fd.Valid()
    ensures old(compiler.references) <= compiler.references && old(compiler.labelcount) <= compiler.labelcount
    ensures old(fd.reservedtemporaries).Keys <= fd.reservedtemporaries.Keys
    ensures r.Ok? ==> |args| == |Parameters(e)| && releases == UnpreparedTypes(Parameters(e))
    ensures r.Ok? ==> forall i :: 0 <= i < |args| && PreparedValue(Parameters(e)[i]).Some? ==> args[i] == PreparedValue(Parameters(e)[i])
    ensures r.Ok? ==> Pending(fd.reservedtemporaries, old(fd.reservedtemporaries), releases)
    decreases e, 1
  {
    var ps := Parameters(e);
    lines, args, releases := [], [], [];
    var i := 0;
    assert ps[..0] == [];
    while i < |ps|
      invariant 0 <= i <= |ps|
      invariant compiler.Valid() && fd.Valid()
      invariant old(compiler.references) <= compiler.references && old(compiler.labelcount) <= compiler.labelcount
      invariant old(fd.reservedtemporaries).Keys <= fd.reservedtemporaries.Keys
      invariant PreparedUpTo(ps, i, args, releases)
      invariant Pending(fd.reservedtemporaries, old(fd.reservedtemporaries), releases)
    {
      var p := ps[i];
      ghost var mid := fd.reservedtemporaries;
      var sub, arg, more, sr := PrepareArgument(compiler, fd, p);
      if sr.Err? {
        return lines + sub, args, releases + more, sr;
      }
      PendingJoin(old(fd.reservedtemporaries), mid, fd.reservedtemporaries, releases, more);
      PreparedNext(ps, i, args, releases, arg, more);
      releases := releases + more;
      lines := lines + sub;
      args := args + [arg];
      i := i + 1;
    }
    PreparedAll(ps, args, releases);
    r := Ok(());
  }

  /** The arguments of the first i parameters: the prepared values where
      there are some, and one pending release per other parameter. */
  ghost predicate PreparedUpTo(ps: seq<Expression>, i: nat, args: seq<Option<string>>, releases: seq<ExpressionType>)
  {
    i <= |ps| && |args| == i && releases == UnpreparedTypes(ps[..i])
    && forall k :: 0 <= k < i && PreparedValue(ps[k]).Some? ==> args[k] == PreparedValue(ps[k])
  }

  lemma PreparedNext(ps: seq<Expression>, i: nat, args: seq<Option<string>>, releases: seq<ExpressionType>, arg: Option<string>, more: seq<ExpressionType>)
    requires PreparedUpTo(ps, i, args, releases) && i < |ps|
    requires PreparedValue(ps[i]).Some? ==> arg == PreparedValue(ps[i]) && more == []
    requires PreparedValue(ps[i]).None? ==> more == [TypeOf(ps[i])]
    ensures PreparedUpTo(ps, i + 1, args + [arg], releases + more)
  {
    assert ps[..i + 1][..i] == ps[..i];
    if more == [] {
      assert releases + more == releases;
    }
  }

  lemma PreparedAll(ps: seq<Expression>, args: seq<Option<string>>, releases: seq<ExpressionType>)
    requires PreparedUpTo(ps, |ps|, args, releases)
    ensures |args| == |ps| && releases == UnpreparedTypes(ps)
    ensures forall i :: 0 <= i < |args| && PreparedValue(ps[i]).Some? ==> args[i] == PreparedValue(ps[i])
  {
    assert ps[..|ps|] == ps;
  }

  // ------------------------------------------------ FunctionExpression

  /** One parameter of a user function call: a temporary reserved for its
      type (no name for arrays and Void) and the code that computes the
      parameter into it. */
  method ComputeArgument(compiler: Compiler, fd: FunctionDefinition, p: Expression)
    returns (lines: seq<string>, tmp: Option<string>, r: Result<()>)
    requires compiler.Valid() && fd.Valid()
    modifies compiler`labelcount, compiler`references, fd`reservedtemporaries, fd`maxreservedtemporaries
    ensures compiler.Valid() && fd.Valid()
    ensures old(compiler.references) <= compiler.references && old(compiler.labelcount) <= compiler.labelcount
    ensures old(fd.reservedtemporaries).Keys <= fd.reservedtemporaries.Keys
    ensures tmp.Some? <==> TypeOf(p) == Number || TypeOf(p) == Text
    ensures r.Ok? ==> Pending(fd.reservedtemporaries, old(fd.reservedtemporaries), [TypeOf(p)])
    decreases p, 6
  {
    ghost var m0 := fd.reservedtemporaries;
    tmp := fd.ReserveVariable(TypeOf(p));
    ghost var m1 := fd.reservedtemporaries;
    lines, r := GenerateValue(compiler, fd, p, tmp);
    if r.Ok? {
      assert Pending(m0, m0, []);
      PendingReserve(m0, m0, m1, fd.reservedtemporaries, [], TypeOf(p));
      assert [] + [TypeOf(p)] == [TypeOf(p)];
    }
  }

  /** The first loop of FunctionExpression.Generate: every parameter is
      computed into a temporary of its type, reserved in order. */
  method ComputeArguments(compiler: Compiler, fd: FunctionDefinition, e: Expression)
    returns (lines: seq<string>, tmps: seq<Option<string>>, releases: seq<ExpressionType>, r: Result<()>)
    requires compiler.Valid() && fd.Valid()
    modifies compiler`labelcount, compiler`references, fd`reservedtemporaries, fd`maxreservedtemporaries
    ensures compiler.Valid() && fd.Valid()
    ensures old(compiler.references) <= compiler.references && old(compiler.labelcount) <= compiler.labelcount
    ensures old(fd.reservedtemporaries).Keys <= fd.reservedtemporaries.Keys
    ensures r.Ok? ==> |tmps| == |Parameters(e)| && |releases| == |Parameters(e)|
    ensures r.Ok? ==> forall k :: 0 <= k < |releases| ==> releases[k] == TypeOf(Parameters(e)[k])
    ensures r.Ok? ==> Pending(fd.reservedtemporaries, old(fd.reservedtemporaries), releases)
    decreases e, 1
  {
    var ps := Parameters(e);
    lines, tmps, releases := [], [], [];
    var i := 0;
    while i < |ps|
      invariant 0 <= i <= |ps|
      invariant compiler.Valid() && fd.Valid()
      invariant old(compiler.references) <= compiler.references && old(compiler.labelcount) <= compiler.labelcount
      invariant old(fd.reservedtemporaries).Keys <= fd.reservedtemporaries.Keys
      invariant |tmps| == i && |releases| == i
      invariant TypesMatch(ps, releases)
      invariant Pending(fd.reservedtemporaries, old(fd.reservedtemporaries), releases)
    {
      ghost var mid := fd.reservedtemporaries;
      var sub, tmp, sr := ComputeArgument(compiler, fd, ps[i]);
      if sr.Err? {
        return lines + sub, tmps, releases, sr;
      }
      PendingJoin(old(fd.reservedtemporaries), mid, fd.reservedtemporaries, releases, [TypeOf(ps[i])]);
      TypesNext(ps, releases);
      releases := releases + [TypeOf(ps[i])];
      lines := lines + sub;
      tmps := tmps + [tmp];
      i := i + 1;
    }
    r := Ok(());
  }

  /** releases holds the types of the first parameters, in order. */
  ghost predicate TypesMatch(ps: seq<Expression>, releases: seq<ExpressionType>)
  {
    |releases| <= |ps| && forall k :: 0 <= k < |releases| ==> releases[k] == TypeOf(ps[k])
  }

  lemma TypesNext(ps: seq<Expression>, releases: seq<ExpressionType>)
    requires TypesMatch(ps, releases) && |releases| < |ps|
    ensures TypesMatch(ps, releases + [TypeOf(ps[|releases|])])
  {
  }

  /** The second loop of FunctionExpression.Generate: releases the
      temporaries, the last parameter's first. */
  method ReleaseReversed(fd: FunctionDefinition, releases: seq<ExpressionType>)
    requires fd.Valid() && forall t :: t in releases ==> t in fd.reservedtemporaries
    modifies fd`reservedtemporaries
    ensures fd.Valid() && fd.reservedtemporaries.Keys == old(fd.reservedtemporaries.Keys)
    ensures forall t :: Count(fd.reservedtemporaries, t) == Count(old(fd.reservedtemporaries), t) - multiset(releases)[t]
  {
    var j := |releases|;
    while j > 0
      invariant 0 <= j <= |releases|
      invariant fd.Valid() && fd.reservedtemporaries.Keys == old(fd.reservedtemporaries.Keys)
      invariant forall t :: Count(fd.reservedtemporaries, t) == Count(old(fd.reservedtemporaries), t) - multiset(releases[j..])[t]
    {
      j := j - 1;
      assert releases[j..] == [releases[j]] + releases[j + 1..];
      var _ := fd.ReleaseVariable(releases[j]);
    }
    assert releases[0..] == releases;
  }

  /** FunctionExpression.Generate. When the callee could call the current
      function, the current locals are saved before and restored after the
      call (see SaveRestore for what that achieves). The parameters are
      computed into temporaries that are released again before the call,
      so the locals restored are the locals saved: both are the locals at
      the reservation counts of the start. body is the code between the
      saves and the restores, retlabel the number of the return label and
      tmps the temporaries that hold the arguments. */
  method GenerateFunctionCall(compiler: Compiler, cf: FunctionDefinition, e: Expression, outputvar: Option<string>)
    returns (lines: seq<string>, r: Result<()>, ghost body: seq<string>, ghost retlabel: int, ghost tmps: seq<Option<string>>)
    requires e.UserCall?
    requires compiler.Valid() && cf.Valid()
    modifies compiler`labelcount, compiler`references, cf`reservedtemporaries, cf`maxreservedtemporaries
    ensures compiler.Valid() && cf.Valid()
    ensures old(compiler.references) <= compiler.references && old(compiler.labelcount) <= compiler.labelcount
    ensures old(cf.reservedtemporaries).Keys <= cf.reservedtemporaries.Keys
    ensures r.Ok? ==> forall t :: Count(cf.reservedtemporaries, t) == Count(old(cf.reservedtemporaries), t)
    ensures r.Ok? ==>
              var save := CouldCall(old(compiler.Graph()), e.callee.fname, cf.fname);
              var nums := LocalsAt(cf, Number, old(cf.Reserved(Number)));
              var texts := LocalsAt(cf, Text, old(cf.Reserved(Text)));
              lines == (if save then OpsLines(SaveOps(nums, texts)) else []) + body
                       + (if save then OpsLines(RestoreOps(nums, texts)) else []) + ResultLines(e.callee, outputvar)
    ensures r.Ok? ==> CallBodyShape(e, body, retlabel, tmps)
    ensures r.Ok? ==> old(compiler.labelcount) <= retlabel < compiler.labelcount
    decreases e, 4
  {
    var dosave := compiler.FunctionCouldCall(e.callee.fname, cf.fname);
    var code;
    if dosave {
      code, r, body, retlabel, tmps := SavedCall(compiler, cf, e);
    } else {
      code, r, retlabel, tmps := CallBody(compiler, cf, e);
      body := code;
    }
    if r.Err? {
      return code, r, body, retlabel, tmps;
    }
    lines := code + ResultLines(e.callee, outputvar);
  }

  /** The call of a function that could call the calling one: every
      current local of the caller is pushed before the call body and
      popped after it. */
  method SavedCall(compiler: Compiler, cf: FunctionDefinition, e: Expression)
    returns (lines: seq<string>, r: Result<()>, ghost body: seq<string>, ghost retlabel: int, ghost tmps: seq<Option<string>>)
    requires e.UserCall?
    requires compiler.Valid() && cf.Valid()
    modifies compiler`labelcount, compiler`references, cf`reservedtemporaries, cf`maxreservedtemporaries
    ensures compiler.Valid() && cf.Valid()
    ensures old(compiler.references) <= compiler.references && old(compiler.labelcount) <= compiler.labelcount
    ensures old(cf.reservedtemporaries).Keys <= cf.reservedtemporaries.Keys
    ensures r.Ok? ==> forall t :: Count(cf.reservedtemporaries, t) == Count(old(cf.reservedtemporaries), t)
    ensures r.Ok? ==>
              var nums := LocalsAt(cf, Number, old(cf.Reserved(Number)));
              var texts := LocalsAt(cf, Text, old(cf.Reserved(Text)));
              lines == OpsLines(SaveOps(nums, texts)) + body + OpsLines(RestoreOps(nums, texts))
    ensures r.Ok? ==> CallBodyShape(e, body, retlabel, tmps)
    ensures r.Ok? ==> old(compiler.labelcount) <= retlabel < compiler.labelcount
    decreases e, 3
  {
    ghost var m0 := cf.reservedtemporaries;
    body, retlabel, tmps := [], 0, [];
    var saves, restores;
    saves, r := SaveAll(compiler, cf);
    if r.Err? {
      return saves, r, body, retlabel, tmps;
    }
    var call;
    call, r, retlabel, tmps := CallBody(compiler, cf, e);
    body := call;
    if r.Err? {
      return saves + call, r, body, retlabel, tmps;
    }
    assert Count(cf.reservedtemporaries, Number) == Count(m0, Number);
    assert Count(cf.reservedtemporaries, Text) == Count(m0, Text);
    restores, r := RestoreAll(compiler, cf);
    lines := saves + call + restores;
  }

  /** The code between the saves and the restores: the argument
      computation, one set-up line per callee parameter, and the call
      through the return label. */
  ghost predicate CallBodyShape(e: Expression, body: seq<string>, retlabel: int, tmps: seq<Option<string>>)
    requires e.UserCall?
  {
    |tmps| == |e.parameters| && |e.callee.paramnames| <= |e.callee.defaultvalues|
    && exists code :: body == code + ArgumentMoves(e.callee, tmps) + CallLines(e.callee.startsub, "CALLSUB" + IntToString(retlabel))
  }

  /** The middle of FunctionExpression.Generate: the arguments computed
      into temporaries, the callee's parameters set up, the temporaries
      released in reverse order and the call written. */
  method CallBody(compiler: Compiler, cf: FunctionDefinition, e: Expression)
    returns (body: seq<string>, r: Result<()>, ghost retlabel: int, ghost tmps: seq<Option<string>>)
    requires e.UserCall?
    requires compiler.Valid() && cf.Valid()
    modifies compiler`labelcount, compiler`references, cf`reservedtemporaries, cf`maxreservedtemporaries
    ensures compiler.Valid() && cf.Valid()
    ensures old(compiler.references) <= compiler.references && old(compiler.labelcount) <= compiler.labelcount
    ensures old(cf.reservedtemporaries).Keys <= cf.reservedtemporaries.Keys
    ensures r.Ok? ==> forall t :: Count(cf.reservedtemporaries, t) == Count(old(cf.reservedtemporaries), t)
    ensures r.Ok? ==> CallBodyShape(e, body, retlabel, tmps)
    ensures r.Ok? ==> old(compiler.labelcount) <= retlabel < compiler.labelcount
    decreases e, 2
  {
    retlabel := 0;
    var code, args, releases, cr := ComputeArguments(compiler, cf, e);
    tmps := args;
    if cr.Err? {
      return code, cr, retlabel, tmps;
    }
    var moves;
    moves, r := MoveArguments(e.callee, args);
    if r.Err? {
      return code + moves, r, retlabel, tmps;
    }
    ReleaseReversed(cf, releases);
    var n := compiler.GetLabelNumber();
    retlabel := n;
    body := code + moves + CallLines(e.callee.startsub, "CALLSUB" + IntToString(n));
  }

}
