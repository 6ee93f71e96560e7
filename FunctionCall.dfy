/** The code around a call of a user function: the locals of the caller
    kept on two stacks while the callee runs, the parameter set-up and the
    jump through the return stack. */
module FunctionCalls {
  import opened Common
  import opened ExpressionTypes
  import opened FunctionDefinitions
  import opened BasicCompiler
  import opened LibraryEntries

  /** One step of keeping a local across a call: Push copies the named
      variable onto the number stack (numeric) or the string stack, Pop
      moves the top of that stack back into it. */
  datatype StackOp = Push(numeric: bool, name: string) | Pop(numeric: bool, name: string)

  /** The two LMS lines of a step: the array access at the stack size and
      the size change, in the order the compiler writes them. */
  function OpLines(op: StackOp): (r: seq<string>)
    ensures |r| == 2
  {
    match op
    case Push(true, n) =>
      ["    CALL ARRAYSTORE_FLOAT NUMBERSTACKSIZE " + n + " NUMBERSTACKHANDLE", "    ADDF NUMBERSTACKSIZE 1.0 NUMBERSTACKSIZE"]
    case Push(false, n) =>
      ["    CALL ARRAYSTORE_STRING STRINGSTACKSIZE " + n + " STRINGSTACKHANDLE", "    ADDF STRINGSTACKSIZE 1.0 STRINGSTACKSIZE"]
    case Pop(true, n) =>
      ["    SUBF NUMBERSTACKSIZE 1.0 NUMBERSTACKSIZE", "    CALL ARRAYGET_FLOAT NUMBERSTACKSIZE " + n + " NUMBERSTACKHANDLE"]
    case Pop(false, n) =>
      ["    SUBF STRINGSTACKSIZE 1.0 STRINGSTACKSIZE", "    CALL ARRAYGET_STRING STRINGSTACKSIZE " + n + " STRINGSTACKHANDLE"]
  }

  function OpsLines(ops: seq<StackOp>): (r: seq<string>)
    ensures |r| == 2 * |ops|
  {
    if ops == [] then [] else OpLines(ops[0]) + OpsLines(ops[1..])
  }

  /** The saves of a list of locals, in list order. */
  function Pushes(numeric: bool, names: seq<string>): (r: seq<StackOp>)
    ensures |r| == |names|
  {
    if names == [] then [] else [Push(numeric, names[0])] + Pushes(numeric, names[1..])
  }

  /** The restores of a list of locals: the list reversed. */
  function Pops(numeric: bool, names: seq<string>): (r: seq<StackOp>)
    ensures |r| == |names|
  {
    if names == [] then [] else Pops(numeric, names[1..]) + [Pop(numeric, names[0])]
  }

  /** The saves before a possibly recursive call: number locals, then
      text locals. */
  function SaveOps(nums: seq<string>, texts: seq<string>): seq<StackOp>
  {
    Pushes(true, nums) + Pushes(false, texts)
  }

  /** The restores after the call: number locals, then text locals, each
      list reversed. */
  function RestoreOps(nums: seq<string>, texts: seq<string>): seq<StackOp>
  {
    Pops(true, nums) + Pops(false, texts)
  }

  /** The variables of the VM and the two stacks, as far as saving and
      restoring goes; a value is kept as its text. */
  datatype Machine = Machine(store: map<string, string>, numbers: seq<string>, strings: seq<string>)

  function Lookup(store: map<string, string>, n: string): string
  {
    if n in store then store[n] else ""
  }

  function StackOf(m: Machine, numeric: bool): seq<string>
  {
    if numeric then m.numbers else m.strings
  }

  function WithStack(m: Machine, numeric: bool, s: seq<string>): (r: Machine)
    ensures r.store == m.store && StackOf(r, numeric) == s && StackOf(r, !numeric) == StackOf(m, !numeric)
  {
    if numeric then m.(numbers := s) else m.(strings := s)
  }

  /** One step; popping an empty stack reads outside the array and fails. */
  function Step(op: StackOp, m: Machine): Option<Machine>
  {
    match op
    case Push(k, n) => Some(WithStack(m, k, StackOf(m, k) + [Lookup(m.store, n)]))
    case Pop(k, n) =>
      var s := StackOf(m, k);
      if s == [] then None
      else Some(WithStack(m.(store := m.store[n := s[|s| - 1]]), k, s[..|s| - 1]))
  }

  function Run(ops: seq<StackOp>, m: Machine): Option<Machine>
  {
    if ops == [] then Some(m)
    else
      var next := Step(ops[0], m);
      if next.None? then None else Run(ops[1..], next.value)
  }

  /** The values of a list of variables, in list order. */
  function Values(store: map<string, string>, names: seq<string>): (r: seq<string>)
    ensures |r| == |names|
  {
    if names == [] then [] else [Lookup(store, names[0])] + Values(store, names[1..])
  }

  lemma {:induction false} OpsLinesAppend(a: seq<StackOp>, b: seq<StackOp>)
    ensures OpsLines(a + b) == OpsLines(a) + OpsLines(b)
  {
    if a != [] {
      assert (a + b)[0] == a[0] && (a + b)[1..] == a[1..] + b;
      OpsLinesAppend(a[1..], b);
      calc {
        OpsLines(a + b);
        OpLines(a[0]) + OpsLines(a[1..] + b);
        OpLines(a[0]) + (OpsLines(a[1..]) + OpsLines(b));
        (OpLines(a[0]) + OpsLines(a[1..])) + OpsLines(b);
      }
    } else {
      assert a + b == b;
    }
  }

  lemma {:induction false} PushesSnoc(numeric: bool, names: seq<string>, n: string)
    ensures Pushes(numeric, names + [n]) == Pushes(numeric, names) + [Push(numeric, n)]
  {
    if names != [] {
      assert (names + [n])[1..] == names[1..] + [n];
      PushesSnoc(numeric, names[1..], n);
    }
  }

  /** The restores are the saves in reverse order, with Pop for Push. */
  lemma {:induction false} PopOrder(numeric: bool, names: seq<string>)
    ensures forall i :: 0 <= i < |names| ==>
              Pushes(numeric, names)[i] == Push(numeric, names[i])
              && Pops(numeric, names)[i] == Pop(numeric, names[|names| - 1 - i])
  {
    if names != [] {
      PopOrder(numeric, names[1..]);
    }
  }

  lemma {:induction false} RunAppend(a: seq<StackOp>, b: seq<StackOp>, m: Machine)
    ensures Run(a + b, m) == if Run(a, m).None? then None else Run(b, Run(a, m).value)
  {
    if a != [] {
      assert a + b != [] && (a + b)[0] == a[0] && (a + b)[1..] == a[1..] + b;
      var next := Step(a[0], m);
      if next.Some? {
        RunAppend(a[1..], b, next.value);
        assert Run(a + b, m) == Run(a[1..] + b, next.value);
        assert Run(a, m) == Run(a[1..], next.value);
      }
    } else {
      assert a + b == b;
    }
  }

  /** Saving pushes the values of the locals, in list order, and changes
      nothing else. */
  lemma {:induction false} PushesRun(numeric: bool, names: seq<string>, m: Machine)
    ensures Run(Pushes(numeric, names), m) == Some(WithStack(m, numeric, StackOf(m, numeric) + Values(m.store, names)))
  {
    if names == [] {
      assert StackOf(m, numeric) + Values(m.store, names) == StackOf(m, numeric);
      assert WithStack(m, numeric, StackOf(m, numeric)) == m;
    } else {
      var m1 := WithStack(m, numeric, StackOf(m, numeric) + [Lookup(m.store, names[0])]);
      var ops := Pushes(numeric, names);
      assert ops[0] == Push(numeric, names[0]) && ops[1..] == Pushes(numeric, names[1..]);
      assert Step(ops[0], m) == Some(m1);
      assert Run(ops, m) == Run(Pushes(numeric, names[1..]), m1);
      PushesRun(numeric, names[1..], m1);
      assert StackOf(m1, numeric) + Values(m1.store, names[1..]) == StackOf(m, numeric) + Values(m.store, names);
      assert WithStack(m1, numeric, StackOf(m, numeric) + Values(m.store, names)) == WithStack(m, numeric, StackOf(m, numeric) + Values(m.store, names));
    }
  }

  /** One restore: the top of the stack goes into the variable. */
  lemma PopStep(numeric: bool, x: string, m: Machine, base: seq<string>, v: string)
    requires StackOf(m, numeric) == base + [v]
    ensures Run([Pop(numeric, x)], m) == Some(WithStack(m.(store := m.store[x := v]), numeric, base))
  {
    var s := StackOf(m, numeric);
    assert s[|s| - 1] == v && s[..|s| - 1] == base;
    assert Step(Pop(numeric, x), m) == Some(WithStack(m.(store := m.store[x := v]), numeric, base));
    assert [Pop(numeric, x)][1..] == [];
  }

  /** Restoring a list from a stack that holds its saved values on top of
      base: every listed variable gets its saved value, the others keep
      theirs, the stack is back at base and the other stack untouched. */
  lemma {:induction false} PopsRun(numeric: bool, names: seq<string>, saved: map<string, string>, base: seq<string>, m: Machine)
    requires StackOf(m, numeric) == base + Values(saved, names)
    ensures Run(Pops(numeric, names), m).Some?
    ensures var f := Run(Pops(numeric, names), m).value;
            StackOf(f, numeric) == base && StackOf(f, !numeric) == StackOf(m, !numeric)
            && forall n :: Lookup(f.store, n) == if n in names then Lookup(saved, n) else Lookup(m.store, n)
  {
    if names == [] {
      assert StackOf(m, numeric) == base;
    } else {
      var v := Lookup(saved, names[0]);
      assert StackOf(m, numeric) == (base + [v]) + Values(saved, names[1..]);
      PopsRun(numeric, names[1..], saved, base + [v], m);
      PopsStep(numeric, names, saved, base, m);
    }
  }

  /** The last restore of a list, after the restores of its tail. */
  lemma PopsStep(numeric: bool, names: seq<string>, saved: map<string, string>, base: seq<string>, m: Machine)
    requires names != []
    requires var rest := names[1..];
      && Run(Pops(numeric, rest), m).Some?
      && var m1 := Run(Pops(numeric, rest), m).value;
      && StackOf(m1, numeric) == base + [Lookup(saved, names[0])] && StackOf(m1, !numeric) == StackOf(m, !numeric)
      && forall n :: Lookup(m1.store, n) == if n in rest then Lookup(saved, n) else Lookup(m.store, n)
    ensures Run(Pops(numeric, names), m).Some?
    ensures var f := Run(Pops(numeric, names), m).value;
            StackOf(f, numeric) == base && StackOf(f, !numeric) == StackOf(m, !numeric)
            && forall n :: Lookup(f.store, n) == if n in names then Lookup(saved, n) else Lookup(m.store, n)
  {
    var x, rest := names[0], names[1..];
    var v := Lookup(saved, x);
    var m1 := Run(Pops(numeric, rest), m).value;
    PopStep(numeric, x, m1, base, v);
    RunAppend(Pops(numeric, rest), [Pop(numeric, x)], m);
    var f := WithStack(m1.(store := m1.store[x := v]), numeric, base);
    assert Run(Pops(numeric, names), m) == Some(f);
    forall n
      ensures Lookup(f.store, n) == if n in names then Lookup(saved, n) else Lookup(m.store, n)
    {
      if n != x {
        assert n in names <==> n in rest;
      }
    }
  }

  /** Saving the number and text locals puts their values on the two
      stacks in list order and changes no variable. */
  lemma SaveRun(nums: seq<string>, texts: seq<string>, m: Machine)
    ensures Run(SaveOps(nums, texts), m) == Some(Machine(m.store, m.numbers + Values(m.store, nums), m.strings + Values(m.store, texts)))
  {
    RunAppend(Pushes(true, nums), Pushes(false, texts), m);
    PushesRun(true, nums, m);
    PushesRun(false, texts, WithStack(m, true, m.numbers + Values(m.store, nums)));
  }

  /** Whatever the called code did to the variables, as long as it left
      both stacks as it found them, the restores give every saved local
      its value from before the saves, leave the other variables as the
      call left them, and bring both stacks back to their sizes before the
      saves. */
  lemma SaveRestore(nums: seq<string>, texts: seq<string>, before: Machine, after: Machine)
    requires after.numbers == before.numbers + Values(before.store, nums)
    requires after.strings == before.strings + Values(before.store, texts)
    ensures Run(RestoreOps(nums, texts), after).Some?
    ensures var f := Run(RestoreOps(nums, texts), after).value;
            f.numbers == before.numbers && f.strings == before.strings
            && forall n :: Lookup(f.store, n) == if n in nums || n in texts then Lookup(before.store, n) else Lookup(after.store, n)
  {
    RunAppend(Pops(true, nums), Pops(false, texts), after);
    PopsRun(true, nums, before.store, before.numbers, after);
    var m1 := Run(Pops(true, nums), after).value;
    PopsRun(false, texts, before.store, before.strings, m1);
  }

  /** The stores of one type of local, in list order; each registers the
      library function it calls. */
  method SaveLocals(compiler: Compiler, names: seq<string>, numeric: bool) returns (lines: seq<string>, r: Result<()>)
    requires compiler.Valid()
    modifies compiler`references
    ensures compiler.Valid() && old(compiler.references) <= compiler.references
    ensures r.Ok? ==> lines == OpsLines(Pushes(numeric, names))
    ensures r.Ok? && names != [] ==> StoreFunction(numeric) in compiler.references
    ensures r.Err? ==> exists u :: u !in compiler.library && r.msg == "Reference to undefined function: " + u
    ensures StoreFunction(numeric) in compiler.library && LibraryClosed(compiler.library) ==> r.Ok?
  {
    lines, r := [], Ok(());
    var i := 0;
    while i < |names|
      invariant 0 <= i <= |names|
      invariant compiler.Valid() && old(compiler.references) <= compiler.references
      invariant lines == OpsLines(Pushes(numeric, names[..i]))
      invariant i > 0 ==> StoreFunction(numeric) in compiler.references
      invariant r.Ok?
    {
      PushLinesStep(numeric, names, i);
      lines := lines + OpLines(Push(numeric, names[i]));
      r := compiler.MemorizeReference(StoreFunction(numeric));
      if r.Err? {
        return;
      }
      i := i + 1;
    }
    assert names[..i] == names;
  }

  /** The gets of one type of local, walking the list backwards; each
      registers the library function it calls. */
  method RestoreLocals(compiler: Compiler, names: seq<string>, numeric: bool) returns (lines: seq<string>, r: Result<()>)
    requires compiler.Valid()
    modifies compiler`references
    ensures compiler.Valid() && old(compiler.references) <= compiler.references
    ensures r.Ok? ==> lines == OpsLines(Pops(numeric, names))
    ensures r.Ok? && names != [] ==> GetFunction(numeric) in compiler.references
    ensures r.Err? ==> exists u :: u !in compiler.library && r.msg == "Reference to undefined function: " + u
    ensures GetFunction(numeric) in compiler.library && LibraryClosed(compiler.library) ==> r.Ok?
  {
    lines, r := [], Ok(());
    var i := |names|;
    while i > 0
      invariant 0 <= i <= |names|
      invariant compiler.Valid() && old(compiler.references) <= compiler.references
      invariant lines == OpsLines(Pops(numeric, names[i..]))
      invariant i < |names| ==> GetFunction(numeric) in compiler.references
      invariant r.Ok?
    {
      i := i - 1;
      PopLinesStep(numeric, names, i);
      lines := lines + OpLines(Pop(numeric, names[i]));
      r := compiler.MemorizeReference(GetFunction(numeric));
      if r.Err? {
        return;
      }
    }
    assert names[0..] == names;
  }

  lemma PushLinesStep(numeric: bool, names: seq<string>, i: nat)
    requires i < |names|
    ensures OpsLines(Pushes(numeric, names[..i + 1])) == OpsLines(Pushes(numeric, names[..i])) + OpLines(Push(numeric, names[i]))
  {
    PushesSnoc(numeric, names[..i], names[i]);
    assert names[..i + 1] == names[..i] + [names[i]];
    OpsLinesAppend(Pushes(numeric, names[..i]), [Push(numeric, names[i])]);
  }

  lemma PopLinesStep(numeric: bool, names: seq<string>, i: nat)
    requires i < |names|
    ensures OpsLines(Pops(numeric, names[i..])) == OpsLines(Pops(numeric, names[i + 1..])) + OpLines(Pop(numeric, names[i]))
  {
    assert names[i..][1..] == names[i + 1..];
    OpsLinesAppend(Pops(numeric, names[i + 1..]), [Pop(numeric, names[i])]);
  }

  function StoreFunction(numeric: bool): string
  {
    if numeric then "ARRAYSTORE_FLOAT" else "ARRAYSTORE_STRING"
  }

  function GetFunction(numeric: bool): string
  {
    if numeric then "ARRAYGET_FLOAT" else "ARRAYGET_STRING"
  }

  /** Every library entry refers only to library entries. */
  ghost predicate LibraryClosed(library: map<string, LibraryEntry>)
  {
    forall x :: x in library ==> forall y :: y in library[x].references ==> y in library
  }

  /** The line that sets up parameter i of the callee: the computed
      argument when there is one, the parameter's default otherwise, moved
      or duplicated into the parameter's variable by its type. A missing
      argument for an array parameter reads as the empty text. */
  function ArgumentMove(callee: FunctionDefinition, tmps: seq<Option<string>>, i: nat): string
    requires i < |callee.paramnames| && i < |callee.defaultvalues|
  {
    var source := if i < |tmps| then (if tmps[i].Some? then tmps[i].value else "") else callee.GetParameterDefaultLiteral(i);
    if callee.GetParameterType(i) == Number then "    MOVEF_F " + source + " " + callee.GetParameterVariable(i)
    else "    STRINGS DUPLICATE " + source + " " + callee.GetParameterVariable(i)
  }

  /** One line per parameter of the callee, in parameter order. */
  function ArgumentMoves(callee: FunctionDefinition, tmps: seq<Option<string>>): (r: seq<string>)
    requires |callee.paramnames| <= |callee.defaultvalues|
    ensures |r| == |callee.paramnames|
    ensures forall i :: 0 <= i < |r| ==> r[i] == ArgumentMove(callee, tmps, i)
  {
    seq(|callee.paramnames|, i requires 0 <= i < |callee.paramnames| => ArgumentMove(callee, tmps, i))
  }

  /** The arguments-and-defaults loop. A definition with fewer defaults
      than names runs past the end of the array of defaults. */
  method MoveArguments(callee: FunctionDefinition, tmps: seq<Option<string>>) returns (lines: seq<string>, r: Result<()>)
    ensures r.Ok? <==> |callee.paramnames| <= |callee.defaultvalues|
    ensures r.Ok? ==> lines == ArgumentMoves(callee, tmps)
    ensures r.Err? ==> r.msg == ARRAY_INDEX_OUTSIDE
  {
    lines := [];
    var i := 0;
    while i < |callee.paramnames|
      invariant 0 <= i <= |callee.paramnames|
      invariant i <= |callee.defaultvalues|
      invariant |lines| == i && forall k :: 0 <= k < i ==> lines[k] == ArgumentMove(callee, tmps, k)
    {
      if i >= |callee.defaultvalues| {
        return lines, Err(ARRAY_INDEX_OUTSIDE);
      }
      lines := lines + [ArgumentMove(callee, tmps, i)];
      i := i + 1;
    }
    r := Ok(());
  }

  /** The call itself: the return address ENDSUB_sub:label pushed on the
      return stack, the jump to the sub, and the return label. */
  function CallLines(subid: string, returnlabel: string): (r: seq<string>)
    ensures |r| == 4 && r[2] == "    JR SUB_" + subid && r[3] == returnlabel + ":"
  {
    ["    WRITE32 ENDSUB_" + subid + ":" + returnlabel + " STACKPOINTER RETURNSTACK",
     "    ADD8 STACKPOINTER 1 STACKPOINTER",
     "    JR SUB_" + subid,
     returnlabel + ":"]
  }

  /** Reading out the result: only when a variable wants it, and only for
      a Number or Text function. */
  function ResultLines(callee: FunctionDefinition, outputvar: Option<string>): (r: seq<string>)
    reads callee
    ensures |r| <= 1
    ensures r != [] <==> outputvar.Some? && (callee.returnType == Number || callee.returnType == Text)
  {
    if outputvar.None? then []
    else if callee.returnType == Number then ["    MOVEF_F " + callee.GetReturnVariable() + " " + outputvar.value]
    else if callee.returnType == Text then ["    STRINGS DUPLICATE " + callee.GetReturnVariable() + " " + outputvar.value]
    else []
  }

  /** The locals of a type that are live while count temporaries of it
      are reserved: its parameters, then the temporaries. */
  function LocalsAt(cf: FunctionDefinition, t: ExpressionType, count: int): seq<string>
    requires |cf.paramnames| == |cf.defaultvalues|
  {
    var prefix := [TypePrefix(t)] + cf.fname + ".";
    ParameterVariables(cf.paramnames, cf.defaultvalues, t, prefix, 0) + Temporaries(prefix, count)
  }

  /** The current locals are the locals at the current count. */
  lemma CurrentLocalsAt(cf: FunctionDefinition, t: ExpressionType)
    requires cf.Valid()
    ensures cf.CurrentLocals(t) == LocalsAt(cf, t, cf.Reserved(t))
  {
  }

  /** The saves of the current locals, numbers first. */
  method SaveAll(compiler: Compiler, cf: FunctionDefinition) returns (lines: seq<string>, r: Result<()>)
    requires compiler.Valid() && cf.Valid()
    modifies compiler`references
    ensures compiler.Valid() && old(compiler.references) <= compiler.references
    ensures r.Ok? ==> lines == OpsLines(SaveOps(LocalsAt(cf, Number, cf.Reserved(Number)), LocalsAt(cf, Text, cf.Reserved(Text))))
  {
    var nums := cf.GetCurrentLocalVariables(Number);
    var l1;
    l1, r := SaveLocals(compiler, nums, true);
    if r.Err? {
      return l1, r;
    }
    var texts := cf.GetCurrentLocalVariables(Text);
    var l2;
    l2, r := SaveLocals(compiler, texts, false);
    OpsLinesAppend(Pushes(true, nums), Pushes(false, texts));
    lines := l1 + l2;
  }

  /** The restores of the current locals, numbers first, each list read
      backwards. */
  method RestoreAll(compiler: Compiler, cf: FunctionDefinition) returns (lines: seq<string>, r: Result<()>)
    requires compiler.Valid() && cf.Valid()
    modifies compiler`references
    ensures compiler.Valid() && old(compiler.references) <= compiler.references
    ensures r.Ok? ==> lines == OpsLines(RestoreOps(LocalsAt(cf, Number, cf.Reserved(Number)), LocalsAt(cf, Text, cf.Reserved(Text))))
  {
    var nums := cf.GetCurrentLocalVariables(Number);
    var l1;
    l1, r := RestoreLocals(compiler, nums, true);
    if r.Err? {
      return l1, r;
    }
    var texts := cf.GetCurrentLocalVariables(Text);
    var l2;
    l2, r := RestoreLocals(compiler, texts, false);
    OpsLinesAppend(Pops(true, nums), Pops(false, texts));
    lines := l1 + l2;
  }
}
