/** The runtime library's F class: user-defined functions with named local
    variables, kept as frames on a call stack. Small Basic values are
    modelled as strings; the start subroutine a definition captures is an
    uninterpreted callback number, and running it is a parameter of Call. */
module UserFunctions {
  import opened Common

  /** String.Split(separators) without removing empty entries: the runs of
      characters between separators, in order, including empty ones. */
  function SplitAll(s: string, seps: set<char>): (r: seq<string>)
    ensures |r| >= 1
    ensures forall k :: 0 <= k < |r| ==> forall c :: c in r[k] ==> c !in seps
    decreases |s|
  {
    var w := Word(s, seps);
    if |w| == |s| then [s]
    else [w] + SplitAll(s[|w| + 1..], seps)
  }

  /** The local variable name and default a definition part gives: "n:v"
      with the colon after at least one character gives default v, anything
      else default "0"; names are upper-cased. */
  function ParseDefinition(part: string): (r: (string, string))
    ensures IndexOf(part, ':') > 0 ==> r == (Upper(part[..IndexOf(part, ':')]), part[IndexOf(part, ':') + 1..])
    ensures IndexOf(part, ':') <= 0 ==> r == (Upper(part), "0")
  {
    var colonidx := IndexOf(part, ':');
    if colonidx > 0 then (Upper(part[..colonidx]), part[colonidx + 1..]) else (Upper(part), "0")
  }

  datatype FunctionDefinition = FunctionDefinition(start: nat, parameternames: seq<string>, defaults: seq<string>)

  /** The loop of `Function` over the split parameter definitions: each part
      is replaced by its upper-cased name, and its default is collected. */
  method ParseDefinitions(parts: seq<string>) returns (parameternames: seq<string>, defaults: seq<string>)
    ensures |parameternames| == |parts| && |defaults| == |parts|
    ensures forall k :: 0 <= k < |parts| ==>
      parameternames[k] == ParseDefinition(parts[k]).0 && defaults[k] == ParseDefinition(parts[k]).1
  {
    parameternames := parts;
    defaults := [];
    var i := 0;
    while i < |parameternames|
      invariant 0 <= i <= |parameternames| == |parts| && |defaults| == i
      invariant forall k :: 0 <= k < i ==> parameternames[k] == ParseDefinition(parts[k]).0 && defaults[k] == ParseDefinition(parts[k]).1
      invariant forall k :: i <= k < |parts| ==> parameternames[k] == parts[k]
    {
      var colonidx := IndexOf(parameternames[i], ':');
      if colonidx > 0 {
        defaults := defaults + [parameternames[i][colonidx + 1..]];
        parameternames := parameternames[i := Upper(parameternames[i][..colonidx])];
      } else {
        defaults := defaults + ["0"];
        parameternames := parameternames[i := Upper(parameternames[i])];
      }
      i := i + 1;
    }
  }

  /** One frame: the local variables of one call. */
  type Frame = map<string, string>

  /** The variables a new frame binds, after the first n names: each name to
      its argument when one is present, else to its default; a later name
      overrides an equal earlier one. */
  function FrameOf(names: seq<string>, defaults: seq<string>, args: seq<Option<string>>, n: nat): Frame
    requires n <= |names| && n <= |defaults|
  {
    if n == 0 then map[]
    else FrameOf(names, defaults, args, n - 1)[names[n - 1] := Binding(defaults, args, n - 1)]
  }


  /** `StackFrame`'s constructor; missing names or defaults (the root frame)
      give an empty frame. */
  method StackFrame(names: Option<seq<string>>, defaults: Option<seq<string>>, args: seq<Option<string>>) returns (variables: Frame)
    ensures names.None? || defaults.None? ==> variables == map[]
    ensures names.Some? && defaults.Some? ==>
      variables == FrameOf(names.value, defaults.value, args, Min(|names.value|, |defaults.value|))
  {
    variables := map[];
    var i := 0;
    while names.Some? && i < |names.value| && defaults.Some? && i < |defaults.value|
      invariant 0 <= i
      invariant names.Some? && defaults.Some? ==> i <= Min(|names.value|, |defaults.value|)
      invariant names.Some? && defaults.Some? ==> variables == FrameOf(names.value, defaults.value, args, i)
      invariant names.None? || defaults.None? ==> variables == map[] && i == 0
    {
      variables := variables[names.value[i] := if i < |args| && args[i].Some? then args[i].value else defaults.value[i]];
      i := i + 1;
    }
  }

  /** The value a new frame binds to the k-th name: its argument when one is
      present, else its default. */
  function Binding(defaults: seq<string>, args: seq<Option<string>>, k: nat): string
    requires k < |defaults|
  {
    if k < |args| && args[k].Some? then args[k].value else defaults[k]
  }

  /** The frame binds exactly the first n names. */
  lemma {:induction false} FrameKeys(names: seq<string>, defaults: seq<string>, args: seq<Option<string>>, n: nat)
    requires n <= |names| && n <= |defaults|
    ensures FrameOf(names, defaults, args, n).Keys == set k | 0 <= k < n :: names[k]
    decreases n
  {
    if n > 0 {
      FrameKeys(names, defaults, args, n - 1);
      assert (set k | 0 <= k < n :: names[k]) == (set k | 0 <= k < n - 1 :: names[k]) + {names[n - 1]};
    }
  }

  /** A name bound at position k and not repeated after it keeps the value of
      position k. */
  lemma {:induction false} FrameValue(names: seq<string>, defaults: seq<string>, args: seq<Option<string>>, n: nat, k: nat)
    requires n <= |names| && n <= |defaults| && k < n
    requires forall j :: k < j < n ==> names[j] != names[k]
    ensures names[k] in FrameOf(names, defaults, args, n)
    ensures FrameOf(names, defaults, args, n)[names[k]] == Binding(defaults, args, k)
    decreases n
  {
    if k < n - 1 {
      FrameValue(names, defaults, args, n - 1, k);
      assert names[n - 1] != names[k];
    }
  }

  /** The key of the stack the current thread works on: threads the
      extension starts are named "EV3-..."; every other thread, and one
      without a name, shares the stack of "EV3-MAIN". */
  function ThreadKey(threadname: Option<string>): (key: string)
    ensures StartsWith(key, "EV3-")
    ensures threadname.Some? && StartsWith(threadname.value, "EV3-") ==> key == threadname.value
    ensures threadname.None? || !StartsWith(threadname.value, "EV3-") ==> key == "EV3-MAIN"
  {
    if threadname.None? || !StartsWith(threadname.value, "EV3-") then "EV3-MAIN" else threadname.value
  }

  /** The stack GetCurrentStack hands out for a key: the stored one, or a
      fresh stack holding one root frame without variables. */
  function StackOf(stacks: map<string, seq<Frame>>, key: string): seq<Frame>
  {
    if key in stacks then stacks[key] else [map[]]
  }

  /** Every stored stack holds at least its root frame. */
  predicate StacksValid(stacks: map<string, seq<Frame>>)
  {
    forall key :: key in stacks ==> |stacks[key]| >= 1
  }

  /** What the running Basic program can see and change of F's static state:
      the pending start subroutine, the function table and the stacks. */
  datatype Runtime = Runtime(start: Option<nat>, functions: map<string, FunctionDefinition>, stacks: map<string, seq<Frame>>)

  /** The stack of key after a call returns: the callee's code leaves it as
      it may (it can only push and pop in pairs, so a root frame stays), and
      its top frame is removed while more than one frame is left. */
  function Leave(stacks: map<string, seq<Frame>>, key: string): (r: map<string, seq<Frame>>)
    ensures StacksValid(stacks) ==> StacksValid(r)
  {
    var s := StackOf(stacks, key);
    stacks[key := if |s| > 1 then s[..|s| - 1] else if |s| == 1 then s else [map[]]]
  }

  /** A call whose callee leaves the state as it found it restores the
      caller's stack: the frame pushed for the call is the one removed. */
  lemma LeaveAfterEnter(stacks: map<string, seq<Frame>>, key: string, frame: Frame)
    requires StacksValid(stacks)
    ensures var entered := stacks[key := StackOf(stacks, key) + [frame]];
      Leave(entered, key) == stacks[key := StackOf(stacks, key)]
      && Leave(entered, key)[key] == StackOf(stacks, key)
  {
    var s := StackOf(stacks, key);
    assert (s + [frame])[..|s|] == s;
  }

  /** The stacks after an assignment to vn on the stack of key: only a
      variable the top frame already holds is updated. */
  function Assigned(stacks: map<string, seq<Frame>>, key: string, vn: string, value: string): (r: map<string, seq<Frame>>)
    requires StacksValid(stacks)
    ensures StacksValid(r)
    ensures key in r && forall other :: other in stacks && other != key ==> other in r && r[other] == stacks[other]
  {
    var s := StackOf(stacks, key);
    var top := s[|s| - 1];
    stacks[key := s[|s| - 1 := if vn in top then top[vn := value] else top]]
  }

  /** Reading a variable n back after an assignment to vn: n reads as the
      value assigned when it is vn and the top frame holds it, and as before
      otherwise; n is held exactly when it was, and the frames below the top
      are untouched. */
  lemma AssignedReadsBack(stacks: map<string, seq<Frame>>, key: string, vn: string, value: string, n: string)
    requires StacksValid(stacks)
    ensures var s := StackOf(stacks, key);
      var t := StackOf(Assigned(stacks, key, vn, value), key);
      && |t| == |s| && t[..|t| - 1] == s[..|s| - 1]
      && (n in t[|t| - 1] <==> n in s[|s| - 1])
      && (n in s[|s| - 1] ==> t[|t| - 1][n] == if n == vn then value else s[|s| - 1][n])
  {
    var s := StackOf(stacks, key);
    var t := StackOf(Assigned(stacks, key, vn, value), key);
    assert t == s[|s| - 1 := if vn in s[|s| - 1] then s[|s| - 1][vn := value] else s[|s| - 1]];
    assert t[..|t| - 1] == s[..|s| - 1];
  }

  /** The function table, the pending start subroutine and the call stacks,
      one per thread key, whose bottom frame is a root frame. */
  class Functions {
    var start: Option<nat>
    var functions: map<string, FunctionDefinition>
    var stacks: map<string, seq<Frame>>

    predicate Valid()
      reads this
    {
      StacksValid(stacks)
    }

    function State(): Runtime
      reads this
    {
      Runtime(start, functions, stacks)
    }

    /** The static initial state: no start subroutine, no functions and no
        stacks yet. */
    constructor ()
      ensures Valid() && stacks == map[] && start.None? && functions == map[]
    {
      start := None;
      functions := map[];
      stacks := map[];
    }

    /** `GetCurrentStack`: the stack of the thread's key, created with one
        root frame without variables on first use. */
    method GetCurrentStack(threadname: Option<string>) returns (stack: seq<Frame>)
      requires Valid()
      modifies this
      ensures Valid() && start == old(start) && functions == old(functions)
      ensures var key := ThreadKey(threadname);
        stack == StackOf(old(stacks), key) && stacks == old(stacks)[key := stack]
      ensures |stack| >= 1
    {
      var key := ThreadKey(threadname);
      if key in stacks {
        stack := stacks[key];
      } else {
        stack := [map[]];
        stacks := stacks[key := stack];
      }
    }

    /** The Start event: the subroutine the next definition captures. */
    method SetStart(callback: nat)
      modifies this
      ensures start == Some(callback) && functions == old(functions) && stacks == old(stacks)
    {
      start := Some(callback);
    }

    /** `Function`: an empty name, or no pending start subroutine, stores
        nothing; otherwise the definition is stored under the upper-cased name
        and the start subroutine is used up. */
    method Function(name: Option<string>, parameterdefinitions: Option<string>)
      requires Valid()
      modifies this
      ensures Valid() && stacks == old(stacks)
      ensures var n := Upper(if name.None? then "" else name.value);
        if n == [] || old(start).None? then start == old(start) && functions == old(functions)
        else
          && start.None?
          && var parts := SplitAll(if parameterdefinitions.None? then "" else parameterdefinitions.value, {' ', '\t'});
          && functions == old(functions)[n := FunctionDefinition(old(start).value,
               seq(|parts|, k requires 0 <= k < |parts| => ParseDefinition(parts[k]).0),
               seq(|parts|, k requires 0 <= k < |parts| => ParseDefinition(parts[k]).1))]
    {
      var n := Upper(if name.None? then "" else name.value);
      var pd := if parameterdefinitions.None? then "" else parameterdefinitions.value;
      if |n| <= 0 {
        return;
      }
      if start.None? {
        return;
      }
      var parts := SplitAll(pd, {' ', '\t'});
      var parameternames, defaults := ParseDefinitions(parts);
      assert parameternames == seq(|parts|, k requires 0 <= k < |parts| => ParseDefinition(parts[k]).0);
      assert defaults == seq(|parts|, k requires 0 <= k < |parts| => ParseDefinition(parts[k]).1);
      functions := functions[n := FunctionDefinition(start.value, parameternames, defaults)];
      start := None;
    }

    /** `Set`: only a variable that the top frame of the thread's stack
        already holds is updated. */
    method Set(threadname: Option<string>, variablename: Option<string>, value: string)
      requires Valid()
      modifies this
      ensures Valid() && start == old(start) && functions == old(functions)
      ensures stacks == Assigned(old(stacks), ThreadKey(threadname), Upper(if variablename.None? then "" else variablename.value), value)
    {
      var vn := Upper(if variablename.None? then "" else variablename.value);
      ghost var before := stacks;
      var stack := GetCurrentStack(threadname);
      var key := ThreadKey(threadname);
      var sf := stack[|stack| - 1];
      if vn in sf {
        stacks := stacks[key := stack[|stack| - 1 := sf[vn := value]]];
      } else {
        assert stack[|stack| - 1 := sf] == stack;
      }
      assert stacks == Assigned(before, key, vn, value);
    }

    /** `Get`: the value of the top frame's variable, or "". (Get also
        creates a missing stack, which holds only an empty root frame and so
        reads as "" either way.) */
    function Get(threadname: Option<string>, variablename: Option<string>): (r: string)
      requires Valid()
      reads this
      ensures var vn := Upper(if variablename.None? then "" else variablename.value);
        var s := StackOf(stacks, ThreadKey(threadname));
        (vn in s[|s| - 1] ==> r == s[|s| - 1][vn])
        && (vn !in s[|s| - 1] ==> r == "")
    {
      var vn := Upper(if variablename.None? then "" else variablename.value);
      var stack := StackOf(stacks, ThreadKey(threadname));
      var sf := stack[|stack| - 1];
      if vn in sf then sf[vn] else ""
    }

    /** `Return`: outside a function (a stack of fewer than two frames) it
        does not unwind; otherwise it unwinds with the value, as the source's
        ReturnValue exception does. */
    function Return(threadname: Option<string>, value: string): (unwind: Option<string>)
      requires Valid()
      reads this
      ensures unwind.None? <==> |StackOf(stacks, ThreadKey(threadname))| < 2
      ensures unwind.Some? ==> unwind.value == value
    {
      if |StackOf(stacks, ThreadKey(threadname))| < 2 then None else Some(value)
    }

    /** `Call`: an empty or undefined name returns "" and leaves everything
        unchanged. Otherwise a frame for the arguments is pushed on the
        thread's stack and the start subroutine runs: invoke gives the value
        it returned, if it did, and the state it leaves (its Basic code may
        define functions, set a start subroutine, set variables and make
        calls of its own). The frame on top of the thread's stack is then
        removed while more than one frame is left. */
    method Call(threadname: Option<string>, functionname: Option<string>, args: seq<Option<string>>,
                invoke: (nat, Runtime) -> (Option<string>, Runtime)) returns (r: string)
      requires Valid()
      modifies this
      ensures var fn := Upper(if functionname.None? then "" else functionname.value);
        if fn == [] || fn !in old(functions) then
          r == "" && State() == old(State()) && Valid()
        else
          var fd := old(functions)[fn];
          var key := ThreadKey(threadname);
          var frame := FrameOf(fd.parameternames, fd.defaults, args, Min(|fd.parameternames|, |fd.defaults|));
          var outcome := invoke(fd.start, Runtime(old(start), old(functions), old(stacks)[key := StackOf(old(stacks), key) + [frame]]));
          && r == (if outcome.0.Some? then outcome.0.value else "")
          && start == outcome.1.start && functions == outcome.1.functions
          && stacks == Leave(outcome.1.stacks, key)
          && (StacksValid(outcome.1.stacks) ==> Valid())
    {
      var fn := Upper(if functionname.None? then "" else functionname.value);
      if |fn| < 1 {
        return "";
      }
      if fn !in functions {
        return "";
      }
      var fd := functions[fn];
      var stack := GetCurrentStack(threadname);
      var frame := StackFrame(Some(fd.parameternames), Some(fd.defaults), args);
      var key := ThreadKey(threadname);
      stacks := stacks[key := stack + [frame]];
      assert State() == Runtime(old(start), old(functions), old(stacks)[key := StackOf(old(stacks), key) + [frame]]);
      var outcome := invoke(fd.start, State());
      start, functions, stacks := outcome.1.start, outcome.1.functions, Leave(outcome.1.stacks, key);
      r := if outcome.0.Some? then outcome.0.value else "";
    }
  }

  /** Inside a call the arguments are visible: Get in the callee reads an
      argument under its parameter's name when that name is not repeated
      later. */
  lemma ArgumentVisible(fd: FunctionDefinition, args: seq<Option<string>>, k: nat)
    requires k < |fd.parameternames| && k < |fd.defaults| && k < |args| && args[k].Some?
    requires forall j :: k < j < Min(|fd.parameternames|, |fd.defaults|) ==> fd.parameternames[j] != fd.parameternames[k]
    ensures var frame := FrameOf(fd.parameternames, fd.defaults, args, Min(|fd.parameternames|, |fd.defaults|));
      fd.parameternames[k] in frame && frame[fd.parameternames[k]] == args[k].value
  {
    FrameValue(fd.parameternames, fd.defaults, args, Min(|fd.parameternames|, |fd.defaults|), k);
  }
}
