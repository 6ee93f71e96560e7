/** The flag string of the runtime library's Buttons class: which buttons the
    brick reported as clicked, as letters. */
module Buttons {
  import opened Common

  /** The letters in the order CreateFlags looks at the reply slots: up
      (slot 1), enter (2), down (3), left (5), right (4). Slot 0 (any other
      button) is never looked at. */
  const Letters: seq<char> := ['U', 'E', 'D', 'L', 'R']

  /** Whether each button is clicked, in the order of Letters. */
  function Clicked(b: seq<byte>): (f: seq<bool>)
    requires |b| >= 6
    ensures |f| == 5
  {
    [b[1] != 0, b[2] != 0, b[3] != 0, b[5] != 0, b[4] != 0]
  }

  /** `CreateFlags`: "" for a missing reply; otherwise the letters of the
      slots holding a non-zero byte, in the order U, E, D, L, R. The reply of
      the six-byte direct command is indexed up to slot 5. */
  function CreateFlags(response: Option<seq<byte>>): (r: string)
    requires response.Some? ==> |response.value| >= 6
  {
    if response.None? then ""
    else
      var b := response.value;
      (if b[1] != 0 then "U" else "") + (if b[2] != 0 then "E" else "")
      + (if b[3] != 0 then "D" else "") + (if b[5] != 0 then "L" else "")
      + (if b[4] != 0 then "R" else "")
  }

  /** The letters in the result are exactly those whose slot holds a non-zero
      byte, each at most once and in the fixed order, so the result has at
      most five characters. */
  lemma FlagsExact(response: seq<byte>)
    requires |response| >= 6
    ensures var r := CreateFlags(Some(response));
      && |r| <= 5
      && ('U' in r <==> response[1] != 0) && ('E' in r <==> response[2] != 0) && ('D' in r <==> response[3] != 0)
      && ('L' in r <==> response[5] != 0) && ('R' in r <==> response[4] != 0)
      && (forall i, j :: 0 <= i < j < |r| ==> Rank(r[i]) < Rank(r[j]) && r[i] != r[j])
      && (forall i :: 0 <= i < |r| ==> r[i] in Letters)
  {
    var r := CreateFlags(Some(response));
    FlagsPicked(response);
    PickedFacts(Clicked(response), 5);
    assert Letters[0] == 'U' && Letters[1] == 'E' && Letters[2] == 'D' && Letters[3] == 'L' && Letters[4] == 'R';
    forall i | 0 <= i < |r|
      ensures r[i] in Letters
    {
      assert Letters[Rank(r[i])] == r[i];
    }
  }

  /** Slot 0 never matters. */
  lemma OtherButtonIgnored(response: seq<byte>)
    requires |response| >= 6
    ensures CreateFlags(Some(response)) == CreateFlags(Some(response[0 := 0]))
  {
    assert response[0 := 0][1..6] == response[1..6];
  }

  /** The flags string is the letters picked from the clicked buttons. */
  lemma FlagsPicked(b: seq<byte>)
    requires |b| >= 6
    ensures CreateFlags(Some(b)) == Picked(Clicked(b), 5)
  {
    var f := Clicked(b);
    var u := if b[1] != 0 then "U" else "";
    var e := if b[2] != 0 then "E" else "";
    var d := if b[3] != 0 then "D" else "";
    var l := if b[5] != 0 then "L" else "";
    var r := if b[4] != 0 then "R" else "";
    assert Picked(f, 0) == "";
    assert Picked(f, 1) == "" + u;
    assert "" + u == u;
    assert Picked(f, 2) == u + e;
    assert Picked(f, 3) == u + e + d;
    assert Picked(f, 4) == u + e + d + l;
    assert Picked(f, 5) == u + e + d + l + r;
  }

  /** The letters of the slots before k whose flag is set, in order. */
  function Picked(flags: seq<bool>, k: nat): string
    requires |flags| == 5 && k <= 5
  {
    if k == 0 then "" else Picked(flags, k - 1) + (if flags[k - 1] then [Letters[k - 1]] else "")
  }

  /** The position of a letter in Letters, and 5 for any other character. */
  function Rank(c: char): (n: nat)
    ensures n <= 5 && (n < 5 ==> Letters[n] == c)
  {
    if c == 'U' then 0 else if c == 'E' then 1 else if c == 'D' then 2 else if c == 'L' then 3 else if c == 'R' then 4 else 5
  }

  lemma RankOfLetter(j: nat)
    requires j < 5
    ensures Rank(Letters[j]) == j
  {
  }

  /** r lists, in the order of Letters, the letters of the slots before k
      whose flag is set, and no other character. */
  predicate Listed(flags: seq<bool>, k: nat, r: string)
    requires |flags| == 5 && k <= 5
  {
    && |r| <= k
    && (forall i :: 0 <= i < |r| ==> Rank(r[i]) < k)
    && (forall i, j :: 0 <= i < j < |r| ==> Rank(r[i]) < Rank(r[j]))
    && (forall j :: 0 <= j < k ==> (Letters[j] in r <==> flags[j]))
  }

  lemma {:induction false} PickedFacts(flags: seq<bool>, k: nat)
    requires |flags| == 5 && k <= 5
    ensures Listed(flags, k, Picked(flags, k))
  {
    if k > 0 {
      PickedFacts(flags, k - 1);
      PickedStep(flags, k - 1);
    }
  }

  /** The list for the slots before k, followed by the letter of slot k if
      its flag is set. */
  lemma PickedStep(flags: seq<bool>, k: nat)
    requires |flags| == 5 && k < 5 && Listed(flags, k, Picked(flags, k))
    ensures Listed(flags, k + 1, Picked(flags, k + 1))
  {
    var done := Picked(flags, k);
    var tail: string := if flags[k] then [Letters[k]] else [];
    assert Picked(flags, k + 1) == done + tail;
    RankOfLetter(k);
    AppendRanks(done, tail, k);
    AppendMembers(flags, done, tail, k);
  }

  /** Putting a letter of rank k, or nothing, after letters of rank below k
      keeps the ranks increasing and below k + 1. */
  lemma AppendRanks(done: string, tail: string, k: nat)
    requires |tail| <= 1 && (tail != [] ==> Rank(tail[0]) == k) && k < 5
    requires forall i :: 0 <= i < |done| ==> Rank(done[i]) < k
    requires forall i, j :: 0 <= i < j < |done| ==> Rank(done[i]) < Rank(done[j])
    ensures var r := done + tail;
      && (forall i :: 0 <= i < |r| ==> Rank(r[i]) < k + 1)
      && (forall i, j :: 0 <= i < j < |r| ==> Rank(r[i]) < Rank(r[j]))
  {
    var r := done + tail;
    forall i | 0 <= i < |r|
      ensures Rank(r[i]) < k + 1
    {
      if i < |done| {
        assert r[i] == done[i];
      }
    }
    forall i, j | 0 <= i < j < |r|
      ensures Rank(r[i]) < Rank(r[j])
    {
      assert r[i] == done[i];
      if j < |done| {
        assert r[j] == done[j];
      }
    }
  }

  /** The list for the slots before k + 1 holds the letter of a slot exactly
      when its flag is set. */
  lemma AppendMembers(flags: seq<bool>, done: string, tail: string, k: nat)
    requires |flags| == 5 && k < 5 && tail == (if flags[k] then [Letters[k]] else [])
    requires forall i :: 0 <= i < |done| ==> Rank(done[i]) < k
    requires forall j :: 0 <= j < k ==> (Letters[j] in done <==> flags[j])
    ensures forall j :: 0 <= j < k + 1 ==> (Letters[j] in done + tail <==> flags[j])
  {
    forall j | 0 <= j < k + 1
      ensures Letters[j] in done + tail <==> flags[j]
    {
      RankOfLetter(j);
      RankOfLetter(k);
      if Letters[j] in done {
        var i :| 0 <= i < |done| && done[i] == Letters[j];
        assert Rank(done[i]) == j;
      }
    }
  }
}
