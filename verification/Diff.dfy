/** A line diff by longest common subsequence, and why no edit script is shorter. */
module Diff {
  datatype Change = Same(line: string) | Added(line: string) | Removed(line: string)

  /** The lines a script starts from. */
  function Old(script: seq<Change>): seq<string> {
    if script == [] then []
    else (if script[0].Added? then [] else [script[0].line]) + Old(script[1..])
  }

  /** The lines a script ends with. */
  function New(script: seq<Change>): seq<string> {
    if script == [] then []
    else (if script[0].Removed? then [] else [script[0].line]) + New(script[1..])
  }

  function SameCount(script: seq<Change>): nat {
    if script == [] then 0 else (if script[0].Same? then 1 else 0) + SameCount(script[1..])
  }

  lemma {:induction false} Associates(a: seq<string>, b: seq<string>, c: seq<string>)
    ensures a + (b + c) == (a + b) + c
  {
  }

  lemma {:induction false} OldStep(s: seq<Change>, t: seq<Change>)
    requires s != []
    ensures var head := if s[0].Added? then [] else [s[0].line];
            Old(s + t) == head + Old(s[1..] + t) && Old(s) == head + Old(s[1..])
  {
    assert (s + t)[0] == s[0] && (s + t)[1..] == s[1..] + t;
  }

  lemma {:induction false} OldConcat(s: seq<Change>, t: seq<Change>)
    ensures Old(s + t) == Old(s) + Old(t)
  {
    hide *;
    OldNone();
    if s == [] {
      assert s + t == t && [] + Old(t) == Old(t);
    } else {
      OldStep(s, t);
      OldConcat(s[1..], t);
      Associates(if s[0].Added? then [] else [s[0].line], Old(s[1..]), Old(t));
    }
  }

  lemma {:induction false} OldNone()
    ensures Old([]) == []
  {
  }

  lemma {:induction false} NewStep(s: seq<Change>, t: seq<Change>)
    requires s != []
    ensures var head := if s[0].Removed? then [] else [s[0].line];
            New(s + t) == head + New(s[1..] + t) && New(s) == head + New(s[1..])
  {
    assert (s + t)[0] == s[0] && (s + t)[1..] == s[1..] + t;
  }

  lemma {:induction false} NewConcat(s: seq<Change>, t: seq<Change>)
    ensures New(s + t) == New(s) + New(t)
  {
    hide *;
    NewNone();
    if s == [] {
      assert s + t == t && [] + New(t) == New(t);
    } else {
      NewStep(s, t);
      NewConcat(s[1..], t);
      Associates(if s[0].Removed? then [] else [s[0].line], New(s[1..]), New(t));
    }
  }

  lemma {:induction false} NewNone()
    ensures New([]) == []
  {
  }

  lemma {:induction false} SameConcat(s: seq<Change>, t: seq<Change>)
    ensures SameCount(s + t) == SameCount(s) + SameCount(t)
  {
    if s == [] {
      assert s + t == t;
    } else {
      SameConcat(s[1..], t);
      assert (s + t)[1..] == s[1..] + t;
    }
  }

  /** Every line of either side is one change, and every `Same` serves both. */
  lemma {:induction false} ScriptLength(s: seq<Change>)
    ensures |s| + SameCount(s) == |Old(s)| + |New(s)|
  {
    if s != [] {
      ScriptLength(s[1..]);
    }
  }

  function Max(x: nat, y: nat): nat {
    if x >= y then x else y
  }

  /** The table's recurrence over the suffixes from `i` and `j`. */
  function Lcs(a: seq<string>, b: seq<string>, i: nat, j: nat): nat
    requires i <= |a| && j <= |b|
    decreases |a| - i + |b| - j
  {
    if i == |a| || j == |b| then 0
    else if a[i] == b[j] then 1 + Lcs(a, b, i + 1, j + 1)
    else Max(Lcs(a, b, i + 1, j), Lcs(a, b, i, j + 1))
  }

  /** One line more on either side adds at most one to the length, and never lowers it. */
  lemma {:induction false} LcsGrows(a: seq<string>, b: seq<string>, i: nat, j: nat)
    requires i <= |a| && j <= |b|
    ensures i < |a| ==> Lcs(a, b, i + 1, j) <= Lcs(a, b, i, j) <= Lcs(a, b, i + 1, j) + 1
    ensures j < |b| ==> Lcs(a, b, i, j + 1) <= Lcs(a, b, i, j) <= Lcs(a, b, i, j + 1) + 1
    decreases |a| - i + |b| - j
  {
    if i < |a| && j < |b| {
      LcsGrows(a, b, i + 1, j);
      LcsGrows(a, b, i, j + 1);
    }
  }

  /** No script between two texts keeps more lines than the table says. */
  lemma {:induction false} LcsBounds(a: seq<string>, b: seq<string>, i: nat, j: nat, script: seq<Change>)
    requires i <= |a| && j <= |b| && Old(script) == a[i..] && New(script) == b[j..]
    ensures SameCount(script) <= Lcs(a, b, i, j)
    decreases |script|
  {
    if script != [] {
      var rest := script[1..];
      LcsGrows(a, b, i, j);
      match script[0]
      case Same(line) =>
        assert a[i] == line && b[j] == line;
        assert Old(rest) == Old(script)[1..] == a[i + 1..] && New(rest) == New(script)[1..] == b[j + 1..];
        LcsBounds(a, b, i + 1, j + 1, rest);
      case Removed(line) =>
        assert Old(rest) == Old(script)[1..] == a[i + 1..];
        LcsBounds(a, b, i + 1, j, rest);
      case Added(line) =>
        assert New(rest) == New(script)[1..] == b[j + 1..];
        LcsBounds(a, b, i, j + 1, rest);
    }
  }

  /** `changes` turns `a` into `b`, and no script that does has fewer additions and removals. */
  ghost predicate IsMinimal(changes: seq<Change>, a: seq<string>, b: seq<string>) {
    && Old(changes) == a && New(changes) == b
    && forall other: seq<Change> :: Old(other) == a && New(other) == b ==>
                                      SameCount(other) <= SameCount(changes)
                                        && |changes| - SameCount(changes) <= |other| - SameCount(other)
  }

  lemma {:induction false} LongestIsMinimal(changes: seq<Change>, a: seq<string>, b: seq<string>)
    requires Old(changes) == a && New(changes) == b && SameCount(changes) == Lcs(a, b, 0, 0)
    ensures IsMinimal(changes, a, b)
  {
    forall other: seq<Change> | Old(other) == a && New(other) == b
      ensures SameCount(other) <= SameCount(changes) && |changes| - SameCount(changes) <= |other| - SameCount(other)
    {
      LcsBounds(a, b, 0, 0, other);
      ScriptLength(other);
      ScriptLength(changes);
    }
  }

  ghost predicate IsTable(lengths: array2<nat>, a: seq<string>, b: seq<string>)
    reads lengths
  {
    && lengths.Length0 == |a| + 1 && lengths.Length1 == |b| + 1
    && forall r, c :: 0 <= r <= |a| && 0 <= c <= |b| ==> lengths[r, c] == Lcs(a, b, r, c)
  }

  method FillTable(a: seq<string>, b: seq<string>) returns (lengths: array2<nat>)
    ensures IsTable(lengths, a, b) && fresh(lengths)
  {
    lengths := new nat[|a| + 1, |b| + 1]((_, _) => 0);
    for i := |a| downto 0
      invariant forall r, c :: 0 <= r <= |a| && 0 <= c <= |b| ==> lengths[r, c] == if r >= i then Lcs(a, b, r, c) else 0
    {
      for j := |b| downto 0
        invariant forall r, c :: 0 <= r <= |a| && 0 <= c <= |b| ==>
                                   lengths[r, c] == if r > i || (r == i && c >= j) then Lcs(a, b, r, c) else 0
      {
        lengths[i, j] :=
          if a[i] == b[j] then lengths[i + 1, j + 1] + 1
          else Max(lengths[i + 1, j], lengths[i, j + 1]);
      }
    }
  }

  /**
    The walk through the table from `i` and `j`: a line both sides have is kept, else
    the side with the longer rest moves on.
   */
  function Script(a: seq<string>, b: seq<string>, i: nat, j: nat): (script: seq<Change>)
    requires i <= |a| && j <= |b|
    decreases |a| - i + |b| - j
  {
    if i == |a| && j == |b| then []
    else if i < |a| && j < |b| && a[i] == b[j] then [Same(a[i])] + Script(a, b, i + 1, j + 1)
    else if i < |a| && (j == |b| || Lcs(a, b, i + 1, j) >= Lcs(a, b, i, j + 1))
         then [Removed(a[i])] + Script(a, b, i + 1, j)
    else [Added(b[j])] + Script(a, b, i, j + 1)
  }

  /** The walk spells both sides and keeps every line the table promises. */
  lemma {:induction false} ScriptSpells(a: seq<string>, b: seq<string>, i: nat, j: nat)
    requires i <= |a| && j <= |b|
    ensures var script := Script(a, b, i, j);
            Old(script) == a[i..] && New(script) == b[j..] && SameCount(script) == Lcs(a, b, i, j)
    decreases |a| - i + |b| - j
  {
    hide Script;
    NothingToWalk(a, b);
    if i < |a| || j < |b| {
      var change, k, m := FirstChange(a, b, i, j);
      ScriptSpells(a, b, k, m);
      assert i < |a| ==> a[i..] == [a[i]] + a[i + 1..];
      assert j < |b| ==> b[j..] == [b[j]] + b[j + 1..];
    }
  }

  lemma {:induction false} NothingToWalk(a: seq<string>, b: seq<string>)
    ensures Script(a, b, |a|, |b|) == []
  {
  }

  /** The first change of a walk, and where it goes on. */
  lemma {:induction false} FirstChange(
    a: seq<string>, b: seq<string>, i: nat, j: nat) returns (change: Change, k: nat, m: nat)
    requires i <= |a| && j <= |b| && (i < |a| || j < |b|)
    ensures i <= k <= |a| && j <= m <= |b| && Script(a, b, i, j) != []
    ensures Script(a, b, i, j)[0] == change && Script(a, b, i, j)[1..] == Script(a, b, k, m)
    ensures match change
            case Same(line) => i < |a| && j < |b| && line == a[i] == b[j] && k == i + 1 && m == j + 1
            case Removed(line) => i < |a| && line == a[i] && k == i + 1 && m == j && Lcs(a, b, i, j) == Lcs(a, b, k, m)
            case Added(line) => j < |b| && line == b[j] && k == i && m == j + 1 && Lcs(a, b, i, j) == Lcs(a, b, k, m)
  {
    change := Script(a, b, i, j)[0];
    k, m := if change.Added? then i else i + 1, if change.Removed? then j else j + 1;
  }

  /** The walk so far, and what it still has to add. */
  ghost predicate Walked(changes: seq<Change>, a: seq<string>, b: seq<string>, i: nat, j: nat) {
    i <= |a| && j <= |b| && changes + Script(a, b, i, j) == Script(a, b, 0, 0)
  }

  lemma {:induction false} WalkStep(
    changes: seq<Change>, a: seq<string>, b: seq<string>, i: nat, j: nat, change: Change)
    requires Walked(changes, a, b, i, j) && (i < |a| || j < |b|) && Script(a, b, i, j)[0] == change
    ensures Walked(changes + [change], a, b, if change.Added? then i else i + 1, if change.Removed? then j else j + 1)
  {
    var rest := Script(a, b, if change.Added? then i else i + 1, if change.Removed? then j else j + 1);
    assert Script(a, b, i, j) == [change] + rest;
    assert changes + ([change] + rest) == (changes + [change]) + rest;
  }

  method DiffLines(a: seq<string>, b: seq<string>) returns (changes: seq<Change>)
    ensures changes == Script(a, b, 0, 0) && IsMinimal(changes, a, b)
    ensures SameCount(changes) == Lcs(a, b, 0, 0)
  {
    hide Lcs, IsMinimal;
    var lengths := FillTable(a, b);
    changes := [];
    var i: nat, j: nat := 0, 0;
    while i < |a| && j < |b|
      invariant Walked(changes, a, b, i, j) && IsTable(lengths, a, b)
      decreases |a| - i + |b| - j
    {
      if a[i] == b[j] {
        WalkStep(changes, a, b, i, j, Same(a[i]));
        changes, i, j := changes + [Same(a[i])], i + 1, j + 1;
      } else if lengths[i + 1, j] >= lengths[i, j + 1] {
        WalkStep(changes, a, b, i, j, Removed(a[i]));
        changes, i := changes + [Removed(a[i])], i + 1;
      } else {
        WalkStep(changes, a, b, i, j, Added(b[j]));
        changes, j := changes + [Added(b[j])], j + 1;
      }
    }
    while i < |a|
      invariant Walked(changes, a, b, i, j) && (i < |a| ==> j == |b|)
    {
      WalkStep(changes, a, b, i, j, Removed(a[i]));
      changes, i := changes + [Removed(a[i])], i + 1;
    }
    while j < |b|
      invariant Walked(changes, a, b, i, j) && i == |a|
    {
      WalkStep(changes, a, b, i, j, Added(b[j]));
      changes, j := changes + [Added(b[j])], j + 1;
    }
    assert changes + [] == changes;
    ScriptSpells(a, b, 0, 0);
    assert a[0..] == a && b[0..] == b;
    LongestIsMinimal(changes, a, b);
  }
}
