/** When a patch of one hunk undoes its diff, for every file and context; and the diff that does not survive. */
module PatchExact {
  import opened Diff
  import opened Patch
  import opened TextLines
  import opened UnifiedDiff
  import opened Wrappers

  // ---- sliding one run of lines across another ------------------------------------------------------

  /** Line `k` of `x` read over and over. */
  ghost function Around(x: seq<string>, k: nat): string
    requires x != []
  {
    if k < |x| then x[k] else Around(x, k - |x|)
  }

  /** `s` runs on with `x`, over and over. */
  ghost predicate Repeats(x: seq<string>, s: seq<string>)
    requires x != []
  {
    forall i :: 0 <= i < |s| ==> s[i] == Around(x, i)
  }

  /** `x` read round and round from line `m` on. */
  ghost function Turned(x: seq<string>, m: nat): (turned: seq<string>)
    requires x != []
    ensures |turned| == |x|
  {
    seq(|x|, i requires 0 <= i => Around(x, m + i))
  }

  /** When `x` slides across `s`, `s` runs on with `x`. */
  lemma {:induction false} SlidesRepeats(x: seq<string>, s: seq<string>, y: seq<string>, i: nat)
    requires x != [] && x + s == s + y && i < |s|
    ensures s[i] == Around(x, i)
    decreases i
  {
    assert s[i] == (s + y)[i] == (x + s)[i];
    if i >= |x| {
      SlidesRepeats(x, s, y, i - |x|);
    }
  }

  lemma {:induction false} SlidesTurned(x: seq<string>, s: seq<string>, y: seq<string>, i: nat)
    requires x != [] && |y| == |x| && x + s == s + y && i < |x|
    ensures y[i] == Around(x, |s| + i)
  {
    assert y[i] == (s + y)[|s| + i] == (x + s)[|s| + i];
    if |s| + i >= |x| {
      SlidesRepeats(x, s, y, |s| + i - |x|);
    }
  }

  lemma {:induction false} RunsSlide(x: seq<string>, s: seq<string>, k: nat)
    requires x != [] && Repeats(x, s) && k < |x| + |s|
    ensures (x + s)[k] == Around(x, k) == (s + Turned(x, |s|))[k]
  {
    if k >= |x| {
      assert (x + s)[k] == s[k - |x|];
    }
  }

  /**
    Lines `x` slide across `s` to come out as `y` exactly when `s` runs on with them and
    `y` goes on from where it stops.
   */
  lemma {:induction false} SlidesIff(x: seq<string>, s: seq<string>, y: seq<string>)
    requires x != [] && |y| == |x|
    ensures x + s == s + y <==> Repeats(x, s) && y == Turned(x, |s|)
  {
    hide Around;
    if x + s == s + y {
      forall i | 0 <= i < |s|
        ensures s[i] == Around(x, i)
      {
        SlidesRepeats(x, s, y, i);
      }
      forall i | 0 <= i < |x|
        ensures y[i] == Turned(x, |s|)[i]
      {
        SlidesTurned(x, s, y, i);
      }
    }
    if Repeats(x, s) && y == Turned(x, |s|) {
      forall k | 0 <= k < |x| + |s|
        ensures (x + s)[k] == (s + y)[k]
      {
        RunsSlide(x, s, k);
      }
    }
  }

  lemma {:induction false} Cancel(u: seq<string>, s: seq<string>, t: seq<string>, v: seq<string>)
    requires |s| == |t|
    ensures u + s + v == u + t + v <==> s == t
  {
    assert (u + s + v)[|u|..|u| + |s|] == s && (u + t + v)[|u|..|u| + |t|] == t;
  }

  // ---- one hunk ------------------------------------------------------------------------------------------

  /** Only the changes of this window are not unchanged lines. */
  ghost predicate Only(changes: seq<Change>, w: Window) {
    w.0 <= w.1 <= |changes| && AllSame(changes, 0, w.0) && AllSame(changes, w.1, |changes|)
  }

  /** The lines between the first copy of the hunk's old side and its own place. */
  ghost function Skipped(changes: seq<Change>, w: Window): seq<string>
    requires w.0 <= w.1 <= |changes|
  {
    var home := |New(changes[..w.0])|;
    var first := FindSlice(Old(changes), Old(changes[w.0..w.1]));
    if first.Some? && first.value <= home <= |Old(changes)| then Old(changes)[first.value..home] else []
  }

  /**
    The hunk gives the new text: it is found at its own place, or the new side
    runs on with the lines that were skipped, stopping where the old side does.
    A hunk with no old lines has the rest of the file as the lines it skips.
   */
  ghost predicate LandsWell(changes: seq<Change>, w: Window)
    requires w.0 <= w.1 <= |changes|
  {
    var removals, news := Old(changes[w.0..w.1]), New(changes[w.0..w.1]);
    var skipped := if removals == [] then Old(changes[w.1..]) else Skipped(changes, w);
    skipped == [] || (Repeats(skipped, news) && Turned(skipped, |removals|) == Turned(skipped, |news|))
  }

  /** The parts of the old text around a lone hunk. */
  lemma {:induction false} Parts(changes: seq<Change>, w: Window) returns (front: seq<string>, rest: seq<string>)
    requires Only(changes, w)
    ensures front == New(changes[..w.0]) && rest == Old(changes[w.1..])
    ensures Old(changes) == front + Old(changes[w.0..w.1]) + rest
            && New(changes) == front + New(changes[w.0..w.1]) + rest
  {
    front, rest := New(changes[..w.0]), Old(changes[w.1..]);
    assert changes[0..] == changes && changes[..|changes|] == changes && changes[..0] == []
      && changes[|changes|..] == [];
    UnchangedBetween(changes, 0, w.0);
    SplitSides(changes, w.0, w.1);
    assert Old(changes) == BufferAt(changes, 0) == BufferAt(changes, w.0);
    UnchangedBetween(changes, w.1, |changes|);
    SplitSides(changes, w.0, w.1);
    assert New(changes) == BufferAt(changes, |changes|) == BufferAt(changes, w.1);
  }

  lemma {:induction false} AppendIff(front: seq<string>, news: seq<string>, rest: seq<string>)
    ensures front + rest + news == front + news + rest
            <==> rest == [] || (Repeats(rest, news) && Turned(rest, 0) == Turned(rest, |news|))
  {
    assert front + rest + news == front + (rest + news) + [] && front + news + rest == front + (news + rest) + [];
    Cancel(front, rest + news, news + rest, []);
    if rest == [] {
      assert rest + news == news + rest;
    } else {
      SlidesIff(rest, news, rest);
      assert Turned(rest, 0) == rest;
    }
  }

  /** An insertion with no old lines goes to the end: right exactly when the rest of the file slides across it. */
  lemma {:induction false} InsertionIff(changes: seq<Change>, w: Window)
    requires Only(changes, w) && Old(changes[w.0..w.1]) == []
    ensures Old(changes) + New(changes[w.0..w.1]) == New(changes) <==> LandsWell(changes, w)
  {
    hide Old, New, Repeats, Turned, AllSame;
    var news := New(changes[w.0..w.1]);
    var front, rest := Parts(changes, w);
    assert Old(changes) == front + rest;
    AppendIff(front, news, rest);
  }

  /** What is taken out and what is put in when the old side is found early. */
  lemma {:induction false} EarlyLanding(
    front: seq<string>, removals: seq<string>, news: seq<string>, rest: seq<string>, at: nat)
    requires at < |front| && OccursAt(front + removals + rest, removals, at)
    ensures var buffer, skipped := front + removals + rest, front[at..];
            buffer[..at] + news + buffer[at + |removals|..] == front + news + rest
            <==> Repeats(skipped, news) && Turned(skipped, |removals|) == Turned(skipped, |news|)
  {
    hide Repeats, Turned;
    var buffer, skipped := front + removals + rest, front[at..];
    var both := front + removals;
    var left := both[at + |removals|..];
    assert buffer == both + rest && both[at..] == skipped + removals;
    assert buffer[at..at + |removals|] == both[at..at + |removals|] == removals;
    assert both[at..] == removals + left;
    assert buffer[at + |removals|..] == left + rest;
    SlidesIff(skipped, removals, left);
    SlidesIff(skipped, news, left);
    assert buffer[..at] + news + buffer[at + |removals|..] == front[..at] + (news + left) + rest;
    assert front + news + rest == front[..at] + (skipped + news) + rest by { assert front == front[..at] + skipped; }
    Cancel(front[..at], news + left, skipped + news, rest);
  }

  lemma {:induction false} FoundEarly(front: seq<string>, removals: seq<string>, rest: seq<string>) returns (at: nat)
    requires removals != []
    ensures FindSlice(front + removals + rest, removals) == Some(at) && at <= |front|
            && OccursAt(front + removals + rest, removals, at)
  {
    assert OccursAt(front + removals + rest, removals, |front|);
    at := FindSlice(front + removals + rest, removals).value;
  }

  /** Whether one hunk turns the old text into the new one, decided from the lines around it. */
  lemma {:induction false} OneHunkIff(changes: seq<Change>, w: Window)
    requires Only(changes, w)
    ensures var slice := changes[w.0..w.1];
            ApplyHunk(Old(changes), Sides(Old(slice), New(slice))) == Some(New(changes)) <==> LandsWell(changes, w)
  {
    hide Old, New, Repeats, Turned, FindSlice, OccursAt, AllSame;
    var removals, news := Old(changes[w.0..w.1]), New(changes[w.0..w.1]);
    if removals == [] {
      InsertionIff(changes, w);
    } else {
      var front, rest := Parts(changes, w);
      var buffer := Old(changes);
      var at := FoundEarly(front, removals, rest);
      if at < |front| {
        EarlyLanding(front, removals, news, rest, at);
        assert Skipped(changes, w) == buffer[at..|front|] == front[at..];
      } else {
        assert Skipped(changes, w) == buffer[at..at] == [];
        assert buffer[..at] == front && buffer[at + |removals|..] == rest;
      }
    }
  }

  // ---- the patch of one hunk --------------------------------------------------------------------------------

  lemma {:induction false} OneWindow(changes: seq<Change>, context: nat, w: Window)
    requires HunksOf(changes, context, [w])
    ensures Only(changes, w)
  {
    hide Inside;
    assert [w][0] == w;
    forall p | 0 <= p < |changes| && (p < w.0 || w.1 <= p)
      ensures changes[p].Same?
    {
      InsideOne(w, p);
      OutsideIsSame(changes, context, [w], p);
    }
  }

  lemma {:induction false} InsideOne(w: Window, p: int)
    ensures Inside([w], p) <==> w.0 <= p < w.1
  {
    assert [w][0] == w;
  }

  lemma {:induction false} OneHunkApplies(changes: seq<Change>, w: Window, lines: seq<string>)
    requires w.0 <= w.1 <= |changes|
    ensures var slice := changes[w.0..w.1];
            ApplyLines(lines, HunkLines(changes, [w]), 0)
            == match ApplyHunk(lines, Sides(Old(slice), New(slice)))
               case None => Err(HunkMismatch(1))
               case Some(next) => Ok(next)
  {
    hide ApplyHunk, Old, New;
    HunkReads(changes, [w]);
    assert [w][1..] == [];
    assert HunkLines(changes, []) == [];
  }

  /**
    A diff of one hunk, applied to the text it was made from, gives the text it
    was made for exactly when the hunk lands well.
   */
  lemma {:induction false} OneHunkUndoesDiffIff(changes: seq<Change>, context: nat, w: Window)
    requires HunksOf(changes, context, [w])
    ensures ApplyLines(Old(changes), HunkLines(changes, [w]), 0) == Ok(New(changes)) <==> LandsWell(changes, w)
  {
    hide Old, New, ApplyHunk, ApplyLines, HunkLines;
    OneWindow(changes, context, w);
    OneHunkIff(changes, w);
    OneHunkApplies(changes, w, Old(changes));
  }

  lemma {:induction false} LinesAround(a: seq<string>, s: seq<string>, b: seq<string>)
    requires AllLines(a + s + b)
    ensures AllLines(a) && AllLines(s) && AllLines(b)
  {
    forall k | 0 <= k < |s|
      ensures NoNewline(s[k])
    {
      assert s[k] == (a + s + b)[|a| + k];
    }
    forall k | 0 <= k < |a|
      ensures NoNewline(a[k])
    {
      assert a[k] == (a + s + b)[k];
    }
    forall k | 0 <= k < |b|
      ensures NoNewline(b[k])
    {
      assert b[k] == (a + s + b)[|a| + |s| + k];
    }
  }

  /** One hunk always finds its lines somewhere, and what it makes of them are lines. */
  lemma {:induction false} OneHunkGivesLines(changes: seq<Change>, context: nat, w: Window)
    requires HunksOf(changes, context, [w]) && AllLines(Old(changes)) && AllLines(New(changes))
    ensures var r := ApplyLines(Old(changes), HunkLines(changes, [w]), 0);
            r.Ok? && AllLines(r.value)
  {
    hide Old, New, ApplyLines, HunkLines, HunksOf, FindSlice, OccursAt, AllSame, NoNewline;
    OneWindow(changes, context, w);
    var front, rest := Parts(changes, w);
    var removals, news := Old(changes[w.0..w.1]), New(changes[w.0..w.1]);
    OneHunkApplies(changes, w, Old(changes));
    LinesAround(front, news, rest);
    if removals != [] {
      var at := FoundEarly(front, removals, rest);
    }
  }

  lemma {:induction false} SameText(a: seq<string>, b: seq<string>)
    requires AllLines(a) && AllLines(b)
    ensures FromLines(a) == FromLines(b) <==> a == b
  {
    LinesRoundTrip(a);
    LinesRoundTrip(b);
  }

  /** What the patch makes of the text, with each line ended again. */
  function Patched(r: Result<seq<string>, PatchError>): Result<string, PatchError> {
    match r
    case Ok(lines) => Ok(FromLines(lines))
    case Err(error) => Err(error)
  }

  /** A text differs from itself in nothing. */
  lemma {:induction false} ScriptOfSame(a: seq<string>, i: nat)
    requires i <= |a|
    ensures forall k :: 0 <= k < |Script(a, a, i, i)| ==> Script(a, a, i, i)[k].Same?
    decreases |a| - i
  {
    if i < |a| {
      ScriptOfSame(a, i + 1);
      var rest := Script(a, a, i + 1, i + 1);
      assert Script(a, a, i, i) == [Same(a[i])] + rest;
    }
  }

  lemma {:induction false} NothingToShow(changes: seq<Change>, context: nat, hunks: seq<Window>)
    requires HunksOf(changes, context, hunks) && forall k :: 0 <= k < |changes| ==> changes[k].Same?
    ensures hunks == []
  {
    if hunks != [] {
      assert hunks[0].0 < hunks[0].1 <= |changes|;
      assert Inside(hunks, hunks[0].0);
    }
  }

  /**
    Diff, print and apply: the round trip through the text. It gives the new
    text when every hunk is found at its own place, so whenever the context
    covers the file; and for a diff of one hunk exactly when that lands well.
    Of texts with the same lines the diff is empty, and no patch.
   */
  method DiffThenPatch(before: string, after: string, from: string, upTo: string, context: nat)
    returns (patched: Result<string, PatchError>, ghost changes: seq<Change>, ghost hunks: seq<Window>)
    requires NoNewline(from) && NoNewline(upTo)
    ensures changes == Script(ToLines(before), ToLines(after), 0, 0)
    ensures IsMinimal(changes, ToLines(before), ToLines(after)) && HunksOf(changes, context, hunks)
    ensures patched == Patched(ApplyLines(ToLines(before), HunkLines(changes, hunks), 0))
    ensures ToLines(before) == ToLines(after) ==> hunks == [] && patched == Err(NoHunks)
    ensures ToLines(before) != ToLines(after) && (forall h :: 0 <= h < |hunks| ==> LandsHome(changes, hunks[h]))
            ==> patched == Ok(FromLines(ToLines(after)))
    ensures ToLines(before) != ToLines(after) && context >= |ToLines(before)| + |ToLines(after)|
            ==> patched == Ok(FromLines(ToLines(after)))
    ensures |hunks| == 1 ==> (patched == Ok(FromLines(ToLines(after))) <==> LandsWell(changes, hunks[0]))
  {
    hide Script, HunksOf, LandsHome, LandsWell, ApplyLines, IsMinimal, HunkLines, Old, New;
    var script := DiffLines(ToLines(before), ToLines(after));
    changes := script;
    Spelled(changes, ToLines(before), ToLines(after));
    var text;
    text, hunks := Unified(script, from, upTo, context);
    patched := ApplyPatch(before, text);
    if ToLines(before) == ToLines(after) {
      ScriptOfSame(ToLines(before), 0);
      NothingToShow(changes, context, hunks);
      EmptyPatch(ToLines(before), changes);
    } else {
      SomethingChanged(changes);
      TextIsPatch(changes, context, hunks, from, upTo);
      ScriptLength(changes);
      if context >= |changes| {
        WholeFileLandsHome(changes, context, hunks);
      }
      if forall h :: 0 <= h < |hunks| ==> LandsHome(changes, hunks[h]) {
        AllHunksApply(changes, context, hunks);
      }
      if |hunks| == 1 {
        assert hunks == [hunks[0]];
        OneHunkUndoesDiffIff(changes, context, hunks[0]);
        OneHunkGivesLines(changes, context, hunks[0]);
        SameText(ApplyLines(ToLines(before), HunkLines(changes, hunks), 0).value, ToLines(after));
      }
    }
  }

  lemma {:induction false} EmptyPatch(lines: seq<string>, changes: seq<Change>)
    ensures ApplyLines(lines, ToLines(""), 0) == Err(NoHunks) && HunkLines(changes, []) == [] && ToLines("") == []
  {
    LinesRoundTrip([]);
  }

  lemma {:induction false} Spelled(changes: seq<Change>, a: seq<string>, b: seq<string>)
    requires IsMinimal(changes, a, b)
    ensures Old(changes) == a && New(changes) == b
  {
  }

  /** The names at the head of a patch are passed over, and its text splits into the lines it was made of. */
  lemma {:induction false} TextIsPatch(
    changes: seq<Change>, context: nat, hunks: seq<Window>, from: string, upTo: string)
    requires AllLines(Old(changes)) && AllLines(New(changes)) && HunksOf(changes, context, hunks)
    requires NoNewline(from) && NoNewline(upTo)
    ensures forall h :: 0 <= h < |hunks| ==> hunks[h].0 <= hunks[h].1 <= |changes|
    ensures ApplyLines(Old(changes), ToLines(PatchText(changes, hunks, from, upTo)), 0)
            == ApplyLines(Old(changes), HunkLines(changes, hunks), 0)
  {
    hide ApplyLines;
    forall k | 0 <= k < |changes|
      ensures NoNewline(changes[k].line)
    {
      ChangesAreLines(changes, k);
    }
    HunkLinesAreLines(changes, hunks);
    NamesAreSkipped(Old(changes), from, upTo, HunkLines(changes, hunks));
  }

  // ---- a diff that its patch does not undo -------------------------------------------------------------------

  lemma {:induction false} EarlierCopyScript(x: string, y: string, z: string)
    requires x != y && x != z && y != z
    ensures Script([x, y, x], [x, y, z], 0, 0) == [Same(x), Same(y), Removed(x), Added(z)]
  {
    var a, b := [x, y, x], [x, y, z];
    assert Script(a, b, 3, 3) == [];
    assert Script(a, b, 3, 2) == [Added(z)];
    assert Lcs(a, b, 3, 2) == 0 && Lcs(a, b, 2, 3) == 0;
    assert Script(a, b, 2, 2) == [Removed(x), Added(z)];
    assert Script(a, b, 1, 1) == [Same(y), Removed(x), Added(z)];
  }

  lemma {:induction false} EarlierCopyWindow(x: string, y: string, z: string, hunks: seq<Window>)
    requires HunksOf([Same(x), Same(y), Removed(x), Added(z)], 0, hunks)
    ensures hunks == [(2, 4)]
  {
    var changes, lone := [Same(x), Same(y), Removed(x), Added(z)], [(2, 4)];
    forall p | 0 <= p < 4
      ensures Inside(hunks, p) <==> Inside(lone, p)
    {
      assert Inside(lone, p) <==> lone[0].0 <= p < lone[0].1;
      assert changes[0].Same? && changes[1].Same? && !changes[2].Same? && !changes[3].Same?;
      assert p >= 2 ==> p - 0 <= p <= p + 0;
    }
    WindowsAreUnique(hunks, lone, 4);
  }

  /** Without context the hunk that replaces the second `x` is found at the first. */
  lemma {:induction false} EarlierCopyIsTaken(x: string, y: string, z: string)
    requires x != y && x != z
    ensures var changes := [Same(x), Same(y), Removed(x), Added(z)];
            ApplyLines([x, y, x], HunkLines(changes, [(2, 4)]), 0) == Ok([z, y, x])
  {
    var changes := [Same(x), Same(y), Removed(x), Added(z)];
    var slice := changes[2..4];
    assert slice == [Removed(x), Added(z)] && slice[1..] == [Added(z)] && slice[1..][1..] == [];
    assert Old([Added(z)]) == [] && New([Added(z)]) == [z] by { assert [Added(z)][1..] == []; }
    assert Old(slice) == [x] + Old([Added(z)]) == [x] && New(slice) == [] + New([Added(z)]) == [z];
    var buffer := [x, y, x];
    assert buffer[0..1] == [x] && OccursAt(buffer, [x], 0);
    assert FindSlice(buffer, [x]) == Some(0);
    assert buffer[..0] + [z] + buffer[0 + 1..] == [z, y, x];
    OneHunkApplies(changes, (2, 4), buffer);
  }

  /** The diff and patch builtins on such a file: the wrong line is replaced, and no error is given. */
  method WrongLineReplaced(
    x: string, y: string, z: string, from: string, upTo: string) returns (patched: Result<string, PatchError>)
    requires x != y && x != z && y != z && AllLines([x, y, z]) && NoNewline(from) && NoNewline(upTo)
    ensures patched == Ok(FromLines([z, y, x])) && patched != Ok(FromLines([x, y, z]))
  {
    hide Script, HunksOf, LandsHome, LandsWell, ApplyLines, IsMinimal, HunkLines, ToLines, FromLines;
    var a, b := [x, y, x], [x, y, z];
    assert AllLines(a) && AllLines(b) && AllLines([z, y, x]) by {
      assert NoNewline([x, y, z][0]) && NoNewline([x, y, z][1]) && NoNewline([x, y, z][2]);
    }
    LinesRoundTrip(a);
    LinesRoundTrip(b);
    assert a[2] != b[2];
    ghost var changes, hunks;
    patched, changes, hunks := DiffThenPatch(FromLines(a), FromLines(b), from, upTo, 0);
    EarlierCopyScript(x, y, z);
    EarlierCopyWindow(x, y, z, hunks);
    EarlierCopyIsTaken(x, y, z);
    SameText([z, y, x], b);
    assert [z, y, x][0] != b[0];
  }
}
