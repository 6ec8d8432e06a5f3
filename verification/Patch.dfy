/** Applying a unified diff by content, and when that undoes the diff. */
module Patch {
  import opened Diff
  import opened TextLines
  import opened UnifiedDiff
  import opened Wrappers
  import Decimal

  datatype PatchError = NoHunks | HunkMismatch(hunk: nat)

  // ---- locating -------------------------------------------------------------------------

  predicate OccursAt(haystack: seq<string>, needle: seq<string>, at: nat) {
    at + |needle| <= |haystack| && haystack[at..at + |needle|] == needle
  }

  function FindFrom(haystack: seq<string>, needle: seq<string>, at: nat): (found: Option<nat>)
    ensures found.Some? ==> at <= found.value && OccursAt(haystack, needle, found.value)
    ensures found.Some? ==> forall p :: at <= p < found.value ==> !OccursAt(haystack, needle, p)
    ensures found == None ==> forall p :: at <= p ==> !OccursAt(haystack, needle, p)
    decreases |haystack| + 1 - at
  {
    if at + |needle| > |haystack| then None
    else if OccursAt(haystack, needle, at) then Some(at)
    else FindFrom(haystack, needle, at + 1)
  }

  /** The first place the lines occur; an empty needle occurs nowhere. */
  function FindSlice(haystack: seq<string>, needle: seq<string>): (found: Option<nat>)
    ensures found.Some? ==> OccursAt(haystack, needle, found.value)
  {
    if needle == [] then None else FindFrom(haystack, needle, 0)
  }

  method FindSliceScan(haystack: seq<string>, needle: seq<string>) returns (found: Option<nat>)
    ensures found == FindSlice(haystack, needle)
  {
    if needle == [] || |needle| > |haystack| {
      return None;
    }
    for start := 0 to |haystack| - |needle| + 1
      invariant FindFrom(haystack, needle, start) == FindFrom(haystack, needle, 0)
    {
      if haystack[start..start + |needle|] == needle {
        return Some(start);
      }
    }
    return None;
  }

  // ---- applying ----------------------------------------------------------------------------

  predicate IsHeader(line: string) {
    |line| >= 2 && line[..2] == "@@"
  }

  datatype Sides = Sides(removals: seq<string>, replacement: seq<string>)

  /** What one line of a hunk adds to either side. */
  function LineSides(line: string): Sides {
    if line == "" then Sides([""], [""])
    else if line[0] == ' ' then Sides([line[1..]], [line[1..]])
    else if line[0] == '-' then Sides([line[1..]], [])
    else if line[0] == '+' then Sides([], [line[1..]])
    else Sides([], [])
  }

  function HunkSides(body: seq<string>): Sides {
    if body == [] then Sides([], [])
    else
      var init := HunkSides(body[..|body| - 1]);
      var last := LineSides(body[|body| - 1]);
      Sides(init.removals + last.removals, init.replacement + last.replacement)
  }

  /** How many lines follow before the next header. */
  function BodyLength(patch: seq<string>): (n: nat)
    ensures n <= |patch| && (n < |patch| ==> IsHeader(patch[n]))
    ensures forall k :: 0 <= k < n ==> !IsHeader(patch[k])
  {
    if patch == [] || IsHeader(patch[0]) then 0 else 1 + BodyLength(patch[1..])
  }

  /** One hunk on the current lines: appended when it removes nothing, else spliced where its old side first occurs. */
  function ApplyHunk(lines: seq<string>, sides: Sides): Option<seq<string>> {
    if sides.removals == [] then Some(lines + sides.replacement)
    else
      match FindSlice(lines, sides.removals)
      case None => None
      case Some(at) => Some(lines[..at] + sides.replacement + lines[at + |sides.removals|..])
  }

  function ApplyLines(lines: seq<string>, patch: seq<string>, applied: nat): Result<seq<string>, PatchError>
    decreases |patch|
  {
    if patch == [] then if applied == 0 then Err(NoHunks) else Ok(lines)
    else if !IsHeader(patch[0]) then ApplyLines(lines, patch[1..], applied)
    else
      var n := BodyLength(patch[1..]);
      match ApplyHunk(lines, HunkSides(patch[1..][..n]))
      case None => Err(HunkMismatch(applied + 1))
      case Some(next) => ApplyLines(next, patch[1..][n..], applied + 1)
  }

  /** The body of the hunk whose header is just before `from`. */
  method ReadHunk(patch: seq<string>, from: nat) returns (sides: Sides, index: nat)
    requires from <= |patch|
    ensures index == from + BodyLength(patch[from..]) && sides == HunkSides(patch[from..index])
  {
    sides := Sides([], []);
    index := from;
    while index < |patch| && !IsHeader(patch[index])
      invariant from <= index <= |patch|
      invariant sides == HunkSides(patch[from..index])
      invariant BodyLength(patch[from..]) == index - from + BodyLength(patch[index..])
    {
      HunkGrows(patch, from, index);
      var one := LineSides(patch[index]);
      sides := Sides(sides.removals + one.removals, sides.replacement + one.replacement);
      index := index + 1;
    }
  }

  lemma {:induction false} HunkGrows(patch: seq<string>, from: nat, index: nat)
    requires from <= index < |patch| && !IsHeader(patch[index])
    ensures var sides, one := HunkSides(patch[from..index]), LineSides(patch[index]);
            HunkSides(patch[from..index + 1])
              == Sides(sides.removals + one.removals, sides.replacement + one.replacement)
    ensures BodyLength(patch[index..]) == 1 + BodyLength(patch[index + 1..])
  {
    assert patch[from..index + 1][..index - from] == patch[from..index];
    assert patch[index..][1..] == patch[index + 1..];
  }

  method Land(lines: seq<string>, sides: Sides) returns (next: Option<seq<string>>)
    ensures next == ApplyHunk(lines, sides)
  {
    if sides.removals == [] {
      return Some(lines + sides.replacement);
    }
    var position := FindSliceScan(lines, sides.removals);
    if position == None {
      return None;
    }
    return Some(lines[..position.value] + sides.replacement + lines[position.value + |sides.removals|..]);
  }

  /** What is left of the patch from line `index` on still leads to `goal`. */
  ghost predicate Leads(
    lines: seq<string>, patch: seq<string>, index: nat, applied: nat, goal: Result<seq<string>, PatchError>) {
    index <= |patch| && ApplyLines(lines, patch[index..], applied) == goal
  }

  /** The hunk whose header is line `index`. */
  method ApplyNext(lines: seq<string>, patch: seq<string>, index: nat) returns (landed: Option<seq<string>>, next: nat)
    requires index < |patch|
    ensures next == index + 1 + BodyLength(patch[index + 1..]) && next <= |patch|
    ensures landed == ApplyHunk(lines, HunkSides(patch[index + 1..next]))
  {
    var sides;
    sides, next := ReadHunk(patch, index + 1);
    landed := Land(lines, sides);
  }

  lemma {:induction false} HunkStep(
    lines: seq<string>, patch: seq<string>, index: nat, applied: nat, goal: Result<seq<string>, PatchError>)
    requires index < |patch| && IsHeader(patch[index]) && Leads(lines, patch, index, applied, goal)
    ensures var next := index + 1 + BodyLength(patch[index + 1..]);
            var landed := ApplyHunk(lines, HunkSides(patch[index + 1..next]));
            if landed == None then goal == Err(HunkMismatch(applied + 1))
                else Leads(landed.value, patch, next, applied + 1, goal)
  {
    var rest := patch[index + 1..];
    var n := BodyLength(rest);
    assert patch[index..][1..] == rest;
    assert rest[..n] == patch[index + 1..index + 1 + n] && rest[n..] == patch[index + 1 + n..];
  }

  lemma {:induction false} SkipLine(
    lines: seq<string>, patch: seq<string>, index: nat, applied: nat, goal: Result<seq<string>, PatchError>)
    requires index < |patch| && !IsHeader(patch[index]) && Leads(lines, patch, index, applied, goal)
    ensures Leads(lines, patch, index + 1, applied, goal)
  {
    assert patch[index..][1..] == patch[index + 1..];
  }

  method ApplyPatch(original: string, patch: string) returns (r: Result<string, PatchError>)
    ensures r == match ApplyLines(ToLines(original), ToLines(patch), 0)
                 case Ok(lines) => Ok(FromLines(lines))
                 case Err(error) => Err(error)
  {
    var lines := ToLines(original);
    var patchLines := ToLines(patch);
    var index: nat, applied: nat := 0, 0;
    ghost var goal := ApplyLines(lines, patchLines, 0);
    assert patchLines[0..] == patchLines;
    while index < |patchLines|
      invariant Leads(lines, patchLines, index, applied, goal)
    {
      if !IsHeader(patchLines[index]) {
        SkipLine(lines, patchLines, index, applied, goal);
        index := index + 1;
        continue;
      }
      HunkStep(lines, patchLines, index, applied, goal);
      var landed, next := ApplyNext(lines, patchLines, index);
      if landed == None {
        return Err(HunkMismatch(applied + 1));
      }
      lines, index, applied := landed.value, next, applied + 1;
    }
    assert patchLines[index..] == [];
    if applied == 0 {
      return Err(NoHunks);
    }
    return Ok(FromLines(lines));
  }

  // ---- the patch a diff writes -------------------------------------------------------------

  /** The old lines from the window on, behind the new lines up to it: the buffer the hunk is applied to. */
  function BufferAt(changes: seq<Change>, at: nat): seq<string>
    requires at <= |changes|
  {
    New(changes[..at]) + Old(changes[at..])
  }

  /** The hunk is found at its own place; one with no old lines belongs at the end of the file. */
  predicate LandsHome(changes: seq<Change>, w: Window)
    requires w.0 <= w.1 <= |changes|
  {
    var removals := Old(changes[w.0..w.1]);
    if removals == [] then Old(changes[w.1..]) == []
    else FindSlice(BufferAt(changes, w.0), removals) == Some(|New(changes[..w.0])|)
  }

  lemma {:induction false} SplitSides(changes: seq<Change>, i: nat, j: nat)
    requires i <= j <= |changes|
    ensures Old(changes[i..]) == Old(changes[i..j]) + Old(changes[j..])
    ensures New(changes[..j]) == New(changes[..i]) + New(changes[i..j])
  {
    assert changes[i..] == changes[i..j] + changes[j..];
    assert changes[..j] == changes[..i] + changes[i..j];
    OldConcat(changes[i..j], changes[j..]);
    NewConcat(changes[..i], changes[i..j]);
  }

  lemma {:induction false} HomeHunkApplies(changes: seq<Change>, w: Window)
    requires w.0 <= w.1 <= |changes| && LandsHome(changes, w)
    ensures var slice := changes[w.0..w.1];
            ApplyHunk(BufferAt(changes, w.0), Sides(Old(slice), New(slice))) == Some(BufferAt(changes, w.1))
  {
    var slice := changes[w.0..w.1];
    SplitSides(changes, w.0, w.1);
    var front, rest := New(changes[..w.0]), Old(changes[w.1..]);
    var buffer := BufferAt(changes, w.0);
    assert buffer == front + (Old(slice) + rest);
    assert BufferAt(changes, w.1) == front + New(slice) + rest;
    if Old(slice) == [] {
      assert rest == [] && buffer == front && BufferAt(changes, w.1) == front + New(slice);
    } else {
      assert buffer[..|front|] == front;
      assert buffer[|front| + |Old(slice)|..] == rest;
    }
  }

  /** Unchanged lines between two hunks read the same on both sides. */
  lemma {:induction false} UnchangedBetween(changes: seq<Change>, i: nat, j: nat)
    requires i <= j <= |changes| && forall k :: i <= k < j ==> changes[k].Same?
    ensures BufferAt(changes, i) == BufferAt(changes, j)
    decreases j - i
  {
    if i < j {
      UnchangedBetween(changes, i + 1, j);
      SplitSides(changes, i, i + 1);
      var one := changes[i..i + 1];
      assert one == [changes[i]] && one[1..] == [];
      assert Old(one) == New(one);
      assert New(changes[..i]) + (Old(one) + Old(changes[i + 1..]))
        == (New(changes[..i]) + New(one)) + Old(changes[i + 1..]);
    }
  }

  lemma {:induction false} BodySides(slice: seq<Change>)
    ensures HunkSides(Body(slice)) == Sides(Old(slice), New(slice))
  {
    if slice != [] {
      var n := |slice| - 1;
      hide Old, New, LineSides, Shown;
      BodySides(slice[..n]);
      assert slice == slice[..n] + [slice[n]];
      assert Body(slice)[..n] == Body(slice[..n]);
      OldConcat(slice[..n], [slice[n]]);
      NewConcat(slice[..n], [slice[n]]);
      LineSidesOf(slice[n]);
    } else {
      assert Old([]) == [] && New([]) == [];
    }
  }

  lemma {:induction false} LineSidesOf(change: Change)
    ensures LineSides(Shown(change)) == Sides(Old([change]), New([change]))
  {
    assert [change][1..] == [];
    assert Shown(change)[1..] == change.line;
  }

  lemma {:induction false} BodyStops(body: seq<string>, rest: seq<string>)
    requires forall k :: 0 <= k < |body| ==> !IsHeader(body[k])
    requires rest != [] ==> IsHeader(rest[0])
    ensures BodyLength(body + rest) == |body|
  {
    if body == [] {
      assert body + rest == rest;
    } else {
      BodyStops(body[1..], rest);
      assert (body + rest)[1..] == body[1..] + rest;
    }
  }

  ghost predicate AllSame(changes: seq<Change>, from: nat, upTo: nat)
    requires upTo <= |changes|
  {
    forall k :: from <= k < upTo ==> changes[k].Same?
  }

  /** From change `done` on: each hunk lands at home, and what lies between hunks is unchanged. */
  ghost predicate Applies(changes: seq<Change>, hunks: seq<Window>, done: nat) {
    done <= |changes| &&
    if hunks == [] then AllSame(changes, done, |changes|)
    else
      && done <= hunks[0].0 <= hunks[0].1 <= |changes|
      && AllSame(changes, done, hunks[0].0)
      && LandsHome(changes, hunks[0])
      && Applies(changes, hunks[1..], hunks[0].1)
  }

  /** Applying the remaining hunks finishes the new text. */
  lemma {:induction false} HunksApply(changes: seq<Change>, hunks: seq<Window>, done: nat, applied: nat)
    requires Applies(changes, hunks, done) && (hunks == [] ==> applied > 0)
    requires forall h :: 0 <= h < |hunks| ==> hunks[h].0 <= hunks[h].1 <= |changes|
    ensures ApplyLines(BufferAt(changes, done), HunkLines(changes, hunks), applied) == Ok(New(changes))
    decreases |hunks|
  {
    if hunks == [] {
      UnchangedBetween(changes, done, |changes|);
      assert changes[..|changes|] == changes && changes[|changes|..] == [];
      assert BufferAt(changes, |changes|) == New(changes);
    } else {
      UnchangedBetween(changes, done, hunks[0].0);
      HunksApply(changes, hunks[1..], hunks[0].1, applied + 1);
      FirstHunkApplies(changes, hunks, applied);
    }
  }

  lemma {:induction false} HunksOfApply(changes: seq<Change>, context: nat, hunks: seq<Window>, h: nat)
    requires HunksOf(changes, context, hunks) && h <= |hunks|
    requires forall g :: 0 <= g < |hunks| ==> LandsHome(changes, hunks[g])
    ensures Applies(changes, hunks[h..], if h == 0 then 0 else hunks[h - 1].1)
    decreases |hunks| - h
  {
    hide LandsHome;
    var done := if h == 0 then 0 else hunks[h - 1].1;
    var end := if h == |hunks| then |changes| else hunks[h].0;
    forall p | done <= p < end
      ensures changes[p].Same?
    {
      BetweenIsOutside(hunks, |changes|, h, p);
      OutsideIsSame(changes, context, hunks, p);
    }
    if h < |hunks| {
      HunksOfApply(changes, context, hunks, h + 1);
      assert hunks[h..][1..] == hunks[h + 1..];
    }
  }

  lemma {:induction false} BetweenIsOutside(hunks: seq<Window>, n: nat, h: nat, p: nat)
    requires Spaced(hunks, n) && h <= |hunks| && (h > 0 ==> hunks[h - 1].1 <= p) && (h < |hunks| ==> p < hunks[h].0)
    ensures !Inside(hunks, p)
  {
    forall g | 0 <= g < |hunks|
      ensures !(hunks[g].0 <= p < hunks[g].1)
    {
      if g + 1 < h {
        assert hunks[g].1 < hunks[h - 1].0;
      } else if h < g {
        assert hunks[h].1 < hunks[g].0;
      }
    }
  }

  lemma {:induction false} FirstHunkApplies(changes: seq<Change>, hunks: seq<Window>, applied: nat)
    requires hunks != [] && (forall h :: 0 <= h < |hunks| ==> hunks[h].0 <= hunks[h].1 <= |changes|)
             && LandsHome(changes, hunks[0])
    ensures ApplyLines(BufferAt(changes, hunks[0].0), HunkLines(changes, hunks), applied)
            == ApplyLines(BufferAt(changes, hunks[0].1), HunkLines(changes, hunks[1..]), applied + 1)
  {
    HomeHunkApplies(changes, hunks[0]);
    HunkReads(changes, hunks);
  }

  /** Reading the first hunk back from its text. */
  lemma {:induction false} HunkReads(changes: seq<Change>, hunks: seq<Window>)
    requires hunks != [] && forall h :: 0 <= h < |hunks| ==> hunks[h].0 <= hunks[h].1 <= |changes|
    ensures var patch := HunkLines(changes, hunks);
            var slice := changes[hunks[0].0..hunks[0].1];
            patch != [] && IsHeader(patch[0]) &&
            BodyLength(patch[1..]) == |slice| &&
            HunkSides(patch[1..][..|slice|]) == Sides(Old(slice), New(slice)) &&
            patch[1..][|slice|..] == HunkLines(changes, hunks[1..])
  {
    var slice := changes[hunks[0].0..hunks[0].1];
    var rest := HunkLines(changes, hunks[1..]);
    if hunks[1..] != [] {
      HunkLinesHead(changes, hunks[1..]);
    }
    forall k | 0 <= k < |slice|
      ensures !IsHeader(Body(slice)[k])
    {
      ShownIsNoHeader(slice[k]);
    }
    HunkLinesHead(changes, hunks);
    BodyReads(slice, rest, HunkLines(changes, hunks)[1..]);
  }

  lemma {:induction false} HunkLinesHead(changes: seq<Change>, hunks: seq<Window>)
    requires hunks != [] && forall h :: 0 <= h < |hunks| ==> hunks[h].0 <= hunks[h].1 <= |changes|
    ensures var patch := HunkLines(changes, hunks);
            patch != [] && IsHeader(patch[0]) &&
            patch[1..] == Body(changes[hunks[0].0..hunks[0].1]) + HunkLines(changes, hunks[1..])
  {
    HeaderIsHeader(changes, hunks[0]);
    var header, tail := Header(changes, hunks[0]),
      Body(changes[hunks[0].0..hunks[0].1]) + HunkLines(changes, hunks[1..]);
    assert HunkLines(changes, hunks) == [header] + tail;
  }

  lemma {:induction false} ShownIsNoHeader(change: Change)
    ensures !IsHeader(Shown(change))
  {
    var shown := Shown(change);
    assert |shown| >= 2 ==> shown[..2][0] == shown[0];
  }

  lemma {:induction false} BodyReads(slice: seq<Change>, rest: seq<string>, patch: seq<string>)
    requires patch == Body(slice) + rest && (rest != [] ==> IsHeader(rest[0]))
    requires forall k :: 0 <= k < |slice| ==> !IsHeader(Body(slice)[k])
    ensures BodyLength(patch) == |slice| && HunkSides(patch[..|slice|]) == Sides(Old(slice), New(slice))
            && patch[|slice|..] == rest
  {
    BodyStops(Body(slice), rest);
    BodySides(slice);
    assert patch[..|slice|] == Body(slice);
  }

  lemma {:induction false} HeaderIsHeader(changes: seq<Change>, w: Window)
    requires w.0 <= w.1 <= |changes|
    ensures IsHeader(Header(changes, w))
  {
    var header := Header(changes, w);
    assert header[0] == '@' && header[1] == '@';
  }

  // ---- the text of the patch ------------------------------------------------------------------

  lemma {:induction false} DigitsHaveNoNewline(n: nat)
    ensures NoNewline(Decimal.Digits(n))
  {
  }

  lemma {:induction false} HunkLinesAreLines(changes: seq<Change>, hunks: seq<Window>)
    requires forall h :: 0 <= h < |hunks| ==> hunks[h].0 <= hunks[h].1 <= |changes|
    requires forall k :: 0 <= k < |changes| ==> NoNewline(changes[k].line)
    ensures AllLines(HunkLines(changes, hunks))
  {
    if hunks != [] {
      HunkLinesAreLines(changes, hunks[1..]);
      var slice := changes[hunks[0].0..hunks[0].1];
      var prefix := changes[..hunks[0].0];
      DigitsHaveNoNewline(1 + |Old(prefix)|);
      DigitsHaveNoNewline(|Old(slice)|);
      DigitsHaveNoNewline(1 + |New(prefix)|);
      DigitsHaveNoNewline(|New(slice)|);
      assert NoNewline(Header(changes, hunks[0]));
      assert AllLines(Body(slice));
    }
  }

  lemma {:induction false} ChangesAreLines(changes: seq<Change>, k: nat)
    requires AllLines(Old(changes)) && AllLines(New(changes)) && k < |changes|
    ensures NoNewline(changes[k].line)
  {
    if k == 0 {
      assert changes[0].Added? ==> New(changes)[0] == changes[0].line;
      assert !changes[0].Added? ==> Old(changes)[0] == changes[0].line;
    } else {
      assert forall m :: 0 <= m < |Old(changes[1..])| ==> Old(changes[1..])[m] in Old(changes);
      assert forall m :: 0 <= m < |New(changes[1..])| ==> New(changes[1..])[m] in New(changes);
      ChangesAreLines(changes[1..], k - 1);
    }
  }

  /** The unified text of `changes`, as the diff writes it. */
  function PatchText(changes: seq<Change>, hunks: seq<Window>, from: string, upTo: string): string
    requires forall h :: 0 <= h < |hunks| ==> hunks[h].0 <= hunks[h].1 <= |changes|
  {
    FromLines(["--- " + from, "+++ " + upTo] + HunkLines(changes, hunks))
  }

  /**
    A patch undoes its diff: applied to the text the diff started from, it gives
    the text the diff went to, whenever each hunk is found at its own place.
   */
  lemma {:induction false} PatchUndoesDiff(
    before: string, after: string, changes: seq<Change>, context: nat, hunks: seq<Window>, from: string, upTo: string)
    requires Old(changes) == ToLines(before) && New(changes) == ToLines(after)
    requires HunksOf(changes, context, hunks) && ToLines(before) != ToLines(after)
    requires NoNewline(from) && NoNewline(upTo)
    requires forall h :: 0 <= h < |hunks| ==> LandsHome(changes, hunks[h])
    ensures ApplyLines(ToLines(before), ToLines(PatchText(changes, hunks, from, upTo)), 0) == Ok(ToLines(after))
  {
    forall k | 0 <= k < |changes|
      ensures NoNewline(changes[k].line)
    {
      ChangesAreLines(changes, k);
    }
    HunkLinesAreLines(changes, hunks);
    NamesAreSkipped(ToLines(before), from, upTo, HunkLines(changes, hunks));
    AllHunksApply(changes, context, hunks);
  }

  lemma {:induction false} AllHunksApply(changes: seq<Change>, context: nat, hunks: seq<Window>)
    requires HunksOf(changes, context, hunks) && Old(changes) != New(changes)
    requires forall h :: 0 <= h < |hunks| ==> LandsHome(changes, hunks[h])
    ensures ApplyLines(Old(changes), HunkLines(changes, hunks), 0) == Ok(New(changes))
  {
    SomethingChanged(changes);
    var c :| 0 <= c < |changes| && !changes[c].Same?;
    assert Inside(hunks, c);
    assert changes[..0] == [] && changes[0..] == changes && hunks[0..] == hunks;
    assert BufferAt(changes, 0) == Old(changes);
    HunksOfApply(changes, context, hunks, 0);
    HunksApply(changes, hunks, 0, 0);
  }

  lemma {:induction false} NamesAreSkipped(lines: seq<string>, from: string, upTo: string, shown: seq<string>)
    requires NoNewline(from) && NoNewline(upTo) && AllLines(shown)
    ensures ApplyLines(lines, ToLines(FromLines(["--- " + from, "+++ " + upTo] + shown)), 0)
            == ApplyLines(lines, shown, 0)
  {
    var first, second := "--- " + from, "+++ " + upTo;
    var patch := [first, second] + shown;
    assert NoNewline(first) && NoNewline(second);
    LinesRoundTrip(patch);
    assert first[..2][0] == '-' && second[..2][0] == '+';
    assert patch[0] == first && patch[1..][0] == second && patch[1..][1..] == shown;
  }

  lemma {:induction false} SomethingChanged(changes: seq<Change>)
    requires Old(changes) != New(changes)
    ensures exists c :: 0 <= c < |changes| && !changes[c].Same?
  {
    if changes[0].Same? {
      SomethingChanged(changes[1..]);
      var c :| 0 <= c < |changes[1..]| && !changes[1..][c].Same?;
      assert !changes[c + 1].Same?;
    }
  }

  /** When the context covers the whole file there is one hunk, and it always lands at home. */
  lemma {:induction false} WholeFileLandsHome(changes: seq<Change>, context: nat, hunks: seq<Window>)
    requires HunksOf(changes, context, hunks) && context >= |changes|
    ensures forall h :: 0 <= h < |hunks| ==> LandsHome(changes, hunks[h])
  {
    forall h | 0 <= h < |hunks|
      ensures LandsHome(changes, hunks[h])
    {
      var w := hunks[h];
      assert Inside(hunks, w.0);
      var k :| 0 <= k < |changes| && !changes[k].Same? && k - context <= w.0 <= k + context;
      OnlyWindow(changes, context, hunks, k, h);
      assert changes[..0] == [] && changes[0..|changes|] == changes && changes[|changes|..] == [];
      var a := Old(changes);
      assert BufferAt(changes, 0) == a by { assert changes[0..] == changes; }
      assert a != [] ==> OccursAt(a, a, 0);
    }
  }

  lemma {:induction false} OnlyWindow(changes: seq<Change>, context: nat, hunks: seq<Window>, k: nat, h: nat)
    requires HunksOf(changes, context, hunks) && context >= |changes| && h < |hunks|
    requires k < |changes| && !changes[k].Same?
    ensures hunks[h] == (0, |changes|)
  {
    var n := |changes|;
    forall p | 0 <= p < n
      ensures Inside(hunks, p)
    {
      assert k - context <= p <= k + context;
    }
    EdgeIsOutside(hunks, n, h, (hunks[h].0 as int) - 1);
    EdgeIsOutside(hunks, n, h, hunks[h].1);
  }

  /** A hunk with old lines misses its place exactly when an earlier copy of them stands in the buffer. */
  lemma {:induction false} MissesHomeIff(changes: seq<Change>, w: Window)
    requires w.0 <= w.1 <= |changes| && Old(changes[w.0..w.1]) != []
    ensures var removals, buffer := Old(changes[w.0..w.1]), BufferAt(changes, w.0);
            && FindSlice(buffer, removals).Some?
            && (!LandsHome(changes, w) <==> exists p :: 0 <= p < |New(changes[..w.0])| && OccursAt(buffer, removals, p))
  {
    hide Old, New;
    SplitSides(changes, w.0, w.1);
    var removals, buffer := Old(changes[w.0..w.1]), BufferAt(changes, w.0);
    var home := |New(changes[..w.0])|;
    assert buffer == New(changes[..w.0]) + (removals + Old(changes[w.1..]));
    assert OccursAt(buffer, removals, home);
  }
}
