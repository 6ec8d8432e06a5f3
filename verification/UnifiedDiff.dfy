/** Hunk windows around the changes of a diff, and the unified text that shows them. */
module UnifiedDiff {
  import opened Diff
  import opened TextLines
  import Decimal

  type Window = (nat, nat)

  // ---- windows ------------------------------------------------------------------------

  /** `p` is at most `context` changes away from one of `interesting`. */
  ghost predicate Near(interesting: seq<nat>, context: nat, p: int) {
    exists u :: 0 <= u < |interesting| && interesting[u] - context <= p <= interesting[u] + context
  }

  ghost predicate Inside(hunks: seq<Window>, p: int) {
    exists h :: 0 <= h < |hunks| && hunks[h].0 <= p < hunks[h].1
  }

  /** In order and a gap apart: no line is shown twice, and windows that touch are one. */
  ghost predicate Spaced(hunks: seq<Window>, n: nat) {
    && (forall h :: 0 <= h < |hunks| ==> hunks[h].0 < hunks[h].1 <= n)
    && (forall g, h :: 0 <= g < h < |hunks| ==> hunks[g].1 < hunks[h].0)
  }

  /** The windows hold exactly the changes near one of `interesting`. */
  ghost predicate WindowsOf(interesting: seq<nat>, context: nat, hunks: seq<Window>, n: nat) {
    Spaced(hunks, n) && forall p :: 0 <= p < n ==> (Inside(hunks, p) <==> Near(interesting, context, p))
  }

  /** The positions of the changes that are not `Same`, in order. */
  ghost predicate Interesting(interesting: seq<nat>, changes: seq<Change>, upTo: nat)
    requires upTo <= |changes|
  {
    && (forall u :: 0 <= u < |interesting| ==> interesting[u] < upTo && !changes[interesting[u]].Same?)
    && (forall u, v :: 0 <= u < v < |interesting| ==> interesting[u] < interesting[v])
    && (forall k :: 0 <= k < upTo && !changes[k].Same? ==> k in interesting)
  }

  method FindInteresting(changes: seq<Change>) returns (interesting: seq<nat>)
    ensures Interesting(interesting, changes, |changes|)
  {
    interesting := [];
    for k := 0 to |changes|
      invariant Interesting(interesting, changes, k)
    {
      if !changes[k].Same? {
        interesting := interesting + [k];
      }
    }
  }

  function Start(index: nat, context: nat): nat {
    if index >= context then index - context else 0
  }

  function End(index: nat, context: nat, n: nat): nat {
    if index + context + 1 <= n then index + context + 1 else n
  }

  lemma {:induction false} NearPush(interesting: seq<nat>, index: nat, context: nat, p: int)
    ensures Near(interesting + [index], context, p)
            <==> Near(interesting, context, p) || index - context <= p <= index + context
  {
    var pushed := interesting + [index];
    assert pushed[|interesting|] == index;
    assert forall u :: 0 <= u < |interesting| ==> pushed[u] == interesting[u];
  }

  lemma {:induction false} InsidePush(hunks: seq<Window>, w: Window, p: int)
    ensures Inside(hunks + [w], p) <==> Inside(hunks, p) || w.0 <= p < w.1
  {
    var pushed := hunks + [w];
    assert pushed[|hunks|] == w;
    assert forall h :: 0 <= h < |hunks| ==> pushed[h] == hunks[h];
  }

  lemma {:induction false} PushWindow(interesting: seq<nat>, context: nat, hunks: seq<Window>, n: nat, index: nat)
    requires WindowsOf(interesting, context, hunks, n) && index < n
    requires hunks == [] || hunks[|hunks| - 1].1 < Start(index, context)
    ensures WindowsOf(interesting + [index], context, hunks + [(Start(index, context), End(index, context, n))], n)
  {
    var w := (Start(index, context), End(index, context, n));
    forall g, h | 0 <= g < h < |hunks + [w]|
      ensures (hunks + [w])[g].1 < (hunks + [w])[h].0
    {
      if h == |hunks| && g < |hunks| - 1 {
        assert hunks[g].1 < hunks[|hunks| - 1].0;
      }
    }
    forall p | 0 <= p < n
      ensures Inside(hunks + [w], p) <==> Near(interesting + [index], context, p)
    {
      NearPush(interesting, index, context, p);
      InsidePush(hunks, w, p);
    }
  }

  lemma {:induction false} WidenWindow(interesting: seq<nat>, context: nat, hunks: seq<Window>, n: nat, index: nat)
    requires WindowsOf(interesting, context, hunks, n) && index < n && hunks != []
    requires var last := hunks[|hunks| - 1]; last.0 <= Start(index, context) <= last.1 <= End(index, context, n)
    ensures var last := |hunks| - 1;
            WindowsOf(interesting + [index], context, hunks[..last] + [(hunks[last].0, End(index, context, n))], n)
  {
    var last := |hunks| - 1;
    var front := hunks[..last];
    var w := (hunks[last].0, End(index, context, n));
    assert hunks == front + [hunks[last]];
    forall p | 0 <= p < n
      ensures Inside(front + [w], p) <==> Near(interesting + [index], context, p)
    {
      NearPush(interesting, index, context, p);
      InsidePush(front, hunks[last], p);
      InsidePush(front, w, p);
    }
  }

  method GroupWindows(interesting: seq<nat>, context: nat, n: nat) returns (hunks: seq<Window>)
    requires forall u :: 0 <= u < |interesting| ==> interesting[u] < n
    requires forall u, v :: 0 <= u < v < |interesting| ==> interesting[u] < interesting[v]
    ensures WindowsOf(interesting, context, hunks, n)
  {
    hunks := [];
    for t := 0 to |interesting|
      invariant WindowsOf(interesting[..t], context, hunks, n)
      invariant hunks == [] <==> t == 0
      invariant t > 0 ==>
                  var last := hunks[|hunks| - 1];
                  last.0 <= Start(interesting[t - 1], context) && last.1 == End(interesting[t - 1], context, n)
    {
      var index := interesting[t];
      assert interesting[..t + 1] == interesting[..t] + [index];
      assert t > 0 ==> interesting[t - 1] < index;
      var start, end := Start(index, context), End(index, context, n);
      if hunks != [] && start <= hunks[|hunks| - 1].1 {
        WidenWindow(interesting[..t], context, hunks, n, index);
        hunks := hunks[..|hunks| - 1] + [(hunks[|hunks| - 1].0, end)];
      } else {
        PushWindow(interesting[..t], context, hunks, n, index);
        hunks := hunks + [(start, end)];
      }
    }
    assert interesting[..|interesting|] == interesting;
  }

  /** What a diff's hunks are: windows over the changes, with only unchanged lines outside them. */
  ghost predicate HunksOf(changes: seq<Change>, context: nat, hunks: seq<Window>) {
    && Spaced(hunks, |changes|)
    && (forall p :: 0 <= p < |changes| ==>
          (Inside(hunks, p) <==> exists k :: 0 <= k < |changes| && !changes[k].Same?
                                             && k - context <= p <= k + context))
  }

  method Hunks(changes: seq<Change>, context: nat) returns (hunks: seq<Window>)
    ensures HunksOf(changes, context, hunks)
  {
    var interesting := FindInteresting(changes);
    hunks := GroupWindows(interesting, context, |changes|);
    forall p | 0 <= p < |changes|
      ensures Inside(hunks, p) <==> exists k :: 0 <= k < |changes| && !changes[k].Same?
                                                && k - context <= p <= k + context
    {
      if k :| 0 <= k < |changes| && !changes[k].Same? && k - context <= p <= k + context {
        assert k in interesting;
      }
    }
  }

  lemma {:induction false} OutsideIsSame(changes: seq<Change>, context: nat, hunks: seq<Window>, p: nat)
    requires HunksOf(changes, context, hunks) && p < |changes| && !Inside(hunks, p)
    ensures changes[p].Same?
  {
  }

  lemma {:induction false} EdgeIsOutside(hunks: seq<Window>, n: nat, h: nat, p: int)
    requires Spaced(hunks, n) && h < |hunks| && (p + 1 == hunks[h].0 || p == hunks[h].1)
    ensures !Inside(hunks, p)
  {
    forall g | 0 <= g < |hunks|
      ensures !(hunks[g].0 <= p < hunks[g].1)
    {
      if g < h {
        assert hunks[g].1 < hunks[h].0;
      } else if h < g {
        assert hunks[h].1 < hunks[g].0;
      }
    }
  }

  ghost predicate SameInside(hunks: seq<Window>, others: seq<Window>, n: nat) {
    forall p :: 0 <= p < n ==> (Inside(hunks, p) <==> Inside(others, p))
  }

  lemma {:induction false} LastWindowReaches(hunks: seq<Window>, others: seq<Window>, n: nat)
    requires Spaced(hunks, n) && Spaced(others, n) && SameInside(hunks, others, n) && hunks != []
    ensures others != [] && hunks[|hunks| - 1].1 <= others[|others| - 1].1
  {
    var w := hunks[|hunks| - 1];
    assert Inside(hunks, w.1 - 1);
    var h :| 0 <= h < |others| && others[h].0 <= w.1 - 1 < others[h].1;
    assert h < |others| - 1 ==> others[h].1 < others[|others| - 1].0;
  }

  /** A place just before the last window is in none, so windows that end together begin together. */
  lemma {:induction false} LastWindowBegins(hunks: seq<Window>, others: seq<Window>, n: nat)
    requires Spaced(hunks, n) && Spaced(others, n) && SameInside(hunks, others, n) && hunks != [] && others != []
    requires hunks[|hunks| - 1].1 == others[|others| - 1].1
    ensures hunks[|hunks| - 1].0 <= others[|others| - 1].0
  {
    hide Inside;
    var w, v := hunks[|hunks| - 1], others[|others| - 1];
    EdgeIsOutside(hunks, n, |hunks| - 1, (w.0 as int) - 1);
    if v.0 < w.0 {
      InsideLast(others, w.0 - 1);
    }
  }

  lemma {:induction false} InsideLast(hunks: seq<Window>, p: int)
    requires hunks != [] && hunks[|hunks| - 1].0 <= p < hunks[|hunks| - 1].1
    ensures Inside(hunks, p)
  {
  }

  lemma {:induction false} FrontIsBefore(hunks: seq<Window>, n: nat, p: int)
    requires Spaced(hunks, n) && hunks != [] && Inside(hunks[..|hunks| - 1], p)
    ensures p < hunks[|hunks| - 1].0
  {
    var front := hunks[..|hunks| - 1];
    var h :| 0 <= h < |front| && front[h].0 <= p < front[h].1;
    assert hunks[h].1 < hunks[|hunks| - 1].0;
  }

  lemma {:induction false} WithoutLast(hunks: seq<Window>, n: nat, p: int)
    requires Spaced(hunks, n) && hunks != []
    ensures Spaced(hunks[..|hunks| - 1], n)
    ensures Inside(hunks[..|hunks| - 1], p) <==> Inside(hunks, p) && p < hunks[|hunks| - 1].0
  {
    hide Inside;
    var last := |hunks| - 1;
    assert hunks == hunks[..last] + [hunks[last]];
    InsidePush(hunks[..last], hunks[last], p);
    if Inside(hunks[..last], p) {
      FrontIsBefore(hunks, n, p);
    }
  }

  /** The windows are fixed by the places they cover. */
  lemma {:induction false} WindowsAreUnique(hunks: seq<Window>, others: seq<Window>, n: nat)
    requires Spaced(hunks, n) && Spaced(others, n) && SameInside(hunks, others, n)
    ensures hunks == others
  {
    hide Inside, Spaced;
    if hunks == [] {
      if others != [] {
        LastWindowReaches(others, hunks, n);
      }
    } else {
      LastWindowReaches(hunks, others, n);
      LastWindowReaches(others, hunks, n);
      LastWindowBegins(hunks, others, n);
      LastWindowBegins(others, hunks, n);
      var h, o := hunks[..|hunks| - 1], others[..|others| - 1];
      WithoutLast(hunks, n, 0);
      WithoutLast(others, n, 0);
      forall p | 0 <= p < n
        ensures Inside(h, p) <==> Inside(o, p)
      {
        WithoutLast(hunks, n, p);
        WithoutLast(others, n, p);
      }
      WindowsAreUnique(h, o, n);
      assert hunks == h + [hunks[|hunks| - 1]] && others == o + [others[|others| - 1]];
    }
  }

  // ---- the text -------------------------------------------------------------------------

  /** One side of a header: the line a hunk starts at there, and how many lines it has. */
  function Range(start: nat, count: nat): string {
    Decimal.Digits(start) + "," + Decimal.Digits(count)
  }

  function HeaderLine(before: string, after: string): string {
    "@@ -" + before + " +" + after + " @@"
  }

  /** A header with the true line numbers of the window on either side. */
  function Header(changes: seq<Change>, w: Window): string
    requires w.0 <= w.1 <= |changes|
  {
    var slice := changes[w.0..w.1];
    HeaderLine(Range(1 + |Old(changes[..w.0])|, |Old(slice)|), Range(1 + |New(changes[..w.0])|, |New(slice)|))
  }

  /** The numbers of a header, and the lines they point at: on either side those of the window. */
  lemma {:induction false} HeaderPointsAt(changes: seq<Change>, w: Window) returns (before: nat, after: nat)
    requires w.0 <= w.1 <= |changes|
    ensures var slice := changes[w.0..w.1];
            && before > 0 && after > 0
            && Header(changes, w) == "@@ -" + (Decimal.Digits(before) + "," + Decimal.Digits(|Old(slice)|))
                                     + " +" + (Decimal.Digits(after) + "," + Decimal.Digits(|New(slice)|)) + " @@"
            && before - 1 + |Old(slice)| <= |Old(changes)| && after - 1 + |New(slice)| <= |New(changes)|
            && Old(changes)[before - 1..before - 1 + |Old(slice)|] == Old(slice)
            && New(changes)[after - 1..after - 1 + |New(slice)|] == New(slice)
  {
    hide Old, New;
    var front, slice, rest := changes[..w.0], changes[w.0..w.1], changes[w.1..];
    before, after := 1 + |Old(front)|, 1 + |New(front)|;
    assert changes == front + (slice + rest);
    OldConcat(front, slice + rest);
    OldConcat(slice, rest);
    NewConcat(front, slice + rest);
    NewConcat(slice, rest);
  }

  function Shown(change: Change): string {
    match change
    case Same(line) => " " + line
    case Removed(line) => "-" + line
    case Added(line) => "+" + line
  }

  function Body(slice: seq<Change>): (lines: seq<string>)
    ensures |lines| == |slice| && forall k :: 0 <= k < |slice| ==> lines[k] == Shown(slice[k])
  {
    seq(|slice|, k requires 0 <= k < |slice| => Shown(slice[k]))
  }

  function HunkLines(changes: seq<Change>, hunks: seq<Window>): seq<string>
    requires forall h :: 0 <= h < |hunks| ==> hunks[h].0 <= hunks[h].1 <= |changes|
  {
    if hunks == [] then []
    else [Header(changes, hunks[0])] + Body(changes[hunks[0].0..hunks[0].1]) + HunkLines(changes, hunks[1..])
  }

  /** The running line numbers over `changes[from..upTo]`. */
  method Advance(
    changes: seq<Change>, from: nat, upTo: nat, before: nat, after: nat) returns (before': nat, after': nat)
    requires from <= upTo <= |changes| && before == 1 + |Old(changes[..from])| && after == 1 + |New(changes[..from])|
    ensures before' == 1 + |Old(changes[..upTo])| && after' == 1 + |New(changes[..upTo])|
  {
    before', after' := before, after;
    for k := from to upTo
      invariant before' == 1 + |Old(changes[..k])| && after' == 1 + |New(changes[..k])|
    {
      assert changes[..k + 1] == changes[..k] + [changes[k]];
      OldConcat(changes[..k], [changes[k]]);
      NewConcat(changes[..k], [changes[k]]);
      assert [changes[k]][1..] == [];
      match changes[k]
      case Same(_) => before', after' := before' + 1, after' + 1;
      case Removed(_) => before' := before' + 1;
      case Added(_) => after' := after' + 1;
    }
  }

  method CountSides(slice: seq<Change>) returns (before: nat, after: nat)
    ensures before == |Old(slice)| && after == |New(slice)|
  {
    assert slice[..0] == [];
    before, after := Advance(slice, 0, |slice|, 1, 1);
    before, after := before - 1, after - 1;
    assert slice[..|slice|] == slice;
  }

  method WriteBody(slice: seq<Change>) returns (out: string)
    ensures out == FromLines(Body(slice))
  {
    out := "";
    for k := 0 to |slice|
      invariant out == FromLines(Body(slice[..k]))
    {
      assert slice[..k + 1] == slice[..k] + [slice[k]];
      assert Body(slice[..k + 1]) == Body(slice[..k]) + [Shown(slice[k])];
      FromLinesConcat(Body(slice[..k]), [Shown(slice[k])]);
      assert [Shown(slice[k])][1..] == [];
      assert FromLines([Shown(slice[k])]) == Shown(slice[k]) + "\n";
      out := out + (Shown(slice[k]) + "\n");
    }
    assert slice[..|slice|] == slice;
  }

  method WriteHunks(changes: seq<Change>, hunks: seq<Window>) returns (out: string)
    requires Spaced(hunks, |changes|)
    ensures out == FromLines(HunkLines(changes, hunks))
  {
    hide FromLines, HunkLines, Old, New, Body;
    out := "";
    NothingShown(changes);
    var beforeLine: nat, afterLine: nat, consumed: nat := 1, 1, 0;
    assert changes[..0] == [];
    for h := 0 to |hunks|
      invariant consumed == if h == 0 then 0 else hunks[h - 1].1
      invariant consumed <= |changes|
      invariant beforeLine == 1 + |Old(changes[..consumed])| && afterLine == 1 + |New(changes[..consumed])|
      invariant out + FromLines(HunkLines(changes, hunks[h..])) == FromLines(HunkLines(changes, hunks))
    {
      var (start, end) := hunks[h];
      beforeLine, afterLine := Advance(changes, consumed, start, beforeLine, afterLine);
      consumed := end;
      var beforeCount, afterCount := CountSides(changes[start..end]);
      var header := HeaderLine(Range(beforeLine, beforeCount), Range(afterLine, afterCount));
      assert header == Header(changes, hunks[h]);
      var body := WriteBody(changes[start..end]);
      beforeLine, afterLine := Advance(changes, start, end, beforeLine, afterLine);
      HunkUnfolds(changes, hunks[h..], out);
      assert hunks[h..][1..] == hunks[h + 1..];
      out := out + (header + "\n") + body;
    }
  }

  lemma {:induction false} NothingShown(changes: seq<Change>)
    ensures FromLines(HunkLines(changes, [])) == "" && Old([]) == [] && New([]) == []
  {
  }

  lemma {:induction false} HunkUnfolds(changes: seq<Change>, hunks: seq<Window>, out: string)
    requires hunks != [] && forall h :: 0 <= h < |hunks| ==> hunks[h].0 <= hunks[h].1 <= |changes|
    ensures out + FromLines(HunkLines(changes, hunks))
            == out + (Header(changes, hunks[0]) + "\n") + FromLines(Body(changes[hunks[0].0..hunks[0].1]))
              + FromLines(HunkLines(changes, hunks[1..]))
  {
    ThreeParts(Header(changes, hunks[0]), Body(changes[hunks[0].0..hunks[0].1]), HunkLines(changes, hunks[1..]), out);
  }

  lemma {:induction false} ThreeParts(header: string, body: seq<string>, rest: seq<string>, out: string)
    ensures out + FromLines([header] + body + rest) == out + (header + "\n") + FromLines(body) + FromLines(rest)
  {
    FromLinesConcat([header] + body, rest);
    FromLinesConcat([header], body);
    assert [header][1..] == [];
    assert FromLines([header]) == header + "\n";
  }

  /** The whole diff: no text when nothing changed. */
  method Unified(
    changes: seq<Change>, from: string, upTo: string, context: nat) returns (out: string, ghost hunks: seq<Window>)
    ensures HunksOf(changes, context, hunks)
    ensures out == if forall k :: 0 <= k < |changes| ==> changes[k].Same? then ""
                   else FromLines(["--- " + from, "+++ " + upTo] + HunkLines(changes, hunks))
  {
    var windows := Hunks(changes, context);
    hunks := windows;
    if forall k :: 0 <= k < |changes| ==> changes[k].Same? {
      return "", hunks;
    }
    var text := WriteHunks(changes, windows);
    var first, second := "--- " + from, "+++ " + upTo;
    out := first + "\n" + second + "\n" + text;
    TwoNames(first, second, HunkLines(changes, windows));
  }

  lemma {:induction false} TwoNames(first: string, second: string, rest: seq<string>)
    ensures FromLines([first, second] + rest) == first + "\n" + second + "\n" + FromLines(rest)
  {
    FromLinesConcat([first, second], rest);
    assert [first, second][1..] == [second] && [second][1..] == [];
    assert FromLines([second]) == second + "\n";
    assert FromLines([first, second]) == first + "\n" + (second + "\n");
  }
}
