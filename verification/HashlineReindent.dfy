/**
  Re-indenting a file does not disturb a patch: the same hunks land at the same lines,
  and only indentation differs.
 */
module HashlineReindent {
  import opened Hashline
  import opened HashlineApply
  import opened HashlineText
  import opened Wrappers
  import Utf

  /** The same lines up to white space. */
  ghost predicate Alike(x: seq<string>, y: seq<string>) {
    |x| == |y| && forall k :: 0 <= k < |x| ==> SameWords(x[k], y[k])
  }

  // ---- locating sees only words ------------------------------------------------------------------

  lemma {:induction false} FitsAtAlike(x: seq<string>, y: seq<string>, start: nat, ops: seq<Op>)
    requires Alike(x, y)
    ensures FitsAt(x, start, ops) == FitsAt(y, start, ops)
  {
    hide Required;
    if start <= |x| {
      assert forall k :: 0 <= k < |x| - start ==> x[start..][k] == x[start + k] && y[start..][k] == y[start + k];
    }
  }

  lemma {:induction false} CarriersAlike(hash: Hash, x: seq<string>, y: seq<string>, anchor: string, n: nat)
    requires Alike(x, y) && n <= |x|
    ensures Carriers(hash, x, anchor, n) == Carriers(hash, y, anchor, n)
  {
    if n > 0 {
      CarriersAlike(hash, x, y, anchor, n - 1);
      assert SameWords(x[n - 1], y[n - 1]);
    }
  }

  lemma {:induction false} TextHitsAlike(x: seq<string>, y: seq<string>, text: string, n: nat)
    requires Alike(x, y) && n <= |x|
    ensures TextHits(x, text, n) == TextHits(y, text, n)
  {
    if n > 0 {
      TextHitsAlike(x, y, text, n - 1);
      assert SameWords(x[n - 1], y[n - 1]);
    }
  }

  lemma {:induction false} ContextHitsAlike(x: seq<string>, y: seq<string>, ops: seq<Op>, n: nat)
    requires Alike(x, y) && n <= |x| + 1
    ensures ContextHits(x, ops, n) == ContextHits(y, ops, n)
  {
    hide FitsAt;
    if n > 0 {
      ContextHitsAlike(x, y, ops, n - 1);
      FitsAtAlike(x, y, n - 1, ops);
    }
  }

  lemma {:induction false} ViableAlike(x: seq<string>, y: seq<string>, candidates: seq<nat>, offset: int, ops: seq<Op>)
    requires Alike(x, y)
    ensures Viable(x, candidates, offset, ops) == Viable(y, candidates, offset, ops)
  {
    hide FitsAt;
    if candidates != [] {
      var n := |candidates| - 1;
      ViableAlike(x, y, candidates[..n], offset, ops);
      FitsAtAlike(x, y, Shift(candidates[n], offset, |x|), ops);
    }
  }

  lemma {:induction false} FirstFitAlike(x: seq<string>, y: seq<string>, places: seq<nat>, ops: seq<Op>)
    requires Alike(x, y) && forall k :: 0 <= k < |places| ==> places[k] <= |x|
    ensures FirstFit(x, places, ops) == FirstFit(y, places, ops)
  {
    hide FitsAt;
    if places != [] {
      FitsAtAlike(x, y, places[0], ops);
      FirstFitAlike(x, y, places[1..], ops);
    }
  }

  lemma {:induction false} LocationAlike(
    hash: Hash, candidates: seq<nat>, x: seq<string>, y: seq<string>, hunk: Hunk, offset: int)
    requires Alike(x, y)
    ensures Location(hash, candidates, x, hunk, offset) == Location(hash, candidates, y, hunk, offset)
  {
    hide FitsAt, FirstFit, Viable, Carriers, ContextHits, TextHits;
    assert |x| == |y|;
    if |candidates| >= 1 {
      FitsAtAlike(x, y, Shift(candidates[0], offset, |x|), hunk.ops);
    }
    CarriersAlike(hash, x, y, hunk.anchor, |x|);
    CarriersBound(hash, x, hunk.anchor, |x|);
    FirstFitAlike(x, y, Carriers(hash, x, hunk.anchor, |x|), hunk.ops);
    ViableAlike(x, y, candidates, offset, hunk.ops);
    RecoverAlike(x, y, hunk);
  }

  lemma {:induction false} CarriersBound(hash: Hash, x: seq<string>, anchor: string, n: nat)
    requires n <= |x|
    ensures forall k :: 0 <= k < |Carriers(hash, x, anchor, n)| ==> Carriers(hash, x, anchor, n)[k] < n
  {
  }

  lemma {:induction false} TextHitsBound(x: seq<string>, text: string, n: nat)
    requires n <= |x|
    ensures forall k :: 0 <= k < |TextHits(x, text, n)| ==> TextHits(x, text, n)[k] < n
  {
  }

  lemma {:induction false} RecoverAlike(x: seq<string>, y: seq<string>, hunk: Hunk)
    requires Alike(x, y)
    ensures Recover(x, hunk) == Recover(y, hunk)
  {
    hide FitsAt, FirstFit, ContextHits, TextHits;
    if hunk.anchorText.Some? {
      TextHitsAlike(x, y, hunk.anchorText.value, |x|);
      TextHitsBound(x, hunk.anchorText.value, |x|);
      FirstFitAlike(x, y, TextHits(x, hunk.anchorText.value, |x|), hunk.ops);
    }
    ContextHitsAlike(x, y, hunk.ops, |x| + 1);
  }

  // ---- splicing changes only indentation of insertions -----------------------------------------------

  /** Indentation that anchors ignore: everything but NEL. */
  predicate Clean(line: string) {
    AllSpace(LeadingWs(line))
  }

  predicate AllClean(lines: seq<string>) {
    forall k :: 0 <= k < |lines| ==> Clean(lines[k])
  }

  predicate CleanAdds(ops: seq<Op>) {
    forall k :: 0 <= k < |ops| && ops[k].Add? ==> Clean(ops[k].text)
  }

  predicate CleanReindent(r: Reindent) {
    r.Prefix? ==> AllSpace(r.indent) && LeadingLength(r.indent) == |r.indent|
  }

  lemma {:induction false} LeadingOfConcat(p: string, s: string)
    requires LeadingLength(p) == |p|
    ensures LeadingLength(p + s) == |p| + LeadingLength(s)
  {
    if p == "" {
      assert p + s == s;
    } else {
      assert (p + s)[1..] == p[1..] + s;
      LeadingOfConcat(p[1..], s);
    }
  }

  lemma {:induction false} LeadingOfDrop(s: string, cut: nat)
    requires cut <= LeadingLength(s)
    ensures LeadingLength(s[cut..]) == LeadingLength(s) - cut
  {
    if cut > 0 {
      LeadingOfDrop(s[1..], cut - 1);
      assert s[1..][cut - 1..] == s[cut..];
    } else {
      assert s[0..] == s;
    }
  }

  lemma {:induction false} PrefixKeepsWords(indent: string, text: string)
    requires Clean(text) && AllSpace(indent) && LeadingLength(indent) == |indent|
    ensures SameWords(indent + text, text) && Clean(indent + text)
  {
    hide Words, IsSpace, LeadingLength;
    SpaceBefore(indent, text);
    LeadingOfConcat(indent, text);
    assert LeadingWs(indent + text) == indent + LeadingWs(text);
  }

  lemma {:induction false} StripKeepsWords(text: string, cut: nat)
    requires Clean(text) && cut <= LeadingLength(text)
    ensures SameWords(text[cut..], text) && Clean(text[cut..])
  {
    hide Words, IsSpace, LeadingLength;
    assert text == text[..cut] + text[cut..];
    assert LeadingWs(text)[..cut] == text[..cut];
    SpaceBefore(text[..cut], text[cut..]);
    LeadingOfDrop(text, cut);
    assert LeadingWs(text[cut..]) == LeadingWs(text)[cut..];
  }

  /** Re-indenting a line keeps its words. */
  lemma {:induction false} IndentKeepsWords(text: string, r: Reindent)
    requires Clean(text) && CleanReindent(r)
    ensures SameWords(ApplyIndent(text, r), text) && Clean(ApplyIndent(text, r))
  {
    hide SameWords, Clean, AllSpace;
    SameWordsItself(text);
    match r
    case NoChange =>
    case Prefix(indent) => PrefixKeepsWords(indent, text);
    case Strip(count) => StripKeepsWords(text, CutIndex(text, count));
  }

  lemma {:induction false} SameWordsItself(text: string)
    ensures SameWords(text, text)
  {
  }

  lemma {:induction false} AllLeading(p: string)
    requires forall k :: 0 <= k < |p| ==> Utf.IsWhitespace(p[k])
    ensures LeadingLength(p) == |p|
  {
    if p != "" {
      AllLeading(p[1..]);
    }
  }

  lemma {:induction false} DeltaIsClean(rest: seq<string>, ops: seq<Op>)
    requires AllClean(rest)
    ensures CleanReindent(IndentDelta(rest, ops))
  {
    hide IsSpace;
    var r := IndentDelta(rest, ops);
    if r.Prefix? {
      var file := LeadingWs(rest[0]);
      assert Clean(rest[0]);
      assert r.indent == file[|PatchIndent(ops)|..];
      AllLeading(r.indent);
    }
  }

  ghost predicate CleanAlike(x: seq<string>, y: seq<string>) {
    Alike(x, y) && AllClean(x) && AllClean(y)
  }

  lemma {:induction false} AlikeCons(a: string, b: string, x: seq<string>, y: seq<string>)
    requires SameWords(a, b) && Clean(a) && Clean(b) && CleanAlike(x, y)
    ensures CleanAlike([a] + x, [b] + y)
  {
    hide SameWords, Clean;
  }

  lemma {:induction false} AlikeParts(x: seq<string>, y: seq<string>)
    requires CleanAlike(x, y) && x != []
    ensures |x| == |y| && SameWords(x[0], y[0]) && Clean(x[0]) && Clean(y[0]) && CleanAlike(x[1..], y[1..])
  {
    hide SameWords, Clean;
  }

  lemma {:induction false} IndentedAlike(text: string, r: Reindent, q: Reindent)
    requires Clean(text) && CleanReindent(r) && CleanReindent(q)
    ensures SameWords(ApplyIndent(text, r), ApplyIndent(text, q)) && Clean(ApplyIndent(text, r))
            && Clean(ApplyIndent(text, q))
  {
    hide SameWords, Clean, ApplyIndent, CleanReindent;
    IndentKeepsWords(text, r);
    IndentKeepsWords(text, q);
    SameWordsLaws(ApplyIndent(text, r), text, ApplyIndent(text, q));
  }

  lemma {:induction false} RebuiltAlike(x: seq<string>, y: seq<string>, ops: seq<Op>, r: Reindent, q: Reindent)
    requires CleanAlike(x, y) && Fits(x, ops) && Fits(y, ops)
    requires CleanAdds(ops) && CleanReindent(r) && CleanReindent(q)
    ensures CleanAlike(Rebuilt(x, ops, r), Rebuilt(y, ops, q))
  {
    hide Fits, SameWords, Clean, ApplyIndent, CleanReindent, Alike, AllClean;
    if ops != [] {
      FitsFirst(x, ops);
      FitsFirst(y, ops);
      assert forall k :: 0 <= k < |ops[1..]| ==> ops[1..][k] == ops[k + 1];
      if ops[0].Add? {
        RebuiltAlike(x, y, ops[1..], r, q);
        IndentedAlike(ops[0].text, r, q);
        AlikeCons(ApplyIndent(ops[0].text, r), ApplyIndent(ops[0].text, q), Rebuilt(x, ops[1..], r),
          Rebuilt(y, ops[1..], q));
      } else {
        AlikeParts(x, y);
        RebuiltAlike(x[1..], y[1..], ops[1..], r, q);
        if ops[0].Keep? {
          AlikeCons(x[0], y[0], Rebuilt(x[1..], ops[1..], r), Rebuilt(y[1..], ops[1..], q));
        }
      }
    } else {
      NothingAlike();
    }
  }

  lemma {:induction false} NothingAlike()
    ensures CleanAlike([], [])
  {
  }

  lemma {:induction false} SameWordsLaws(x: string, y: string, z: string)
    requires SameWords(x, y) && SameWords(z, y)
    ensures SameWords(x, z)
  {
  }

  lemma {:induction false} SplicedAlike(x: seq<string>, y: seq<string>, start: nat, ops: seq<Op>)
    requires Alike(x, y) && AllClean(x) && AllClean(y) && CleanAdds(ops)
    requires FitsAt(x, start, ops) && FitsAt(y, start, ops)
    ensures Alike(Spliced(x, start, ops), Spliced(y, start, ops))
    ensures AllClean(Spliced(x, start, ops)) && AllClean(Spliced(y, start, ops))
  {
    hide Fits, SameWords, Clean, Rebuilt, IndentDelta;
    var a, b := x[start..], y[start..];
    FitsBound(a, ops);
    assert forall k :: 0 <= k < |a| ==> a[k] == x[start + k] && b[k] == y[start + k];
    DeltaIsClean(a, ops);
    DeltaIsClean(b, ops);
    RebuiltAlike(a, b, ops, IndentDelta(a, ops), IndentDelta(b, ops));
  }

  ghost predicate PatchedAlike(r: Result<Patched, Failure>, q: Result<Patched, Failure>) {
    match r
    case Err(e) => q == Err(e)
    case Ok(p) => q.Ok? && p.resolutions == q.value.resolutions && Alike(p.lines, q.value.lines)
  }

  /**
    Two files that differ only in white space take a patch the same way: the
    same outcome, the same resolutions, the same words. Cutting an insertion's
    indentation inside a character is the one thing that can tell them apart.
   */
  lemma {:induction false} ReindentedFilePatchesAlike(hash: Hash, original: seq<string>, other: seq<string>,
                                                      x: seq<string>, y: seq<string>, hunks: seq<Hunk>)
    requires Alike(original, other) && Alike(x, y) && AllClean(x) && AllClean(y)
    requires forall k :: 0 <= k < |hunks| ==> CleanAdds(hunks[k].ops)
    ensures var r, q := ApplyFrom(hash, original, x, hunks), ApplyFrom(hash, other, y, hunks);
            r == Err(Panics) || q == Err(Panics) || PatchedAlike(r, q)
    decreases |hunks|
  {
    if hunks != [] {
      OneAlike(hash, original, other, x, y, hunks[0]);
      hide ApplyOne, AllClean, Alike, CleanAdds;
      var r, q := ApplyOne(hash, original, x, hunks[0]), ApplyOne(hash, other, y, hunks[0]);
      if r.Ok? && q.Ok? {
        ReindentedFilePatchesAlike(hash, original, other, r.value.0, q.value.0, hunks[1..]);
      }
    }
  }

  /** With insertions indented by one-byte characters nothing can. */
  lemma {:induction false} AsciiPatchesAlike(hash: Hash, original: seq<string>, other: seq<string>, hunks: seq<Hunk>)
    requires Alike(original, other) && AllClean(original) && AllClean(other)
    requires forall k :: 0 <= k < |hunks| ==> CleanAdds(hunks[k].ops) && AsciiIndents(hunks[k].ops)
    ensures PatchedAlike(ApplyFrom(hash, original, original, hunks), ApplyFrom(hash, other, other, hunks))
  {
    hide ApplyFrom, PatchedAlike, Alike, AllClean, CleanAdds, AsciiIndents;
    ReindentedFilePatchesAlike(hash, original, other, original, other, hunks);
    AsciiNeverPanics(hash, original, original, hunks);
    AsciiNeverPanics(hash, other, other, hunks);
  }

  /** In general it can: the same hunk is applied to a file and stops the program on the file indented less. */
  lemma {:induction false} IndentationCanStopPatch(hash: Hash)
    ensures var hunk := Hunk(AnchorOf(hash, "a"), None, [Keep("  a"), Add("\U{3000}b")]);
            && Alike(["  a"], ["a"])
            && ApplyFrom(hash, ["  a"], ["  a"], [hunk]).Ok?
            && ApplyFrom(hash, ["a"], ["a"], [hunk]) == Err(Panics)
  {
    hide *;
    var hunk := Hunk(AnchorOf(hash, "a"), None, [Keep("  a"), Add("\U{3000}b")]);
    var lines := ["  a"];
    CutInsideCharacter(hash);
    DeepFile(hash, hunk.ops);
    SingleCarrier(hash, "  a", hunk.anchor);
    LandsExactly(hash, lines, [], 0, 0, hunk);
    assert [] + lines[0..] == lines;
    ApplySucceeds(hash, lines, lines, hunk);
  }

  lemma {:induction false} ApplySucceeds(hash: Hash, original: seq<string>, lines: seq<string>, hunk: Hunk)
    requires ApplyOne(hash, original, lines, hunk).Ok?
    ensures ApplyFrom(hash, original, lines, [hunk]).Ok?
  {
    hide ApplyOne;
  }

  lemma {:induction false} DeepFile(hash: Hash, ops: seq<Op>)
    requires ops == [Keep("  a"), Add("\U{3000}b")]
    ensures Alike(["  a"], ["a"]) && AnchorOf(hash, "  a") == AnchorOf(hash, "a")
    ensures FitsAt(["  a"], 0, ops) && Splices(["  a"], 0, ops)
  {
    hide Words, Spaced, LeadingLength;
    SameBareWord();
    assert Required(ops) == ["  a"] + Required(ops[1..]);
    assert ops[1..] == [ops[1]] && Required(ops[1..]) == [];
    assert ["  a"][0..] == ["  a"];
    SameWordsItself("  a");
    assert IndentDelta(["  a"], ops) == NoChange;
  }

  lemma {:induction false} AtAlike(
    hash: Hash, candidates: seq<nat>, x: seq<string>, y: seq<string>, hunk: Hunk, offset: int)
    requires Alike(x, y) && AllClean(x) && AllClean(y) && CleanAdds(hunk.ops)
    ensures OutcomesAlike(ApplyAt(hash, candidates, x, hunk, offset), ApplyAt(hash, candidates, y, hunk, offset))
  {
    LocationAlike(hash, candidates, x, y, hunk, offset);
    hide Location, Spliced, Splices, FitsAt, AllClean, CleanAdds, Alike;
    LocationFits(hash, candidates, x, hunk, offset);
    LocationFits(hash, candidates, y, hunk, offset);
    var at := Location(hash, candidates, x, hunk, offset);
    if at.Ok? && Splices(x, at.value.0, hunk.ops) && Splices(y, at.value.0, hunk.ops) {
      SplicedAlike(x, y, at.value.0, hunk.ops);
    }
  }

  lemma {:induction false} SameCounts(x: seq<string>, y: seq<string>)
    requires Alike(x, y)
    ensures |x| == |y|
  {
  }

  lemma {:induction false} OneIsAt(hash: Hash, original: seq<string>, x: seq<string>, hunk: Hunk)
    ensures ApplyOne(hash, original, x, hunk)
            == ApplyAt(hash, Carriers(hash, original, hunk.anchor, |original|), x, hunk, |x| - |original|)
  {
    hide ApplyAt, Carriers;
  }

  ghost predicate OutcomesAlike(
    r: Result<(seq<string>, Resolution), Failure>, q: Result<(seq<string>, Resolution), Failure>) {
    r == Err(Panics) || q == Err(Panics) ||
    match r
    case Err(e) => q == Err(e)
    case Ok(p) => q.Ok? && p.1 == q.value.1 && Alike(p.0, q.value.0) && AllClean(p.0) && AllClean(q.value.0)
  }

  lemma {:induction false} OneAlike(
    hash: Hash, original: seq<string>, other: seq<string>, x: seq<string>, y: seq<string>, hunk: Hunk)
    requires Alike(original, other) && Alike(x, y) && AllClean(x) && AllClean(y) && CleanAdds(hunk.ops)
    ensures OutcomesAlike(ApplyOne(hash, original, x, hunk), ApplyOne(hash, other, y, hunk))
  {
    hide *;
    SameCounts(original, other);
    SameCounts(x, y);
    OneIsAt(hash, original, x, hunk);
    OneIsAt(hash, other, y, hunk);
    CarriersAlike(hash, original, other, hunk.anchor, |original|);
    AtAlike(hash, Carriers(hash, original, hunk.anchor, |original|), x, y, hunk, |x| - |original|);
  }
}
