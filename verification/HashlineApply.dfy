/** Locating hunks in a file that may have moved on, and applying a list of them with drift tracking. */
module HashlineApply {
  import opened Hashline
  import opened Wrappers
  import HashlineText
  import Splice
  import TextLines
  import Utf

  // ---- the index ------------------------------------------------------------------------------

  datatype Index = Index(lines: seq<string>, byAnchor: map<string, seq<nat>>, trailingNewline: bool)

  /** The first `n` lines that carry an anchor, in order. */
  function Carriers(hash: Hash, lines: seq<string>, anchor: string, n: nat): (found: seq<nat>)
    requires n <= |lines|
    ensures forall k :: 0 <= k < |found| ==> found[k] < n
  {
    if n == 0 then []
    else Carriers(hash, lines, anchor, n - 1) + if AnchorOf(hash, lines[n - 1]) == anchor then [n - 1] else []
  }

  function Lookup(byAnchor: map<string, seq<nat>>, anchor: string): seq<nat> {
    if anchor in byAnchor then byAnchor[anchor] else []
  }

  /** Every anchor is answered with exactly those of the first `n` lines that carry it. */
  ghost predicate IndexesTo(hash: Hash, lines: seq<string>, byAnchor: map<string, seq<nat>>, n: nat)
    requires n <= |lines|
  {
    forall anchor :: Lookup(byAnchor, anchor) == Carriers(hash, lines, anchor, n)
  }

  ghost predicate Indexes(hash: Hash, index: Index) {
    IndexesTo(hash, index.lines, index.byAnchor, |index.lines|)
  }

  lemma {:induction false} IndexGrows(hash: Hash, lines: seq<string>, byAnchor: map<string, seq<nat>>, i: nat)
    requires i < |lines| && IndexesTo(hash, lines, byAnchor, i)
    ensures var anchor := AnchorOf(hash, lines[i]);
            IndexesTo(hash, lines, byAnchor[anchor := Lookup(byAnchor, anchor) + [i]], i + 1)
  {
    hide AnchorOf;
    var anchor := AnchorOf(hash, lines[i]);
    var grown := byAnchor[anchor := Lookup(byAnchor, anchor) + [i]];
    forall a: string
      ensures Lookup(grown, a) == Carriers(hash, lines, a, i + 1)
    {
      assert Lookup(byAnchor, a) == Carriers(hash, lines, a, i);
      assert a != anchor ==> Carriers(hash, lines, a, i + 1) == Carriers(hash, lines, a, i) + [];
    }
  }

  function StripCr(line: string): string {
    if line != "" && line[|line| - 1] == '\r' then line[..|line| - 1] else line
  }

  function StripAll(lines: seq<string>): (stripped: seq<string>)
    ensures |stripped| == |lines| && forall k :: 0 <= k < |lines| ==> stripped[k] == StripCr(lines[k])
  {
    seq(|lines|, k requires 0 <= k < |lines| => StripCr(lines[k]))
  }

  predicate EndsWithNewline(content: string) {
    content != "" && content[|content| - 1] == '\n'
  }

  function LinesOf(content: string): seq<string> {
    var trailing := EndsWithNewline(content);
    var body := if trailing then content[..|content| - 1] else content;
    if body == "" then (if trailing then [""] else []) else StripAll(TextLines.Split(body))
  }

  lemma {:induction false} IndexesNothing(hash: Hash, lines: seq<string>)
    ensures IndexesTo(hash, lines, map[], 0)
  {
  }

  method NewIndex(hash: Hash, content: string) returns (index: Index)
    ensures index.lines == LinesOf(content) && index.trailingNewline == EndsWithNewline(content)
    ensures Indexes(hash, index)
  {
    hide LinesOf, AnchorOf, Carriers, IndexesTo;
    var lines := LinesOf(content);
    var byAnchor: map<string, seq<nat>> := map[];
    IndexesNothing(hash, lines);
    for i := 0 to |lines|
      invariant IndexesTo(hash, lines, byAnchor, i)
    {
      IndexGrows(hash, lines, byAnchor, i);
      var anchor := AnchorOf(hash, lines[i]);
      byAnchor := byAnchor[anchor := Lookup(byAnchor, anchor) + [i]];
    }
    index := Index(lines, byAnchor, EndsWithNewline(content));
  }

  function Joined(lines: seq<string>): string {
    if lines == [] then ""
    else if |lines| == 1 then lines[0]
    else lines[0] + "\n" + Joined(lines[1..])
  }

  function Render(index: Index, lines: seq<string>): string {
    Joined(lines) + if index.trailingNewline then "\n" else ""
  }

  // ---- locating ----------------------------------------------------------------------------------

  function Shift(index: nat, offset: int, length: nat): (shifted: nat)
    ensures shifted <= length
  {
    var shifted := index + offset;
    if shifted < 0 then 0 else if shifted > length then length else shifted
  }

  /** The first of some places where the hunk fits. */
  function FirstFit(current: seq<string>, places: seq<nat>, ops: seq<Op>): (found: Option<nat>)
    requires forall k :: 0 <= k < |places| ==> places[k] <= |current|
    ensures found.Some? ==> found.value in places && FitsAt(current, found.value, ops)
    ensures found == None ==> forall p :: p in places ==> !FitsAt(current, p, ops)
  {
    if places == [] then None
    else if FitsAt(current, places[0], ops) then Some(places[0])
    else FirstFit(current, places[1..], ops)
  }

  /** Where the candidates have drifted to, as far as the hunk fits there. */
  function Viable(current: seq<string>, candidates: seq<nat>, offset: int, ops: seq<Op>): (viable: seq<nat>)
    ensures forall k :: 0 <= k < |viable| ==> FitsAt(current, viable[k], ops)
  {
    if candidates == [] then []
    else
      var n := |candidates| - 1;
      var shifted := Shift(candidates[n], offset, |current|);
      Viable(current, candidates[..n], offset, ops) + if FitsAt(current, shifted, ops) then [shifted] else []
  }

  /** The lines among the first `n` with the words of `text`. */
  function TextHits(current: seq<string>, text: string, n: nat): (hits: seq<nat>)
    requires n <= |current|
    ensures forall k :: 0 <= k < |hits| ==> hits[k] < n
  {
    if n == 0 then []
    else TextHits(current, text, n - 1) + if SameWords(current[n - 1], text) then [n - 1] else []
  }

  /** The places before `n` where the hunk fits. */
  function ContextHits(current: seq<string>, ops: seq<Op>, n: nat): (hits: seq<nat>)
    requires n <= |current| + 1
    ensures forall k :: 0 <= k < |hits| ==> hits[k] < n && FitsAt(current, hits[k], ops)
  {
    if n == 0 then []
    else ContextHits(current, ops, n - 1) + if FitsAt(current, n - 1, ops) then [n - 1] else []
  }

  type Located = Result<(nat, Resolution), ApplyError>

  function Recover(current: seq<string>, hunk: Hunk): (at: Located)
    ensures at.Ok? ==> FitsAt(current, at.value.0, hunk.ops)
    ensures at.Err? ==> !at.error.ContextMismatch?
  {
    var byText :=
      if hunk.anchorText == None then None
      else FirstFit(current, TextHits(current, hunk.anchorText.value, |current|), hunk.ops);
    var places := ContextHits(current, hunk.ops, |current| + 1);
    if byText.Some? then Ok((byText.value, RecoveredByText))
    else if Required(hunk.ops) != [] && |places| == 1 then Ok((places[0], RecoveredByContext))
    else Err(AnchorNotFound(hunk.anchor, hunk.anchorText))
  }

  /**
    Where a hunk lands: its drifted anchor, the anchor re-found, the one candidate that
    fits, its text, its context.
   */
  function Location(hash: Hash, candidates: seq<nat>, current: seq<string>, hunk: Hunk, offset: int): (at: Located)
    ensures at.Ok? ==> FitsAt(current, at.value.0, hunk.ops)
    ensures at.Err? ==> !at.error.ContextMismatch?
  {
    if |candidates| == 1 && FitsAt(current, Shift(candidates[0], offset, |current|), hunk.ops) then
      Ok((Shift(candidates[0], offset, |current|), Exact))
    else if |candidates| == 1 then
      var live := FirstFit(current, Carriers(hash, current, hunk.anchor, |current|), hunk.ops);
      if live.Some? then Ok((live.value, Exact)) else Recover(current, hunk)
    else if |candidates| > 1 then
      var viable := Viable(current, candidates, offset, hunk.ops);
      if |viable| == 1 then Ok((viable[0], Disambiguated))
      else if |viable| > 1 then Err(AmbiguousAnchor(hunk.anchor, viable))
      else Recover(current, hunk)
    else Recover(current, hunk)
  }

  /** Wherever a hunk is said to land, it fits. */
  lemma {:induction false} LocationFits(hash: Hash, candidates: seq<nat>, current: seq<string>, hunk: Hunk, offset: int)
    ensures var at := Location(hash, candidates, current, hunk, offset);
            && (at.Ok? ==> FitsAt(current, at.value.0, hunk.ops))
            && (at.Err? ==> !at.error.ContextMismatch?)
  {
    hide FitsAt;
  }

  method FindFit(current: seq<string>, places: seq<nat>, hunk: Hunk) returns (found: Option<nat>)
    requires forall k :: 0 <= k < |places| ==> places[k] <= |current|
    ensures found == FirstFit(current, places, hunk.ops)
  {
    for k := 0 to |places|
      invariant FirstFit(current, places[k..], hunk.ops) == FirstFit(current, places, hunk.ops)
    {
      var fits := Verify(current, places[k], hunk);
      if fits {
        return Some(places[k]);
      }
    }
    found := None;
  }

  method FindByAnchor(hash: Hash, current: seq<string>, hunk: Hunk) returns (found: Option<nat>)
    ensures found == FirstFit(current, Carriers(hash, current, hunk.anchor, |current|), hunk.ops)
  {
    var hits: seq<nat> := [];
    for i := 0 to |current|
      invariant hits == Carriers(hash, current, hunk.anchor, i)
    {
      if AnchorOf(hash, current[i]) == hunk.anchor {
        hits := hits + [i];
      }
    }
    found := FindFit(current, hits, hunk);
  }

  method RecoverByText(current: seq<string>, text: string, hunk: Hunk) returns (found: Option<nat>)
    ensures found == FirstFit(current, TextHits(current, text, |current|), hunk.ops)
  {
    var hits: seq<nat> := [];
    for i := 0 to |current|
      invariant hits == TextHits(current, text, i)
    {
      if SameWords(current[i], text) {
        hits := hits + [i];
      }
    }
    found := FindFit(current, hits, hunk);
  }

  method RequiredLines(hunk: Hunk) returns (required: seq<string>)
    ensures required == Required(hunk.ops)
  {
    required := [];
    for k := 0 to |hunk.ops|
      invariant required + Required(hunk.ops[k..]) == Required(hunk.ops)
    {
      assert hunk.ops[k..][1..] == hunk.ops[k + 1..];
      if !hunk.ops[k].Add? {
        required := required + [hunk.ops[k].text];
      }
    }
  }

  /** Slides the required lines over the file. */
  method SlideContext(current: seq<string>, required: seq<string>, hunk: Hunk) returns (hits: seq<nat>)
    requires required == Required(hunk.ops) && required != []
    ensures hits == ContextHits(current, hunk.ops, |current| + 1)
  {
    hide SameWords, Required, FitsAt;
    hits := [];
    var last := if |required| <= |current| then |current| - |required| else 0;
    for start := 0 to last + 1
      invariant hits == ContextHits(current, hunk.ops, start)
    {
      var matched := start + |required| <= |current|
                     && forall k :: 0 <= k < |required| ==> SameWords(current[start + k], required[k]);
      SlidMatch(current, hunk.ops, start);
      if matched {
        hits := hits + [start];
      }
    }
    NoLaterHits(current, hunk.ops, last + 1, |current| + 1);
  }

  lemma {:induction false} SlidMatch(current: seq<string>, ops: seq<Op>, start: nat)
    requires start <= |current|
    ensures FitsAt(current, start, ops) <==>
            start + |Required(ops)| <= |current| && forall k ::
              0 <= k < |Required(ops)| ==> SameWords(current[start + k], Required(ops)[k])
  {
    hide SameWords, Required;
    assert forall k :: 0 <= k < |current| - start ==> current[start..][k] == current[start + k];
  }

  lemma {:induction false} NoLaterHits(current: seq<string>, ops: seq<Op>, from: nat, n: nat)
    requires from <= n <= |current| + 1 && from + |Required(ops)| > |current|
    ensures ContextHits(current, ops, n) == ContextHits(current, ops, from)
  {
    if from < n {
      NoLaterHits(current, ops, from, n - 1);
    }
  }

  method Locate(hash: Hash, index: Index, current: seq<string>, hunk: Hunk, offset: int) returns (at: Located)
    requires Indexes(hash, index)
    ensures at == Location(hash, Carriers(hash, index.lines, hunk.anchor, |index.lines|), current, hunk, offset)
  {
    var candidates := Lookup(index.byAnchor, hunk.anchor);
    if |candidates| == 1 {
      var shifted := Shift(candidates[0], offset, |current|);
      var fits := Verify(current, shifted, hunk);
      if fits {
        return Ok((shifted, Exact));
      }
      var live := FindByAnchor(hash, current, hunk);
      if live.Some? {
        return Ok((live.value, Exact));
      }
    }
    if |candidates| > 1 {
      var viable: seq<nat> := [];
      for k := 0 to |candidates|
        invariant viable == Viable(current, candidates[..k], offset, hunk.ops)
      {
        assert candidates[..k + 1][..k] == candidates[..k];
        var shifted := Shift(candidates[k], offset, |current|);
        var fits := Verify(current, shifted, hunk);
        if fits {
          viable := viable + [shifted];
        }
      }
      assert candidates[..|candidates|] == candidates;
      if |viable| == 1 {
        return Ok((viable[0], Disambiguated));
      } else if |viable| > 1 {
        return Err(AmbiguousAnchor(hunk.anchor, viable));
      }
    }
    at := RecoverSite(current, hunk);
  }

  method RecoverSite(current: seq<string>, hunk: Hunk) returns (at: Located)
    ensures at == Recover(current, hunk)
  {
    if hunk.anchorText.Some? {
      var found := RecoverByText(current, hunk.anchorText.value, hunk);
      if found.Some? {
        return Ok((found.value, RecoveredByText));
      }
    }
    var required := RequiredLines(hunk);
    if required != [] {
      var hits := SlideContext(current, required, hunk);
      if |hits| == 1 {
        return Ok((hits[0], RecoveredByContext));
      }
    }
    at := Err(AnchorNotFound(hunk.anchor, hunk.anchorText));
  }

  // ---- applying -------------------------------------------------------------------------------------

  datatype Patched = Patched(lines: seq<string>, resolutions: seq<Resolution>)

  datatype Applied = Applied(content: string, resolutions: seq<Resolution>, delta: int)

  /** One hunk: where it lands, and the lines after its splice. */
  function ApplyAt(
    hash: Hash, candidates: seq<nat>, lines: seq<string>, hunk: Hunk,
    offset: int): Result<(seq<string>, Resolution), Failure> {
    var at := Location(hash, candidates, lines, hunk, offset);
    LocationFits(hash, candidates, lines, hunk, offset);
    hide Location, FitsAt;
    if at.Err? then Err(Refused(at.error))
    else if !Splices(lines, at.value.0, hunk.ops) then Err(Panics)
    else Ok((Spliced(lines, at.value.0, hunk.ops), at.value.1))
  }

  function ApplyOne(
    hash: Hash, original: seq<string>, lines: seq<string>, hunk: Hunk): Result<(seq<string>, Resolution), Failure> {
    ApplyAt(hash, Carriers(hash, original, hunk.anchor, |original|), lines, hunk, |lines| - |original|)
  }

  /** Hunks located against the original file and applied one after another to the working lines. */
  function ApplyFrom(hash: Hash, original: seq<string>, lines: seq<string>, hunks: seq<Hunk>): Result<Patched, Failure>
    decreases |hunks|
  {
    if hunks == [] then Ok(Patched(lines, []))
    else
      match ApplyOne(hash, original, lines, hunks[0])
      case Err(e) => Err(e)
      case Ok(next) => Resolved([next.1], ApplyFrom(hash, original, next.0, hunks[1..]))
  }

  method Apply(hash: Hash, content: string, hunks: seq<Hunk>) returns (result: Result<Applied, Failure>)
    ensures var whole := ApplyFrom(hash, LinesOf(content), LinesOf(content), hunks);
            match result
            case Err(e) => whole == Err(e)
            case Ok(a) =>
              && whole.Ok? && a.resolutions == whole.value.resolutions
              && a.delta == |whole.value.lines| - |LinesOf(content)|
              && a.content == Joined(whole.value.lines) + if EndsWithNewline(content) then "\n" else ""
  {
    hide *;
    var index := NewIndex(hash, content);
    var buffer := new Buffer(index.lines);
    var resolutions: seq<Resolution> := [];
    var offset := 0;
    ghost var whole := ApplyFrom(hash, index.lines, index.lines, hunks);
    ResolvedNothing(whole);
    assert hunks[0..] == hunks;
    for k := 0 to |hunks|
      invariant fresh(buffer) && offset == |buffer.lines| - |index.lines|
      invariant whole == Resolved(resolutions, ApplyFrom(hash, index.lines, buffer.lines, hunks[k..]))
    {
      ApplyStep(hash, index.lines, buffer.lines, hunks, k, resolutions);
      var at := Locate(hash, index, buffer.lines, hunks[k], offset);
      if at.Err? {
        return Err(Refused(at.error));
      }
      var before := |buffer.lines|;
      var failure := buffer.Splice(at.value.0, hunks[k]);
      if failure.Some? {
        return Err(failure.value);
      }
      offset := offset + |buffer.lines| - before;
      resolutions := resolutions + [at.value.1];
    }
    ApplyEnds(hash, index, content, buffer.lines, hunks, resolutions);
    result := Ok(Applied(Render(index, buffer.lines), resolutions, |buffer.lines| - |index.lines|));
  }

  lemma {:induction false} ApplyEnds(
    hash: Hash, index: Index, content: string, lines: seq<string>, hunks: seq<Hunk>, resolutions: seq<Resolution>)
    requires index.trailingNewline == EndsWithNewline(content)
    ensures Resolved(resolutions, ApplyFrom(hash, index.lines, lines, hunks[|hunks|..]))
            == Ok(Patched(lines, resolutions))
    ensures Render(index, lines) == Joined(lines) + if EndsWithNewline(content) then "\n" else ""
  {
    hide EndsWithNewline, Joined, ApplyOne;
    assert resolutions + [] == resolutions;
  }

  function Resolved(before: seq<Resolution>, r: Result<Patched, Failure>): Result<Patched, Failure> {
    match r
    case Err(e) => Err(e)
    case Ok(p) => Ok(Patched(p.lines, before + p.resolutions))
  }

  lemma {:induction false} ResolvedNothing(r: Result<Patched, Failure>)
    ensures Resolved([], r) == r
  {
    if r.Ok? {
      assert [] + r.value.resolutions == r.value.resolutions;
    }
  }

  lemma {:induction false} FitsInside(lines: seq<string>, start: nat, ops: seq<Op>)
    requires FitsAt(lines, start, ops)
    ensures start <= |lines|
  {
    hide Fits;
  }

  lemma {:induction false} ApplyStep(
    hash: Hash, original: seq<string>, lines: seq<string>, hunks: seq<Hunk>, k: nat, before: seq<Resolution>)
    requires k < |hunks|
    ensures var at := Location(hash, Carriers(hash, original, hunks[k].anchor, |original|), lines, hunks[k],
            |lines| - |original|);
            if at.Err? then Resolved(before, ApplyFrom(hash, original, lines, hunks[k..])) == Err(Refused(at.error))
            else
              && at.value.0 <= |lines|
              && Resolved(before, ApplyFrom(hash, original, lines, hunks[k..]))
                 == if Splices(lines, at.value.0, hunks[k].ops) then
                      Resolved(before + [at.value.1],
                        ApplyFrom(hash, original, Spliced(lines, at.value.0, hunks[k].ops), hunks[k + 1..]))
                    else Err(Panics)
  {
    hide Location, Spliced, Carriers, FitsAt, Splices;
    var at := Location(hash, Carriers(hash, original, hunks[k].anchor, |original|), lines, hunks[k],
      |lines| - |original|);
    LocationFits(hash, Carriers(hash, original, hunks[k].anchor, |original|), lines, hunks[k], |lines| - |original|);
    assert hunks[k..][0] == hunks[k] && hunks[k..][1..] == hunks[k + 1..];
    if at.Ok? {
      FitsInside(lines, at.value.0, hunks[k].ops);
    }
    if at.Ok? && Splices(lines, at.value.0, hunks[k].ops) {
      var rest := ApplyFrom(hash, original, Spliced(lines, at.value.0, hunks[k].ops), hunks[k + 1..]);
      if rest.Ok? {
        assert before + ([at.value.1] + rest.value.resolutions) == before + [at.value.1] + rest.value.resolutions;
      }
    }
  }

  function AllAdds(hunks: seq<Hunk>): nat {
    if hunks == [] then 0 else Adds(hunks[0].ops) + AllAdds(hunks[1..])
  }

  function AllDels(hunks: seq<Hunk>): nat {
    if hunks == [] then 0 else Dels(hunks[0].ops) + AllDels(hunks[1..])
  }

  /**
    For any list of hunks: no hunk that was located is found not to match, and
    when all are applied the lines have grown by insertions less deletions.
   */
  lemma {:induction false} DeltaIsAddsLessDels(hash: Hash, original: seq<string>, lines: seq<string>, hunks: seq<Hunk>)
    ensures var r := ApplyFrom(hash, original, lines, hunks);
            match r
            case Err(e) => e.Refused? ==> !e.error.ContextMismatch?
            case Ok(p) => |p.resolutions| == |hunks| && |p.lines| - |lines| == AllAdds(hunks) - AllDels(hunks)
    decreases |hunks|
  {
    hide Location, Carriers, CutsAll;
    if hunks != [] {
      var candidates := Carriers(hash, original, hunks[0].anchor, |original|);
      var at := Location(hash, candidates, lines, hunks[0], |lines| - |original|);
      LocationFits(hash, candidates, lines, hunks[0], |lines| - |original|);
      if at.Ok? && Splices(lines, at.value.0, hunks[0].ops) {
        var rest := lines[at.value.0..];
        RebuiltLength(rest, hunks[0].ops, IndentDelta(rest, hunks[0].ops));
        DeltaIsAddsLessDels(hash, original, Spliced(lines, at.value.0, hunks[0].ops), hunks[1..]);
      }
    }
  }

  // ---- drift tracking is simultaneous patching ------------------------------------------------------------

  /** Hunk `k` has a unique anchor, at line `at[k]`, and fits there. */
  ghost predicate Anchored(hash: Hash, original: seq<string>, hunks: seq<Hunk>, at: seq<nat>, k: nat)
    requires k < |hunks| == |at|
  {
    && Carriers(hash, original, hunks[k].anchor, |original|) == [at[k]]
    && FitsAt(original, at[k], hunks[k].ops)
  }

  ghost predicate Planned(hash: Hash, original: seq<string>, hunks: seq<Hunk>, at: seq<nat>) {
    && |hunks| == |at|
    && (forall k :: 0 <= k < |hunks| ==> Anchored(hash, original, hunks, at, k))
    && (forall a, b :: 0 <= a < b < |hunks| ==> at[a] + |Required(hunks[a].ops)| <= at[b])
  }

  ghost function SpansOf(hunks: seq<Hunk>, at: seq<nat>): (spans: seq<Splice.Span>)
    requires |hunks| == |at|
    ensures |spans| == |hunks|
  {
    seq(|hunks|, k requires 0 <= k < |hunks| => (at[k], at[k] + |Required(hunks[k].ops)|))
  }

  /** What hunk `k` makes of the original lines it demands. */
  ghost function NewLines(original: seq<string>, ops: seq<Op>, at: nat): seq<string> {
    if FitsAt(original, at, ops) then
      var rest := original[at..];
      Rebuilt(rest, ops, IndentDelta(rest, ops))
    else []
  }

  ghost function NewsOf(original: seq<string>, hunks: seq<Hunk>, at: seq<nat>): (news: seq<seq<string>>)
    requires |hunks| == |at|
    ensures |news| == |hunks|
  {
    seq(|hunks|, k requires 0 <= k < |hunks| => NewLines(original, hunks[k].ops, at[k]))
  }

  lemma {:induction false} PlannedApart(hash: Hash, original: seq<string>, hunks: seq<Hunk>, at: seq<nat>)
    requires Planned(hash, original, hunks, at)
    ensures Splice.Apart(SpansOf(hunks, at), 0, |original|)
  {
    forall k | 0 <= k < |hunks|
      ensures at[k] + |Required(hunks[k].ops)| <= |original|
    {
      assert Anchored(hash, original, hunks, at, k);
    }
    Splice.ApartFromPairs(SpansOf(hunks, at), 0, |original|);
  }

  function Exacts(n: nat): seq<Resolution> {
    seq(n, _ => Exact)
  }

  /**
    A hunk past the part already rewritten lands where its lines have drifted to, and
    its splice goes on with the rewriting.
   */
  lemma {:induction false} LandsInPlace(original: seq<string>, out: seq<string>, i: nat, at: nat, ops: seq<Op>)
    requires i <= at <= |original| && FitsAt(original, at, ops)
    ensures at + |Required(ops)| <= |original|
    ensures var lines := out + original[i..];
            var shifted := Shift(at, |lines| - |original|, |lines|);
            && FitsAt(lines, shifted, ops) && Splices(lines, shifted, ops) == Splices(original, at, ops)
            && Spliced(lines, shifted, ops)
               == out + original[i..at] + NewLines(original, ops, at) + original[at + |Required(ops)|..]
  {
    hide Fits, Rebuilt, IndentDelta, Required, CutsAll;
    var lines := out + original[i..];
    var shifted := Shift(at, |lines| - |original|, |lines|);
    assert shifted == |out| + (at - i);
    assert lines[shifted..] == original[at..];
    assert lines[..shifted] == out + original[i..at];
    FitsBound(original[at..], ops);
    assert original[at..][|Required(ops)|..] == original[at + |Required(ops)|..];
  }

  lemma {:induction false} FitsBound(rest: seq<string>, ops: seq<Op>)
    requires Fits(rest, ops)
    ensures |Required(ops)| <= |rest|
  {
  }

  lemma {:induction false} LandsExactly(
    hash: Hash, original: seq<string>, out: seq<string>, i: nat, at: nat, hunk: Hunk)
    requires i <= at <= |original| && FitsAt(original, at, hunk.ops)
    requires Carriers(hash, original, hunk.anchor, |original|) == [at]
    ensures at + |Required(hunk.ops)| <= |original|
    ensures ApplyOne(hash, original, out + original[i..], hunk)
            == if Splices(original, at, hunk.ops)
               then Ok((out + original[i..at] + NewLines(original, hunk.ops, at)
                 + original[at + |Required(hunk.ops)|..], Exact))
               else Err(Panics)
  {
    hide FitsAt, Spliced, Splices, NewLines, Carriers, Shift;
    LandsInPlace(original, out, i, at, hunk.ops);
  }

  ghost predicate Rewritten(original: seq<string>, hunks: seq<Hunk>, at: seq<nat>, k: nat, i: nat, out: seq<string>)
    requires k <= |hunks| == |at|
  {
    Splice.Apart(SpansOf(hunks, at), 0, |original|) &&
    Splice.Weaving(original, SpansOf(hunks, at), NewsOf(original, hunks, at), k, i, out)
  }

  lemma {:induction false} SameCount(original: seq<string>, hunks: seq<Hunk>, at: seq<nat>)
    requires |hunks| == |at|
    ensures |SpansOf(hunks, at)| == |NewsOf(original, hunks, at)| == |hunks|
  {
  }

  lemma {:induction false} WeaveHunk(
    original: seq<string>, hunks: seq<Hunk>, at: seq<nat>, k: nat, i: nat, out: seq<string>)
    requires k < |hunks| == |at| && Rewritten(original, hunks, at, k, i, out)
    ensures i <= at[k] && at[k] + |Required(hunks[k].ops)| <= |original|
    ensures Rewritten(original, hunks, at, k + 1, at[k] + |Required(hunks[k].ops)|,
                      out + original[i..at[k]] + NewLines(original, hunks[k].ops, at[k]))
  {
    hide Splice.Weaving, Splice.Apart, NewLines;
    Splice.WeavingStep(original, SpansOf(hunks, at), NewsOf(original, hunks, at), k, i, out);
  }

  /** Every hunk from `k` on takes only slices that can be taken. */
  ghost predicate AllSplice(original: seq<string>, hunks: seq<Hunk>, at: seq<nat>, k: nat)
    requires |hunks| == |at|
  {
    forall j :: k <= j < |hunks| ==> Splices(original, at[j], hunks[j].ops)
  }

  /** The hunks from `k` on all land exactly and lead to `final`, or stop the program. */
  ghost predicate AppliesTo(
    hash: Hash, original: seq<string>, lines: seq<string>, hunks: seq<Hunk>, at: seq<nat>, k: nat, final: seq<string>)
    requires k <= |hunks| == |at|
  {
    ApplyFrom(hash, original, lines, hunks[k..])
    == if AllSplice(original, hunks, at, k) then Ok(Patched(final, Exacts(|hunks| - k))) else Err(Panics)
  }

  /** One hunk further: it lands in place, and the rewritten part grows. */
  lemma {:induction false} DriftStep(
    hash: Hash, original: seq<string>, hunks: seq<Hunk>, at: seq<nat>, k: nat, i: nat, out: seq<string>)
    returns (j: nat, next: seq<string>)
    requires k < |hunks| == |at| && i <= |original|
    requires Planned(hash, original, hunks, at) && Rewritten(original, hunks, at, k, i, out)
    ensures j <= |original| && Rewritten(original, hunks, at, k + 1, j, next)
    ensures ApplyOne(hash, original, out + original[i..], hunks[k])
            == if Splices(original, at[k], hunks[k].ops) then Ok((next + original[j..], Exact)) else Err(Panics)
  {
    hide *;
    PlannedAt(hash, original, hunks, at, k);
    WeaveHunk(original, hunks, at, k, i, out);
    LandsExactly(hash, original, out, i, at[k], hunks[k]);
    j := at[k] + |Required(hunks[k].ops)|;
    next := out + original[i..at[k]] + NewLines(original, hunks[k].ops, at[k]);
  }

  lemma {:induction false} DriftEnds(
    hash: Hash, original: seq<string>, hunks: seq<Hunk>, at: seq<nat>, i: nat, out: seq<string>, final: seq<string>)
    requires |hunks| == |at| && i <= |original| && Rewritten(original, hunks, at, |hunks|, i, out)
    requires Splice.Apart(SpansOf(hunks, at), 0, |original|)
    requires final == Splice.Woven(original, SpansOf(hunks, at), NewsOf(original, hunks, at), 0)
    ensures AppliesTo(hash, original, out + original[i..], hunks, at, |hunks|, final)
  {
    hide ApplyFrom, Splice.Weaving, Splice.Woven, Splice.Apart, Exacts;
    Splice.WeavingEnds(original, SpansOf(hunks, at), NewsOf(original, hunks, at), i, out);
    ApplyNone(hash, original, out + original[i..], hunks[|hunks|..]);
  }

  lemma {:induction false} Drift(
    hash: Hash, original: seq<string>, hunks: seq<Hunk>, at: seq<nat>, k: nat, i: nat, out: seq<string>,
    final: seq<string>)
    requires |hunks| == |at| && Planned(hash, original, hunks, at) && Splice.Apart(SpansOf(hunks, at), 0, |original|)
    requires k <= |hunks| && i <= |original| && Rewritten(original, hunks, at, k, i, out)
    requires final == Splice.Woven(original, SpansOf(hunks, at), NewsOf(original, hunks, at), 0)
    ensures AppliesTo(hash, original, out + original[i..], hunks, at, k, final)
    decreases |hunks| - k
  {
    hide *;
    if k == |hunks| {
      DriftEnds(hash, original, hunks, at, i, out, final);
    } else {
      var j, next := DriftStep(hash, original, hunks, at, k, i, out);
      Drift(hash, original, hunks, at, k + 1, j, next, final);
      ApplyExactly(hash, original, out + original[i..], hunks, at, k, next + original[j..], final);
    }
  }

  lemma {:induction false} ApplyNone(hash: Hash, original: seq<string>, lines: seq<string>, hunks: seq<Hunk>)
    requires hunks == []
    ensures ApplyFrom(hash, original, lines, hunks) == Ok(Patched(lines, Exacts(0)))
  {
    assert Exacts(0) == [];
  }

  lemma {:induction false} ApplyExactly(
    hash: Hash, original: seq<string>, lines: seq<string>, hunks: seq<Hunk>, at: seq<nat>, k: nat,
    next: seq<string>, final: seq<string>)
    requires k < |hunks| == |at|
    ensures ApplyOne(hash, original, lines, hunks[k])
            == (if Splices(original, at[k], hunks[k].ops) then Ok((next, Exact)) else Err(Panics)) &&
            AppliesTo(hash, original, next, hunks, at, k + 1, final)
            ==> AppliesTo(hash, original, lines, hunks, at, k, final)
  {
    hide ApplyOne, Splices;
    assert hunks[k..][0] == hunks[k] && hunks[k..][1..] == hunks[k + 1..];
    assert [Exact] + Exacts(|hunks| - k - 1) == Exacts(|hunks| - k);
    assert AllSplice(original, hunks, at, k)
      <==> Splices(original, at[k], hunks[k].ops) && AllSplice(original, hunks, at, k + 1);
  }

  lemma {:induction false} PlannedAt(hash: Hash, original: seq<string>, hunks: seq<Hunk>, at: seq<nat>, k: nat)
    requires k < |hunks| == |at| && Planned(hash, original, hunks, at)
    ensures at[k] <= |original| && Carriers(hash, original, hunks[k].anchor, |original|) == [at[k]]
            && FitsAt(original, at[k], hunks[k].ops)
  {
    assert Anchored(hash, original, hunks, at, k);
  }

  /**
    Hunks with unique anchors and ascending, disjoint demands that match the
    file all land exactly and replace every span at once, unless one of them
    has to cut an insertion's indentation inside a character.
   */
  lemma {:induction false} DriftIsSimultaneous(hash: Hash, original: seq<string>, hunks: seq<Hunk>, at: seq<nat>)
    requires Planned(hash, original, hunks, at)
    ensures Splice.Apart(SpansOf(hunks, at), 0, |original|)
    ensures ApplyFrom(hash, original, original, hunks)
            == if AllSplice(original, hunks, at, 0)
               then Ok(Patched(Splice.Woven(original, SpansOf(hunks, at), NewsOf(original, hunks, at), 0),
                 Exacts(|hunks|)))
               else Err(Panics)
  {
    PlannedApart(hash, original, hunks, at);
    Splice.WeavingStarts(original, SpansOf(hunks, at), NewsOf(original, hunks, at));
    hide Planned, ApplyFrom, AllSplice, Exacts, Splice.Woven, Splice.Weaving;
    Drift(hash, original, hunks, at, 0, 0, [],
      Splice.Woven(original, SpansOf(hunks, at), NewsOf(original, hunks, at), 0));
    assert [] + original[0..] == original && hunks[0..] == hunks;
  }

  // ---- where a patch stops the program --------------------------------------------------------------------

  /** Inserted lines are indented with one-byte characters. */
  predicate AsciiIndents(ops: seq<Op>) {
    forall k :: 0 <= k < |ops| && ops[k].Add? ==>
                  forall i :: 0 <= i < LeadingLength(ops[k].text) ==> ops[k].text[i] as int < 0x80
  }

  /** With such insertions every hunk that is located is applied. */
  lemma {:induction false} AsciiNeverPanics(hash: Hash, original: seq<string>, lines: seq<string>, hunks: seq<Hunk>)
    requires forall k :: 0 <= k < |hunks| ==> AsciiIndents(hunks[k].ops)
    ensures ApplyFrom(hash, original, lines, hunks) != Err(Panics)
    decreases |hunks|
  {
    hide Location, Carriers, Spliced, FitsAt, Cuts, IndentDelta, AsciiIndents;
    if hunks != [] {
      var candidates := Carriers(hash, original, hunks[0].anchor, |original|);
      var at := Location(hash, candidates, lines, hunks[0], |lines| - |original|);
      LocationFits(hash, candidates, lines, hunks[0], |lines| - |original|);
      if at.Ok? {
        AsciiSplices(lines, at.value.0, hunks[0].ops);
        AsciiNeverPanics(hash, original, Spliced(lines, at.value.0, hunks[0].ops), hunks[1..]);
      }
    }
  }

  lemma {:induction false} AsciiSplices(lines: seq<string>, start: nat, ops: seq<Op>)
    requires FitsAt(lines, start, ops) && AsciiIndents(ops)
    ensures Splices(lines, start, ops)
  {
    hide Fits, Cuts, IndentDelta, LeadingLength;
    var reindent := IndentDelta(lines[start..], ops);
    forall k | 0 <= k < |ops| && ops[k].Add?
      ensures Cuts(ops[k].text, reindent)
    {
      AsciiCuts(ops[k].text, reindent);
    }
  }

  /**
    A patch written two blanks deeper than the file, inserting a line indented
    with one ideographic space, whose encoding takes three bytes: two are cut.
   */
  lemma {:induction false} CutInsideCharacter(hash: Hash)
    ensures var hunk := Hunk(AnchorOf(hash, "a"), None, [Keep("  a"), Add("\U{3000}b")]);
            ApplyFrom(hash, ["a"], ["a"], [hunk]) == Err(Panics)
  {
    hide *;
    var hunk := Hunk(AnchorOf(hash, "a"), None, [Keep("  a"), Add("\U{3000}b")]);
    var lines := ["a"];
    DeepPatch(hunk.ops);
    SingleCarrier(hash, "a", hunk.anchor);
    LandsExactly(hash, lines, [], 0, 0, hunk);
    assert [] + lines[0..] == lines;
    ApplyFails(hash, lines, lines, hunk, Panics);
  }

  lemma {:induction false} ApplyFails(
    hash: Hash, original: seq<string>, lines: seq<string>, hunk: Hunk, failure: Failure)
    requires ApplyOne(hash, original, lines, hunk) == Err(failure)
    ensures ApplyFrom(hash, original, lines, [hunk]) == Err(failure)
  {
    hide ApplyOne;
  }

  lemma {:induction false} SingleCarrier(hash: Hash, line: string, anchor: string)
    requires anchor == AnchorOf(hash, line)
    ensures Carriers(hash, [line], anchor, 1) == [0]
  {
    assert Carriers(hash, [line], anchor, 0) == [];
  }

  lemma {:induction false} DeepPatch(ops: seq<Op>)
    requires ops == [Keep("  a"), Add("\U{3000}b")]
    ensures FitsAt(["a"], 0, ops) && !Splices(["a"], 0, ops)
  {
    var text := "\U{3000}b";
    assert ops[1..] == [Add(text)] && ops[1..][1..] == [];
    assert Required(ops[1..]) == [];
    assert Required(ops) == ["  a"] + [];
    assert LeadingLength("a") == 0;
    assert "  a"[1..] == " a" && " a"[1..] == "a";
    assert LeadingLength(" a") == 1 && LeadingLength("  a") == 2;
    assert "  a"[..2] == "  ";
    SameBareWord();
    assert ["a"][0..] == ["a"];
    TwoBytes();
    assert IndentDelta(["a"], ops) == Strip(2);
    assert text[1..] == "b" && LeadingLength("b") == 0 && LeadingLength(text) == 1;
    ThreeBytes(text);
    assert !Cuts(text, Strip(2));
    assert ops[1].Add? && ops[1].text == text;
  }

  lemma {:induction false} SameBareWord()
    ensures SameWords("a", "  a")
  {
    assert "  a" == "  " + "a";
    HashlineText.SpaceBefore("  ", "a");
  }

  lemma {:induction false} TwoBytes()
    ensures Utf.ByteLen("  ") == 2 && Utf.ByteLen("") == 0
  {
    assert Utf.Offset("  ", 1) == 1;
  }

  lemma {:induction false} ThreeBytes(text: string)
    requires text == "\U{3000}b" && LeadingLength(text) == 1
    ensures CutBytes(text, 2) == 2 && !Utf.IsBoundary(text, 2)
  {
    assert text[..1] == "\U{3000}";
    assert Utf.Offset(text, 0) == 0;
    assert Utf.Utf8Len(text[0]) == 3 && Utf.Utf8Len(text[1]) == 1;
    assert Utf.Offset(text, 1) == 3;
    assert Utf.Offset(text, 2) == 4;
    Utf.OffsetOfPrefix(text, 1, 1);
  }
}
