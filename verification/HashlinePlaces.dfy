/** Which place of a file each way of locating a hunk finds. */
module HashlinePlaces {
  import opened Hashline
  import opened HashlineApply
  import opened Wrappers

  ghost predicate Carries(hash: Hash, lines: seq<string>, anchor: string, i: nat) {
    i < |lines| && AnchorOf(hash, lines[i]) == anchor
  }

  ghost predicate HasWords(lines: seq<string>, text: string, i: nat) {
    i < |lines| && SameWords(lines[i], text)
  }

  ghost predicate Ascends(places: seq<nat>) {
    forall a, b :: 0 <= a < b < |places| ==> places[a] < places[b]
  }

  lemma {:induction false} CarriersExact(hash: Hash, lines: seq<string>, anchor: string, n: nat)
    requires n <= |lines|
    ensures Ascends(Carriers(hash, lines, anchor, n))
    ensures forall i: nat :: i in Carriers(hash, lines, anchor, n) <==> i < n && Carries(hash, lines, anchor, i)
  {
    hide AnchorOf;
    if n > 0 {
      CarriersExact(hash, lines, anchor, n - 1);
    }
  }

  lemma {:induction false} TextHitsExact(current: seq<string>, text: string, n: nat)
    requires n <= |current|
    ensures Ascends(TextHits(current, text, n))
    ensures forall i: nat :: i in TextHits(current, text, n) <==> i < n && HasWords(current, text, i)
  {
    hide SameWords;
    if n > 0 {
      TextHitsExact(current, text, n - 1);
    }
  }

  lemma {:induction false} ContextHitsExact(current: seq<string>, ops: seq<Op>, n: nat)
    requires n <= |current| + 1
    ensures Ascends(ContextHits(current, ops, n))
    ensures forall p: nat :: p in ContextHits(current, ops, n) <==> p < n && FitsAt(current, p, ops)
  {
    hide FitsAt;
    if n > 0 {
      ContextHitsExact(current, ops, n - 1);
    }
  }

  /** `p` is the first of some places where the hunk fits. */
  ghost predicate IsFirst(current: seq<string>, ops: seq<Op>, place: nat -> bool, p: nat) {
    place(p) && FitsAt(current, p, ops) && forall q: nat :: q < p && place(q) ==> !FitsAt(current, q, ops)
  }

  ghost predicate IsNone(current: seq<string>, ops: seq<Op>, place: nat -> bool) {
    forall q: nat :: place(q) ==> !FitsAt(current, q, ops)
  }

  ghost predicate IsOnly(current: seq<string>, ops: seq<Op>, p: nat) {
    FitsAt(current, p, ops) && forall q: nat :: FitsAt(current, q, ops) ==> q == p
  }

  lemma {:induction false} FirstFitExact(current: seq<string>, places: seq<nat>, ops: seq<Op>, place: nat -> bool)
    requires Ascends(places) && forall p: nat :: p in places <==> place(p)
    requires forall k :: 0 <= k < |places| ==> places[k] <= |current|
    ensures var found := FirstFit(current, places, ops);
            if found == None then IsNone(current, ops, place) else IsFirst(current, ops, place, found.value)
  {
    hide FitsAt;
    FirstFitEarliest(current, places, ops);
  }

  lemma {:induction false} FirstFitEarliest(current: seq<string>, places: seq<nat>, ops: seq<Op>)
    requires Ascends(places) && forall k :: 0 <= k < |places| ==> places[k] <= |current|
    ensures var found := FirstFit(current, places, ops);
            found.Some? ==> forall q :: q in places && q < found.value ==> !FitsAt(current, q, ops)
  {
    hide FitsAt;
    if places != [] {
      FirstFitEarliest(current, places[1..], ops);
      assert forall q :: q in places ==> q == places[0] || q in places[1..];
    }
  }

  /**
    Recovery by text finds the first line with the words of the anchor's text
    where the hunk fits; failing that, context finds the one place where it fits
    at all, if there is one and the hunk demands anything.
   */
  lemma {:induction false} RecoveryMeans(current: seq<string>, hunk: Hunk)
    ensures var words := (i: nat) => hunk.anchorText.Some? && HasWords(current, hunk.anchorText.value, i);
            match Recover(current, hunk)
            case Ok((p, RecoveredByText)) => IsFirst(current, hunk.ops, words, p)
            case Ok((p, RecoveredByContext)) =>
              IsNone(current, hunk.ops, words) && Required(hunk.ops) != [] && IsOnly(current, hunk.ops, p)
            case Ok(_) => false
            case Err(error) =>
              && error == AnchorNotFound(hunk.anchor, hunk.anchorText) && IsNone(current, hunk.ops, words)
              && forall p :: Required(hunk.ops) != [] ==> !IsOnly(current, hunk.ops, p)
  {
    hide FitsAt, SameWords, HasWords, FirstFit, TextHits, ContextHits, Required;
    var words := (i: nat) => hunk.anchorText.Some? && HasWords(current, hunk.anchorText.value, i);
    if hunk.anchorText.Some? {
      var hits := TextHits(current, hunk.anchorText.value, |current|);
      TextHitsExact(current, hunk.anchorText.value, |current|);
      WordsInside(current, hunk.anchorText.value);
      FirstFitExact(current, hits, hunk.ops, words);
    }
    OneContextHit(current, hunk.ops);
  }

  lemma {:induction false} WordsInside(current: seq<string>, text: string)
    ensures forall i: nat :: HasWords(current, text, i) ==> i < |current|
  {
  }

  lemma {:induction false} OneContextHit(current: seq<string>, ops: seq<Op>)
    ensures var places := ContextHits(current, ops, |current| + 1);
            && (|places| == 1 ==> IsOnly(current, ops, places[0]))
            && forall p :: IsOnly(current, ops, p) ==> |places| == 1
  {
    hide ContextHits;
    var places := ContextHits(current, ops, |current| + 1);
    ContextHitsExact(current, ops, |current| + 1);
    if |places| == 1 {
      assert forall q :: q in places ==> q == places[0];
    }
    forall p | IsOnly(current, ops, p)
      ensures |places| == 1
    {
      assert p in places;
      if |places| > 1 {
        TwoDiffer(places);
      }
    }
  }

  lemma {:induction false} TwoDiffer(places: seq<nat>)
    requires Ascends(places) && |places| > 1
    ensures places[0] in places && places[1] in places && places[0] != places[1]
  {
  }

  /** Where the carrier `i` has drifted to, and the hunk fits there. */
  ghost predicate FitsDrifted(current: seq<string>, ops: seq<Op>, offset: int, i: nat) {
    FitsAt(current, Shift(i, offset, |current|), ops)
  }

  lemma {:induction false} ViableExact(current: seq<string>, candidates: seq<nat>, offset: int, ops: seq<Op>)
    requires Ascends(candidates)
    ensures var viable := Viable(current, candidates, offset, ops);
            && (viable == [] <==> forall i :: i in candidates ==> !FitsDrifted(current, ops, offset, i))
            && (|viable| == 1 ==>
                  exists i :: i in candidates && viable[0] == Shift(i, offset, |current|) &&
                    forall j :: j in candidates && FitsDrifted(current, ops, offset, j) ==> j == i)
            && (|viable| > 1 ==>
                  exists i, j :: i in candidates && j in candidates && i < j &&
                    FitsDrifted(current, ops, offset, i) && FitsDrifted(current, ops, offset, j))
  {
    hide *;
    NoneViable(current, candidates, offset, ops);
    if |Viable(current, candidates, offset, ops)| == 1 {
      OneViable(current, candidates, offset, ops);
    } else if |Viable(current, candidates, offset, ops)| > 1 {
      TwoViable(current, candidates, offset, ops);
    }
  }

  lemma {:induction false} NoneViable(current: seq<string>, candidates: seq<nat>, offset: int, ops: seq<Op>)
    ensures Viable(current, candidates, offset, ops) == []
            <==> forall i :: i in candidates ==> !FitsDrifted(current, ops, offset, i)
  {
    hide FitsAt, Shift;
    if candidates != [] {
      var n := |candidates| - 1;
      NoneViable(current, candidates[..n], offset, ops);
      assert candidates == candidates[..n] + [candidates[n]];
      assert forall i :: i in candidates <==> i in candidates[..n] || i == candidates[n];
      assert FitsDrifted(current, ops, offset, candidates[n])
             <==> FitsAt(current, Shift(candidates[n], offset, |current|), ops);
    }
  }

  lemma {:induction false} OneViable(current: seq<string>, candidates: seq<nat>, offset: int, ops: seq<Op>)
    requires |Viable(current, candidates, offset, ops)| == 1
    ensures exists i :: i in candidates && Viable(current, candidates, offset, ops)[0] == Shift(i, offset, |current|) &&
              forall j :: j in candidates && FitsDrifted(current, ops, offset, j) ==> j == i
  {
    hide FitsAt, Shift;
    var n := |candidates| - 1;
    var last, front := candidates[n], candidates[..n];
    assert candidates == front + [last];
    if FitsDrifted(current, ops, offset, last) {
      NoneViable(current, front, offset, ops);
      assert last in candidates;
    } else {
      OneViable(current, front, offset, ops);
    }
  }

  lemma {:induction false} TwoViable(current: seq<string>, candidates: seq<nat>, offset: int, ops: seq<Op>)
    requires Ascends(candidates) && |Viable(current, candidates, offset, ops)| > 1
    ensures exists i, j :: i in candidates && j in candidates && i < j &&
              FitsDrifted(current, ops, offset, i) && FitsDrifted(current, ops, offset, j)
  {
    hide FitsAt, Shift;
    var n := |candidates| - 1;
    var last, front := candidates[n], candidates[..n];
    assert candidates == front + [last];
    if FitsDrifted(current, ops, offset, last) {
      NoneViable(current, front, offset, ops);
      var i :| i in front && FitsDrifted(current, ops, offset, i);
      assert i in candidates && last in candidates && i < last;
    } else {
      TwoViable(current, front, offset, ops);
    }
  }

  /** One line of the original carries the anchor. */
  ghost predicate OnlyCarrier(hash: Hash, original: seq<string>, anchor: string, i: nat) {
    Carries(hash, original, anchor, i) && forall j: nat :: Carries(hash, original, anchor, j) ==> j == i
  }

  /** Several do, and of these `i` alone has drifted to a place where the hunk fits. */
  ghost predicate OnlyDrifted(
    hash: Hash, original: seq<string>, current: seq<string>, hunk: Hunk, offset: int, i: nat) {
    && Carries(hash, original, hunk.anchor, i) && !OnlyCarrier(hash, original, hunk.anchor, i)
    && FitsDrifted(current, hunk.ops, offset, i)
    && forall j: nat :: Carries(hash, original, hunk.anchor, j) && FitsDrifted(current, hunk.ops, offset, j) ==> j == i
  }

  /** No line that carried the anchor has drifted to a place where the hunk fits. */
  ghost predicate NoneDrifted(hash: Hash, original: seq<string>, current: seq<string>, hunk: Hunk, offset: int) {
    forall i: nat :: Carries(hash, original, hunk.anchor, i) ==> !FitsDrifted(current, hunk.ops, offset, i)
  }

  /**
    A hunk lands exactly where the one line with its anchor has drifted to, or
    else at the first line that carries the anchor now where it fits; of several
    such lines, where the only one has drifted to that it fits. Two that it fits
    are an error, and only with none is it recovered.
   */
  lemma {:induction false} LocationMeans(
    hash: Hash, original: seq<string>, current: seq<string>, hunk: Hunk, offset: int)
    ensures var live := (i: nat) => Carries(hash, current, hunk.anchor, i);
            var at := Location(hash, Carriers(hash, original, hunk.anchor, |original|), current, hunk, offset);
            match at
            case Ok((p, Exact)) =>
              exists i :: OnlyCarrier(hash, original, hunk.anchor, i) &&
                if FitsDrifted(current, hunk.ops, offset, i) then p == Shift(i, offset, |current|)
                else IsFirst(current, hunk.ops, live, p)
            case Ok((p, Disambiguated)) =>
              exists i :: OnlyDrifted(hash, original, current, hunk, offset, i) && p == Shift(i, offset, |current|)
            case Err(AmbiguousAnchor(_, _)) =>
              exists i: nat, j: nat ::
                && Carries(hash, original, hunk.anchor, i) && Carries(hash, original, hunk.anchor, j) && i < j
                && FitsDrifted(current, hunk.ops, offset, i) && FitsDrifted(current, hunk.ops, offset, j)
            case _ =>
              && at == Recover(current, hunk) && NoneDrifted(hash, original, current, hunk, offset)
              && ((exists i :: OnlyCarrier(hash, original, hunk.anchor, i)) ==> IsNone(current, hunk.ops, live))
  {
    hide FitsAt, Carries, Carriers, FirstFit, Viable, Shift, Recover;
    var candidates := Carriers(hash, original, hunk.anchor, |original|);
    CarriersExact(hash, original, hunk.anchor, |original|);
    CarriersInside(hash, original, hunk.anchor);
    RecoveryKinds(current, hunk);
    if |candidates| == 1 {
      assert candidates[0] in candidates;
      assert OnlyCarrier(hash, original, hunk.anchor, candidates[0]);
      LiveCarriers(hash, current, hunk);
    } else if |candidates| > 1 {
      TwoDiffer(candidates);
      ViableExact(current, candidates, offset, hunk.ops);
      ViableFit(current, candidates, offset, hunk.ops);
    }
  }

  lemma {:induction false} CarriersInside(hash: Hash, lines: seq<string>, anchor: string)
    ensures forall i: nat :: Carries(hash, lines, anchor, i) ==> i < |lines|
  {
  }

  lemma {:induction false} LiveCarriers(hash: Hash, current: seq<string>, hunk: Hunk)
    ensures var live := (i: nat) => Carries(hash, current, hunk.anchor, i);
            var found := FirstFit(current, Carriers(hash, current, hunk.anchor, |current|), hunk.ops);
            if found == None then IsNone(current, hunk.ops, live) else IsFirst(current, hunk.ops, live, found.value)
  {
    hide FitsAt, Carries, FirstFit, IsFirst, IsNone;
    var live := (i: nat) => Carries(hash, current, hunk.anchor, i);
    CarriersExact(hash, current, hunk.anchor, |current|);
    CarriersInside(hash, current, hunk.anchor);
    FirstFitExact(current, Carriers(hash, current, hunk.anchor, |current|), hunk.ops, live);
  }

  lemma {:induction false} RecoveryKinds(current: seq<string>, hunk: Hunk)
    ensures match Recover(current, hunk)
            case Ok((_, how)) => how == RecoveredByText || how == RecoveredByContext
            case Err(error) => error.AnchorNotFound?
  {
  }

  lemma {:induction false} ViableFit(current: seq<string>, candidates: seq<nat>, offset: int, ops: seq<Op>)
    ensures var viable := Viable(current, candidates, offset, ops);
            forall k :: 0 <= k < |viable| ==> FitsAt(current, viable[k], ops)
  {
  }
}
