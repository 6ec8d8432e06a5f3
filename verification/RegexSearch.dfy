/** Finding one match, finding all of them, and replacing them. */
module RegexSearch {
  import opened Wrappers
  import opened RegexModel
  import opened RegexMatcher
  import opened Decimal
  import Proofs = RegexProofs
  import Own = RegexCaptures
  import Groups = RegexGroups
  import Splice
  import Utf

  datatype Regex = Regex(alternatives: seq<Branch>, groupCount: nat, ignoreCase: bool)

  /** One match, as byte offsets; group 0 is the whole match. */
  datatype Match = Match(start: nat, end: nat, text: string, groups: seq<Option<string>>)

  function SubjectOf(re: Regex, tables: Tables, text: string): Subject {
    Subject(text, re.ignoreCase, tables)
  }

  function Blank(re: Regex): (blank: Captures)
    ensures |blank| > 0
  {
    seq(re.groupCount + 1, _ => None)
  }

  // ---- the leftmost match ----------------------------------------------------

  /** The first alternative, in order, that matches at `i`. */
  function RunAlts(s: Subject, alts: seq<Branch>, i: nat, blank: Captures): (o: Outcome)
    requires i <= |s.chars|
    ensures o.end.Some? ==> i <= o.end.value <= |s.chars|
  {
    if alts == [] then Outcome(None, blank)
    else
      var o := Run(s, alts[0].nodes, i, blank);
      if o.end.Some? then o else RunAlts(s, alts[1..], i, blank)
  }

  function AltsCost(s: Subject, alts: seq<Branch>, i: nat, blank: Captures): nat
    requires i <= |s.chars|
  {
    if alts == [] then 0
    else
      RunCost(s, alts[0].nodes, i, blank)
      + if Run(s, alts[0].nodes, i, blank).end.Some? then 0 else AltsCost(s, alts[1..], i, blank)
  }

  function OutcomeAt(re: Regex, tables: Tables, text: string, i: nat): (o: Outcome)
    requires i <= |text|
    ensures o.end.Some? ==> i <= o.end.value <= |text|
  {
    RunAlts(SubjectOf(re, tables, text), re.alternatives, i, Blank(re))
  }

  function EndAt(re: Regex, tables: Tables, text: string, i: nat): (end: Option<nat>)
    requires i <= |text|
    ensures end.Some? ==> i <= end.value <= |text|
  {
    OutcomeAt(re, tables, text, i).end
  }

  function CostAt(re: Regex, tables: Tables, text: string, i: nat): nat
    requires i <= |text|
  {
    AltsCost(SubjectOf(re, tables, text), re.alternatives, i, Blank(re))
  }

  /** The leftmost match starting at character `i` or later. */
  function Leftmost(re: Regex, tables: Tables, text: string, i: nat): (span: Option<(nat, nat)>)
    requires i <= |text|
    ensures span.Some? ==> i <= span.value.0 <= span.value.1 <= |text|
                           && EndAt(re, tables, text, span.value.0) == Some(span.value.1)
    ensures span.Some? ==> forall k :: i <= k < span.value.0 ==> EndAt(re, tables, text, k) == None
    ensures span == None ==> forall k :: i <= k <= |text| ==> EndAt(re, tables, text, k) == None
    decreases |text| - i
  {
    var end := EndAt(re, tables, text, i);
    if end.Some? then Some((i, end.value))
    else if i == |text| then None
    else Leftmost(re, tables, text, i + 1)
  }

  /** The steps the engine counts on the way to that match, or to finding none. */
  function SearchCost(re: Regex, tables: Tables, text: string, i: nat): nat
    requires i <= |text|
    decreases |text| - i
  {
    CostAt(re, tables, text, i)
    + if EndAt(re, tables, text, i).Some? || i == |text| then 0 else SearchCost(re, tables, text, i + 1)
  }

  /** The match a search from character `i` reports: the leftmost one, if the budget reaches that far. */
  function Found(re: Regex, tables: Tables, text: string, i: nat): (span: Option<(nat, nat)>)
    requires i <= |text|
    ensures span.Some? ==> i <= span.value.0 <= span.value.1 <= |text|
                           && EndAt(re, tables, text, span.value.0) == Some(span.value.1)
  {
    if SearchCost(re, tables, text, i) > STEP_BUDGET then None else Leftmost(re, tables, text, i)
  }

  lemma {:induction false} AltsSound(s: Subject, alts: seq<Branch>, i: nat, blank: Captures)
    requires i <= |s.chars|
    ensures var o := RunAlts(s, alts, i, blank);
            o.end.Some? ==> AnyMatches(s, alts, i, o.end.value)
  {
    if alts != [] {
      Proofs.RunSound(s, alts[0].nodes, i, blank);
      AltsSound(s, alts[1..], i, blank);
      var o := RunAlts(s, alts, i, blank);
      if o.end.Some? && Run(s, alts[0].nodes, i, blank).end == None {
        var a :| 0 <= a < |alts[1..]| && SeqMatches(s, alts[1..][a].nodes, i, o.end.value);
        assert alts[1..][a] == alts[a + 1];
      }
    }
  }

  lemma {:induction false} AltsComplete(s: Subject, alts: seq<Branch>, a: nat, i: nat, j: nat, blank: Captures)
    requires a < |alts| && i <= j <= |s.chars| && SeqMatches(s, alts[a].nodes, i, j)
    requires forall k :: 0 <= k < |alts| ==> Proofs.SeqReliable(alts[k].nodes)
    ensures RunAlts(s, alts, i, blank).end.Some?
  {
    if a == 0 {
      Proofs.RunComplete(s, alts[0].nodes, i, j, blank);
    } else {
      AltsComplete(s, alts[1..], a - 1, i, j, blank);
    }
  }

  ghost predicate ReliablePattern(re: Regex) {
    forall k :: 0 <= k < |re.alternatives| ==> Proofs.SeqReliable(re.alternatives[k].nodes)
  }

  /**
    A reported match is in the language of the pattern; and for a reliable
    pattern `Leftmost` finds one exactly when the language has one at or after
    `i`, and then at the earliest start there is.
   */
  lemma {:induction false} LeftmostIsLeftmost(re: Regex, tables: Tables, text: string, i: nat)
    requires i <= |text|
    ensures var s := SubjectOf(re, tables, text);
            var found := Leftmost(re, tables, text, i);
            (found.Some? ==> AnyMatches(s, re.alternatives, found.value.0, found.value.1)) &&
            (ReliablePattern(re) ==>
               forall k, j: nat {:trigger AnyMatches(s, re.alternatives, k, j)} ::
                   i <= k <= j <= |text| && AnyMatches(s, re.alternatives, k, j) ==> found.Some? && found.value.0 <= k)
  {
    var s := SubjectOf(re, tables, text);
    var found := Leftmost(re, tables, text, i);
    if found.Some? {
      AltsSound(s, re.alternatives, found.value.0, Blank(re));
    }
    forall k, j: nat | ReliablePattern(re) && i <= k <= j <= |text| && AnyMatches(s, re.alternatives, k, j)
      ensures found.Some? && found.value.0 <= k
    {
      var a :| 0 <= a < |re.alternatives| && SeqMatches(s, re.alternatives[a].nodes, k, j);
      AltsComplete(s, re.alternatives, a, k, j, Blank(re));
      assert EndAt(re, tables, text, k).Some?;
    }
  }

  // ---- what a match reports --------------------------------------------------

  /** Every filled slot is a span of the text. */
  ghost predicate Spans(text: string, captures: Captures) {
    forall k :: 0 <= k < |captures| ==> captures[k].Some? ==>
                          captures[k].value.0 <= captures[k].value.1 &&
                          Utf.IsBoundary(text, captures[k].value.0) && Utf.IsBoundary(text, captures[k].value.1)
  }

  ghost function Texts(text: string, captures: Captures): seq<Option<string>>
    requires Spans(text, captures)
  {
    seq(|captures|, k requires 0 <= k < |captures| =>
      if captures[k] == None then None
      else Some(Utf.ByteSlice(text, captures[k].value.0, captures[k].value.1)))
  }

  lemma {:induction false} AltsKeep(s: Subject, groups: set<Node>, alts: seq<Branch>, i: nat, blank: Captures)
    requires i <= |s.chars| && Own.OwnMatches(s, groups, blank) && Own.AltsGroups(alts) <= groups
    ensures Own.Kept(s, groups, blank, RunAlts(s, alts, i, blank).captures)
  {
    if alts != [] {
      Own.RunKeeps(s, groups, alts[0].nodes, i, blank);
      AltsKeep(s, groups, alts[1..], i, blank);
    }
  }

  /** The captures of a match: those of the search, and the whole match in slot 0. */
  ghost function CapturesOf(re: Regex, tables: Tables, text: string, span: (nat, nat)): (captures: Captures)
    requires span.0 <= span.1 <= |text|
    ensures |captures| == re.groupCount + 1 && Spans(text, captures)
  {
    CapturesAreSpans(re, tables, text, span);
    OutcomeAt(re, tables, text, span.0).captures[0 := Some((Utf.Offset(text, span.0), Utf.Offset(text, span.1)))]
  }

  lemma {:induction false} CapturesAreSpans(re: Regex, tables: Tables, text: string, span: (nat, nat))
    requires span.0 <= span.1 <= |text|
    ensures var captures := OutcomeAt(re, tables, text, span.0).captures;
            && |captures| == re.groupCount + 1
            && Own.OwnMatches(SubjectOf(re, tables, text), Own.AltsGroups(re.alternatives), captures)
            && Spans(text, captures[0 := Some((Utf.Offset(text, span.0), Utf.Offset(text, span.1)))])
  {
    var s, groups := SubjectOf(re, tables, text), Own.AltsGroups(re.alternatives);
    AltsKeep(s, groups, re.alternatives, span.0, Blank(re));
    var captures := OutcomeAt(re, tables, text, span.0).captures;
    Utf.SliceIsChars(text, span.0, span.1);
    forall k | 0 < k < |captures| && captures[k].Some?
      ensures captures[k].value.0 <= captures[k].value.1 && Utf.IsBoundary(text, captures[k].value.0)
              && Utf.IsBoundary(text, captures[k].value.1)
    {
      assert Own.OwnMatch(s, groups, k, captures[k]);
      var g, i, j := SpanOwner(s, groups, k, captures[k]);
    }
  }

  ghost function HitAt(re: Regex, tables: Tables, text: string, span: (nat, nat)): (hit: Match)
    requires span.0 <= span.1 <= |text|
    ensures |hit.groups| == re.groupCount + 1
  {
    Match(Utf.Offset(text, span.0), Utf.Offset(text, span.1), text[span.0..span.1],
      Texts(text, CapturesOf(re, tables, text, span)))
  }

  /**
    Group 0 is the whole match, and the text of any other group is what some
    match of a group of that number, itself part of the pattern, covers.
   */
  lemma {:induction false} GroupsAreOwnMatches(re: Regex, tables: Tables, text: string, span: (nat, nat), k: nat)
    requires span.0 <= span.1 <= |text| && k <= re.groupCount
    ensures var group := HitAt(re, tables, text, span).groups[k];
            if k == 0 then group == Some(text[span.0..span.1])
            else group.Some? ==>
                   exists g, i: nat, j: nat ::
                     g in Own.AltsGroups(re.alternatives) && g.Group? && g.index == Some(k) && i <= j <= |text| &&
                     NodeMatches(SubjectOf(re, tables, text), g, i, j) && group.value == text[i..j]
  {
    hide NodeMatches, Utf.ByteSlice, Own.OwnMatch, RunAlts;
    var s, groups := SubjectOf(re, tables, text), Own.AltsGroups(re.alternatives);
    var captures := CapturesOf(re, tables, text, span);
    CapturesAreSpans(re, tables, text, span);
    Utf.SliceIsChars(text, span.0, span.1);
    if k > 0 && captures[k].Some? {
      assert Own.OwnMatch(s, groups, k, captures[k]);
      var g, i, j := SpanOwner(s, groups, k, captures[k]);
    }
  }

  /** The group that owns a filled slot, and its match there. */
  lemma {:induction false} SpanOwner(
    s: Subject, groups: set<Node>, k: nat, span: Option<(nat, nat)>) returns (g: Node, i: nat, j: nat)
    requires Own.OwnMatch(s, groups, k, span) && span.Some?
    ensures g in groups && g.Group? && g.index == Some(k) && i <= j <= |s.chars| && NodeMatches(s, g, i, j)
    ensures span.value.0 <= span.value.1 && Utf.IsBoundary(s.chars, span.value.0)
            && Utf.IsBoundary(s.chars, span.value.1)
    ensures Utf.ByteSlice(s.chars, span.value.0, span.value.1) == s.chars[i..j]
  {
    hide NodeMatches, Utf.ByteSlice;
    g :| g in groups && g.Group? && g.index == Some(k) && Own.Spanned(s, g, span.value);
    i, j :| i <= j <= |s.chars| && NodeMatches(s, g, i, j)
      && span.value == (Utf.Offset(s.chars, i), Utf.Offset(s.chars, j));
    Utf.SliceIsChars(s.chars, i, j);
  }

  // ---- which spans the groups report --------------------------------------------

  /** The first alternative that matches, and what it leaves in the slots. */
  lemma {:induction false} AltsLead(s: Subject, alts: seq<Branch>, i: nat, blank: Captures) returns (a: nat)
    requires i <= |s.chars| && RunAlts(s, alts, i, blank).end.Some?
    ensures var o := RunAlts(s, alts, i, blank);
            a < |alts| && Groups.SeqLeads(s, alts[a].nodes, i, blank, o.end.value, o.captures)
    ensures forall b :: 0 <= b < a ==> Run(s, alts[b].nodes, i, blank).end == None
  {
    hide Run, Groups.SeqLeads;
    Groups.RunLeads(s, alts[0].nodes, i, blank);
    if Run(s, alts[0].nodes, i, blank).end.Some? {
      a := 0;
    } else {
      var later := AltsLead(s, alts[1..], i, blank);
      a := later + 1;
      forall b | 0 < b < a
        ensures Run(s, alts[b].nodes, i, blank).end == None
      {
        assert alts[b] == alts[1..][b - 1];
      }
    }
  }

  ghost predicate IsMatch(re: Regex, tables: Tables, text: string, span: (nat, nat)) {
    span.0 <= span.1 <= |text| && EndAt(re, tables, text, span.0) == Some(span.1)
  }

  /**
    A reported group reads the slot of its number, filled by a match of one alternative
    from the start of the span to its end.
   */
  lemma {:induction false} GroupsReadSlots(
    re: Regex, tables: Tables, text: string, span: (nat, nat)) returns (a: nat, d: Captures)
    requires IsMatch(re, tables, text, span)
    ensures a < |re.alternatives| && |d| == re.groupCount + 1
    ensures Groups.SeqLeads(SubjectOf(re, tables, text), re.alternatives[a].nodes, span.0, Blank(re), span.1, d)
    ensures forall k :: 0 < k < |d| && d[k] == None ==> HitAt(re, tables, text, span).groups[k] == None
    ensures forall k, i: nat, j: nat :: 0 < k < |d| && Groups.IsSpan(SubjectOf(re, tables, text), d[k], i, j)
              ==> HitAt(re, tables, text, span).groups[k] == Some(text[i..j])
  {
    hide RunAlts, Groups.SeqLeads, Utf.ByteSlice, Own.OwnMatches, Own.AltsGroups;
    var s := SubjectOf(re, tables, text);
    a := AltsLead(s, re.alternatives, span.0, Blank(re));
    d := OutcomeAt(re, tables, text, span.0).captures;
    CapturesAreSpans(re, tables, text, span);
    forall k, i: nat, j: nat | 0 < k < |d| && Groups.IsSpan(s, d[k], i, j)
      ensures HitAt(re, tables, text, span).groups[k] == Some(text[i..j])
    {
      Utf.SliceIsChars(text, i, j);
    }
  }

  /**
    Every group of a match reports the text of a span where a group of its number
    took part in a match of the whole pattern; only a group that the alternative
    can do without reports nothing.
   */
  lemma {:induction false} GroupsTookPart(re: Regex, tables: Tables, text: string, span: (nat, nat)) returns (a: nat)
    requires IsMatch(re, tables, text, span)
    ensures a < |re.alternatives|
    ensures var s, nodes := SubjectOf(re, tables, text), re.alternatives[a].nodes;
            && SeqMatches(s, nodes, span.0, span.1)
            && forall k :: 0 < k <= re.groupCount ==>
                 var group := HitAt(re, tables, text, span).groups[k];
                 if group == None then !Groups.SeqAlways(nodes, k)
                 else exists p: nat, q: nat ::
                        p <= q <= |text| && group.value == text[p..q]
                        && Groups.SeqThrough(s, nodes, span.0, span.1, k, p, q)
  {
    hide SeqMatches, Groups.SeqLeads, Groups.SeqThrough, Groups.SeqAlways, HitAt;
    var d;
    a, d := GroupsReadSlots(re, tables, text, span);
    var s, nodes := SubjectOf(re, tables, text), re.alternatives[a].nodes;
    Groups.SeqLeadsMatches(s, nodes, span.0, Blank(re), span.1, d);
    forall k | 0 < k <= re.groupCount
      ensures var group := HitAt(re, tables, text, span).groups[k];
              if group == None then !Groups.SeqAlways(nodes, k)
              else exists p: nat, q: nat ::
                     p <= q <= |text| && group.value == text[p..q]
                     && Groups.SeqThrough(s, nodes, span.0, span.1, k, p, q)
    {
      Groups.GroupsAreFilled(s, nodes, span.0, Blank(re), span.1, d, k);
      if p: nat, q: nat :| Groups.IsSpan(s, d[k], p, q)
                           && Groups.SeqThrough(s, nodes, span.0, span.1, k, p, q) {
        assert HitAt(re, tables, text, span).groups[k] == Some(text[p..q]);
      }
    }
  }

  /**
    A group that stands in a pattern of one alternative, with no group of its
    number after it, reports the text between what matched before it and what
    matched after it.
   */
  lemma {:induction false} GroupIsReported(
    re: Regex, tables: Tables, text: string, span: (nat, nat), before: seq<Node>, alts: seq<Branch>, k: nat,
    after: seq<Node>) returns (from: nat, upTo: nat)
    requires IsMatch(re, tables, text, span) && 0 < k <= re.groupCount
    requires re.alternatives == [Branch(before + [Group(alts, Some(k))] + after)] && k !in Groups.Numbers(after)
    ensures span.0 <= from <= upTo <= span.1
    ensures var s := SubjectOf(re, tables, text);
            SeqMatches(s, before, span.0, from) && AnyMatches(s, alts, from, upTo) && SeqMatches(s, after, upTo, span.1)
    ensures HitAt(re, tables, text, span).groups[k] == Some(text[from..upTo])
  {
    hide SeqMatches, Groups.SeqLeads, AnyMatches, HitAt, Groups.Numbers;
    var a, d := GroupsReadSlots(re, tables, text, span);
    var s := SubjectOf(re, tables, text);
    from, upTo := Groups.GroupIsRecorded(s, before, alts, k, after, span.0, Blank(re), span.1, d);
    assert Groups.IsSpan(s, d[k], from, upTo);
  }

  ghost function Reported(re: Regex, tables: Tables, text: string, span: Option<(nat, nat)>): Option<Match>
    requires span.Some? ==> span.value.0 <= span.value.1 <= |text|
  {
    if span == None then None else Some(HitAt(re, tables, text, span.value))
  }

  method GroupTexts(text: string, captures: Captures) returns (groups: seq<Option<string>>)
    requires Spans(text, captures)
    ensures groups == Texts(text, captures)
  {
    groups := [];
    for k := 0 to |captures|
      invariant groups == Texts(text, captures)[..k]
    {
      var group := None;
      if captures[k].Some? {
        group := Some(Utf.ByteSlice(text, captures[k].value.0, captures[k].value.1));
      }
      assert Texts(text, captures)[k] == group;
      groups := groups + [group];
    }
  }

  /**
    The leftmost match at or after byte `from`, reported exactly when the steps
    of the search fit the budget.
   */
  method FindFrom(re: Regex, tables: Tables, text: string, from: nat) returns (found: Option<Match>)
    ensures found == Reported(re, tables, text, Found(re, tables, text, Utf.FirstAt(text, from)))
  {
    hide CostAt, EndAt, HitAt;
    var subject := SubjectOf(re, tables, text);
    var matcher := new Matcher(subject);
    var first := Utf.FirstAt(text, from);
    for index := first to |text| + 1
      invariant !matcher.Spent()
      invariant if index > |text| then matcher.steps == SearchCost(re, tables, text, first)
                && Leftmost(re, tables, text, first) == None
                else matcher.steps + SearchCost(re, tables, text, index) == SearchCost(re, tables, text, first)
                     && Leftmost(re, tables, text, index) == Leftmost(re, tables, text, first)
    {
      var captures := new Slots(Blank(re));
      var end := FirstAlternative(re, tables, text, matcher, index, captures);
      if end.Some? {
        var hit := MatchAt(re, tables, text, index, end.value, captures);
        return Some(hit);
      }
      if matcher.steps > STEP_BUDGET {
        return None;
      }
    }
    return None;
  }

  method MatchAt(re: Regex, tables: Tables, text: string, index: nat, end: nat, captures: Slots) returns (hit: Match)
    requires index <= end <= |text| && captures.slots == OutcomeAt(re, tables, text, index).captures
    modifies captures
    ensures hit == HitAt(re, tables, text, (index, end))
  {
    var start, stop := Utf.Offset(text, index), Utf.Offset(text, end);
    CapturesAreSpans(re, tables, text, (index, end));
    Utf.SliceIsChars(text, index, end);
    captures.slots := captures.slots[0 := Some((start, stop))];
    var groups := GroupTexts(text, captures.slots);
    hit := Match(start, stop, Utf.ByteSlice(text, start, stop), groups);
  }

  /** The loop over alternatives, with every slot cleared between two of them. */
  method FirstAlternative(re: Regex, tables: Tables, text: string, matcher: Matcher, index: nat, captures: Slots)
    returns (end: Option<nat>)
    requires matcher.subject == SubjectOf(re, tables, text) && index <= |text| && captures.slots == Blank(re)
    modifies matcher`steps, captures
    ensures matcher.Paid(old(matcher.steps), CostAt(re, tables, text, index))
    ensures if matcher.Spent() then end == None else end == EndAt(re, tables, text, index)
    ensures end.Some? ==> captures.slots == OutcomeAt(re, tables, text, index).captures
  {
    ghost var s, blank := matcher.subject, Blank(re);
    for a := 0 to |re.alternatives|
      invariant captures.slots == blank
      invariant matcher.Paying(old(matcher.steps), CostAt(re, tables, text, index),
                AltsCost(s, re.alternatives[a..], index, blank))
      invariant !matcher.Spent()
                ==> RunAlts(s, re.alternatives[a..], index, blank) == RunAlts(s, re.alternatives, index, blank)
    {
      end := matcher.MatchSequence(re.alternatives[a].nodes, index, captures);
      if end.Some? {
        return end;
      }
      captures.slots := Blank(re);
      assert re.alternatives[a..][1..] == re.alternatives[a + 1..];
    }
    return None;
  }

  // ---- every match -------------------------------------------------------------

  /** Where the scan resumes after a match: past it, or one character on when it is empty. */
  function Resume(span: (nat, nat)): nat {
    if span.1 > span.0 then span.1 else span.1 + 1
  }

  /** Every match from character `i` on, as a scan with no budget meets them. */
  function AllFrom(re: Regex, tables: Tables, text: string, i: nat): (spans: seq<(nat, nat)>)
    decreases |text| + 1 - i
  {
    if i > |text| then []
    else
      var hit := Leftmost(re, tables, text, i);
      if hit == None then [] else [hit.value] + AllFrom(re, tables, text, Resume(hit.value))
  }

  /** The matches the scan reports: each search has a budget of its own. */
  function AllFound(re: Regex, tables: Tables, text: string, i: nat): (spans: seq<(nat, nat)>)
    decreases |text| + 1 - i
  {
    if i > |text| then []
    else
      var hit := Found(re, tables, text, i);
      if hit == None then [] else [hit.value] + AllFound(re, tables, text, Resume(hit.value))
  }

  /** The scan from `i` comes to a match that its search cannot afford to reach. */
  predicate GivesUp(re: Regex, tables: Tables, text: string, i: nat)
    decreases |text| + 1 - i
  {
    i <= |text| && Leftmost(re, tables, text, i).Some? &&
    (SearchCost(re, tables, text, i) > STEP_BUDGET
      || GivesUp(re, tables, text, Resume(Leftmost(re, tables, text, i).value)))
  }

  /** The budget only ever cuts the list of matches short, and exactly when the scan gives up. */
  lemma {:induction false} AllFoundIsPrefix(re: Regex, tables: Tables, text: string, i: nat)
    ensures AllFound(re, tables, text, i) <= AllFrom(re, tables, text, i)
    ensures AllFound(re, tables, text, i) == AllFrom(re, tables, text, i) <==> !GivesUp(re, tables, text, i)
    decreases |text| + 1 - i
  {
    if i <= |text| && Found(re, tables, text, i).Some? {
      AllFoundIsPrefix(re, tables, text, Resume(Found(re, tables, text, i).value));
    }
  }

  /** Matches come in ascending order and do not overlap, and there is at most one more than characters. */
  ghost predicate Disjoint(text: string, spans: seq<(nat, nat)>) {
    && (forall a :: 0 <= a < |spans| ==> spans[a].0 <= spans[a].1 <= |text|)
    && forall a, b :: 0 <= a < b < |spans| ==> spans[a].0 < spans[b].0 && spans[a].1 <= spans[b].0
  }

  lemma {:induction false} AllDisjoint(re: Regex, tables: Tables, text: string, i: nat)
    ensures var spans := AllFound(re, tables, text, i);
            Disjoint(text, spans) && (forall a :: 0 <= a < |spans| ==> i <= spans[a].0)
              && (i <= |text| ==> |spans| <= |text| + 1 - i)
    decreases |text| + 1 - i
  {
    if i <= |text| {
      var hit := Found(re, tables, text, i);
      if hit.Some? {
        AllDisjoint(re, tables, text, Resume(hit.value));
        DisjointCons(text, hit.value, AllFound(re, tables, text, Resume(hit.value)));
      }
    }
  }

  lemma {:induction false} DisjointCons(text: string, span: (nat, nat), further: seq<(nat, nat)>)
    requires span.0 <= span.1 <= |text| && Disjoint(text, further)
    requires forall a :: 0 <= a < |further| ==> Resume(span) <= further[a].0
    ensures Disjoint(text, [span] + further)
  {
    var spans := [span] + further;
    forall a, b | 0 <= a < b < |spans|
      ensures spans[a].0 < spans[b].0 && spans[a].1 <= spans[b].0
    {
      assert spans[b] == further[b - 1];
      assert a > 0 ==> spans[a] == further[a - 1];
    }
  }

  /**
    Nothing is missed unless the scan gives up: a start where the pattern
    matches is a reported one, or lies inside a reported match.
   */
  lemma {:induction false} AllCover(re: Regex, tables: Tables, text: string, i: nat, k: nat)
    requires i <= k <= |text| && EndAt(re, tables, text, k).Some? && !GivesUp(re, tables, text, i)
    ensures exists a :: 0 <= a < |AllFound(re, tables, text, i)| &&
                        (AllFound(re, tables, text, i)[a].0 == k
                          || AllFound(re, tables, text, i)[a].0 < k < AllFound(re, tables, text, i)[a].1)
    decreases |text| + 1 - i
  {
    var spans := AllFound(re, tables, text, i);
    var hit := Found(re, tables, text, i);
    assert spans[0] == hit.value;
    if Resume(hit.value) <= k {
      AllCover(re, tables, text, Resume(hit.value), k);
      var further := AllFound(re, tables, text, Resume(hit.value));
      var a :| 0 <= a < |further| && (further[a].0 == k || further[a].0 < k < further[a].1);
      assert spans[a + 1] == further[a];
    }
  }

  ghost function Hits(re: Regex, tables: Tables, text: string, spans: seq<(nat, nat)>): (hits: seq<Match>)
    requires Disjoint(text, spans)
    ensures |hits| == |spans|
  {
    seq(|spans|, a requires 0 <= a < |spans| => HitAt(re, tables, text, spans[a]))
  }

  /** The next character boundary after byte `from`. */
  method NextCharBoundary(text: string, from: nat) returns (index: nat)
    ensures index > from
    ensures index < Utf.ByteLen(text) ==> Utf.IsBoundary(text, index)
    ensures forall b :: from < b < index && b < Utf.ByteLen(text) ==> !Utf.IsBoundary(text, b)
    ensures index > Utf.ByteLen(text) ==> index == from + 1
  {
    index := from + 1;
    while index < Utf.ByteLen(text) && !Utf.IsBoundary(text, index)
      invariant index > from
      invariant forall b :: from < b < index && b < Utf.ByteLen(text) ==> !Utf.IsBoundary(text, b)
      invariant index > Utf.ByteLen(text) ==> index == from + 1
    {
      index := index + 1;
    }
  }

  /** Scanning from byte `position` is scanning from character `i`. */
  ghost predicate AtChar(text: string, position: nat, i: nat) {
    if i <= |text| then position == Utf.Offset(text, i) else position > Utf.ByteLen(text)
  }

  lemma {:induction false} NextBoundaryIsNextChar(text: string, j: nat, next: nat)
    requires j <= |text| && next > Utf.Offset(text, j)
    requires next < Utf.ByteLen(text) ==> Utf.IsBoundary(text, next)
    requires forall b :: Utf.Offset(text, j) < b < next && b < Utf.ByteLen(text) ==> !Utf.IsBoundary(text, b)
    requires next > Utf.ByteLen(text) ==> next == Utf.Offset(text, j) + 1
    ensures AtChar(text, next, j + 1)
  {
    if j < |text| {
      var after := Utf.Offset(text, j + 1);
      Utf.OffsetIncreases(text, j, j + 1);
      if j + 1 < |text| {
        Utf.OffsetIncreases(text, j + 1, |text|);
      }
      assert Utf.IsBoundary(text, after);
      if next < Utf.ByteLen(text) {
        var k :| 0 <= k <= |text| && Utf.Offset(text, k) == next;
        if k <= j {
          if k < j {
            Utf.OffsetIncreases(text, k, j);
          }
        } else if k > j + 1 {
          Utf.OffsetIncreases(text, j + 1, k);
        }
      }
    }
  }

  /** After reporting `spans`, the scan stands at character `i`. */
  ghost predicate Scanned(re: Regex, tables: Tables, text: string, hits: seq<Match>, spans: seq<(nat, nat)>, i: nat) {
    Disjoint(text, spans) && hits == Hits(re, tables, text, spans)
      && AllFound(re, tables, text, 0) == spans + AllFound(re, tables, text, i)
  }

  lemma {:induction false} ScanStep(
    re: Regex, tables: Tables, text: string, hits: seq<Match>, spans: seq<(nat, nat)>, i: nat, hit: Match)
    requires i <= |text| && Scanned(re, tables, text, hits, spans, i)
    requires Found(re, tables, text, i).Some? && hit == HitAt(re, tables, text, Found(re, tables, text, i).value)
    ensures var span := Found(re, tables, text, i).value;
            i < Resume(span) && Scanned(re, tables, text, hits + [hit], spans + [span], Resume(span))
  {
    hide HitAt, Found;
    var span := Found(re, tables, text, i).value;
    var further := AllFound(re, tables, text, Resume(span));
    assert AllFound(re, tables, text, i) == [span] + further;
    assert spans + ([span] + further) == (spans + [span]) + further;
    AllDisjoint(re, tables, text, 0);
    DisjointPrefix(text, spans + [span], AllFound(re, tables, text, 0));
  }

  lemma {:induction false} ScanBegins(re: Regex, tables: Tables, text: string)
    ensures Scanned(re, tables, text, [], [], 0) && AtChar(text, 0, 0)
  {
  }

  /** Every non-overlapping match, left to right. */
  method FindAll(re: Regex, tables: Tables, text: string) returns (hits: seq<Match>)
    ensures var spans := AllFound(re, tables, text, 0);
            Disjoint(text, spans) && hits == Hits(re, tables, text, spans) && |hits| <= |text| + 1
  {
    hide *;
    hits := [];
    var position: nat := 0;
    ghost var i: nat, spans: seq<(nat, nat)> := 0, [];
    ScanBegins(re, tables, text);
    while position <= Utf.ByteLen(text)
      invariant Scanned(re, tables, text, hits, spans, i)
      invariant AtChar(text, position, i)
      decreases |text| + 1 - i
    {
      ResumeInside(text, position, i);
      var hit := FindFrom(re, tables, text, position);
      if hit == None {
        ScanEnds(re, tables, text, hits, spans, i);
        return;
      }
      ghost var span := FoundReported(re, tables, text, i);
      position := NextPosition(re, tables, text, hit.value, span);
      ScanStep(re, tables, text, hits, spans, i, hit.value);
      i := Resume(span);
      hits := hits + [hit.value];
      spans := spans + [span];
    }
    PastTheEnd(text, position, i);
    ScanEnds(re, tables, text, hits, spans, i);
  }

  lemma {:induction false} FoundReported(re: Regex, tables: Tables, text: string, i: nat) returns (span: (nat, nat))
    requires i <= |text| && Reported(re, tables, text, Found(re, tables, text, i)).Some?
    ensures Found(re, tables, text, i) == Some(span) && span.0 <= span.1 <= |text|
    ensures Reported(re, tables, text, Found(re, tables, text, i)).value == HitAt(re, tables, text, span)
  {
    span := Found(re, tables, text, i).value;
  }

  lemma {:induction false} ScanEnds(
    re: Regex, tables: Tables, text: string, hits: seq<Match>, spans: seq<(nat, nat)>, i: nat)
    requires Scanned(re, tables, text, hits, spans, i)
    requires i > |text| || Reported(re, tables, text, Found(re, tables, text, i)) == None
    ensures spans == AllFound(re, tables, text, 0) && Disjoint(text, spans) && hits == Hits(re, tables, text, spans)
            && |hits| <= |text| + 1
  {
    AllDisjoint(re, tables, text, 0);
  }

  lemma {:induction false} DisjointPrefix(text: string, spans: seq<(nat, nat)>, all: seq<(nat, nat)>)
    requires spans <= all && Disjoint(text, all)
    ensures Disjoint(text, spans)
  {
    forall a, b | 0 <= a < b < |spans|
      ensures spans[a].0 < spans[b].0 && spans[a].1 <= spans[b].0
    {
      assert all[a].0 < all[b].0 && all[a].1 <= all[b].0;
    }
  }

  lemma {:induction false} PastTheEnd(text: string, position: nat, i: nat)
    requires AtChar(text, position, i)
    ensures position > Utf.ByteLen(text) <==> i > |text|
  {
    if i < |text| {
      Utf.OffsetIncreases(text, i, |text|);
    }
  }

  /** Past the match, or one character on when it is empty: without that the scan would not advance. */
  method NextPosition(
    re: Regex, tables: Tables, text: string, hit: Match, ghost span: (nat, nat)) returns (position: nat)
    requires span.0 <= span.1 <= |text| && hit == HitAt(re, tables, text, span)
    ensures AtChar(text, position, Resume(span))
  {
    if span.1 > span.0 {
      Utf.OffsetIncreases(text, span.0, span.1);
    }
    if hit.end > hit.start {
      position := hit.end;
    } else {
      position := NextCharBoundary(text, hit.end);
      NextBoundaryIsNextChar(text, span.1, position);
    }
  }

  lemma {:induction false} ResumeInside(text: string, position: nat, i: nat)
    requires AtChar(text, position, i) && position <= Utf.ByteLen(text)
    ensures i <= |text| && Utf.FirstAt(text, position) == i
  {
    Utf.FirstAtBoundary(text, i);
  }

  // ---- replacement ---------------------------------------------------------------

  function GroupText(hit: Match, index: nat): string {
    if index < |hit.groups| && hit.groups[index].Some? then hit.groups[index].value else ""
  }

  /** The text that one unit of a replacement stands for, and how many characters it takes. */
  function ExpandUnit(replacement: string, hit: Match): (unit: (string, nat))
    requires replacement != ""
    ensures 1 <= unit.1 <= |replacement|
  {
    var c := replacement[0];
    if (c == '$' || c == '\\') && |replacement| > 1 && IsDigit(replacement[1]) then
      (GroupText(hit, replacement[1] as int - '0' as int), 2)
    else if c == '\\' && |replacement| > 1 then
      var next := replacement[1];
      ([if next == 'n' then '\n' else if next == 't' then '\t' else if next == 'r' then '\r' else next], 2)
    else if c == '&' then (hit.text, 1)
    else ([c], 1)
  }

  function Expanded(replacement: string, hit: Match): string {
    if replacement == "" then ""
    else
      var unit := ExpandUnit(replacement, hit);
      unit.0 + Expanded(replacement[unit.1..], hit)
  }

  method Expand(replacement: string, hit: Match) returns (out: string)
    ensures out == Expanded(replacement, hit)
  {
    hide ExpandUnit;
    out := "";
    var index := 0;
    while index < |replacement|
      invariant index <= |replacement|
      invariant out + Expanded(replacement[index..], hit) == Expanded(replacement, hit)
    {
      var unit := ExpandUnit(replacement[index..], hit);
      assert replacement[index..][unit.1..] == replacement[index + unit.1..];
      out := out + unit.0;
      index := index + unit.1;
    }
  }

  /** The replacement that writes `t` literally: every special character behind a backslash. */
  function Quoted(t: string): string {
    if t == "" then ""
    else (if t[0] in "$\\&" then ['\\', t[0]] else [t[0]]) + Quoted(t[1..])
  }

  lemma {:induction false} QuotedIsLiteral(t: string, hit: Match)
    ensures Expanded(Quoted(t), hit) == t
  {
    if t != "" {
      QuotedIsLiteral(t[1..], hit);
      var q := Quoted(t);
      assert q[ExpandUnit(q, hit).1..] == Quoted(t[1..]);
    }
  }

  /** What a replacement is made of. */
  datatype Piece = Literal(text: string) | Control(c: char) | GroupRef(index: nat, dollar: bool) | Whole

  predicate Sound(piece: Piece) {
    match piece
    case Control(c) => c == '\n' || c == '\t' || c == '\r'
    case GroupRef(index, _) => index < 10
    case _ => true
  }

  function Written(piece: Piece): string
    requires Sound(piece)
  {
    match piece
    case Literal(text) => Quoted(text)
    case Control(c) => if c == '\n' then "\\n" else if c == '\t' then "\\t" else "\\r"
    case GroupRef(index, dollar) => [if dollar then '$' else '\\', DigitChar(index)]
    case Whole => "&"
  }

  function AllWritten(pieces: seq<Piece>): string
    requires forall k :: 0 <= k < |pieces| ==> Sound(pieces[k])
  {
    if pieces == [] then "" else Written(pieces[0]) + AllWritten(pieces[1..])
  }

  /** What a piece stands for in a match: a group that took no part stands for nothing. */
  function Meaning(piece: Piece, hit: Match): string {
    match piece
    case Literal(text) => text
    case Control(c) => [c]
    case GroupRef(index, _) =>
      if index < |hit.groups| && hit.groups[index].Some? then hit.groups[index].value else ""
    case Whole => hit.text
  }

  function AllMeanings(pieces: seq<Piece>, hit: Match): string {
    if pieces == [] then "" else Meaning(pieces[0], hit) + AllMeanings(pieces[1..], hit)
  }

  lemma {:induction false} QuotedFirst(t: string, rest: string, hit: Match)
    ensures Expanded(Quoted(t) + rest, hit) == t + Expanded(rest, hit)
  {
    hide Expanded;
    if t == "" {
      assert Quoted(t) + rest == rest;
    } else {
      var more := Quoted(t[1..]) + rest;
      QuotedFirst(t[1..], rest, hit);
      LetterFirst(t[0], more, hit);
      assert Quoted(t) + rest == (if t[0] in "$\\&" then ['\\', t[0]] else [t[0]]) + more;
      assert t == [t[0]] + t[1..];
    }
  }

  lemma {:induction false} LetterFirst(c: char, more: string, hit: Match)
    ensures Expanded((if c in "$\\&" then ['\\', c] else [c]) + more, hit) == [c] + Expanded(more, hit)
  {
    var q := (if c in "$\\&" then ['\\', c] else [c]) + more;
    assert q[ExpandUnit(q, hit).1..] == more;
  }

  lemma {:induction false} PieceFirst(piece: Piece, rest: string, hit: Match)
    requires Sound(piece)
    ensures Expanded(Written(piece) + rest, hit) == Meaning(piece, hit) + Expanded(rest, hit)
  {
    match piece
    case Literal(text) => QuotedFirst(text, rest, hit);
    case _ =>
      var q := Written(piece) + rest;
      assert q[ExpandUnit(q, hit).1..] == rest;
  }

  /**
    A replacement expands to its pieces in order: literal text as it is, each group as
    it matched, `&` as the match.
   */
  lemma {:induction false} ExpansionIsPieces(pieces: seq<Piece>, hit: Match)
    requires forall k :: 0 <= k < |pieces| ==> Sound(pieces[k])
    ensures Expanded(AllWritten(pieces), hit) == AllMeanings(pieces, hit)
  {
    hide Expanded, Written, Meaning;
    if pieces == [] {
      NothingExpands(hit);
    } else {
      ExpansionIsPieces(pieces[1..], hit);
      PieceFirst(pieces[0], AllWritten(pieces[1..]), hit);
    }
  }

  lemma {:induction false} NothingExpands(hit: Match)
    ensures Expanded("", hit) == ""
  {
  }

  /** A dollar that no digit follows stands for itself. */
  lemma {:induction false} LoneDollar(rest: string, hit: Match)
    requires rest == "" || !IsDigit(rest[0])
    ensures Expanded("$" + rest, hit) == "$" + Expanded(rest, hit)
  {
    assert ("$" + rest)[1..] == rest;
  }

  ghost function ExpandedEach(replacement: string, hits: seq<Match>): (news: seq<string>)
    ensures |news| == |hits|
  {
    seq(|hits|, k requires 0 <= k < |hits| => Expanded(replacement, hits[k]))
  }

  lemma {:induction false} DisjointApart(text: string, spans: seq<(nat, nat)>)
    requires Disjoint(text, spans)
    ensures Splice.Apart(spans, 0, |text|)
  {
    Splice.ApartFromPairs(spans, 0, |text|);
  }

  /** The matches a replacement rewrites. */
  ghost function Chosen(re: Regex, tables: Tables, text: string, global: bool): (spans: seq<(nat, nat)>)
    ensures Disjoint(text, spans)
  {
    AllDisjoint(re, tables, text, 0);
    if global then AllFound(re, tables, text, 0)
    else
      var first := Found(re, tables, text, 0);
      if first == None then [] else [first.value]
  }

  /** What each of `spans` is rewritten to. */
  ghost function Rewrites(
    re: Regex, tables: Tables, text: string, spans: seq<(nat, nat)>, replacement: string): (news: seq<string>)
    requires Disjoint(text, spans)
    ensures |news| == |spans|
  {
    ExpandedEach(replacement, Hits(re, tables, text, spans))
  }

  /** Replacing every match by itself changes nothing. */
  lemma {:induction false} ReplacingByItself(re: Regex, tables: Tables, text: string, spans: seq<(nat, nat)>)
    requires Disjoint(text, spans)
    ensures Splice.Apart(spans, 0, |text|)
            && Splice.Woven(text, spans, Rewrites(re, tables, text, spans, "&"), 0) == text
  {
    DisjointApart(text, spans);
    var hits := Hits(re, tables, text, spans);
    var news := Rewrites(re, tables, text, spans, "&");
    forall k | 0 <= k < |spans|
      ensures spans[k].0 <= spans[k].1 <= |text| && news[k] == text[spans[k].0..spans[k].1]
    {
      assert Expanded("&", hits[k]) == hits[k].text + Expanded("&"[1..], hits[k]) == hits[k].text;
    }
    Splice.WeavingItself(text, spans, news, 0);
  }

  /** Every match is rewritten to the pieces of the replacement, each group as it matched there. */
  lemma {:induction false} RewritesArePieces(
    re: Regex, tables: Tables, text: string, spans: seq<(nat, nat)>, pieces: seq<Piece>, k: nat)
    requires Disjoint(text, spans) && k < |spans| && forall m :: 0 <= m < |pieces| ==> Sound(pieces[m])
    ensures Rewrites(re, tables, text, spans, AllWritten(pieces))[k]
            == AllMeanings(pieces, HitAt(re, tables, text, spans[k]))
  {
    hide HitAt, Expanded;
    HitOf(re, tables, text, spans, k);
    ExpansionIsPieces(pieces, HitAt(re, tables, text, spans[k]));
  }

  lemma {:induction false} NumbersOfTwo(between: seq<Node>, y: seq<Branch>, k: nat)
    requires k !in Groups.Numbers(between) && k !in Groups.AltsNumbers(y) && k != 2
    ensures k !in Groups.Numbers(between + [Group(y, Some(2))])
    decreases |between|
  {
    var nodes := between + [Group(y, Some(2))];
    if between == [] {
      assert nodes[1..] == [];
      assert nodes[0] == Group(y, Some(2)) && Groups.NumbersIn(nodes[0]) == {2} + Groups.AltsNumbers(y);
    } else {
      assert nodes[1..] == between[1..] + [Group(y, Some(2))];
      NumbersOfTwo(between[1..], y, k);
    }
  }

  lemma {:induction false} NothingBetween(s: Subject, i: nat, j: nat)
    ensures SeqMatches(s, [], i, j) ==> i == j
  {
  }

  /** Two groups with something between them, replaced by the second, a space and the first. */
  lemma {:induction false} TwoGroupsSwap(
    re: Regex, tables: Tables, text: string, span: (nat, nat), x: seq<Branch>, between: seq<Node>, y: seq<Branch>)
    returns (middle: nat, later: nat)
    requires IsMatch(re, tables, text, span) && re.groupCount >= 2
    requires re.alternatives == [Branch([Group(x, Some(1))] + between + [Group(y, Some(2))])]
    requires 1 !in Groups.Numbers(between) && 1 !in Groups.AltsNumbers(y)
    ensures span.0 <= middle <= span.1 && span.0 <= later <= span.1
    ensures var s := SubjectOf(re, tables, text);
            && AnyMatches(s, x, span.0, middle) && SeqMatches(s, between + [Group(y, Some(2))], middle, span.1)
            && SeqMatches(s, [Group(x, Some(1))] + between, span.0, later) && AnyMatches(s, y, later, span.1)
    ensures Expanded("$2 $1", HitAt(re, tables, text, span)) == text[later..span.1] + " " + text[span.0..middle]
  {
    hide AnyMatches, HitAt, Expanded;
    var first, second := Group(x, Some(1)), Group(y, Some(2));
    var none: seq<Node> := [];
    assert [first] + between + [second] == none + [first] + (between + [second]);
    assert [first] + between + [second] == ([first] + between) + [second] + none;
    NumbersOfTwo(between, y, 1);
    var from, upTo := GroupIsReported(re, tables, text, span, none, x, 1, between + [second]);
    var start, stop := GroupIsReported(re, tables, text, span, [first] + between, y, 2, none);
    middle, later := upTo, start;
    NothingBetween(SubjectOf(re, tables, text), span.0, from);
    NothingBetween(SubjectOf(re, tables, text), stop, span.1);
    SwapExpands(HitAt(re, tables, text, span), text[span.0..middle], text[later..span.1]);
  }

  lemma {:induction false} SpaceFirst(rest: string, hit: Match)
    ensures Expanded(" " + rest, hit) == " " + Expanded(rest, hit)
  {
    assert (" " + rest)[1..] == rest;
  }

  lemma {:induction false} SwapExpands(hit: Match, first: string, second: string)
    requires |hit.groups| > 2 && hit.groups[1] == Some(first) && hit.groups[2] == Some(second)
    ensures Expanded("$2 $1", hit) == second + " " + first
  {
    hide Expanded, Meaning;
    assert Written(GroupRef(2, true)) == "$2" && Written(GroupRef(1, true)) == "$1";
    PieceFirst(GroupRef(2, true), " $1", hit);
    SpaceFirst("$1", hit);
    PieceFirst(GroupRef(1, true), "", hit);
    NothingExpands(hit);
    assert "$1" + "" == "$1" && "$2" + " $1" == "$2 $1" && " " + "$1" == " $1";
    RefMeans(2, hit);
    RefMeans(1, hit);
    assert first + "" == first && second + (" " + first) == second + " " + first;
  }

  lemma {:induction false} RefMeans(index: nat, hit: Match)
    requires index < |hit.groups| && hit.groups[index].Some?
    ensures Meaning(GroupRef(index, true), hit) == hit.groups[index].value
  {
  }

  /**
    The first match, or every match, replaced. The result is the text with its
    matches replaced one at a time from the last to the first.
   */
  method Replace(re: Regex, tables: Tables, text: string, replacement: string, global: bool) returns (out: string)
    ensures var spans := Chosen(re, tables, text, global);
            Splice.Apart(spans, 0, |text|)
              && out == Splice.BackToFront(text, spans, Rewrites(re, tables, text, spans, replacement))
    ensures replacement == "&" ==> out == text
  {
    hide HitAt, AllFound, Found, Expanded, Splice.BackToFront, Splice.Woven;
    ghost var spans := Chosen(re, tables, text, global);
    var matches;
    if global {
      matches := FindAll(re, tables, text);
    } else {
      Utf.FirstAtBoundary(text, 0);
      var first := FindFrom(re, tables, text, 0);
      matches := if first == None then [] else [first.value];
    }
    assert matches == Hits(re, tables, text, spans);
    DisjointApart(text, spans);
    Splice.PassIsBackToFront(text, spans, Rewrites(re, tables, text, spans, replacement));
    ReplacingByItself(re, tables, text, spans);
    if matches == [] {
      Splice.WovenNone(text, spans, Rewrites(re, tables, text, spans, replacement), 0);
      return text;
    }
    out := ReplaceMatches(re, tables, text, matches, spans, replacement);
  }

  method ReplaceMatches(
    re: Regex, tables: Tables, text: string, matches: seq<Match>, ghost spans: seq<(nat, nat)>, replacement: string)
    returns (out: string)
    requires Disjoint(text, spans) && matches == Hits(re, tables, text, spans) && Splice.Apart(spans, 0, |text|)
    ensures out == Splice.Woven(text, spans, Rewrites(re, tables, text, spans, replacement), 0)
  {
    hide Hits, CapturesOf, Texts;
    out := "";
    var last: nat := 0;
    ghost var i: nat := 0;
    ghost var news := Rewrites(re, tables, text, spans, replacement);
    Splice.WeavingStarts(text, spans, news);
    for k := 0 to |matches|
      invariant Splice.Weaving(text, spans, news, k, i, out)
      invariant last == Utf.Offset(text, i)
    {
      var hit := matches[k];
      HitOf(re, tables, text, spans, k);
      Splice.WeavingStep(text, spans, news, k, i, out);
      var kept := Splice.Between(text, last, hit.start, i, spans[k].0);
      var expanded := Expand(replacement, hit);
      out := out + kept + expanded;
      last := hit.end;
      i := spans[k].1;
    }
    Splice.WeavingEnds(text, spans, news, i, out);
    var tail := Splice.Between(text, last, Utf.ByteLen(text), i, |text|);
    out := out + tail;
  }

  lemma {:induction false} HitOf(re: Regex, tables: Tables, text: string, spans: seq<(nat, nat)>, k: nat)
    requires Disjoint(text, spans) && k < |spans|
    ensures Hits(re, tables, text, spans)[k] == HitAt(re, tables, text, spans[k])
  {
  }
}
