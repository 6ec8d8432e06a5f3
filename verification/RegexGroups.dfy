/**
  The language of a pattern with what it records: which spans the groups of a
  match leave in the capture slots.
 */
module RegexGroups {
  import opened Wrappers
  import opened RegexModel
  import Proofs = RegexProofs
  import Utf

  ghost predicate IsSpan(s: Subject, span: Option<(nat, nat)>, i: nat, j: nat) {
    i <= j <= |s.chars| && span == Some((Utf.Offset(s.chars, i), Utf.Offset(s.chars, j)))
  }

  /** The slot, if there is one, takes the span from `i` to `j`; every other slot is left alone. */
  ghost predicate Leaves(s: Subject, c: Captures, slot: Option<nat>, i: nat, j: nat, d: Captures) {
    && |d| == |c|
    && (slot.Some? && slot.value < |c| ==> IsSpan(s, d[slot.value], i, j))
    && forall k :: 0 <= k < |c| && slot != Some(k) ==> d[k] == c[k]
  }

  /**
    `n` matches from `i` to `j` and turns the captures `c` into `d`. A repeat has
    walked `times` rounds to `j`, and what it records may be that of a longer walk.
   */
  ghost predicate NodeLeads(s: Subject, n: Node, i: nat, c: Captures, j: nat, d: Captures)
    decreases NodeSize(n), 0, 0
  {
    match n
    case Group(alternatives, slot) =>
      exists a, m ::
        && 0 <= a < |alternatives|
        && (AltSmaller(alternatives, a); SeqLeads(s, alternatives[a].nodes, i, c, j, m))
        && Leaves(s, m, slot, i, j, d)
    case Repeat(node, min, max, _) =>
      exists times: nat, more: nat, m, last: nat ::
        && min <= times && times + more <= max && last <= |s.chars|
        && Rounds(s, node, times, i, c, j, m) && Rounds(s, node, more, j, m, last, d)
    case _ => NodeMatches(s, n, i, j) && c == d
  }

  ghost predicate SeqLeads(s: Subject, nodes: seq<Node>, i: nat, c: Captures, j: nat, d: Captures)
    decreases SeqSize(nodes), 1, 0
  {
    if nodes == [] then i == j && c == d
    else
      exists k: nat, m ::
        i <= k <= j && NodeLeads(s, nodes[0], i, c, k, m) && SeqLeads(s, nodes[1..], k, m, j, d)
  }

  /** Exactly `times` matches of `n` in a row. */
  ghost predicate Rounds(s: Subject, n: Node, times: nat, i: nat, c: Captures, j: nat, d: Captures)
    decreases NodeSize(n), 1, times
  {
    if times == 0 then i == j && c == d
    else exists k: nat, m :: i <= k <= j && NodeLeads(s, n, i, c, k, m) && Rounds(s, n, times - 1, k, m, j, d)
  }

  // ---- it is the language, with captures added ------------------------------------------

  lemma {:induction false} LeadsMatches(s: Subject, n: Node, i: nat, c: Captures, j: nat, d: Captures)
    requires NodeLeads(s, n, i, c, j, d)
    ensures NodeMatches(s, n, i, j) && |d| == |c|
    decreases NodeSize(n), 0, 0
  {
    match n
    case Group(alternatives, slot) =>
      var a, m :| 0 <= a < |alternatives| && SeqLeads(s, alternatives[a].nodes, i, c, j, m)
        && Leaves(s, m, slot, i, j, d);
      AltSmaller(alternatives, a);
      SeqLeadsMatches(s, alternatives[a].nodes, i, c, j, m);
    case Repeat(node, min, max, _) =>
      var times: nat, more: nat, m, last: nat :|
        min <= times && times + more <= max && last <= |s.chars|
        && Rounds(s, node, times, i, c, j, m) && Rounds(s, node, more, j, m, last, d);
      RoundsMatch(s, node, times, i, c, j, m);
      RoundsMatch(s, node, more, j, m, last, d);
    case _ =>
  }

  lemma {:induction false} SeqLeadsMatches(s: Subject, nodes: seq<Node>, i: nat, c: Captures, j: nat, d: Captures)
    requires SeqLeads(s, nodes, i, c, j, d)
    ensures SeqMatches(s, nodes, i, j) && |d| == |c|
    decreases SeqSize(nodes), 1, 0
  {
    if nodes != [] {
      var k: nat, m :| i <= k <= j && NodeLeads(s, nodes[0], i, c, k, m) && SeqLeads(s, nodes[1..], k, m, j, d);
      LeadsMatches(s, nodes[0], i, c, k, m);
      SeqLeadsMatches(s, nodes[1..], k, m, j, d);
    }
  }

  lemma {:induction false} RoundsMatch(
    s: Subject, n: Node, times: nat, i: nat, c: Captures, j: nat, d: Captures)
    requires Rounds(s, n, times, i, c, j, d)
    ensures Chain(s, n, times, i, j) && |d| == |c|
    decreases NodeSize(n), 1, times
  {
    if times > 0 {
      var k: nat, m :| i <= k <= j && NodeLeads(s, n, i, c, k, m) && Rounds(s, n, times - 1, k, m, j, d);
      LeadsMatches(s, n, i, c, k, m);
      RoundsMatch(s, n, times - 1, k, m, j, d);
    }
  }

  // ---- the search finds what is in it ---------------------------------------------------

  lemma {:induction false} SequenceLeads(
    s: Subject, nodes: seq<Node>, i: nat, c: Captures, k: nat, m: Captures, j: nat, d: Captures)
    requires nodes != [] && i <= k <= j && NodeLeads(s, nodes[0], i, c, k, m) && SeqLeads(s, nodes[1..], k, m, j, d)
    ensures SeqLeads(s, nodes, i, c, j, d)
  {
  }

  /** Whatever end the search reports, a match leads there and to the captures reported with it. */
  lemma {:induction false} RunLeads(s: Subject, nodes: seq<Node>, i: nat, c: Captures)
    requires i <= |s.chars|
    ensures var o := Run(s, nodes, i, c);
            o.end.Some? ==> SeqLeads(s, nodes, i, c, o.end.value, o.captures)
    decreases SeqSize(nodes), 0, 1
  {
    hide NodeLeads, Leaves;
    var o := Run(s, nodes, i, c);
    if nodes != [] && o.end.Some? {
      var n, rest := nodes[0], nodes[1..];
      if n.Repeat? {
        var k, m := RepeatLeads(s, n, rest, i, c);
        SequenceLeads(s, nodes, i, c, k, m, o.end.value, o.captures);
      } else if n.Group? {
        assert n.alternatives[0..] == n.alternatives;
        var k, m := GroupLeads(s, n, 0, rest, i, c);
        SequenceLeads(s, nodes, i, c, k, m, o.end.value, o.captures);
      } else {
        var end := StepOne(s, n, i).value;
        SimpleLeads(s, n, i, c, end);
        RunLeads(s, rest, end, c);
        SequenceLeads(s, nodes, i, c, end, c, o.end.value, o.captures);
      }
    }
  }

  lemma {:induction false} SimpleLeads(s: Subject, n: Node, i: nat, c: Captures, end: nat)
    requires i <= |s.chars| && !n.Group? && !n.Repeat? && StepOne(s, n, i) == Some(end)
    ensures NodeLeads(s, n, i, c, end, c)
  {
    Proofs.StepExact(s, n, i, end);
  }

  lemma {:induction false} GroupLeads(
    s: Subject, n: Node, a: nat, rest: seq<Node>, i: nat, c: Captures) returns (k: nat, m: Captures)
    requires i <= |s.chars| && n.Group? && a <= |n.alternatives|
    requires RunGroup(s, n.alternatives[a..], n.index, rest, i, c).end.Some?
    ensures var o := RunGroup(s, n.alternatives[a..], n.index, rest, i, c);
            i <= k <= o.end.value && NodeLeads(s, n, i, c, k, m) && SeqLeads(s, rest, k, m, o.end.value, o.captures)
    decreases AltsSize(n.alternatives[a..]) + SeqSize(rest), 1, 0
  {
    hide SeqLeads, NodeLeads, Leaves;
    var alts := n.alternatives[a..];
    assert alts[1..] == n.alternatives[a + 1..];
    if RunBranch(s, alts[0].nodes, n.index, rest, i, c).end.Some? {
      k, m := BranchLeads(s, n, a, rest, i, c);
    } else {
      k, m := GroupLeads(s, n, a + 1, rest, i, c);
    }
  }

  lemma {:induction false} BranchLeads(
    s: Subject, n: Node, a: nat, rest: seq<Node>, i: nat, c: Captures) returns (k: nat, m: Captures)
    requires i <= |s.chars| && n.Group? && a < |n.alternatives|
    requires RunBranch(s, n.alternatives[a].nodes, n.index, rest, i, c).end.Some?
    ensures var o := RunBranch(s, n.alternatives[a].nodes, n.index, rest, i, c);
            i <= k <= o.end.value && NodeLeads(s, n, i, c, k, m) && SeqLeads(s, rest, k, m, o.end.value, o.captures)
    decreases SeqSize(n.alternatives[a].nodes) + SeqSize(rest), 0, 2
  {
    hide SeqLeads, Run;
    var branch := n.alternatives[a].nodes;
    var inner := Run(s, branch, i, c);
    k := inner.end.value;
    m := Record(s, inner.captures, n.index, i, k);
    RunLeads(s, branch, i, c);
    AltSmaller(n.alternatives, a);
    assert Leaves(s, inner.captures, n.index, i, k, m);
    RunLeads(s, rest, k, m);
  }

  lemma {:induction false} RepeatLeads(
    s: Subject, n: Node, rest: seq<Node>, i: nat, c: Captures) returns (k: nat, m: Captures)
    requires i <= |s.chars| && n.Repeat? && RunRepeat(s, n.node, n.min, n.max, n.greedy, rest, i, c).end.Some?
    ensures var o := RunRepeat(s, n.node, n.min, n.max, n.greedy, rest, i, c);
            i <= k <= o.end.value && NodeLeads(s, n, i, c, k, m) && SeqLeads(s, rest, k, m, o.end.value, o.captures)
    decreases NodeSize(n) + SeqSize(rest), 0, 0
  {
    hide SeqLeads, Rounds, Run;
    var w := Walk(s, n.node, n.max, i, c);
    var candidates := Candidates(w.positions, n.min, n.greedy);
    var at := TryLeads(s, rest, candidates, w.captures);
    k, m := candidates[at], w.captures;
    var times := Proofs.CandidateRounds(w.positions, n.min, n.greedy, at);
    var half, last := WalkLeads(s, n.node, n.max, i, c, times);
  }

  lemma {:induction false} TryLeads(
    s: Subject, rest: seq<Node>, candidates: seq<nat>, c: Captures) returns (at: nat)
    requires forall k :: 0 <= k < |candidates| ==> candidates[k] <= |s.chars|
    requires TryEach(s, rest, candidates, c).end.Some?
    ensures var o := TryEach(s, rest, candidates, c);
            at < |candidates| && candidates[at] <= o.end.value
            && SeqLeads(s, rest, candidates[at], c, o.end.value, o.captures)
    decreases SeqSize(rest), 1, |candidates|
  {
    hide SeqLeads, Run;
    RunLeads(s, rest, candidates[0], c);
    if Run(s, rest, candidates[0], c).end.Some? {
      at := 0;
    } else {
      var later := TryLeads(s, rest, candidates[1..], c);
      at := later + 1;
    }
  }

  /** The walk's first `times` rounds lead to its position of that number, and the others from there to its captures. */
  lemma {:induction false} WalkLeads(
    s: Subject, node: Node, max: nat, i: nat, c: Captures, times: nat) returns (half: Captures, last: nat)
    requires i <= |s.chars| && times < |Walk(s, node, max, i, c).positions|
    ensures var w := Walk(s, node, max, i, c);
            && |w.positions| - 1 <= max && last == w.positions[|w.positions| - 1]
            && Rounds(s, node, times, i, c, w.positions[times], half)
            && Rounds(s, node, |w.positions| - 1 - times, w.positions[times], half, last, w.captures)
    decreases NodeSize(node), 1, |s.chars| - i
  {
    hide Run, NodeLeads;
    SingletonSize(node);
    var w := Walk(s, node, max, i, c);
    if |w.positions| == 1 {
      half, last := c, i;
    } else {
      var next := Run(s, [node], i, c);
      RunLeads(s, [node], i, c);
      SingletonLeads(s, node, i, c, next.end.value, next.captures);
      var later := Walk(s, node, max - 1, next.end.value, next.captures);
      if times == 0 {
        half, last := WalkLeads(s, node, max - 1, next.end.value, next.captures, 0);
        half := c;
      } else {
        half, last := WalkLeads(s, node, max - 1, next.end.value, next.captures, times - 1);
      }
    }
  }

  lemma {:induction false} SingletonLeads(s: Subject, n: Node, i: nat, c: Captures, j: nat, d: Captures)
    requires SeqLeads(s, [n], i, c, j, d)
    ensures NodeLeads(s, n, i, c, j, d)
  {
    hide NodeLeads;
    assert [n][1..] == [];
  }

  // ---- what a group leaves in its slot ------------------------------------------------------

  /** The numbers of the groups in `nodes`, nested ones included. */
  ghost function Numbers(nodes: seq<Node>): set<nat>
    decreases SeqSize(nodes), 1
  {
    if nodes == [] then {} else NumbersIn(nodes[0]) + Numbers(nodes[1..])
  }

  ghost function NumbersIn(n: Node): set<nat>
    decreases NodeSize(n), 0
  {
    match n
    case Group(alternatives, slot) => (if slot.Some? then {slot.value} else {}) + AltsNumbers(alternatives)
    case Repeat(node, _, _, _) => NumbersIn(node)
    case _ => {}
  }

  ghost function AltsNumbers(alts: seq<Branch>): set<nat>
    decreases AltsSize(alts), 1
  {
    if alts == [] then {} else Numbers(alts[0].nodes) + AltsNumbers(alts[1..])
  }

  lemma {:induction false} AltHasNumbers(alts: seq<Branch>, a: nat)
    requires a < |alts|
    ensures Numbers(alts[a].nodes) <= AltsNumbers(alts)
  {
    if a > 0 {
      AltHasNumbers(alts[1..], a - 1);
    }
  }

  /** Nodes without a group of that number leave its slot alone. */
  lemma {:induction false} OthersStay(s: Subject, nodes: seq<Node>, i: nat, c: Captures, j: nat, d: Captures, k: nat)
    requires SeqLeads(s, nodes, i, c, j, d) && k !in Numbers(nodes) && k < |c|
    ensures |d| == |c| && d[k] == c[k]
    decreases SeqSize(nodes), 1, 0
  {
    if nodes != [] {
      var at: nat, m :| i <= at <= j && NodeLeads(s, nodes[0], i, c, at, m) && SeqLeads(s, nodes[1..], at, m, j, d);
      OtherStays(s, nodes[0], i, c, at, m, k);
      OthersStay(s, nodes[1..], at, m, j, d, k);
    }
  }

  lemma {:induction false} OtherStays(s: Subject, n: Node, i: nat, c: Captures, j: nat, d: Captures, k: nat)
    requires NodeLeads(s, n, i, c, j, d) && k !in NumbersIn(n) && k < |c|
    ensures |d| == |c| && d[k] == c[k]
    decreases NodeSize(n), 0, 0
  {
    match n
    case Group(alternatives, slot) =>
      var a, m :| 0 <= a < |alternatives| && SeqLeads(s, alternatives[a].nodes, i, c, j, m)
        && Leaves(s, m, slot, i, j, d);
      AltSmaller(alternatives, a);
      AltHasNumbers(alternatives, a);
      OthersStay(s, alternatives[a].nodes, i, c, j, m, k);
    case Repeat(node, min, max, _) =>
      var times: nat, more: nat, m, last: nat :|
        min <= times && times + more <= max && last <= |s.chars|
        && Rounds(s, node, times, i, c, j, m) && Rounds(s, node, more, j, m, last, d);
      RoundsLeave(s, node, times, i, c, j, m, k);
      RoundsLeave(s, node, more, j, m, last, d, k);
    case _ =>
  }

  lemma {:induction false} RoundsLeave(
    s: Subject, n: Node, times: nat, i: nat, c: Captures, j: nat, d: Captures, k: nat)
    requires Rounds(s, n, times, i, c, j, d) && k !in NumbersIn(n) && k < |c|
    ensures |d| == |c| && d[k] == c[k]
    decreases NodeSize(n), 1, times
  {
    if times > 0 {
      var at: nat, m :| i <= at <= j && NodeLeads(s, n, i, c, at, m) && Rounds(s, n, times - 1, at, m, j, d);
      OtherStays(s, n, i, c, at, m, k);
      RoundsLeave(s, n, times - 1, at, m, j, d, k);
    }
  }

  lemma {:induction false} SplitLeads(
    s: Subject, before: seq<Node>, after: seq<Node>, i: nat, c: Captures, j: nat, d: Captures)
    returns (k: nat, m: Captures)
    requires SeqLeads(s, before + after, i, c, j, d)
    ensures i <= k <= j && SeqLeads(s, before, i, c, k, m) && SeqLeads(s, after, k, m, j, d)
    decreases |before|
  {
    hide NodeLeads;
    if before == [] {
      assert before + after == after;
      SeqLeadsForward(s, after, i, c, j, d);
      k, m := i, c;
    } else {
      var nodes := before + after;
      assert nodes[1..] == before[1..] + after;
      var at: nat, e :| i <= at <= j && NodeLeads(s, nodes[0], i, c, at, e) && SeqLeads(s, nodes[1..], at, e, j, d);
      k, m := SplitLeads(s, before[1..], after, at, e, j, d);
      SequenceLeads(s, before, i, c, at, e, k, m);
    }
  }

  lemma {:induction false} SeqLeadsForward(s: Subject, nodes: seq<Node>, i: nat, c: Captures, j: nat, d: Captures)
    requires SeqLeads(s, nodes, i, c, j, d)
    ensures i <= j
  {
  }

  /**
    A group that stands in a sequence, with no group of its number after it, has
    its slot filled with where it matched: behind what stands before it, and in
    front of what stands after it.
   */
  lemma {:induction false} GroupIsRecorded(
    s: Subject, before: seq<Node>, alts: seq<Branch>, k: nat, after: seq<Node>, i: nat, c: Captures, j: nat,
    d: Captures) returns (from: nat, upTo: nat)
    requires SeqLeads(s, before + [Group(alts, Some(k))] + after, i, c, j, d) && j <= |s.chars|
    requires k < |c| && k !in Numbers(after)
    ensures i <= from <= upTo <= j && |d| == |c|
    ensures SeqMatches(s, before, i, from) && AnyMatches(s, alts, from, upTo) && SeqMatches(s, after, upTo, j)
    ensures d[k] == Some((Utf.Offset(s.chars, from), Utf.Offset(s.chars, upTo)))
  {
    hide SeqLeads, SeqMatches;
    var group := Group(alts, Some(k));
    var mid, m := SplitLeads(s, before + [group], after, i, c, j, d);
    var start, e := SplitLeads(s, before, [group], i, c, mid, m);
    SingletonLeads(s, group, start, e, mid, m);
    SeqLeadsMatches(s, before, i, c, start, e);
    SeqLeadsMatches(s, after, mid, m, j, d);
    var a, f :| 0 <= a < |alts| && SeqLeads(s, alts[a].nodes, start, e, mid, f) && Leaves(s, f, Some(k), start, mid, m);
    SeqLeadsMatches(s, alts[a].nodes, start, e, mid, f);
    OthersStay(s, after, mid, m, j, d, k);
    from, upTo := start, mid;
  }

  /**
    A repeated group's slot holds where it matched in the last round that was walked, or
    what it held if there was none.
   */
  lemma {:induction false} RepeatedGroupIsRecorded(
    s: Subject, alts: seq<Branch>, k: nat, times: nat, i: nat, c: Captures, j: nat, d: Captures)
    returns (from: nat)
    requires Rounds(s, Group(alts, Some(k)), times, i, c, j, d) && k < |c| && times > 0
    ensures |d| == |c| && from <= j && Chain(s, Group(alts, Some(k)), times - 1, i, from)
            && AnyMatches(s, alts, from, j)
    ensures IsSpan(s, d[k], from, j)
    decreases times
  {
    hide SeqLeads, SeqMatches;
    var group := Group(alts, Some(k));
    var at: nat, m :| i <= at <= j && NodeLeads(s, group, i, c, at, m) && Rounds(s, group, times - 1, at, m, j, d);
    LeadsMatches(s, group, i, c, at, m);
    if times == 1 {
      var a, f :| 0 <= a < |alts| && SeqLeads(s, alts[a].nodes, i, c, at, f) && Leaves(s, f, Some(k), i, at, m);
      SeqLeadsMatches(s, alts[a].nodes, i, c, at, f);
      from := i;
    } else {
      from := RepeatedGroupIsRecorded(s, alts, k, times - 1, at, m, j, d);
      assert Chain(s, group, times - 1, i, from);
    }
  }

  // ---- groups anywhere in a pattern -----------------------------------------------------------

  /** In some match of `n` from `i` to `j` a group numbered `k` takes part from `p` to `q`. */
  ghost predicate Through(s: Subject, n: Node, i: nat, j: nat, k: nat, p: nat, q: nat)
    decreases NodeSize(n), 0, 0
  {
    match n
    case Group(alternatives, slot) =>
      exists a ::
        && 0 <= a < |alternatives|
        && (AltSmaller(alternatives, a);
            if slot == Some(k) then p == i && q == j && SeqMatches(s, alternatives[a].nodes, i, j)
            else SeqThrough(s, alternatives[a].nodes, i, j, k, p, q))
    case Repeat(node, min, max, _) =>
      exists times: nat, more: nat, last: nat ::
        && min <= times && times + more <= max && Chain(s, node, times, i, j)
        && Chain(s, node, more, j, last) && RoundsThrough(s, node, times + more, i, last, k, p, q)
    case _ => false
  }

  ghost predicate SeqThrough(s: Subject, nodes: seq<Node>, i: nat, j: nat, k: nat, p: nat, q: nat)
    decreases SeqSize(nodes), 1, 0
  {
    nodes != [] &&
    exists m: nat ::
      i <= m <= j &&
      ((Through(s, nodes[0], i, m, k, p, q) && SeqMatches(s, nodes[1..], m, j)) ||
       (NodeMatches(s, nodes[0], i, m) && SeqThrough(s, nodes[1..], m, j, k, p, q)))
  }

  ghost predicate RoundsThrough(s: Subject, n: Node, times: nat, i: nat, j: nat, k: nat, p: nat, q: nat)
    decreases NodeSize(n), 1, times
  {
    times > 0 &&
    exists m: nat ::
      i <= m <= j &&
      ((Through(s, n, i, m, k, p, q) && Chain(s, n, times - 1, m, j)) ||
       (NodeMatches(s, n, i, m) && RoundsThrough(s, n, times - 1, m, j, k, p, q)))
  }

  /** No match of `n` does without a group numbered `k`. */
  predicate Always(n: Node, k: nat)
    decreases NodeSize(n), 0
  {
    match n
    case Group(alternatives, slot) => slot == Some(k) || AltsAlways(alternatives, k)
    case Repeat(node, min, _, _) => min > 0 && Always(node, k)
    case _ => false
  }

  predicate SeqAlways(nodes: seq<Node>, k: nat)
    decreases SeqSize(nodes), 1
  {
    nodes != [] && (Always(nodes[0], k) || SeqAlways(nodes[1..], k))
  }

  predicate AltsAlways(alts: seq<Branch>, k: nat)
    decreases AltsSize(alts), 1
  {
    alts == [] || (SeqAlways(alts[0].nodes, k) && AltsAlways(alts[1..], k))
  }

  lemma {:induction false} AltAlways(alts: seq<Branch>, a: nat, k: nat)
    requires a < |alts| && AltsAlways(alts, k)
    ensures SeqAlways(alts[a].nodes, k)
  {
    if a > 0 {
      AltAlways(alts[1..], a - 1, k);
    }
  }

  /** The slot holds where a group of its number took part, or it is as before and the match could do without one. */
  ghost predicate Filled(s: Subject, nodes: seq<Node>, i: nat, c: Captures, j: nat, d: Captures, k: nat)
    requires k < |c| == |d|
  {
    (d[k] == c[k] && !SeqAlways(nodes, k)) ||
    exists p: nat, q: nat :: IsSpan(s, d[k], p, q) && SeqThrough(s, nodes, i, j, k, p, q)
  }

  ghost predicate NodeFilled(s: Subject, n: Node, i: nat, c: Captures, j: nat, d: Captures, k: nat)
    requires k < |c| == |d|
  {
    (d[k] == c[k] && !Always(n, k)) ||
    exists p: nat, q: nat :: IsSpan(s, d[k], p, q) && Through(s, n, i, j, k, p, q)
  }

  ghost predicate RoundsFilled(s: Subject, n: Node, times: nat, i: nat, c: Captures, j: nat, d: Captures, k: nat)
    requires k < |c| == |d|
  {
    (d[k] == c[k] && (times == 0 || !Always(n, k))) ||
    exists p: nat, q: nat :: IsSpan(s, d[k], p, q) && RoundsThrough(s, n, times, i, j, k, p, q)
  }

  /**
    After any match every slot holds where a group of its number took part; it is
    untouched only where the match can do without such a group.
   */
  lemma {:induction false} GroupsAreFilled(
    s: Subject, nodes: seq<Node>, i: nat, c: Captures, j: nat, d: Captures, k: nat)
    requires SeqLeads(s, nodes, i, c, j, d) && j <= |s.chars| && k < |c|
    ensures |d| == |c| && Filled(s, nodes, i, c, j, d, k)
    decreases SeqSize(nodes), 1, 0
  {
    hide NodeLeads, Through, Always;
    SeqLeadsMatches(s, nodes, i, c, j, d);
    if nodes != [] {
      var n, rest := nodes[0], nodes[1..];
      var at: nat, m :| i <= at <= j && NodeLeads(s, n, i, c, at, m) && SeqLeads(s, rest, at, m, j, d);
      LeadsMatches(s, n, i, c, at, m);
      SeqLeadsMatches(s, rest, at, m, j, d);
      NodeIsFilled(s, n, i, c, at, m, k);
      GroupsAreFilled(s, rest, at, m, j, d, k);
      if d[k] == m[k] && !SeqAlways(rest, k) {
        if p: nat, q: nat :| IsSpan(s, m[k], p, q) && Through(s, n, i, at, k, p, q) {
          assert SeqThrough(s, nodes, i, j, k, p, q);
        }
      } else {
        var p: nat, q: nat :| IsSpan(s, d[k], p, q) && SeqThrough(s, rest, at, j, k, p, q);
        assert SeqThrough(s, nodes, i, j, k, p, q);
      }
    }
  }

  lemma {:induction false} NodeIsFilled(s: Subject, n: Node, i: nat, c: Captures, j: nat, d: Captures, k: nat)
    requires NodeLeads(s, n, i, c, j, d) && j <= |s.chars| && k < |c|
    ensures |d| == |c| && NodeFilled(s, n, i, c, j, d, k)
    decreases NodeSize(n), 0, 0
  {
    hide SeqLeads, Rounds, SeqThrough, RoundsThrough;
    LeadsMatches(s, n, i, c, j, d);
    match n
    case Group(alternatives, slot) =>
      var a, m :| 0 <= a < |alternatives| && SeqLeads(s, alternatives[a].nodes, i, c, j, m)
        && Leaves(s, m, slot, i, j, d);
      AltSmaller(alternatives, a);
      SeqLeadsMatches(s, alternatives[a].nodes, i, c, j, m);
      if slot == Some(k) {
        assert IsSpan(s, d[k], i, j) && Through(s, n, i, j, k, i, j);
      } else {
        GroupsAreFilled(s, alternatives[a].nodes, i, c, j, m, k);
        if p: nat, q: nat :| IsSpan(s, m[k], p, q) && SeqThrough(s, alternatives[a].nodes, i, j, k, p, q) {
          assert Through(s, n, i, j, k, p, q);
        } else if AltsAlways(alternatives, k) {
          AltAlways(alternatives, a, k);
        }
      }
    case Repeat(node, min, max, _) =>
      var times: nat, more: nat, m, last: nat :|
        min <= times && times + more <= max && last <= |s.chars|
        && Rounds(s, node, times, i, c, j, m) && Rounds(s, node, more, j, m, last, d);
      RoundsMatch(s, node, times, i, c, j, m);
      RoundsMatch(s, node, more, j, m, last, d);
      RoundsJoin(s, node, times, more, i, c, j, m, last, d);
      RoundsAreFilled(s, node, times + more, i, c, last, d, k);
      if p: nat, q: nat :| IsSpan(s, d[k], p, q) && RoundsThrough(s, node, times + more, i, last, k, p, q) {
        assert Through(s, n, i, j, k, p, q);
      }
    case _ =>
  }

  lemma {:induction false} RoundsJoin(
    s: Subject, n: Node, times: nat, more: nat, i: nat, c: Captures, j: nat, m: Captures, last: nat, d: Captures)
    requires Rounds(s, n, times, i, c, j, m) && Rounds(s, n, more, j, m, last, d)
    ensures Rounds(s, n, times + more, i, c, last, d)
    decreases times
  {
    hide NodeLeads;
    RoundsForward(s, n, more, j, m, last, d);
    if times > 0 {
      var at: nat, e :| i <= at <= j && NodeLeads(s, n, i, c, at, e) && Rounds(s, n, times - 1, at, e, j, m);
      RoundsJoin(s, n, times - 1, more, at, e, j, m, last, d);
    }
  }

  lemma {:induction false} RoundsForward(s: Subject, n: Node, times: nat, i: nat, c: Captures, j: nat, d: Captures)
    requires Rounds(s, n, times, i, c, j, d)
    ensures i <= j
  {
  }

  lemma {:induction false} RoundsAreFilled(
    s: Subject, n: Node, times: nat, i: nat, c: Captures, j: nat, d: Captures, k: nat)
    requires Rounds(s, n, times, i, c, j, d) && j <= |s.chars| && k < |c|
    ensures |d| == |c| && RoundsFilled(s, n, times, i, c, j, d, k)
    decreases NodeSize(n), 1, times
  {
    hide NodeLeads, Through, Always;
    if times > 0 {
      var at: nat, m :| i <= at <= j && NodeLeads(s, n, i, c, at, m) && Rounds(s, n, times - 1, at, m, j, d);
      LeadsMatches(s, n, i, c, at, m);
      RoundsMatch(s, n, times - 1, at, m, j, d);
      NodeIsFilled(s, n, i, c, at, m, k);
      RoundsAreFilled(s, n, times - 1, at, m, j, d, k);
      if p: nat, q: nat :| IsSpan(s, d[k], p, q) && RoundsThrough(s, n, times - 1, at, j, k, p, q) {
        assert RoundsThrough(s, n, times, i, j, k, p, q);
      } else if p: nat, q: nat :| IsSpan(s, m[k], p, q) && Through(s, n, i, at, k, p, q) {
        assert RoundsThrough(s, n, times, i, j, k, p, q);
      }
    }
  }
}
