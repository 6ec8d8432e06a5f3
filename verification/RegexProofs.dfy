/**
  What the search finds is always in the language of the pattern, and for
  patterns whose groups and repeated bodies have a fixed width it finds a match
  wherever the language holds one.
 */
module RegexProofs {
  import opened Wrappers
  import opened RegexModel

  // ---- soundness ----------------------------------------------------------

  lemma {:induction false} StepExact(s: Subject, n: Node, i: nat, j: nat)
    requires i <= |s.chars| && !n.Group? && !n.Repeat?
    ensures StepOne(s, n, i) == Some(j) <==> NodeMatches(s, n, i, j)
  {
    match n
    case Class(ranges, negated) =>
      if i < |s.chars| {
        var c := s.chars[i];
        var folded := s.tables.lower(c) + s.tables.upper(c);
        assert (exists k :: 0 <= k < |folded| && InRanges(folded[k], ranges)) ==
               exists f :: (f in s.tables.lower(c) || f in s.tables.upper(c)) && InRanges(f, ranges) by {
          if exists f :: (f in s.tables.lower(c) || f in s.tables.upper(c)) && InRanges(f, ranges) {
            var f :| (f in s.tables.lower(c) || f in s.tables.upper(c)) && InRanges(f, ranges);
            assert f in folded;
          }
        }
      }
    case _ =>
  }

  lemma {:induction false} RunSound(s: Subject, nodes: seq<Node>, i: nat, captures: Captures)
    requires i <= |s.chars|
    ensures Run(s, nodes, i, captures).end.Some? ==> SeqMatches(s, nodes, i, Run(s, nodes, i, captures).end.value)
    decreases SeqSize(nodes), 0, 1
  {
    var o := Run(s, nodes, i, captures);
    if nodes != [] && o.end.Some? {
      var n, rest := nodes[0], nodes[1..];
      assert nodes == [n] + rest;
      if n.Repeat? {
        var k := RepeatSound(s, n, rest, i, captures);
        SequenceMatches(s, nodes, i, k, o.end.value);
      } else if n.Group? {
        var k := GroupSound(s, n.alternatives, n.index, rest, i, captures);
        assert NodeMatches(s, n, i, k);
        SequenceMatches(s, nodes, i, k, o.end.value);
      } else {
        var end := StepOne(s, n, i);
        StepExact(s, n, i, end.value);
        RunSound(s, rest, end.value, captures);
        SequenceMatches(s, nodes, i, end.value, o.end.value);
      }
    }
  }

  /** A repeat at the head: some end of the walk with at least `min` rounds behind it, then the rest. */
  lemma {:induction false} RepeatSound(
    s: Subject, n: Node, rest: seq<Node>, i: nat, captures: Captures) returns (k: nat)
    requires i <= |s.chars| && n.Repeat? && RunRepeat(s, n.node, n.min, n.max, n.greedy, rest, i, captures).end.Some?
    ensures var o := RunRepeat(s, n.node, n.min, n.max, n.greedy, rest, i, captures);
            i <= k <= o.end.value && NodeMatches(s, n, i, k) && SeqMatches(s, rest, k, o.end.value)
    decreases NodeSize(n) + SeqSize(rest), 0, 0
  {
    var w := Walk(s, n.node, n.max, i, captures);
    WalkSound(s, n.node, n.max, i, captures);
    var candidates := Candidates(w.positions, n.min, n.greedy);
    TrySound(s, rest, candidates, w.captures);
    var o := TryEach(s, rest, candidates, w.captures);
    var c :| 0 <= c < |candidates| && SeqMatches(s, rest, candidates[c], o.end.value) && candidates[c] <= o.end.value;
    k := candidates[c];
    var times := CandidateRounds(w.positions, n.min, n.greedy, c);
    assert Chain(s, n.node, times, i, w.positions[times]);
  }

  lemma {:induction false} CandidateRounds(positions: seq<nat>, min: nat, greedy: bool, c: nat) returns (times: nat)
    requires min <= |positions| && c < |Candidates(positions, min, greedy)|
    ensures min <= times < |positions| && positions[times] == Candidates(positions, min, greedy)[c]
  {
    var tail := positions[min..];
    var t := if greedy then |tail| - 1 - c else c;
    assert tail[t] == Candidates(positions, min, greedy)[c];
    times := min + t;
  }

  lemma {:induction false} SequenceMatches(s: Subject, nodes: seq<Node>, i: nat, k: nat, j: nat)
    requires nodes != [] && i <= k <= j && NodeMatches(s, nodes[0], i, k) && SeqMatches(s, nodes[1..], k, j)
    ensures SeqMatches(s, nodes, i, j)
  {
  }

  lemma {:induction false} GroupSound(
    s: Subject, alts: seq<Branch>, slot: Option<nat>, rest: seq<Node>, i: nat, captures: Captures)
    returns (k: nat)
    requires i <= |s.chars| && RunGroup(s, alts, slot, rest, i, captures).end.Some?
    ensures var o := RunGroup(s, alts, slot, rest, i, captures);
            i <= k <= o.end.value && AnyMatches(s, alts, i, k) && SeqMatches(s, rest, k, o.end.value)
    decreases AltsSize(alts) + SeqSize(rest), 1, 0
  {
    if RunBranch(s, alts[0].nodes, slot, rest, i, captures).end.Some? {
      k := BranchSound(s, alts[0].nodes, slot, rest, i, captures);
    } else {
      k := GroupSound(s, alts[1..], slot, rest, i, captures);
      var a :| 0 <= a < |alts[1..]| && SeqMatches(s, alts[1..][a].nodes, i, k);
      assert alts[1..][a] == alts[a + 1];
    }
  }

  lemma {:induction false} BranchSound(
    s: Subject, branch: seq<Node>, slot: Option<nat>, rest: seq<Node>, i: nat, captures: Captures)
    returns (k: nat)
    requires i <= |s.chars| && RunBranch(s, branch, slot, rest, i, captures).end.Some?
    ensures var o := RunBranch(s, branch, slot, rest, i, captures);
            i <= k <= o.end.value && SeqMatches(s, branch, i, k) && SeqMatches(s, rest, k, o.end.value)
    decreases SeqSize(branch) + SeqSize(rest), 0, 2
  {
    var inner := Run(s, branch, i, captures);
    k := inner.end.value;
    RunSound(s, branch, i, captures);
    RunSound(s, rest, k, Record(s, inner.captures, slot, i, k));
  }

  lemma {:induction false} WalkSound(s: Subject, node: Node, max: nat, i: nat, captures: Captures)
    requires i <= |s.chars|
    ensures var w := Walk(s, node, max, i, captures);
            |w.positions| <= max + 1 &&
            forall times: nat :: times < |w.positions| ==> Chain(s, node, times, i, w.positions[times])
    decreases NodeSize(node), 1, |s.chars| - i
  {
    SingletonSize(node);
    var w := Walk(s, node, max, i, captures);
    if max > 0 {
      var next := Run(s, [node], i, captures);
      if next.end.Some? && next.end.value != i {
        RunSound(s, [node], i, captures);
        SingletonMatches(s, node, i, next.end.value);
        WalkSound(s, node, max - 1, next.end.value, next.captures);
        var further := Walk(s, node, max - 1, next.end.value, next.captures);
        forall times: nat | times < |w.positions|
          ensures Chain(s, node, times, i, w.positions[times])
        {
          if times > 0 {
            assert w.positions[times] == further.positions[times - 1];
            assert Chain(s, node, times - 1, next.end.value, further.positions[times - 1]);
          }
        }
      }
    }
  }

  lemma {:induction false} SingletonMatches(s: Subject, node: Node, i: nat, j: nat)
    requires i <= j
    ensures SeqMatches(s, [node], i, j) <==> NodeMatches(s, node, i, j)
  {
    assert [node][1..] == [];
    assert NodeMatches(s, node, i, j) ==> NodeMatches(s, [node][0], i, j) && SeqMatches(s, [node][1..], j, j);
  }

  lemma {:induction false} TrySound(s: Subject, rest: seq<Node>, candidates: seq<nat>, captures: Captures)
    requires forall k :: 0 <= k < |candidates| ==> candidates[k] <= |s.chars|
    ensures var o := TryEach(s, rest, candidates, captures);
            o.end.Some? ==> exists k :: 0 <= k < |candidates| && SeqMatches(s, rest, candidates[k], o.end.value)
                                        && candidates[k] <= o.end.value
    decreases SeqSize(rest), 1, |candidates|
  {
    if candidates != [] {
      RunSound(s, rest, candidates[0], captures);
      if Run(s, rest, candidates[0], captures).end.None? {
        TrySound(s, rest, candidates[1..], captures);
      }
    }
  }

  // ---- patterns the search is complete for -----------------------------------

  /** How many characters every match of `n` consumes, when that is fixed. */
  function Width(n: Node): Option<nat>
    decreases NodeSize(n), 0
  {
    match n
    case Char(_) => Some(1)
    case Any => Some(1)
    case Class(_, _) => Some(1)
    case Group(alternatives, _) => AltsWidth(alternatives)
    case Repeat(node, min, max, _) =>
      var w := Width(node);
      if min == max && w.Some? then Some(min * w.value) else None
    case _ => Some(0)
  }

  function SeqWidth(nodes: seq<Node>): Option<nat>
    decreases SeqSize(nodes), 1
  {
    if nodes == [] then Some(0)
    else
      var first, rest := Width(nodes[0]), SeqWidth(nodes[1..]);
      if first.Some? && rest.Some? then Some(first.value + rest.value) else None
  }

  function AltsWidth(alts: seq<Branch>): Option<nat>
    decreases AltsSize(alts), 1
  {
    if alts == [] then None
    else
      var first := SeqWidth(alts[0].nodes);
      if |alts| == 1 || AltsWidth(alts[1..]) == first then first else None
  }

  /**
    Whatever follows: group alternatives have a fixed width each, and so do
    repeated bodies, whose width is above zero unless no repetition is required.
   */
  predicate Reliable(n: Node)
    decreases NodeSize(n), 0
  {
    match n
    case Group(alternatives, _) => AltsReliable(alternatives)
    case Repeat(node, min, _, _) => Reliable(node) && Width(node).Some? && (Width(node).value > 0 || min == 0)
    case _ => true
  }

  /** No match of `n` is empty. */
  predicate Consumes(n: Node)
    decreases NodeSize(n), 0
  {
    match n
    case Char(_) => true
    case Any => true
    case Class(_, _) => true
    case Group(alternatives, _) => AltsConsume(alternatives)
    case Repeat(node, min, _, _) => min > 0 && Consumes(node)
    case _ => false
  }

  predicate SeqConsumes(nodes: seq<Node>)
    decreases SeqSize(nodes), 1
  {
    nodes != [] && (Consumes(nodes[0]) || SeqConsumes(nodes[1..]))
  }

  predicate AltsConsume(alts: seq<Branch>)
    decreases AltsSize(alts), 1
  {
    alts == [] || (SeqConsumes(alts[0].nodes) && AltsConsume(alts[1..]))
  }

  /**
    With nothing after it, any end will do: a group may end where it likes, and
    so may a repetition of which at most one round is required.
   */
  predicate LastReliable(n: Node)
    decreases NodeSize(n), 2
  {
    Reliable(n) ||
    match n
    case Group(alternatives, _) => AltsLastReliable(alternatives)
    case Repeat(node, min, _, _) => min == 0 || (min == 1 && Consumes(node) && LastReliable(node))
    case _ => true
  }

  predicate AltsLastReliable(alts: seq<Branch>)
    decreases AltsSize(alts), 1
  {
    alts == [] || (SeqReliable(alts[0].nodes) && AltsLastReliable(alts[1..]))
  }

  predicate SeqReliable(nodes: seq<Node>)
    decreases SeqSize(nodes), 3
  {
    if |nodes| == 1 then LastReliable(nodes[0])
    else nodes == [] || (Reliable(nodes[0]) && SeqReliable(nodes[1..]))
  }

  predicate AltsReliable(alts: seq<Branch>)
    decreases AltsSize(alts), 1
  {
    alts == [] || (SeqReliable(alts[0].nodes) && SeqWidth(alts[0].nodes).Some? && AltsReliable(alts[1..]))
  }

  lemma {:induction false} WidthFixesEnd(s: Subject, n: Node, i: nat, j: nat)
    requires Width(n).Some? && NodeMatches(s, n, i, j)
    ensures j == i + Width(n).value
    decreases NodeSize(n), 0, 0
  {
    hide AltsWidth, SeqWidth, SeqMatches, Chain;
    match n
    case Group(alternatives, _) =>
      var a :| 0 <= a < |alternatives| && SeqMatches(s, alternatives[a].nodes, i, j);
      AltSmaller(alternatives, a);
      AltsWidthEach(alternatives, a);
      SeqWidthFixesEnd(s, alternatives[a].nodes, i, j);
    case Repeat(node, min, max, _) =>
      var times: nat :| min <= times <= max && Chain(s, node, times, i, j);
      ChainWidth(s, node, times, i, j);
    case _ =>
  }

  lemma {:induction false} AltsWidthEach(alts: seq<Branch>, a: nat)
    requires a < |alts| && AltsWidth(alts).Some?
    ensures SeqWidth(alts[a].nodes) == AltsWidth(alts)
  {
    if a > 0 {
      AltsWidthEach(alts[1..], a - 1);
    }
  }

  lemma {:induction false} SeqWidthFixesEnd(s: Subject, nodes: seq<Node>, i: nat, j: nat)
    requires SeqWidth(nodes).Some? && SeqMatches(s, nodes, i, j)
    ensures j == i + SeqWidth(nodes).value
    decreases SeqSize(nodes), 1, 0
  {
    if nodes != [] {
      var k: nat :| i <= k <= j && NodeMatches(s, nodes[0], i, k) && SeqMatches(s, nodes[1..], k, j);
      WidthFixesEnd(s, nodes[0], i, k);
      SeqWidthFixesEnd(s, nodes[1..], k, j);
    }
  }

  lemma {:induction false} ChainWidth(s: Subject, node: Node, times: nat, i: nat, j: nat)
    requires Width(node).Some? && Chain(s, node, times, i, j)
    ensures j == i + times * Width(node).value
    decreases NodeSize(node), 1, times
  {
    if times > 0 {
      var k: nat :| i <= k <= j && NodeMatches(s, node, i, k) && Chain(s, node, times - 1, k, j);
      WidthFixesEnd(s, node, i, k);
      ChainWidth(s, node, times - 1, k, j);
      assert times * Width(node).value == (times - 1) * Width(node).value + Width(node).value;
    }
  }

  lemma {:induction false} FirstOfChain(s: Subject, node: Node, times: nat, i: nat, j: nat) returns (k: nat)
    requires times > 0 && Chain(s, node, times, i, j)
    ensures i <= k <= j && NodeMatches(s, node, i, k)
  {
    k :| i <= k <= j && NodeMatches(s, node, i, k) && Chain(s, node, times - 1, k, j);
  }

  lemma {:induction false} ConsumesProgress(s: Subject, n: Node, i: nat, j: nat)
    requires Consumes(n) && i <= j && NodeMatches(s, n, i, j)
    ensures i < j
    decreases NodeSize(n), 0, 0
  {
    match n
    case Group(alternatives, _) =>
      var a :| 0 <= a < |alternatives| && SeqMatches(s, alternatives[a].nodes, i, j);
      AltSmaller(alternatives, a);
      AltsConsumeEach(alternatives, a);
      SeqConsumesProgress(s, alternatives[a].nodes, i, j);
    case Repeat(node, min, max, _) =>
      var times: nat :| min <= times <= max && Chain(s, node, times, i, j);
      var k := FirstOfChain(s, node, times, i, j);
      ConsumesProgress(s, node, i, k);
    case _ =>
  }

  lemma {:induction false} AltsConsumeEach(alts: seq<Branch>, a: nat)
    requires a < |alts| && AltsConsume(alts)
    ensures SeqConsumes(alts[a].nodes)
  {
    if a > 0 {
      AltsConsumeEach(alts[1..], a - 1);
    }
  }

  lemma {:induction false} SeqConsumesProgress(s: Subject, nodes: seq<Node>, i: nat, j: nat)
    requires SeqConsumes(nodes) && i <= j && SeqMatches(s, nodes, i, j)
    ensures i < j
    decreases SeqSize(nodes), 1, 0
  {
    var k: nat :| i <= k <= j && NodeMatches(s, nodes[0], i, k) && SeqMatches(s, nodes[1..], k, j);
    if Consumes(nodes[0]) {
      ConsumesProgress(s, nodes[0], i, k);
    } else {
      SeqConsumesProgress(s, nodes[1..], k, j);
    }
  }

  /** Where a reliable pattern has a match, the search finds one. */
  lemma {:induction false} RunComplete(s: Subject, nodes: seq<Node>, i: nat, j: nat, captures: Captures)
    requires SeqReliable(nodes) && i <= j <= |s.chars| && SeqMatches(s, nodes, i, j)
    ensures Run(s, nodes, i, captures).end.Some?
    decreases SeqSize(nodes), 0, 3
  {
    if nodes != [] {
      var rest := nodes[1..];
      var k: nat :| i <= k <= j && NodeMatches(s, nodes[0], i, k) && SeqMatches(s, rest, k, j);
      if Reliable(nodes[0]) {
        FirstComplete(s, nodes, i, k, j, captures);
      } else {
        assert nodes == [nodes[0]];
        SingletonSize(nodes[0]);
        LastComplete(s, nodes[0], i, k, captures);
      }
    }
  }

  lemma {:induction false} FirstComplete(s: Subject, nodes: seq<Node>, i: nat, k: nat, j: nat, captures: Captures)
    requires nodes != [] && Reliable(nodes[0]) && SeqReliable(nodes[1..]) && i <= k <= j <= |s.chars|
    requires NodeMatches(s, nodes[0], i, k) && SeqMatches(s, nodes[1..], k, j)
    ensures Run(s, nodes, i, captures).end.Some?
    decreases SeqSize(nodes), 0, 2
  {
    var rest := nodes[1..];
    match nodes[0]
    case Repeat(node, min, max, greedy) =>
      assert NodeMatches(s, Repeat(node, min, max, greedy), i, k);
      var times: nat :| min <= times <= max && Chain(s, node, times, i, k);
      RepeatComplete(s, nodes[0], rest, times, i, k, j, captures);
    case Group(alternatives, slot) =>
      assert NodeSize(nodes[0]) == 1 + AltsSize(alternatives);
      var a :| 0 <= a < |alternatives| && SeqMatches(s, alternatives[a].nodes, i, k);
      GroupComplete(s, alternatives, a, slot, rest, i, k, j, captures);
    case simple =>
      StepExact(s, simple, i, k);
      RunComplete(s, rest, k, j, captures);
  }

  /** The last node: some end is found. */
  lemma {:induction false} LastComplete(s: Subject, n: Node, i: nat, j: nat, captures: Captures)
    requires LastReliable(n) && !Reliable(n) && i <= j <= |s.chars| && NodeMatches(s, n, i, j)
    ensures Run(s, [n], i, captures).end.Some?
    decreases NodeSize(n), 0, 2
  {
    assert [n][1..] == [];
    match n
    case Group(alternatives, slot) =>
      var a :| 0 <= a < |alternatives| && SeqMatches(s, alternatives[a].nodes, i, j);
      LastGroupComplete(s, alternatives, a, slot, i, j, captures);
    case Repeat(node, min, max, greedy) =>
      var times: nat :| min <= times <= max && Chain(s, node, times, i, j);
      if min == 1 {
        var k := FirstOfChain(s, node, times, i, j);
        FirstRound(s, node, max, i, k, captures);
      }
      var w := Walk(s, node, max, i, captures);
      var at := CandidateIndex(w.positions, min, greedy, min);
      TryComplete(s, [], Candidates(w.positions, min, greedy), at, w.captures);
  }

  /** A body that consumes something makes one round. */
  lemma {:induction false} FirstRound(s: Subject, node: Node, max: nat, i: nat, k: nat, captures: Captures)
    requires LastReliable(node) && Consumes(node) && i <= k <= |s.chars| && NodeMatches(s, node, i, k) && max > 0
    ensures |Walk(s, node, max, i, captures).positions| > 1
    decreases NodeSize(node), 1, 1
  {
    SingletonSize(node);
    SingletonMatches(s, node, i, k);
    SingletonReliable(node);
    RunComplete(s, [node], i, k, captures);
    RunSound(s, [node], i, captures);
    var end := Run(s, [node], i, captures).end.value;
    SingletonMatches(s, node, i, end);
    ConsumesProgress(s, node, i, end);
  }

  lemma {:induction false} LastGroupComplete(
    s: Subject, alts: seq<Branch>, a: nat, slot: Option<nat>, i: nat, j: nat, captures: Captures)
    requires a < |alts| && AltsLastReliable(alts) && i <= j <= |s.chars| && SeqMatches(s, alts[a].nodes, i, j)
    ensures RunGroup(s, alts, slot, [], i, captures).end.Some?
    decreases AltsSize(alts), 1, 0
  {
    hide SeqMatches, SeqReliable, RunBranch;
    if a == 0 {
      LastBranchComplete(s, alts[0].nodes, slot, i, j, captures);
    } else {
      LastGroupComplete(s, alts[1..], a - 1, slot, i, j, captures);
    }
  }

  lemma {:induction false} LastBranchComplete(
    s: Subject, branch: seq<Node>, slot: Option<nat>, i: nat, j: nat, captures: Captures)
    requires SeqReliable(branch) && i <= j <= |s.chars| && SeqMatches(s, branch, i, j)
    ensures RunBranch(s, branch, slot, [], i, captures).end.Some?
    decreases SeqSize(branch), 0, 4
  {
    hide SeqMatches, SeqReliable, Record;
    RunComplete(s, branch, i, j, captures);
  }

  lemma {:induction false} RepeatComplete(
    s: Subject, n: Node, rest: seq<Node>, times: nat, i: nat, k: nat, j: nat, captures: Captures)
    requires n.Repeat? && Reliable(n) && SeqReliable(rest) && i <= k <= j <= |s.chars|
    requires n.min <= times <= n.max && Chain(s, n.node, times, i, k) && SeqMatches(s, rest, k, j)
    ensures RunRepeat(s, n.node, n.min, n.max, n.greedy, rest, i, captures).end.Some?
    decreases NodeSize(n) + SeqSize(rest), 0, 1
  {
    var w := Walk(s, n.node, n.max, i, captures);
    var at := ReachedByWalk(s, n, times, i, k, captures);
    RunComplete(s, rest, k, j, w.captures);
    TryComplete(s, rest, Candidates(w.positions, n.min, n.greedy), at, w.captures);
  }

  lemma {:induction false} ReachedByWalk(
    s: Subject, n: Node, times: nat, i: nat, k: nat, captures: Captures) returns (at: nat)
    requires n.Repeat? && Reliable(n) && i <= k <= |s.chars|
    requires n.min <= times <= n.max && Chain(s, n.node, times, i, k)
    ensures var positions := Walk(s, n.node, n.max, i, captures).positions;
            n.min < |positions| && at < |Candidates(positions, n.min, n.greedy)|
              && Candidates(positions, n.min, n.greedy)[at] == k
    decreases NodeSize(n), 0, 0
  {
    var reached := times;
    if Width(n.node).value > 0 {
      WalkComplete(s, n.node, n.max, times, i, k, captures);
    } else {
      ChainWidth(s, n.node, times, i, k);
      reached := 0;
    }
    at := CandidateIndex(Walk(s, n.node, n.max, i, captures).positions, n.min, n.greedy, reached);
  }

  lemma {:induction false} CandidateIndex(positions: seq<nat>, min: nat, greedy: bool, times: nat) returns (at: nat)
    requires min <= times < |positions|
    ensures at < |Candidates(positions, min, greedy)| && Candidates(positions, min, greedy)[at] == positions[times]
  {
    var tail := positions[min..];
    assert tail[times - min] == positions[times];
    at := if greedy then |tail| - 1 - (times - min) else times - min;
  }

  lemma {:induction false} GroupComplete(
    s: Subject, alts: seq<Branch>, a: nat, slot: Option<nat>, rest: seq<Node>, i: nat, k: nat, j: nat,
    captures: Captures)
    requires a < |alts| && AltsReliable(alts) && SeqReliable(rest) && i <= k <= j <= |s.chars|
    requires SeqMatches(s, alts[a].nodes, i, k) && SeqMatches(s, rest, k, j)
    ensures RunGroup(s, alts, slot, rest, i, captures).end.Some?
    decreases AltsSize(alts) + SeqSize(rest), 1, 0
  {
    if a == 0 {
      BranchComplete(s, alts[0].nodes, slot, rest, i, k, j, captures);
    } else {
      GroupComplete(s, alts[1..], a - 1, slot, rest, i, k, j, captures);
    }
  }

  lemma {:induction false} BranchComplete(
    s: Subject, branch: seq<Node>, slot: Option<nat>, rest: seq<Node>, i: nat, k: nat, j: nat, captures: Captures)
    requires SeqReliable(branch) && SeqWidth(branch).Some? && SeqReliable(rest) && i <= k <= j <= |s.chars|
    requires SeqMatches(s, branch, i, k) && SeqMatches(s, rest, k, j)
    ensures RunBranch(s, branch, slot, rest, i, captures).end.Some?
    decreases SeqSize(branch) + SeqSize(rest), 0, 5
  {
    hide Run, SeqMatches, SeqReliable, SeqWidth, Record;
    OnlyEnd(s, branch, i, k, captures);
    RunComplete(s, rest, k, j, Record(s, Run(s, branch, i, captures).captures, slot, i, k));
  }

  /** With a fixed width there is only one end to find. */
  lemma {:induction false} OnlyEnd(s: Subject, nodes: seq<Node>, i: nat, k: nat, captures: Captures)
    requires SeqReliable(nodes) && SeqWidth(nodes).Some? && i <= k <= |s.chars| && SeqMatches(s, nodes, i, k)
    ensures Run(s, nodes, i, captures).end == Some(k)
    decreases SeqSize(nodes), 0, 4
  {
    hide Run, SeqMatches, SeqReliable, SeqWidth;
    RunComplete(s, nodes, i, k, captures);
    RunSound(s, nodes, i, captures);
    SeqWidthFixesEnd(s, nodes, i, k);
    SeqWidthFixesEnd(s, nodes, i, Run(s, nodes, i, captures).end.value);
  }

  lemma {:induction false} WalkComplete(
    s: Subject, node: Node, max: nat, times: nat, i: nat, k: nat, captures: Captures)
    requires Reliable(node) && Width(node).Some? && Width(node).value > 0
    requires times <= max && i <= k <= |s.chars| && Chain(s, node, times, i, k)
    ensures var w := Walk(s, node, max, i, captures); times < |w.positions| && w.positions[times] == k
    decreases NodeSize(node), 1, times
  {
    hide Run, NodeMatches, Width, Reliable;
    if times > 0 {
      SingletonSize(node);
      var mid: nat :| i <= mid <= k && NodeMatches(s, node, i, mid) && Chain(s, node, times - 1, mid, k);
      OneRound(s, node, i, mid, captures);
      WidthFixesEnd(s, node, i, mid);
      var next := Run(s, [node], i, captures);
      WalkComplete(s, node, max - 1, times - 1, mid, k, next.captures);
      var w := Walk(s, node, max, i, captures);
      assert w.positions == [i] + Walk(s, node, max - 1, mid, next.captures).positions;
    }
  }

  lemma {:induction false} OneRound(s: Subject, node: Node, i: nat, mid: nat, captures: Captures)
    requires Reliable(node) && Width(node).Some? && i <= mid <= |s.chars| && NodeMatches(s, node, i, mid)
    ensures Run(s, [node], i, captures).end == Some(mid)
    decreases NodeSize(node), 0, 5
  {
    SingletonSize(node);
    SingletonMatches(s, node, i, mid);
    SingletonReliable(node);
    OnlyEnd(s, [node], i, mid, captures);
  }

  lemma {:induction false} SingletonReliable(node: Node)
    ensures SeqReliable([node]) == LastReliable(node) && SeqWidth([node]) == Width(node)
  {
    assert [node][1..] == [];
  }

  lemma {:induction false} TryComplete(s: Subject, rest: seq<Node>, candidates: seq<nat>, at: nat, captures: Captures)
    requires forall k :: 0 <= k < |candidates| ==> candidates[k] <= |s.chars|
    requires at < |candidates| && Run(s, rest, candidates[at], captures).end.Some?
    ensures TryEach(s, rest, candidates, captures).end.Some?
    decreases |candidates|
  {
    if at > 0 {
      TryComplete(s, rest, candidates[1..], at - 1, captures);
    }
  }

  /** For a reliable pattern the search and the language agree at every start. */
  lemma {:induction false} RunDecidesReliable(s: Subject, nodes: seq<Node>, i: nat, captures: Captures)
    requires SeqReliable(nodes) && i <= |s.chars|
    ensures Run(s, nodes, i, captures).end.Some? <==> exists j: nat :: i <= j <= |s.chars| && SeqMatches(s, nodes, i, j)
  {
    RunSound(s, nodes, i, captures);
    var o := Run(s, nodes, i, captures);
    if o.end.Some? {
      assert i <= o.end.value <= |s.chars| && SeqMatches(s, nodes, i, o.end.value);
    }
    if exists j: nat :: i <= j <= |s.chars| && SeqMatches(s, nodes, i, j) {
      var j: nat :| i <= j <= |s.chars| && SeqMatches(s, nodes, i, j);
      RunComplete(s, nodes, i, j, captures);
    }
  }

  // ---- which match it prefers --------------------------------------------------

  /** Candidates are tried in their order: the answer is that of the first from which the rest is found. */
  lemma {:induction false} TryTakesFirst(
    s: Subject, rest: seq<Node>, candidates: seq<nat>, captures: Captures) returns (at: nat)
    requires forall k :: 0 <= k < |candidates| ==> candidates[k] <= |s.chars|
    requires TryEach(s, rest, candidates, captures).end.Some?
    ensures at < |candidates| && TryEach(s, rest, candidates, captures) == Run(s, rest, candidates[at], captures)
    ensures forall k :: 0 <= k < at ==> Run(s, rest, candidates[k], captures).end == None
    decreases |candidates|
  {
    hide Run;
    if Run(s, rest, candidates[0], captures).end.Some? {
      at := 0;
    } else {
      var later := TryTakesFirst(s, rest, candidates[1..], captures);
      at := later + 1;
      forall k | 0 < k < at
        ensures Run(s, rest, candidates[k], captures).end == None
      {
        assert candidates[k] == candidates[1..][k - 1];
      }
    }
  }

  lemma {:induction false} CandidatePlaces(positions: seq<nat>, min: nat, greedy: bool)
    requires min <= |positions|
    ensures |Candidates(positions, min, greedy)| == |positions| - min
    ensures forall k :: 0 <= k < |positions| - min ==>
              Candidates(positions, min, greedy)[k] == positions[if greedy then |positions| - 1 - k else min + k]
  {
    hide Reverse;
    var tail := positions[min..];
    forall k | 0 <= k < |positions| - min
      ensures Candidates(positions, min, greedy)[k] == positions[if greedy then |positions| - 1 - k else min + k]
    {
      assert tail[if greedy then |tail| - 1 - k else k] == positions[if greedy then |positions| - 1 - k else min + k];
    }
  }

  /** The rest is found after `times` rounds of the walk. */
  ghost predicate GoesOnFrom(s: Subject, rest: seq<Node>, w: Walked, times: nat) {
    times < |w.positions| && w.positions[times] <= |s.chars|
    && Run(s, rest, w.positions[times], w.captures).end.Some?
  }

  /**
    A greedy repeat goes on from as many rounds of its walk as it can, a lazy one
    from as few as its lower bound allows.
   */
  lemma {:induction false} RepeatPrefers(
    s: Subject, n: Node, rest: seq<Node>, i: nat, captures: Captures) returns (times: nat)
    requires i <= |s.chars| && n.Repeat? && RunRepeat(s, n.node, n.min, n.max, n.greedy, rest, i, captures).end.Some?
    ensures var w := Walk(s, n.node, n.max, i, captures);
            && n.min <= times && GoesOnFrom(s, rest, w, times)
            && RunRepeat(s, n.node, n.min, n.max, n.greedy, rest, i, captures)
               == Run(s, rest, w.positions[times], w.captures)
            && forall t :: n.min <= t && GoesOnFrom(s, rest, w, t) ==> if n.greedy then t <= times else times <= t
  {
    hide Run, Walk, Candidates, TryEach;
    var w := Walk(s, n.node, n.max, i, captures);
    var candidates := Candidates(w.positions, n.min, n.greedy);
    CandidatePlaces(w.positions, n.min, n.greedy);
    var at := TryTakesFirst(s, rest, candidates, w.captures);
    times := if n.greedy then |w.positions| - 1 - at else n.min + at;
    forall t | n.min <= t && GoesOnFrom(s, rest, w, t)
      ensures if n.greedy then t <= times else times <= t
    {
      var place := if n.greedy then |w.positions| - 1 - t else t - n.min;
      assert candidates[place] == w.positions[t];
    }
  }

  /** A group takes the first of its alternatives with which the pattern goes on. */
  lemma {:induction false} GroupPrefers(
    s: Subject, alts: seq<Branch>, slot: Option<nat>, rest: seq<Node>, i: nat, captures: Captures) returns (a: nat)
    requires i <= |s.chars| && RunGroup(s, alts, slot, rest, i, captures).end.Some?
    ensures a < |alts|
    ensures RunGroup(s, alts, slot, rest, i, captures) == RunBranch(s, alts[a].nodes, slot, rest, i, captures)
    ensures forall b :: 0 <= b < a ==> RunBranch(s, alts[b].nodes, slot, rest, i, captures).end == None
    decreases |alts|
  {
    hide RunBranch;
    if RunBranch(s, alts[0].nodes, slot, rest, i, captures).end.Some? {
      a := 0;
    } else {
      var later := GroupPrefers(s, alts[1..], slot, rest, i, captures);
      a := later + 1;
      forall b | 0 < b < a
        ensures RunBranch(s, alts[b].nodes, slot, rest, i, captures).end == None
      {
        assert alts[b] == alts[1..][b - 1];
      }
    }
  }

  // ---- where the search is not complete ----------------------------------------

  /**
    A repetition of something that consumes nothing is never found when at least
    one is required, wherever it would match: `^+`, or a doubled word boundary.
   */
  lemma {:induction false} ZeroWidthRepeatNeverFound(
    s: Subject, node: Node, min: nat, max: nat, greedy: bool, rest: seq<Node>, i: nat, captures: Captures)
    requires Width(node) == Some(0) && 0 < min <= max && i <= |s.chars|
    ensures Run(s, [Repeat(node, min, max, greedy)] + rest, i, captures).end == None
    ensures NodeMatches(s, node, i, i) ==> NodeMatches(s, Repeat(node, min, max, greedy), i, i)
  {
    SingletonSize(node);
    var next := Run(s, [node], i, captures);
    RunSound(s, [node], i, captures);
    if next.end.Some? {
      SingletonMatches(s, node, i, next.end.value);
      WidthFixesEnd(s, node, i, next.end.value);
    }
    assert Walk(s, node, max, i, captures).positions == [i];
    if NodeMatches(s, node, i, i) {
      StandingChain(s, node, min, i);
    }
  }

  lemma {:induction false} StandingChain(s: Subject, node: Node, times: nat, i: nat)
    requires NodeMatches(s, node, i, i)
    ensures Chain(s, node, times, i, i)
  {
    if times > 0 {
      StandingChain(s, node, times - 1, i);
    }
  }

  /** The pattern `(a*)ab`. */
  function StarGroup(): seq<Node> {
    [Group([Branch([Repeat(Char('a'), 0, 0xffff_ffff, true)])], Some(1)), Char('a'), Char('b')]
  }

  /** A group commits to its own first match: "aab" is in the language of `(a*)ab` and is not found. */
  lemma {:induction false} GroupCommits(tables: Tables, captures: Captures)
    ensures var s := Subject("aab", false, tables);
            SeqMatches(s, StarGroup(), 0, 3) && Run(s, StarGroup(), 0, captures).end == None
  {
    var s := Subject("aab", false, tables);
    StarGroupMatches(s);
    var star := Repeat(Char('a'), 0, 0xffff_ffff, true);
    var rest := [Char('a'), Char('b')];
    assert StarGroup()[1..] == rest;
    GreedyStar(s, captures);
    var inner := Run(s, [star], 0, captures);
    assert StepOne(s, Char('a'), 2) == None;
    assert Run(s, rest, 2, Record(s, inner.captures, Some(1), 0, 2)).end == None;
    assert [Branch([star])][1..] == [];
    assert RunGroup(s, [Branch([star])], Some(1), rest, 0, captures).end == None;
  }

  lemma {:induction false} StarGroupMatches(s: Subject)
    requires s.chars == "aab"
    ensures SeqMatches(s, StarGroup(), 0, 3)
  {
    var a, b := Char('a'), Char('b');
    var star := Repeat(a, 0, 0xffff_ffff, true);
    assert NodeMatches(s, a, 0, 1) && NodeMatches(s, a, 1, 2) && NodeMatches(s, b, 2, 3);
    assert Chain(s, a, 0, 1, 1);
    assert Chain(s, a, 1, 0, 1);
    assert NodeMatches(s, star, 0, 1);
    SingletonMatches(s, star, 0, 1);
    assert SeqMatches(s, [Branch([star])][0].nodes, 0, 1);
    assert NodeMatches(s, Group([Branch([star])], Some(1)), 0, 1);
    SingletonMatches(s, b, 2, 3);
    assert [a, b][1..] == [b];
    SequenceMatches(s, [a, b], 1, 2, 3);
    assert StarGroup()[1..] == [a, b];
    SequenceMatches(s, StarGroup(), 0, 1, 3);
  }

  lemma {:induction false} GreedyStar(s: Subject, captures: Captures)
    requires s.chars == "aab" && !s.ignoreCase
    ensures Run(s, [Repeat(Char('a'), 0, 0xffff_ffff, true)], 0, captures).end == Some(2)
  {
    var a := Char('a');
    forall i: nat, c: Captures | i < 2
      ensures Run(s, [a], i, c) == Outcome(Some(i + 1), c)
    {
      assert [a][1..] == [];
    }
    assert Run(s, [a], 2, captures).end == None;
    assert Walk(s, a, 0xffff_fffd, 2, captures) == Walked([2], captures);
    assert Walk(s, a, 0xffff_fffe, 1, captures) == Walked([1, 2], captures);
    assert Walk(s, a, 0xffff_ffff, 0, captures) == Walked([0, 1, 2], captures);
    var candidates := Candidates([0, 1, 2], 0, true);
    assert candidates[0] == 2;
    assert Run(s, [], 2, captures).end == Some(2);
    assert [Repeat(a, 0, 0xffff_ffff, true)][1..] == [];
  }
}
