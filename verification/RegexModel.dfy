/**
  The regex engine's syntax tree, the language of a pattern over a subject, and
  the matcher's search written as a function of its inputs.
 */
module RegexModel {
  import opened Wrappers
  import Utf

  datatype Node =
    | Char(c: char)
    | Any
    | Class(ranges: seq<(char, char)>, negated: bool)
    | Start
    | End
    | WordBoundary(inverted: bool)
    | Group(alternatives: seq<Branch>, index: Option<nat>)
    | Repeat(node: Node, min: nat, max: nat, greedy: bool)

  /** One side of an alternation. */
  datatype Branch = Branch(nodes: seq<Node>)

  type Captures = seq<Option<(nat, nat)>>

  /** The Unicode tables the standard library supplies. */
  datatype Tables = Tables(alphanumeric: char -> bool, lower: char -> string, upper: char -> string)

  datatype Subject = Subject(chars: string, ignoreCase: bool, tables: Tables)

  // ---- sizes, the structural part of every termination argument ----------

  function NodeSize(n: Node): (size: nat)
    ensures size > 0
  {
    match n
    case Group(alternatives, _) => 1 + AltsSize(alternatives)
    case Repeat(node, _, _, _) => 1 + NodeSize(node)
    case _ => 1
  }

  function SeqSize(nodes: seq<Node>): (size: nat)
    ensures nodes != [] ==> size > SeqSize(nodes[1..])
  {
    if nodes == [] then 0 else NodeSize(nodes[0]) + SeqSize(nodes[1..])
  }

  function AltsSize(alts: seq<Branch>): nat {
    if alts == [] then 0 else 1 + SeqSize(alts[0].nodes) + AltsSize(alts[1..])
  }

  lemma {:induction false} AltSmaller(alts: seq<Branch>, a: nat)
    requires a < |alts|
    ensures SeqSize(alts[a].nodes) < AltsSize(alts)
  {
    if a > 0 {
      AltSmaller(alts[1..], a - 1);
    }
  }

  lemma {:induction false} SingletonSize(n: Node)
    ensures SeqSize([n]) == NodeSize(n)
  {
    assert [n][1..] == [];
  }

  // ---- the language of a pattern ------------------------------------------

  ghost predicate SameLetter(s: Subject, actual: char, expected: char) {
    actual == expected ||
    (s.ignoreCase && (AsciiLower(actual) == AsciiLower(expected) || s.tables.lower(actual) == s.tables.lower(expected)))
  }

  function AsciiLower(c: char): char {
    if 'A' <= c <= 'Z' then (c as int + 32) as char else c
  }

  predicate InRanges(c: char, ranges: seq<(char, char)>) {
    exists k :: 0 <= k < |ranges| && c >= ranges[k].0 && c <= ranges[k].1
  }

  ghost predicate ClassHolds(s: Subject, ranges: seq<(char, char)>, c: char) {
    InRanges(c, ranges) ||
    (s.ignoreCase && exists folded :: (folded in s.tables.lower(c) || folded in s.tables.upper(c))
                                      && InRanges(folded, ranges))
  }

  predicate IsWord(s: Subject, i: int) {
    0 <= i < |s.chars| && (s.tables.alphanumeric(s.chars[i]) || s.chars[i] == '_')
  }

  ghost predicate LineStart(s: Subject, i: nat) {
    i == 0 || (i <= |s.chars| && s.chars[i - 1] == '\n')
  }

  ghost predicate LineEnd(s: Subject, i: nat) {
    i == |s.chars| || (i < |s.chars| && s.chars[i] == '\n')
  }

  /** `n` matches the characters of the subject from `i` up to `j`. */
  ghost predicate NodeMatches(s: Subject, n: Node, i: nat, j: nat)
    decreases NodeSize(n), 0, 0
  {
    match n
    case Char(c) => i < |s.chars| && j == i + 1 && SameLetter(s, s.chars[i], c)
    case Any => i < |s.chars| && j == i + 1 && s.chars[i] != '\n'
    case Class(ranges, negated) => i < |s.chars| && j == i + 1 && (ClassHolds(s, ranges, s.chars[i]) != negated)
    case Start => i == j && LineStart(s, i)
    case End => i == j && LineEnd(s, i)
    case WordBoundary(inverted) => i == j && ((IsWord(s, i - 1) != IsWord(s, i)) != inverted)
    case Group(alternatives, _) =>
      exists a :: 0 <= a < |alternatives| && (AltSmaller(alternatives, a); SeqMatches(s, alternatives[a].nodes, i, j))
    case Repeat(node, min, max, _) =>
      exists times: nat :: min <= times <= max && Chain(s, node, times, i, j)
  }

  /** The nodes of `nodes` match one after another, from `i` up to `j`. */
  ghost predicate SeqMatches(s: Subject, nodes: seq<Node>, i: nat, j: nat)
    decreases SeqSize(nodes), 1, 0
  {
    if nodes == [] then i == j
    else exists k: nat :: i <= k <= j && NodeMatches(s, nodes[0], i, k) && SeqMatches(s, nodes[1..], k, j)
  }

  /** Exactly `times` matches of `n` in a row lead from `i` to `j`. */
  ghost predicate Chain(s: Subject, n: Node, times: nat, i: nat, j: nat)
    decreases NodeSize(n), 1, times
  {
    if times == 0 then i == j
    else exists k: nat :: i <= k <= j && NodeMatches(s, n, i, k) && Chain(s, n, times - 1, k, j)
  }

  ghost predicate AnyMatches(s: Subject, alts: seq<Branch>, i: nat, j: nat) {
    exists a :: 0 <= a < |alts| && SeqMatches(s, alts[a].nodes, i, j)
  }

  // ---- the matcher's search, as a function -----------------------------------

  /** One node that is neither a group nor a repeat. */
  function StepOne(s: Subject, n: Node, index: nat): (end: Option<nat>)
    requires index <= |s.chars|
    ensures end.Some? ==> index <= end.value <= |s.chars|
  {
    match n
    case Start => if index == 0 || s.chars[index - 1] == '\n' then Some(index) else None
    case End => if index == |s.chars| || s.chars[index] == '\n' then Some(index) else None
    case WordBoundary(inverted) =>
      var before := index > 0 && IsWord(s, index - 1);
      var boundary := before != IsWord(s, index);
      if boundary != inverted then Some(index) else None
    case Any => if index < |s.chars| && s.chars[index] != '\n' then Some(index + 1) else None
    case Char(expected) =>
      if index == |s.chars| then None else
      var actual := s.chars[index];
      var equal :=
        if s.ignoreCase then
          AsciiLower(actual) == AsciiLower(expected) || s.tables.lower(actual) == s.tables.lower(expected)
        else actual == expected;
      if equal then Some(index + 1) else None
    case Class(ranges, negated) =>
      if index == |s.chars| then None else
      var actual := s.chars[index];
      var folded := s.tables.lower(actual) + s.tables.upper(actual);
      var inside :=
        InRanges(actual, ranges) ||
        (s.ignoreCase && exists k :: 0 <= k < |folded| && InRanges(folded[k], ranges));
      if inside != negated then Some(index + 1) else None
    case Group(_, _) => None
    case Repeat(_, _, _, _) => None
  }

  datatype Outcome = Outcome(end: Option<nat>, captures: Captures)

  datatype Walked = Walked(positions: seq<nat>, captures: Captures)

  function Record(s: Subject, captures: Captures, slot: Option<nat>, i: nat, end: nat): Captures
    requires i <= |s.chars| && end <= |s.chars|
  {
    if slot.Some? && slot.value < |captures|
    then captures[slot.value := Some((Utf.Offset(s.chars, i), Utf.Offset(s.chars, end)))]
    else captures
  }

  function Run(s: Subject, nodes: seq<Node>, index: nat, captures: Captures): (o: Outcome)
    requires index <= |s.chars|
    ensures o.end.Some? ==> index <= o.end.value <= |s.chars|
    decreases SeqSize(nodes), 0, 0
  {
    if nodes == [] then Outcome(Some(index), captures)
    else
      assert SeqSize(nodes) == NodeSize(nodes[0]) + SeqSize(nodes[1..]);
      match nodes[0]
      case Repeat(node, min, max, greedy) =>
        assert NodeSize(nodes[0]) == 1 + NodeSize(node);
        RunRepeat(s, node, min, max, greedy, nodes[1..], index, captures)
      case Group(alternatives, slot) =>
        assert NodeSize(nodes[0]) == 1 + AltsSize(alternatives);
        RunGroup(s, alternatives, slot, nodes[1..], index, captures)
      case simple =>
        var end := StepOne(s, simple, index);
        if end.None? then Outcome(None, captures) else Run(s, nodes[1..], end.value, captures)
  }

  function RunRepeat(
    s: Subject, node: Node, min: nat, max: nat, greedy: bool, rest: seq<Node>, index: nat,
    captures: Captures): (o: Outcome)
    requires index <= |s.chars|
    ensures o.end.Some? ==> index <= o.end.value <= |s.chars|
    decreases NodeSize(node) + SeqSize(rest), 2, 0
  {
    var w := Walk(s, node, max, index, captures);
    if |w.positions| <= min then Outcome(None, w.captures)
    else TryEach(s, rest, Candidates(w.positions, min, greedy), w.captures)
  }

  function RunGroup(
    s: Subject, alts: seq<Branch>, slot: Option<nat>, rest: seq<Node>, index: nat, captures: Captures): (o: Outcome)
    requires index <= |s.chars|
    ensures o.end.Some? ==> index <= o.end.value <= |s.chars|
    decreases AltsSize(alts) + SeqSize(rest), 1, 0
  {
    if alts == [] then Outcome(None, captures)
    else
      var whole := RunBranch(s, alts[0].nodes, slot, rest, index, captures);
      if whole.end.Some? then whole else RunGroup(s, alts[1..], slot, rest, index, captures)
  }

  /** One alternative of a group, its span recorded, then whatever follows the group. */
  function RunBranch(
    s: Subject, branch: seq<Node>, slot: Option<nat>, rest: seq<Node>, index: nat, captures: Captures): (o: Outcome)
    requires index <= |s.chars|
    ensures o.end.Some? ==> index <= o.end.value <= |s.chars|
    decreases SeqSize(branch) + SeqSize(rest), 0, 1
  {
    var inner := Run(s, branch, index, captures);
    if inner.end.None? then Outcome(None, captures)
    else Run(s, rest, inner.end.value, Record(s, inner.captures, slot, index, inner.end.value))
  }

  /** Every end reachable by repeating `node`, in the order the walk meets them. */
  function Walk(s: Subject, node: Node, max: nat, index: nat, captures: Captures): (w: Walked)
    requires index <= |s.chars|
    ensures |w.positions| > 0 && w.positions[0] == index
    ensures forall k :: 0 <= k < |w.positions| ==> index <= w.positions[k] <= |s.chars|
    decreases NodeSize(node), 1, |s.chars| - index
  {
    SingletonSize(node);
    if max == 0 then Walked([index], captures)
    else
      var next := Run(s, [node], index, captures);
      if next.end.None? || next.end.value == index then Walked([index], captures)
      else
        var w := Walk(s, node, max - 1, next.end.value, next.captures);
        Walked([index] + w.positions, w.captures)
  }

  function Reverse(positions: seq<nat>): (r: seq<nat>)
    ensures |r| == |positions|
    ensures forall k :: 0 <= k < |r| ==> r[k] == positions[|positions| - 1 - k]
  {
    if positions == [] then [] else Reverse(positions[1..]) + [positions[0]]
  }

  function Candidates(positions: seq<nat>, lowest: nat, greedy: bool): seq<nat>
    requires lowest <= |positions|
  {
    if greedy then Reverse(positions[lowest..]) else positions[lowest..]
  }

  function TryEach(s: Subject, rest: seq<Node>, candidates: seq<nat>, captures: Captures): (o: Outcome)
    requires forall k :: 0 <= k < |candidates| ==> candidates[k] <= |s.chars|
    ensures o.end.Some? ==> o.end.value <= |s.chars| && exists k ::
                            0 <= k < |candidates| && candidates[k] <= o.end.value
    decreases SeqSize(rest), 1, |candidates|
  {
    if candidates == [] then Outcome(None, captures)
    else
      var o := Run(s, rest, candidates[0], captures);
      if o.end.Some? then o else TryEach(s, rest, candidates[1..], captures)
  }

  // ---- the steps the search takes --------------------------------------------

  /** How many steps the engine counts on the search `Run` describes. */
  function RunCost(s: Subject, nodes: seq<Node>, index: nat, captures: Captures): nat
    requires index <= |s.chars|
    decreases SeqSize(nodes), 0, 0
  {
    if nodes == [] then 1
    else
      assert SeqSize(nodes) == NodeSize(nodes[0]) + SeqSize(nodes[1..]);
      match nodes[0]
      case Repeat(node, min, max, greedy) =>
        assert NodeSize(nodes[0]) == 1 + NodeSize(node);
        1 + RepeatCost(s, node, min, max, greedy, nodes[1..], index, captures)
      case Group(alternatives, slot) =>
        assert NodeSize(nodes[0]) == 1 + AltsSize(alternatives);
        1 + GroupCost(s, alternatives, slot, nodes[1..], index, captures)
      case simple =>
        var end := StepOne(s, simple, index);
        2 + if end.None? then 0 else RunCost(s, nodes[1..], end.value, captures)
  }

  function RepeatCost(
    s: Subject, node: Node, min: nat, max: nat, greedy: bool, rest: seq<Node>, index: nat, captures: Captures): nat
    requires index <= |s.chars|
    decreases NodeSize(node) + SeqSize(rest), 2, 0
  {
    var w := Walk(s, node, max, index, captures);
    WalkCost(s, node, max, index, captures)
    + if |w.positions| <= min then 0 else TryCost(s, rest, Candidates(w.positions, min, greedy), w.captures)
  }

  function GroupCost(
    s: Subject, alts: seq<Branch>, slot: Option<nat>, rest: seq<Node>, index: nat, captures: Captures): nat
    requires index <= |s.chars|
    decreases AltsSize(alts) + SeqSize(rest), 1, 0
  {
    if alts == [] then 0
    else
      var first := BranchCost(s, alts[0].nodes, slot, rest, index, captures);
      first + if RunBranch(s, alts[0].nodes, slot, rest, index, captures).end.Some? then 0
              else GroupCost(s, alts[1..], slot, rest, index, captures)
  }

  function BranchCost(
    s: Subject, branch: seq<Node>, slot: Option<nat>, rest: seq<Node>, index: nat, captures: Captures): nat
    requires index <= |s.chars|
    decreases SeqSize(branch) + SeqSize(rest), 0, 1
  {
    var inner := Run(s, branch, index, captures);
    RunCost(s, branch, index, captures)
    + if inner.end.None? then 0
      else RunCost(s, rest, inner.end.value, Record(s, inner.captures, slot, index, inner.end.value))
  }

  function WalkCost(s: Subject, node: Node, max: nat, index: nat, captures: Captures): nat
    requires index <= |s.chars|
    decreases NodeSize(node), 1, |s.chars| - index
  {
    SingletonSize(node);
    if max == 0 then 0
    else
      var next := Run(s, [node], index, captures);
      1 + RunCost(s, [node], index, captures)
      + if next.end.None? || next.end.value == index then 0
        else WalkCost(s, node, max - 1, next.end.value, next.captures)
  }

  function TryCost(s: Subject, rest: seq<Node>, candidates: seq<nat>, captures: Captures): nat
    requires forall k :: 0 <= k < |candidates| ==> candidates[k] <= |s.chars|
    decreases SeqSize(rest), 1, |candidates|
  {
    if candidates == [] then 0
    else
      RunCost(s, rest, candidates[0], captures)
      + if Run(s, rest, candidates[0], captures).end.Some? then 0 else TryCost(s, rest, candidates[1..], captures)
  }
}
