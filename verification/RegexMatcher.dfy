/**
  The backtracking matcher as the engine runs it: a step counter, and captures
  updated in place and put back when a branch fails.
 */
module RegexMatcher {
  import opened Wrappers
  import opened RegexModel

  const STEP_BUDGET: nat := 1_000_000

  /** The capture slots one attempt shares among its branches. */
  class Slots {
    var slots: Captures

    constructor (initial: Captures)
      ensures slots == initial
    {
      slots := initial;
    }
  }

  class Matcher {
    const subject: Subject
    var steps: nat

    constructor (subject: Subject)
      ensures this.subject == subject && steps == 0
    {
      this.subject := subject;
      steps := 0;
    }

    /** Out of budget: from here on every call answers `None`. */
    predicate Spent()
      reads this`steps
    {
      steps > STEP_BUDGET
    }

    /**
      What a call that would take `cost` steps, begun at `before`, does: it runs
      out exactly when its steps do not fit, and counts each of them otherwise.
     */
    ghost predicate Paid(before: nat, cost: nat)
      reads this`steps
    {
      if before + cost > STEP_BUDGET then Spent() else steps == before + cost
    }

    /** In the middle of such a call, with steps worth `rest` still to come. */
    ghost predicate Paying(before: nat, cost: nat, rest: nat)
      reads this`steps
    {
      if Spent() then before + cost > STEP_BUDGET else steps + rest == before + cost
    }

    method MatchOne(node: Node, index: nat) returns (end: Option<nat>)
      requires index <= |subject.chars|
      modifies this`steps
      ensures Paid(old(steps), 1)
      ensures if Spent() then end == None else end == StepOne(subject, node, index)
    {
      steps := steps + 1;
      if steps > STEP_BUDGET {
        return None;
      }
      end := StepOne(subject, node, index);
    }

    method MatchSequence(nodes: seq<Node>, index: nat, captures: Slots) returns (end: Option<nat>)
      requires index <= |subject.chars|
      modifies this`steps, captures
      ensures Paid(old(steps), RunCost(subject, nodes, index, old(captures.slots)))
      ensures if Spent() then end == None
              else Outcome(end, captures.slots) == Run(subject, nodes, index, old(captures.slots))
      decreases SeqSize(nodes), 0, 1
    {
      steps := steps + 1;
      if steps > STEP_BUDGET {
        return None;
      }
      if nodes == [] {
        return Some(index);
      }
      var rest := nodes[1..];
      match nodes[0]
      case Repeat(node, min, max, greedy) =>
        assert NodeSize(nodes[0]) == 1 + NodeSize(node);
        end := MatchRepeat(node, min, max, greedy, rest, index, captures);
      case Group(alternatives, group) =>
        assert NodeSize(nodes[0]) == 1 + AltsSize(alternatives);
        end := MatchGroup(alternatives, group, rest, index, captures);
      case simple =>
        end := MatchOne(simple, index);
        if end.Some? {
          end := MatchSequence(rest, end.value, captures);
        }
    }

    method MatchGroup(alternatives: seq<Branch>, group: Option<nat>, rest: seq<Node>, index: nat, captures: Slots)
      returns (end: Option<nat>)
      requires index <= |subject.chars|
      modifies this`steps, captures
      ensures Paid(old(steps), GroupCost(subject, alternatives, group, rest, index, old(captures.slots)))
      ensures if Spent() then end == None
              else Outcome(end, captures.slots)
                   == RunGroup(subject, alternatives, group, rest, index, old(captures.slots))
      decreases AltsSize(alternatives) + SeqSize(rest), 1, 0
    {
      ghost var blank := captures.slots;
      ghost var cost := GroupCost(subject, alternatives, group, rest, index, blank);
      for a := 0 to |alternatives|
        invariant !Spent() ==> captures.slots == blank
        invariant Paying(old(steps), cost, GroupCost(subject, alternatives[a..], group, rest, index, blank))
        invariant !Spent() ==>
                    RunGroup(subject, alternatives[a..], group, rest, index, blank)
                    == RunGroup(subject, alternatives, group, rest, index, blank)
      {
        var saved := captures.slots;
        AltSmaller(alternatives, a);
        end := MatchBranch(alternatives[a].nodes, group, rest, index, captures);
        if end.Some? {
          return end;
        }
        captures.slots := saved;
        assert alternatives[a..][1..] == alternatives[a + 1..];
      }
      return None;
    }

    /** The body of the loop over a group's alternatives. */
    method MatchBranch(alternative: seq<Node>, group: Option<nat>, rest: seq<Node>, index: nat, captures: Slots)
      returns (end: Option<nat>)
      requires index <= |subject.chars|
      modifies this`steps, captures
      ensures Paid(old(steps), BranchCost(subject, alternative, group, rest, index, old(captures.slots)))
      ensures if Spent() then end == None
              else end == RunBranch(subject, alternative, group, rest, index, old(captures.slots)).end
      ensures end.Some? ==> captures.slots
                            == RunBranch(subject, alternative, group, rest, index, old(captures.slots)).captures
      decreases SeqSize(alternative) + SeqSize(rest), 0, 2
    {
      end := MatchSequence(alternative, index, captures);
      if end.Some? {
        captures.slots := Record(subject, captures.slots, group, index, end.value);
        end := MatchSequence(rest, end.value, captures);
      }
    }

    method MatchRepeat(node: Node, min: nat, max: nat, greedy: bool, rest: seq<Node>, index: nat, captures: Slots)
      returns (end: Option<nat>)
      requires index <= |subject.chars|
      modifies this`steps, captures
      ensures Paid(old(steps), RepeatCost(subject, node, min, max, greedy, rest, index, old(captures.slots)))
      ensures if Spent() then end == None
              else Outcome(end, captures.slots)
                   == RunRepeat(subject, node, min, max, greedy, rest, index, old(captures.slots))
      decreases NodeSize(node) + SeqSize(rest), 4
    {
      var walked := WalkEnds(node, max, index, captures);
      if walked == None {
        return None;
      }
      var positions := walked.value;
      if |positions| <= min && |positions| - 1 < min {
        return None;
      }
      var lowest := min;
      if |positions| <= lowest && lowest > 0 {
        return None;
      }
      end := TryCandidates(rest, Candidates(positions, lowest, greedy), captures);
    }

    /**
      One round of the walk, run on a copy of the captures that is kept only
      when the position advances.
     */
    method Advance(
      node: Node, ghost max: nat, current: nat, captures: Slots, ghost positions: seq<nat>, ghost goal: Walked)
      returns (next: Option<nat>)
      requires max > 0 && current <= |subject.chars|
      requires Continues(subject, node, max, current, captures.slots, positions, goal)
      modifies this`steps, captures
      ensures Paid(old(steps), RunCost(subject, [node], current, old(captures.slots)))
      ensures next.Some? ==> current < next.value <= |subject.chars|
      ensures !Spent() ==>
                var round := Run(subject, [node], current, old(captures.slots));
                if next == None then goal == Walked(positions, captures.slots)
                    && (round.end == None || round.end.value == current)
                else round == Outcome(next, captures.slots)
                     && Continues(subject, node, max - 1, next.value, captures.slots, positions + [next.value], goal)
      decreases NodeSize(node), 1
    {
      SingletonSize(node);
      WalkStep(subject, node, max, current, captures.slots, positions, goal);
      var attempt := new Slots(captures.slots);
      next := MatchSequence([node], current, attempt);
      if next == None || next.value == current {
        return None;
      }
      captures.slots := attempt.slots;
    }

    /** The walk at the head of `match_repeat`: `None` when the counter runs out inside it. */
    method WalkEnds(node: Node, max: nat, index: nat, captures: Slots) returns (walked: Option<seq<nat>>)
      requires index <= |subject.chars|
      modifies this`steps, captures
      ensures Paid(old(steps), WalkCost(subject, node, max, index, old(captures.slots)))
      ensures walked == None ==> Spent()
      ensures walked.Some? ==> Within(walked.value, index, |subject.chars|)
      ensures !Spent()
              ==> walked.Some? && Walked(walked.value, captures.slots)
                  == Walk(subject, node, max, index, old(captures.slots))
      decreases NodeSize(node), 2
    {
      hide Run, RunCost, Walk, WalkCost, Continues;
      var positions: seq<nat> := [index];
      var current := index;
      var count: nat := 0;
      ghost var goal := Walk(subject, node, max, index, captures.slots);
      ghost var cost := WalkCost(subject, node, max, index, captures.slots);
      WalkBegins(subject, node, max, index, captures.slots);
      while count < max
        invariant count <= max
        invariant index <= current <= |subject.chars|
        invariant Within(positions, index, |subject.chars|)
        invariant Paying(old(steps), cost, WalkCost(subject, node, max - count, current, captures.slots))
        invariant !Spent() ==> Continues(subject, node, max - count, current, captures.slots, positions, goal)
        decreases |subject.chars| - current
      {
        WalkPaid(subject, node, max - count, current, captures.slots);
        steps := steps + 1;
        if steps > STEP_BUDGET {
          return None;
        }
        var next := Advance(node, max - count, current, captures, positions, goal);
        if next == None {
          return Some(positions);
        }
        current := next.value;
        positions := positions + [current];
        count := count + 1;
      }
      if !Spent() {
        WalkDone(subject, node, current, captures.slots, positions, goal);
      }
      return Some(positions);
    }

    static lemma {:induction false} WalkBegins(s: Subject, node: Node, max: nat, index: nat, captures: Captures)
      requires index <= |s.chars|
      ensures Continues(s, node, max, index, captures, [index], Walk(s, node, max, index, captures))
    {
    }

    static lemma {:induction false} WalkPaid(s: Subject, node: Node, max: nat, current: nat, captures: Captures)
      requires max > 0 && current <= |s.chars|
      ensures var round := Run(s, [node], current, captures);
              WalkCost(s, node, max, current, captures) == 1 + RunCost(s, [node], current, captures)
                + if round.end == None || round.end.value == current then 0
                  else WalkCost(s, node, max - 1, round.end.value, round.captures)
    {
    }

    static lemma {:induction false} WalkDone(
      s: Subject, node: Node, current: nat, captures: Captures, positions: seq<nat>, goal: Walked)
      requires current <= |s.chars| && Continues(s, node, 0, current, captures, positions, goal)
      ensures goal == Walked(positions, captures) && WalkCost(s, node, 0, current, captures) == 0
    {
    }

    static ghost predicate Within(positions: seq<nat>, low: nat, high: nat) {
      |positions| > 0 && forall k :: 0 <= k < |positions| ==> low <= positions[k] <= high
    }

    /** `positions` so far, then whatever the walk from `current` still adds, is the whole walk. */
    static ghost predicate Continues(
      s: Subject, node: Node, max: nat, current: nat, captures: Captures, positions: seq<nat>, goal: Walked)
      requires current <= |s.chars|
    {
      var w := Walk(s, node, max, current, captures);
      goal == Walked(positions + w.positions[1..], w.captures)
    }

    static lemma {:induction false} WalkStep(
      s: Subject, node: Node, max: nat, current: nat, captures: Captures, positions: seq<nat>, goal: Walked)
      requires max > 0 && current <= |s.chars| && Continues(s, node, max, current, captures, positions, goal)
      ensures var next := Run(s, [node], current, captures);
              if next.end == None || next.end.value == current then goal == Walked(positions, captures)
              else Continues(s, node, max - 1, next.end.value, next.captures, positions + [next.end.value], goal)
    {
      var next := Run(s, [node], current, captures);
      if next.end.Some? && next.end.value != current {
        var further := Walk(s, node, max - 1, next.end.value, next.captures);
        assert positions + further.positions == positions + [next.end.value] + further.positions[1..];
      }
    }

    method TryCandidates(rest: seq<Node>, candidates: seq<nat>, captures: Slots) returns (end: Option<nat>)
      requires forall k :: 0 <= k < |candidates| ==> candidates[k] <= |subject.chars|
      modifies this`steps, captures
      ensures Paid(old(steps), TryCost(subject, rest, candidates, old(captures.slots)))
      ensures if Spent() then end == None
              else Outcome(end, captures.slots) == TryEach(subject, rest, candidates, old(captures.slots))
      decreases SeqSize(rest), 3
    {
      ghost var blank := captures.slots;
      for k := 0 to |candidates|
        invariant !Spent() ==> captures.slots == blank
        invariant Paying(old(steps), TryCost(subject, rest, candidates, blank),
                  TryCost(subject, rest, candidates[k..], blank))
        invariant !Spent() ==>
                    TryEach(subject, rest, candidates[k..], blank) == TryEach(subject, rest, candidates, blank)
      {
        var saved := captures.slots;
        end := MatchSequence(rest, candidates[k], captures);
        if end.Some? {
          return end;
        }
        captures.slots := saved;
        assert candidates[k..][1..] == candidates[k + 1..];
      }
      return None;
    }
  }
}
