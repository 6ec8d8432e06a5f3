/** Whatever a search records in a capture slot is a match of the group that owns the slot. */
module RegexCaptures {
  import opened Wrappers
  import opened RegexModel
  import Proofs = RegexProofs
  import Utf

  /** Every group inside `nodes`, nested ones included. */
  ghost function GroupsOf(nodes: seq<Node>): set<Node>
    decreases SeqSize(nodes), 1
  {
    if nodes == [] then {} else GroupsIn(nodes[0]) + GroupsOf(nodes[1..])
  }

  ghost function GroupsIn(n: Node): set<Node>
    decreases NodeSize(n), 0
  {
    match n
    case Group(alternatives, _) => {n} + AltsGroups(alternatives)
    case Repeat(node, _, _, _) => GroupsIn(node)
    case _ => {}
  }

  ghost function AltsGroups(alts: seq<Branch>): set<Node>
    decreases AltsSize(alts), 1
  {
    if alts == [] then {} else GroupsOf(alts[0].nodes) + AltsGroups(alts[1..])
  }

  /** `span` is the bytes of some match of group `g`. */
  ghost predicate Spanned(s: Subject, g: Node, span: (nat, nat)) {
    exists i: nat, j: nat ::
      i <= j <= |s.chars| && NodeMatches(s, g, i, j) && span == (Utf.Offset(s.chars, i), Utf.Offset(s.chars, j))
  }

  /** A filled slot holds a match of a group of that number. */
  ghost predicate OwnMatch(s: Subject, groups: set<Node>, slot: nat, span: Option<(nat, nat)>) {
    span.Some? ==> exists g :: g in groups && g.Group? && g.index == Some(slot) && Spanned(s, g, span.value)
  }

  ghost predicate OwnMatches(s: Subject, groups: set<Node>, captures: Captures) {
    forall slot :: 0 <= slot < |captures| ==> OwnMatch(s, groups, slot, captures[slot])
  }

  /** The captures of a search begun with `before`. */
  ghost predicate Kept(s: Subject, groups: set<Node>, before: Captures, captures: Captures) {
    |captures| == |before| && OwnMatches(s, groups, captures)
  }

  lemma {:induction false} RecordKeeps(s: Subject, groups: set<Node>, g: Node, captures: Captures, i: nat, end: nat)
    requires i <= end <= |s.chars| && OwnMatches(s, groups, captures)
    requires g in groups && g.Group? && NodeMatches(s, g, i, end)
    ensures Kept(s, groups, captures, Record(s, captures, g.index, i, end))
  {
    assert Spanned(s, g, (Utf.Offset(s.chars, i), Utf.Offset(s.chars, end)));
  }

  lemma {:induction false} RunKeeps(s: Subject, groups: set<Node>, nodes: seq<Node>, i: nat, captures: Captures)
    requires i <= |s.chars| && OwnMatches(s, groups, captures) && GroupsOf(nodes) <= groups
    ensures Kept(s, groups, captures, Run(s, nodes, i, captures).captures)
    decreases SeqSize(nodes), 0, 0
  {
    hide OwnMatches;
    if nodes != [] {
      match nodes[0]
      case Repeat(node, min, max, greedy) =>
        assert NodeSize(nodes[0]) == 1 + NodeSize(node);
        WalkKeeps(s, groups, node, max, i, captures);
        var w := Walk(s, node, max, i, captures);
        if |w.positions| > min {
          TryKeeps(s, groups, nodes[1..], Candidates(w.positions, min, greedy), w.captures);
        }
      case Group(alternatives, slot) =>
        assert NodeSize(nodes[0]) == 1 + AltsSize(alternatives);
        assert alternatives[0..] == alternatives;
        GroupKeeps(s, groups, nodes[0], 0, nodes[1..], i, captures);
      case simple =>
        var end := StepOne(s, simple, i);
        if end.Some? {
          RunKeeps(s, groups, nodes[1..], end.value, captures);
        }
    }
  }

  lemma {:induction false} GroupKeeps(
    s: Subject, groups: set<Node>, g: Node, a: nat, rest: seq<Node>, i: nat, captures: Captures)
    requires i <= |s.chars| && OwnMatches(s, groups, captures) && GroupsOf(rest) <= groups
    requires g in groups && g.Group? && a <= |g.alternatives| && AltsGroups(g.alternatives[a..]) <= groups
    ensures Kept(s, groups, captures, RunGroup(s, g.alternatives[a..], g.index, rest, i, captures).captures)
    decreases AltsSize(g.alternatives[a..]) + SeqSize(rest), 1, 0
  {
    hide OwnMatches, RunBranch;
    if a < |g.alternatives| {
      assert g.alternatives[a..][1..] == g.alternatives[a + 1..];
      BranchKeeps(s, groups, g, a, rest, i, captures);
      GroupKeeps(s, groups, g, a + 1, rest, i, captures);
    }
  }

  lemma {:induction false} BranchKeeps(
    s: Subject, groups: set<Node>, g: Node, a: nat, rest: seq<Node>, i: nat, captures: Captures)
    requires i <= |s.chars| && OwnMatches(s, groups, captures) && GroupsOf(rest) <= groups
    requires g in groups && g.Group? && a < |g.alternatives| && GroupsOf(g.alternatives[a].nodes) <= groups
    ensures Kept(s, groups, captures, RunBranch(s, g.alternatives[a].nodes, g.index, rest, i, captures).captures)
    decreases SeqSize(g.alternatives[a].nodes) + SeqSize(rest), 0, 1
  {
    hide OwnMatches, Run, Record, GroupsOf;
    var branch := g.alternatives[a].nodes;
    var inner := Run(s, branch, i, captures);
    RunKeeps(s, groups, branch, i, captures);
    if inner.end.Some? {
      Proofs.RunSound(s, branch, i, captures);
      assert NodeMatches(s, g, i, inner.end.value);
      RecordKeeps(s, groups, g, inner.captures, i, inner.end.value);
      RunKeeps(s, groups, rest, inner.end.value, Record(s, inner.captures, g.index, i, inner.end.value));
    }
  }

  lemma {:induction false} WalkKeeps(s: Subject, groups: set<Node>, node: Node, max: nat, i: nat, captures: Captures)
    requires i <= |s.chars| && OwnMatches(s, groups, captures) && GroupsIn(node) <= groups
    ensures Kept(s, groups, captures, Walk(s, node, max, i, captures).captures)
    decreases NodeSize(node), 1, |s.chars| - i
  {
    hide OwnMatches, Run;
    SingletonSize(node);
    if max > 0 {
      assert GroupsOf([node]) == GroupsIn(node) by {
        assert [node][1..] == [];
      }
      RunKeeps(s, groups, [node], i, captures);
      var next := Run(s, [node], i, captures);
      if next.end.Some? && next.end.value != i {
        WalkKeeps(s, groups, node, max - 1, next.end.value, next.captures);
      }
    }
  }

  lemma {:induction false} TryKeeps(
    s: Subject, groups: set<Node>, rest: seq<Node>, candidates: seq<nat>, captures: Captures)
    requires OwnMatches(s, groups, captures) && GroupsOf(rest) <= groups
    requires forall k :: 0 <= k < |candidates| ==> candidates[k] <= |s.chars|
    ensures Kept(s, groups, captures, TryEach(s, rest, candidates, captures).captures)
    decreases SeqSize(rest), 1, |candidates|
  {
    hide OwnMatches, Run;
    if candidates != [] {
      RunKeeps(s, groups, rest, candidates[0], captures);
      TryKeeps(s, groups, rest, candidates[1..], captures);
    }
  }
}
