/**
  Three-way merge of trees, given as maps from path to content: planning, and settling conflicts.
  Content stands for its hash.
 */
module Merge {
  import opened FileSystem
  import opened TextOrder
  import opened Wrappers
  import Sorting

  type Tree = map<Path, Content>

  datatype Change = Added(path: Path) | Modified(path: Path) | Removed(path: Path)

  datatype Reason = BothModified | ModifiedAndDeleted | DeletedAndModified | BothAdded

  datatype Conflict = Conflict(path: Path, reason: Reason)

  datatype Resolution = TakeView | TakeSource | Skip

  function Get(tree: Tree, path: Path): Option<Content> {
    if path in tree then Some(tree[path]) else None
  }

  lemma {:induction false} SameTree(a: Tree, b: Tree)
    requires forall p: Path :: Get(a, p) == Get(b, p)
    ensures a == b
  {
    forall p: Path
      ensures p in a <==> p in b
      ensures p in a ==> a[p] == b[p]
    {
      assert Get(a, p) == Get(b, p);
    }
  }

  // ---- planning ---------------------------------------------------------------------------------

  /** What becomes of one path the view changed. */
  datatype Verdict = Apply(change: Change) | Clash(reason: Reason) | AlreadyThere | Untouched

  function Judge(path: Path, inBase: Option<Content>, inSource: Option<Content>, inView: Option<Content>): Verdict {
    if inBase == inView then Untouched
    else
      match (inBase, inSource, inView)
      case (None, None, Some(_)) => Apply(Added(path))
      case (None, Some(s), Some(v)) => if s == v then AlreadyThere else Clash(BothAdded)
      case (Some(b), Some(s), Some(v)) =>
        if s == b then Apply(Modified(path)) else if s == v then AlreadyThere else Clash(BothModified)
      case (Some(_), None, Some(_)) => Clash(ModifiedAndDeleted)
      case (Some(b), Some(s), None) => if s == b then Apply(Removed(path)) else Clash(DeletedAndModified)
      case (Some(_), None, None) => AlreadyThere
      case (None, _, None) => Untouched
  }

  function Verdicts(base: Tree, source: Tree, view: Tree, path: Path): Verdict {
    Judge(path, Get(base, path), Get(source, path), Get(view, path))
  }

  function Changes(base: Tree, source: Tree, view: Tree, paths: seq<Path>): seq<Change> {
    if paths == [] then []
    else
      var n := |paths| - 1;
      var verdict := Verdicts(base, source, view, paths[n]);
      Changes(base, source, view, paths[..n]) + if verdict.Apply? then [verdict.change] else []
  }

  function Conflicts(base: Tree, source: Tree, view: Tree, paths: seq<Path>): seq<Conflict> {
    if paths == [] then []
    else
      var n := |paths| - 1;
      var verdict := Verdicts(base, source, view, paths[n]);
      Conflicts(base, source, view, paths[..n]) + if verdict.Clash? then [Conflict(paths[n], verdict.reason)] else []
  }

  function Already(base: Tree, source: Tree, view: Tree, paths: seq<Path>): seq<Path> {
    if paths == [] then []
    else
      var n := |paths| - 1;
      Already(base, source, view, paths[..n]) + if Verdicts(base, source, view, paths[n]) == AlreadyThere
        then [paths[n]] else []
  }

  class MergePlan {
    var apply: seq<Change>
    var conflicts: seq<Conflict>
    var alreadyApplied: seq<Path>

    constructor ()
      ensures apply == [] && conflicts == [] && alreadyApplied == []
    {
      apply, conflicts, alreadyApplied := [], [], [];
    }

    /** The plan holds the verdicts of these paths, in order. */
    ghost predicate Plans(base: Tree, source: Tree, view: Tree, paths: seq<Path>)
      reads this
    {
      && apply == Changes(base, source, view, paths)
      && conflicts == Conflicts(base, source, view, paths)
      && alreadyApplied == Already(base, source, view, paths)
    }

    /** Settles conflicts, in the order of the resolutions; a path without a conflict is passed over. */
    method Resolve(resolutions: seq<(Path, Resolution)>)
      modifies this
      ensures (apply, conflicts) == Resolved(old(apply), old(conflicts), resolutions)
      ensures alreadyApplied == old(alreadyApplied)
    {
      for k := 0 to |resolutions|
        invariant Resolved(apply, conflicts, resolutions[k..]) == Resolved(old(apply), old(conflicts), resolutions)
        invariant alreadyApplied == old(alreadyApplied)
      {
        assert resolutions[k..][0] == resolutions[k] && resolutions[k..][1..] == resolutions[k + 1..];
        var path, resolution := resolutions[k].0, resolutions[k].1;
        var position := PositionOf(conflicts, path);
        if position == None {
          continue;
        }
        var conflict := conflicts[position.value];
        conflicts := conflicts[..position.value] + conflicts[position.value + 1..];
        if resolution == TakeView {
          apply := apply + [Taken(conflict)];
        }
      }
    }
  }

  /** Every path any side mentions, planned in order. */
  method PlanMerge(base: Tree, source: Tree, view: Tree) returns (plan: MergePlan, ghost paths: seq<Path>)
    ensures fresh(plan) && Ascends(paths) && (forall p :: p in paths <==> p in base || p in source || p in view)
    ensures plan.Plans(base, source, view, paths)
  {
    var listing := Listed(base.Keys + source.Keys + view.Keys);
    paths := listing;
    plan := new MergePlan();
    for k := 0 to |listing|
      invariant fresh(plan) && plan.Plans(base, source, view, listing[..k])
    {
      assert listing[..k + 1][..k] == listing[..k];
      var path := listing[k];
      match Judge(path, Get(base, path), Get(source, path), Get(view, path))
      case Untouched =>
      case Apply(change) => plan.apply := plan.apply + [change];
      case Clash(reason) => plan.conflicts := plan.conflicts + [Conflict(path, reason)];
      case AlreadyThere => plan.alreadyApplied := plan.alreadyApplied + [path];
    }
    assert listing[..|listing|] == listing;
  }

  // ---- resolving -----------------------------------------------------------------------------------

  function PositionOf(conflicts: seq<Conflict>, path: Path): (position: Option<nat>)
    ensures position.Some? ==> position.value < |conflicts| && conflicts[position.value].path == path
    ensures position == None ==> forall c :: c in conflicts ==> c.path != path
  {
    if conflicts == [] then None
    else if conflicts[0].path == path then Some(0)
    else
      var later := PositionOf(conflicts[1..], path);
      if later == None then None else Some(later.value + 1)
  }

  /** The change that takes the view's side of a conflict. */
  function Taken(conflict: Conflict): Change {
    match conflict.reason
    case DeletedAndModified => Removed(conflict.path)
    case BothAdded => Added(conflict.path)
    case _ => Modified(conflict.path)
  }

  function Resolved(
    apply: seq<Change>, conflicts: seq<Conflict>, resolutions: seq<(Path, Resolution)>): (seq<Change>, seq<Conflict>)
    decreases |resolutions|
  {
    if resolutions == [] then (apply, conflicts)
    else
      var position := PositionOf(conflicts, resolutions[0].0);
      if position == None then Resolved(apply, conflicts, resolutions[1..])
      else
        var left := conflicts[..position.value] + conflicts[position.value + 1..];
        if resolutions[0].1 == TakeView then
          Resolved(apply + [Taken(conflicts[position.value])], left, resolutions[1..])
        else Resolved(apply, left, resolutions[1..])
  }

  // ---- what a plan says -------------------------------------------------------------------------------

  /** Base, source and view are three different things at this path. */
  predicate PairwiseDiffer(base: Tree, source: Tree, view: Tree, p: Path) {
    Get(base, p) != Get(source, p) && Get(base, p) != Get(view, p) && Get(source, p) != Get(view, p)
  }

  /** The view changed this path and the source did not. */
  predicate OnlyViewMoved(base: Tree, source: Tree, view: Tree, p: Path) {
    Get(base, p) == Get(source, p) && Get(base, p) != Get(view, p)
  }

  function ChangePaths(changes: seq<Change>): set<Path> {
    set c | c in changes :: c.path
  }

  function ConflictPaths(conflicts: seq<Conflict>): set<Path> {
    set c | c in conflicts :: c.path
  }

  lemma {:induction false} JudgeExact(base: Tree, source: Tree, view: Tree, p: Path)
    ensures var verdict := Verdicts(base, source, view, p);
            && (verdict.Clash? <==> PairwiseDiffer(base, source, view, p))
            && (verdict.Apply? <==> OnlyViewMoved(base, source, view, p))
            && (verdict.AlreadyThere? <==> Get(base, p) != Get(view, p) && Get(source, p) == Get(view, p))
            && (verdict.Apply? ==> verdict.change.path == p && (verdict.change.Removed? <==> p !in view)
                                   && (verdict.change.Added? <==> p !in base))
  {
  }

  /**
    Conflicts are exactly the paths where base, source and view pairwise differ;
    changes, those only the view moved.
   */
  lemma {:induction false} PlanExact(base: Tree, source: Tree, view: Tree, paths: seq<Path>)
    ensures forall p :: p in ConflictPaths(Conflicts(base, source, view, paths))
                        <==> p in paths && PairwiseDiffer(base, source, view, p)
    ensures forall p :: p in ChangePaths(Changes(base, source, view, paths))
                        <==> p in paths && OnlyViewMoved(base, source, view, p)
    ensures forall p :: p in Already(base, source, view, paths)
                        <==> p in paths && Get(base, p) != Get(view, p) && Get(source, p) == Get(view, p)
    ensures forall c :: c in Changes(base, source, view, paths) ==> Verdicts(base, source, view, c.path) == Apply(c)
    ensures forall c :: c in Conflicts(base, source, view, paths)
                        ==> Verdicts(base, source, view, c.path) == Clash(c.reason)
  {
    hide Judge, PairwiseDiffer, OnlyViewMoved;
    if paths != [] {
      var n := |paths| - 1;
      PlanExact(base, source, view, paths[..n]);
      JudgeExact(base, source, view, paths[n]);
      assert paths == paths[..n] + [paths[n]];
      var verdict := Verdicts(base, source, view, paths[n]);
      var changes, conflicts := Changes(base, source, view, paths[..n]), Conflicts(base, source, view, paths[..n]);
      SnocPaths(changes, if verdict.Apply? then [verdict.change] else []);
      SnocConflicts(conflicts, if verdict.Clash? then [Conflict(paths[n], verdict.reason)] else []);
    }
  }

  lemma {:induction false} SnocPaths(a: seq<Change>, b: seq<Change>)
    ensures ChangePaths(a + b) == ChangePaths(a) + ChangePaths(b)
    ensures |b| == 1 ==> ChangePaths(b) == {b[0].path}
    ensures b == [] ==> ChangePaths(b) == {}
  {
  }

  lemma {:induction false} SnocConflicts(a: seq<Conflict>, b: seq<Conflict>)
    ensures ConflictPaths(a + b) == ConflictPaths(a) + ConflictPaths(b)
    ensures |b| == 1 ==> ConflictPaths(b) == {b[0].path}
    ensures b == [] ==> ConflictPaths(b) == {}
  {
  }

  // ---- the merged tree -----------------------------------------------------------------------------------------

  ghost predicate DistinctChanges(changes: seq<Change>) {
    forall i, j :: 0 <= i < j < |changes| ==> changes[i].path != changes[j].path
  }

  /** Each change can be made: what it copies is in the view, what it removes is in the tree and gone from the view. */
  ghost predicate Applicable(tree: Tree, view: Tree, changes: seq<Change>) {
    forall c :: c in changes ==> if c.Removed? then c.path in tree && c.path !in view else c.path in view
  }

  /** The tree a merge gives: the view's side where only the view moved, the source's everywhere else. */
  ghost predicate IsMerged(base: Tree, source: Tree, view: Tree, result: Tree) {
    forall p :: Get(result, p) == if OnlyViewMoved(base, source, view, p) then Get(view, p) else Get(source, p)
  }

  ghost predicate Covers(base: Tree, source: Tree, view: Tree, paths: seq<Path>) {
    Sorting.Distinct(paths) && forall p :: p in paths <==> p in base || p in source || p in view
  }

  lemma {:induction false} ChangesDistinct(base: Tree, source: Tree, view: Tree, paths: seq<Path>)
    requires Sorting.Distinct(paths)
    ensures DistinctChanges(Changes(base, source, view, paths))
  {
    hide Judge;
    if paths != [] {
      var n := |paths| - 1;
      ChangesDistinct(base, source, view, paths[..n]);
      PlanExact(base, source, view, paths[..n]);
      JudgeExact(base, source, view, paths[n]);
      var before := Changes(base, source, view, paths[..n]);
      assert paths[n] !in paths[..n];
      forall i | 0 <= i < |before|
        ensures before[i].path != paths[n]
      {
        assert before[i].path in ChangePaths(before);
      }
    }
  }

  lemma {:induction false} PlanApplies(base: Tree, source: Tree, view: Tree, paths: seq<Path>)
    requires Covers(base, source, view, paths)
    ensures var changes := Changes(base, source, view, paths);
            DistinctChanges(changes) && Applicable(source, view, changes)
    ensures forall p :: p in ChangePaths(Changes(base, source, view, paths)) <==> OnlyViewMoved(base, source, view, p)
  {
    hide Judge;
    ChangesDistinct(base, source, view, paths);
    PlanExact(base, source, view, paths);
    forall c | c in Changes(base, source, view, paths)
      ensures if c.Removed? then c.path in source && c.path !in view else c.path in view
    {
      JudgeExact(base, source, view, c.path);
    }
  }

  /** Planning again after applying leaves nothing to apply, and the same conflicts. */
  lemma {:induction false} ReplanAppliesNothing(base: Tree, source: Tree, view: Tree, result: Tree, paths: seq<Path>)
    requires IsMerged(base, source, view, result)
    ensures Changes(base, result, view, paths) == []
    ensures Conflicts(base, result, view, paths) == Conflicts(base, source, view, paths)
  {
    if paths != [] {
      var n := |paths| - 1;
      ReplanAppliesNothing(base, source, view, result, paths[..n]);
      assert Get(result, paths[n]) == if OnlyViewMoved(base, source, view, paths[n]) then Get(view, paths[n])
        else Get(source, paths[n]);
    }
  }

  // ---- settling conflicts ---------------------------------------------------------------------------------

  /** What is decided about a path: the first resolution that names it. */
  function Decision(resolutions: seq<(Path, Resolution)>, p: Path): Option<Resolution> {
    if resolutions == [] then None
    else if resolutions[0].0 == p then Some(resolutions[0].1)
    else Decision(resolutions[1..], p)
  }

  ghost predicate DistinctConflicts(conflicts: seq<Conflict>) {
    forall i, j :: 0 <= i < j < |conflicts| ==> conflicts[i].path != conflicts[j].path
  }

  ghost predicate Separate(changes: seq<Change>, conflicts: seq<Conflict>) {
    && DistinctChanges(changes) && DistinctConflicts(conflicts)
    && forall c, d :: c in changes && d in conflicts ==> c.path != d.path
  }

  /** Settling takes the view's side exactly where the first decision says so, and leaves the undecided conflicts. */
  lemma {:induction false} ResolvedExactly(
    changes: seq<Change>, conflicts: seq<Conflict>, resolutions: seq<(Path, Resolution)>)
    requires Separate(changes, conflicts)
    ensures var r := Resolved(changes, conflicts, resolutions);
            && Separate(r.0, r.1)
            && (forall c ::
               c in r.0 <==> c in changes || exists d ::
                             d in conflicts && Decision(resolutions, d.path) == Some(TakeView) && c == Taken(d))
            && (forall d :: d in r.1 <==> d in conflicts && Decision(resolutions, d.path) == None)
    decreases |resolutions|
  {
    if resolutions != [] {
      var path, rest := resolutions[0].0, resolutions[1..];
      var position := PositionOf(conflicts, path);
      if position == None {
        ResolvedExactly(changes, conflicts, rest);
      } else {
        var at := position.value;
        var left := conflicts[..at] + conflicts[at + 1..];
        RemovedConflict(conflicts, at);
        if resolutions[0].1 == TakeView {
          ResolvedExactly(changes + [Taken(conflicts[at])], left, rest);
        } else {
          ResolvedExactly(changes, left, rest);
        }
      }
    }
  }

  lemma {:induction false} RemovedConflict(conflicts: seq<Conflict>, at: nat)
    requires DistinctConflicts(conflicts) && at < |conflicts|
    ensures var left := conflicts[..at] + conflicts[at + 1..];
            DistinctConflicts(left) && forall d :: d in left <==> d in conflicts && d.path != conflicts[at].path
  {
    assert conflicts == conflicts[..at] + [conflicts[at]] + conflicts[at + 1..];
  }

  lemma {:induction false} ConflictsDistinct(base: Tree, source: Tree, view: Tree, paths: seq<Path>)
    requires Sorting.Distinct(paths)
    ensures DistinctConflicts(Conflicts(base, source, view, paths))
  {
    hide Judge;
    if paths != [] {
      var n := |paths| - 1;
      ConflictsDistinct(base, source, view, paths[..n]);
      PlanExact(base, source, view, paths[..n]);
      var before := Conflicts(base, source, view, paths[..n]);
      forall i | 0 <= i < |before|
        ensures before[i].path != paths[n]
      {
        assert before[i].path in ConflictPaths(before);
        assert paths[n] !in paths[..n];
      }
    }
  }

  /**
    After settling, the plan takes the view's side exactly where only it moved or was
    chosen; the undecided conflicts are left.
   */
  lemma {:induction false} SettledPlan(
    base: Tree, source: Tree, view: Tree, paths: seq<Path>, resolutions: seq<(Path, Resolution)>)
    requires Covers(base, source, view, paths)
    ensures var settled := Resolved(Changes(base, source, view, paths), Conflicts(base, source, view, paths),
            resolutions);
            && DistinctChanges(settled.0) && Applicable(source, view, settled.0)
            && (forall p :: p in ChangePaths(settled.0)
                            <==> OnlyViewMoved(base, source, view, p) || ViewChosen(base, source, view, resolutions, p))
            && (forall p :: p in ConflictPaths(settled.1)
                            <==> PairwiseDiffer(base, source, view, p) && Decision(resolutions, p) == None)
  {
    hide Judge, Resolved, Verdicts;
    var changes, conflicts := Changes(base, source, view, paths), Conflicts(base, source, view, paths);
    PlanExact(base, source, view, paths);
    PlanApplies(base, source, view, paths);
    ConflictsDistinct(base, source, view, paths);
    forall c, d | c in changes && d in conflicts
      ensures c.path != d.path
    {
      assert c.path in ChangePaths(changes) && d.path in ConflictPaths(conflicts);
    }
    ResolvedExactly(changes, conflicts, resolutions);
    var settled := Resolved(changes, conflicts, resolutions);
    forall c | c in settled.0
      ensures if c.Removed? then c.path in source && c.path !in view else c.path in view
      ensures OnlyViewMoved(base, source, view, c.path) || ViewChosen(base, source, view, resolutions, c.path)
    {
      if c !in changes {
        var d :| d in conflicts && Decision(resolutions, d.path) == Some(TakeView) && c == Taken(d);
        TakenFits(base, source, view, d);
      } else {
        assert c.path in ChangePaths(changes);
      }
    }
    SettledPaths(base, source, view, paths, resolutions);
  }

  lemma {:induction false} TakenPath(d: Conflict)
    ensures Taken(d).path == d.path
  {
  }

  lemma {:induction false} Mentioned(base: Tree, source: Tree, view: Tree, p: Path)
    requires PairwiseDiffer(base, source, view, p)
    ensures p in base || p in source || p in view
  {
  }

  lemma {:induction false} SettledPaths(
    base: Tree, source: Tree, view: Tree, paths: seq<Path>, resolutions: seq<(Path, Resolution)>)
    requires Covers(base, source, view, paths)
    requires Separate(Changes(base, source, view, paths), Conflicts(base, source, view, paths))
    ensures var settled := Resolved(Changes(base, source, view, paths), Conflicts(base, source, view, paths),
            resolutions);
            && (forall p :: OnlyViewMoved(base, source, view, p) || ViewChosen(base, source, view, resolutions, p)
                            ==> p in ChangePaths(settled.0))
            && (forall p :: p in ConflictPaths(settled.1)
                            <==> PairwiseDiffer(base, source, view, p) && Decision(resolutions, p) == None)
  {
    hide Judge, Resolved, Verdicts, PairwiseDiffer, OnlyViewMoved, Changes, Conflicts, Taken;
    var changes, conflicts := Changes(base, source, view, paths), Conflicts(base, source, view, paths);
    PlanExact(base, source, view, paths);
    PlanApplies(base, source, view, paths);
    ResolvedExactly(changes, conflicts, resolutions);
    var settled := Resolved(changes, conflicts, resolutions);
    forall p | OnlyViewMoved(base, source, view, p) || ViewChosen(base, source, view, resolutions, p)
      ensures p in ChangePaths(settled.0)
    {
      if OnlyViewMoved(base, source, view, p) {
        var c :| c in changes && c.path == p;
        assert c in settled.0;
      } else {
        Mentioned(base, source, view, p);
        assert p in ConflictPaths(conflicts);
        var d :| d in conflicts && d.path == p;
        TakenPath(d);
        assert Taken(d) in settled.0;
      }
    }
    forall p
      ensures p in ConflictPaths(settled.1)
              <==> PairwiseDiffer(base, source, view, p) && Decision(resolutions, p) == None
    {
      if PairwiseDiffer(base, source, view, p) && Decision(resolutions, p) == None {
        Mentioned(base, source, view, p);
        assert p in ConflictPaths(conflicts);
      }
    }
  }

  /** A conflict decided for the view. */
  predicate ViewChosen(base: Tree, source: Tree, view: Tree, resolutions: seq<(Path, Resolution)>, p: Path) {
    PairwiseDiffer(base, source, view, p) && Decision(resolutions, p) == Some(TakeView)
  }

  lemma {:induction false} TakenFits(base: Tree, source: Tree, view: Tree, d: Conflict)
    requires Verdicts(base, source, view, d.path) == Clash(d.reason)
    ensures Taken(d).path == d.path && PairwiseDiffer(base, source, view, d.path)
    ensures if Taken(d).Removed? then d.path in source && d.path !in view else d.path in view
  {
  }

  // ---- several views of one base ------------------------------------------------------------------------------

  function MergedAt(base: Tree, source: Tree, view: Tree, p: Path): Option<Content> {
    if OnlyViewMoved(base, source, view, p) then Get(view, p) else Get(source, p)
  }

  /** The tree after planning and applying. */
  function Merged(base: Tree, source: Tree, view: Tree): (result: Tree)
    ensures IsMerged(base, source, view, result)
  {
    map p | p in source.Keys + view.Keys
      && MergedAt(base, source, view, p).Some? :: MergedAt(base, source, view, p).value
  }

  ghost predicate IsClean(base: Tree, source: Tree, view: Tree) {
    forall p :: !PairwiseDiffer(base, source, view, p)
  }

  lemma {:induction false} CleanPlan(base: Tree, source: Tree, view: Tree, paths: seq<Path>)
    requires IsClean(base, source, view)
    ensures Conflicts(base, source, view, paths) == []
  {
    hide Judge, PairwiseDiffer;
    if paths != [] {
      CleanPlan(base, source, view, paths[..|paths| - 1]);
      JudgeExact(base, source, view, paths[|paths| - 1]);
    }
  }

  /** The views merged one after another, each cleanly. */
  ghost predicate CleanRun(base: Tree, source: Tree, views: seq<Tree>)
    decreases |views|
  {
    views == [] || (IsClean(base, source, views[0]) && CleanRun(base, Merged(base, source, views[0]), views[1..]))
  }

  function FinalTree(base: Tree, source: Tree, views: seq<Tree>): Tree
    decreases |views|
  {
    if views == [] then source else FinalTree(base, Merged(base, source, views[0]), views[1..])
  }

  /** Neither side moved, or both moved to the same place. */
  predicate AgreeAt(base: Tree, x: Tree, y: Tree, p: Path) {
    Get(x, p) == Get(base, p) || Get(y, p) == Get(base, p) || Get(x, p) == Get(y, p)
  }

  ghost predicate Agree(base: Tree, x: Tree, y: Tree) {
    forall p :: AgreeAt(base, x, y, p)
  }

  ghost predicate AllAgree(base: Tree, source: Tree, views: seq<Tree>) {
    && (forall v :: v in views ==> Agree(base, source, v))
    && (forall v, w :: v in views && w in views ==> Agree(base, v, w))
  }

  lemma {:induction false} AgreeMerged(base: Tree, source: Tree, view: Tree, other: Tree)
    requires Agree(base, source, view)
    ensures Agree(base, source, other) && Agree(base, view, other) <==> Agree(base, Merged(base, source, view), other)
  {
    forall p
      ensures AgreeAt(base, source, other, p) && AgreeAt(base, view, other, p)
              <==> AgreeAt(base, Merged(base, source, view), other, p)
    {
      assert AgreeAt(base, source, view, p);
      assert Get(Merged(base, source, view), p) == MergedAt(base, source, view, p);
    }
  }

  /**
    A run is clean exactly when no two of the trees moved a path to different places:
    the order does not enter into it.
   */
  lemma {:induction false} CleanRunIff(base: Tree, source: Tree, views: seq<Tree>)
    ensures CleanRun(base, source, views) <==> AllAgree(base, source, views)
    decreases |views|
  {
    hide Agree, Merged, IsClean;
    if views != [] {
      var first, rest := views[0], views[1..];
      assert views == [first] + rest;
      CleanIffAgree(base, source, first);
      if IsClean(base, source, first) {
        CleanRunIff(base, Merged(base, source, first), rest);
        AgreeItself(base, first);
        forall v | v in rest
          ensures Agree(base, source, v) && Agree(base, first, v) <==> Agree(base, Merged(base, source, first), v)
          ensures Agree(base, v, first) <==> Agree(base, first, v)
        {
          AgreeMerged(base, source, first, v);
          AgreeSwaps(base, first, v);
        }
      }
    }
  }

  lemma {:induction false} CleanIffAgree(base: Tree, source: Tree, view: Tree)
    ensures IsClean(base, source, view) <==> Agree(base, source, view)
  {
    forall p
      ensures !PairwiseDiffer(base, source, view, p) <==> AgreeAt(base, source, view, p)
    {
    }
  }

  lemma {:induction false} AgreeItself(base: Tree, x: Tree)
    ensures Agree(base, x, x)
  {
  }

  lemma {:induction false} AgreeSwaps(base: Tree, x: Tree, y: Tree)
    ensures Agree(base, x, y) <==> Agree(base, y, x)
  {
    forall p
      ensures AgreeAt(base, x, y, p) <==> AgreeAt(base, y, x, p)
    {
    }
  }

  /** The final tree has what any side moved a path to, and the base's content where no side moved it. */
  lemma {:induction false} FinalExact(base: Tree, source: Tree, views: seq<Tree>, p: Path)
    requires CleanRun(base, source, views)
    ensures Get(source, p) != Get(base, p) ==> Get(FinalTree(base, source, views), p) == Get(source, p)
    ensures forall v :: v in views && Get(v, p) != Get(base, p) ==> Get(FinalTree(base, source, views), p) == Get(v, p)
    ensures Get(source, p) == Get(base, p) && (forall v :: v in views ==> Get(v, p) == Get(base, p))
            ==> Get(FinalTree(base, source, views), p) == Get(base, p)
    decreases |views|
  {
    hide Merged;
    if views != [] {
      var first, rest := views[0], views[1..];
      assert views == [first] + rest;
      var next := Merged(base, source, first);
      MergedIs(base, source, first, p);
      FinalExact(base, next, rest, p);
      assert !PairwiseDiffer(base, source, first, p);
    }
  }

  lemma {:induction false} MergedIs(base: Tree, source: Tree, view: Tree, p: Path)
    ensures Get(Merged(base, source, view), p) == MergedAt(base, source, view, p)
  {
  }

  // ---- the difference of two snapshots --------------------------------------------------------------------------

  predicate PathLess(c: Change, d: Change) {
    Less(c.path, d.path)
  }

  ghost predicate ByPath(changes: seq<Change>) {
    Sorting.Sorted(PathLess, changes)
  }

  lemma {:induction false} PathsOrder(changes: seq<Change>)
    requires DistinctChanges(changes)
    ensures Sorting.Orders(PathLess, changes) && Sorting.Distinct(changes)
  {
    forall c, d | c in changes && d in changes
      ensures c == d || PathLess(c, d) || PathLess(d, c)
      ensures PathLess(c, d) ==> c != d && !PathLess(d, c)
    {
      LessTotal(c.path, d.path);
      if Less(c.path, d.path) {
        LessIsStrict(c.path, d.path);
      }
    }
    forall c, d, e | c in changes && d in changes && e in changes && PathLess(c, d) && PathLess(d, e)
      ensures PathLess(c, e)
    {
      LessTransitive(c.path, d.path, e.path);
    }
  }

  lemma {:induction false} ChangesByPath(base: Tree, source: Tree, view: Tree, paths: seq<Path>)
    requires Ascends(paths)
    ensures ByPath(Changes(base, source, view, paths))
  {
    hide Judge, Less;
    if paths != [] {
      var n := |paths| - 1;
      ChangesByPath(base, source, view, paths[..n]);
      PlanExact(base, source, view, paths[..n]);
      JudgeExact(base, source, view, paths[n]);
      var before := Changes(base, source, view, paths[..n]);
      forall i | 0 <= i < |before|
        ensures Less(before[i].path, paths[n])
      {
        assert before[i].path in ChangePaths(before);
        var k :| 0 <= k < n && paths[k] == before[i].path;
      }
    }
  }

  /** How one snapshot differs from another at a path, if it does. */
  function DiffAt(before: Tree, after: Tree, p: Path): Option<Change> {
    if p in after then
      if p !in before then Some(Added(p)) else if before[p] != after[p] then Some(Modified(p)) else None
    else if p in before then Some(Removed(p))
    else None
  }

  /** Changes found in some paths: at most one for each. */
  ghost predicate Found(before: Tree, after: Tree, paths: set<Path>, changes: seq<Change>) {
    && DistinctChanges(changes)
    && forall c :: c in changes <==> c.path in paths && DiffAt(before, after, c.path) == Some(c)
  }

  lemma {:induction false} FoundMore(before: Tree, after: Tree, paths: set<Path>, changes: seq<Change>, p: Path)
    requires Found(before, after, paths, changes) && p !in paths
    ensures var d := DiffAt(before, after, p);
            Found(before, after, paths + {p}, if d.Some? then changes + [d.value] else changes)
  {
    var d := DiffAt(before, after, p);
    if d.Some? {
      assert forall k :: 0 <= k < |changes| ==> changes[k] in changes;
    }
  }

  lemma {:induction false} FoundNothing(before: Tree, after: Tree)
    ensures Found(before, after, {}, [])
  {
  }

  lemma {:induction false} FoundAll(before: Tree, after: Tree, seen: set<Path>, changes: seq<Change>)
    requires Found(before, after, seen, changes) && forall p :: p in seen <==> p in after || p in before
    ensures DistinctChanges(changes) && forall c :: c in changes <==> DiffAt(before, after, c.path) == Some(c)
  {
  }

  /** Everything in `after`, then what only `before` had, sorted by path. */
  method DiffSnapshots(before: Tree, after: Tree) returns (changes: seq<Change>)
    ensures ByPath(changes) && forall c :: c in changes <==> DiffAt(before, after, c.path) == Some(c)
  {
    hide Found, Less;
    var afterPaths := Listed(after.Keys);
    var beforePaths := Listed(before.Keys);
    AscendingIsDistinct(afterPaths);
    AscendingIsDistinct(beforePaths);
    changes := [];
    ghost var seen: set<Path> := {};
    FoundNothing(before, after);
    for k := 0 to |afterPaths|
      invariant Found(before, after, seen, changes) && forall p :: p in seen <==> p in afterPaths[..k]
    {
      var path := afterPaths[k];
      FoundMore(before, after, seen, changes, path);
      assert afterPaths[..k + 1] == afterPaths[..k] + [path];
      seen := seen + {path};
      if path !in before {
        changes := changes + [Added(path)];
      } else if before[path] != after[path] {
        changes := changes + [Modified(path)];
      }
    }
    for k := 0 to |beforePaths|
      invariant Found(before, after, seen, changes)
      invariant forall p :: p in seen <==> p in after || p in beforePaths[..k]
    {
      var path := beforePaths[k];
      assert beforePaths[..k + 1] == beforePaths[..k] + [path];
      if path !in after {
        FoundMore(before, after, seen, changes, path);
        changes := changes + [Removed(path)];
        seen := seen + {path};
      }
    }
    FoundAll(before, after, seen, changes);
    PathsOrder(changes);
    Sorting.Sorts(PathLess, changes);
    changes := Sorting.SortBy(PathLess, changes);
  }

  /** When the source has not moved, the plan is exactly the difference between base and view. */
  lemma {:induction false} DiffIsPlan(base: Tree, view: Tree, paths: seq<Path>, changes: seq<Change>)
    requires Covers(base, base, view, paths) && Ascends(paths)
    requires ByPath(changes) && forall c :: c in changes <==> DiffAt(base, view, c.path) == Some(c)
    ensures changes == Changes(base, base, view, paths)
  {
    hide Judge, Less;
    ChangesByPath(base, base, view, paths);
    PlanExact(base, base, view, paths);
    forall c
      ensures c in changes <==> c in Changes(base, base, view, paths)
    {
      DiffIsVerdict(base, view, c.path);
      if Verdicts(base, base, view, c.path) == Apply(c) {
        assert c.path in ChangePaths(Changes(base, base, view, paths));
        var d :| d in Changes(base, base, view, paths) && d.path == c.path;
      }
    }
    ChangesDistinct(base, base, view, paths);
    PathsOrder(Changes(base, base, view, paths));
    Sorting.SortedUnique(PathLess, Changes(base, base, view, paths), changes);
  }

  lemma {:induction false} DiffIsVerdict(base: Tree, view: Tree, p: Path)
    ensures forall c :: DiffAt(base, view, p) == Some(c) <==> Verdicts(base, base, view, p) == Apply(c)
    ensures Verdicts(base, base, view, p).Apply? <==> OnlyViewMoved(base, base, view, p)
  {
  }
}
