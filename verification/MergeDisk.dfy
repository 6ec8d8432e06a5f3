/**
  Applying merge plans to a directory: files and the directories they stand in.
  A file cannot be written below another file, nor where there is a directory.
 */
module MergeDisk {
  import opened FileSystem
  import opened Merge
  import opened TextOrder
  import opened Wrappers

  lemma {:induction false} UnderIsLess(q: Path, p: Path)
    requires Under(q, p)
    ensures Less(q, p)
  {
    if q != "" {
      assert q[0] == p[..|q|][0] == p[0];
      assert p[1..][..|q| - 1] == p[..|q|][1..] == q[1..];
      UnderIsLess(q[1..], p[1..]);
    }
  }

  // ---- one change, and all of them ------------------------------------------------------------------

  datatype ApplyError = CannotRead(path: Path) | CannotWrite(path: Path) | CannotRemove(path: Path)

  /** One change copied from the view; directories are made as needed and never removed. */
  function ApplyChange(disk: Disk, view: Tree, change: Change): Result<Disk, ApplyError> {
    var p := change.path;
    if change.Removed? then
      if p in disk.files then Ok(disk.(files := disk.files - {p})) else Err(CannotRemove(p))
    else if p !in view then Err(CannotRead(p))
    else if Blocked(disk, p) then Err(CannotWrite(p))
    else Ok(Disk(disk.files[p := view[p]], disk.dirs + Parents(p)))
  }

  /** The changes one after another; a failing one leaves those before it in place. */
  function ApplyAll(disk: Disk, view: Tree, changes: seq<Change>): (Disk, Option<ApplyError>)
    decreases |changes|
  {
    if changes == [] then (disk, None)
    else
      match ApplyChange(disk, view, changes[0])
      case Err(e) => (disk, Some(e))
      case Ok(next) => ApplyAll(next, view, changes[1..])
  }

  /** The directory a view was made of. */
  class Source {
    var files: Tree
    var dirs: set<Path>

    constructor (disk: Disk)
      ensures Current() == disk
    {
      files, dirs := disk.files, disk.dirs;
    }

    function Current(): Disk
      reads this
    {
      Disk(files, dirs)
    }

    method ApplyPlan(view: Tree, plan: MergePlan) returns (applied: nat, error: Option<ApplyError>)
      modifies this
      ensures (Current(), error) == ApplyAll(old(Current()), view, plan.apply)
      ensures applied <= |plan.apply| && (error == None <==> applied == |plan.apply|)
    {
      applied := 0;
      while applied < |plan.apply|
        invariant applied <= |plan.apply|
        invariant ApplyAll(Current(), view, plan.apply[applied..]) == ApplyAll(old(Current()), view, plan.apply)
        decreases |plan.apply| - applied
      {
        ghost var rest := plan.apply[applied..];
        assert rest[0] == plan.apply[applied] && rest[1..] == plan.apply[applied + 1..];
        var failure := Copy(view, plan.apply[applied]);
        if failure.Some? {
          return applied, failure;
        }
        applied := applied + 1;
      }
      error := None;
    }

    method Copy(view: Tree, change: Change) returns (failure: Option<ApplyError>)
      modifies this
      ensures match ApplyChange(old(Current()), view, change)
              case Err(e) => failure == Some(e) && Current() == old(Current())
              case Ok(next) => failure == None && Current() == next
    {
      var path := change.path;
      if change.Removed? {
        if path !in files {
          return Some(CannotRemove(path));
        }
        files := files - {path};
        return None;
      }
      if path !in view {
        return Some(CannotRead(path));
      }
      if Blocked(Current(), path) {
        return Some(CannotWrite(path));
      }
      dirs := dirs + Parents(path);
      files := files[path := view[path]];
      failure := None;
    }
  }

  // ---- what applying changes, and when it gets through -----------------------------------------------------

  /** Whatever happens, a path holds what it held, or what the view has there if the plan names it. */
  lemma {:induction false} NothingElseTouched(disk: Disk, view: Tree, changes: seq<Change>, p: Path)
    requires Applicable(disk.files, view, changes) && DistinctChanges(changes)
    ensures var after := Get(ApplyAll(disk, view, changes).0.files, p);
            after == Get(disk.files, p) || (p in ChangePaths(changes) && after == Get(view, p))
    decreases |changes|
  {
    if changes != [] && ApplyChange(disk, view, changes[0]).Ok? {
      StillApplicable(disk, view, changes);
      NothingElseTouched(ApplyChange(disk, view, changes[0]).value, view, changes[1..], p);
    }
  }

  lemma {:induction false} StillApplicable(disk: Disk, view: Tree, changes: seq<Change>)
    requires changes != [] && DistinctChanges(changes) && Applicable(disk.files, view, changes)
    requires ApplyChange(disk, view, changes[0]).Ok?
    ensures var c, rest := changes[0], changes[1..];
            && DistinctChanges(rest) && Applicable(ApplyChange(disk, view, c).value.files, view, rest)
            && ChangePaths(changes) == {c.path} + ChangePaths(rest) && c.path !in ChangePaths(rest)
  {
    hide Parents, Blocked, ChangePaths;
    var c, rest := changes[0], changes[1..];
    FirstPath(changes);
    assert forall d :: d in rest ==> d in changes && d.path != c.path;
  }

  lemma {:induction false} FirstPath(changes: seq<Change>)
    requires changes != [] && DistinctChanges(changes)
    ensures ChangePaths(changes) == {changes[0].path} + ChangePaths(changes[1..])
            && changes[0].path !in ChangePaths(changes[1..])
  {
    assert changes == [changes[0]] + changes[1..];
    SnocPaths([changes[0]], changes[1..]);
  }

  /** The directories the written paths go through. */
  ghost function NewDirs(changes: seq<Change>): set<Path> {
    if changes == [] then {} else (if changes[0].Removed? then {} else Parents(changes[0].path)) + NewDirs(changes[1..])
  }

  /** When all changes get through they put the view's side at their paths and leave every other path alone. */
  lemma {:induction false} AppliedExactly(disk: Disk, view: Tree, changes: seq<Change>)
    requires DistinctChanges(changes) && Applicable(disk.files, view, changes)
             && ApplyAll(disk, view, changes).1 == None
    ensures var after := ApplyAll(disk, view, changes).0;
            && after.dirs == disk.dirs + NewDirs(changes)
            && forall p :: Get(after.files, p) == if p in ChangePaths(changes) then Get(view, p) else Get(disk.files, p)
    decreases |changes|
  {
    hide Parents, Blocked;
    if changes != [] {
      StillApplicable(disk, view, changes);
      AppliedExactly(ApplyChange(disk, view, changes[0]).value, view, changes[1..]);
    }
  }

  ghost predicate RemovedBefore(changes: seq<Change>, i: nat, q: Path)
    requires i <= |changes|
  {
    exists j :: 0 <= j < i && changes[j] == Removed(q)
  }

  /** The way of the `i`-th write is clear: no directory there, and each file it would lie below removed before. */
  ghost predicate ClearedAt(disk: Disk, changes: seq<Change>, i: nat)
    requires i < |changes|
  {
    changes[i].Removed? ||
    (changes[i].path !in disk.dirs && forall q :: q in disk.files && Under(q, changes[i].path)
                                                  ==> RemovedBefore(changes, i, q))
  }

  ghost predicate Cleared(disk: Disk, changes: seq<Change>) {
    forall i :: 0 <= i < |changes| ==> ClearedAt(disk, changes, i)
  }

  lemma {:induction false} OneChangeOn(disk: Disk, view: Tree, changes: seq<Change>, i: nat)
    requires 0 < i < |changes| && DistinctChanges(changes) && Applicable(disk.files, view, changes) && Flat(view)
    requires ApplyChange(disk, view, changes[0]).Ok?
    ensures ClearedAt(disk, changes, i) <==> ClearedAt(ApplyChange(disk, view, changes[0]).value, changes[1..], i - 1)
  {
    var c, rest := changes[0], changes[1..];
    var next := ApplyChange(disk, view, c).value;
    var p := changes[i].path;
    assert rest[i - 1] == changes[i] && changes[i] in changes && c in changes;
    forall q | Under(q, p)
      ensures !changes[i].Removed? ==> (q in next.files <==> q in disk.files && c != Removed(q))
      ensures RemovedBefore(changes, i, q) <==> c == Removed(q) || RemovedBefore(rest, i - 1, q)
    {
      if RemovedBefore(changes, i, q) {
        var j :| 0 <= j < i && changes[j] == Removed(q);
        assert j > 0 ==> rest[j - 1] == Removed(q);
      }
      if RemovedBefore(rest, i - 1, q) {
        var j :| 0 <= j < i - 1 && rest[j] == Removed(q);
        assert changes[j + 1] == Removed(q);
      }
    }
  }

  /** The changes all get through exactly when nothing stands in the way of any of them. */
  lemma {:induction false} AppliesIff(disk: Disk, view: Tree, changes: seq<Change>)
    requires DistinctChanges(changes) && Applicable(disk.files, view, changes) && Flat(view)
    ensures ApplyAll(disk, view, changes).1 == None <==> Cleared(disk, changes)
    decreases |changes|
  {
    hide ClearedAt, Flat;
    if changes != [] {
      FirstCleared(disk, view, changes);
      if ApplyChange(disk, view, changes[0]).Ok? {
        var next, rest := ApplyChange(disk, view, changes[0]).value, changes[1..];
        StillApplicable(disk, view, changes);
        AppliesIff(next, view, rest);
        forall i | 0 < i < |changes|
          ensures ClearedAt(disk, changes, i) <==> ClearedAt(next, rest, i - 1)
        {
          OneChangeOn(disk, view, changes, i);
        }
        ClearedTail(disk, next, changes);
      }
    }
  }

  lemma {:induction false} ClearedTail(disk: Disk, next: Disk, changes: seq<Change>)
    requires changes != []
    requires forall i :: 0 < i < |changes| ==> (ClearedAt(disk, changes, i) <==> ClearedAt(next, changes[1..], i - 1))
    ensures Cleared(disk, changes) <==> ClearedAt(disk, changes, 0) && Cleared(next, changes[1..])
  {
    hide ClearedAt;
    if Cleared(disk, changes) {
      forall i | 0 <= i < |changes[1..]|
        ensures ClearedAt(next, changes[1..], i)
      {
        assert ClearedAt(disk, changes, i + 1);
      }
    }
  }

  lemma {:induction false} FirstCleared(disk: Disk, view: Tree, changes: seq<Change>)
    requires changes != [] && Applicable(disk.files, view, changes)
    ensures ApplyChange(disk, view, changes[0]).Ok? <==> ClearedAt(disk, changes, 0)
  {
    assert changes[0] in changes;
  }

  // ---- plans --------------------------------------------------------------------------------------------------

  /**
    Nothing stands in the way of what the view adds or edits: no directory is
    there, and every file it lies below is one the source left as in the base.
   */
  ghost predicate Fits(base: Tree, disk: Disk, view: Tree) {
    forall p :: p in view && OnlyViewMoved(base, disk.files, view, p) ==> FitsAt(base, disk, p)
  }

  ghost predicate FitsAt(base: Tree, disk: Disk, p: Path) {
    p !in disk.dirs && forall q :: q in disk.files && Under(q, p) ==> Get(base, q) == Get(disk.files, q)
  }

  lemma {:induction false} InPathOrder(changes: seq<Change>, j: nat, i: nat)
    requires ByPath(changes) && j < |changes| && i < |changes| && Less(changes[j].path, changes[i].path)
    ensures j < i
  {
    hide Less;
    if i < j {
      assert PathLess(changes[i], changes[j]);
    }
    LessIsStrict(changes[j].path, changes[i].path);
  }

  /** In a plan a file is removed before anything is written below it. */
  lemma {:induction false} RemovalsComeFirst(base: Tree, source: Tree, view: Tree, paths: seq<Path>, i: nat, q: Path)
    requires Covers(base, source, view, paths) && Ascends(paths) && Flat(view) && q in source
    requires i < |Changes(base, source, view, paths)| && Under(q, Changes(base, source, view, paths)[i].path)
    requires Changes(base, source, view, paths)[i].path in view
    ensures RemovedBefore(Changes(base, source, view, paths), i, q) <==> Get(base, q) == Get(source, q)
  {
    hide Judge, Changes, Verdicts;
    var changes := Changes(base, source, view, paths);
    PlanExact(base, source, view, paths);
    ChangesByPath(base, source, view, paths);
    UnderIsLess(q, changes[i].path);
    LessIsStrict(q, changes[i].path);
    if Get(base, q) == Get(source, q) {
      assert OnlyViewMoved(base, source, view, q);
      var c :| c in changes && c.path == q;
      JudgeExact(base, source, view, q);
      var j :| 0 <= j < |changes| && changes[j] == c;
      InPathOrder(changes, j, i);
    }
    if RemovedBefore(changes, i, q) {
      var j :| 0 <= j < i && changes[j] == Removed(q);
      assert changes[j].path in ChangePaths(changes);
    }
  }

  lemma {:induction false} PlanCleared(base: Tree, disk: Disk, view: Tree, paths: seq<Path>)
    requires Covers(base, disk.files, view, paths) && Ascends(paths) && Flat(view)
    ensures Cleared(disk, Changes(base, disk.files, view, paths)) <==> Fits(base, disk, view)
  {
    hide Judge, Changes, Verdicts, OnlyViewMoved, Flat;
    var changes := Changes(base, disk.files, view, paths);
    PlanApplies(base, disk.files, view, paths);
    forall i | 0 <= i < |changes| && !changes[i].Removed?
      ensures changes[i].path in view && OnlyViewMoved(base, disk.files, view, changes[i].path)
      ensures ClearedAt(disk, changes, i) <==> FitsAt(base, disk, changes[i].path)
    {
      assert changes[i] in changes && changes[i].path in ChangePaths(changes);
      forall q | q in disk.files && Under(q, changes[i].path)
        ensures RemovedBefore(changes, i, q) <==> Get(base, q) == Get(disk.files, q)
      {
        RemovalsComeFirst(base, disk.files, view, paths, i, q);
      }
    }
    forall p | p in view && OnlyViewMoved(base, disk.files, view, p) && Cleared(disk, changes)
      ensures FitsAt(base, disk, p)
    {
      var c :| c in changes && c.path == p;
      var i :| 0 <= i < |changes| && changes[i] == c;
      assert !c.Removed?;
      assert ClearedAt(disk, changes, i);
    }
  }

  /**
    Applying a plan never alters a path the source changed since the base,
    whether or not it gets through. It gets through exactly when the files fit,
    and then gives the merged tree.
   */
  lemma {:induction false} NoUpdateIsLost(base: Tree, disk: Disk, view: Tree, paths: seq<Path>)
    requires Covers(base, disk.files, view, paths) && Ascends(paths) && Flat(view)
    ensures var r := ApplyAll(disk, view, Changes(base, disk.files, view, paths));
            && (forall p :: Get(disk.files, p) != Get(base, p) ==> Get(r.0.files, p) == Get(disk.files, p))
            && (r.1 == None <==> Fits(base, disk, view))
            && (r.1 == None ==> r.0.files == Merged(base, disk.files, view))
  {
    hide Judge, Changes, Verdicts, ApplyAll, Flat, Cleared, Fits;
    var changes := Changes(base, disk.files, view, paths);
    PlanApplies(base, disk.files, view, paths);
    PlanCleared(base, disk, view, paths);
    AppliesIff(disk, view, changes);
    forall p | Get(disk.files, p) != Get(base, p)
      ensures Get(ApplyAll(disk, view, changes).0.files, p) == Get(disk.files, p)
    {
      NothingElseTouched(disk, view, changes, p);
    }
    if ApplyAll(disk, view, changes).1 == None {
      AppliedExactly(disk, view, changes);
      SameTree(ApplyAll(disk, view, changes).0.files, Merged(base, disk.files, view));
    }
  }

  /**
    When the source has not moved, applying the difference between base and view gives
    the view, unless it puts a file where there is a directory.
   */
  lemma {:induction false} DifferenceApplies(disk: Disk, view: Tree, paths: seq<Path>)
    requires Covers(disk.files, disk.files, view, paths) && Ascends(paths) && Flat(view)
    ensures var r := ApplyAll(disk, view, Changes(disk.files, disk.files, view, paths));
            && (r.1 == None <==> forall p :: p in view && Get(disk.files, p) != Get(view, p) ==> p !in disk.dirs)
            && (r.1 == None ==> r.0.files == view)
  {
    hide Judge, Changes, Verdicts, ApplyAll, Flat;
    NoUpdateIsLost(disk.files, disk, view, paths);
    forall p: Path
      ensures Get(Merged(disk.files, disk.files, view), p) == Get(view, p)
    {
      MergedIs(disk.files, disk.files, view, p);
    }
    SameTree(Merged(disk.files, disk.files, view), view);
  }

  /** A view that turned a directory into a file cannot be applied, though nothing conflicts. */
  lemma {:induction false} DirectoryCannotBecomeFile(content: Content, other: Content)
    ensures var base: Tree, view: Tree := map["a/b" := content], map["a" := other];
            var disk := Disk(base, {"a"});
            && IsClean(base, base, view) && !Fits(base, disk, view)
            && Changes(base, base, view, ["a", "a/b"]) == [Added("a"), Removed("a/b")]
            && ApplyAll(disk, view, Changes(base, base, view, ["a", "a/b"])) == (disk, Some(CannotWrite("a")))
  {
    var base: Tree, view: Tree := map["a/b" := content], map["a" := other];
    var paths := ["a", "a/b"];
    assert paths[..1] == ["a"] && paths[..1][..0] == [];
    assert Changes(base, base, view, []) == [];
    assert Changes(base, base, view, ["a"]) == [Added("a")];
    assert OnlyViewMoved(base, base, view, "a");
  }

  function SettledAt(
    base: Tree, source: Tree, view: Tree, resolutions: seq<(Path, Resolution)>, p: Path): Option<Content> {
    if OnlyViewMoved(base, source, view, p) || ViewChosen(base, source, view, resolutions, p) then Get(view, p)
    else Get(source, p)
  }

  /**
    After settling, the plan gets through exactly when each file it writes is
    clear of directories and of files not removed before it; then the view's
    side stands where only it moved or was chosen, and the source's elsewhere.
   */
  lemma {:induction false} SettledMerge(
    base: Tree, disk: Disk, view: Tree, paths: seq<Path>, resolutions: seq<(Path, Resolution)>)
    requires Covers(base, disk.files, view, paths) && Flat(view)
    ensures var source := disk.files;
            var settled := Resolved(Changes(base, source, view, paths), Conflicts(base, source, view, paths),
              resolutions).0;
            var r := ApplyAll(disk, view, settled);
            && (r.1 == None <==> Cleared(disk, settled))
            && (forall p :: Get(r.0.files, p) != Get(source, p) ==>
                  OnlyViewMoved(base, source, view, p) || ViewChosen(base, source, view, resolutions, p))
            && (r.1 == None ==> forall p :: Get(r.0.files, p) == SettledAt(base, source, view, resolutions, p))
  {
    hide Judge, Changes, Conflicts, Verdicts, ApplyAll, Resolved, Flat, OnlyViewMoved, ViewChosen, Cleared;
    SettledPlan(base, disk.files, view, paths, resolutions);
    var settled := Resolved(Changes(base, disk.files, view, paths), Conflicts(base, disk.files, view, paths),
      resolutions).0;
    AppliesIff(disk, view, settled);
    forall p
      ensures Get(ApplyAll(disk, view, settled).0.files, p) == Get(disk.files, p) || p in ChangePaths(settled)
    {
      NothingElseTouched(disk, view, settled, p);
    }
    if ApplyAll(disk, view, settled).1 == None {
      AppliedExactly(disk, view, settled);
    }
  }

  // ---- several views of one base ----------------------------------------------------------------------------------

  /** The directory after a plan that gets through. */
  ghost function After(base: Tree, disk: Disk, view: Tree): Disk {
    Disk(Merged(base, disk.files, view), disk.dirs + WrittenDirs(base, disk.files, view))
  }

  ghost function WrittenDirs(base: Tree, source: Tree, view: Tree): (dirs: set<Path>)
    ensures forall q :: q in dirs <==> exists p :: p in view && OnlyViewMoved(base, source, view, p) && q in Parents(p)
  {
    set p, q | p in view && OnlyViewMoved(base, source, view, p) && q in Parents(p) :: q
  }

  lemma {:induction false} NewDirsExact(changes: seq<Change>, q: Path)
    ensures q in NewDirs(changes) <==> exists c :: c in changes && !c.Removed? && q in Parents(c.path)
  {
    hide Parents;
    if changes != [] {
      NewDirsExact(changes[1..], q);
      assert changes == [changes[0]] + changes[1..];
    }
  }

  lemma {:induction false} PlanLeads(base: Tree, disk: Disk, view: Tree, paths: seq<Path>)
    requires Covers(base, disk.files, view, paths) && Ascends(paths) && Flat(view) && Fits(base, disk, view)
    ensures ApplyAll(disk, view, Changes(base, disk.files, view, paths)) == (After(base, disk, view), None)
  {
    hide Judge, Changes, Verdicts, ApplyAll, Flat, Fits, OnlyViewMoved, Parents;
    var changes := Changes(base, disk.files, view, paths);
    NoUpdateIsLost(base, disk, view, paths);
    PlanApplies(base, disk.files, view, paths);
    AppliedExactly(disk, view, changes);
    forall q
      ensures q in NewDirs(changes) <==> q in WrittenDirs(base, disk.files, view)
    {
      NewDirsExact(changes, q);
      if q in NewDirs(changes) {
        var c :| c in changes && !c.Removed? && q in Parents(c.path);
        assert c.path in ChangePaths(changes);
      }
      if q in WrittenDirs(base, disk.files, view) {
        var p :| p in view && OnlyViewMoved(base, disk.files, view, p) && q in Parents(p);
        var c :| c in changes && c.path == p;
      }
    }
    assert NewDirs(changes) == WrittenDirs(base, disk.files, view);
  }

  /** The views planned and applied one after another: no plan has a conflict, and every one gets through. */
  ghost predicate RunApplies(base: Tree, disk: Disk, views: seq<Tree>)
    decreases |views|
  {
    views == [] ||
    (IsClean(base, disk.files, views[0]) && Fits(base, disk, views[0])
      && RunApplies(base, After(base, disk, views[0]), views[1..]))
  }

  /** Some view writes this path: it moved it to something the source does not have there. */
  ghost predicate Writes(base: Tree, source: Tree, view: Tree, p: Path) {
    p in view && Get(base, p) != Get(view, p) && Get(source, p) != Get(view, p)
  }

  /** Nothing a run writes is in the way of anything: no directory there before, no file above it in the end. */
  ghost predicate RunFits(disk: Disk, final: Tree, p: Path) {
    p !in disk.dirs && forall q :: Under(q, p) ==> q !in final
  }

  ghost predicate AllFit(base: Tree, disk: Disk, views: seq<Tree>, final: Tree) {
    forall v, p :: v in views && Writes(base, disk.files, v, p) ==> RunFits(disk, final, p)
  }

  lemma {:induction false} FirstFits(base: Tree, disk: Disk, views: seq<Tree>, p: Path)
    requires views != [] && CleanRun(base, disk.files, views) && Flat(views[0])
    requires p in views[0] && OnlyViewMoved(base, disk.files, views[0], p)
    requires RunFits(disk, FinalTree(base, disk.files, views), p)
    ensures FitsAt(base, disk, p)
  {
    forall q | q in disk.files && Under(q, p)
      ensures Get(base, q) == Get(disk.files, q)
    {
      FinalExact(base, disk.files, views, q);
    }
  }

  /**
    What a later view writes, it writes whether or not the first one is merged before
    it, unless the first wrote the same.
   */
  lemma {:induction false} LaterWrites(base: Tree, source: Tree, first: Tree, view: Tree, p: Path)
    requires Agree(base, first, view)
    ensures Writes(base, Merged(base, source, first), view, p) ==> Writes(base, source, view, p)
    ensures Writes(base, source, view, p)
            ==> Writes(base, Merged(base, source, first), view, p) || Writes(base, source, first, p)
  {
    MergedIs(base, source, first, p);
    assert AgreeAt(base, first, view, p);
  }

  lemma {:induction false} FitsFor(base: Tree, disk: Disk, views: seq<Tree>, final: Tree, v: Tree, p: Path)
    requires AllFit(base, disk, views, final) && v in views && Writes(base, disk.files, v, p)
    ensures p !in disk.dirs && forall q :: Under(q, p) ==> q !in final
  {
    hide Writes, Under;
    assert RunFits(disk, final, p);
  }

  /** No directory the first view makes stands where a file ends up. */
  lemma {:induction false} FirstKeepsOff(base: Tree, disk: Disk, views: seq<Tree>, final: Tree, p: Path)
    requires views != [] && AllFit(base, disk, views, final) && p in final
    ensures p !in WrittenDirs(base, disk.files, views[0])
  {
    hide AllFit, Under;
    forall w | w in views[0] && OnlyViewMoved(base, disk.files, views[0], w)
      ensures p !in Parents(w)
    {
      FitsFor(base, disk, views, final, views[0], w);
    }
  }

  /** A run that fits in the end fits at its first step, and from there on. */
  lemma {:induction false} FitStep(base: Tree, disk: Disk, views: seq<Tree>)
    requires views != [] && CleanRun(base, disk.files, views) && AllAgree(base, disk.files, views)
             && forall v :: v in views ==> Flat(v)
    requires AllFit(base, disk, views, FinalTree(base, disk.files, views))
    ensures Fits(base, disk, views[0])
            && AllFit(base, After(base, disk, views[0]), views[1..], FinalTree(base, disk.files, views))
  {
    hide CleanRun, Agree, Merged, FinalTree, Flat, Under, AllAgree, FitsAt, RunFits;
    var first, rest, final := views[0], views[1..], FinalTree(base, disk.files, views);
    var next := After(base, disk, first);
    forall p | p in first && OnlyViewMoved(base, disk.files, first, p)
      ensures FitsAt(base, disk, p)
    {
      assert Writes(base, disk.files, first, p);
      FirstFits(base, disk, views, p);
    }
    forall v, p | v in rest && Writes(base, next.files, v, p)
      ensures RunFits(next, final, p)
    {
      LaterFits(base, disk, views, v, p);
    }
  }

  lemma {:induction false} LaterFits(base: Tree, disk: Disk, views: seq<Tree>, v: Tree, p: Path)
    requires views != [] && CleanRun(base, disk.files, views) && AllAgree(base, disk.files, views)
    requires AllFit(base, disk, views, FinalTree(base, disk.files, views))
    requires v in views[1..] && Writes(base, Merged(base, disk.files, views[0]), v, p)
    ensures RunFits(After(base, disk, views[0]), FinalTree(base, disk.files, views), p)
  {
    hide CleanRun, Agree, Merged, FinalTree, Under, AllAgree, AllFit;
    AllAgreeAt(base, disk.files, views, views[0], v);
    LaterWrites(base, disk.files, views[0], v, p);
    FitsFor(base, disk, views, FinalTree(base, disk.files, views), v, p);
    FinalExact(base, disk.files, views, p);
    FirstKeepsOff(base, disk, views, FinalTree(base, disk.files, views), p);
  }

  lemma {:induction false} AllAgreeAt(base: Tree, source: Tree, views: seq<Tree>, v: Tree, w: Tree)
    requires AllAgree(base, source, views) && v in views && w in views
    ensures Agree(base, v, w) && Agree(base, source, v)
  {
    hide Agree;
  }

  lemma {:induction false} AgreesAt(base: Tree, x: Tree, y: Tree, p: Path)
    requires Agree(base, x, y)
    ensures AgreeAt(base, x, y, p)
  {
  }

  /** What the first view writes, it writes on top of what the base had. */
  lemma {:induction false} WritesAlone(base: Tree, source: Tree, view: Tree, p: Path)
    requires Agree(base, source, view)
    ensures Writes(base, source, view, p) <==> p in view && OnlyViewMoved(base, source, view, p)
  {
    hide Agree;
    AgreesAt(base, source, view, p);
  }

  /** A file of the final tree that the first view does not have, and the source has not moved, is another view's. */
  lemma {:induction false} MovedBy(base: Tree, source: Tree, views: seq<Tree>, q: Path) returns (v: Tree)
    requires CleanRun(base, source, views) && q in FinalTree(base, source, views)
    requires Get(source, q) == Get(base, q) && views != [] && q !in views[0]
    ensures v in views[1..] && Get(base, q) == None && Writes(base, Merged(base, source, views[0]), v, q)
  {
    hide CleanRun, FinalTree, Merged;
    FinalExact(base, source, views, q);
    assert views == [views[0]] + views[1..];
    assert views[0] in views && Get(base, q) == None;
    v :| v in views && Get(v, q) != Get(base, q);
    MergedIs(base, source, views[0], q);
  }

  /**
    What the first view writes keeps clear of everything in the final tree, if it fits
    and the rest of the run does.
   */
  lemma {:induction false} FirstStaysClear(base: Tree, disk: Disk, views: seq<Tree>, p: Path, q: Path)
    requires views != [] && CleanRun(base, disk.files, views) && Agree(base, disk.files, views[0]) && Flat(views[0])
    requires Fits(base, disk, views[0])
             && AllFit(base, After(base, disk, views[0]), views[1..], FinalTree(base, disk.files, views))
    requires Writes(base, disk.files, views[0], p) && Under(q, p)
    ensures q !in FinalTree(base, disk.files, views)
  {
    hide CleanRun, Agree, Merged, FinalTree, AllFit, Under;
    var first, final := views[0], FinalTree(base, disk.files, views);
    WritesAlone(base, disk.files, first, p);
    assert FitsAt(base, disk, p) && q in Parents(p) && q !in first;
    if q in final {
      FinalExact(base, disk.files, views, q);
      var v := MovedBy(base, disk.files, views, q);
      FitsFor(base, After(base, disk, first), views[1..], final, v, q);
    }
  }

  /** The views in any order; a run applies exactly when it is clean and what it writes fits the final tree. */
  lemma {:induction false} RunAppliesIff(base: Tree, disk: Disk, views: seq<Tree>)
    requires forall v :: v in views ==> Flat(v)
    ensures RunApplies(base, disk, views) <==>
            CleanRun(base, disk.files, views) && AllFit(base, disk, views, FinalTree(base, disk.files, views))
    decreases |views|
  {
    hide Merged, Flat, Fits, IsClean, AllFit, Agree, AllAgree, After;
    if views != [] {
      var first, rest := views[0], views[1..];
      assert After(base, disk, first).files == Merged(base, disk.files, first) by { AfterFiles(base, disk, first); }
      RunAppliesIff(base, After(base, disk, first), rest);
      CleanRunIff(base, disk.files, views);
      if CleanRun(base, disk.files, views) {
        if AllFit(base, disk, views, FinalTree(base, disk.files, views)) {
          FitStep(base, disk, views);
        }
        if RunApplies(base, disk, views) {
          WholeFits(base, disk, views);
        }
      }
    } else {
      NothingWritten(base, disk, FinalTree(base, disk.files, views));
    }
  }

  lemma {:induction false} AfterFiles(base: Tree, disk: Disk, view: Tree)
    ensures After(base, disk, view).files == Merged(base, disk.files, view) && disk.dirs <= After(base, disk, view).dirs
  {
    hide Merged;
  }

  lemma {:induction false} NothingWritten(base: Tree, disk: Disk, final: Tree)
    ensures AllFit(base, disk, [], final)
  {
  }

  /** A first step that fits, followed by a run that does, is a run that fits. */
  lemma {:induction false} WholeFits(base: Tree, disk: Disk, views: seq<Tree>)
    requires views != [] && CleanRun(base, disk.files, views) && AllAgree(base, disk.files, views) && Flat(views[0])
    requires Fits(base, disk, views[0])
             && AllFit(base, After(base, disk, views[0]), views[1..], FinalTree(base, disk.files, views))
    ensures AllFit(base, disk, views, FinalTree(base, disk.files, views))
  {
    hide CleanRun, Agree, Merged, FinalTree, AllAgree, Flat, Under, Writes, After, Fits;
    var first, rest, final := views[0], views[1..], FinalTree(base, disk.files, views);
    AllAgreeAt(base, disk.files, views, first, first);
    assert views == [first] + rest;
    forall v, p | v in views && Writes(base, disk.files, v, p)
      ensures RunFits(disk, final, p)
    {
      if Writes(base, disk.files, first, p) {
        WrittenClear(base, disk, first, p);
        forall q | Under(q, p)
          ensures q !in final
        {
          FirstStaysClear(base, disk, views, p, q);
        }
      } else {
        AllAgreeAt(base, disk.files, views, first, v);
        LaterWrites(base, disk.files, first, v, p);
        AfterFiles(base, disk, first);
        FitsFor(base, After(base, disk, first), rest, final, v, p);
      }
    }
  }

  lemma {:induction false} WrittenClear(base: Tree, disk: Disk, view: Tree, p: Path)
    requires Agree(base, disk.files, view) && Fits(base, disk, view) && Writes(base, disk.files, view, p)
    ensures p !in disk.dirs
  {
    hide Agree, Writes;
    WritesAlone(base, disk.files, view, p);
    assert FitsAt(base, disk, p);
  }

  /**
    Views of one base that can be merged one after another in one order can be
    in every order, and the tree they give is the same.
   */
  lemma {:induction false} OrderDoesNotMatter(base: Tree, disk: Disk, views: seq<Tree>, other: seq<Tree>)
    requires multiset(views) == multiset(other) && forall v :: v in views ==> Flat(v)
    ensures RunApplies(base, disk, other) <==> RunApplies(base, disk, views)
    ensures RunApplies(base, disk, views) ==> FinalTree(base, disk.files, other) == FinalTree(base, disk.files, views)
  {
    hide Agree, CleanRun, FinalTree, Flat, RunApplies, Writes, RunFits;
    assert forall v :: v in views <==> v in multiset(views);
    assert forall v :: v in other <==> v in multiset(other);
    RunAppliesIff(base, disk, views);
    RunAppliesIff(base, disk, other);
    CleanRunIff(base, disk.files, views);
    CleanRunIff(base, disk.files, other);
    if CleanRun(base, disk.files, views) {
      forall p: Path
        ensures Get(FinalTree(base, disk.files, other), p) == Get(FinalTree(base, disk.files, views), p)
      {
        FinalExact(base, disk.files, views, p);
        FinalExact(base, disk.files, other, p);
      }
      SameTree(FinalTree(base, disk.files, other), FinalTree(base, disk.files, views));
    }
  }

  /** `FinalTree` is what the directory holds after such a run. */
  lemma {:induction false} RunLeadsTo(base: Tree, disk: Disk, view: Tree, rest: seq<Tree>, paths: seq<Path>)
    requires Covers(base, disk.files, view, paths) && Ascends(paths) && Flat(view)
             && RunApplies(base, disk, [view] + rest)
    ensures var r := ApplyAll(disk, view, Changes(base, disk.files, view, paths));
            && Conflicts(base, disk.files, view, paths) == [] && r.1 == None && RunApplies(base, r.0, rest)
            && FinalTree(base, disk.files, [view] + rest) == FinalTree(base, r.0.files, rest)
  {
    hide Changes, Judge, Verdicts, ApplyAll, Flat, Fits, Merged, OnlyViewMoved;
    var views := [view] + rest;
    assert views[0] == view && views[1..] == rest;
    PlanLeads(base, disk, view, paths);
    AfterFiles(base, disk, view);
    CleanPlan(base, disk.files, view, paths);
  }
}
