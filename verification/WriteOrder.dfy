/** When writing out a workspace edit gives exactly its result, read off the edit before anything is written. */
module WriteOrder {
  import opened FileSystem
  import opened WritePhase
  import opened Wrappers

  /** The edit gives this path a content it did not have. */
  predicate Written(before: Files, after: Files, p: Path) {
    p in after && Lookup(before, p) != Lookup(after, p)
  }

  /** The edit touches this path, and there is no file there before or after. */
  predicate Absent(before: Files, after: Files, p: Path) {
    p !in before && p !in after
  }

  /** One of the first `k` paths is absent and stands at or above `q`: a directory there has been taken away. */
  ghost predicate Cleared(before: Files, after: Files, order: seq<Path>, k: nat, q: Path)
    requires k <= |order|
  {
    exists j :: 0 <= j < k && Absent(before, after, order[j]) && AtOrUnder(order[j], q)
  }

  /** One of the first `k` paths is written below `q`. */
  ghost predicate MadeFor(before: Files, after: Files, order: seq<Path>, k: nat, q: Path)
    requires k <= |order|
  {
    exists j :: 0 <= j < k && Written(before, after, order[j]) && Under(q, order[j])
  }

  /** No file is left at `q`, which is not written, when the `k`-th path has its turn. */
  ghost predicate OutOfTheWay(before: Files, after: Files, order: seq<Path>, k: nat, q: Path)
    requires k <= |order|
  {
    if q in order[..k] then q !in after else Cleared(before, after, order, k, q)
  }

  /** A file that a directory taken away at turn `k` takes with it is removed before, or written again after. */
  ghost predicate TakenRightly(before: Files, after: Files, order: seq<Path>, k: nat, q: Path)
    requires k <= |order|
  {
    if q in after then Written(before, after, q) && q !in order[..k] else q in order[..k]
  }

  /**
    A path to be written is no directory by then, no earlier path is written
    below it, and each file there was or is written above it is out of the way.
    An absent path has no earlier path written below it, and where it is a
    directory it takes no file that should stay.
   */
  ghost predicate TidyAt(disk: Disk, after: Files, order: seq<Path>, k: nat)
    requires k < |order|
  {
    var before, p := disk.files, order[k];
    if Written(before, after, p) then
      && (p in disk.dirs ==> Cleared(before, after, order, k, p))
      && !MadeFor(before, after, order, k, p)
      && (forall q :: Under(q, p) && (q in before || q in order[..k]) ==> OutOfTheWay(before, after, order, k, q))
    else
      Absent(before, after, p) ==>
        && !MadeFor(before, after, order, k, p)
        && (p in disk.dirs ==> forall q :: q in before && Under(p, q) ==> TakenRightly(before, after, order, k, q))
  }

  ghost predicate Tidy(disk: Disk, after: Files, order: seq<Path>) {
    forall k: nat :: k < |order| ==> TidyAt(disk, after, order, k)
  }

  /** `order` names every path whose content changes, once. */
  ghost predicate Names(disk: Disk, after: Files, order: seq<Path>) {
    && (forall i, j :: 0 <= i < j < |order| ==> order[i] != order[j])
    && (forall p :: p !in order ==> Lookup(disk.files, p) == Lookup(after, p))
  }

  // ---- half way through ---------------------------------------------------------------------------------

  function Expected(before: Files, after: Files, done: bool, cleared: bool, q: Path): Option<Content> {
    if done then Lookup(after, q) else if cleared then None else Lookup(before, q)
  }

  /** What stands at `q` when the first `k` paths have had their turn. */
  ghost predicate Stands(disk: Disk, after: Files, order: seq<Path>, k: nat, q: Path)
    requires k <= |order|
  {
    var d := Reached(disk, disk.files, after, order[..k]);
    var cleared := Cleared(disk.files, after, order, k, q);
    && Lookup(d.files, q) == Expected(disk.files, after, q in order[..k], cleared, q)
    && (q in d.dirs <==> (q in disk.dirs && !cleared) || MadeFor(disk.files, after, order, k, q))
  }

  ghost predicate Halfway(disk: Disk, after: Files, order: seq<Path>, k: nat)
    requires k <= |order|
  {
    forall q :: Stands(disk, after, order, k, q)
  }

  lemma {:induction false} OneMore(before: Files, after: Files, order: seq<Path>, k: nat, q: Path)
    requires k < |order|
    ensures MadeFor(before, after, order, k + 1, q)
            <==> MadeFor(before, after, order, k, q) || (Written(before, after, order[k]) && Under(q, order[k]))
    ensures Cleared(before, after, order, k + 1, q)
            <==> Cleared(before, after, order, k, q) || (Absent(before, after, order[k]) && AtOrUnder(order[k], q))
  {
    hide Written, Absent, Under, AtOrUnder;
    if MadeFor(before, after, order, k + 1, q) {
      var j :| 0 <= j < k + 1 && Written(before, after, order[j]) && Under(q, order[j]);
      assert j < k || j == k;
    }
    if Cleared(before, after, order, k + 1, q) {
      var j :| 0 <= j < k + 1 && Absent(before, after, order[j]) && AtOrUnder(order[j], q);
      assert j < k || j == k;
    }
  }

  lemma {:induction false} NotYet(disk: Disk, after: Files, order: seq<Path>, k: nat)
    requires Names(disk, after, order) && k < |order|
    ensures order[k] !in order[..k] && order[..k + 1] == order[..k] + [order[k]]
  {
  }

  lemma {:induction false} ClearedBelow(before: Files, after: Files, order: seq<Path>, k: nat, p: Path, q: Path)
    requires k <= |order| && Cleared(before, after, order, k, p) && Under(p, q)
    ensures Cleared(before, after, order, k, q)
  {
    hide Absent;
    var j :| 0 <= j < k && Absent(before, after, order[j]) && AtOrUnder(order[j], p);
    if Under(order[j], p) {
      UnderChain(order[j], p, q);
    }
  }

  lemma {:induction false} MadeAbove(before: Files, after: Files, order: seq<Path>, k: nat, p: Path, q: Path)
    requires k <= |order| && MadeFor(before, after, order, k, q) && Under(p, q)
    ensures MadeFor(before, after, order, k, p)
  {
    hide Written;
    var j :| 0 <= j < k && Written(before, after, order[j]) && Under(q, order[j]);
    UnderChain(p, q, order[j]);
  }

  lemma {:induction false} Begins(disk: Disk, after: Files, order: seq<Path>)
    ensures Halfway(disk, after, order, 0)
  {
    assert order[..0] == [];
  }

  // ---- tidy edits get through -----------------------------------------------------------------------------

  /** Half way through: what the `k`-th turn meets. */
  ghost predicate Meets(disk: Disk, after: Files, order: seq<Path>, k: nat) {
    Proper(disk) && Names(disk, after, order) && k < |order| && Halfway(disk, after, order, k)
  }

  lemma {:induction false} TidyIsClear(disk: Disk, after: Files, order: seq<Path>, k: nat)
    requires Meets(disk, after, order, k)
    requires TidyAt(disk, after, order, k) && Written(disk.files, after, order[k])
    ensures !Blocked(Reached(disk, disk.files, after, order[..k]), order[k])
  {
    hide Reached, Under, Cleared, MadeFor, Written;
    var d, p := Reached(disk, disk.files, after, order[..k]), order[k];
    assert Stands(disk, after, order, k, p);
    forall q | q in d.files
      ensures !Under(q, p)
    {
      assert Stands(disk, after, order, k, q);
    }
  }

  /** A turn that writes. */
  lemma {:induction false} WriteTurn(disk: Disk, after: Files, order: seq<Path>, k: nat, q: Path)
    requires Meets(disk, after, order, k)
    requires Written(disk.files, after, order[k]) && !Blocked(Reached(disk, disk.files, after, order[..k]), order[k])
    ensures Stands(disk, after, order, k + 1, q)
  {
    hide Reached, Under, AtOrUnder, Cleared, MadeFor;
    NotYet(disk, after, order, k);
    ReachedMore(disk, disk.files, after, order, k);
    OneMore(disk.files, after, order, k, q);
    assert Stands(disk, after, order, k, q);
  }

  /** A turn that removes a file, or finds nothing to do. */
  lemma {:induction false} FileTurn(disk: Disk, after: Files, order: seq<Path>, k: nat, q: Path)
    requires Meets(disk, after, order, k) && ReadyAt(disk, disk.files, after, order, k)
    requires !Written(disk.files, after, order[k]) && order[k] in disk.files
    requires order[k] in after ==> order[k] in Reached(disk, disk.files, after, order[..k]).files
    ensures Stands(disk, after, order, k + 1, q)
  {
    hide Reached, Under, AtOrUnder, Cleared, MadeFor;
    NotYet(disk, after, order, k);
    ReachedMore(disk, disk.files, after, order, k);
    OneMore(disk.files, after, order, k, q);
    assert Stands(disk, after, order, k, q);
  }

  /** A turn of an absent path: a directory there goes with everything below it. */
  lemma {:induction false} AbsentTurn(disk: Disk, after: Files, order: seq<Path>, k: nat, q: Path)
    requires Meets(disk, after, order, k) && Absent(disk.files, after, order[k]) && TidyAt(disk, after, order, k)
    requires forall j: nat :: j < k ==> TidyAt(disk, after, order, j)
    ensures Stands(disk, after, order, k + 1, q)
  {
    hide Reached, Cleared, MadeFor;
    var p := order[k];
    NotYet(disk, after, order, k);
    ReachedMore(disk, disk.files, after, order, k);
    OneMore(disk.files, after, order, k, q);
    assert Stands(disk, after, order, k, q) && Stands(disk, after, order, k, p);
    if Under(p, q) {
      if MadeFor(disk.files, after, order, k, q) {
        MadeAbove(disk.files, after, order, k, p, q);
      }
      if Cleared(disk.files, after, order, k, p) {
        ClearedBelow(disk.files, after, order, k, p, q);
      }
      BelowAbsent(disk, after, order, k, q);
    }
  }

  /** Below a tidy absent path nothing has been written. */
  lemma {:induction false} BelowAbsent(disk: Disk, after: Files, order: seq<Path>, k: nat, q: Path)
    requires Meets(disk, after, order, k) && Absent(disk.files, after, order[k]) && TidyAt(disk, after, order, k)
    requires Under(order[k], q)
    ensures q in order[..k] ==> q !in after
  {
    hide Under, Cleared;
    if q in disk.files {
      assert order[k] in Parents(q);
      assert TakenRightly(disk.files, after, order, k, q);
    } else if q in order[..k] {
      var j :| 0 <= j < k && order[j] == q;
      assert !Written(disk.files, after, order[j]);
    }
  }

  lemma {:induction false} TidyTurn(disk: Disk, after: Files, order: seq<Path>, k: nat)
    requires Meets(disk, after, order, k) && TidyAt(disk, after, order, k)
    requires forall j: nat :: j < k ==> TidyAt(disk, after, order, j)
    ensures ReadyAt(disk, disk.files, after, order, k) && Halfway(disk, after, order, k + 1)
  {
    hide Reached, Under, Cleared, MadeFor, Halfway, Stands;
    var p, next := order[k], k + 1;
    if Written(disk.files, after, p) {
      TidyIsClear(disk, after, order, k);
      forall q
        ensures Stands(disk, after, order, next, q)
      {
        WriteTurn(disk, after, order, k, q);
      }
    } else if p in disk.files {
      StillThere(disk, after, order, k);
      forall q
        ensures Stands(disk, after, order, next, q)
      {
        FileTurn(disk, after, order, k, q);
      }
    } else {
      forall q
        ensures Stands(disk, after, order, next, q)
      {
        AbsentTurn(disk, after, order, k, q);
      }
    }
    EveryPlace(disk, after, order, next);
  }

  lemma {:induction false} EveryPlace(disk: Disk, after: Files, order: seq<Path>, k: nat)
    requires k <= |order| && forall q :: Stands(disk, after, order, k, q)
    ensures Halfway(disk, after, order, k)
  {
    hide Stands;
  }

  /** A file that is not written is still there at its turn: no directory above it has been taken away wrongly. */
  lemma {:induction false} StillThere(disk: Disk, after: Files, order: seq<Path>, k: nat)
    requires Meets(disk, after, order, k) && order[k] in disk.files && !Written(disk.files, after, order[k])
    requires forall j: nat :: j < k ==> TidyAt(disk, after, order, j)
    ensures order[k] in Reached(disk, disk.files, after, order[..k]).files
  {
    hide Reached, Under, Written;
    var p := order[k];
    NotYet(disk, after, order, k);
    assert Stands(disk, after, order, k, p);
    forall j: nat | j < k && Absent(disk.files, after, order[j])
      ensures !AtOrUnder(order[j], p)
    {
      KeepsFile(disk, after, order, j, p);
    }
  }

  /** A tidy absent path is not above a file that has its turn later and is not written. */
  lemma {:induction false} KeepsFile(disk: Disk, after: Files, order: seq<Path>, j: nat, p: Path)
    requires Proper(disk) && j < |order| && Absent(disk.files, after, order[j]) && TidyAt(disk, after, order, j)
    requires p in disk.files && !Written(disk.files, after, p) && p !in order[..j]
    ensures !AtOrUnder(order[j], p)
  {
    hide Under, Written, Cleared, MadeFor;
    if Under(order[j], p) {
      TakesRightly(disk, after, order, j, p);
    }
  }

  lemma {:induction false} TakesRightly(disk: Disk, after: Files, order: seq<Path>, j: nat, p: Path)
    requires Proper(disk) && j < |order| && Absent(disk.files, after, order[j]) && TidyAt(disk, after, order, j)
    requires p in disk.files && Under(order[j], p)
    ensures TakenRightly(disk.files, after, order, j, p)
  {
    assert order[j] in Parents(p);
  }

  lemma {:induction false} TidySoFar(disk: Disk, after: Files, order: seq<Path>, k: nat)
    requires Proper(disk) && Names(disk, after, order) && k <= |order|
    requires forall j: nat :: j < k ==> TidyAt(disk, after, order, j)
    ensures Halfway(disk, after, order, k) && forall j: nat :: j < k ==> ReadyAt(disk, disk.files, after, order, j)
  {
    hide TidyAt, Halfway, ReadyAt;
    if k == 0 {
      Begins(disk, after, order);
    } else {
      TidySoFar(disk, after, order, k - 1);
      TidyTurn(disk, after, order, k - 1);
    }
  }

  // ---- what gets through is tidy -----------------------------------------------------------------------

  /** A file that is gone and not written again stays gone. */
  lemma {:induction false} StaysOut(disk: Disk, before: Files, after: Files, order: seq<Path>, k: nat, n: nat, q: Path)
    requires k <= n <= |order| && q !in Reached(disk, before, after, order[..k]).files
    requires forall j :: k <= j < n && order[j] == q ==> Lookup(before, q) == Lookup(after, q) || q !in after
    ensures q !in Reached(disk, before, after, order[..n]).files
  {
    hide Reached, Under;
    if k < n {
      StaysOut(disk, before, after, order, k, n - 1, q);
      ReachedMore(disk, before, after, order, n - 1);
    }
  }

  /** A directory taken away at turn `k` leaves no file below it. */
  lemma {:induction false} TakenAway(disk: Disk, after: Files, order: seq<Path>, k: nat, q: Path)
    requires k < |order| && Absent(disk.files, after, order[k]) && Under(order[k], q)
    requires order[k] in Reached(disk, disk.files, after, order[..k]).dirs
    ensures q !in Reached(disk, disk.files, after, order[..k + 1]).files
  {
    hide Reached, Under;
    ReachedMore(disk, disk.files, after, order, k);
  }

  /** Every path is ready at its turn, and in the end the files are the result. */
  ghost predicate GetsThrough(disk: Disk, after: Files, order: seq<Path>) {
    AllReady(disk, disk.files, after, order) && Reached(disk, disk.files, after, order).files == after
  }

  /** What has had its turn and belongs to the result cannot be taken away. */
  lemma {:induction false} NothingLost(disk: Disk, after: Files, order: seq<Path>, k: nat, q: Path)
    requires Names(disk, after, order) && GetsThrough(disk, after, order) && k <= |order| && q in after
    requires q in order[..k] || !Written(disk.files, after, q)
    ensures q in Reached(disk, disk.files, after, order[..k]).files
  {
    hide Reached;
    assert order[..|order|] == order;
    if q !in Reached(disk, disk.files, after, order[..k]).files {
      if q in order[..k] {
        var i :| 0 <= i < k && order[i] == q;
      }
      StaysOut(disk, disk.files, after, order, k, |order|, q);
    }
  }

  /** What is still to be removed cannot be taken away before. */
  lemma {:induction false} NothingTakenEarly(disk: Disk, after: Files, order: seq<Path>, k: nat, q: Path)
    requires Names(disk, after, order) && GetsThrough(disk, after, order) && k <= |order|
    requires q in disk.files && q !in after && q !in order[..k]
    ensures q in Reached(disk, disk.files, after, order[..k]).files
  {
    hide Reached;
    assert q in order;
    var m :| 0 <= m < |order| && order[m] == q;
    assert m >= k;
    assert ReadyAt(disk, disk.files, after, order, m);
    if q !in Reached(disk, disk.files, after, order[..k]).files {
      StaysOut(disk, disk.files, after, order, k, m, q);
    }
  }

  lemma {:induction false} WrittenIsTidy(disk: Disk, after: Files, order: seq<Path>, k: nat)
    requires Meets(disk, after, order, k) && ReadyAt(disk, disk.files, after, order, k)
             && Written(disk.files, after, order[k])
    ensures TidyAt(disk, after, order, k)
  {
    hide Reached, Under, Cleared, MadeFor;
    var p := order[k];
    assert Stands(disk, after, order, k, p);
    forall q | Under(q, p) && (q in disk.files || q in order[..k])
      ensures OutOfTheWay(disk.files, after, order, k, q)
    {
      assert Stands(disk, after, order, k, q);
    }
  }

  lemma {:induction false} AbsentIsTidy(disk: Disk, after: Files, order: seq<Path>, k: nat)
    requires Meets(disk, after, order, k) && GetsThrough(disk, after, order) && Absent(disk.files, after, order[k])
    requires forall j: nat :: j < k ==> TidyAt(disk, after, order, j)
    ensures TidyAt(disk, after, order, k)
  {
    hide Reached, Under, Cleared, MadeFor, GetsThrough, Halfway;
    var p := order[k];
    NothingMadeBelow(disk, after, order, k);
    forall q | p in disk.dirs && q in disk.files && Under(p, q)
      ensures TakenRightly(disk.files, after, order, k, q)
    {
      RightlyTaken(disk, after, order, k, q);
    }
  }

  lemma {:induction false} NothingMadeBelow(disk: Disk, after: Files, order: seq<Path>, k: nat)
    requires Meets(disk, after, order, k) && GetsThrough(disk, after, order) && Absent(disk.files, after, order[k])
    ensures !MadeFor(disk.files, after, order, k, order[k])
  {
    hide Reached, Under, Cleared, GetsThrough;
    assert Stands(disk, after, order, k, order[k]);
    forall j | 0 <= j < k && Written(disk.files, after, order[j])
      ensures !Under(order[k], order[j])
    {
      if Under(order[k], order[j]) {
        assert MadeFor(disk.files, after, order, k, order[k]);
        TakenAway(disk, after, order, k, order[j]);
        assert order[..k + 1][j] == order[j];
        NothingLost(disk, after, order, k + 1, order[j]);
      }
    }
  }

  lemma {:induction false} RightlyTaken(disk: Disk, after: Files, order: seq<Path>, k: nat, q: Path)
    requires Meets(disk, after, order, k) && GetsThrough(disk, after, order) && Absent(disk.files, after, order[k])
    requires !MadeFor(disk.files, after, order, k, order[k])
    requires forall j: nat :: j < k ==> TidyAt(disk, after, order, j)
    requires order[k] in disk.dirs && q in disk.files && Under(order[k], q)
    ensures TakenRightly(disk.files, after, order, k, q)
  {
    hide Reached, Under, GetsThrough;
    NotYet(disk, after, order, k);
    assert Stands(disk, after, order, k, order[k]);
    if Cleared(disk.files, after, order, k, order[k]) {
      RightlyBefore(disk, after, order, k, q);
    } else {
      TakenAway(disk, after, order, k, q);
      if q in after && (q in order[..k] || !Written(disk.files, after, q)) {
        NothingLost(disk, after, order, k + 1, q);
      } else if q !in after && q !in order[..k] {
        NothingTakenEarly(disk, after, order, k + 1, q);
      }
    }
  }

  /** A directory taken away with one above it was taken rightly then. */
  lemma {:induction false} RightlyBefore(disk: Disk, after: Files, order: seq<Path>, k: nat, q: Path)
    requires Meets(disk, after, order, k) && Cleared(disk.files, after, order, k, order[k])
    requires !MadeFor(disk.files, after, order, k, order[k])
    requires forall j: nat :: j < k ==> TidyAt(disk, after, order, j)
    requires q in disk.files && Under(order[k], q)
    ensures TakenRightly(disk.files, after, order, k, q)
  {
    hide Reached, Under;
    var j: nat :| j < k && Absent(disk.files, after, order[j]) && AtOrUnder(order[j], order[k]);
    UnderChain(order[j], order[k], q);
    TakesRightly(disk, after, order, j, q);
    if q in after {
      NotMadeYet(disk.files, after, order, k, order[k], q);
    } else {
      var i :| 0 <= i < j && order[i] == q;
      assert order[..k][i] == q;
    }
  }

  lemma {:induction false} NotMadeYet(before: Files, after: Files, order: seq<Path>, k: nat, p: Path, q: Path)
    requires k <= |order| && !MadeFor(before, after, order, k, p)
    requires Under(p, q) && Written(before, after, q)
    ensures q !in order[..k]
  {
    hide Under, Written;
  }

  lemma {:induction false} MustBeTidy(disk: Disk, after: Files, order: seq<Path>, k: nat)
    requires Proper(disk) && Names(disk, after, order) && k <= |order| && GetsThrough(disk, after, order)
    ensures forall j: nat :: j < k ==> TidyAt(disk, after, order, j)
  {
    hide TidyAt, Halfway, ReadyAt, Reached;
    if k > 0 {
      var last := k - 1;
      MustBeTidy(disk, after, order, last);
      TidySoFar(disk, after, order, last);
      assert ReadyAt(disk, disk.files, after, order, last);
      if Written(disk.files, after, order[last]) {
        WrittenIsTidy(disk, after, order, last);
      } else if Absent(disk.files, after, order[last]) {
        AbsentIsTidy(disk, after, order, last);
      } else {
        OthersAreTidy(disk, after, order, last);
      }
    }
  }

  lemma {:induction false} OthersAreTidy(disk: Disk, after: Files, order: seq<Path>, k: nat)
    requires k < |order| && !Written(disk.files, after, order[k]) && !Absent(disk.files, after, order[k])
    ensures TidyAt(disk, after, order, k)
  {
  }

  lemma {:induction false} Ends(disk: Disk, after: Files, order: seq<Path>)
    requires Proper(disk) && Names(disk, after, order) && Tidy(disk, after, order)
             && Halfway(disk, after, order, |order|)
    ensures Reached(disk, disk.files, after, order).files == after
  {
    hide Reached, Cleared, MadeFor;
    assert order[..|order|] == order;
    var d := Reached(disk, disk.files, after, order);
    forall q
      ensures Lookup(d.files, q) == Lookup(after, q)
    {
      assert Stands(disk, after, order, |order|, q);
      if q !in order && q in disk.files {
        NotCleared(disk, after, order, q);
      }
    }
    SameFiles(d.files, after);
  }

  lemma {:induction false} NotCleared(disk: Disk, after: Files, order: seq<Path>, q: Path)
    requires Proper(disk) && Names(disk, after, order) && Tidy(disk, after, order) && q !in order && q in disk.files
    ensures !Cleared(disk.files, after, order, |order|, q)
  {
    hide Under, TidyAt;
    forall j: nat | j < |order| && Absent(disk.files, after, order[j])
      ensures !AtOrUnder(order[j], q)
    {
      KeepsFile(disk, after, order, j, q);
    }
  }

  /**
    The writes give exactly the result of the edit, without an error, if and
    only if the edit is tidy.
   */
  lemma {:induction false} CarriedOutIff(disk: Disk, after: Files, order: seq<Path>)
    requires Proper(disk) && Names(disk, after, order)
    ensures var r := WritesThrough(disk, disk.files, after, order);
            r.1 == None && r.0.files == after <==> Tidy(disk, after, order)
  {
    hide TidyAt, Halfway, ReadyAt, Reached, WritesThrough, Names;
    WritesIff(disk, disk.files, after, order);
    if Tidy(disk, after, order) {
      TidySoFar(disk, after, order, |order|);
      Ends(disk, after, order);
    }
    if GetsThrough(disk, after, order) {
      MustBeTidy(disk, after, order, |order|);
    }
  }

  /** No touched path is a directory or lies below a file or another touched path. */
  ghost predicate Plain(disk: Disk, order: seq<Path>) {
    forall p :: p in order ==> p !in disk.dirs && forall q :: Under(q, p) ==> q !in disk.files && q !in order
  }

  lemma {:induction false} PlainIsTidy(disk: Disk, after: Files, order: seq<Path>)
    requires Plain(disk, order)
    ensures Tidy(disk, after, order)
  {
    hide Under, Written, Absent, Cleared, OutOfTheWay, TakenRightly;
    forall k: nat | k < |order|
      ensures TidyAt(disk, after, order, k)
    {
      assert order[k] in order;
      forall j: nat | j < k
        ensures !Under(order[k], order[j])
      {
        assert order[j] in order;
      }
    }
  }
}
