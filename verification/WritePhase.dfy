/** Writing the result of a workspace edit to the disk: what each write meets, and what is left when one fails. */
module WritePhase {
  import opened FileSystem
  import opened Wrappers

  type Files = map<Path, Content>

  datatype WriteError = CannotMove(from: Path) | CannotWrite(path: Path) | CannotRemove(path: Path)

  function Lookup(files: Files, path: Path): Option<Content> {
    if path in files then Some(files[path]) else None
  }

  lemma {:induction false} SameFiles(a: Files, b: Files)
    requires forall p: Path :: Lookup(a, p) == Lookup(b, p)
    ensures a == b
  {
    forall p: Path
      ensures p in a <==> p in b
      ensures p in a ==> a[p] == b[p]
    {
      assert Lookup(a, p) == Lookup(b, p);
    }
  }

  // ---- one path, and all of them ---------------------------------------------------------------------

  /**
    One touched path: written or removed where the edit changed it; what was and stays
    absent may be a directory, which goes.
   */
  function WriteOne(disk: Disk, p: Path, was: Option<Content>, now: Option<Content>): (Disk, bool) {
    if now.Some? then (if was == now then (disk, true) else WriteFile(disk, p, now.value))
    else if was.Some? then RemoveFile(disk, p)
    else if p in disk.dirs then (RemoveTree(disk, p), true)
    else (disk, true)
  }

  function ErrorAt(p: Path, now: Option<Content>): WriteError {
    if now.Some? then CannotWrite(p) else CannotRemove(p)
  }

  /** The touched paths in order, up to the first that fails; what was done stays done. */
  function WritesThrough(disk: Disk, before: Files, after: Files, order: seq<Path>): (Disk, Option<WriteError>)
    decreases |order|
  {
    if order == [] then (disk, None)
    else
      var p := order[0];
      var (next, done) := WriteOne(disk, p, Lookup(before, p), Lookup(after, p));
      if done then WritesThrough(next, before, after, order[1..]) else (next, Some(ErrorAt(p, Lookup(after, p))))
  }

  /** The directory renames in order, up to the first that fails. */
  function MovesThrough(disk: Disk, moves: seq<(Path, Path)>): (Disk, Option<WriteError>)
    decreases |moves|
  {
    if moves == [] then (disk, None)
    else
      var (next, done) := Move(disk, moves[0].0, moves[0].1);
      if done then MovesThrough(next, moves[1..]) else (next, Some(CannotMove(moves[0].0)))
  }

  /** Renames, then writes. */
  function Outcome(
    disk: Disk, moves: seq<(Path, Path)>, before: Files, after: Files, order: seq<Path>): (Disk, Option<WriteError>) {
    var (moved, error) := MovesThrough(disk, moves);
    if error.Some? then (moved, error) else WritesThrough(moved, before, after, order)
  }

  lemma {:induction false} OneMove(disk: Disk, from: Path, dest: Path)
    ensures var (next, done) := Move(disk, from, dest);
            MovesThrough(disk, [(from, dest)]) == (next, if done then None else Some(CannotMove(from)))
  {
    hide Move;
    assert [(from, dest)][1..] == [];
  }

  lemma {:induction false} OneTurn(disk: Disk, before: Files, after: Files, p: Path)
    ensures var (next, done) := WriteOne(disk, p, Lookup(before, p), Lookup(after, p));
            WritesThrough(disk, before, after, [p]) == (next, if done then None else Some(ErrorAt(p, Lookup(after, p))))
  {
    hide WriteOne;
    assert [p][1..] == [];
  }

  lemma {:induction false} TwoTurns(disk: Disk, before: Files, after: Files, p: Path, q: Path)
    ensures var (next, done) := WriteOne(disk, p, Lookup(before, p), Lookup(after, p));
            WritesThrough(disk, before, after, [p, q])
            == if done then WritesThrough(next, before, after, [q]) else (next, Some(ErrorAt(p, Lookup(after, p))))
    ensures var (next, done) := WriteOne(disk, p, Lookup(before, p), Lookup(after, p));
            done ==> var (last, end) := WriteOne(next, q, Lookup(before, q), Lookup(after, q));
                     WritesThrough(next, before, after, [q])
                       == (last, if end then None else Some(ErrorAt(q, Lookup(after, q))))
  {
    hide WriteOne;
    assert [p, q][1..] == [q];
    OneTurn(WriteOne(disk, p, Lookup(before, p), Lookup(after, p)).0, before, after, q);
  }

  // ---- at its turn -----------------------------------------------------------------------------------

  /** The disk after these paths have had their turn. */
  ghost function Reached(disk: Disk, before: Files, after: Files, order: seq<Path>): Disk
    decreases |order|
  {
    if order == [] then disk
    else Reached(WriteOne(disk, order[0], Lookup(before, order[0]), Lookup(after, order[0])).0, before, after,
         order[1..])
  }

  /**
    The path can have its turn: what is to be written is no directory and below no file,
    what is to be removed is there.
   */
  ghost predicate Ready(disk: Disk, p: Path, was: Option<Content>, now: Option<Content>) {
    if now.Some? then was == now || !Blocked(disk, p) else was.Some? ==> p in disk.files
  }

  ghost predicate ReadyAt(disk: Disk, before: Files, after: Files, order: seq<Path>, k: nat)
    requires k < |order|
  {
    Ready(Reached(disk, before, after, order[..k]), order[k], Lookup(before, order[k]), Lookup(after, order[k]))
  }

  lemma {:induction false} ReachedMore(disk: Disk, before: Files, after: Files, order: seq<Path>, k: nat)
    requires k < |order|
    ensures Reached(disk, before, after, order[..k + 1])
            == WriteOne(Reached(disk, before, after, order[..k]), order[k], Lookup(before, order[k]),
              Lookup(after, order[k])).0
    decreases |order|
  {
    hide WriteOne;
    if k > 0 {
      assert order[..k + 1][1..] == order[1..][..k] && order[..k][1..] == order[1..][..k - 1];
      ReachedMore(WriteOne(disk, order[0], Lookup(before, order[0]), Lookup(after, order[0])).0, before, after,
        order[1..], k - 1);
    } else {
      assert order[..1][1..] == [] && order[..0] == [];
    }
  }

  lemma {:induction false} DoneIff(disk: Disk, p: Path, was: Option<Content>, now: Option<Content>)
    ensures WriteOne(disk, p, was, now).1 <==> Ready(disk, p, was, now)
  {
  }

  ghost predicate AllReady(disk: Disk, before: Files, after: Files, order: seq<Path>) {
    forall k: nat :: k < |order| ==> ReadyAt(disk, before, after, order, k)
  }

  /** The first path that is not ready at its turn. */
  ghost predicate FirstStop(disk: Disk, before: Files, after: Files, order: seq<Path>, k: nat) {
    && k < |order| && !ReadyAt(disk, before, after, order, k)
    && forall j: nat :: j < k ==> ReadyAt(disk, before, after, order, j)
  }

  function Turn(disk: Disk, before: Files, after: Files, p: Path): (Disk, bool) {
    WriteOne(disk, p, Lookup(before, p), Lookup(after, p))
  }

  lemma {:induction false} FirstReady(disk: Disk, before: Files, after: Files, order: seq<Path>)
    requires order != []
    ensures ReadyAt(disk, before, after, order, 0) <==> Turn(disk, before, after, order[0]).1
  {
    assert order[..0] == [];
    DoneIff(disk, order[0], Lookup(before, order[0]), Lookup(after, order[0]));
  }

  lemma {:induction false} LaterReady(disk: Disk, before: Files, after: Files, order: seq<Path>, k: nat)
    requires 0 < k < |order|
    ensures var next := Turn(disk, before, after, order[0]).0;
            && Reached(disk, before, after, order[..k]) == Reached(next, before, after, order[1..][..k - 1])
            && ReadyAt(disk, before, after, order, k) == ReadyAt(next, before, after, order[1..], k - 1)
  {
    hide WriteOne, Ready;
    assert order[..k][1..] == order[1..][..k - 1];
  }

  lemma {:induction false} AllReadyStep(disk: Disk, before: Files, after: Files, order: seq<Path>)
    requires order != []
    ensures var (next, done) := Turn(disk, before, after, order[0]);
            AllReady(disk, before, after, order) <==> done && AllReady(next, before, after, order[1..])
  {
    hide Turn, ReadyAt;
    var (next, done) := Turn(disk, before, after, order[0]);
    FirstReady(disk, before, after, order);
    forall k: nat | 0 < k < |order|
      ensures ReadyAt(disk, before, after, order, k) == ReadyAt(next, before, after, order[1..], k - 1)
    {
      LaterReady(disk, before, after, order, k);
    }
    if AllReady(disk, before, after, order) {
      forall k: nat | k < |order[1..]|
        ensures ReadyAt(next, before, after, order[1..], k)
      {
        assert ReadyAt(disk, before, after, order, k + 1);
      }
    }
  }

  /** Every path gets its turn exactly when each is ready at it: written where no directory and below no file. */
  lemma {:induction false} WritesIff(disk: Disk, before: Files, after: Files, order: seq<Path>)
    ensures var r := WritesThrough(disk, before, after, order);
            && (r.1 == None <==> AllReady(disk, before, after, order))
            && (r.1 == None ==> r.0 == Reached(disk, before, after, order))
    decreases |order|
  {
    hide WriteOne, AllReady;
    if order == [] {
      NothingToReady(disk, before, after);
    } else {
      AllReadyStep(disk, before, after, order);
      WritesIff(Turn(disk, before, after, order[0]).0, before, after, order[1..]);
    }
  }

  lemma {:induction false} NothingToReady(disk: Disk, before: Files, after: Files)
    ensures AllReady(disk, before, after, [])
  {
  }

  /**
    When a path is not ready, those before the first such one have had their
    turn, its own parents may have been made, and nothing after it has happened.
   */
  lemma {:induction false} StopsAt(disk: Disk, before: Files, after: Files, order: seq<Path>) returns (k: nat)
    requires WritesThrough(disk, before, after, order).1.Some?
    ensures FirstStop(disk, before, after, order, k)
    ensures var r := WritesThrough(disk, before, after, order);
            r.0.files == Reached(disk, before, after, order[..k]).files
              && r.1 == Some(ErrorAt(order[k], Lookup(after, order[k])))
    decreases |order|
  {
    hide WriteOne, ReadyAt, ErrorAt;
    var (next, done) := Turn(disk, before, after, order[0]);
    FirstReady(disk, before, after, order);
    if !done {
      k := 0;
      assert order[..0] == [];
      StopsClean(disk, order[0], Lookup(before, order[0]), Lookup(after, order[0]));
    } else {
      var later := StopsAt(next, before, after, order[1..]);
      k := later + 1;
      LaterReady(disk, before, after, order, k);
      forall j: nat | 0 < j < k
        ensures ReadyAt(disk, before, after, order, j)
      {
        LaterReady(disk, before, after, order, j);
      }
    }
  }

  lemma {:induction false} StopsClean(disk: Disk, p: Path, was: Option<Content>, now: Option<Content>)
    requires !WriteOne(disk, p, was, now).1
    ensures WriteOne(disk, p, was, now).0.files == disk.files
  {
  }

  // ---- what is left alone -------------------------------------------------------------------------------

  ghost predicate Apart(order: seq<Path>, p: Path) {
    forall r :: r in order ==> !AtOrUnder(r, p)
  }

  ghost predicate OutsideMoves(moves: seq<(Path, Path)>, p: Path) {
    forall m :: m in moves ==> !AtOrUnder(m.0, p) && !AtOrUnder(m.1, p)
  }

  /**
    Whether or not it gets through, a file neither named nor below a named path, nor in
    a renamed directory, keeps its content.
   */
  lemma {:induction false} UntouchedUnchanged(
    disk: Disk, moves: seq<(Path, Path)>, before: Files, after: Files, order: seq<Path>, p: Path)
    requires Apart(order, p) && OutsideMoves(moves, p)
    ensures Lookup(Outcome(disk, moves, before, after, order).0.files, p) == Lookup(disk.files, p)
  {
    hide WritesThrough, MovesThrough;
    MovesLeave(disk, moves, p);
    WritesLeave(MovesThrough(disk, moves).0, before, after, order, p);
  }

  lemma {:induction false} WritesLeave(disk: Disk, before: Files, after: Files, order: seq<Path>, p: Path)
    requires Apart(order, p)
    ensures Lookup(WritesThrough(disk, before, after, order).0.files, p) == Lookup(disk.files, p)
    decreases |order|
  {
    hide WriteOne;
    if order != [] {
      OneLeaves(disk, order[0], Lookup(before, order[0]), Lookup(after, order[0]), p);
      WritesLeave(WriteOne(disk, order[0], Lookup(before, order[0]), Lookup(after, order[0])).0, before, after,
        order[1..], p);
    }
  }

  lemma {:induction false} OneLeaves(disk: Disk, r: Path, was: Option<Content>, now: Option<Content>, p: Path)
    requires !AtOrUnder(r, p)
    ensures Lookup(WriteOne(disk, r, was, now).0.files, p) == Lookup(disk.files, p)
  {
  }

  lemma {:induction false} MovesLeave(disk: Disk, moves: seq<(Path, Path)>, p: Path)
    requires OutsideMoves(moves, p)
    ensures Lookup(MovesThrough(disk, moves).0.files, p) == Lookup(disk.files, p)
    decreases |moves|
  {
    hide Move;
    if moves != [] {
      MoveLeaves(disk, moves[0].0, moves[0].1, p);
      MovesLeave(Move(disk, moves[0].0, moves[0].1).0, moves[1..], p);
    }
  }

  lemma {:induction false} MoveLeaves(disk: Disk, from: Path, dest: Path, p: Path)
    requires !AtOrUnder(from, p) && !AtOrUnder(dest, p)
    ensures Lookup(Move(disk, from, dest).0.files, p) == Lookup(disk.files, p)
  {
  }
}
