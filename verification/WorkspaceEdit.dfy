/**
  Workspace edits on a disk: computed against an overlay first, written only if every operation
  applies (WorkspaceEdit in the LSP 3.17 specification).
 */
module WorkspaceEdit {
  import opened Wrappers
  import opened FileSystem
  import opened WritePhase
  import WriteOrder
  import LspEdits

  datatype Operation =
    | CreateFile(path: Path, overwrite: bool, ignoreIfExists: bool)
    | RenameFile(from: Path, dest: Path, overwrite: bool, ignoreIfExists: bool)
    | DeleteFile(path: Path, ignoreIfNotExists: bool)
    | EditFile(path: Path, edits: seq<LspEdits.TextEdit>)
    | Malformed

  datatype EditError = NotFound(path: Path) | AlreadyExists(path: Path) | Overlap(path: Path) | MissingUri

  datatype Failure = Refused(reason: EditError) | Stopped(cause: WriteError)

  function Put(files: Files, path: Path, content: Option<Content>): Files {
    if content == None then files - {path} else files[path := content.value]
  }

  // ---- the operations in order, on a map of files ----------------------------------------------------

  /** What the operations so far come to: the files, the paths looked at in order, and the directories to rename. */
  datatype Draft = Draft(files: Files, order: seq<Path>, moves: seq<(Path, Path)>)

  function Blank(files: Files): Draft {
    Draft(files, [], [])
  }

  function Noting(draft: Draft, path: Path): Draft {
    if path in draft.order then draft else draft.(order := draft.order + [path])
  }

  function Placing(draft: Draft, path: Path, content: Option<Content>): Draft {
    Noting(draft, path).(files := Put(draft.files, path, content))
  }

  ghost function Perform(dirs: set<Path>, draft: Draft, op: Operation): Result<Draft, EditError> {
    var files := draft.files;
    match op
    case CreateFile(path, overwrite, ignoreIfExists) =>
      if path in files && !overwrite then
        if ignoreIfExists then Ok(Noting(draft, path)) else Err(AlreadyExists(path))
      else Ok(Placing(draft, path, Some("")))
    case RenameFile(from, dest, overwrite, ignoreIfExists) =>
      if from in dirs then Ok(draft.(moves := draft.moves + [(from, dest)]))
      else if from !in files then Err(NotFound(from))
      else if dest in files && !overwrite then
        if ignoreIfExists then Ok(Noting(Noting(draft, from), dest)) else Err(AlreadyExists(dest))
      else Ok(Placing(Placing(Noting(Noting(draft, from), dest), from, None), dest, Some(files[from])))
    case DeleteFile(path, ignoreIfNotExists) =>
      if path !in files && path !in dirs && !ignoreIfNotExists then Err(NotFound(path))
      else Ok(Placing(draft, path, None))
    case EditFile(path, edits) =>
      if path !in files then Err(NotFound(path))
      else
        var next := LspEdits.Edited(files[path], edits);
        if next == None then Err(Overlap(path)) else Ok(Placing(draft, path, next))
    case Malformed => Err(MissingUri)
  }

  ghost function PerformAll(dirs: set<Path>, draft: Draft, ops: seq<Operation>): Result<Draft, EditError>
    decreases |ops|
  {
    if ops == [] then Ok(draft)
    else
      match Perform(dirs, draft, ops[0])
      case Err(e) => Err(e)
      case Ok(next) => PerformAll(dirs, next, ops[1..])
  }

  /** Every path but these has the content it had. */
  ghost predicate OthersStay(before: Draft, after: Draft, paths: set<Path>) {
    after.moves == before.moves && forall q :: q !in paths ==> Lookup(after.files, q) == Lookup(before.files, q)
  }

  /**
    A creation makes an empty file; one that is there already is replaced, left alone or
    an error, as its flags say.
   */
  lemma {:induction false} CreationMeans(
    dirs: set<Path>, draft: Draft, path: Path, overwrite: bool, ignoreIfExists: bool)
    ensures var result := Perform(dirs, draft, CreateFile(path, overwrite, ignoreIfExists));
            if path !in draft.files || overwrite then
              result.Ok? && Lookup(result.value.files, path) == Some("") && OthersStay(draft, result.value, {path})
            else if ignoreIfExists then result.Ok? && OthersStay(draft, result.value, {})
            else result == Err(AlreadyExists(path))
  {
  }

  /** A rename moves the content; a target that is there already is replaced, or nothing moves, as its flags say. */
  lemma {:induction false} RenameMeans(
    dirs: set<Path>, draft: Draft, from: Path, dest: Path, overwrite: bool, ignoreIfExists: bool)
    requires from !in dirs
    ensures var result := Perform(dirs, draft, RenameFile(from, dest, overwrite, ignoreIfExists));
            if from !in draft.files then result == Err(NotFound(from))
            else if dest !in draft.files || overwrite then
              && result.Ok? && Lookup(result.value.files, dest) == Some(draft.files[from])
              && (from != dest ==> Lookup(result.value.files, from) == None)
              && OthersStay(draft, result.value, {from, dest})
            else if ignoreIfExists then result.Ok? && OthersStay(draft, result.value, {})
            else result == Err(AlreadyExists(dest))
  {
  }

  // ---- the overlay ------------------------------------------------------------------------------------

  /** A path as the overlay has it: its own copy, or the disk's. */
  ghost function Seen(copies: map<Path, Option<Content>>, disk: Files, path: Path): Option<Content> {
    if path in copies then copies[path] else Lookup(disk, path)
  }

  ghost predicate ShowsOver(copies: map<Path, Option<Content>>, disk: Files, shown: Files) {
    forall p :: Seen(copies, disk, p) == Lookup(shown, p)
  }

  lemma {:induction false} PutShows(
    copies: map<Path, Option<Content>>, disk: Files, shown: Files, path: Path, content: Option<Content>)
    requires ShowsOver(copies, disk, shown)
    ensures ShowsOver(copies[path := content], disk, Put(shown, path, content))
  {
    forall p
      ensures Seen(copies[path := content], disk, p) == Lookup(Put(shown, path, content), p)
    {
      assert Seen(copies, disk, p) == Lookup(shown, p);
    }
  }

  /** What the file system does for the program. */
  class Workspace {
    var files: Files
    var dirs: set<Path>

    constructor (disk: Disk)
      ensures Current() == disk
    {
      files, dirs := disk.files, disk.dirs;
    }

    function Current(): Disk
      reads this
    {
      Disk(files, dirs)
    }

    method Rename(from: Path, dest: Path) returns (done: bool)
      modifies this
      ensures (Current(), done) == Move(old(Current()), from, dest)
    {
      var outcome := Move(Current(), from, dest);
      files, dirs, done := outcome.0.files, outcome.0.dirs, outcome.1;
    }

    method Write(path: Path, content: Content) returns (done: bool)
      modifies this
      ensures (Current(), done) == WriteFile(old(Current()), path, content)
    {
      var outcome := WriteFile(Current(), path, content);
      files, dirs, done := outcome.0.files, outcome.0.dirs, outcome.1;
    }

    method Remove(path: Path) returns (done: bool)
      modifies this
      ensures (Current(), done) == RemoveFile(old(Current()), path)
    {
      var outcome := RemoveFile(Current(), path);
      files, dirs, done := outcome.0.files, outcome.0.dirs, outcome.1;
    }

    method RemoveAll(path: Path)
      modifies this
      ensures Current() == RemoveTree(old(Current()), path)
    {
      var left := RemoveTree(Current(), path);
      files, dirs := left.files, left.dirs;
    }
  }

  class Overlay {
    const disk: Workspace
    var files: map<Path, Option<Content>>
    var order: seq<Path>
    var original: map<Path, Option<Content>>
    var edits: map<Path, nat>
    var renamed: map<Path, Path>
    var directoryMoves: seq<(Path, Path)>

    constructor (disk: Workspace)
      ensures Valid() && this.disk == disk && fresh(this) && Shows(Blank(disk.files))
    {
      this.disk := disk;
      files, order, original, edits, renamed, directoryMoves := map[], [], map[], map[], map[], [];
    }

    /** The touched paths, each once in `order`, with what the disk holds for them. */
    ghost predicate Valid()
      reads this, disk
    {
      && original.Keys == files.Keys
      && (forall p :: p in order <==> p in files)
      && (forall i, j :: 0 <= i < j < |order| ==> order[i] != order[j])
      && (forall p :: p in original ==> original[p] == Lookup(disk.files, p))
    }

    /** The overlay stands for this draft. */
    ghost predicate Shows(draft: Draft)
      reads this, disk
    {
      ShowsOver(files, disk.files, draft.files) && order == draft.order && directoryMoves == draft.moves
    }

    method Touch(path: Path, ghost draft: Draft)
      requires Valid() && Shows(draft)
      modifies this
      ensures Valid() && Shows(Noting(draft, path)) && path in files
    {
      if path !in files {
        var content := Lookup(disk.files, path);
        assert Seen(files, disk.files, path) == Lookup(draft.files, path);
        original := original[path := content];
        files := files[path := content];
        order := order + [path];
      }
    }

    method Get(path: Path, ghost draft: Draft) returns (content: Option<Content>)
      requires Valid() && Shows(draft)
      modifies this
      ensures Valid() && Shows(Noting(draft, path)) && content == Lookup(draft.files, path)
    {
      Touch(path, draft);
      assert Seen(files, disk.files, path) == Lookup(draft.files, path);
      content := files[path];
    }

    method Set(path: Path, content: Option<Content>, ghost draft: Draft)
      requires Valid() && Shows(draft)
      modifies this
      ensures Valid() && Shows(Placing(draft, path, content))
    {
      Touch(path, draft);
      PutShows(files, disk.files, draft.files, path, content);
      files := files[path := content];
    }

    method Count(path: Path, n: nat, ghost draft: Draft)
      requires Valid() && Shows(draft)
      modifies this`edits
      ensures Valid() && Shows(draft)
    {
      edits := edits[path := (if path in edits then edits[path] else 0) + n];
    }

    method NoteRename(from: Path, dest: Path, ghost draft: Draft)
      requires Valid() && Shows(draft)
      modifies this`renamed
      ensures Valid() && Shows(draft)
    {
      renamed := renamed[dest := from];
    }

    method NoteMove(from: Path, dest: Path, ghost draft: Draft)
      requires Valid() && Shows(draft)
      modifies this`directoryMoves
      ensures Valid() && Shows(draft.(moves := draft.moves + [(from, dest)]))
    {
      directoryMoves := directoryMoves + [(from, dest)];
    }

    method ApplyTo(path: Path, textEdits: seq<LspEdits.TextEdit>, ghost draft: Draft) returns (error: Option<EditError>)
      requires Valid() && Shows(draft)
      modifies this
      ensures Valid()
      ensures match Perform(disk.dirs, draft, EditFile(path, textEdits))
              case Err(e) => error == Some(e)
              case Ok(next) => error == None && Shows(next)
    {
      hide Shows, Valid, LspEdits.Edited;
      var current := Get(path, draft);
      if current == None {
        return Some(NotFound(path));
      }
      var next := LspEdits.Apply(current.value, textEdits);
      if next.Err? {
        return Some(Overlap(path));
      }
      Set(path, Some(next.value), Noting(draft, path));
      Count(path, |textEdits|, Placing(draft, path, Some(next.value)));
      error := None;
    }

    /** One operation on the overlay does what it does on the draft the overlay stands for. */
    method Step(op: Operation, ghost draft: Draft) returns (error: Option<EditError>)
      requires Valid() && Shows(draft)
      modifies this
      ensures Valid()
      ensures match Perform(disk.dirs, draft, op)
              case Err(e) => error == Some(e)
              case Ok(next) => error == None && Shows(next)
    {
      hide Shows, Valid, LspEdits.Edited;
      match op
      case CreateFile(path, overwrite, ignoreIfExists) =>
        var existing := Get(path, draft);
        if existing.Some? && !overwrite {
          if ignoreIfExists {
            return None;
          }
          return Some(AlreadyExists(path));
        }
        Set(path, Some(""), Noting(draft, path));
        return None;
      case RenameFile(from, dest, overwrite, ignoreIfExists) =>
        if from in disk.dirs {
          NoteMove(from, dest, draft);
          return None;
        }
        var content := Get(from, draft);
        if content == None {
          return Some(NotFound(from));
        }
        var target := Get(dest, Noting(draft, from));
        if target.Some? && !overwrite {
          if ignoreIfExists {
            return None;
          }
          return Some(AlreadyExists(dest));
        }
        ghost var touched := Noting(Noting(draft, from), dest);
        Set(from, None, touched);
        Set(dest, content, Placing(touched, from, None));
        NoteRename(from, dest, Placing(Placing(touched, from, None), dest, content));
        return None;
      case DeleteFile(path, ignoreIfNotExists) =>
        var existing := Get(path, draft);
        if existing == None && path !in disk.dirs && !ignoreIfNotExists {
          return Some(NotFound(path));
        }
        Set(path, None, Noting(draft, path));
        return None;
      case EditFile(path, textEdits) =>
        error := ApplyTo(path, textEdits, draft);
      case Malformed =>
        return Some(MissingUri);
    }
  }

  // ---- the whole edit --------------------------------------------------------------------------------------

  ghost function Stop(error: Option<WriteError>): Option<Failure> {
    if error == None then None else Some(Stopped(error.value))
  }

  /** What the call leaves of a disk, and its answer. */
  ghost function Applied(disk: Disk, ops: seq<Operation>, write: bool): (Disk, Option<Failure>) {
    match PerformAll(disk.dirs, Blank(disk.files), ops)
    case Err(e) => (disk, Some(Refused(e)))
    case Ok(draft) =>
      if !write then (disk, None)
      else
        var (left, error) := Outcome(disk, draft.moves, disk.files, draft.files, draft.order);
        (left, Stop(error))
  }

  /**
    A failing operation changes nothing, nor does a preview; otherwise renames and
    writes happen up to the first that fails.
   */
  method ApplyWorkspaceEdit(disk: Workspace, ops: seq<Operation>, write: bool) returns (error: Option<Failure>)
    modifies disk
    ensures (disk.Current(), error) == Applied(old(disk.Current()), ops, write)
    ensures !write || (error.Some? && error.value.Refused?) ==> disk.Current() == old(disk.Current())
  {
    hide Perform, Outcome;
    var overlay := new Overlay(disk);
    ghost var draft := Blank(disk.files);
    for k := 0 to |ops|
      invariant disk.Current() == old(disk.Current()) && fresh(overlay) && overlay.disk == disk
      invariant overlay.Valid() && overlay.Shows(draft)
      invariant PerformAll(disk.dirs, draft, ops[k..]) == PerformAll(disk.dirs, Blank(old(disk.files)), ops)
    {
      assert ops[k..][0] == ops[k] && ops[k..][1..] == ops[k + 1..];
      var refused := overlay.Step(ops[k], draft);
      if refused.Some? {
        return Some(Refused(refused.value));
      }
      draft := Perform(disk.dirs, draft, ops[k]).value;
    }
    assert ops[|ops|..] == [];
    if !write {
      return None;
    }
    var stopped := WriteOut(disk, overlay, draft);
    error := if stopped.Some? then Some(Stopped(stopped.value)) else None;
  }

  /**
    The write phase: directories are renamed, then every touched path that differs from
    the disk is written or removed.
   */
  method WriteOut(disk: Workspace, overlay: Overlay, ghost draft: Draft) returns (error: Option<WriteError>)
    requires overlay.disk == disk && overlay.Valid() && overlay.Shows(draft)
    modifies disk
    ensures var was := old(disk.Current());
            (disk.Current(), error) == Outcome(was, draft.moves, was.files, draft.files, draft.order)
  {
    hide Move, WriteOne;
    ghost var was := disk.Current();
    assert forall p :: Seen(overlay.files, disk.files, p) == Lookup(draft.files, p);
    var original, copies, order := overlay.original, overlay.files, overlay.order;
    var moves := overlay.directoryMoves;
    var i := 0;
    while i < |moves|
      invariant i <= |moves|
      invariant MovesThrough(disk.Current(), moves[i..]) == MovesThrough(was, moves)
    {
      var done := disk.Rename(moves[i].0, moves[i].1);
      if !done {
        return Some(CannotMove(moves[i].0));
      }
      i := i + 1;
    }
    ghost var moved := disk.Current();
    var k := 0;
    while k < |order|
      invariant k <= |order|
      invariant WritesThrough(disk.Current(), was.files, draft.files, order[k..])
                == WritesThrough(moved, was.files, draft.files, order)
    {
      var path := order[k];
      assert path in order;
      var done := WriteAt(disk, path, original[path], copies[path]);
      if !done {
        return Some(if copies[path].Some? then CannotWrite(path) else CannotRemove(path));
      }
      k := k + 1;
    }
    error := None;
  }

  method WriteAt(disk: Workspace, path: Path, before: Option<Content>, after: Option<Content>) returns (done: bool)
    modifies disk
    ensures (disk.Current(), done) == WriteOne(old(disk.Current()), path, before, after)
  {
    hide WriteFile, RemoveFile, RemoveTree;
    done := true;
    if after.Some? && before != after {
      done := disk.Write(path, after.value);
    } else if after == None && before.Some? {
      done := disk.Remove(path);
    } else if after == None && path in disk.dirs {
      disk.RemoveAll(path);
    }
  }

  // ---- when the edit is carried out exactly -----------------------------------------------------------------

  ghost predicate RenamesNoDirectory(dirs: set<Path>, ops: seq<Operation>) {
    forall op :: op in ops && op.RenameFile? ==> op.from !in dirs
  }

  /** The files of a draft differ from those on disk only where the draft has looked, and it has looked once at each. */
  ghost predicate Tracks(files: Files, draft: Draft) {
    && (forall i, j :: 0 <= i < j < |draft.order| ==> draft.order[i] != draft.order[j])
    && forall p :: p !in draft.order ==> Lookup(files, p) == Lookup(draft.files, p)
  }

  lemma {:induction false} PlacingTracks(files: Files, draft: Draft, path: Path, content: Option<Content>)
    requires Tracks(files, draft)
    ensures Tracks(files, Noting(draft, path)) && Tracks(files, Placing(draft, path, content))
  {
  }

  lemma {:induction false} PerformTracks(files: Files, dirs: set<Path>, draft: Draft, op: Operation)
    requires Tracks(files, draft) && Perform(dirs, draft, op).Ok?
    ensures Tracks(files, Perform(dirs, draft, op).value)
  {
    hide LspEdits.Edited, Noting, Placing;
    match op
    case CreateFile(path, _, _) =>
      PlacingTracks(files, draft, path, Some(""));
    case RenameFile(from, dest, _, _) =>
      var content := Lookup(draft.files, from);
      PlacingTracks(files, draft, from, None);
      PlacingTracks(files, Noting(draft, from), dest, content);
      var touched := Noting(Noting(draft, from), dest);
      PlacingTracks(files, touched, from, None);
      PlacingTracks(files, Placing(touched, from, None), dest, content);
    case DeleteFile(path, _) =>
      PlacingTracks(files, draft, path, None);
    case EditFile(path, edits) =>
      if path in draft.files {
        PlacingTracks(files, draft, path, LspEdits.Edited(draft.files[path], edits));
      }
    case Malformed =>
  }

  lemma {:induction false} PerformAllTracks(files: Files, dirs: set<Path>, draft: Draft, ops: seq<Operation>)
    requires Tracks(files, draft) && PerformAll(dirs, draft, ops).Ok?
    ensures Tracks(files, PerformAll(dirs, draft, ops).value)
    decreases |ops|
  {
    hide Perform, Tracks;
    if ops != [] {
      PerformTracks(files, dirs, draft, ops[0]);
      PerformAllTracks(files, dirs, Perform(dirs, draft, ops[0]).value, ops[1..]);
    }
  }

  lemma {:induction false} NoMoves(dirs: set<Path>, draft: Draft, ops: seq<Operation>)
    requires RenamesNoDirectory(dirs, ops) && PerformAll(dirs, draft, ops).Ok?
    ensures PerformAll(dirs, draft, ops).value.moves == draft.moves
    decreases |ops|
  {
    hide LspEdits.Edited;
    if ops != [] {
      NoMoves(dirs, Perform(dirs, draft, ops[0]).value, ops[1..]);
    }
  }

  /**
    The files end up as the operations in order leave them, and no error is
    given, if and only if the edit is tidy.
   */
  lemma {:induction false} CarriedOutIff(disk: Disk, ops: seq<Operation>)
    requires Proper(disk) && RenamesNoDirectory(disk.dirs, ops)
    requires PerformAll(disk.dirs, Blank(disk.files), ops).Ok?
    ensures var draft := PerformAll(disk.dirs, Blank(disk.files), ops).value;
            var (left, error) := Applied(disk, ops, true);
            error == None && left.files == draft.files <==> WriteOrder.Tidy(disk, draft.files, draft.order)
  {
    hide PerformAll, WritesThrough, WriteOrder.Tidy;
    var draft := PerformAll(disk.dirs, Blank(disk.files), ops).value;
    NoMoves(disk.dirs, Blank(disk.files), ops);
    PerformAllTracks(disk.files, disk.dirs, Blank(disk.files), ops);
    WriteOrder.CarriedOutIff(disk, draft.files, draft.order);
  }

  lemma {:induction false} NotingFirst(files: Files, p: Path)
    ensures Noting(Blank(files), p) == Draft(files, [p], [])
  {
    assert Blank(files).order + [p] == [p];
  }

  lemma {:induction false} NotingSecond(files: Files, p: Path, q: Path)
    requires p != q
    ensures Noting(Noting(Blank(files), p), q) == Draft(files, [p, q], [])
  {
    NotingFirst(files, p);
    assert [p] + [q] == [p, q];
  }

  lemma {:induction false} PerformOne(dirs: set<Path>, draft: Draft, op: Operation)
    ensures PerformAll(dirs, draft, [op]) == Perform(dirs, draft, op)
  {
    assert [op][1..] == [];
  }

  lemma {:induction false} PerformTwo(dirs: set<Path>, draft: Draft, first: Operation, second: Operation, next: Draft)
    requires Perform(dirs, draft, first) == Ok(next)
    ensures PerformAll(dirs, draft, [first, second]) == Perform(dirs, next, second)
  {
    hide Perform;
    assert [first, second][1..] == [second];
    PerformOne(dirs, next, second);
  }

  /** Renaming a file onto a directory loses the file. */
  lemma {:induction false} FileRenamedOntoDirectory(content: Content, other: Content)
    ensures var disk := Disk(map["x.ts" := content, "lib/a.ts" := other], {"lib"});
            Applied(disk, [RenameFile("x.ts", "lib", false, false)], true)
            == (disk.(files := map["lib/a.ts" := other]), Some(Stopped(CannotWrite("lib"))))
  {
    var disk := Disk(map["x.ts" := content, "lib/a.ts" := other], {"lib"});
    var op := RenameFile("x.ts", "lib", false, false);
    var draft := Draft(map["lib" := content, "lib/a.ts" := other], ["x.ts", "lib"], []);
    NotingSecond(disk.files, "x.ts", "lib");
    assert Put(Put(disk.files, "x.ts", None), "lib", Some(content)) == draft.files;
    PerformOne(disk.dirs, Blank(disk.files), op);
    var next := Disk(map["lib/a.ts" := other], {"lib"});
    assert disk.files - {"x.ts"} == next.files;
    assert next.dirs + Parents("lib") == next.dirs;
    assert WriteOne(disk, "x.ts", Some(content), None) == (next, true);
    assert WriteOne(next, "lib", None, Some(content)) == (next, false);
    TwoTurns(disk, disk.files, draft.files, "x.ts", "lib");
  }

  /** Creating a file and then one below it leaves the first behind. */
  lemma {:induction false} FileCreatedBelowFile()
    ensures Applied(Disk(map[], {}), [CreateFile("a", false, false), CreateFile("a/b", false, false)], true)
            == (Disk(map["a" := ""], {}), Some(Stopped(CannotWrite("a/b"))))
  {
    var a, b := CreateFile("a", false, false), CreateFile("a/b", false, false);
    var none: Files := map[];
    var first := Draft(map["a" := ""], ["a"], []);
    var both := Draft(map["a" := "", "a/b" := ""], ["a", "a/b"], []);
    NotingFirst(none, "a");
    assert ["a"] + ["a/b"] == ["a", "a/b"];
    PerformTwo({}, Blank(none), a, b, first);
    var next := Disk(map["a" := ""], {});
    assert next.dirs + Parents("a") == next.dirs;
    assert WriteOne(Disk(none, {}), "a", None, Some("")) == (next, true);
    assert Under("a", "a/b") && BelowFile(next, "a/b");
    assert WriteOne(next, "a/b", None, Some("")) == (next, false);
    TwoTurns(Disk(none, {}), none, both.files, "a", "a/b");
  }

  /** Creating and deleting a file where a directory stands comes to nothing, and takes the directory away. */
  lemma {:induction false} CancelledCreation(dir: Path, disk: Disk)
    requires Proper(disk) && dir in disk.dirs
    ensures var ops := [CreateFile(dir, false, false), DeleteFile(dir, false)];
            && PerformAll(disk.dirs, Blank(disk.files), ops) == Ok(Draft(disk.files, [dir], []))
            && Applied(disk, ops, true) == (RemoveTree(disk, dir), None)
  {
    var create, delete := CreateFile(dir, false, false), DeleteFile(dir, false);
    var there := Draft(disk.files[dir := ""], [dir], []);
    NotingFirst(disk.files, dir);
    assert there.files - {dir} == disk.files;
    PerformTwo(disk.dirs, Blank(disk.files), create, delete, there);
    assert WriteOne(disk, dir, None, None) == (RemoveTree(disk, dir), true);
    OneTurn(disk, disk.files, disk.files, dir);
  }

  // ---- directory renames -------------------------------------------------------------------------------------

  /** The file edited, and the directory then renamed, one after the other on the disk. */
  ghost function EditThenRename(disk: Disk, p: Path, content: Content, from: Path, dest: Path): (Disk, bool) {
    var (edited, done) := WriteFile(disk, p, content);
    if done then Move(edited, from, dest) else (edited, false)
  }

  /** Where a file moved with its directory ends up. */
  lemma {:induction false} TakenAlong(disk: Disk, p: Path, from: Path, dest: Path)
    requires Move(disk, from, dest).1 && from != dest && p in disk.files && Under(from, p)
    ensures var q, moved := dest + p[|from|..], Move(disk, from, dest).0;
            q != p && q in moved.files && moved.files[q] == disk.files[p]
  {
    var q := dest + p[|from|..];
    assert p == from + p[|from|..];
    assert q[|dest|..] == p[|from|..] && AtOrUnder(dest, q);
    if |dest| == |from| {
      assert q[..|dest|] == dest;
    }
  }

  lemma {:induction false} StaysPut(disk: Disk, p: Path, from: Path, dest: Path)
    requires Proper(disk) && Move(disk, from, dest).1 && from != dest
    requires p in disk.files && from in disk.dirs && !Under(from, p)
    ensures !AtOrUnder(from, p) && !AtOrUnder(dest, p)
  {
    if Under(dest, p) {
      StandsInDirectory(disk, p, dest);
    }
  }

  lemma {:induction false} StandsInDirectory(disk: Disk, p: Path, q: Path)
    requires Proper(disk) && p in disk.files && Under(q, p)
    ensures q in disk.dirs
  {
    assert q in Parents(p);
  }

  lemma {:induction false} WritesOver(disk: Disk, p: Path, content: Content)
    requires !Blocked(disk, p) && Parents(p) <= disk.dirs
    ensures WriteFile(disk, p, content) == (disk.(files := disk.files[p := content]), true)
  {
    hide Parents;
    assert disk.dirs + Parents(p) == disk.dirs;
  }

  lemma {:induction false} NotBlocked(disk: Disk, p: Path)
    requires Proper(disk) && p in disk.files
    ensures !Blocked(disk, p)
  {
    hide Under;
    forall q | q in disk.files
      ensures !Under(q, p)
    {
      if Under(q, p) {
        StandsInDirectory(disk, p, q);
      }
    }
  }

  /** A file that is not taken along can still be written. */
  lemma {:induction false} StillWritable(disk: Disk, p: Path, from: Path, dest: Path)
    requires Proper(disk) && Move(disk, from, dest).1 && from != dest
    requires p in disk.files && !AtOrUnder(from, p) && !AtOrUnder(dest, p)
    ensures var moved := Move(disk, from, dest).0; !Blocked(moved, p) && Parents(p) <= moved.dirs
  {
    hide AtOrUnder, Movable;
    var moved := Move(disk, from, dest).0;
    forall q | Under(q, p)
      ensures q in moved.dirs && q !in moved.files
    {
      assert q in Parents(p);
      NotAbove(from, q, p);
      NotAbove(dest, q, p);
    }
  }

  lemma {:induction false} NotAbove(a: Path, q: Path, p: Path)
    requires Under(q, p) && !AtOrUnder(a, p)
    ensures !AtOrUnder(a, q)
  {
    if Under(a, q) {
      UnderChain(a, q, p);
    }
  }

  /** A move does not look at what is in a file. */
  lemma {:induction false} MoveCarriesContents(disk: Disk, p: Path, content: Content, from: Path, dest: Path)
    requires p in disk.files
    ensures var edited := disk.(files := disk.files[p := content]);
            && Move(edited, from, dest).1 == Move(disk, from, dest).1
            && Move(edited, from, dest).0.dirs == Move(disk, from, dest).0.dirs
            && Move(edited, from, dest).0.files.Keys == Move(disk, from, dest).0.files.Keys
  {
    hide MovedPaths, ComesFrom, AtOrUnder, Under;
    var edited := disk.(files := disk.files[p := content]);
    assert edited.files.Keys == disk.files.Keys;
    assert BelowFile(edited, dest) == BelowFile(disk, dest);
    assert forall q :: q in edited.files <==> q in disk.files;
    assert Empty(WithParents(edited, dest), dest) == Empty(WithParents(disk, dest), dest);
  }

  lemma {:induction false} SourceInside(from: Path, dest: Path, q: Path)
    requires AtOrUnder(dest, q)
    ensures AtOrUnder(from, Source(from, dest, q))
  {
    assert Source(from, dest, q)[..|from|] == from && Source(from, dest, q)[|from|..] == q[|dest|..];
  }

  lemma {:induction false} MoveBesideEdit(disk: Disk, p: Path, content: Content, from: Path, dest: Path)
    requires Move(disk, from, dest).1 && from != dest
    requires p in disk.files && !AtOrUnder(from, p) && !AtOrUnder(dest, p)
    ensures var moved := Move(disk, from, dest).0;
            && p in moved.files
            && Move(disk.(files := disk.files[p := content]), from, dest)
               == (moved.(files := moved.files[p := content]), true)
  {
    hide Under, Movable, Empty, BelowFile;
    var edited := disk.(files := disk.files[p := content]);
    MoveCarriesContents(disk, p, content, from, dest);
    assert edited.files.Keys == disk.files.Keys;
    var moved, after := Move(disk, from, dest).0, Move(edited, from, dest).0;
    forall q | q in moved.files
      ensures after.files[q] == if q == p then content else moved.files[q]
    {
      if ComesFrom(disk.files.Keys, from, dest, q) {
        SourceInside(from, dest, q);
      }
    }
    assert after.files == moved.files[p := content];
  }

  /** Editing before or after the move. */
  lemma {:induction false} MoveAfterEdit(disk: Disk, p: Path, content: Content, from: Path, dest: Path)
    requires Proper(disk) && p in disk.files && content != disk.files[p] && from in disk.dirs
    requires Move(disk.(files := disk.files[p := content]), from, dest).1
    ensures var edited := disk.(files := disk.files[p := content]);
            var (moved, done) := Move(disk, from, dest);
            done && (WriteFile(moved, p, content) == (Move(edited, from, dest).0, true)
              <==> from == dest || !Under(from, p))
  {
    hide Under, Movable, Empty, MovedPaths, ComesFrom;
    var edited := disk.(files := disk.files[p := content]);
    MoveCarriesContents(disk, p, content, from, dest);
    var moved, after := Move(disk, from, dest).0, Move(edited, from, dest).0;
    if from == dest {
      NotBlocked(disk, p);
      assert p !in Parents(dest);
      WritesOver(moved, p, content);
    } else if Under(from, p) {
      TakenAlong(disk, p, from, dest);
      TakenAlong(edited, p, from, dest);
    } else {
      StaysPut(disk, p, from, dest);
      StillWritable(disk, p, from, dest);
      MoveBesideEdit(disk, p, content, from, dest);
      WritesOver(moved, p, content);
    }
  }

  /**
    Directories are renamed first, so an edit before the rename follows its file if and
    only if it is not in the directory.
   */
  lemma {:induction false} RenamedAfterEditIff(
    disk: Disk, p: Path, edits: seq<LspEdits.TextEdit>, content: Content, from: Path, dest: Path)
    requires Proper(disk) && p in disk.files && from in disk.dirs
    requires LspEdits.Edited(disk.files[p], edits) == Some(content) && content != disk.files[p]
    requires EditThenRename(disk, p, content, from, dest).1
    ensures Applied(disk, [EditFile(p, edits), RenameFile(from, dest, false, false)], true)
            == (EditThenRename(disk, p, content, from, dest).0, None)
            <==> from == dest || !Under(from, p)
  {
    hide LspEdits.Edited, Move, Blocked;
    var edit, rename := EditFile(p, edits), RenameFile(from, dest, false, false);
    var after := disk.files[p := content];
    var edited := Draft(after, [p], []);
    NotingFirst(disk.files, p);
    PerformTwo(disk.dirs, Blank(disk.files), edit, rename, edited);
    assert edited.moves + [(from, dest)] == [(from, dest)];
    OneMove(disk, from, dest);
    var moved := Move(disk, from, dest).0;
    OneTurn(moved, disk.files, after, p);
    NotBlocked(disk, p);
    WritesOver(disk, p, content);
    MoveAfterEdit(disk, p, content, from, dest);
  }

  // ---- what the operations leave alone -----------------------------------------------------------------------

  function Touches(op: Operation): set<Path> {
    match op
    case CreateFile(path, _, _) => {path}
    case RenameFile(from, dest, _, _) => {from, dest}
    case DeleteFile(path, _) => {path}
    case EditFile(path, _) => {path}
    case Malformed => {}
  }

  function AllTouched(ops: seq<Operation>): set<Path> {
    if ops == [] then {} else Touches(ops[0]) + AllTouched(ops[1..])
  }

  /** What a draft may have looked at and renamed. */
  ghost predicate Within(draft: Draft, touched: set<Path>) {
    && (forall p :: p in draft.order ==> p in touched)
    && forall m :: m in draft.moves ==> m.0 in touched && m.1 in touched
  }

  lemma {:induction false} PlacingWithin(draft: Draft, path: Path, content: Option<Content>, touched: set<Path>)
    requires Within(draft, touched) && path in touched
    ensures Within(Noting(draft, path), touched) && Within(Placing(draft, path, content), touched)
  {
  }

  lemma {:induction false} PerformWithin(dirs: set<Path>, draft: Draft, op: Operation, touched: set<Path>)
    requires Within(draft, touched) && Touches(op) <= touched && Perform(dirs, draft, op).Ok?
    ensures Within(Perform(dirs, draft, op).value, touched)
  {
    hide LspEdits.Edited, Noting, Placing;
    match op
    case CreateFile(path, _, _) =>
      PlacingWithin(draft, path, Some(""), touched);
    case RenameFile(from, dest, _, _) =>
      var content := Lookup(draft.files, from);
      PlacingWithin(draft, from, None, touched);
      PlacingWithin(Noting(draft, from), dest, content, touched);
      var seen := Noting(Noting(draft, from), dest);
      PlacingWithin(seen, from, None, touched);
      PlacingWithin(Placing(seen, from, None), dest, content, touched);
    case DeleteFile(path, _) =>
      PlacingWithin(draft, path, None, touched);
    case EditFile(path, edits) =>
      if path in draft.files {
        PlacingWithin(draft, path, LspEdits.Edited(draft.files[path], edits), touched);
      }
    case Malformed =>
  }

  lemma {:induction false} PerformAllWithin(dirs: set<Path>, draft: Draft, ops: seq<Operation>, touched: set<Path>)
    requires Within(draft, touched) && AllTouched(ops) <= touched && PerformAll(dirs, draft, ops).Ok?
    ensures Within(PerformAll(dirs, draft, ops).value, touched)
    decreases |ops|
  {
    hide Perform, Touches, Within;
    if ops != [] {
      PerformWithin(dirs, draft, ops[0], touched);
      PerformAllWithin(dirs, Perform(dirs, draft, ops[0]).value, ops[1..], touched);
    }
  }

  /** Whatever comes of the edit, a file that no operation names, nor a directory above it, keeps its content. */
  lemma {:induction false} UntouchedUnchanged(disk: Disk, ops: seq<Operation>, write: bool, p: Path)
    requires forall q :: q in AllTouched(ops) ==> !AtOrUnder(q, p)
    ensures Lookup(Applied(disk, ops, write).0.files, p) == Lookup(disk.files, p)
  {
    hide PerformAll, Outcome, AllTouched, AtOrUnder;
    var performed := PerformAll(disk.dirs, Blank(disk.files), ops);
    if performed.Ok? {
      var draft := performed.value;
      PerformAllWithin(disk.dirs, Blank(disk.files), ops, AllTouched(ops));
      WritePhase.UntouchedUnchanged(disk, draft.moves, disk.files, draft.files, draft.order, p);
    }
  }

  /** Renaming to a free name and back leaves the disk as it was. */
  lemma {:induction false} RenameBack(disk: Disk, from: Path, dest: Path)
    requires from in disk.files && from !in disk.dirs && dest !in disk.files && dest !in disk.dirs
    ensures Applied(disk, [RenameFile(from, dest, false, false), RenameFile(dest, from, false, false)], true)
            == (disk, None)
  {
    var there, back := RenameFile(from, dest, false, false), RenameFile(dest, from, false, false);
    var next := Draft((disk.files - {from})[dest := disk.files[from]], [from, dest], []);
    NotingSecond(disk.files, from, dest);
    assert (next.files - {dest})[from := next.files[dest]] == disk.files;
    PerformTwo(disk.dirs, Blank(disk.files), there, back, next);
    TwoTurns(disk, disk.files, disk.files, from, dest);
  }

  /** An edit in two parts is the one then the other; a failing second part undoes the first. */
  lemma {:induction false} PerformInParts(dirs: set<Path>, draft: Draft, first: seq<Operation>, second: seq<Operation>)
    ensures PerformAll(dirs, draft, first + second) ==
            match PerformAll(dirs, draft, first)
            case Err(e) => Err(e)
            case Ok(next) => PerformAll(dirs, next, second)
    decreases |first|
  {
    hide Perform;
    if first == [] {
      assert first + second == second;
    } else {
      assert (first + second)[0] == first[0] && (first + second)[1..] == first[1..] + second;
      if Perform(dirs, draft, first[0]).Ok? {
        PerformInParts(dirs, Perform(dirs, draft, first[0]).value, first[1..], second);
      }
    }
  }
}
