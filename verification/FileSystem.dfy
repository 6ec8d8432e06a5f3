/** A disk as the programs see it: files with their contents, and the directories they stand in. */
module FileSystem {
  type Path = string
  type Content = string

  datatype Disk = Disk(files: map<Path, Content>, dirs: set<Path>)

  /** `p` lies below the directory `q`. */
  predicate Under(q: Path, p: Path) {
    |q| < |p| && p[..|q|] == q && p[|q|] == '/'
  }

  predicate AtOrUnder(q: Path, p: Path) {
    p == q || Under(q, p)
  }

  /** The directories a path goes through. */
  function Parents(p: Path): (parents: set<Path>)
    ensures forall q :: q in parents <==> Under(q, p)
  {
    var parents := set k | 0 <= k < |p| && p[k] == '/' :: p[..k];
    assert forall q :: Under(q, p) ==> p[..|q|] in parents;
    parents
  }

  lemma {:induction false} UnderChain(a: Path, b: Path, c: Path)
    requires Under(a, b) && Under(b, c)
    ensures Under(a, c)
  {
    assert c[..|a|] == c[..|b|][..|a|] == b[..|a|];
    assert c[|a|] == c[..|b|][|a|];
  }

  /** No file stands where another file has a directory. */
  ghost predicate Flat(files: map<Path, Content>) {
    forall p, q :: p in files && q in files ==> !Under(q, p)
  }

  /** Files are no directories, and what a file or directory lies below is a directory. */
  ghost predicate Proper(disk: Disk) {
    && (forall p :: p in disk.files ==> p !in disk.dirs && Parents(p) <= disk.dirs)
    && (forall p :: p in disk.dirs ==> Parents(p) <= disk.dirs)
  }

  /** Some file stands where a directory above `p` is needed. */
  predicate BelowFile(disk: Disk, p: Path) {
    exists q | q in disk.files :: Under(q, p)
  }

  /** Something of the other kind is in the way of writing a file. */
  predicate Blocked(disk: Disk, p: Path) {
    p in disk.dirs || BelowFile(disk, p)
  }

  /** The directories above `p` made where they are missing. */
  function WithParents(disk: Disk, p: Path): Disk {
    disk.(dirs := disk.dirs + Parents(p))
  }

  /** Making the parents and writing the file; the parents stay when the file cannot be written. */
  function WriteFile(disk: Disk, p: Path, content: Content): (Disk, bool) {
    if BelowFile(disk, p) then (disk, false)
    else if p in disk.dirs then (WithParents(disk, p), false)
    else (WithParents(disk, p).(files := disk.files[p := content]), true)
  }

  function RemoveFile(disk: Disk, p: Path): (Disk, bool) {
    if p in disk.files then (disk.(files := disk.files - {p}), true) else (disk, false)
  }

  /** A directory with everything below it taken away. */
  function RemoveTree(disk: Disk, p: Path): Disk {
    Disk(map q | q in disk.files && !Under(p, q) :: disk.files[q], set q | q in disk.dirs && !AtOrUnder(p, q))
  }

  // ---- renaming -------------------------------------------------------------------------------------

  predicate Empty(disk: Disk, p: Path) {
    (forall q :: q in disk.files ==> !Under(p, q)) && forall q :: q in disk.dirs ==> !Under(p, q)
  }

  /**
    What POSIX asks of a rename: a directory goes to a free name or an empty directory
    outside it, a file to no directory.
   */
  predicate Movable(disk: Disk, from: Path, dest: Path) {
    if from == dest then from in disk.files || from in disk.dirs
    else if from in disk.dirs then !Under(from, dest) && dest !in disk.files && Empty(disk, dest)
    else from in disk.files && dest !in disk.dirs
  }

  /** The path that ends up at `q` when `from` becomes `dest`. */
  function Source(from: Path, dest: Path, q: Path): Path
    requires AtOrUnder(dest, q)
  {
    from + q[|dest|..]
  }

  predicate ComesFrom(paths: set<Path>, from: Path, dest: Path, q: Path) {
    AtOrUnder(dest, q) && Source(from, dest, q) in paths
  }

  function MovedPaths(paths: set<Path>, from: Path, dest: Path): (moved: set<Path>)
    ensures forall q :: q in moved <==> ComesFrom(paths, from, dest, q) || (q in paths && !AtOrUnder(from, q))
  {
    var moved := set p | p in paths :: if AtOrUnder(from, p) then dest + p[|from|..] else p;
    MovedExact(paths, from, dest);
    moved
  }

  lemma {:induction false} MovedExact(paths: set<Path>, from: Path, dest: Path)
    ensures var moved := set p | p in paths :: if AtOrUnder(from, p) then dest + p[|from|..] else p;
            forall q :: q in moved <==> ComesFrom(paths, from, dest, q) || (q in paths && !AtOrUnder(from, q))
  {
    forall p | AtOrUnder(from, p)
      ensures var q := dest + p[|from|..]; AtOrUnder(dest, q) && Source(from, dest, q) == p
    {
      var q := dest + p[|from|..];
      assert q[..|dest|] == dest && q[|dest|..] == p[|from|..];
      assert p == p[..|from|] + p[|from|..];
    }
    forall q | AtOrUnder(dest, q)
      ensures var p := Source(from, dest, q); AtOrUnder(from, p) && dest + p[|from|..] == q
    {
      var p := Source(from, dest, q);
      assert p[..|from|] == from && p[|from|..] == q[|dest|..];
      assert q == q[..|dest|] + q[|dest|..];
    }
  }

  /** Making the parents of the new name, and renaming. */
  function Move(disk: Disk, from: Path, dest: Path): (Disk, bool) {
    if BelowFile(disk, dest) then (disk, false)
    else
      var made := WithParents(disk, dest);
      if !Movable(made, from, dest) then (made, false)
      else if from == dest then (made, true)
      else
        (Disk(map q | q in MovedPaths(made.files.Keys, from, dest) ::
                if ComesFrom(made.files.Keys, from, dest, q) then made.files[Source(from, dest, q)] else made.files[q],
              MovedPaths(made.dirs, from, dest)), true)
  }

  lemma {:induction false} NothingBelowNoDirectory(disk: Disk, dest: Path)
    requires Proper(disk) && dest !in disk.dirs
    ensures Empty(WithParents(disk, dest), dest)
  {
    forall q | q in disk.files || q in disk.dirs || q in Parents(dest)
      ensures !Under(dest, q)
    {
      if Under(dest, q) && (q in disk.files || q in disk.dirs) {
        StandsIn(disk, dest, q);
      }
    }
  }

  lemma {:induction false} StandsIn(disk: Disk, dest: Path, q: Path)
    requires Proper(disk) && Under(dest, q) && (q in disk.files || q in disk.dirs)
    ensures dest in disk.dirs
  {
    assert dest in Parents(q);
  }

  /** A directory renamed to a free name takes everything below it along, and nothing else changes its content. */
  lemma {:induction false} DirectoryMoves(disk: Disk, from: Path, dest: Path, rest: string, other: Path)
    requires Proper(disk) && from in disk.dirs && from != dest && !Under(from, dest) && !BelowFile(disk, dest)
    requires dest !in disk.files && dest !in disk.dirs && (rest != "" ==> rest[0] == '/')
    requires !AtOrUnder(from, other) && !AtOrUnder(dest, other)
    ensures var (after, done) := Move(disk, from, dest);
            && done
            && (dest + rest in after.files <==> from + rest in disk.files)
            && (dest + rest in after.files ==> after.files[dest + rest] == disk.files[from + rest])
            && (dest + rest in after.dirs <==> from + rest in disk.dirs)
            && from + rest !in after.files && from + rest !in after.dirs
            && (other in after.files <==> other in disk.files)
            && (other in after.files ==> after.files[other] == disk.files[other])
  {
    hide MovedPaths, Empty, Parents;
    NothingBelowNoDirectory(disk, dest);
    var moved, gone := dest + rest, from + rest;
    assert moved[..|dest|] == dest && moved[|dest|..] == rest;
    assert gone[..|from|] == from && gone[|from|..] == rest;
    assert AtOrUnder(dest, moved) && Source(from, dest, moved) == gone;
    assert AtOrUnder(from, gone);
    NotAlsoUnder(disk, from, dest, rest);
  }

  /** The old and the new place do not overlap. */
  lemma {:induction false} NotAlsoUnder(disk: Disk, from: Path, dest: Path, rest: string)
    requires Proper(disk) && from in disk.dirs && from != dest && !Under(from, dest)
    requires dest !in disk.dirs && (rest != "" ==> rest[0] == '/')
    ensures !AtOrUnder(from, dest + rest) && !AtOrUnder(dest, from + rest)
    ensures from + rest !in Parents(dest)
  {
    var moved, gone := dest + rest, from + rest;
    if AtOrUnder(from, moved) {
      BothAbove(from, dest, rest);
      StandsIn(disk, dest, from);
    } else if AtOrUnder(dest, gone) {
      BothAbove(dest, from, rest);
      StandsIn(disk, dest, from);
    } else if gone in Parents(dest) {
      UnderBeginning(from, rest, dest);
    }
  }

  lemma {:induction false} BothAbove(a: Path, b: Path, rest: string)
    requires AtOrUnder(a, b + rest) && a != b && !Under(a, b) && (rest != "" ==> rest[0] == '/')
    ensures Under(b, a)
  {
    var whole := b + rest;
    assert whole[..|b|] == b;
    if |a| <= |b| {
      ShorterIsAbove(a, b, rest);
    } else {
      assert a == whole[..|a|] && a[..|b|] == b && a[|b|] == rest[0];
    }
  }

  lemma {:induction false} ShorterIsAbove(a: Path, b: Path, rest: string)
    requires AtOrUnder(a, b + rest) && |a| <= |b|
    ensures AtOrUnder(a, b)
  {
    assert (b + rest)[..|a|] == b[..|a|];
  }

  lemma {:induction false} UnderBeginning(from: Path, rest: string, dest: Path)
    requires Under(from + rest, dest) && (rest != "" ==> rest[0] == '/')
    ensures Under(from, dest)
  {
    assert dest[..|from|] == dest[..|from + rest|][..|from|] == from;
    if rest != "" {
      assert dest[|from|] == dest[..|from + rest|][|from|] == rest[0];
    }
  }
}
