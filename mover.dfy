/** Moving a file into a folder without overwriting anything: the collision
    loop that tries `name`, `<base>_1<ext>`, `<base>_2<ext>`, ... until a free
    path turns up, `OrganizerCore.safe_move` built on it, and the copy of the
    same logic that the Pro and basic organizers carry inline. */
module Mover {
  import opened Basics
  import opened Format
  import opened Paths
  import opened Disks

  /** The k-th path tried for `name` in `dir`: the name itself, then
      `<base>_<k><ext>` with `os.path.splitext` giving base and ext. */
  function Candidate(dir: Path, name: string, k: nat): Path {
    if k == 0 then Join(dir, name)
    else Join(dir, SplitExt(name).0 + "_" + NatToString(k) + SplitExt(name).1)
  }

  /** Different counters give different paths, so the loop never revisits one. */
  lemma CandidateInjective(dir: Path, name: string, j: nat, k: nat)
    requires Candidate(dir, name, j) == Candidate(dir, name, k)
    ensures j == k
  {
    var base, ext := SplitExt(name).0, SplitExt(name).1;
    if j != k {
      if j > 0 && k > 0 {
        var x := base + "_" + NatToString(j) + ext;
        var y := base + "_" + NatToString(k) + ext;
        assert x[0] == (base + "_")[0] == y[0];
        JoinInjective(dir, x, y);
        assert NatToString(j) == x[|base| + 1..|x| - |ext|];
        assert NatToString(k) == y[|base| + 1..|y| - |ext|];
        NatToStringInjective(j, k);
        assert false;
      } else {
        var n := if j == 0 then k else j;
        var x := base + "_" + NatToString(n) + ext;
        assert name == base + ext;
        assert |x| > |name|;
        if base == "" {
          assert !Absolute(name) && !Absolute(x);
        } else {
          assert name[0] == base[0] == x[0];
        }
        JoinInjective(dir, name, x);
        assert false;
      }
    }
  }

  /** The paths tried before the k-th. */
  function Candidates(dir: Path, name: string, k: nat): set<Path> {
    set j | 0 <= j < k :: Candidate(dir, name, j)
  }

  lemma CandidatesStep(dir: Path, name: string, k: nat)
    ensures Candidates(dir, name, k + 1) == Candidates(dir, name, k) + {Candidate(dir, name, k)}
    ensures Candidate(dir, name, k) !in Candidates(dir, name, k)
  {
    if Candidate(dir, name, k) in Candidates(dir, name, k) {
      var j :| 0 <= j < k && Candidate(dir, name, j) == Candidate(dir, name, k);
      CandidateInjective(dir, name, j, k);
      assert false;
    }
  }

  /** The counter at which the collision loop, started at `k`, stops: the
      first candidate from the k-th on that is not taken. The loop terminates
      because every step removes one more taken path from consideration. */
  function FirstFreeIndex(taken: set<Path>, dir: Path, name: string, k: nat): (i: nat)
    ensures k <= i && Candidate(dir, name, i) !in taken
    ensures forall j :: k <= j < i ==> Candidate(dir, name, j) in taken
    decreases taken - Candidates(dir, name, k)
  {
    if Candidate(dir, name, k) !in taken then k
    else
      CandidatesStep(dir, name, k);
      assert Candidate(dir, name, k) in taken - Candidates(dir, name, k);
      FirstFreeIndex(taken, dir, name, k + 1)
  }

  /** The first candidate that is free has exactly the index the loop stops at. */
  lemma FirstFreeUnique(taken: set<Path>, dir: Path, name: string, i: nat)
    requires Candidate(dir, name, i) !in taken
    requires Candidates(dir, name, i) <= taken
    ensures FirstFreeIndex(taken, dir, name, 0) == i
  {
    assert forall j :: 0 <= j < i ==> Candidate(dir, name, j) in Candidates(dir, name, i);
  }

  /** The path the collision loop settles on for `name` in `dir`. */
  function FreeTarget(d: Disk, dir: Path, name: string): (t: Path)
    ensures !Exists(d, t)
    ensures t == Candidate(dir, name, FirstFreeIndex(Taken(d), dir, name, 0))
    ensures !Exists(d, Join(dir, name)) ==> t == Join(dir, name)
  {
    Candidate(dir, name, FirstFreeIndex(Taken(d), dir, name, 0))
  }

  /** Every candidate for a slash-free name lies in `dir` itself. */
  lemma CandidateInDir(dir: Path, name: string, k: nat)
    requires IsDirPath(dir) && '/' !in name
    ensures Dirname(Candidate(dir, name, k)) == dir
  {
    if k == 0 {
      JoinSplits(dir, name);
    } else {
      var base, ext := SplitExt(name).0, SplitExt(name).1;
      var digits := NatToString(k);
      var n := base + "_" + digits + ext;
      assert forall i :: 0 <= i < |base| ==> base[i] == name[i];
      assert forall i :: 0 <= i < |digits| ==> IsDigit(digits[i]);
      assert forall i :: 0 <= i < |n| ==> n[i] != '/' by {
        forall i | 0 <= i < |n|
          ensures n[i] != '/'
        {
          if i < |base| {
            assert n[i] == base[i];
          } else if i == |base| {
            assert n[i] == '_';
          } else if i < |base| + 1 + |digits| {
            assert n[i] == digits[i - |base| - 1];
          } else {
            assert n[i] == ext[i - |base| - 1 - |digits|];
          }
        }
      }
      JoinSplits(dir, n);
    }
  }

  /** The collision loop: starting from `dir/name`, tries `<base>_<counter><ext>`
      for counter = 1, 2, ... while the path exists. */
  method NextFreeName(d: Disk, dir: Path, name: string) returns (target: Path)
    ensures target == FreeTarget(d, dir, name)
    ensures !Exists(d, target)
  {
    var base, ext := SplitExt(name).0, SplitExt(name).1;
    target := Join(dir, name);
    var counter: nat := 1;
    while Exists(d, target)
      invariant counter >= 1
      invariant target == Candidate(dir, name, counter - 1)
      invariant Candidates(dir, name, counter - 1) <= Taken(d)
      decreases Taken(d) - Candidates(dir, name, counter - 1)
    {
      CandidatesShrink(d, dir, name, counter - 1);
      target := Join(dir, base + "_" + NatToString(counter) + ext);
      counter := counter + 1;
    }
    FirstFreeUnique(Taken(d), dir, name, counter - 1);
  }

  /** Trying a taken candidate leaves one taken path fewer to try. */
  lemma CandidatesShrink(d: Disk, dir: Path, name: string, k: nat)
    requires Exists(d, Candidate(dir, name, k))
    requires Candidates(dir, name, k) <= Taken(d)
    ensures Candidates(dir, name, k + 1) <= Taken(d)
    ensures Taken(d) - Candidates(dir, name, k + 1) < Taken(d) - Candidates(dir, name, k)
  {
    CandidatesStep(dir, name, k);
    assert Candidate(dir, name, k) in Taken(d) - Candidates(dir, name, k);
  }

  /** The disk after `os.makedirs(dst_dir, exist_ok=True)` and what the call
      reports: the path now holding the file and whether it moved, or the error. */
  datatype MoveOutcome = MoveOutcome(disk: Disk, result: Result<(Path, bool), FsError>)

  /** Moving `src` to `target` removed it, put its data at a path that was free,
      and left every other file as it was. */
  predicate MovedWithoutOverwrite(before: Disk, after: Disk, src: Path, target: Path) {
    src in before.files && !Exists(before, target) && src != target
    && after.files == MoveEntry(before.files, src, target)
  }

  /** The specification of `safe_move(src, dst_dir)`: create the folder, return
      `(src, False)` when the file is already where it would go, otherwise move
      it to the first free candidate for its base name; every failure becomes
      a `RuntimeError` (`MoveFailed`). */
  function SafeMoveSpec(d: Disk, src: Path, dstDir: Path): (o: MoveOutcome)
    ensures o.result.Err? ==> o.result.error.MoveFailed?
    ensures MakeDirs(d, dstDir).Err? ==> o == MoveOutcome(d, Err(MoveFailed(MakeDirs(d, dstDir).error)))
    ensures MakeDirs(d, dstDir).Ok? ==> o.disk.dirs == d.dirs + {dstDir}
    ensures o.result.Ok? && !o.result.value.1 ==>
              o.result.value.0 == src == Join(dstDir, Basename(src)) && o.disk.files == d.files
    ensures MakeDirs(d, dstDir).Ok? && src == Join(dstDir, Basename(src)) ==> o.result == Ok((src, false))
    ensures Wf(d) && IsDirPath(dstDir) && MakeDirs(d, dstDir).Ok? && src in d.files ==> o.result.Ok?
    ensures o.result.Ok? && o.result.value.1 ==>
              var dirs := Disk(d.files, d.dirs + {dstDir});
              o.result.value.0 == FreeTarget(dirs, dstDir, Basename(src))
              && MovedWithoutOverwrite(dirs, o.disk, src, o.result.value.0)
    ensures o.result.Err? ==> o.disk.files == d.files
    ensures Wf(d) ==> Wf(o.disk)
  {
    match MakeDirs(d, dstDir)
    case Err(e) => MoveOutcome(d, Err(MoveFailed(e)))
    case Ok(d1) =>
      var name := Basename(src);
      if src == Join(dstDir, name) then MoveOutcome(d1, Ok((src, false)))
      else
        var target := FreeTarget(d1, dstDir, name);
        assert IsDirPath(dstDir) ==> Dirname(target) == dstDir by {
          if IsDirPath(dstDir) {
            CandidateInDir(dstDir, name, FirstFreeIndex(Taken(d1), dstDir, name, 0));
          }
        }
        match ShutilMove(d1, src, target)
        case Err(e) => MoveOutcome(d1, Err(MoveFailed(e)))
        case Ok(d2) => MoveOutcome(d2, Ok((target, true)))
  }

  /** `OrganizerCore.safe_move(src, dst_dir)`. */
  method SafeMove(d: Disk, src: Path, dstDir: Path) returns (o: MoveOutcome)
    ensures o == SafeMoveSpec(d, src, dstDir)
  {
    var made := MakeDirs(d, dstDir);
    if made.Err? {
      return MoveOutcome(d, Err(MoveFailed(made.error)));
    }
    var d1 := made.value;
    var filename := Basename(src);
    var dstPath := Join(dstDir, filename);
    if src == dstPath {
      return MoveOutcome(d1, Ok((src, false)));
    }
    dstPath := NextFreeName(d1, dstDir, filename);
    var moved := ShutilMove(d1, src, dstPath);
    if moved.Err? {
      return MoveOutcome(d1, Err(MoveFailed(moved.error)));
    }
    return MoveOutcome(moved.value, Ok((dstPath, true)));
  }

  /** The specification of the move step the Pro and basic organizers write out
      inline: create the folder; look for a free name only when `dest/name` is
      taken by something other than the file itself; move unless the chosen
      path is the file's own. Errors are raised as they are. */
  function InlinePlaceSpec(d: Disk, path: Path, name: string, destFolder: Path): (o: MoveOutcome)
    ensures MakeDirs(d, destFolder).Err? ==> o == MoveOutcome(d, Err(MakeDirs(d, destFolder).error))
    ensures MakeDirs(d, destFolder).Ok? ==> o.disk.dirs == d.dirs + {destFolder}
    ensures o.result.Ok? && !o.result.value.1 ==>
              o.result.value.0 == path && o.disk.files == d.files
    ensures o.result.Ok? && o.result.value.1 ==>
              var dirs := Disk(d.files, d.dirs + {destFolder});
              o.result.value.0 == FreeTarget(dirs, destFolder, name)
              && MovedWithoutOverwrite(dirs, o.disk, path, o.result.value.0)
    ensures Join(destFolder, name) == path ==> o.result.Err? || o.result == Ok((path, false))
    ensures Wf(d) && IsDirPath(destFolder) && '/' !in name && MakeDirs(d, destFolder).Ok? && path in d.files ==>
              o.result.Ok?
    ensures o.result.Err? ==> o.disk.files == d.files
    ensures Wf(d) ==> Wf(o.disk)
  {
    match MakeDirs(d, destFolder)
    case Err(e) => MoveOutcome(d, Err(e))
    case Ok(d1) =>
      var first := Join(destFolder, name);
      var dest := if Exists(d1, first) && first != path then FreeTarget(d1, destFolder, name) else first;
      assert IsDirPath(destFolder) && '/' !in name ==> Dirname(dest) == destFolder by {
        if IsDirPath(destFolder) && '/' !in name {
          CandidateInDir(destFolder, name, 0);
          CandidateInDir(destFolder, name, FirstFreeIndex(Taken(d1), destFolder, name, 0));
        }
      }
      if dest == path then MoveOutcome(d1, Ok((path, false)))
      else
        match ShutilMove(d1, path, dest)
        case Err(e) => MoveOutcome(d1, Err(e))
        case Ok(d2) => MoveOutcome(d2, Ok((dest, true)))
  }

  /** The inline move step of `_organize_files_thread`, as the loop body runs it. */
  method InlinePlace(d: Disk, path: Path, name: string, destFolder: Path) returns (o: MoveOutcome)
    ensures o == InlinePlaceSpec(d, path, name, destFolder)
  {
    var made := MakeDirs(d, destFolder);
    if made.Err? {
      return MoveOutcome(d, Err(made.error));
    }
    var d1 := made.value;
    var destPath := Join(destFolder, name);
    if Exists(d1, destPath) && destPath != path {
      destPath := NextFreeName(d1, destFolder, name);
    }
    if destPath == path {
      return MoveOutcome(d1, Ok((path, false)));
    }
    var moved := ShutilMove(d1, path, destPath);
    if moved.Err? {
      return MoveOutcome(d1, Err(moved.error));
    }
    return MoveOutcome(moved.value, Ok((destPath, true)));
  }
}
