/** The move log an organize run records (`{'from': ..., 'to': ...}` entries)
    and the undo that walks it backwards. Two undo styles exist: the Pro
    organizer puts each file back with `shutil.move(to, from)`, the Ultimate
    organizer recreates the parent of `from` and calls `os.rename(to, from)`. */
module UndoLog {
  import opened Basics
  import opened Paths
  import opened Disks

  datatype Move = Move(from: Path, to: Path)

  /** The file map reached by performing the logged moves in order, each one
      taking an existing file to a path no file holds; `None` when some move
      could not have happened that way. */
  function Replay(f: map<Path, FileData>, log: seq<Move>): (r: Option<map<Path, FileData>>)
    ensures r.Some? && log != [] ==> Last(log).to in r.value && Last(log).from !in r.value
    decreases |log|
  {
    if log == [] then Some(f)
    else match Replay(f, Init(log))
      case None => None
      case Some(g) =>
        var m := Last(log);
        if m.from in g && m.to !in g then Some(MoveEntry(g, m.from, m.to)) else None
  }

  /** Extending a log by a move that takes an existing file to a free path. */
  lemma ReplayAppend(f: map<Path, FileData>, log: seq<Move>, g: map<Path, FileData>, m: Move)
    requires Replay(f, log) == Some(g)
    requires m.from in g && m.to !in g
    ensures Replay(f, log + [m]) == Some(MoveEntry(g, m.from, m.to))
  {
    assert Init(log + [m]) == log;
  }

  /** A log that replays never overwrites: the number of files stays the same. */
  lemma {:induction false} ReplayKeepsFileCount(f: map<Path, FileData>, log: seq<Move>)
    requires Replay(f, log).Some?
    ensures |Replay(f, log).value.Keys| == |f.Keys|
    decreases |log|
  {
    if log != [] {
      ReplayKeepsFileCount(f, Init(log));
      var g := Replay(f, Init(log)).value;
      var m := Last(log);
      var h := MoveEntry(g, m.from, m.to);
      assert h.Keys == (g.Keys - {m.from}) + {m.to};
      assert |g.Keys - {m.from}| == |g.Keys| - 1;
    }
  }

  /** Moving a file back to where it came from restores the file map. */
  lemma MoveEntryUndone(g: map<Path, FileData>, from: Path, to: Path)
    requires from in g && to !in g
    ensures MoveEntry(MoveEntry(g, from, to), to, from) == g
  {
  }

  datatype UndoStyle = ShutilMoveBack | RecreateAndRename

  /** Undoing one logged move: skipped when nothing exists at `to` any more;
      otherwise the style's calls, stopping at the first error with the disk
      as that error leaves it. */
  function UndoStep(style: UndoStyle, d: Disk, m: Move): (r: (Disk, Option<FsError>))
    ensures !Exists(d, m.to) ==> r == (d, None)
    ensures Wf(d) ==> Wf(r.0)
  {
    if !Exists(d, m.to) then (d, None)
    else match style
      case ShutilMoveBack =>
        (match ShutilMove(d, m.to, m.from)
         case Err(e) => (d, Some(e))
         case Ok(d1) => (d1, None))
      case RecreateAndRename =>
        (match MakeDirs(d, Dirname(m.from))
         case Err(e) => (d, Some(e))
         case Ok(d1) =>
           match OsRename(d1, m.to, m.from)
           case Err(e) => (d1, Some(e))
           case Ok(d2) => (d2, None))
  }

  /** `for move in reversed(moves)`: the last move is undone first; the first
      error ends the walk. */
  function Undo(style: UndoStyle, d: Disk, log: seq<Move>): (r: (Disk, Option<FsError>))
    ensures log == [] ==> r == (d, None)
    ensures Wf(d) ==> Wf(r.0)
    decreases |log|
  {
    if log == [] then (d, None)
    else
      var (d1, err) := UndoStep(style, d, Last(log));
      if err.Some? then (d1, err) else Undo(style, d1, Init(log))
  }

  /** Both undo styles skip entries whose destination has vanished: an undo of
      moves none of whose destinations exist changes nothing. */
  lemma {:induction false} UndoSkipsVanished(style: UndoStyle, d: Disk, log: seq<Move>)
    requires forall m :: m in log ==> !Exists(d, m.to)
    ensures Undo(style, d, log) == (d, None)
    decreases |log|
  {
    if log != [] {
      assert Last(log) in log;
      assert forall m :: m in Init(log) ==> m in log;
      UndoSkipsVanished(style, d, Init(log));
    }
  }

  /** The round trip: if a log replays from `f0` to `f1` and nothing has
      changed since, undoing it restores `f0` exactly, in either style, as long
      as no logged source path has meanwhile become a directory and every
      source's parent directory is still there. Directories stay as they are. */
  lemma {:induction false} UndoRestores(style: UndoStyle, f0: map<Path, FileData>, log: seq<Move>,
                                        f1: map<Path, FileData>, dirs: set<Path>)
    requires Replay(f0, log) == Some(f1)
    requires Wf(Disk(f1, dirs))
    requires forall m :: m in log ==> m.from !in dirs && Dirname(m.from) in dirs
    ensures Undo(style, Disk(f1, dirs), log) == (Disk(f0, dirs), None)
    decreases |log|
  {
    if log != [] {
      var g := Replay(f0, Init(log)).value;
      var m := Last(log);
      assert m in log;
      assert f1 == MoveEntry(g, m.from, m.to);
      MoveEntryUndone(g, m.from, m.to);
      var d := Disk(f1, dirs);
      assert m.to in f1 && m.to !in dirs;
      assert dirs + {Dirname(m.from)} == dirs;
      assert UndoStep(style, d, m) == (Disk(g, dirs), None);
      assert forall n :: n in Init(log) ==> n in log;
      UndoRestores(style, f0, Init(log), g, dirs);
    }
  }

  /** The undo loop of either organizer: `for move in reversed(moves)`, skip a
      move whose destination no longer exists, put the file back in the
      style's way, and stop at the first error. */
  method UndoMoves(style: UndoStyle, d: Disk, moves: seq<Move>) returns (disk: Disk, err: Option<FsError>)
    ensures (disk, err) == Undo(style, d, moves)
  {
    disk, err := d, None;
    var k := |moves|;
    assert moves[..k] == moves;
    while k > 0 && err.None?
      invariant 0 <= k <= |moves|
      invariant Undo(style, d, moves) == if err.Some? then (disk, err) else Undo(style, disk, moves[..k])
    {
      var m := moves[k - 1];
      assert Init(moves[..k]) == moves[..k - 1] && Last(moves[..k]) == m;
      if Exists(disk, m.to) {
        match style {
          case ShutilMoveBack =>
            var moved := ShutilMove(disk, m.to, m.from);
            if moved.Err? {
              err := Some(moved.error);
            } else {
              disk := moved.value;
            }
          case RecreateAndRename =>
            var made := MakeDirs(disk, Dirname(m.from));
            if made.Err? {
              err := Some(made.error);
            } else {
              disk := made.value;
              var renamed := OsRename(disk, m.to, m.from);
              if renamed.Err? {
                err := Some(renamed.error);
              } else {
                disk := renamed.value;
              }
            }
        }
      }
      k := k - 1;
    }
  }
}
