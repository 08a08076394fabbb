/** Organize runs as specifications: the loop of the Pro and basic
    organizers' `_organize_files_thread` (abort on the first error) and of the
    Ultimate organizer's `_org_thread` (catch each error and go on), each
    producing the batch of moves its undo later walks backwards.

    Each run takes a `guarded` flag. The programs as written correspond to
    `guarded == false`. With `guarded == true` a file is skipped when its
    destination folder is a path this run already moved a file away from:
    creating that folder would turn a logged source into a directory, and the
    undo could then no longer put the file back. */
module Organize {
  import opened Basics
  import opened Paths
  import opened Disks
  import opened Mover
  import opened UndoLog
  import opened Records

  /** The disk, the moves performed so far, and the error that ended the run. */
  datatype RunState = RunState(disk: Disk, log: seq<Move>, err: Option<FsError>)

  /** The source paths of the logged moves. */
  function Froms(log: seq<Move>): set<Path> {
    set m | m in log :: m.from
  }

  /** `os.path.join(folder, file_info['destination'])`, or the folder itself when
      subfolders are off. */
  function DestFolder(folder: Path, createSubfolders: bool, r: Record): Path {
    if createSubfolders then Join(folder, r.destination) else folder
  }

  /** One iteration of the Pro and basic loop with preview off. */
  function ProStep(s: RunState, r: Record, folder: Path, createSubfolders: bool, guarded: bool): (t: RunState)
    ensures |s.log| <= |t.log| <= |s.log| + 1 && t.log[..|s.log|] == s.log
    ensures |t.log| > |s.log| ==> t.err.None? && Last(t.log).from == r.path && r.path in s.disk.files
    ensures t.err.Some? ==> t.log == s.log && t.disk.files == s.disk.files
    ensures guarded && DestFolder(folder, createSubfolders, r) in Froms(s.log) ==> t == s
  {
    var dest := DestFolder(folder, createSubfolders, r);
    if guarded && dest in Froms(s.log) then s
    else
      var o := InlinePlaceSpec(s.disk, r.path, r.name, dest);
      match o.result
      case Err(e) => RunState(o.disk, s.log, Some(e))
      case Ok(placed) =>
        RunState(o.disk, if placed.1 then s.log + [Move(r.path, placed.0)] else s.log, None)
  }

  /** The Pro and basic organize loop over the records: nothing happens in
      preview mode; otherwise the records are placed one after another until
      the first error. */
  function ProRun(d: Disk, records: seq<Record>, folder: Path, createSubfolders: bool,
                  preview: bool, guarded: bool): (t: RunState)
    ensures preview ==> t == RunState(d, [], None)
    ensures |t.log| <= |records|
    decreases |records|
  {
    if preview || records == [] then RunState(d, [], None)
    else
      var s := ProRun(d, Init(records), folder, createSubfolders, preview, guarded);
      if s.err.Some? then s else ProStep(s, Last(records), folder, createSubfolders, guarded)
  }

  /** What every run keeps true of its state: the log replays from the start
      to the current files (so it records exactly the moves performed, none of
      them overwriting), the disk stays consistent, directories are only added,
      every logged source still has its parent directory, and in a guarded run
      no logged source has become a directory. */
  predicate RunFacts(d: Disk, s: RunState, guarded: bool) {
    Replay(d.files, s.log) == Some(s.disk.files)
    && Wf(s.disk) && d.dirs <= s.disk.dirs
    && (forall m :: m in s.log ==> Dirname(m.from) in s.disk.dirs)
    && (guarded ==> forall m :: m in s.log ==> m.from !in s.disk.dirs)
  }

  /** One step of either loop, placing `path` into `dest` with outcome `o`,
      keeps the run facts. */
  lemma PlaceKeepsFacts(d: Disk, s: RunState, path: Path, dest: Path, o: MoveOutcome, guarded: bool)
    requires RunFacts(d, s, guarded)
    requires guarded ==> dest !in Froms(s.log)
    requires Wf(o.disk)
    requires MakeDirs(s.disk, dest).Err? ==> o.disk == s.disk
    requires MakeDirs(s.disk, dest).Ok? ==> o.disk.dirs == s.disk.dirs + {dest}
    requires o.result.Err? || !o.result.value.1 ==> o.disk.files == s.disk.files
    requires o.result.Ok? && o.result.value.1 ==>
               MovedWithoutOverwrite(Disk(s.disk.files, s.disk.dirs + {dest}), o.disk, path, o.result.value.0)
    ensures var log := if o.result.Ok? && o.result.value.1 then s.log + [Move(path, o.result.value.0)] else s.log;
            RunFacts(d, RunState(o.disk, log, None), guarded)
  {
    if o.result.Ok? && o.result.value.1 {
      var m := Move(path, o.result.value.0);
      ReplayAppend(d.files, s.log, s.disk.files, m);
      assert MakeDirs(s.disk, dest).Ok?;
      assert path in s.disk.files && dest !in s.disk.files;
      forall n | n in s.log + [m]
        ensures Dirname(n.from) in o.disk.dirs
        ensures guarded ==> n.from !in o.disk.dirs
      {
        if n != m {
          assert n in s.log;
          assert n.from in Froms(s.log);
        }
      }
    } else {
      forall n | n in s.log
        ensures guarded ==> n.from !in o.disk.dirs
      {
        assert n.from in Froms(s.log);
      }
    }
  }

  /** The Pro and basic organize runs keep the run facts. */
  lemma {:induction false} ProRunFacts(d: Disk, records: seq<Record>, folder: Path, createSubfolders: bool,
                                       preview: bool, guarded: bool)
    requires Wf(d)
    ensures RunFacts(d, ProRun(d, records, folder, createSubfolders, preview, guarded), guarded)
    decreases |records|
  {
    if !preview && records != [] {
      var s := ProRun(d, Init(records), folder, createSubfolders, preview, guarded);
      ProRunFacts(d, Init(records), folder, createSubfolders, preview, guarded);
      if s.err.None? {
        var r := Last(records);
        var dest := DestFolder(folder, createSubfolders, r);
        if !(guarded && dest in Froms(s.log)) {
          var o := InlinePlaceSpec(s.disk, r.path, r.name, dest);
          PlaceKeepsFacts(d, s, r.path, dest, o, guarded);
        }
      }
    }
  }

  /** With subfolders off and the records describing files of the folder being
      organized, every file is already in place: nothing moves and nothing is
      logged. */
  lemma {:induction false} NoSubfoldersNoMoves(d: Disk, records: seq<Record>, folder: Path,
                                               preview: bool, guarded: bool)
    requires forall r :: r in records ==> r.path == Join(folder, r.name)
    ensures var s := ProRun(d, records, folder, false, preview, guarded);
            s.log == [] && s.disk.files == d.files
    decreases |records|
  {
    if !preview && records != [] {
      assert forall r :: r in Init(records) ==> r in records;
      assert Last(records) in records;
      NoSubfoldersNoMoves(d, Init(records), folder, preview, guarded);
    }
  }

  /** The round trip of the Pro organizer: undoing a run's log restores the
      files the run started from, provided no logged source path is a
      directory when the undo runs. Directories created by the run remain. */
  lemma ProUndoRestores(d: Disk, records: seq<Record>, folder: Path, createSubfolders: bool, guarded: bool)
    requires Wf(d)
    requires var s := ProRun(d, records, folder, createSubfolders, false, guarded);
             forall m :: m in s.log ==> m.from !in s.disk.dirs
    ensures var s := ProRun(d, records, folder, createSubfolders, false, guarded);
            Undo(ShutilMoveBack, s.disk, s.log) == (Disk(d.files, s.disk.dirs), None)
  {
    var s := ProRun(d, records, folder, createSubfolders, false, guarded);
    ProRunFacts(d, records, folder, createSubfolders, false, guarded);
    UndoRestores(ShutilMoveBack, d.files, s.log, s.disk.files, s.disk.dirs);
  }

  /** In a guarded Pro run the proviso always holds, so organize followed by
      undo restores the files unconditionally. */
  lemma GuardedProRunUndoes(d: Disk, records: seq<Record>, folder: Path, createSubfolders: bool)
    requires Wf(d)
    ensures var s := ProRun(d, records, folder, createSubfolders, false, true);
            Undo(ShutilMoveBack, s.disk, s.log) == (Disk(d.files, s.disk.dirs), None)
  {
    ProRunFacts(d, records, folder, createSubfolders, false, true);
    ProUndoRestores(d, records, folder, createSubfolders, true);
  }

  /** Once a run has stopped with an error, the remaining records change nothing. */
  lemma {:induction false} ProRunAfterError(d: Disk, records: seq<Record>, k: nat, folder: Path,
                                            createSubfolders: bool, preview: bool, guarded: bool)
    requires k <= |records|
    requires ProRun(d, records[..k], folder, createSubfolders, preview, guarded).err.Some?
    ensures ProRun(d, records, folder, createSubfolders, preview, guarded)
            == ProRun(d, records[..k], folder, createSubfolders, preview, guarded)
    decreases |records|
  {
    if k == |records| {
      assert records[..k] == records;
    } else {
      assert Init(records)[..k] == records[..k];
      ProRunAfterError(d, Init(records), k, folder, createSubfolders, preview, guarded);
    }
  }

  /** The loop of the Pro and basic `_organize_files_thread`, as written: place
      each record in turn and stop at the first exception. */
  method PlaceAll(d: Disk, records: seq<Record>, folder: Path, createSubfolders: bool, preview: bool)
    returns (disk: Disk, moveHistory: seq<Move>, err: Option<FsError>)
    ensures RunState(disk, moveHistory, err) == ProRun(d, records, folder, createSubfolders, preview, false)
  {
    disk, moveHistory, err := d, [], None;
    var i := 0;
    while i < |records| && err.None?
      invariant 0 <= i <= |records|
      invariant RunState(disk, moveHistory, err) == ProRun(d, records[..i], folder, createSubfolders, preview, false)
    {
      var fileInfo := records[i];
      assert Init(records[..i + 1]) == records[..i] && Last(records[..i + 1]) == fileInfo;
      var destFolder := if createSubfolders then Join(folder, fileInfo.destination) else folder;
      if !preview {
        var o := InlinePlace(disk, fileInfo.path, fileInfo.name, destFolder);
        disk := o.disk;
        match o.result {
          case Err(e) =>
            err := Some(e);
          case Ok(placed) =>
            if placed.1 {
              moveHistory := moveHistory + [Move(fileInfo.path, placed.0)];
            }
        }
      }
      i := i + 1;
    }
    if i < |records| {
      ProRunAfterError(d, records, i, folder, createSubfolders, preview, false);
    } else {
      assert records[..i] == records;
    }
  }

  // ---------------------------------------------------------------------------
  // the Ultimate organizer

  /** One iteration of `_org_thread`: `safe_move` into the entry's folder; a
      move is logged only when it reports `moved`, and an error is swallowed. */
  function UltimateStep(s: RunState, e: Entry, folder: Path, guarded: bool): (t: RunState)
    ensures s.err.None? ==> t.err.None?
    ensures |s.log| <= |t.log| <= |s.log| + 1 && t.log[..|s.log|] == s.log
    ensures |t.log| > |s.log| ==> Last(t.log).from == e.path && e.path in s.disk.files
    ensures guarded && Join(folder, e.dest) in Froms(s.log) ==> t == s
  {
    var dest := Join(folder, e.dest);
    if guarded && dest in Froms(s.log) then s
    else
      var o := SafeMoveSpec(s.disk, e.path, dest);
      var log := if o.result.Ok? && o.result.value.1 then s.log + [Move(e.path, o.result.value.0)] else s.log;
      RunState(o.disk, log, None)
  }

  /** The loop of `_org_thread` over the entries; it never stops early. */
  function UltimateRun(d: Disk, entries: seq<Entry>, folder: Path, guarded: bool): (s: RunState)
    ensures s.err.None?
    ensures |s.log| <= |entries|
    decreases |entries|
  {
    if entries == [] then RunState(d, [], None)
    else UltimateStep(UltimateRun(d, Init(entries), folder, guarded), Last(entries), folder, guarded)
  }

  /** The loop of `_org_thread`, as written: `safe_move` every entry, log the
      moves that happened, and go on past every error. */
  method SafeMoveAll(d: Disk, entries: seq<Entry>, folder: Path) returns (disk: Disk, moves: seq<Move>)
    ensures UltimateRun(d, entries, folder, false) == RunState(disk, moves, None)
  {
    disk, moves := d, [];
    for i := 0 to |entries|
      invariant UltimateRun(d, entries[..i], folder, false) == RunState(disk, moves, None)
    {
      var info := entries[i];
      assert Init(entries[..i + 1]) == entries[..i] && Last(entries[..i + 1]) == info;
      var destDir := Join(folder, info.dest);
      var o := SafeMove(disk, info.path, destDir);
      disk := o.disk;
      if o.result.Ok? && o.result.value.1 {
        moves := moves + [Move(info.path, o.result.value.0)];
      }
    }
    assert entries[..|entries|] == entries;
  }

  /** The Ultimate organize run keeps the run facts. */
  lemma {:induction false} UltimateRunFacts(d: Disk, entries: seq<Entry>, folder: Path, guarded: bool)
    requires Wf(d)
    ensures RunFacts(d, UltimateRun(d, entries, folder, guarded), guarded)
    decreases |entries|
  {
    if entries != [] {
      var s := UltimateRun(d, Init(entries), folder, guarded);
      UltimateRunFacts(d, Init(entries), folder, guarded);
      var e := Last(entries);
      var dest := Join(folder, e.dest);
      if !(guarded && dest in Froms(s.log)) {
        var o := SafeMoveSpec(s.disk, e.path, dest);
        PlaceKeepsFacts(d, s, e.path, dest, o, guarded);
      }
    }
  }

  /** The round trip of the Ultimate organizer, under the same proviso. */
  lemma UltimateUndoRestores(d: Disk, entries: seq<Entry>, folder: Path, guarded: bool)
    requires Wf(d)
    requires var s := UltimateRun(d, entries, folder, guarded);
             forall m :: m in s.log ==> m.from !in s.disk.dirs
    ensures var s := UltimateRun(d, entries, folder, guarded);
            Undo(RecreateAndRename, s.disk, s.log) == (Disk(d.files, s.disk.dirs), None)
  {
    var s := UltimateRun(d, entries, folder, guarded);
    UltimateRunFacts(d, entries, folder, guarded);
    UndoRestores(RecreateAndRename, d.files, s.log, s.disk.files, s.disk.dirs);
  }

  /** A guarded Ultimate run is always undone exactly. */
  lemma GuardedUltimateRunUndoes(d: Disk, entries: seq<Entry>, folder: Path)
    requires Wf(d)
    ensures var s := UltimateRun(d, entries, folder, true);
            Undo(RecreateAndRename, s.disk, s.log) == (Disk(d.files, s.disk.dirs), None)
  {
    UltimateRunFacts(d, entries, folder, true);
    UltimateUndoRestores(d, entries, folder, true);
  }

  // ---------------------------------------------------------------------------
  // the counterexample to the unguarded round trip

  /** Two files of a folder `/d`: one named `Images` without an extension
      (category Others) and a photo `a.jpg` (category Images). */
  function ClashDisk(): Disk {
    Disk(map["/d/Images" := Plain, "/d/a.jpg" := Photo], {"/d"})
  }

  function ClashRecords(): seq<Record> {
    [Record("Images", "/d/Images", "", 1, "Others"), Record("a.jpg", "/d/a.jpg", ".jpg", 1, "Images")]
  }

  function ClashEntries(): seq<Entry> {
    [Entry("Images", "/d/Images", 1, "Others"), Entry("a.jpg", "/d/a.jpg", 1, "Images")]
  }

  /** The paths directly in `/d`. */
  lemma ClashPathsTop()
    ensures Join("/d", "Others") == "/d/Others" && Join("/d", "Images") == "/d/Images"
    ensures Dirname("/d/Images") == "/d" && Dirname("/d/a.jpg") == "/d"
    ensures Basename("/d/Images") == "Images" && Basename("/d/a.jpg") == "a.jpg"
  {
    assert Join("/d", "Images") == "/d/Images" && Join("/d", "a.jpg") == "/d/a.jpg";
    JoinSplits("/d", "Images");
    JoinSplits("/d", "a.jpg");
  }

  /** The path in `/d/Others`. */
  lemma ClashPathsOthers()
    ensures Join("/d/Others", "Images") == "/d/Others/Images"
    ensures Dirname("/d/Others/Images") == "/d/Others" && Basename("/d/Others/Images") == "Images"
  {
    assert IsDirPath("/d/Others");
    JoinSplits("/d/Others", "Images");
  }

  /** The paths in `/d/Images`. */
  lemma ClashPathsImages()
    ensures Join("/d/Images", "a.jpg") == "/d/Images/a.jpg" && Join("/d/Images", "Images") == "/d/Images/Images"
    ensures Dirname("/d/Images/a.jpg") == "/d/Images" && Dirname("/d/Images/Images") == "/d/Images"
  {
    assert IsDirPath("/d/Images");
    JoinSplits("/d/Images", "a.jpg");
    JoinSplits("/d/Images", "Images");
  }

  /** The paths of the counterexamples are distinct. */
  lemma ClashDistinct()
    ensures "/d/Images" != "/d/Others" && "/d/Others/Images" != "/d/Images/Images"
    ensures |"/d"| == 2 && |"/d/a.jpg"| == 8 && |"/d/Images"| == 9 && |"/d/Others"| == 9
    ensures |"/d/Images/a.jpg"| == 15 && |"/d/Others/Images"| == 16 && |"/d/Images/Images"| == 16
  {
    assert "/d/Images"[3] != "/d/Others"[3];
    assert "/d/Others/Images"[3] != "/d/Images/Images"[3];
  }

  const Photo := FileData([2], 2000, 1, true)
  const Plain := FileData([1], 2000, 1, true)

  /** After the first file has gone to `/d/Others`. */
  function ClashMid(): Disk {
    Disk(map["/d/Others/Images" := Plain, "/d/a.jpg" := Photo], {"/d", "/d/Others"})
  }

  /** After the photo has gone to the new folder `/d/Images`. */
  function ClashEnd(): Disk {
    Disk(map["/d/Others/Images" := Plain, "/d/Images/a.jpg" := Photo], {"/d", "/d/Others", "/d/Images"})
  }

  /** After the photo has been put back. */
  function ClashPhotoBack(): Disk {
    Disk(map["/d/Others/Images" := Plain, "/d/a.jpg" := Photo], {"/d", "/d/Others", "/d/Images"})
  }

  /** The first placement: `/d/Images` moves to `/d/Others/Images`. */
  lemma ClashFirstPlace()
    ensures InlinePlaceSpec(ClashDisk(), "/d/Images", "Images", "/d/Others")
            == MoveOutcome(ClashMid(), Ok(("/d/Others/Images", true)))
    ensures SafeMoveSpec(ClashDisk(), "/d/Images", "/d/Others")
            == MoveOutcome(ClashMid(), Ok(("/d/Others/Images", true)))
  {
    ClashPathsTop();
    ClashDistinct();
    ClashPathsOthers();
    assert ClashDisk().files.Keys == {"/d/Images", "/d/a.jpg"};
    assert "/d/Others" !in ClashDisk().files;
    var d1 := Disk(ClashDisk().files, {"/d", "/d/Others"});
    assert MakeDirs(ClashDisk(), "/d/Others").Ok?;
    assert MakeDirs(ClashDisk(), "/d/Others").value.dirs == d1.dirs;
    assert MakeDirs(ClashDisk(), "/d/Others") == Ok(d1);
    assert !Exists(d1, "/d/Others/Images");
    assert MoveEntry(d1.files, "/d/Images", "/d/Others/Images") == ClashMid().files;
    assert ShutilMove(d1, "/d/Images", "/d/Others/Images") == Ok(ClashMid());
  }

  /** The calls of the second placement: `makedirs("/d/Images")` succeeds now
      that the file of that name has moved, and the photo moves into the new
      folder. */
  lemma ClashSecondCalls()
    ensures MakeDirs(ClashMid(), "/d/Images") == Ok(Disk(ClashMid().files, ClashEnd().dirs))
    ensures !Exists(Disk(ClashMid().files, ClashEnd().dirs), "/d/Images/a.jpg")
    ensures ShutilMove(Disk(ClashMid().files, ClashEnd().dirs), "/d/a.jpg", "/d/Images/a.jpg") == Ok(ClashEnd())
  {
    ClashMakeImages();
    ClashPhotoMove();
  }

  /** `os.makedirs("/d/Images")` once the file of that name has gone. */
  lemma ClashMakeImages()
    ensures MakeDirs(ClashMid(), "/d/Images") == Ok(Disk(ClashMid().files, ClashEnd().dirs))
  {
    ClashDistinct();
    assert ClashMid().files.Keys == {"/d/Others/Images", "/d/a.jpg"};
    assert "/d/Images" !in ClashMid().files;
    assert MakeDirs(ClashMid(), "/d/Images").Ok?;
    assert MakeDirs(ClashMid(), "/d/Images").value.dirs == ClashEnd().dirs;
  }

  /** The photo moves into the new folder. */
  lemma ClashPhotoMove()
    ensures !Exists(Disk(ClashMid().files, ClashEnd().dirs), "/d/Images/a.jpg")
    ensures ShutilMove(Disk(ClashMid().files, ClashEnd().dirs), "/d/a.jpg", "/d/Images/a.jpg") == Ok(ClashEnd())
  {
    ClashPhotoFree();
    ClashPathsImages();
    ClashPhotoMoveFiles();
  }

  /** Nothing is at the photo's new path yet. */
  lemma ClashPhotoFree()
    ensures !Exists(Disk(ClashMid().files, ClashEnd().dirs), "/d/Images/a.jpg")
    ensures "/d/a.jpg" !in ClashEnd().dirs && "/d/a.jpg" in ClashMid().files
  {
    ClashDistinct();
    assert ClashMid().files.Keys == {"/d/Others/Images", "/d/a.jpg"};
  }

  /** The files after the photo's move. */
  lemma ClashPhotoMoveFiles()
    ensures MoveEntry(ClashMid().files, "/d/a.jpg", "/d/Images/a.jpg") == ClashEnd().files
  {
    ClashDistinct();
  }

  /** The second placement in the Pro and basic style. */
  lemma ClashSecondPlace()
    ensures InlinePlaceSpec(ClashMid(), "/d/a.jpg", "a.jpg", "/d/Images")
            == MoveOutcome(ClashEnd(), Ok(("/d/Images/a.jpg", true)))
  {
    ClashPathsImages();
    ClashDistinct();
    ClashSecondCalls();
  }

  /** The second placement in the Ultimate style. */
  lemma ClashSecondSafeMove()
    ensures SafeMoveSpec(ClashMid(), "/d/a.jpg", "/d/Images")
            == MoveOutcome(ClashEnd(), Ok(("/d/Images/a.jpg", true)))
  {
    ClashPathsTop();
    ClashPathsImages();
    ClashDistinct();
    ClashSecondCalls();
  }

  /** The log both runs record. */
  function ClashLog(): seq<Move> {
    [Move("/d/Images", "/d/Others/Images"), Move("/d/a.jpg", "/d/Images/a.jpg")]
  }

  /** The first step of the unguarded Pro run. */
  lemma ClashProFirst()
    ensures ProRun(ClashDisk(), [ClashRecords()[0]], "/d", true, false, false)
            == RunState(ClashMid(), [Move("/d/Images", "/d/Others/Images")], None)
  {
    var r := ClashRecords()[0];
    assert Init([r]) == [] && Last([r]) == r;
    ClashPathsTop();
    assert DestFolder("/d", true, r) == "/d/Others";
    ClashFirstPlace();
  }

  /** The second step of the unguarded Pro run. */
  lemma ClashProSecond()
    ensures ProStep(RunState(ClashMid(), [Move("/d/Images", "/d/Others/Images")], None), ClashRecords()[1], "/d", true, false)
            == RunState(ClashEnd(), ClashLog(), None)
  {
    ClashPathsTop();
    assert DestFolder("/d", true, ClashRecords()[1]) == "/d/Images";
    ClashSecondPlace();
  }

  /** The unguarded Pro run over the two records. */
  lemma ClashProRun()
    ensures ProRun(ClashDisk(), ClashRecords(), "/d", true, false, false) == RunState(ClashEnd(), ClashLog(), None)
  {
    var recs := ClashRecords();
    assert Init(recs) == [recs[0]] && Last(recs) == recs[1];
    ClashProFirst();
    ClashProSecond();
  }

  /** The first step of the unguarded Ultimate run. */
  lemma ClashUltimateFirst()
    ensures UltimateRun(ClashDisk(), [ClashEntries()[0]], "/d", false)
            == RunState(ClashMid(), [Move("/d/Images", "/d/Others/Images")], None)
  {
    var e := ClashEntries()[0];
    assert Init([e]) == [] && Last([e]) == e;
    ClashPathsTop();
    ClashFirstPlace();
  }

  /** The second step of the unguarded Ultimate run. */
  lemma ClashUltimateSecond()
    ensures UltimateStep(RunState(ClashMid(), [Move("/d/Images", "/d/Others/Images")], None), ClashEntries()[1], "/d", false)
            == RunState(ClashEnd(), ClashLog(), None)
  {
    var e := ClashEntries()[1];
    assert e.path == "/d/a.jpg" && e.dest == "Images";
    ClashPathsTop();
    ClashSecondSafeMove();
    assert [Move("/d/Images", "/d/Others/Images")] + [Move("/d/a.jpg", "/d/Images/a.jpg")] == ClashLog();
  }

  /** The unguarded Ultimate run over the two entries. */
  lemma ClashUltimateRun()
    ensures UltimateRun(ClashDisk(), ClashEntries(), "/d", false) == RunState(ClashEnd(), ClashLog(), None)
  {
    var es := ClashEntries();
    assert Init(es) == [es[0]] && Last(es) == es[1];
    ClashUltimateFirst();
    ClashUltimateSecond();
  }

  /** `os.rename("/d/Images/a.jpg", "/d/a.jpg")` puts the photo back. */
  lemma ClashPhotoRename()
    ensures OsRename(ClashEnd(), "/d/Images/a.jpg", "/d/a.jpg") == Ok(ClashPhotoBack())
  {
    ClashPathsTop();
    ClashDistinct();
    assert MoveEntry(ClashEnd().files, "/d/Images/a.jpg", "/d/a.jpg") == ClashPhotoBack().files;
  }

  /** `os.makedirs("/d", exist_ok=True)` changes nothing before the photo goes back. */
  lemma ClashPhotoParent()
    ensures MakeDirs(ClashEnd(), "/d") == Ok(ClashEnd())
  {
    ClashDistinct();
    var d := ClashEnd();
    assert d.dirs + {"/d"} == d.dirs;
    assert MakeDirs(d, "/d").Ok?;
    assert MakeDirs(d, "/d").value.dirs == d.dirs;
  }

  /** Undoing the photo's move works in both styles. */
  lemma ClashPhotoUndone(style: UndoStyle)
    ensures UndoStep(style, ClashEnd(), Move("/d/a.jpg", "/d/Images/a.jpg")) == (ClashPhotoBack(), None)
  {
    ClashPathsTop();
    ClashDistinct();
    assert Exists(ClashEnd(), "/d/Images/a.jpg");
    assert "/d/a.jpg" !in ClashEnd().dirs;
    ClashPhotoRename();
    if style == RecreateAndRename {
      ClashPhotoParent();
    }
  }

  /** Where the Pro undo leaves the plain file: inside the folder `/d/Images`. */
  function ClashMisplaced(): Disk {
    Disk(map["/d/Images/Images" := Plain, "/d/a.jpg" := Photo], {"/d", "/d/Others", "/d/Images"})
  }

  /** `shutil.move("/d/Others/Images", "/d/Images")` moves into the folder. */
  lemma ClashPlainUndonePro()
    ensures UndoStep(ShutilMoveBack, ClashPhotoBack(), Move("/d/Images", "/d/Others/Images")) == (ClashMisplaced(), None)
  {
    assert Exists(ClashPhotoBack(), "/d/Others/Images");
    ClashPlainInside();
  }

  /** The call that undo makes. */
  lemma ClashPlainInside()
    ensures ShutilMove(ClashPhotoBack(), "/d/Others/Images", "/d/Images") == Ok(ClashMisplaced())
  {
    ClashPathsOthers();
    ClashPathsImages();
    ClashInsideFree();
    ClashMisplacedFiles();
  }

  /** Inside `/d/Images` the name `Images` is free. */
  lemma ClashInsideFree()
    ensures !Exists(ClashPhotoBack(), "/d/Images/Images")
  {
    ClashDistinct();
    assert ClashPhotoBack().files.Keys == {"/d/Others/Images", "/d/a.jpg"};
  }

  /** The files after the move into the folder. */
  lemma ClashMisplacedFiles()
    ensures MoveEntry(ClashPhotoBack().files, "/d/Others/Images", "/d/Images/Images") == ClashMisplaced().files
  {
    ClashDistinct();
  }

  /** `os.makedirs("/d", exist_ok=True)` changes nothing after the photo is back. */
  lemma ClashParentKept()
    ensures MakeDirs(ClashPhotoBack(), "/d") == Ok(ClashPhotoBack())
  {
    ClashDistinct();
    var d := ClashPhotoBack();
    assert d.dirs + {"/d"} == d.dirs;
    assert MakeDirs(d, "/d").Ok?;
    assert MakeDirs(d, "/d").value.dirs == d.dirs;
  }

  /** `os.rename("/d/Others/Images", "/d/Images")` refuses the folder. */
  lemma ClashRenameRefused()
    ensures OsRename(ClashPhotoBack(), "/d/Others/Images", "/d/Images") == Err(IsADirectory("/d/Images"))
  {
    ClashDistinct();
    var d := ClashPhotoBack();
    assert "/d/Others/Images" !in d.dirs && "/d/Others/Images" in d.files && "/d/Images" in d.dirs;
  }

  /** So the Ultimate undo of the plain file's move fails. */
  lemma ClashPlainUndoneUltimate()
    ensures UndoStep(RecreateAndRename, ClashPhotoBack(), Move("/d/Images", "/d/Others/Images"))
            == (ClashPhotoBack(), Some(IsADirectory("/d/Images")))
  {
    ClashPathsTop();
    ClashParentKept();
    ClashRenameRefused();
    assert Exists(ClashPhotoBack(), "/d/Others/Images");
  }

  /** The two-entry log is undone last move first. */
  lemma ClashUndoOrder(style: UndoStyle)
    ensures var r := UndoStep(style, ClashEnd(), ClashLog()[1]);
            Undo(style, ClashEnd(), ClashLog())
            == if r.1.Some? then r else UndoStep(style, r.0, ClashLog()[0])
  {
    var log := ClashLog();
    assert Init(log) == [log[0]] && Init([log[0]]) == [] && Last([log[0]]) == log[0] && Last(log) == log[1];
  }

  /** The layout the counterexample starts from is consistent. */
  lemma ClashDiskWf()
    ensures Wf(ClashDisk())
  {
    ClashDistinct();
    ClashPathsTop();
  }

  /** As written, the Pro organizer moves `/d/Images` to `/d/Others/Images`, then
      creates the folder `/d/Images` for the photo. The undo's
      `shutil.move("/d/Others/Images", "/d/Images")` then moves the file into that
      folder: it ends up at `/d/Images/Images`, not where it was. */
  lemma UnguardedProUndoMisplaces()
    ensures Wf(ClashDisk())
    ensures var s := ProRun(ClashDisk(), ClashRecords(), "/d", true, false, false);
            s.err.None? && s.log == ClashLog()
            && var u := Undo(ShutilMoveBack, s.disk, s.log);
               u.1.None? && "/d/Images" !in u.0.files && "/d/Images/Images" in u.0.files
               && u.0.files != ClashDisk().files
  {
    ClashDiskWf();
    ClashProRun();
    ClashProUndone();
    ClashMisplacedShape();
  }

  /** The Pro undo of the two-entry log ends with the plain file misplaced. */
  lemma ClashProUndone()
    ensures Undo(ShutilMoveBack, ClashEnd(), ClashLog()) == (ClashMisplaced(), None)
  {
    ClashPhotoUndone(ShutilMoveBack);
    ClashPlainUndonePro();
    ClashUndoOrder(ShutilMoveBack);
  }

  lemma ClashMisplacedShape()
    ensures "/d/Images" !in ClashMisplaced().files && "/d/Images/Images" in ClashMisplaced().files
    ensures ClashMisplaced().files != ClashDisk().files
  {
    ClashDistinct();
    assert "/d/Images" in ClashDisk().files;
  }

  /** As written, the Ultimate organizer leaves the same layout, and its undo
      stops with an error: `os.rename("/d/Others/Images", "/d/Images")` meets the
      folder `/d/Images`, so the file stays in `/d/Others`. */
  lemma UnguardedUltimateUndoFails()
    ensures var s := UltimateRun(ClashDisk(), ClashEntries(), "/d", false);
            s.log == ClashLog()
            && var u := Undo(RecreateAndRename, s.disk, s.log);
               u.1 == Some(IsADirectory("/d/Images")) && "/d/Others/Images" in u.0.files
               && u.0.files != ClashDisk().files
  {
    ClashUltimateRun();
    ClashUltimateUndone();
    ClashPhotoBackShape();
  }

  /** The Ultimate undo of the two-entry log stops at the plain file. */
  lemma ClashUltimateUndone()
    ensures Undo(RecreateAndRename, ClashEnd(), ClashLog()) == (ClashPhotoBack(), Some(IsADirectory("/d/Images")))
  {
    ClashPhotoUndone(RecreateAndRename);
    ClashPlainUndoneUltimate();
    ClashUndoOrder(RecreateAndRename);
  }

  lemma ClashPhotoBackShape()
    ensures "/d/Others/Images" in ClashPhotoBack().files && ClashPhotoBack().files != ClashDisk().files
  {
    ClashDistinct();
    assert "/d/Images" in ClashDisk().files && "/d/Images" !in ClashPhotoBack().files;
  }
}
