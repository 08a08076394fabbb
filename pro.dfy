/** The Pro organizer's window state and the operations its buttons run: scan,
    search, organize, undo, statistics and batch rename. The disk is passed in
    and the changed disk handed back; confirmations the user is asked for are
    parameters. */
module Pro {
  import opened Basics
  import opened Format
  import opened Paths
  import opened Disks
  import opened UndoLog
  import opened Classifier
  import opened Records
  import opened Organize
  import opened Stats
  import opened Search
  import opened Rename

  class Organizer {
    var categories: Table
    var mode: string
    var createSubfolders: bool
    var preview: bool
    var sourceFolder: Path
    var fileList: seq<Record>
    /** Each entry is the move list of one organize run; timestamps are not modelled. */
    var undoHistory: seq<seq<Move>>

    /** A fresh window without a settings file: the default categories, mode
        "category", subfolders and preview on. */
    constructor ()
      ensures categories == DefaultCategories && mode == "category"
      ensures createSubfolders && preview
      ensures sourceFolder == "" && fileList == [] && undoHistory == []
    {
      categories := DefaultCategories;
      mode := "category";
      createSubfolders := true;
      preview := true;
      sourceFolder := "";
      fileList := [];
      undoHistory := [];
    }

    /** `scan_folder` followed by `_scan_folder_thread`. An empty or missing
        folder is refused and the list kept; otherwise the list is cleared and
        refilled with one record per regular file the listing names. A folder
        that is a file makes `os.listdir` raise, leaving the list empty. */
    method ScanFolder(d: Disk, listing: seq<string>) returns (ok: bool)
      modifies this
      ensures ok <==> sourceFolder != "" && Exists(d, sourceFolder)
      ensures !ok ==> fileList == old(fileList)
      ensures ok && sourceFolder !in d.dirs ==> fileList == []
      ensures ok && sourceFolder in d.dirs ==> fileList == ProScan(d, sourceFolder, listing, mode, categories)
      ensures categories == old(categories) && mode == old(mode) && createSubfolders == old(createSubfolders)
      ensures preview == old(preview) && sourceFolder == old(sourceFolder) && undoHistory == old(undoHistory)
    {
      var folder := sourceFolder;
      if folder == "" || !Exists(d, folder) {
        return false;
      }
      fileList := [];
      if folder !in d.dirs {
        return true;
      }
      fileList := ScanRecords(d, folder, listing, mode, categories);
      return true;
    }

    /** `filter_files`: the records the list shows for the search box's text. */
    method FilterFiles(query: string) returns (shown: seq<Record>)
      ensures shown == FilterRecords(fileList, query)
    {
      var q := Lower(query);
      shown := [];
      for i := 0 to |fileList|
        invariant shown == FilterRecords(fileList[..i], query)
      {
        assert Init(fileList[..i + 1]) == fileList[..i] && Last(fileList[..i + 1]) == fileList[i];
        var fileInfo := fileList[i];
        if Contains(Lower(fileInfo.name), q) || Contains(Lower(fileInfo.ext), q) {
          shown := shown + [fileInfo];
        }
      }
      assert fileList[..|fileList|] == fileList;
    }

    /** `organize_files` and `_organize_files_thread`: nothing without a scan
        or without confirmation; otherwise the records are placed in turn until
        the first error, and a run that completed, was not a preview and moved
        something is pushed onto the undo history. */
    method OrganizeFiles(d: Disk, confirmed: bool) returns (disk: Disk, movedCount: nat, err: Option<FsError>)
      modifies this
      ensures old(fileList) == [] || !confirmed ==>
                disk == d && movedCount == 0 && err.None? && undoHistory == old(undoHistory)
      ensures old(fileList) != [] && confirmed ==>
                var s := ProRun(d, fileList, sourceFolder, createSubfolders, preview, false);
                disk == s.disk && movedCount == |s.log| && err == s.err
                && undoHistory == old(undoHistory) + (if s.err.None? && !preview && s.log != [] then [s.log] else [])
      ensures categories == old(categories) && mode == old(mode) && createSubfolders == old(createSubfolders)
      ensures preview == old(preview) && sourceFolder == old(sourceFolder) && fileList == old(fileList)
    {
      if fileList == [] || !confirmed {
        return d, 0, None;
      }
      var moveHistory;
      disk, moveHistory, err := PlaceAll(d, fileList, sourceFolder, createSubfolders, preview);
      movedCount := |moveHistory|;
      if err.None? && !preview && moveHistory != [] {
        undoHistory := undoHistory + [moveHistory];
      }
    }

    /** `undo_last_action`: nothing without history or confirmation; otherwise
        the last entry is popped first and its moves undone last first with
        `shutil.move`, stopping at the first error. The count reported is the
        length of the popped list. */
    method UndoLastAction(d: Disk, confirmed: bool) returns (disk: Disk, reported: nat, err: Option<FsError>)
      modifies this
      ensures old(undoHistory) == [] || !confirmed ==>
                disk == d && reported == 0 && err.None? && undoHistory == old(undoHistory)
      ensures old(undoHistory) != [] && confirmed ==>
                var moves := Last(old(undoHistory));
                undoHistory == Init(old(undoHistory))
                && (disk, err) == Undo(ShutilMoveBack, d, moves)
                && reported == (if err.None? then |moves| else 0)
      ensures categories == old(categories) && mode == old(mode) && createSubfolders == old(createSubfolders)
      ensures preview == old(preview) && sourceFolder == old(sourceFolder) && fileList == old(fileList)
    {
      if undoHistory == [] || !confirmed {
        return d, 0, None;
      }
      var lastAction := undoHistory[|undoHistory| - 1];
      undoHistory := undoHistory[..|undoHistory| - 1];
      disk, err := UndoMoves(ShutilMoveBack, d, lastAction);
      reported := if err.None? then |lastAction| else 0;
    }

    /** `update_statistics`: nothing without a scan; otherwise the number of
        files, their total size, and the per-destination rows sorted by count. */
    method UpdateStatistics() returns (shown: bool, totalFiles: nat, totalSize: nat, rows: seq<CategoryStat>)
      ensures shown <==> fileList != []
      ensures shown ==> totalFiles == |fileList| && totalSize == Total(fileList, true)
                        && rows == SortedBreakdown(fileList)
      ensures !shown ==> totalFiles == 0 && totalSize == 0 && rows == []
    {
      if fileList == [] {
        return false, 0, 0, [];
      }
      var items;
      totalSize, items := Tabulate(fileList);
      return true, |fileList|, totalSize, SortByCount(items);
    }

    /** `preview_rename`: each old name beside its new one, numbering from 1. */
    method PreviewRename(opts: RenameOptions) returns (pairs: seq<(string, string)>)
      ensures pairs == Previews(fileList, opts)
    {
      var files := fileList;
      pairs := [];
      for i := 0 to |files|
        invariant |pairs| == i
        invariant forall k :: 0 <= k < i ==> pairs[k] == Previews(files, opts)[k]
      {
        var oldName := files[i].name;
        var newName := NewName(oldName, opts, i + 1);
        pairs := pairs + [(oldName, newName)];
      }
    }

    /** `apply_rename`: nothing without a scan or confirmation; otherwise each
        file whose new path differs and is free is renamed and its record
        updated, until `os.rename` raises. */
    method ApplyRename(d: Disk, opts: RenameOptions, confirmed: bool) returns (disk: Disk, renamedCount: nat, err: Option<FsError>)
      modifies this
      ensures old(fileList) == [] || !confirmed ==>
                disk == d && renamedCount == 0 && err.None? && fileList == old(fileList)
      ensures old(fileList) != [] && confirmed ==>
                var s := RenameRun(d, old(fileList), NewNames(old(fileList), opts));
                disk == s.disk && fileList == s.records && renamedCount == |s.log| && err == s.err
      ensures categories == old(categories) && mode == old(mode) && createSubfolders == old(createSubfolders)
      ensures preview == old(preview) && sourceFolder == old(sourceFolder) && undoHistory == old(undoHistory)
    {
      disk, renamedCount, err := d, 0, None;
      if fileList == [] || !confirmed {
        return;
      }
      disk, fileList, renamedCount, err := RenameFiles(d, fileList, opts);
    }
  }

  /** The loop of `_scan_folder_thread` over the listed regular files. */
  method ScanRecords(d: Disk, folder: Path, listing: seq<string>, mode: string, table: Table) returns (records: seq<Record>)
    ensures records == ProScan(d, folder, listing, mode, table)
  {
    var files := ListedFiles(d, folder, listing);
    records := [];
    for i := 0 to |files|
      invariant records == ProScan(d, folder, listing, mode, table)[..i]
    {
      PrefixStep(ProScan(d, folder, listing, mode, table), i);
      var fileInfo := ProRecord(d, folder, files[i], mode, table);
      records := records + [fileInfo];
    }
    assert ProScan(d, folder, listing, mode, table)[..|files|] == ProScan(d, folder, listing, mode, table);
  }

  /** The loop of `apply_rename`: each record's file is renamed when its new
      path differs and is free, and the record updated; `os.rename` raising
      ends the loop with the later records untouched. */
  method RenameFiles(d: Disk, records: seq<Record>, opts: RenameOptions)
    returns (disk: Disk, fileList: seq<Record>, renamedCount: nat, err: Option<FsError>)
    ensures var s := RenameRun(d, records, NewNames(records, opts));
            disk == s.disk && fileList == s.records && renamedCount == |s.log| && err == s.err
  {
    ghost var names := NewNames(records, opts);
    disk, renamedCount, err := d, 0, None;
    var done: seq<Record> := [];
    ghost var log: seq<Move> := [];
    var i := 0;
    while i < |records| && err.None?
      invariant 0 <= i <= |records|
      invariant RenameRun(d, records[..i], names[..i]) == RenameState(disk, done, log, err)
      invariant renamedCount == |log|
    {
      disk, done, log, renamedCount, err := RenameNext(d, records, opts, i, disk, done, log, renamedCount);
      i := i + 1;
    }
    fileList := done + records[i..];
    if i < |records| {
      RenameRunAfterError(d, records, names, i);
    } else {
      assert records[..i] == records && names[..i] == names && fileList == done;
    }
  }

  /** The body of `apply_rename`'s loop for the record at index `i`, which is
      numbered `i + 1`. */
  method RenameNext(ghost d: Disk, records: seq<Record>, opts: RenameOptions, i: nat,
                    disk: Disk, done: seq<Record>, ghost log: seq<Move>, renamedCount: nat)
    returns (disk': Disk, done': seq<Record>, ghost log': seq<Move>, renamedCount': nat, err: Option<FsError>)
    requires i < |records|
    requires RenameRun(d, records[..i], NewNames(records, opts)[..i]) == RenameState(disk, done, log, None)
    requires renamedCount == |log|
    ensures RenameRun(d, records[..i + 1], NewNames(records, opts)[..i + 1]) == RenameState(disk', done', log', err)
    ensures renamedCount' == |log'|
  {
    RenameRunSnoc(d, records, NewNames(records, opts), i);
    var newName := NewName(records[i].name, opts, i + 1);
    var newInfo, renamed;
    disk', newInfo, renamed, err := RenameOne(RenameState(disk, done, log, None), disk, records[i], newName);
    log', renamedCount' := log, renamedCount;
    if renamed {
      log' := log + [Move(records[i].path, newInfo.path)];
      renamedCount' := renamedCount + 1;
    }
    done' := done + [newInfo];
  }

  /** One iteration of `apply_rename`'s loop: the record as it ends up,
      whether its file was renamed, and the error `os.rename` raised. */
  method RenameOne(ghost s: RenameState, disk: Disk, fileInfo: Record, newName: string)
    returns (disk': Disk, newInfo: Record, renamed: bool, err: Option<FsError>)
    requires s.disk == disk
    ensures RenameStep(s, fileInfo, newName)
            == RenameState(disk', s.records + [newInfo], if renamed then s.log + [Move(fileInfo.path, newInfo.path)] else s.log, err)
  {
    disk', newInfo, renamed, err := disk, fileInfo, false, None;
    var oldPath := fileInfo.path;
    var newPath := Join(Dirname(oldPath), newName);
    if oldPath != newPath && !Exists(disk, newPath) {
      var result := OsRename(disk, oldPath, newPath);
      if result.Err? {
        err := Some(result.error);
      } else {
        disk' := result.value;
        newInfo := fileInfo.(name := newName, path := newPath);
        renamed := true;
      }
    }
  }

  /** The two loops of `update_statistics`: the total size, and one row per
      destination in first-appearance order with its count and size. */
  method Tabulate(records: seq<Record>) returns (totalSize: nat, items: seq<CategoryStat>)
    ensures totalSize == Total(records, true)
    ensures items == Breakdown(records)
  {
    var order, categoryCounts, categorySizes;
    totalSize, order, categoryCounts, categorySizes := CountDestinations(records);
    DictTallies(records, false);
    DictTallies(records, true);
    items := [];
    for j := 0 to |order|
      invariant items == Rows(order[..j], records)
    {
      assert Init(order[..j + 1]) == order[..j] && Last(order[..j + 1]) == order[j];
      items := items + [CategoryStat(order[j], categoryCounts[order[j]], categorySizes[order[j]])];
    }
    assert order[..|order|] == order;
  }

  /** The first loop of `update_statistics`: the total size, and the
      `defaultdict`s of counts and sizes per destination with their keys in
      insertion order. */
  method CountDestinations(records: seq<Record>)
    returns (totalSize: nat, order: seq<string>, categoryCounts: map<string, nat>, categorySizes: map<string, nat>)
    ensures totalSize == Total(records, true)
    ensures order == Categories(records)
    ensures categoryCounts == Dict(records, false) && categorySizes == Dict(records, true)
  {
    totalSize, order, categoryCounts, categorySizes := 0, [], map[], map[];
    for i := 0 to |records|
      invariant totalSize == Total(records[..i], true)
      invariant order == Categories(records[..i])
      invariant categoryCounts == Dict(records[..i], false) && categorySizes == Dict(records[..i], true)
    {
      assert records[..i + 1] == records[..i] + [records[i]];
      totalSize, order, categoryCounts, categorySizes :=
        CountOne(records[..i], totalSize, order, categoryCounts, categorySizes, records[i]);
    }
    assert records[..|records|] == records;
  }

  /** One iteration of the first loop of `update_statistics`. */
  method CountOne(ghost pre: seq<Record>, totalSize: nat, order: seq<string>,
                  categoryCounts: map<string, nat>, categorySizes: map<string, nat>, fileInfo: Record)
    returns (totalSize': nat, order': seq<string>, categoryCounts': map<string, nat>, categorySizes': map<string, nat>)
    requires totalSize == Total(pre, true) && order == Categories(pre)
    requires categoryCounts == Dict(pre, false) && categorySizes == Dict(pre, true)
    ensures totalSize' == Total(pre + [fileInfo], true) && order' == Categories(pre + [fileInfo])
    ensures categoryCounts' == Dict(pre + [fileInfo], false) && categorySizes' == Dict(pre + [fileInfo], true)
  {
    var dest := fileInfo.destination;
    totalSize' := totalSize + fileInfo.size;
    order' := order;
    if dest !in categoryCounts {
      order' := order + [dest];
    }
    categoryCounts' := categoryCounts[dest := (if dest in categoryCounts then categoryCounts[dest] else 0) + 1];
    categorySizes' := categorySizes[dest := (if dest in categorySizes then categorySizes[dest] else 0) + fileInfo.size];
    assert totalSize' == Total(pre + [fileInfo], true) && order' == Categories(pre + [fileInfo]) by {
      DictTallies(pre, false);
      OrderSnoc(pre, fileInfo);
    }
    assert categoryCounts' == Dict(pre + [fileInfo], false) by {
      assert categoryCounts' == DictAdd(categoryCounts, fileInfo, false);
      DictSnoc(pre, fileInfo, false);
    }
    assert categorySizes' == Dict(pre + [fileInfo], true) by {
      assert categorySizes' == DictAdd(categorySizes, fileInfo, true);
      DictSnoc(pre, fileInfo, true);
    }
  }
}
