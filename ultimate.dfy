/** The Ultimate organizer's window state and the operations its buttons run:
    load a template, scan, find duplicates, organize and undo. Moving and
    hashing go through the shared core (`safe_move`, `find_duplicates`); the
    hash function and the disk are passed in, the changed disk handed back. */
module Ultimate {
  import opened Basics
  import opened Paths
  import opened Disks
  import opened Hashing
  import opened UndoLog
  import opened Classifier
  import opened Records
  import opened Organize
  import opened Duplicates

  class Organizer {
    var sourceFolder: Path
    var categories: Table
    var fileList: seq<Entry>
    /** Each entry is the move list of one organize run. */
    var undoHistory: seq<seq<Move>>

    /** A fresh window: the default categories, no folder, no scan, no history. */
    constructor ()
      ensures sourceFolder == "" && categories == UltimateCategories
      ensures fileList == [] && undoHistory == []
    {
      sourceFolder := "";
      categories := UltimateCategories;
      fileList := [];
      undoHistory := [];
    }

    /** `load_template(name)`: the categories become the named template's.
        A name that is not a template makes `TEMPLATES[name]` raise, and the
        categories stay as they were. */
    method LoadTemplate(name: string) returns (ok: bool)
      modifies this
      ensures ok <==> exists i :: 0 <= i < |Templates| && Templates[i].0 == name
      ensures ok ==> categories == LookupTemplate(Templates, name).value
      ensures !ok ==> categories == old(categories)
      ensures sourceFolder == old(sourceFolder) && fileList == old(fileList) && undoHistory == old(undoHistory)
    {
      var t := LookupTemplate(Templates, name);
      if t.None? {
        return false;
      }
      categories := t.value;
      return true;
    }

    /** `scan_folder` followed by `_scan_thread`. An empty or missing folder is
        refused and the list kept; otherwise the list is refilled with one entry
        per regular file the listing names, and the number of files and their
        total size are reported. A folder that is a file makes `os.listdir`
        raise after the list was cleared, and no totals are shown. */
    method ScanFolder(d: Disk, listing: seq<string>) returns (ok: bool, total: nat, totalBytes: nat)
      modifies this
      ensures ok <==> sourceFolder != "" && Exists(d, sourceFolder)
      ensures !ok ==> fileList == old(fileList)
      ensures ok && sourceFolder !in d.dirs ==> fileList == []
      ensures ok && sourceFolder in d.dirs ==>
                fileList == UltimateScan(d, sourceFolder, listing, categories)
                && total == |fileList| && totalBytes == TotalBytes(fileList)
      ensures !(ok && sourceFolder in d.dirs) ==> total == 0 && totalBytes == 0
      ensures sourceFolder == old(sourceFolder) && categories == old(categories) && undoHistory == old(undoHistory)
    {
      var folder := sourceFolder;
      if folder == "" || !Exists(d, folder) {
        return false, 0, 0;
      }
      fileList := [];
      if folder !in d.dirs {
        return true, 0, 0;
      }
      var entries;
      entries, totalBytes := ScanEntries(d, folder, listing, categories);
      fileList := entries;
      total := |entries|;
      ok := true;
    }

    /** `find_duplicates` and `_dup_thread`: nothing without a scan; otherwise
        the duplicate groups of the scanned paths and the count shown, the
        number of files that repeat the content of an earlier one. */
    method FindDuplicates<S>(md5: Md5<S>, d: Disk) returns (ran: bool, count: int, groups: seq<Group>)
      ensures ran <==> fileList != []
      ensures ran ==> groups == DuplicateGroups(md5, d, EntryPaths(fileList))
                      && count == Repeats(md5, d, EntryPaths(fileList))
      ensures !ran ==> count == 0 && groups == []
    {
      if fileList == [] {
        return false, 0, [];
      }
      var paths := EntryPaths(fileList);
      var progress;
      groups, progress := Duplicates.FindDuplicates(md5, d, paths);
      count := CountDuplicates(groups);
      DuplicateCountIsRepeats(md5, d, paths);
      ran := true;
    }

    /** `organize_files` and `_org_thread`: nothing without a scan or without
        confirmation; otherwise every entry is passed to `safe_move`, errors
        are skipped, and a run that moved something is pushed onto the undo
        history. */
    method OrganizeFiles(d: Disk, confirmed: bool) returns (disk: Disk, movedCount: nat)
      modifies this
      ensures old(fileList) == [] || !confirmed ==>
                disk == d && movedCount == 0 && undoHistory == old(undoHistory)
      ensures old(fileList) != [] && confirmed ==>
                var s := UltimateRun(d, fileList, sourceFolder, false);
                disk == s.disk && movedCount == |s.log|
                && undoHistory == old(undoHistory) + (if s.log != [] then [s.log] else [])
      ensures sourceFolder == old(sourceFolder) && categories == old(categories) && fileList == old(fileList)
    {
      if fileList == [] || !confirmed {
        return d, 0;
      }
      var moves;
      disk, moves := SafeMoveAll(d, fileList, sourceFolder);
      if moves != [] {
        undoHistory := undoHistory + [moves];
      }
      movedCount := |moves|;
    }

    /** `undo_last`: nothing without history; otherwise the last entry is
        popped and its moves undone last first, recreating each source's folder
        and renaming the file back, until `os.rename` raises. The count
        reported is the length of the popped list. */
    method UndoLast(d: Disk) returns (disk: Disk, reported: nat, err: Option<FsError>)
      modifies this
      ensures old(undoHistory) == [] ==> disk == d && reported == 0 && err.None? && undoHistory == []
      ensures old(undoHistory) != [] ==>
                var moves := Last(old(undoHistory));
                undoHistory == Init(old(undoHistory))
                && (disk, err) == Undo(RecreateAndRename, d, moves)
                && reported == (if err.None? then |moves| else 0)
      ensures sourceFolder == old(sourceFolder) && categories == old(categories) && fileList == old(fileList)
    {
      if undoHistory == [] {
        return d, 0, None;
      }
      var moves := undoHistory[|undoHistory| - 1];
      undoHistory := undoHistory[..|undoHistory| - 1];
      disk, err := UndoMoves(RecreateAndRename, d, moves);
      reported := if err.None? then |moves| else 0;
    }
  }

  /** `[f['path'] for f in self.file_list]`. */
  function EntryPaths(es: seq<Entry>): (ps: seq<Path>)
    ensures |ps| == |es|
    ensures forall p :: p in ps <==> exists i :: 0 <= i < |es| && es[i].path == p
  {
    var ps := seq(|es|, i requires 0 <= i < |es| => es[i].path);
    assert forall i :: 0 <= i < |es| ==> ps[i] == es[i].path;
    ps
  }

  /** The shipped template names are distinct, so every template is found by
      its name and gives its own table. */
  lemma TemplatesFound()
    ensures DistinctNames(Templates)
    ensures forall k :: 0 <= k < |Templates| ==> LookupTemplate(Templates, Templates[k].0) == Some(Templates[k].1)
    ensures LookupTemplate(Templates, "Developer") == Some(DeveloperTemplate)
    ensures LookupTemplate(Templates, "Photographer") == Some(PhotographerTemplate)
    ensures LookupTemplate(Templates, "Student") == Some(StudentTemplate)
  {
    forall k | 0 <= k < |Templates|
      ensures LookupTemplate(Templates, Templates[k].0) == Some(Templates[k].1)
    {
      LookupFindsEntry(Templates, k);
    }
    assert Templates[0] == ("Developer", DeveloperTemplate);
    assert Templates[1] == ("Photographer", PhotographerTemplate);
    assert Templates[2] == ("Student", StudentTemplate);
  }

  /** The loop of `_scan_thread`: one entry per listed regular file and the
      running total of their sizes. */
  method ScanEntries(d: Disk, folder: Path, listing: seq<string>, table: Table)
    returns (entries: seq<Entry>, totalBytes: nat)
    ensures entries == UltimateScan(d, folder, listing, table)
    ensures totalBytes == TotalBytes(entries)
  {
    var files := ListedFiles(d, folder, listing);
    entries, totalBytes := [], 0;
    for i := 0 to |files|
      invariant entries == UltimateScan(d, folder, listing, table)[..i]
      invariant totalBytes == TotalBytes(entries)
    {
      PrefixStep(UltimateScan(d, folder, listing, table), i);
      var info := UltimateEntry(d, folder, files[i], table);
      TotalBytesSnoc(entries, info);
      entries := entries + [info];
      totalBytes := totalBytes + info.size;
    }
    assert UltimateScan(d, folder, listing, table)[..|files|] == UltimateScan(d, folder, listing, table);
  }

  lemma TotalBytesSnoc(es: seq<Entry>, e: Entry)
    ensures TotalBytes(es + [e]) == TotalBytes(es) + e.size
  {
    InitSnoc(es, e);
  }

  /** `sum(len(v) - 1 for v in dups.values())`. */
  method CountDuplicates(groups: seq<Group>) returns (count: int)
    ensures count == DuplicateCount(groups)
  {
    count := 0;
    for j := 0 to |groups|
      invariant count == DuplicateCount(groups[..j])
    {
      PrefixStep(groups, j);
      DuplicateCountSnoc(groups[..j], groups[j]);
      count := count + |groups[j].paths| - 1;
    }
    assert groups[..|groups|] == groups;
  }
}
