/** The basic organizer's window state and the two operations its buttons run:
    scan and organize. It keeps no undo history. The disk is passed in and the
    changed disk handed back; the confirmation the user is asked for is a
    parameter. */
module Basic {
  import opened Basics
  import opened Paths
  import opened Disks
  import opened Classifier
  import opened Records
  import opened Organize

  class Organizer {
    var categories: Table
    /** "category" or "date". */
    var mode: string
    var createSubfolders: bool
    var preview: bool
    var sourceFolder: Path
    var fileList: seq<Record>

    /** A fresh window without a settings file: the default categories, mode
        "category", subfolders and preview on. */
    constructor ()
      ensures categories == DefaultCategories && mode == "category"
      ensures createSubfolders && preview
      ensures sourceFolder == "" && fileList == []
    {
      categories := DefaultCategories;
      mode := "category";
      createSubfolders := true;
      preview := true;
      sourceFolder := "";
      fileList := [];
    }

    /** `scan_folder` followed by `_scan_folder_thread`. An empty or missing
        folder is refused and the list kept; otherwise the list is cleared and
        refilled with one record per regular file the listing names, its
        destination the category in category mode and the month otherwise. A
        folder that is a file makes `os.listdir` raise, leaving the list empty. */
    method ScanFolder(d: Disk, listing: seq<string>) returns (ok: bool)
      modifies this
      ensures ok <==> sourceFolder != "" && Exists(d, sourceFolder)
      ensures !ok ==> fileList == old(fileList)
      ensures ok && sourceFolder !in d.dirs ==> fileList == []
      ensures ok && sourceFolder in d.dirs ==> fileList == BasicScan(d, sourceFolder, listing, mode, categories)
      ensures categories == old(categories) && mode == old(mode) && createSubfolders == old(createSubfolders)
      ensures preview == old(preview) && sourceFolder == old(sourceFolder)
    {
      var folder := sourceFolder;
      if folder == "" || !Exists(d, folder) {
        return false;
      }
      fileList := [];
      if folder !in d.dirs {
        return true;
      }
      fileList := ScanRecords(d, folder, listing, mode, categories);
      return true;
    }

    /** `organize_files` and `_organize_files_thread`: nothing without a scan
        or without confirmation; otherwise the records are placed in turn, in
        the same way as the Pro organizer places them, until the first error.
        The count is the number of files moved. */
    method OrganizeFiles(d: Disk, confirmed: bool) returns (disk: Disk, movedCount: nat, err: Option<FsError>)
      ensures fileList == [] || !confirmed ==> disk == d && movedCount == 0 && err.None?
      ensures fileList != [] && confirmed ==>
                var s := ProRun(d, fileList, sourceFolder, createSubfolders, preview, false);
                disk == s.disk && movedCount == |s.log| && err == s.err
    {
      if fileList == [] || !confirmed {
        return d, 0, None;
      }
      var moves;
      disk, moves, err := PlaceAll(d, fileList, sourceFolder, createSubfolders, preview);
      movedCount := |moves|;
    }
  }

  /** The loop of `_scan_folder_thread` over the listed regular files. */
  method ScanRecords(d: Disk, folder: Path, listing: seq<string>, mode: string, table: Table) returns (records: seq<Record>)
    ensures records == BasicScan(d, folder, listing, mode, table)
  {
    var files := ListedFiles(d, folder, listing);
    records := [];
    for i := 0 to |files|
      invariant records == BasicScan(d, folder, listing, mode, table)[..i]
    {
      PrefixStep(BasicScan(d, folder, listing, mode, table), i);
      var fileInfo := BasicRecord(d, folder, files[i], mode, table);
      records := records + [fileInfo];
    }
    assert BasicScan(d, folder, listing, mode, table)[..|files|] == BasicScan(d, folder, listing, mode, table);
  }
}
