/** What a scan records about each regular file of the chosen folder: the
    `file_info` dictionaries of the Pro and basic organizers and the `info`
    dictionaries of the Ultimate organizer. The directory listing is an input:
    `os.listdir` returns names in an order the operating system picks. */
module Records {
  import opened Basics
  import opened Format
  import opened Paths
  import opened Disks
  import opened Classifier

  /** A `file_info` of the Pro and basic organizers. */
  datatype Record = Record(name: string, path: Path, ext: string, size: nat, destination: string)

  /** An `info` of the Ultimate organizer. */
  datatype Entry = Entry(name: string, path: Path, size: nat, dest: string)

  /** `[f for f in os.listdir(folder) if os.path.isfile(os.path.join(folder, f))]`. */
  function ListedFiles(d: Disk, folder: Path, listing: seq<string>): (files: seq<string>)
    ensures |files| <= |listing|
    ensures forall i :: 0 <= i < |files| ==> IsFile(d, Join(folder, files[i]))
    decreases |listing|
  {
    if listing == [] then []
    else
      var rest := ListedFiles(d, folder, Init(listing));
      if IsFile(d, Join(folder, Last(listing))) then rest + [Last(listing)] else rest
  }

  /** The comprehension keeps exactly the listed names that are regular files. */
  lemma {:induction false} ListedFilesMembers(d: Disk, folder: Path, listing: seq<string>)
    ensures forall n :: n in ListedFiles(d, folder, listing) <==> n in listing && IsFile(d, Join(folder, n))
    decreases |listing|
  {
    if listing != [] {
      ListedFilesMembers(d, folder, Init(listing));
      InitLast(listing);
    }
  }

  /** The comprehension keeps listing order: it distributes over concatenation. */
  lemma {:induction false} ListedFilesAppend(d: Disk, folder: Path, a: seq<string>, b: seq<string>)
    ensures ListedFiles(d, folder, a + b) == ListedFiles(d, folder, a) + ListedFiles(d, folder, b)
    decreases |b|
  {
    if b == [] {
      assert a + b == a;
    } else {
      assert Init(a + b) == a + Init(b);
      assert Last(a + b) == Last(b);
      ListedFilesAppend(d, folder, a, Init(b));
    }
  }

  /** The Pro organizer's record for one listed file: the extension is the
      lowercased suffix and the destination is computed at once. */
  function ProRecord(d: Disk, folder: Path, name: string, mode: string, table: Table): (r: Record)
    requires IsFile(d, Join(folder, name))
    ensures r.name == name && Describes(d, folder, r) && !HasUpper(r.ext)
  {
    var path := Join(folder, name);
    var f := d.files[path];
    var ext := Lower(Suffix(name));
    Record(name, path, ext, |f.content|, ProDestination(mode, table, ext, |f.content|, f.year, f.month))
  }

  /** The basic organizer's record: the same fields, with its own mode switch. */
  function BasicRecord(d: Disk, folder: Path, name: string, mode: string, table: Table): (r: Record)
    requires IsFile(d, Join(folder, name))
    ensures r.name == name && Describes(d, folder, r) && !HasUpper(r.ext)
  {
    var path := Join(folder, name);
    var f := d.files[path];
    var ext := Lower(Suffix(name));
    Record(name, path, ext, |f.content|, BasicDestination(mode, table, ext, f.year, f.month))
  }

  /** The Ultimate organizer's entry: the destination is `get_destination`. */
  function UltimateEntry(d: Disk, folder: Path, name: string, table: Table): (e: Entry)
    requires IsFile(d, Join(folder, name))
    ensures e.name == name && e.path == Join(folder, name) && e.size == |d.files[e.path].content|
    ensures e.dest == "Others" || exists i :: 0 <= i < |table| && table[i].category == e.dest
  {
    var path := Join(folder, name);
    Entry(name, path, |d.files[path].content|, GetDestination(name, table))
  }

  /** A record describes the file it was made from. */
  predicate Describes(d: Disk, folder: Path, r: Record) {
    r.path == Join(folder, r.name) && IsFile(d, r.path)
    && r.size == |d.files[r.path].content| && r.ext == Lower(Suffix(r.name))
  }

  /** The records a complete Pro scan builds: one per listed regular file, in
      listing order. */
  function ProScan(d: Disk, folder: Path, listing: seq<string>, mode: string, table: Table): (rs: seq<Record>)
    ensures |rs| == |ListedFiles(d, folder, listing)| <= |listing|
    ensures forall i :: 0 <= i < |rs| ==> rs[i].name == ListedFiles(d, folder, listing)[i]
  {
    var files := ListedFiles(d, folder, listing);
    seq(|files|, i requires 0 <= i < |files| => ProRecord(d, folder, files[i], mode, table))
  }

  /** The records a complete basic scan builds. */
  function BasicScan(d: Disk, folder: Path, listing: seq<string>, mode: string, table: Table): (rs: seq<Record>)
    ensures |rs| == |ListedFiles(d, folder, listing)| <= |listing|
    ensures forall i :: 0 <= i < |rs| ==> rs[i].name == ListedFiles(d, folder, listing)[i]
  {
    var files := ListedFiles(d, folder, listing);
    seq(|files|, i requires 0 <= i < |files| => BasicRecord(d, folder, files[i], mode, table))
  }

  /** The entries a complete Ultimate scan builds. */
  function UltimateScan(d: Disk, folder: Path, listing: seq<string>, table: Table): (es: seq<Entry>)
    ensures |es| == |ListedFiles(d, folder, listing)| <= |listing|
    ensures forall i :: 0 <= i < |es| ==> es[i].name == ListedFiles(d, folder, listing)[i]
  {
    var files := ListedFiles(d, folder, listing);
    seq(|files|, i requires 0 <= i < |files| => UltimateEntry(d, folder, files[i], table))
  }

  /** A Pro scan has one record per regular file the listing names, in
      listing order, each describing its file with a lowercased extension and
      the destination `_get_destination_folder` picks for it. */
  lemma ProScanFacts(d: Disk, folder: Path, listing: seq<string>, mode: string, table: Table)
    ensures var rs := ProScan(d, folder, listing, mode, table);
            var files := ListedFiles(d, folder, listing);
            |rs| == |files|
            && (forall i :: 0 <= i < |rs| ==> rs[i].name == files[i])
            && forall i :: 0 <= i < |rs| ==>
                 Describes(d, folder, rs[i]) && !HasUpper(rs[i].ext) &&
                 rs[i].destination == ProDestination(mode, table, rs[i].ext, rs[i].size,
                                                     d.files[rs[i].path].year, d.files[rs[i].path].month)
  {
    var rs := ProScan(d, folder, listing, mode, table);
    var files := ListedFiles(d, folder, listing);
    forall i | 0 <= i < |rs|
      ensures Describes(d, folder, rs[i]) && !HasUpper(rs[i].ext)
    {
      assert files[i] in files;
    }
  }

  /** A basic scan has one record per regular file the listing names, with the
      destination `_get_category_folder` or `_get_date_folder` picks. */
  lemma BasicScanFacts(d: Disk, folder: Path, listing: seq<string>, mode: string, table: Table)
    ensures var rs := BasicScan(d, folder, listing, mode, table);
            var files := ListedFiles(d, folder, listing);
            |rs| == |files|
            && (forall i :: 0 <= i < |rs| ==> rs[i].name == files[i])
            && forall i :: 0 <= i < |rs| ==>
                 Describes(d, folder, rs[i]) && !HasUpper(rs[i].ext) &&
                 rs[i].destination == BasicDestination(mode, table, rs[i].ext,
                                                       d.files[rs[i].path].year, d.files[rs[i].path].month)
  {
    var rs := BasicScan(d, folder, listing, mode, table);
    var files := ListedFiles(d, folder, listing);
    forall i | 0 <= i < |rs|
      ensures Describes(d, folder, rs[i]) && !HasUpper(rs[i].ext)
    {
      assert files[i] in files;
    }
  }

  /** An Ultimate scan has one entry per regular file the listing names, with
      its size and the destination `get_destination` picks. */
  lemma UltimateScanFacts(d: Disk, folder: Path, listing: seq<string>, table: Table)
    ensures var es := UltimateScan(d, folder, listing, table);
            var files := ListedFiles(d, folder, listing);
            |es| == |files|
            && forall i :: 0 <= i < |es| ==>
                 var e := es[i];
                 e.name == files[i] && e.path == Join(folder, e.name)
                 && IsFile(d, e.path) && e.size == |d.files[e.path].content|
                 && e.dest == GetDestination(e.name, table)
  {
    var files := ListedFiles(d, folder, listing);
    assert forall i :: 0 <= i < |files| ==> files[i] in files;
  }

  /** The sum of the entries' sizes. */
  function TotalBytes(es: seq<Entry>): (t: nat)
    ensures forall i :: 0 <= i < |es| ==> es[i].size <= t
    decreases |es|
  {
    if es == [] then 0
    else
      assert forall i :: 0 <= i < |es| - 1 ==> es[i] == Init(es)[i];
      TotalBytes(Init(es)) + Last(es).size
  }
}
