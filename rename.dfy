/** The Pro organizer's batch rename: the new name `preview_rename` shows and
    `apply_rename` gives each scanned file, and the run of `apply_rename` over
    the file list. */
module Rename {
  import opened Basics
  import opened Format
  import opened Paths
  import opened Disks
  import opened UndoLog
  import opened Records

  /** The rename tab's fields. */
  datatype RenameOptions = RenameOptions(prefix: string, suffix: string, find: string, replace: string,
                                         addNumbers: bool)

  /** The new base: replace every occurrence of a non-empty `find`, wrap in the
      prefix and suffix, then append `_` and the 1-based position as three or
      more digits (`f"{new_base}_{i:03d}"`). */
  function NewBase(base: string, opts: RenameOptions, i: nat): (b: string)
    ensures |opts.prefix| <= |b| && b[..|opts.prefix|] == opts.prefix
    ensures opts.find == "" ==> |opts.prefix| + |base| <= |b| && b[|opts.prefix|..|opts.prefix| + |base|] == base
    ensures !opts.addNumbers ==> |opts.suffix| <= |b| && b[|b| - |opts.suffix|..] == opts.suffix
    ensures opts.addNumbers ==> |opts.prefix| + |opts.suffix| + 4 <= |b|
    ensures opts.addNumbers ==>
              var tail := "_" + PadNumber(i, 3);
              |opts.prefix| + |opts.suffix| + |tail| <= |b|
              && b[|b| - |tail|..] == tail
              && b[|b| - |tail| - |opts.suffix|..|b| - |tail|] == opts.suffix
  {
    var replaced := if opts.find != "" then ReplaceAll(base, opts.find, opts.replace) else base;
    var wrapped := opts.prefix + replaced + opts.suffix;
    assert wrapped[..|opts.prefix|] == opts.prefix;
    assert wrapped[|opts.prefix|..|opts.prefix| + |replaced|] == replaced;
    if opts.addNumbers then
      var tail := "_" + PadNumber(i, 3);
      var b := wrapped + tail;
      assert b[..|wrapped|] == wrapped && b[|wrapped|..] == tail;
      assert b[|b| - |tail| - |opts.suffix|..|b| - |tail|] == wrapped[|wrapped| - |opts.suffix|..];
      b
    else wrapped
  }

  /** The new name of the `i`-th file: the new base followed by the old name's
      extension as `os.path.splitext` splits it. */
  function NewName(name: string, opts: RenameOptions, i: nat): (n: string)
    ensures |opts.prefix| <= |n| && n[..|opts.prefix|] == opts.prefix
  {
    var (base, ext) := SplitExt(name);
    var b := NewBase(base, opts, i);
    assert (b + ext)[..|b|] == b;
    b + ext
  }

  /** Whatever the options, the new name ends with the old name's extension. */
  lemma NewNameKeepsExtension(name: string, opts: RenameOptions, i: nat)
    ensures var n := NewName(name, opts, i);
            var ext := SplitExt(name).1;
            |ext| <= |n| && n[|n| - |ext|..] == ext
  {
    var (base, ext) := SplitExt(name);
    var b := NewBase(base, opts, i);
    assert (b + ext)[|b|..] == ext;
  }

  /** Options that add nothing and replace nothing, or replace a text by itself,
      leave every name as it is. */
  lemma NeutralOptionsKeepName(name: string, opts: RenameOptions, i: nat)
    requires opts.prefix == "" && opts.suffix == "" && !opts.addNumbers
    requires opts.find == "" || opts.find == opts.replace || !Contains(SplitExt(name).0, opts.find)
    ensures NewName(name, opts, i) == name
  {
    var (base, ext) := SplitExt(name);
    if opts.find != "" {
      if opts.find == opts.replace {
        ReplaceBySelf(base, opts.find);
      } else {
        ReplaceAbsent(base, opts.find, opts.replace);
      }
    }
    assert "" + base + "" == base;
  }

  /** Appending an extension to a base that ends in something other than a dot
      or a slash is undone by `os.path.splitext`. */
  lemma SplitExtOfJoined(base: string, ext: string)
    requires ext != "" && ext[0] == '.' && '.' !in ext[1..] && '/' !in ext
    requires |base| > 0 && base[|base| - 1] != '.' && base[|base| - 1] != '/'
    ensures SplitExt(base + ext) == (base, ext)
  {
    var p := base + ext;
    assert p[|base|] == '.';
    forall j | |base| < j < |p|
      ensures p[j] != '.' && p[j] != '/'
    {
      assert p[j] == ext[j - |base|];
      assert ext[j - |base|] == ext[1..][j - |base| - 1];
    }
    assert LastIndexOf(p, '.') == |base|;
    assert LastIndexOf(p, '/') < |base| - 1;
    assert p[|base| - 1] != '.';
    assert HasExt(p);
    assert p[..|base|] == base && p[|base|..] == ext;
  }

  /** With numbering on, a name that had an extension keeps it: the new name
      splits into the new base and the old extension. */
  lemma NumberingKeepsExtension(name: string, opts: RenameOptions, i: nat)
    requires opts.addNumbers && SplitExt(name).1 != ""
    ensures var (base, ext) := SplitExt(name);
            SplitExt(NewName(name, opts, i)) == (NewBase(base, opts, i), ext)
  {
    var (base, ext) := SplitExt(name);
    var nb := NewBase(base, opts, i);
    var pad := PadNumber(i, 3);
    assert |pad| >= 3 && IsDigit(pad[|pad| - 1]);
    assert nb[|nb| - 1] == pad[|pad| - 1];
    SplitExtOfJoined(nb, ext);
  }

  /** The number a numbered name carries is its position in the list. */
  lemma NumberingRecordsPosition(name: string, opts: RenameOptions, i: nat)
    requires opts.addNumbers
    ensures var n := NewName(name, opts, i);
            var ext := SplitExt(name).1;
            var pad := PadNumber(i, 3);
            |n| >= |pad| + |ext| + 1
            && n[|n| - |ext| - |pad| - 1] == '_'
            && ParseDecimal(n[|n| - |ext| - |pad|..|n| - |ext|]) == i
  {
    var (base, ext) := SplitExt(name);
    var pad := PadNumber(i, 3);
    var tail := "_" + pad;
    var b := NewBase(base, opts, i);
    var n := NewName(name, opts, i);
    assert n == b + ext;
    assert b[|b| - |tail|..] == tail;
    assert n[|n| - |ext| - |pad| - 1] == b[|b| - |tail|] == tail[0];
    assert n[|n| - |ext| - |pad|..|n| - |ext|] == b[|b| - |pad|..] == tail[1..];
    PadNumberRoundTrip(i, 3);
  }

  /** The table `preview_rename` shows: each file's name beside its new name,
      numbering from 1 in file-list order. */
  function Previews(records: seq<Record>, opts: RenameOptions): (pairs: seq<(string, string)>)
    ensures |pairs| == |records|
    ensures forall k :: 0 <= k < |records| ==> pairs[k].0 == records[k].name
  {
    seq(|records|, k requires 0 <= k < |records| => (records[k].name, NewName(records[k].name, opts, k + 1)))
  }

  /** The new names `apply_rename` computes, numbering from 1. */
  function NewNames(records: seq<Record>, opts: RenameOptions): (names: seq<string>)
    ensures |names| == |records|
    ensures forall k :: 0 <= k < |records| ==> names[k] == Previews(records, opts)[k].1
  {
    seq(|records|, k requires 0 <= k < |records| => NewName(records[k].name, opts, k + 1))
  }

  // ---------------------------------------------------------------------------
  // the run of apply_rename

  /** The disk, the file list rebuilt so far, the renames performed and the
      error that ended the loop. */
  datatype RenameState = RenameState(disk: Disk, records: seq<Record>, log: seq<Move>, err: Option<FsError>)

  /** A record after its file was renamed: the new name and the path beside the old one. */
  function Renamed(r: Record, newName: string): (q: Record)
    ensures q.name == newName && q.ext == r.ext && q.size == r.size && q.destination == r.destination
  {
    r.(name := newName, path := Join(Dirname(r.path), newName))
  }

  /** A renamed file stays in its folder and carries the new name. */
  lemma RenamedStaysInFolder(r: Record, newName: string)
    requires '/' !in newName
    ensures Dirname(Renamed(r, newName).path) == Dirname(r.path)
    ensures Basename(Renamed(r, newName).path) == newName
  {
    JoinSplits(Dirname(r.path), newName);
  }

  /** One iteration: rename unless the path would not change or is taken;
      `os.rename` refusing ends the loop. */
  function RenameStep(s: RenameState, r: Record, newName: string): (t: RenameState)
    ensures |t.records| == |s.records| + 1 && t.records[..|s.records|] == s.records
    ensures t.log == s.log || t.log == s.log + [Move(r.path, Renamed(r, newName).path)]
    ensures t.log != s.log ==> r.path != Renamed(r, newName).path && !Exists(s.disk, Renamed(r, newName).path)
    ensures t.err.Some? ==> t.disk == s.disk && t.log == s.log
  {
    var newPath := Renamed(r, newName).path;
    if r.path == newPath || Exists(s.disk, newPath) then RenameState(s.disk, s.records + [r], s.log, None)
    else
      match OsRename(s.disk, r.path, newPath)
      case Err(e) => RenameState(s.disk, s.records + [r], s.log, Some(e))
      case Ok(d1) => RenameState(d1, s.records + [Renamed(r, newName)], s.log + [Move(r.path, newPath)], None)
  }

  /** The loop of `apply_rename` over the file list, record `k` getting
      `names[k]`; after an error the remaining records stay as they were. */
  function RenameRun(d: Disk, records: seq<Record>, names: seq<string>): (s: RenameState)
    requires |names| == |records|
    ensures |s.records| == |records| && |s.log| <= |records|
    decreases |records|
  {
    if records == [] then RenameState(d, [], [], None)
    else
      var s := RenameRun(d, Init(records), Init(names));
      if s.err.Some? then s.(records := s.records + [Last(records)])
      else RenameStep(s, Last(records), Last(names))
  }

  /** The run over one more record is one more step. */
  lemma RenameRunSnoc(d: Disk, records: seq<Record>, names: seq<string>, i: nat)
    requires |names| == |records| && i < |records|
    requires RenameRun(d, records[..i], names[..i]).err.None?
    ensures RenameRun(d, records[..i + 1], names[..i + 1]) == RenameStep(RenameRun(d, records[..i], names[..i]), records[i], names[i])
  {
    assert Init(records[..i + 1]) == records[..i] && Last(records[..i + 1]) == records[i];
    assert Init(names[..i + 1]) == names[..i] && Last(names[..i + 1]) == names[i];
  }

  /** Once the loop has stopped with an error, the remaining records are kept
      as they are and nothing else changes. */
  lemma {:induction false} RenameRunAfterError(d: Disk, records: seq<Record>, names: seq<string>, k: nat)
    requires |names| == |records| && k <= |records|
    requires RenameRun(d, records[..k], names[..k]).err.Some?
    ensures var s := RenameRun(d, records[..k], names[..k]);
            RenameRun(d, records, names) == s.(records := s.records + records[k..])
    decreases |records|
  {
    var s := RenameRun(d, records[..k], names[..k]);
    if k == |records| {
      assert records[..k] == records && names[..k] == names && records[k..] == [];
      assert s.records + [] == s.records;
    } else {
      assert Init(records)[..k] == records[..k];
      assert Init(names)[..k] == names[..k];
      RenameRunAfterError(d, Init(records), Init(names), k);
      InitDrop(records, k);
    }
  }

  /** One iteration either keeps the record or renames its file to a free
      path beside it, logging exactly that rename; directories stay. */
  lemma RenameStepFacts(s: RenameState, r: Record, newName: string)
    ensures var t := RenameStep(s, r, newName);
            var m := Move(r.path, Renamed(r, newName).path);
            t.disk.dirs == s.disk.dirs && (Wf(s.disk) ==> Wf(t.disk))
            && (t.log == s.log ==> t.disk.files == s.disk.files && t.records == s.records + [r])
            && (t.log != s.log ==> t.log == s.log + [m] && m.from in s.disk.files && m.to !in s.disk.files
                                   && t.disk.files == MoveEntry(s.disk.files, m.from, m.to)
                                   && t.records == s.records + [Renamed(r, newName)])
            && (r.path != m.to && !Exists(s.disk, m.to) && OsRename(s.disk, r.path, m.to).Ok? ==>
                  t.log == s.log + [m] && t.err.None?)
            && (t.err.Some? <==> r.path != m.to && !Exists(s.disk, m.to) && OsRename(s.disk, r.path, m.to).Err?)
  {
  }

  /** No two records name the same file, as in a scanned file list. */
  predicate DistinctPaths(records: seq<Record>) {
    forall i, j :: 0 <= i < j < |records| ==> records[i].path != records[j].path
  }

  /** The last iteration of the run appends one record, logs at most the
      rename of that record's file, and changes the record exactly when it
      logs that rename. */
  lemma LastIteration(s: RenameState, r: Record, newName: string)
    ensures var t := if s.err.Some? then s.(records := s.records + [r]) else RenameStep(s, r, newName);
            var m := Move(r.path, Renamed(r, newName).path);
            |t.records| == |s.records| + 1 && t.records[..|s.records|] == s.records
            && (t.log == s.log || t.log == s.log + [m])
            && (t.records[|s.records|] == r || t.records[|s.records|] == Renamed(r, newName))
            && (t.records[|s.records|] != r <==> t.log != s.log)
  {
    if s.err.None? {
      RenameStepFacts(s, r, newName);
    }
  }

  /** A record before the last keeps its status: the last iteration neither
      changes it nor logs a rename of its file. */
  lemma EarlierKept(rk: Record, nk: string, before: Record, after: Record,
                    sLog: seq<Move>, tLog: seq<Move>, last: Move)
    requires last.from != rk.path
    requires tLog == sLog || tLog == sLog + [last]
    requires after == before
    requires before != rk <==> Move(rk.path, Renamed(rk, nk).path) in sLog
    ensures after != rk <==> Move(rk.path, Renamed(rk, nk).path) in tLog
  {
  }

  /** Dropping the last record keeps the paths distinct. */
  lemma DistinctInit(records: seq<Record>)
    requires records != [] && DistinctPaths(records)
    ensures DistinctPaths(Init(records))
    ensures forall k :: 0 <= k < |records| - 1 ==> records[k].path != Last(records).path
  {
    assert forall k :: 0 <= k < |records| - 1 ==> Init(records)[k] == records[k];
  }

  /** When the records name distinct files, record `k` comes out changed
      exactly when the run logged the rename of its file to its new name:
      the list is updated together with each `os.rename` and never without. */
  lemma {:induction false} RenameRunChanged(d: Disk, records: seq<Record>, names: seq<string>)
    requires |names| == |records|
    ensures var s := RenameRun(d, records, names);
            |s.records| == |records|
            && (DistinctPaths(records) ==>
                  forall k :: 0 <= k < |records| ==>
                    (s.records[k] != records[k] <==> Move(records[k].path, Renamed(records[k], names[k]).path) in s.log))
    decreases |records|
  {
    RenameRunRecords(d, records, names);
    if records != [] && DistinctPaths(records) {
      var pre, pnames, n, r := Init(records), Init(names), |records|, Last(records);
      var s := RenameRun(d, pre, pnames);
      DistinctInit(records);
      RenameRunChanged(d, pre, pnames);
      RenameRunLog(d, pre, pnames);
      LastIteration(s, r, Last(names));
      var t := RenameRun(d, records, names);
      var mr := Move(r.path, Renamed(r, Last(names)).path);
      assert mr !in s.log;
      forall k | 0 <= k < n
        ensures t.records[k] != records[k] <==> Move(records[k].path, Renamed(records[k], names[k]).path) in t.log
      {
        if k < n - 1 {
          assert records[k] == pre[k] && names[k] == pnames[k];
          assert t.records[k] == t.records[..n - 1][k];
          EarlierKept(records[k], names[k], s.records[k], t.records[k], s.log, t.log, mr);
        } else {
          assert records[k] == r && names[k] == Last(names);
        }
      }
    }
  }

  /** A rename run changes the disk only by the renames it logs. */
  lemma {:induction false} RenameRunDisk(d: Disk, records: seq<Record>, names: seq<string>)
    requires |names| == |records|
    ensures var s := RenameRun(d, records, names);
            Replay(d.files, s.log) == Some(s.disk.files) && s.disk.dirs == d.dirs && (Wf(d) ==> Wf(s.disk))
    decreases |records|
  {
    if records != [] {
      var s := RenameRun(d, Init(records), Init(names));
      RenameRunDisk(d, Init(records), Init(names));
      if s.err.None? {
        var r := Last(records);
        RenameStepFacts(s, r, Last(names));
        if RenameRun(d, records, names).log != s.log {
          ReplayAppend(d.files, s.log, s.disk.files, Move(r.path, Renamed(r, Last(names)).path));
        }
      }
    }
  }

  /** A rename run keeps every record or gives it its new name. */
  lemma {:induction false} RenameRunRecords(d: Disk, records: seq<Record>, names: seq<string>)
    requires |names| == |records|
    ensures var s := RenameRun(d, records, names);
            |s.records| == |records|
            && forall k :: 0 <= k < |records| ==>
                 s.records[k] == records[k] || s.records[k] == Renamed(records[k], names[k])
    decreases |records|
  {
    if records != [] {
      var s := RenameRun(d, Init(records), Init(names));
      RenameRunRecords(d, Init(records), Init(names));
      LastIteration(s, Last(records), Last(names));
      RecordsExtend(records, names, s.records, RenameRun(d, records, names).records);
    }
  }

  /** The per-record alternative survives one more iteration. */
  lemma RecordsExtend(records: seq<Record>, names: seq<string>, before: seq<Record>, after: seq<Record>)
    requires |names| == |records| > 0 && |before| == |records| - 1
    requires forall k :: 0 <= k < |before| ==>
               before[k] == Init(records)[k] || before[k] == Renamed(Init(records)[k], Init(names)[k])
    requires |after| == |records| && after[..|before|] == before
    requires after[|before|] == Last(records) || after[|before|] == Renamed(Last(records), Last(names))
    ensures forall k :: 0 <= k < |records| ==>
              after[k] == records[k] || after[k] == Renamed(records[k], names[k])
  {
    forall k | 0 <= k < |records|
      ensures after[k] == records[k] || after[k] == Renamed(records[k], names[k])
    {
      if k < |before| {
        assert after[k] == before[k] && records[k] == Init(records)[k] && names[k] == Init(names)[k];
      }
    }
  }

  /** Every logged rename is one record's, so the count is at most the list's length. */
  lemma {:induction false} RenameRunLog(d: Disk, records: seq<Record>, names: seq<string>)
    requires |names| == |records|
    ensures var s := RenameRun(d, records, names);
            |s.log| <= |records|
            && forall m :: m in s.log ==> exists k :: 0 <= k < |records| && m.from == records[k].path
                                                 && m.to == Renamed(records[k], names[k]).path
    decreases |records|
  {
    if records != [] {
      var pre := Init(records);
      var s := RenameRun(d, pre, Init(names));
      RenameRunLog(d, pre, Init(names));
      var n := |records|;
      if s.err.None? {
        RenameStepFacts(s, Last(records), Last(names));
      }
      var t := RenameRun(d, records, names);
      forall m | m in t.log
        ensures exists k :: 0 <= k < n && m.from == records[k].path
                            && m.to == Renamed(records[k], names[k]).path
      {
        if m in s.log {
          var k :| 0 <= k < n - 1 && m.from == pre[k].path && m.to == Renamed(pre[k], Init(names)[k]).path;
          assert records[k] == pre[k] && names[k] == Init(names)[k];
        } else {
          assert m.from == records[n - 1].path && m.to == Renamed(records[n - 1], names[n - 1]).path;
        }
      }
    }
  }

  /** What `apply_rename` guarantees: the log replays to the final files, so
      no rename overwrote anything and the number of files is unchanged;
      directories are untouched; the disk stays consistent; each record is
      either as it was or carries the new name of its position; and every
      logged rename (the count reported) is one record's. */
  lemma RenameRunFacts(d: Disk, records: seq<Record>, opts: RenameOptions)
    requires Wf(d)
    ensures var names := NewNames(records, opts);
            var s := RenameRun(d, records, names);
            Replay(d.files, s.log) == Some(s.disk.files)
            && |s.disk.files.Keys| == |d.files.Keys|
            && s.disk.dirs == d.dirs && Wf(s.disk)
            && |s.records| == |records|
            && (forall k :: 0 <= k < |records| ==>
                  s.records[k] == records[k] || s.records[k] == Renamed(records[k], names[k]))
            && |s.log| <= |records|
            && (forall m :: m in s.log ==> exists k :: 0 <= k < |records| && m.from == records[k].path
                                                  && m.to == Renamed(records[k], names[k]).path)
            && (DistinctPaths(records) ==>
                  forall k :: 0 <= k < |records| ==>
                    (s.records[k] != records[k] <==> Move(records[k].path, Renamed(records[k], names[k]).path) in s.log))
  {
    var names := NewNames(records, opts);
    RenameRunDisk(d, records, names);
    RenameRunRecords(d, records, names);
    RenameRunLog(d, records, names);
    RenameRunChanged(d, records, names);
    ReplayKeepsFileCount(d.files, RenameRun(d, records, names).log);
  }

  /** The preview tells the truth: a file `apply_rename` renames gets the
      new name shown beside it, and a file it leaves keeps its old name. */
  lemma PreviewShowsRename(d: Disk, records: seq<Record>, opts: RenameOptions)
    ensures var s := RenameRun(d, records, NewNames(records, opts));
            var pairs := Previews(records, opts);
            |s.records| == |pairs| == |records|
            && forall k :: 0 <= k < |records| ==>
                 s.records[k].name == pairs[k].0 || s.records[k].name == pairs[k].1
  {
    RenameRunRecords(d, records, NewNames(records, opts));
  }

  /** Names that equal the old ones rename nothing when every record names a
      file of one folder by its own name. */
  lemma {:induction false} SameNamesRenameNothing(d: Disk, folder: Path, records: seq<Record>, names: seq<string>)
    requires IsDirPath(folder) && |names| == |records|
    requires forall k :: 0 <= k < |records| ==> names[k] == records[k].name
    requires forall r :: r in records ==> r.path == Join(folder, r.name) && '/' !in r.name
    ensures RenameRun(d, records, names) == RenameState(d, records, [], None)
    decreases |records|
  {
    if records != [] {
      var pre, r := Init(records), Last(records);
      assert RenameRun(d, pre, Init(names)) == RenameState(d, pre, [], None) by {
        assert forall q :: q in pre ==> q in records;
        assert forall k :: 0 <= k < |pre| ==> Init(names)[k] == names[k] && pre[k] == records[k];
        SameNamesRenameNothing(d, folder, pre, Init(names));
      }
      assert Last(names) == r.name by {
        assert r == records[|records| - 1];
      }
      assert r in records;
      KeepOwnName(d, folder, pre, r);
      InitLast(records);
    }
  }

  /** A file that keeps its name is neither moved nor logged. */
  lemma KeepOwnName(d: Disk, folder: Path, pre: seq<Record>, r: Record)
    requires IsDirPath(folder) && r.path == Join(folder, r.name) && '/' !in r.name
    ensures RenameStep(RenameState(d, pre, [], None), r, r.name) == RenameState(d, pre + [r], [], None)
  {
    JoinSplits(folder, r.name);
  }

  /** Neutral options (no prefix, suffix or numbering, and a find text that is
      empty or equal to its replacement) rename nothing when every record names
      a file of one folder by its own name. */
  lemma NeutralRunRenamesNothing(d: Disk, folder: Path, records: seq<Record>, opts: RenameOptions)
    requires IsDirPath(folder)
    requires opts.prefix == "" && opts.suffix == "" && !opts.addNumbers
    requires opts.find == "" || opts.find == opts.replace
    requires forall r :: r in records ==> r.path == Join(folder, r.name) && '/' !in r.name
    ensures RenameRun(d, records, NewNames(records, opts)) == RenameState(d, records, [], None)
  {
    NeutralNamesKept(records, opts);
    SameNamesRenameNothing(d, folder, records, NewNames(records, opts));
  }

  /** Neutral options (no prefix, suffix or numbering, and a find text that is
      empty or equal to its replacement) give every file its own name back. */
  lemma NeutralNamesKept(records: seq<Record>, opts: RenameOptions)
    requires opts.prefix == "" && opts.suffix == "" && !opts.addNumbers
    requires opts.find == "" || opts.find == opts.replace
    ensures |NewNames(records, opts)| == |records|
    ensures forall k :: 0 <= k < |records| ==> NewNames(records, opts)[k] == records[k].name
  {
    forall k | 0 <= k < |records|
      ensures NewNames(records, opts)[k] == records[k].name
    {
      NeutralOptionsKeepName(records[k].name, opts, k + 1);
    }
  }
}
