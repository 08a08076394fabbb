# File organizer engine, modelled in Dafny

FILE_0RGANIZER is a set of three Tkinter desktop front-ends plus a shared core
(`OrganizerCore`). The basic organizer, the Pro organizer and the Ultimate
organizer all sort the regular files of one folder into sub-folders. Beneath
the widgets sits a small, sequential engine, and that engine is what this
project models:

- **Classification.** A file's destination comes from its extension, by first
  match over an ordered rule table with "Others" as the fallback. The Pro
  organizer can also sort by modification month ("YYYY-MM") or by one of four
  size tiers. The Ultimate organizer ships three replacement rule tables
  (templates).
- **Chunked hashing and duplicate grouping.** `get_file_hash` streams a file
  through MD5. `find_duplicates` groups paths by digest and keeps the groups
  that have at least two members.
- **Moving without overwriting.** `safe_move`, and the copy of the same logic
  written inline in the Pro and basic organizers, try `name`, `stem_1.ext`,
  `stem_2.ext`, ... until a free path turns up.
- **Organize runs and the undo stack.** A run logs the moves it performed,
  and the log is pushed onto the undo history when it is non-empty. Undo pops
  the last log and walks it backwards.
- **The Pro organizer's batch rename, statistics panel and search filter.**

The filesystem is a value, `Disk(files, dirs)`. It maps each regular file's
path to its bytes, its modification year and month, and whether it may be
opened for reading. The calls `os.path.exists`, `os.makedirs(exist_ok=True)`,
`os.rename` and `shutil.move` are functions on it. Each organizer window is a
`class` whose fields are the ones its methods update in place: `file_list`,
`undo_history`, `categories` and the option variables. Every method takes the
disk and hands the changed disk back. The answers the user gives to
confirmation dialogs are parameters. The listing `os.listdir` returns is an
input too, because its order is up to the operating system. The MD5 algorithm
(RFC 1321) is not modelled. A hasher is any initial state together with a
byte-wise update and a hex rendering, and nothing is assumed about collisions.

Modules, in dependency order:

- `Basics`
- `Format`, for `str(n)`, `%03d`, ASCII `lower()`, `in` and `str.replace`
- `Paths`, for `os.path.join`, `basename`, `dirname`, `splitext` and `Path.suffix`
- `Disks`
- `Hashing`
- `Classifier`
- `Mover`
- `Records`
- `UndoLog`
- `Organize`
- `Duplicates`
- `Stats`
- `Search`
- `Rename`
- the three front-ends, `Basic`, `Pro` and `Ultimate`

## Model

| member | source | states |
|---|---|---|
| Classifier.CategoryOf | core_logic.py:37-40 | The result is the category of the first rule, in table order, that lists the extension. It is "Others" when no rule lists it. It is always a table key or "Others". |
| Classifier.OthersOnlyAsFallback | core_logic.py:37-40 | When the "Others" rules list nothing, a file goes to "Others" exactly when no rule lists its extension. |
| Classifier.ShippedTablesKeepOthersEmpty | file_organizer_ultimate.py:59-95 | The Ultimate defaults and every template end with an empty "Others" rule, and no "Others" rule lists an extension. The same holds for the Pro and basic `DEFAULT_CATEGORIES` (file_organizer_pro.py lines 25-33). |
| Classifier.GetDestination | core_logic.py:34-40 | `get_destination` is the first-match category of the lowercased suffix. The result is a table key or "Others". |
| Classifier.UppercaseRuleNeverMatches | core_logic.py:36-38 | A rule whose extensions all contain an upper-case letter never matches a file, because the file's suffix is lowercased before comparison. |
| Classifier.PdfIsDocument | core_logic.py:34-40 | Under the Ultimate defaults, every file whose suffix lowercases to ".pdf" goes to "Documents", whatever the case of its suffix, because no earlier rule lists ".pdf". |
| Classifier.NoSuffixIsOthers | core_logic.py:36-40 | A name without a dot has an empty suffix and goes to "Others" unless some rule lists "". |
| Paths.Suffix | core_logic.py:36 | `Path(name).suffix`: empty, or a final dot-led piece of the name of length at least 2 with no further dot. |
| Paths.SplitExt | core_logic.py:64 | `os.path.splitext`: root + ext is the input. A non-empty ext starts with the last dot of the last component. An ext exists exactly when a non-dot character precedes that dot, and the root is then non-empty. |
| Paths.SuffixMatchesSplitExt | file_organizer_pro.py:477 | The classifier's suffix and splitext's extension agree on names with a non-dot character before the last dot that do not end in a dot. |
| Paths.Basename | core_logic.py:63 | `basename` is the slash-free tail of the path. |
| Paths.Join | core_logic.py:66 | `os.path.join` of an absolute second part is that part. Otherwise the result starts with the directory and ends with the name. |
| Paths.Dirname | file_organizer_pro.py:808 | `os.path.dirname` is a prefix of the path. |
| Paths.JoinSplits | core_logic.py:63-66 | `dirname` and `basename` undo `join` of a slash-free name onto a directory path. |
| Paths.JoinInjective | core_logic.py:73-74 | Joining names onto one directory is injective, so different candidate names give different paths. |
| Disks.MakeDirs | core_logic.py:62 | `os.makedirs(p, exist_ok=True)` succeeds exactly when p is non-empty and not a file. On success it adds p to the directories and leaves files alone. It keeps the disk consistent. |
| Disks.OsRename | file_organizer_pro.py:810-811 | With POSIX semantics (see "## Left out"), `os.rename` succeeds exactly when the source is a regular file, the target is not a directory and the target's parent exists. It then moves the entry, replacing any regular file already at the target, and the disk stays consistent. A directory source is refused (see "## Left out"). |
| Disks.ShutilMove | core_logic.py:77 | `shutil.move` onto a path that is not a directory is `os.rename`. Onto a directory, it moves the file inside under its base name. That succeeds exactly when the inside path is free and its folder exists, and a taken inside path is refused with `FileExists`. A directory source is refused with `DirectoryMove` (see "## Left out"). Directories are unchanged, and the disk stays consistent. |
| Disks.MoveEntry | file_organizer_pro.py:624 | After a move, the keys are the old keys minus the source plus the target, the target holds the source's data, and other entries are unchanged. |
| Hashing.Read | core_logic.py:18 | `f.read(n)` returns the next at most n bytes of the content. The result is empty exactly at the end or when n is 0. |
| Hashing.Absorb | core_logic.py:18-19 | Feeding bytes to the hasher is one `update` per byte, last byte last. |
| Hashing.Digest | core_logic.py:15-20 | The digest of some content is the hex rendering after feeding any split of it, piece by piece. |
| Hashing.AbsorbConcat | core_logic.py:18-19 | Feeding the hasher two pieces in turn equals feeding it their concatenation, so chunking does not change the digest. |
| Hashing.FileHash | core_logic.py:13-22 | The hash is `None` exactly when the file cannot be opened. Otherwise it is the digest of the whole content, or the digest of nothing when the chunk size is 0. |
| Hashing.GetFileHash | core_logic.py:13-22 | The read-until-empty loop returns `FileHash` for every chunk size. Its invariant is that the bytes absorbed so far are the bytes read so far. |
| Duplicates.KeyOf | core_logic.py:49-51 | A path is filed under its digest exactly when it is readable and the digest is non-empty, which is the `if f_hash:` test. |
| Duplicates.KeyOrder | core_logic.py:45-51 | The dictionary's keys are distinct. They are exactly the keys some path has, in order of first occurrence. |
| Duplicates.Members | core_logic.py:45-51 | The list filed under a key holds exactly the input paths with that key. |
| Duplicates.MembersAppend | core_logic.py:48-51 | Filing keeps input order: the lists distribute over concatenation of the input. |
| Duplicates.SameKeyTwice | core_logic.py:48-51 | Two positions with the same key give that key a list of at least two paths. |
| Duplicates.GroupsOver | core_logic.py:56 | The comprehension keeps exactly the keys whose list has at least two paths, each group with its whole list and without repeated keys. |
| Duplicates.DuplicateGroups | core_logic.py:43-56 | Every group has at least two paths, all from the input and all hashing to the group's key. No key appears twice. |
| Duplicates.UnhashedInNoGroup | core_logic.py:49-51 | A path that could not be hashed, or whose hash is empty, is in no group. |
| Duplicates.EqualDigestsGrouped | core_logic.py:45-56 | Two input positions with equal digests are in one common group. |
| Duplicates.AtMostOneGroup | core_logic.py:45-56 | No path is in two groups. |
| Duplicates.FileByHash | core_logic.py:45-54 | The hashing loop builds exactly the key order and member lists of the specification. It calls the progress callback once per path with (i + 1, total). |
| Duplicates.FileOne | core_logic.py:49-51 | One iteration extends the dictionary from a prefix of the paths to the prefix plus one path. |
| Duplicates.FindDuplicates | core_logic.py:43-56 | `find_duplicates` returns `DuplicateGroups` and one progress call per path, in order. |
| Duplicates.SurplusIsRepeats | file_organizer_ultimate.py:318 | Summed over all keys, len − 1 is the number of input positions whose key occurred earlier. |
| Duplicates.Repeats | file_organizer_ultimate.py:318 | Fewer positions repeat an earlier key than there are paths. |
| Duplicates.DuplicateCount | file_organizer_ultimate.py:318 | When every group has at least two paths, the sum of len − 1 is at least the number of groups. |
| Duplicates.GroupsOverCount | file_organizer_ultimate.py:318 | Dropping the one-path lists does not change the sum of len − 1. |
| Duplicates.DuplicateCountIsRepeats | file_organizer_ultimate.py:317-318 | The Ultimate count is the number of files that copy an earlier file's content. |
| Mover.CandidateInjective | core_logic.py:73-75 | Different counters give different candidate paths. |
| Mover.CandidatesStep | core_logic.py:73-75 | Each step adds a candidate the loop has not tried before. |
| Mover.FirstFreeIndex | core_logic.py:73-75 | The collision loop stops at the first free candidate. Every candidate before it is taken. The loop terminates. |
| Mover.FirstFreeUnique | core_logic.py:73-75 | The first free candidate has exactly the index at which the loop stops. |
| Mover.FreeTarget | core_logic.py:66-75 | The chosen path does not exist. It is `dst_dir/name` whenever that path is free. |
| Mover.NextFreeName | core_logic.py:66-75 | The while loop returns `FreeTarget`. It terminates because each turn removes one taken path from those left to try. |
| Mover.CandidatesShrink | core_logic.py:73-75 | Trying a taken candidate strictly shrinks the set of taken paths still to try. |
| Mover.SafeMoveSpec | core_logic.py:59-80 | `dst_dir` is created first, and a failure there is the call's failure. A file already at `dst_dir/name` gives (src, False) with no file changed, and only such a file gives False. On a consistent disk, a creatable folder and an existing file, the call succeeds. A move goes to the first free candidate: src is gone, the target holds its data, nothing is overwritten and every other file is unchanged, giving (target, True). Every failure is `RuntimeError` and changes no file. The disk stays consistent. |
| Mover.SafeMove | core_logic.py:59-80 | The method returns `SafeMoveSpec`. |
| Mover.InlinePlaceSpec | file_organizer_pro.py:612-629 | The inline copy creates the folder, and a failure there is returned unwrapped. It looks for a free name only when `dest/name` is taken by another path, and moves unless the chosen path is the file's own, so a file already at `dest/name` stays. A move goes to the first free candidate and overwrites nothing. On a consistent disk, a creatable folder and an existing file, the step succeeds. A failure changes no file. |
| Mover.InlinePlace | file_organizer.py:306-322 | The inline loop body returns `InlinePlaceSpec`. |
| Format.NatToStringInjective | core_logic.py:74 | `str(counter)` is injective on naturals. |
| Format.NatToString | core_logic.py:74 | `str(n)` is a non-empty string of digits, at least two of them from 10 up. |
| Format.ParseNatToString | core_logic.py:74 | `str(n)` reads back as n. |
| Format.NatToStringWidth | file_organizer_pro.py:521 | Numbers below 10^w print in at most w digits. |
| Format.ZeroPad | file_organizer_pro.py:805 | Zero padding to a width adds exactly the missing zeros on the left. |
| Format.PadNumber | file_organizer_pro.py:805 | `f"{i:03d}"` is a string of digits at least as long as the width. |
| Format.PadNumberRoundTrip | file_organizer_pro.py:805 | `f"{i:03d}"` reads back as i. |
| Format.Lower | file_organizer_pro.py:555 | `lower()` keeps the length, leaves no upper-case letter and keeps every other character. |
| Format.LowerIdempotent | file_organizer_pro.py:555 | Lowercasing twice is lowercasing once. |
| Format.LowerOfLower | file_organizer_pro.py:563 | Lowercasing a string without upper-case letters changes nothing. |
| Format.Contains | file_organizer_pro.py:563 | `q in s` holds exactly when q occurs at some index of s. |
| Format.EmptyContained | file_organizer_pro.py:563 | The empty query occurs in every string. |
| Format.ReplaceAbsent | file_organizer_pro.py:796 | Replacing a text that does not occur changes nothing. |
| Format.ReplaceBySelf | file_organizer_pro.py:796 | Replacing a text by itself changes nothing. |
| Format.ReplaceFirstOccurrence | file_organizer_pro.py:796 | `str.replace` scans left to right. At the first occurrence, the text before it is kept, the occurrence becomes the replacement, and the scan resumes after it, so occurrences never overlap. |
| Format.ReplaceKeepsPrefix | file_organizer_pro.py:796 | `str.replace` copies the text before the first occurrence of the find text unchanged, and continues with the rest. |
| Format.ReplaceAll | file_organizer_pro.py:796 | `str.replace` leaves a string shorter than the find text unchanged, and keeps the length when the replacement is as long as the find text. |
| Classifier.SizeTier | file_organizer_pro.py:522-530 | Tier t covers sizes from the previous bound up to, but not including, bound t. The bounds are 1, 10 and 100 MiB. |
| Classifier.SizeTierMonotone | file_organizer_pro.py:522-530 | A bigger file never lands in a smaller tier. |
| Classifier.SizeBucket | file_organizer_pro.py:523-530 | The size-mode name is the name of the size's tier. Name k is given exactly when the size is at least bound k − 1 and below bound k. |
| Classifier.DateBucket | file_organizer_pro.py:519-521 | `"%Y-%m"` gives seven characters: four digits, a dash, two digits. |
| Classifier.DateBucketRoundTrip | file_organizer_pro.py:521 | The folder name reads back as the year and the month it was made from. |
| Classifier.ProDestination | file_organizer_pro.py:509-532 | Category mode gives the first-match category. Date mode gives the year-month name. Size mode gives the name of the size's tier. Any other mode gives "Others". |
| Classifier.BasicDestination | file_organizer.py:211-214 | Category mode gives `_get_category_folder`. Every other mode gives the file's "YYYY-MM" name. |
| Classifier.LookupTemplate | file_organizer_ultimate.py:256 | `TEMPLATES[name]` is found exactly when some entry has that name, and it is that entry's table. A missing name, where Python raises `KeyError`, gives `None`. |
| Classifier.LookupFindsEntry | file_organizer_ultimate.py:256 | When names are distinct, `TEMPLATES[name]` of any entry's name is that entry's table. |
| Classifier.StudentPdfGoesToAssignments | file_organizer_ultimate.py:87-93 | Under the Student template ".pdf" is listed twice. Every PDF goes to "Assignments" and none to "Research". |
| Records.ListedFiles | file_organizer_pro.py:472 | The comprehension keeps only names of regular files and is no longer than the listing. |
| Records.ListedFilesMembers | file_organizer_pro.py:472 | A name is kept exactly when it is listed and names a regular file. |
| Records.ListedFilesAppend | file_organizer_pro.py:472 | The comprehension keeps listing order. |
| Records.ProRecord | file_organizer_pro.py:476-491 | A Pro record carries the name, the joined path, the size, the lowercased suffix and `_get_destination_folder`'s answer. |
| Records.BasicRecord | file_organizer.py:206-222 | A basic record carries the name, the joined path, the size, the lowercased suffix and the category-or-date destination. |
| Records.UltimateEntry | file_organizer_ultimate.py:280-284 | An entry has the name, the joined path and the size, and its destination is a table key or "Others". |
| Records.ProScan | file_organizer_pro.py:472-493 | There is one record per listed regular file, named after it, in listing order. |
| Records.BasicScan | file_organizer.py:203-224 | There is one record per listed regular file, named after it, in listing order. |
| Records.UltimateScan | file_organizer_ultimate.py:275-285 | There is one entry per listed regular file, named after it, in listing order. |
| Records.TotalBytes | file_organizer_ultimate.py:276-286 | `total_bytes` is at least the size of every entry. |
| Records.ProScanFacts | file_organizer_pro.py:472-493 | There is one record per listed regular file, in listing order. Each record has the file's path and size and the lowercased suffix, and the destination `_get_destination_folder` gives. |
| Records.BasicScanFacts | file_organizer.py:203-224 | The same holds for the basic scan, with the category-or-date switch. |
| Records.UltimateScanFacts | file_organizer_ultimate.py:275-285 | There is one entry per listed regular file, with its size and `get_destination(name, categories)`. |
| UndoLog.ReplayAppend | file_organizer_pro.py:625-628 | Logging a move of an existing file to a free path extends the replay by that move. |
| UndoLog.Replay | file_organizer_pro.py:624-628 | When a log replays, its last move's target exists at the end and its source does not. |
| UndoLog.ReplayKeepsFileCount | file_organizer_pro.py:619-624 | Moves that replay never overwrite: the number of files is unchanged. |
| UndoLog.MoveEntryUndone | file_organizer_pro.py:668 | Moving a file back to a free origin restores the file map. |
| UndoLog.UndoStep | file_organizer_pro.py:667-668 | An entry whose `to` has vanished is skipped. Undo keeps the disk consistent. |
| UndoLog.Undo | file_organizer_pro.py:666-668 | An empty log changes nothing. Undo keeps the disk consistent. |
| UndoLog.UndoSkipsVanished | file_organizer_ultimate.py:381-382 | A log none of whose destinations exists is undone as a no-op, in both styles. |
| UndoLog.UndoRestores | file_organizer_ultimate.py:381-384 | Suppose a log replays from f0 to f1, the disk holding f1 is consistent, no logged source is a directory, and the folder of every logged source still exists. Then undoing the log restores f0 exactly, in both styles, and the directories are unchanged. |
| UndoLog.UndoMoves | file_organizer_pro.py:666-668 | The reversed loop, in either style, returns `Undo`. |
| Organize.PlaceKeepsFacts | file_organizer_pro.py:611-629 | One placement keeps the run invariant. The log replays to the current files, the disk is consistent, directories are only added, and logged sources keep their parent. |
| Organize.ProStep | file_organizer_pro.py:606-629 | One iteration logs at most one move, and only of an existing file at the record's path. An error logs nothing and changes no file. A guarded step whose destination folder is a vacated path changes nothing. |
| Organize.ProRun | file_organizer_pro.py:591-649 | Preview mode touches nothing and logs nothing. A run logs at most one move per record. |
| Organize.UltimateStep | file_organizer_ultimate.py:358-365 | One iteration never raises, because every error is caught. It logs at most one move, and only of an existing file at the entry's path. A guarded step whose folder is a vacated path changes nothing. |
| Organize.ProRunFacts | file_organizer_pro.py:597-629 | Started on a consistent disk, a Pro or basic run keeps that invariant, so the log is exactly the moves performed and none overwrote a file. |
| Organize.NoSubfoldersNoMoves | file_organizer_pro.py:606-623 | For records as the scan builds them (each path is the folder joined with the record's name), a run with subfolders off moves no file and logs nothing. |
| Organize.ProRunAfterError | file_organizer_pro.py:591-649 | After an exception the rest of the records change nothing. |
| Organize.PlaceAll | file_organizer_pro.py:597-629 | The loop returns `ProRun` as written: moves in order with the first error ending the run. In preview mode it touches nothing. |
| Organize.ProUndoRestores | file_organizer_pro.py:663-668 | Starting from a consistent disk, if no logged source has become a directory, undoing a Pro run restores the files it started from. Directories created by the run remain. |
| Organize.GuardedProRunUndoes | file_organizer_pro.py:606-668 | Starting from a consistent disk, with the guard against re-using a vacated path, organize then undo always restores the files. |
| Organize.UltimateRun | file_organizer_ultimate.py:358-367 | The Ultimate loop never ends with an error: each one is caught. |
| Organize.SafeMoveAll | file_organizer_ultimate.py:355-367 | The loop calls `safe_move` for every entry, logs only the moves that report `moved`, goes on past errors, and returns `UltimateRun`. |
| Organize.UltimateRunFacts | file_organizer_ultimate.py:358-367 | Started on a consistent disk, an Ultimate run keeps the run invariant. |
| Organize.UltimateUndoRestores | file_organizer_ultimate.py:380-384 | The Ultimate round trip holds under the same provisos: a consistent starting disk, and no logged source has become a directory. |
| Organize.GuardedUltimateRunUndoes | file_organizer_ultimate.py:359-384 | Starting from a consistent disk, a guarded Ultimate run is always undone exactly. |
| Organize.UnguardedProUndoMisplaces | file_organizer_pro.py:606-668 | As written, a file named "Images" plus a photo gives a Pro organize and undo that ends with the first file at "/d/Images/Images". |
| Organize.UnguardedUltimateUndoFails | file_organizer_ultimate.py:359-384 | As written, the same two files give an Ultimate undo that stops with `IsADirectory`, leaving the first file in "Others". |
| Search.FilterRecords | file_organizer_pro.py:562-564 | The list shows exactly the records that match, and no more than the list holds. |
| Search.FilterAppend | file_organizer_pro.py:562-564 | Filtering keeps file-list order. |
| Search.EmptyQueryShowsAll | file_organizer_pro.py:555-564 | An empty search box shows every file. |
| Search.CaseInsensitive | file_organizer_pro.py:555-563 | A query matches a record exactly when its lowercased form does. |
| Search.FilterCaseInsensitive | file_organizer_pro.py:555-564 | The list shown depends only on the lowercased query. |
| Search.ScannedExtMatchesAsStored | file_organizer_pro.py:477-563 | The stored extension is already lowercase, so lowercasing it again does not change the match. |
| Stats.Total | file_organizer_pro.py:681-682 | Counted one by one, the records number `len(self.file_list)`. |
| Stats.Tally | file_organizer_pro.py:691-697 | One destination's count or byte sum is at most the total. |
| Stats.Dict | file_organizer_pro.py:691-697 | The dictionary has an entry for the last record's destination. |
| Stats.DictSnoc | file_organizer_pro.py:694-697 | One more record changes only its destination's entry, which starts from 0 when missing and grows by 1 or by the size. |
| Stats.OrderSnoc | file_organizer_pro.py:682-697 | One more record adds its size to the total and appends its destination to the key order if it is new. |
| Stats.Categories | file_organizer_pro.py:691-697 | The dictionary keys are distinct. They are exactly the destinations of the records, in first-appearance order. |
| Stats.DictTallies | file_organizer_pro.py:691-697 | The `defaultdict`s hold exactly the destinations, each with its count or its byte sum. |
| Stats.CountAppend | file_organizer_pro.py:694-697 | One more record adds its size to the total and appends its destination to the key order if it is new. In both dictionaries, only that destination's entry changes: it starts from 0 when missing and grows by 1 or by the size. |
| Stats.TallyAbsent | file_organizer_pro.py:691-697 | A destination no record has tallies to 0. |
| Stats.TallyPresent | file_organizer_pro.py:691-697 | A destination some record has counts at least 1. |
| Stats.Rows | file_organizer_pro.py:702-703 | There is one row per destination, with its count and size. |
| Stats.Breakdown | file_organizer_pro.py:700-703 | There is one row per destination, in first-appearance order, with a count of at least 1 that is the destination's count and a size that is its byte sum. |
| Stats.RowsGrow | file_organizer_pro.py:694-697 | A new record adds its weight to its own destination's row only. |
| Stats.RowsNewCategory | file_organizer_pro.py:691-697 | A row for an unused destination adds nothing. |
| Stats.BreakdownAccountsForAll | file_organizer_pro.py:681-703 | The counts sum to the number of files and the sizes sum to the total size. |
| Stats.CountsAddUp | file_organizer_pro.py:681-703 | The counts add up to the number of files. |
| Stats.Insert | file_organizer_pro.py:700 | Insertion adds exactly one row. |
| Stats.InsertSorted | file_organizer_pro.py:700 | Inserting into a list sorted by descending count keeps it sorted. |
| Stats.InsertAfterEqual | file_organizer_pro.py:700 | Insertion puts the new row after every row of equal count. |
| Stats.SortByCount | file_organizer_pro.py:700 | `sorted(..., key=count, reverse=True)` is sorted by descending count and is a permutation of its input. |
| Stats.SortByCountStable | file_organizer_pro.py:700 | The sort is stable: rows of equal count keep their order. |
| Stats.SumOfPermutation | file_organizer_pro.py:700-703 | Column sums do not depend on row order. |
| Stats.SumRemove | file_organizer_pro.py:700-703 | Removing a row subtracts its weight. |
| Stats.SortedBreakdown | file_organizer_pro.py:691-703 | The panel lists each destination once, sorted by descending count with ties in first-appearance order. Counts add up to the number of files and sizes to the total size. |
| Rename.NeutralOptionsKeepName | file_organizer_pro.py:793-807 | No prefix, suffix or numbering, and a find text that is empty, equal to its replacement or absent, leave the name as it is. |
| Rename.NewBase | file_organizer_pro.py:793-805 | The new base starts with the prefix. Without a find text, the old base follows the prefix. Without numbering it ends with the suffix. With numbering it ends with the suffix, then "_" and the zero-padded position. |
| Rename.NewName | file_organizer_pro.py:791-807 | The new name starts with the prefix. |
| Rename.NewNameKeepsExtension | file_organizer_pro.py:791-807 | Whatever the options, the new name ends with the old name's extension as `os.path.splitext` gives it. |
| Rename.Previews | file_organizer_pro.py:745-763 | The preview has one pair per file, the first part being the file's old name. |
| Rename.NewNames | file_organizer_pro.py:788-807 | `apply_rename` computes one name per file, the name the preview shows for it. |
| Rename.NeutralNamesKept | file_organizer_pro.py:793-807 | Options with no prefix, suffix or numbering, and a find text that is empty or equal to its replacement, give every file its own name back. |
| Rename.Renamed | file_organizer_pro.py:808-813 | A renamed record has the new name, and its extension, size and destination are kept. |
| Rename.RenamedStaysInFolder | file_organizer_pro.py:808 | The new path lies in the old path's folder and its last component is the new name. |
| Rename.RenameStep | file_organizer_pro.py:808-814 | One iteration appends one record and logs at most the rename of its file to its new path, only when the two differ and the new path is free. A refusal changes neither the disk nor the log. |
| Rename.RenameRun | file_organizer_pro.py:788-814 | The run yields one record per file and at most one rename per file. |
| Rename.SplitExtOfJoined | file_organizer_pro.py:791 | splitext of a base ending in something other than a dot or slash, followed by an extension, gives them back. |
| Rename.NumberingKeepsExtension | file_organizer_pro.py:804-807 | With numbering on, a name with an extension keeps it, after the new base. |
| Rename.NumberingRecordsPosition | file_organizer_pro.py:804-807 | With numbering on, the new name ends in "_", the 1-based position as at least three digits, then the extension. |
| Rename.RenameRunSnoc | file_organizer_pro.py:788-814 | The run over one more record is one more step. |
| Rename.RenameRunAfterError | file_organizer_pro.py:779-820 | After `os.rename` raises, the remaining records are kept as they are and nothing else changes. |
| Rename.RenameStepFacts | file_organizer_pro.py:808-814 | A step keeps the record or renames its file to a free path beside it, logging exactly that rename and never overwriting. When the target differs from the source, is free and `os.rename` accepts it, the rename happens. The step fails exactly when `os.rename` refuses. Directories are untouched. |
| Rename.RenameRunDisk | file_organizer_pro.py:808-814 | A rename run changes the disk only by the renames it logs. |
| Rename.RenameRunRecords | file_organizer_pro.py:812-813 | Each record is kept or gets the new name of its position. |
| Rename.RenameRunLog | file_organizer_pro.py:810-814 | Each logged rename belongs to one record, so the count is at most the list's length. |
| Rename.RenameRunChanged | file_organizer_pro.py:810-814 | When the records name distinct files, a record comes out changed exactly when the rename of its file to its new name is logged. |
| Rename.RenameRunFacts | file_organizer_pro.py:786-814 | On a consistent disk, `apply_rename` overwrites nothing and keeps the number of files, directories and consistency. Records are kept or renamed. `renamed_count` counts the renames performed, and each is one record's. When the records name distinct files, a record comes out changed exactly when its rename is logged. |
| Rename.PreviewShowsRename | file_organizer_pro.py:745-807 | The preview shows each file the name `apply_rename` gives it. |
| Rename.SameNamesRenameNothing | file_organizer_pro.py:810 | For records as the scan builds them (each path is the folder joined with the record's slash-free name), new names equal to the old ones rename nothing. |
| Rename.NeutralRunRenamesNothing | file_organizer_pro.py:793-810 | For records as the scan builds them (each path is the folder joined with the record's slash-free name), options with no prefix, suffix or numbering, and a find text that is empty or equal to its replacement, rename nothing. |
| Pro.Organizer.constructor | file_organizer_pro.py:36-48 | A fresh window with no settings file has the default categories, mode "category", subfolders and preview on, and nothing scanned. |
| Pro.Organizer.ScanFolder | file_organizer_pro.py:450-507 | An empty or missing folder is refused and the list kept. Otherwise the list becomes `ProScan` of the folder. A folder that is a file leaves the list empty. Other fields are unchanged. |
| Pro.Organizer.FilterFiles | file_organizer_pro.py:553-564 | The records shown are `FilterRecords` of the file list. |
| Pro.Organizer.OrganizeFiles | file_organizer_pro.py:566-649 | Without a scan or confirmation, nothing happens. Otherwise the run is `ProRun` and the moved count is the log's length. The log is pushed only when the run completed, preview is off and something moved. |
| Pro.Organizer.UndoLastAction | file_organizer_pro.py:651-674 | With empty history or no confirmation, nothing happens. Otherwise the last batch is popped and undone, last move first, with `shutil.move`. The count is the batch length. |
| Pro.Organizer.UpdateStatistics | file_organizer_pro.py:676-703 | Without a scan nothing is shown. Otherwise the panel shows the number of files, the total size and `SortedBreakdown`. |
| Pro.Organizer.PreviewRename | file_organizer_pro.py:728-765 | The preview pairs each old name with its new name, numbering from 1. |
| Pro.Organizer.ApplyRename | file_organizer_pro.py:767-820 | Without a scan or confirmation, nothing happens. Otherwise the disk, the file list and the count come from `RenameRun` with the new names. |
| Pro.ScanRecords | file_organizer_pro.py:472-493 | The scan loop builds `ProScan`. |
| Pro.RenameFiles | file_organizer_pro.py:788-814 | The rename loop follows `RenameRun` and stops at the first error. |
| Pro.RenameNext | file_organizer_pro.py:789-814 | The body for record i extends the run from the first i records to the first i + 1. |
| Pro.RenameOne | file_organizer_pro.py:808-814 | One rename is `RenameStep`. |
| Pro.Tabulate | file_organizer_pro.py:681-703 | The two loops give the total size and `Breakdown`. |
| Pro.CountDestinations | file_organizer_pro.py:691-697 | The counting loop fills the dictionaries and the key order the specification gives. |
| Pro.CountOne | file_organizer_pro.py:694-697 | One counting iteration extends the dictionaries by one record. |
| Basic.Organizer.constructor | file_organizer.py:32-48 | A fresh window has the default categories, mode "category", subfolders and preview on, and an empty list. |
| Basic.Organizer.ScanFolder | file_organizer.py:180-232 | An empty or missing folder is refused. Otherwise the list becomes `BasicScan`, or stays empty for a folder that is a file. |
| Basic.Organizer.OrganizeFiles | file_organizer.py:265-335 | Without a scan or confirmation, nothing happens. Otherwise the run is the shared `ProRun` and the count is the number of real moves. |
| Basic.ScanRecords | file_organizer.py:203-224 | The scan loop builds `BasicScan`. |
| Ultimate.Organizer.constructor | file_organizer_ultimate.py:97-105 | A fresh window has the Ultimate defaults, no scan and no history. |
| Ultimate.Organizer.LoadTemplate | file_organizer_ultimate.py:255-257 | A template name replaces the whole rule table by that template. Any other name leaves it unchanged. |
| Ultimate.Organizer.ScanFolder | file_organizer_ultimate.py:262-300 | An invalid folder is refused. Otherwise the list becomes `UltimateScan`, and the totals are the entry count and the byte sum. |
| Ultimate.Organizer.FindDuplicates | file_organizer_ultimate.py:302-321 | Without a scan nothing runs. Otherwise the groups are `DuplicateGroups` of the scanned paths, and the count is the number of files repeating earlier content. |
| Ultimate.Organizer.OrganizeFiles | file_organizer_ultimate.py:343-373 | Without a scan or confirmation, nothing happens. Otherwise the run is `UltimateRun`, and its log is pushed only if non-empty. |
| Ultimate.Organizer.UndoLast | file_organizer_ultimate.py:375-387 | With empty history, nothing happens. Otherwise the last batch is popped and undone, last move first, by recreating each parent and renaming. |
| Ultimate.TemplatesFound | file_organizer_ultimate.py:70-95 | The template names are distinct, so every template is found by its own name and gives its own table. This covers "Developer", "Photographer" and "Student". |
| Ultimate.EntryPaths | file_organizer_ultimate.py:312 | The paths handed to `find_duplicates` are the entries' paths, one per entry. |
| Ultimate.ScanEntries | file_organizer_ultimate.py:275-286 | The scan loop builds `UltimateScan`, and `total_bytes` is the sum of the entries' sizes. |
| Ultimate.TotalBytesSnoc | file_organizer_ultimate.py:286 | One more entry adds its size to the total. |
| Ultimate.CountDuplicates | file_organizer_ultimate.py:318 | The sum over groups of len − 1. |

## Left out

- The Tkinter user interface is not modelled: widgets, the tree view, themes, drag-and-drop, keyboard shortcuts, message boxes, the title pulse and the button colour arithmetic. A dialog's answer is a parameter.
- Threads and `root.after` are not modelled. Each run is one sequential method. Progress appears only as the output trace of `find_duplicates`.
- `format_size`, percentages and bar widths are left out, because they are floating point and `.1f` formatting.
- `save_settings`, `load_settings`, `display_categories`, `reset_categories` and the category editor are left out: they are persistence and presentation. The constructors model a start without a settings file.
- The MD5 algorithm is not modelled. Digests are an uninterpreted streaming hasher, and nothing is assumed about collisions.
- `datetime.fromtimestamp` is not modelled. A file carries its local modification year (1000 to 9999) and month, so time zones are not modelled.
- The Pro scan's "modified" display string is not recorded.
- Undo history timestamps are not modelled, for the same reason.
- `os.path.getsize` and `os.path.getmtime` failing on a file that vanishes mid-scan is not modelled. The scan reads a consistent disk.
- `os.listdir` order is an input.
- `os.makedirs` creates only the leaf directory. Every destination the organizers pass already has its parent. Missing intermediate folders are not created.
- `shutil.move` never copies across devices.
- Disks.ShutilMove: refuses a directory source (`DirectoryMove`), whereas Python's `shutil.move` moves the whole folder. The organizers do not rescan after an organize run, so a second run can reach a listed path that has since become a folder. An example is a file `Images` without extension next to `a.jpg`, organized twice. There, Python moves the folder `/d/Images` to `/d/Others/Images_1`, and the Ultimate organizer logs that move. In the model, the Pro and basic runs stop at that record with the error, and the Ultimate run skips the entry.
- Disks.Exists: the disk follows POSIX semantics. Paths are joined and split as `posixpath` does, names are case-sensitive (`os.path.exists("/d/A.txt")` is false when only `/d/a.txt` exists), and `os.rename` replaces a regular file already at the target. On Windows `os.rename` onto an existing file raises `FileExistsError`. On case-insensitive file systems (Windows, and macOS by default) the existence checks see differently-cased names as taken. That changes the skip before a rename (file_organizer_pro.py:810) and the numbering loops (core_logic.py:73, file_organizer_pro.py:619). Neither platform behaviour is modelled.
- Disks.OsRename: refuses a directory source (`DirectoryMove`), whereas Python's `os.rename` renames the folder. Only files are renamed here. After an organize run without a rescan, the Pro file list can name a path that has become a folder, and `apply_rename` would rename that folder. The model instead stops the rename loop there with the error.
- `os.path.abspath` is the identity: listed paths are taken to be absolute and normalised.
- `lower()` is the ASCII lower-casing only. Unicode case mapping is not modelled.
- `Path.suffix` follows Python 3.8 to 3.13, where a name ending in a dot has no suffix. Python 3.14's treatment of a trailing dot is not modelled.
- The refresh `scan_folder()` that `apply_rename` starts after success is not modelled. `Pro.Organizer.ApplyRename` leaves the updated file list as the loop left it.
- The Ultimate `_org_thread` prints caught errors, and that print is not modelled.
- An exception inside the Ultimate `load_template` or `undo_last` is modelled as a result (`ok == false`, `err`), not as a traceback in the Tk callback.
- `show_dup_dialog` is presentation, and is not modelled.
- The Pro preview loop writes text into a widget. `Pro.Organizer.PreviewRename` returns the pairs instead.

## Findings

| source | as written | input that shows it | evidently intended | confidence | as-written member | corrected member |
|---|---|---|---|---|---|---|
| file_organizer_pro.py:606-668 | An organize run may create a destination folder at a path that an earlier move of the same run vacated. Undo's `shutil.move(to, from)` then moves that file into the new folder. | In folder `/d`, a file `Images` without extension goes first to `/d/Others/Images`. Then `a.jpg` makes the folder `/d/Images`. After undo, the first file is at `/d/Images/Images`. | Organize followed by undo restores every file to where it was. | not executed | Organize.UnguardedProUndoMisplaces | Organize.GuardedProRunUndoes |
| file_organizer_ultimate.py:359-384 | `safe_move` creates the same clashing folder. Undo's `os.rename(to, from)` then meets a directory at `from` and raises. | The same two files. Undo stops with `IsADirectory("/d/Images")`, and the first file stays in `/d/Others`. | Organize followed by undo restores every file to where it was. | not executed | Organize.UnguardedUltimateUndoFails | Organize.GuardedUltimateRunUndoes |

The corrected runs (`guarded == true`) skip a file whose destination folder is
a path the same run already moved a file away from. For those runs the round
trip is proved with no proviso. The organizer classes run the programs as
written (`guarded == false`). For those runs the round trip is proved under
the proviso that no logged source became a directory
(`Organize.ProUndoRestores`, `Organize.UltimateUndoRestores`).
