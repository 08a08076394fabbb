/** An in-memory stand-in for the part of the operating system the organizer
    touches: regular files with their bytes and metadata, a set of directories,
    and the four calls `os.path.exists`, `os.makedirs(p, exist_ok=True)`,
    `os.rename` and `shutil.move`. A disk is a value; every operation that
    changes it returns the new disk. */
module Disks {
  import opened Basics
  import opened Paths

  /** The years whose `%Y` rendering is four digits on every platform. */
  type Year = y: int | 1000 <= y <= 9999 witness 2000
  type Month = m: int | 1 <= m <= 12 witness 1

  /** A regular file: its bytes, the local year and month of its modification
      time, and whether this process may open it for reading. */
  datatype FileData = FileData(content: seq<byte>, year: Year, month: Month, readable: bool)

  datatype Disk = Disk(files: map<Path, FileData>, dirs: set<Path>)

  /** The `OSError` subclasses the calls can raise, and the `RuntimeError` that
      `safe_move` wraps them in. */
  datatype FsError =
    | FileNotFound(path: Path)
    | FileExists(path: Path)
    | IsADirectory(path: Path)
    | DirectoryMove(path: Path)
    | MoveFailed(cause: FsError)

  /** `os.path.exists(p)`. */
  predicate Exists(d: Disk, p: Path) {
    p in d.files || p in d.dirs
  }

  /** Every path `os.path.exists` reports. */
  function Taken(d: Disk): (t: set<Path>)
    ensures forall p :: p in t <==> Exists(d, p)
  {
    d.files.Keys + d.dirs
  }

  /** `os.path.isfile(p)`. */
  predicate IsFile(d: Disk, p: Path) {
    p in d.files
  }

  /** `open(p, 'rb')` succeeds. */
  predicate Readable(d: Disk, p: Path) {
    p in d.files && d.files[p].readable
  }

  /** A consistent disk: nothing is both a file and a directory, the empty
      path names neither, and every file sits in an existing directory. */
  predicate Wf(d: Disk) {
    d.files.Keys !! d.dirs && "" !in d.dirs && forall p :: p in d.files ==> Dirname(p) in d.dirs
  }

  /** The file map after the entry at `src` has been renamed to `dst`; a file
      already at `dst` is replaced. */
  function MoveEntry(files: map<Path, FileData>, src: Path, dst: Path): (r: map<Path, FileData>)
    requires src in files
    ensures r.Keys == files.Keys - {src} + {dst}
    ensures r[dst] == files[src]
    ensures forall p :: p in files && p != src && p != dst ==> r[p] == files[p]
  {
    (files - {src})[dst := files[src]]
  }

  /** `os.makedirs(p, exist_ok=True)` for a directory whose parent exists: fails
      on the empty path and on a path held by a file. */
  function MakeDirs(d: Disk, p: Path): (r: Result<Disk, FsError>)
    ensures r.Ok? <==> p != "" && p !in d.files
    ensures r.Ok? ==> r.value.files == d.files && r.value.dirs == d.dirs + {p}
    ensures Wf(d) && r.Ok? ==> Wf(r.value)
  {
    if p == "" then Err(FileNotFound(p))
    else if p in d.files then Err(FileExists(p))
    else Ok(Disk(d.files, d.dirs + {p}))
  }

  /** POSIX `os.rename(src, dst)` of a regular file: replaces a file at `dst`, refuses a
      directory at `dst` and a missing parent directory. */
  function OsRename(d: Disk, src: Path, dst: Path): (r: Result<Disk, FsError>)
    ensures r.Ok? <==> src in d.files && src !in d.dirs && dst !in d.dirs && Dirname(dst) in d.dirs
    ensures r.Ok? ==> r.value == Disk(MoveEntry(d.files, src, dst), d.dirs)
    ensures Wf(d) && r.Ok? ==> Wf(r.value)
  {
    if src in d.dirs then Err(DirectoryMove(src))
    else if src !in d.files then Err(FileNotFound(src))
    else if dst in d.dirs then Err(IsADirectory(dst))
    else if Dirname(dst) !in d.dirs then Err(FileNotFound(dst))
    else Ok(Disk(MoveEntry(d.files, src, dst), d.dirs))
  }

  /** `shutil.move(src, dst)` of a regular file on one device: onto an existing
      directory it moves the file inside it under its own base name and refuses
      if that name is taken; otherwise it is `os.rename`. */
  function ShutilMove(d: Disk, src: Path, dst: Path): (r: Result<Disk, FsError>)
    ensures r.Ok? ==> src in d.files && r.value.dirs == d.dirs
    ensures r.Ok? && dst !in d.dirs ==> r.value.files == MoveEntry(d.files, src, dst)
    ensures dst !in d.dirs ==> r == OsRename(d, src, dst)
    ensures src in d.dirs ==> r == Err(DirectoryMove(src))
    ensures dst in d.dirs && src in d.files && src !in d.dirs ==>
              var inside := Join(dst, Basename(src));
              (r.Ok? <==> !Exists(d, inside) && Dirname(inside) in d.dirs)
              && (Exists(d, inside) ==> r == Err(FileExists(inside)))
    ensures dst in d.dirs && r.Ok? ==> r.value.files == MoveEntry(d.files, src, Join(dst, Basename(src)))
    ensures Wf(d) && r.Ok? ==> Wf(r.value)
  {
    if src in d.dirs then Err(DirectoryMove(src))
    else if src !in d.files then Err(FileNotFound(src))
    else if dst in d.dirs then
      var inside := Join(dst, Basename(src));
      if Exists(d, inside) then Err(FileExists(inside))
      else if Dirname(inside) !in d.dirs then Err(FileNotFound(inside))
      else Ok(Disk(MoveEntry(d.files, src, inside), d.dirs))
    else OsRename(d, src, dst)
  }
}
