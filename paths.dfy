/** POSIX path strings as Python's `posixpath` and `pathlib` treat them.
    `os.path.abspath` is taken to be the identity: every path handed to the
    organizer is already absolute and normalised. */
module Paths {
  import opened Format

  type Path = string

  /** `s.rfind(c)`: the index of the last `c`, or -1. */
  function LastIndexOf(s: string, c: char): (i: int)
    ensures -1 <= i < |s|
    ensures 0 <= i ==> s[i] == c
    ensures forall j :: i < j < |s| ==> s[j] != c
  {
    if |s| == 0 then -1
    else if s[|s| - 1] == c then |s| - 1
    else LastIndexOf(s[..|s| - 1], c)
  }

  predicate AllSlashes(s: string) {
    forall k :: 0 <= k < |s| ==> s[k] == '/'
  }

  /** `s.rstrip('/')`. */
  function StripTrailingSlashes(s: string): (r: string)
    ensures |r| <= |s| && r == s[..|r|]
    ensures r == "" || r[|r| - 1] != '/'
  {
    if |s| > 0 && s[|s| - 1] == '/' then StripTrailingSlashes(s[..|s| - 1]) else s
  }

  /** `os.path.join(a, b)` for two components. */
  function Join(a: Path, b: string): (p: Path)
    ensures Absolute(b) ==> p == b
    ensures !Absolute(b) ==> |a| + |b| <= |p| && p[..|a|] == a && p[|p| - |b|..] == b
  {
    if |b| > 0 && b[0] == '/' then b
    else if a == "" || a[|a| - 1] == '/' then a + b
    else a + "/" + b
  }

  /** `os.path.basename(p)`: the text after the last slash. */
  function Basename(p: Path): (b: string)
    ensures '/' !in b
    ensures |b| <= |p| && b == p[|p| - |b|..]
  {
    p[LastIndexOf(p, '/') + 1..]
  }

  /** `os.path.dirname(p)`: the text up to the last slash, with trailing slashes
      removed unless it consists of slashes only. */
  function Dirname(p: Path): (r: Path)
    ensures |r| <= |p| && r == p[..|r|]
  {
    var head := p[..LastIndexOf(p, '/') + 1];
    if head != "" && !AllSlashes(head) then StripTrailingSlashes(head) else head
  }

  /** A directory path whose joins `dirname` gives back unchanged: empty, all
      slashes, or not ending in a slash. */
  predicate IsDirPath(d: Path) {
    d == "" || d[|d| - 1] != '/' || AllSlashes(d)
  }

  /** Joining a slash-free name onto a directory path is undone by `dirname`
      and `basename`. */
  lemma JoinSplits(d: Path, n: string)
    requires IsDirPath(d) && '/' !in n
    ensures Dirname(Join(d, n)) == d
    ensures Basename(Join(d, n)) == n
  {
    var p := Join(d, n);
    if d == "" {
      assert p == n;
      assert forall j :: 0 <= j < |p| ==> p[j] != '/';
    } else if d[|d| - 1] == '/' {
      assert p == d + n;
      assert p[|d| - 1] == '/';
      assert forall j :: |d| <= j < |p| ==> p[j] == n[j - |d|];
      assert LastIndexOf(p, '/') == |d| - 1;
      assert AllSlashes(d);
      assert p[..LastIndexOf(p, '/') + 1] == d;
      assert p[|d|..] == n;
    } else {
      assert p == d + "/" + n;
      assert p[|d|] == '/';
      assert forall j :: |d| < j < |p| ==> p[j] == n[j - |d| - 1];
      assert LastIndexOf(p, '/') == |d|;
      var head := p[..|d| + 1];
      assert head == d + "/";
      assert !AllSlashes(head) by { assert head[|d| - 1] != '/'; }
      assert head[..|head| - 1] == d;
      assert StripTrailingSlashes(head) == StripTrailingSlashes(d) == d;
      assert Dirname(p) == StripTrailingSlashes(head);
      assert p[|d| + 1..] == n;
    }
  }

  /** The name begins with a slash, so `os.path.join` discards what precedes it. */
  predicate Absolute(s: string) {
    |s| > 0 && s[0] == '/'
  }

  /** Joining onto the same directory is injective on names that are both
      absolute or both relative. */
  lemma JoinInjective(d: Path, x: string, y: string)
    requires Absolute(x) == Absolute(y)
    requires Join(d, x) == Join(d, y)
    ensures x == y
  {
    if !Absolute(x) {
      var pre := if d == "" || d[|d| - 1] == '/' then d else d + "/";
      assert Join(d, x) == pre + x && Join(d, y) == pre + y;
      assert x == (pre + x)[|pre|..];
      assert y == (pre + y)[|pre|..];
    }
  }

  /** `os.path.splitext(p)` has found an extension: there is a dot after the last
      slash and some non-dot character between that slash and the dot. */
  predicate HasExt(p: string) {
    var s := LastIndexOf(p, '/');
    var d := LastIndexOf(p, '.');
    d > s && exists k :: s < k < d && p[k] != '.'
  }

  /** `os.path.splitext(p)`: (root, ext) where ext starts at the last dot of the
      last component, provided a non-dot character precedes that dot. */
  function SplitExt(p: string): (r: (string, string))
    ensures r.0 + r.1 == p
    ensures r.1 == "" || (r.1[0] == '.' && '.' !in r.1[1..] && '/' !in r.1)
    ensures r.1 != "" <==> HasExt(p)
    ensures r.1 != "" ==> r.0 != ""
  {
    if HasExt(p) then
      var d := LastIndexOf(p, '.');
      assert p[..d] + p[d..] == p;
      assert forall j :: 0 <= j < |p[d..]| ==> p[d..][j] == p[d + j];
      (p[..d], p[d..])
    else
      (p, "")
  }

  /** `Path(name).suffix` (Python 3.8 to 3.13): the text from the last dot, unless
      that dot is the first character or the last one. */
  function Suffix(name: string): (e: string)
    ensures e != "" ==> |e| < |name|
    ensures e == "" || (|e| >= 2 && e[0] == '.' && '.' !in e[1..] && e == name[|name| - |e|..])
  {
    var i := LastIndexOf(name, '.');
    if 0 < i < |name| - 1 then
      assert forall j :: 1 <= j < |name[i..]| ==> name[i..][j] == name[i + j];
      name[i..]
    else
      ""
  }

  /** The two ways the organizer splits off an extension agree whenever the name
      has something other than dots before its last dot and does not end in one. */
  lemma SuffixMatchesSplitExt(name: string)
    requires '/' !in name
    requires var d := LastIndexOf(name, '.');
             0 <= d < |name| - 1 && exists k :: 0 <= k < d && name[k] != '.'
    ensures Suffix(name) == SplitExt(name).1
  {
    assert LastIndexOf(name, '/') == -1;
    assert HasExt(name);
  }
}
