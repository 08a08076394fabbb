/** `OrganizerCore.find_duplicates`: every path is hashed, paths with a
    non-empty hash are appended to a dictionary of lists keyed by the hash, and
    only the lists with more than one path are returned, in key insertion
    order. Also the Ultimate organizer's duplicate count over the result. */
module Duplicates {
  import opened Basics
  import opened Paths
  import opened Disks
  import opened Hashing

  /** The key a path is filed under: its hash when `get_file_hash` returns one
      and it is non-empty (the `if f_hash:` test); otherwise none. */
  function KeyOf<S>(md5: Md5<S>, d: Disk, p: Path): (k: Option<string>)
    ensures k.Some? ==> Readable(d, p) && k.value == Digest(md5, d.files[p].content) && k.value != ""
    ensures k.None? ==> !Readable(d, p) || Digest(md5, d.files[p].content) == ""
  {
    var h := FileHash(md5, d, p, DefaultChunkSize);
    if h.Some? && h.value != "" then Some(h.value) else None
  }

  /** The dictionary's keys: the distinct keys of the paths in the order they
      first occur. */
  function KeyOrder<S>(md5: Md5<S>, d: Disk, paths: seq<Path>): (ks: seq<string>)
    ensures forall i, j :: 0 <= i < j < |ks| ==> ks[i] != ks[j]
    ensures forall k :: k in ks <==> exists i :: 0 <= i < |paths| && KeyOf(md5, d, paths[i]) == Some(k)
    decreases |paths|
  {
    if paths == [] then []
    else
      var ks := KeyOrder(md5, d, Init(paths));
      var k := KeyOf(md5, d, Last(paths));
      assert forall i :: 0 <= i < |paths| - 1 ==> Init(paths)[i] == paths[i];
      if k.Some? && k.value !in ks then ks + [k.value] else ks
  }

  /** The list filed under `k`: the paths with that key, in input order. */
  function Members<S>(md5: Md5<S>, d: Disk, paths: seq<Path>, k: string): (ms: seq<Path>)
    ensures |ms| <= |paths|
    ensures forall p :: p in ms <==> p in paths && KeyOf(md5, d, p) == Some(k)
    decreases |paths|
  {
    if paths == [] then []
    else
      var ms := Members(md5, d, Init(paths), k);
      InitLast(paths);
      if KeyOf(md5, d, Last(paths)) == Some(k) then ms + [Last(paths)] else ms
  }

  lemma KeyOrderStep<S>(md5: Md5<S>, d: Disk, paths: seq<Path>, p: Path)
    ensures var ks, k := KeyOrder(md5, d, paths), KeyOf(md5, d, p);
            KeyOrder(md5, d, paths + [p]) == if k.Some? && k.value !in ks then ks + [k.value] else ks
  {
    assert Init(paths + [p]) == paths && Last(paths + [p]) == p;
  }

  lemma MembersStep<S>(md5: Md5<S>, d: Disk, paths: seq<Path>, p: Path, k: string)
    ensures Members(md5, d, paths + [p], k)
              == Members(md5, d, paths, k) + if KeyOf(md5, d, p) == Some(k) then [p] else []
  {
    assert Init(paths + [p]) == paths && Last(paths + [p]) == p;
  }

  /** A key that never occurs has an empty list. */
  lemma AbsentKeyNoMembers<S>(md5: Md5<S>, d: Disk, paths: seq<Path>, k: string)
    requires k !in KeyOrder(md5, d, paths)
    ensures Members(md5, d, paths, k) == []
  {
  }

  /** Filing keeps input order: the lists distribute over concatenation. */
  lemma {:induction false} MembersAppend<S>(md5: Md5<S>, d: Disk, a: seq<Path>, b: seq<Path>, k: string)
    ensures Members(md5, d, a + b, k) == Members(md5, d, a, k) + Members(md5, d, b, k)
    decreases |b|
  {
    if b == [] {
      assert a + b == a;
    } else {
      assert Init(a + b) == a + Init(b);
      assert Last(a + b) == Last(b);
      MembersAppend(md5, d, a, Init(b), k);
    }
  }

  /** Two different positions holding paths with the same key both end up in
      that key's list, which therefore has at least two paths. */
  lemma {:induction false} SameKeyTwice<S>(md5: Md5<S>, d: Disk, paths: seq<Path>, i: nat, j: nat, k: string)
    requires i < j < |paths|
    requires KeyOf(md5, d, paths[i]) == Some(k) && KeyOf(md5, d, paths[j]) == Some(k)
    ensures |Members(md5, d, paths, k)| >= 2
    decreases |paths|
  {
    assert forall n :: 0 <= n < |paths| - 1 ==> Init(paths)[n] == paths[n];
    if j == |paths| - 1 {
      assert paths[i] in Init(paths);
      assert |Members(md5, d, Init(paths), k)| >= 1;
    } else {
      SameKeyTwice(md5, d, Init(paths), i, j, k);
    }
  }

  datatype Group = Group(digest: string, paths: seq<Path>)

  /** `{k: v for k, v in hash_map.items() if len(v) > 1}` over the keys `ks`. */
  function GroupsOver<S>(md5: Md5<S>, d: Disk, paths: seq<Path>, ks: seq<string>): (gs: seq<Group>)
    ensures forall g :: g in gs ==> g.digest in ks && g.paths == Members(md5, d, paths, g.digest) && |g.paths| >= 2
    ensures forall k :: k in ks && |Members(md5, d, paths, k)| >= 2 ==> Group(k, Members(md5, d, paths, k)) in gs
    ensures (forall a, b :: 0 <= a < b < |ks| ==> ks[a] != ks[b]) ==>
              forall a, b :: 0 <= a < b < |gs| ==> gs[a].digest != gs[b].digest
    decreases |ks|
  {
    if ks == [] then []
    else
      var gs := GroupsOver(md5, d, paths, Init(ks));
      var k := Last(ks);
      var ms := Members(md5, d, paths, k);
      assert forall n :: 0 <= n < |ks| - 1 ==> Init(ks)[n] == ks[n];
      InitLast(ks);
      if |ms| > 1 then gs + [Group(k, ms)] else gs
  }

  /** The specification of `find_duplicates(file_paths)`. */
  function DuplicateGroups<S>(md5: Md5<S>, d: Disk, paths: seq<Path>): (gs: seq<Group>)
    ensures forall g :: g in gs ==>
              |g.paths| >= 2 && forall p :: p in g.paths ==> p in paths && KeyOf(md5, d, p) == Some(g.digest)
    ensures forall a, b :: 0 <= a < b < |gs| ==> gs[a].digest != gs[b].digest
  {
    GroupsOver(md5, d, paths, KeyOrder(md5, d, paths))
  }

  /** A path that could not be hashed, or whose hash is empty, is in no group. */
  lemma UnhashedInNoGroup<S>(md5: Md5<S>, d: Disk, paths: seq<Path>, p: Path)
    requires KeyOf(md5, d, p).None?
    ensures forall g :: g in DuplicateGroups(md5, d, paths) ==> p !in g.paths
  {
  }

  /** Two input positions with the same digest end up in the same group. */
  lemma EqualDigestsGrouped<S>(md5: Md5<S>, d: Disk, paths: seq<Path>, i: nat, j: nat)
    requires i < j < |paths|
    requires KeyOf(md5, d, paths[i]).Some? && KeyOf(md5, d, paths[i]) == KeyOf(md5, d, paths[j])
    ensures exists g :: g in DuplicateGroups(md5, d, paths) && paths[i] in g.paths && paths[j] in g.paths
  {
    var k := KeyOf(md5, d, paths[i]).value;
    SameKeyTwice(md5, d, paths, i, j, k);
    var g := Group(k, Members(md5, d, paths, k));
    assert k in KeyOrder(md5, d, paths);
    assert g in DuplicateGroups(md5, d, paths);
  }

  /** A path belongs to at most one group: the groups found for it share its key. */
  lemma AtMostOneGroup<S>(md5: Md5<S>, d: Disk, paths: seq<Path>, p: Path, a: nat, b: nat)
    requires a < b < |DuplicateGroups(md5, d, paths)|
    ensures !(p in DuplicateGroups(md5, d, paths)[a].paths && p in DuplicateGroups(md5, d, paths)[b].paths)
  {
    var gs := DuplicateGroups(md5, d, paths);
    assert gs[a] in gs && gs[b] in gs;
  }

  // ---------------------------------------------------------------------------
  // the duplicate count of the Ultimate organizer

  /** `sum(len(v) - 1 for v in dups.values())`. */
  function DuplicateCount(gs: seq<Group>): (c: int)
    ensures (forall i :: 0 <= i < |gs| ==> 2 <= |gs[i].paths|) ==> |gs| <= c
    decreases |gs|
  {
    if gs == [] then 0
    else
      assert forall i :: 0 <= i < |gs| - 1 ==> gs[i] == Init(gs)[i];
      DuplicateCount(Init(gs)) + |Last(gs).paths| - 1
  }

  /** The number of positions whose key already occurred earlier: the files
      that are copies of some file before them. */
  function Repeats<S>(md5: Md5<S>, d: Disk, paths: seq<Path>): (n: nat)
    ensures paths != [] ==> n < |paths|
    decreases |paths|
  {
    if paths == [] then 0
    else
      var k := KeyOf(md5, d, Last(paths));
      Repeats(md5, d, Init(paths))
        + (if k.Some? && k.value in KeyOrder(md5, d, Init(paths)) then 1 else 0)
  }

  /** The sum of `len - 1` over the lists of every key in `ks`. */
  function Surplus<S>(md5: Md5<S>, d: Disk, paths: seq<Path>, ks: seq<string>): int
    decreases |ks|
  {
    if ks == [] then 0
    else Surplus(md5, d, paths, Init(ks)) + |Members(md5, d, paths, Last(ks))| - 1
  }

  /** Lists of one path add nothing to the surplus, so the discarded keys do
      not change it. */
  lemma {:induction false} GroupsOverCount<S>(md5: Md5<S>, d: Disk, paths: seq<Path>, ks: seq<string>)
    requires forall k :: k in ks ==> |Members(md5, d, paths, k)| >= 1
    ensures DuplicateCount(GroupsOver(md5, d, paths, ks)) == Surplus(md5, d, paths, ks)
    decreases |ks|
  {
    if ks != [] {
      assert forall k :: k in Init(ks) ==> k in ks;
      assert Last(ks) in ks;
      GroupsOverCount(md5, d, paths, Init(ks));
      var gs := GroupsOver(md5, d, paths, Init(ks));
      var ms := Members(md5, d, paths, Last(ks));
      if |ms| > 1 {
        DuplicateCountSnoc(gs, Group(Last(ks), ms));
      }
    }
  }

  lemma DuplicateCountSnoc(gs: seq<Group>, g: Group)
    ensures DuplicateCount(gs + [g]) == DuplicateCount(gs) + |g.paths| - 1
  {
    InitSnoc(gs, g);
  }

  /** One more path raises the surplus by one when its key is among `ks`. */
  lemma {:induction false} SurplusStep<S>(md5: Md5<S>, d: Disk, paths: seq<Path>, p: Path, ks: seq<string>)
    requires forall a, b :: 0 <= a < b < |ks| ==> ks[a] != ks[b]
    ensures var k := KeyOf(md5, d, p);
            Surplus(md5, d, paths + [p], ks)
              == Surplus(md5, d, paths, ks) + (if k.Some? && k.value in ks then 1 else 0)
    decreases |ks|
  {
    if ks != [] {
      var ps := paths + [p];
      assert Init(ps) == paths && Last(ps) == p;
      InitLast(ks);
      assert forall a, b :: 0 <= a < b < |Init(ks)| ==> Init(ks)[a] != Init(ks)[b];
      SurplusStep(md5, d, paths, p, Init(ks));
    }
  }

  /** Every key of the order has a non-empty list. */
  lemma KeysHaveMembers<S>(md5: Md5<S>, d: Disk, paths: seq<Path>)
    ensures forall k :: k in KeyOrder(md5, d, paths) ==> |Members(md5, d, paths, k)| >= 1
  {
    forall k | k in KeyOrder(md5, d, paths)
      ensures |Members(md5, d, paths, k)| >= 1
    {
      var i :| 0 <= i < |paths| && KeyOf(md5, d, paths[i]) == Some(k);
      assert paths[i] in Members(md5, d, paths, k);
    }
  }

  /** The surplus over all keys is the number of repeats. */
  lemma {:induction false} SurplusIsRepeats<S>(md5: Md5<S>, d: Disk, paths: seq<Path>)
    ensures Surplus(md5, d, paths, KeyOrder(md5, d, paths)) == Repeats(md5, d, paths)
    decreases |paths|
  {
    if paths != [] {
      var init, p := Init(paths), Last(paths);
      assert paths == init + [p];
      var ks := KeyOrder(md5, d, init);
      var k := KeyOf(md5, d, p);
      SurplusIsRepeats(md5, d, init);
      SurplusStep(md5, d, init, p, ks);
      KeyOrderStep(md5, d, init, p);
      assert Repeats(md5, d, paths) == Repeats(md5, d, init) + (if k.Some? && k.value in ks then 1 else 0);
      if k.Some? && k.value !in ks {
        var ks' := ks + [k.value];
        assert Init(ks') == ks && Last(ks') == k.value;
        AbsentKeyNoMembers(md5, d, init, k.value);
        MembersStep(md5, d, init, p, k.value);
        assert Surplus(md5, d, paths, ks') == Surplus(md5, d, paths, ks);
      }
    }
  }

  /** The Ultimate organizer's count is the number of files that repeat the
      content of an earlier file: every group contributes all members but one. */
  lemma DuplicateCountIsRepeats<S>(md5: Md5<S>, d: Disk, paths: seq<Path>)
    ensures DuplicateCount(DuplicateGroups(md5, d, paths)) == Repeats(md5, d, paths)
  {
    KeysHaveMembers(md5, d, paths);
    GroupsOverCount(md5, d, paths, KeyOrder(md5, d, paths));
    SurplusIsRepeats(md5, d, paths);
  }

  /** The loop of `find_duplicates`: hashes every path and appends it to the
      list of its key, creating the list when the key is new; reports progress
      after each path. */
  method FileByHash<S>(md5: Md5<S>, d: Disk, paths: seq<Path>)
    returns (hashMap: map<string, seq<Path>>, order: seq<string>, progress: seq<(nat, nat)>)
    ensures order == KeyOrder(md5, d, paths)
    ensures forall k :: k in hashMap <==> k in order
    ensures forall k :: k in hashMap ==> hashMap[k] == Members(md5, d, paths, k)
    ensures |progress| == |paths| && forall i :: 0 <= i < |paths| ==> progress[i] == (i + 1, |paths|)
  {
    hashMap, order, progress := map[], [], [];
    var total := |paths|;
    for i := 0 to |paths|
      invariant order == KeyOrder(md5, d, paths[..i])
      invariant forall k :: k in hashMap <==> k in order
      invariant forall k :: k in hashMap ==> hashMap[k] == Members(md5, d, paths[..i], k)
      invariant |progress| == i && forall j :: 0 <= j < i ==> progress[j] == (j + 1, total)
    {
      PrefixStep(paths, i);
      hashMap, order := FileOne(md5, d, paths[..i], paths[i], hashMap, order);
      progress := progress + [(i + 1, total)];
    }
    assert paths[..|paths|] == paths;
  }

  /** One iteration of the hashing loop: the path is appended to its key's
      list, and a new key to the order, when it has a key. */
  method FileOne<S>(md5: Md5<S>, d: Disk, ghost pre: seq<Path>, p: Path,
                    hashMap: map<string, seq<Path>>, order: seq<string>)
    returns (hashMap': map<string, seq<Path>>, order': seq<string>)
    requires order == KeyOrder(md5, d, pre)
    requires forall k :: k in hashMap <==> k in order
    requires forall k :: k in hashMap ==> hashMap[k] == Members(md5, d, pre, k)
    ensures order' == KeyOrder(md5, d, pre + [p])
    ensures forall k :: k in hashMap' <==> k in order'
    ensures forall k :: k in hashMap' ==> hashMap'[k] == Members(md5, d, pre + [p], k)
  {
    KeyOrderStep(md5, d, pre, p);
    hashMap', order' := hashMap, order;
    var fHash := GetFileHash(md5, d, p, DefaultChunkSize);
    if fHash.Some? && fHash.value != "" {
      var k := fHash.value;
      assert KeyOf(md5, d, p) == Some(k);
      if k in hashMap {
        hashMap' := hashMap[k := hashMap[k] + [p]];
      } else {
        AbsentKeyNoMembers(md5, d, pre, k);
        hashMap' := hashMap[k := [p]];
        order' := order + [k];
      }
    } else {
      assert KeyOf(md5, d, p).None?;
    }
    forall k | k in hashMap'
      ensures hashMap'[k] == Members(md5, d, pre + [p], k)
    {
      MembersStep(md5, d, pre, p, k);
    }
  }

  /** `find_duplicates(file_paths, progress_callback)`: the groups, and the
      `(i + 1, total)` calls made to the callback, one per path in order,
      whether or not hashing succeeded. */
  method FindDuplicates<S>(md5: Md5<S>, d: Disk, paths: seq<Path>) returns (groups: seq<Group>, progress: seq<(nat, nat)>)
    ensures groups == DuplicateGroups(md5, d, paths)
    ensures |progress| == |paths| && forall i :: 0 <= i < |paths| ==> progress[i] == (i + 1, |paths|)
  {
    var hashMap, order;
    hashMap, order, progress := FileByHash(md5, d, paths);
    groups := [];
    for j := 0 to |order|
      invariant groups == GroupsOver(md5, d, paths, order[..j])
    {
      assert Init(order[..j + 1]) == order[..j] && Last(order[..j + 1]) == order[j];
      var k := order[j];
      if |hashMap[k]| > 1 {
        groups := groups + [Group(k, hashMap[k])];
      }
    }
    assert order[..|order|] == order;
  }
}
