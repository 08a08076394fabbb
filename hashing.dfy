/** `OrganizerCore.get_file_hash`: a file is streamed through an MD5 hasher in
    chunks. The digest algorithm (RFC 1321) is not modelled: a hasher is any
    initial state, byte-wise update and hex rendering, with no assumption about
    collisions. */
module Hashing {
  import opened Basics
  import opened Paths
  import opened Disks

  /** An incremental hash: `hashlib.md5()` is `init`, `update` absorbs one
      byte and `hexdigest` renders the state. */
  datatype Md5<!S> = Md5(init: S, update: (S, byte) -> S, hexdigest: S -> string)

  /** `hasher.update(bytes)`: the state after absorbing the bytes in order. */
  function Absorb<S>(md5: Md5<S>, s: S, bytes: seq<byte>): (r: S)
    ensures forall a, x :: a + [x] == bytes ==> r == md5.update(Absorb(md5, s, a), x)
    decreases |bytes|
  {
    if bytes == [] then s
    else
      var rest := bytes[1..];
      assert forall a, x :: a + [x] == bytes && a != [] ==> a[0] == bytes[0] && a[1..] + [x] == rest;
      Absorb(md5, md5.update(s, bytes[0]), rest)
  }

  /** Absorbing two pieces one after the other is absorbing their
      concatenation: how the input is cut into chunks does not matter. */
  lemma {:induction false} AbsorbConcat<S>(md5: Md5<S>, s: S, a: seq<byte>, b: seq<byte>)
    ensures Absorb(md5, Absorb(md5, s, a), b) == Absorb(md5, s, a + b)
    decreases |a|
  {
    if a != [] {
      assert (a + b)[1..] == a[1..] + b;
      AbsorbConcat(md5, md5.update(s, a[0]), a[1..], b);
    } else {
      assert a + b == b;
    }
  }

  /** The hex digest of a whole byte string. */
  function Digest<S>(md5: Md5<S>, bytes: seq<byte>): (h: string)
    ensures forall a, b :: a + b == bytes ==> h == md5.hexdigest(Absorb(md5, Absorb(md5, md5.init, a), b))
  {
    assert forall a, b :: a + b == bytes ==> Absorb(md5, Absorb(md5, md5.init, a), b) == Absorb(md5, md5.init, bytes) by {
      forall a, b | a + b == bytes
        ensures Absorb(md5, Absorb(md5, md5.init, a), b) == Absorb(md5, md5.init, bytes)
      {
        AbsorbConcat(md5, md5.init, a, b);
      }
    }
    md5.hexdigest(Absorb(md5, md5.init, bytes))
  }

  /** `f.read(n)` at offset `pos`: everything left for a negative `n`, else at
      most `n` bytes. */
  function Read(content: seq<byte>, pos: nat, n: int): (chunk: seq<byte>)
    requires pos <= |content|
    ensures pos + |chunk| <= |content| && chunk == content[pos..pos + |chunk|]
    ensures chunk == [] <==> pos == |content| || n == 0
    ensures 0 <= n ==> |chunk| <= n
  {
    if n < 0 || |content| - pos <= n then content[pos..] else content[pos..pos + n]
  }

  /** The specification of `get_file_hash`: `None` when the file cannot be
      opened for reading; otherwise the digest of its content, or of nothing
      when a chunk size of zero makes the first read come back empty. */
  function FileHash<S>(md5: Md5<S>, d: Disk, p: Path, chunkSize: int): (h: Option<string>)
    ensures h.None? <==> !Readable(d, p)
    ensures h.Some? && chunkSize != 0 ==> h.value == Digest(md5, d.files[p].content)
    ensures h.Some? && chunkSize == 0 ==> h.value == Digest(md5, [])
  {
    if !Readable(d, p) then None
    else if chunkSize == 0 then Some(Digest(md5, []))
    else Some(Digest(md5, d.files[p].content))
  }

  /** The default `chunk_size` of `get_file_hash`. */
  const DefaultChunkSize: int := 8192

  /** `get_file_hash(filepath, chunk_size)`: reads chunks until an empty read,
      feeding each to the hasher. The bytes absorbed so far are always the
      prefix read so far, so the result is the digest of the whole content
      whatever positive chunk size is used. */
  method GetFileHash<S>(md5: Md5<S>, d: Disk, p: Path, chunkSize: int) returns (h: Option<string>)
    ensures h == FileHash(md5, d, p, chunkSize)
  {
    if !Readable(d, p) {
      return None;
    }
    var content := d.files[p].content;
    var state := md5.init;
    var pos := 0;
    var chunk := Read(content, pos, chunkSize);
    while chunk != []
      invariant pos <= |content|
      invariant state == Absorb(md5, md5.init, content[..pos])
      invariant chunk == Read(content, pos, chunkSize)
      invariant chunkSize == 0 ==> pos == 0
      decreases |content| - pos
    {
      AbsorbConcat(md5, md5.init, content[..pos], chunk);
      assert content[..pos] + chunk == content[..pos + |chunk|];
      state := Absorb(md5, state, chunk);
      pos := pos + |chunk|;
      chunk := Read(content, pos, chunkSize);
    }
    if chunkSize != 0 {
      assert content[..pos] == content;
    }
    h := Some(md5.hexdigest(state));
  }
}
