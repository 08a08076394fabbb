/** Small value types shared by every module of the model. */
module Basics {

  /** Python's `None`-or-value. */
  datatype Option<+T> = None | Some(value: T)

  /** A call that either returns a value or raises. */
  datatype Result<+T, +E> = Ok(value: T) | Err(error: E)

  /** One byte of file content. */
  newtype byte = x: int | 0 <= x < 256

  /** The last element of a non-empty sequence. */
  function Last<T>(s: seq<T>): T
    requires |s| > 0
  {
    s[|s| - 1]
  }

  /** All but the last element of a non-empty sequence. */
  function Init<T>(s: seq<T>): seq<T>
    requires |s| > 0
  {
    s[..|s| - 1]
  }

  /** Splitting off the last element commutes with dropping a prefix. */
  lemma InitDrop<T>(s: seq<T>, k: nat)
    requires k < |s|
    ensures Init(s)[k..] + [Last(s)] == s[k..]
  {
  }

  /** Appending one element and splitting it off again. */
  lemma InitSnoc<T>(s: seq<T>, x: T)
    ensures Init(s + [x]) == s && Last(s + [x]) == x
  {
  }

  /** The outer parts of a three-part concatenation. */
  lemma ConcatParts<T>(a: seq<T>, m: seq<T>, b: seq<T>)
    ensures (a + m + b)[..|a|] == a && (a + m + b)[|a| + |m|..] == b
  {
  }

  /** Taking one more element of a sequence. */
  lemma PrefixStep<T>(s: seq<T>, i: nat)
    requires i < |s|
    ensures s[..i + 1] == s[..i] + [s[i]]
  {
  }

  /** A non-empty sequence is its initial part followed by its last element. */
  lemma InitLast<T>(s: seq<T>)
    requires |s| > 0
    ensures Init(s) + [Last(s)] == s
  {
  }
}
