/** The pieces of Python string handling the organizer relies on: `str(n)`, `%0Nd`
    zero padding, ASCII `lower()`, the `in` substring test and `str.replace`. */
module Format {

  predicate IsDigit(c: char) {
    '0' <= c <= '9'
  }

  function DigitChar(d: nat): (c: char)
    requires d < 10
    ensures IsDigit(c)
  {
    ['0','1','2','3','4','5','6','7','8','9'][d]
  }

  function DigitValue(c: char): (d: nat)
    requires IsDigit(c)
    ensures d < 10
  {
    (c as int - '0' as int) as nat
  }

  lemma DigitRoundTrip(d: nat)
    requires d < 10
    ensures DigitValue(DigitChar(d)) == d
  {
  }

  /** `str(n)` for a non-negative int: decimal digits, no leading zeros. */
  function NatToString(n: nat): (s: string)
    ensures |s| >= 1
    ensures forall k :: 0 <= k < |s| ==> IsDigit(s[k])
    ensures n >= 10 ==> |s| >= 2
  {
    if n < 10 then [DigitChar(n)] else NatToString(n / 10) + [DigitChar(n % 10)]
  }

  /** Reads a string of decimal digits back as a number (leading zeros allowed). */
  function ParseDecimal(s: string): nat
    requires forall k :: 0 <= k < |s| ==> IsDigit(s[k])
  {
    if s == [] then 0 else ParseDecimal(s[..|s| - 1]) * 10 + DigitValue(s[|s| - 1])
  }

  lemma {:induction false} ParseNatToString(n: nat)
    ensures ParseDecimal(NatToString(n)) == n
  {
    var s := NatToString(n);
    if n < 10 {
      DigitRoundTrip(n);
    } else {
      assert s[..|s| - 1] == NatToString(n / 10);
      ParseNatToString(n / 10);
      DigitRoundTrip(n % 10);
    }
  }

  /** Different numbers print differently: `str` is injective on naturals. */
  lemma NatToStringInjective(a: nat, b: nat)
    requires NatToString(a) == NatToString(b)
    ensures a == b
  {
    ParseNatToString(a);
    ParseNatToString(b);
  }

  /** Numbers below 10^w print with at most w digits. */
  lemma {:induction false} NatToStringWidth(n: nat, w: nat)
    requires w >= 1 && n < Pow10(w)
    ensures |NatToString(n)| <= w
  {
    if n >= 10 {
      assert w != 1;
      assert n / 10 < Pow10(w - 1);
      NatToStringWidth(n / 10, w - 1);
    }
  }

  function Pow10(w: nat): (p: nat)
    ensures p >= 1
  {
    if w == 0 then 1 else 10 * Pow10(w - 1)
  }

  lemma Pow10Step(w: nat)
    ensures Pow10(w + 1) == 10 * Pow10(w)
  {
  }

  function Repeat(c: char, n: nat): (s: string)
    ensures |s| == n && forall k :: 0 <= k < n ==> s[k] == c
  {
    if n == 0 then [] else Repeat(c, n - 1) + [c]
  }

  /** Left padding with '0' up to `width` characters, as the format specifier `%0Nd` does. */
  function ZeroPad(s: string, width: nat): (r: string)
    ensures |r| == if |s| >= width then |s| else width
    ensures r == Repeat('0', |r| - |s|) + s
  {
    if |s| >= width then s else Repeat('0', width - |s|) + s
  }

  /** `f"{n:0{width}d}"` for a non-negative n. */
  function PadNumber(n: nat, width: nat): (s: string)
    ensures |s| >= width
    ensures forall k :: 0 <= k < |s| ==> IsDigit(s[k])
  {
    ZeroPad(NatToString(n), width)
  }

  lemma {:induction false} ParseLeadingZeros(z: nat, s: string)
    requires forall k :: 0 <= k < |s| ==> IsDigit(s[k])
    ensures forall k :: 0 <= k < |Repeat('0', z) + s| ==> IsDigit((Repeat('0', z) + s)[k])
    ensures ParseDecimal(Repeat('0', z) + s) == ParseDecimal(s)
  {
    if s == [] {
      ParseZeros(z);
      assert Repeat('0', z) + s == Repeat('0', z);
    } else {
      var t := Repeat('0', z) + s;
      assert t[..|t| - 1] == Repeat('0', z) + s[..|s| - 1];
      ParseLeadingZeros(z, s[..|s| - 1]);
    }
  }

  lemma {:induction false} ParseZeros(z: nat)
    ensures ParseDecimal(Repeat('0', z)) == 0
  {
    if z > 0 {
      assert Repeat('0', z)[..z - 1] == Repeat('0', z - 1);
      ParseZeros(z - 1);
    }
  }

  /** A zero-padded number reads back as the number: padding loses nothing. */
  lemma PadNumberRoundTrip(n: nat, width: nat)
    ensures ParseDecimal(PadNumber(n, width)) == n
  {
    var s := NatToString(n);
    ParseNatToString(n);
    ParseLeadingZeros(|PadNumber(n, width)| - |s|, s);
  }

  // ---------------------------------------------------------------------------
  // lower()

  /** Lower-cases ASCII letters; every other character is left alone. */
  function LowerChar(c: char): (r: char)
    ensures !('A' <= r <= 'Z')
    ensures !('A' <= c <= 'Z') ==> r == c
  {
    if 'A' <= c <= 'Z' then (c as int + 32) as char else c
  }

  predicate HasUpper(s: string) {
    exists k :: 0 <= k < |s| && 'A' <= s[k] <= 'Z'
  }

  /** `s.lower()` restricted to ASCII. */
  function Lower(s: string): (r: string)
    ensures |r| == |s|
    ensures !HasUpper(r)
    ensures forall k :: 0 <= k < |s| && !('A' <= s[k] <= 'Z') ==> r[k] == s[k]
  {
    seq(|s|, k requires 0 <= k < |s| => LowerChar(s[k]))
  }

  lemma LowerIdempotent(s: string)
    ensures Lower(Lower(s)) == Lower(s)
  {
  }

  /** `lower()` leaves a string without upper-case letters unchanged. */
  lemma LowerOfLower(s: string)
    requires !HasUpper(s)
    ensures Lower(s) == s
  {
  }

  // ---------------------------------------------------------------------------
  // substring test and replace

  predicate IsPrefix(p: string, s: string) {
    |p| <= |s| && s[..|p|] == p
  }

  /** `q` occurs in `s` starting at index `i`. */
  predicate OccursAt(s: string, q: string, i: int) {
    0 <= i <= |s| - |q| && s[i..i + |q|] == q
  }

  /** Python's `q in s` for strings. */
  function Contains(s: string, q: string): (b: bool)
    ensures b <==> exists i :: OccursAt(s, q, i)
  {
    if IsPrefix(q, s) then
      assert OccursAt(s, q, 0);
      true
    else if s == [] then
      assert forall i :: !OccursAt(s, q, i);
      false
    else
      var b := Contains(s[1..], q);
      assert forall i :: OccursAt(s[1..], q, i) <==> OccursAt(s, q, i + 1);
      assert !OccursAt(s, q, 0);
      assert forall i :: OccursAt(s, q, i) ==> i == 0 || OccursAt(s[1..], q, i - 1);
      b
  }

  lemma EmptyContained(s: string)
    ensures Contains(s, "")
  {
    assert OccursAt(s, "", 0);
  }

  /** `s.replace(find, repl)`: non-overlapping occurrences, scanned left to right. */
  function ReplaceAll(s: string, find: string, repl: string): (r: string)
    requires find != ""
    ensures |s| < |find| ==> r == s
    ensures |find| == |repl| ==> |r| == |s|
    decreases |s|
  {
    if |s| < |find| then s
    else if s[..|find|] == find then repl + ReplaceAll(s[|find|..], find, repl)
    else [s[0]] + ReplaceAll(s[1..], find, repl)
  }

  /** Replacing a text that does not occur changes nothing. */
  lemma {:induction false} ReplaceAbsent(s: string, find: string, repl: string)
    requires find != "" && !Contains(s, find)
    ensures ReplaceAll(s, find, repl) == s
  {
    if |s| >= |find| {
      assert !OccursAt(s, find, 0);
      assert forall i :: OccursAt(s[1..], find, i) ==> OccursAt(s, find, i + 1);
      ReplaceAbsent(s[1..], find, repl);
    }
  }

  /** Scanning left to right: the first occurrence of `find` is replaced, the
      text before it is kept, and the scan resumes after the occurrence, so
      occurrences never overlap. */
  lemma ReplaceFirstOccurrence(s: string, find: string, repl: string, i: nat)
    requires find != "" && OccursAt(s, find, i)
    requires forall j :: 0 <= j < i ==> !OccursAt(s, find, j)
    ensures ReplaceAll(s, find, repl) == s[..i] + (repl + ReplaceAll(s[i + |find|..], find, repl))
  {
    ReplaceKeepsPrefix(s, find, repl, i);
    var u := s[i..];
    assert OccursAt(u, find, 0);
    ReplaceStep(u, find, repl);
    assert u[|find|..] == s[i + |find|..];
  }

  /** Before the first occurrence of `find` the scan copies the text unchanged. */
  lemma {:induction false} ReplaceKeepsPrefix(s: string, find: string, repl: string, i: nat)
    requires find != "" && i + |find| <= |s|
    requires forall j :: 0 <= j < i ==> !OccursAt(s, find, j)
    ensures ReplaceAll(s, find, repl) == s[..i] + ReplaceAll(s[i..], find, repl)
    decreases i
  {
    if i == 0 {
      assert s[..0] + ReplaceAll(s[0..], find, repl) == ReplaceAll(s, find, repl);
    } else {
      var s1, j := s[1..], i - 1;
      NoOccurrenceInTail(s, find, i);
      ReplaceSkip(s, find, repl);
      ReplaceKeepsPrefix(s1, find, repl, j);
      ConsSlice(s, i, ReplaceAll(s1[j..], find, repl), ReplaceAll(s, find, repl), ReplaceAll(s1, find, repl));
    }
  }

  /** One step of the scan: an occurrence at the start is replaced, otherwise
      the first character is kept. */
  lemma ReplaceStep(s: string, find: string, repl: string)
    requires find != "" && |find| <= |s|
    ensures OccursAt(s, find, 0) ==> ReplaceAll(s, find, repl) == repl + ReplaceAll(s[|find|..], find, repl)
    ensures !OccursAt(s, find, 0) ==> ReplaceAll(s, find, repl) == [s[0]] + ReplaceAll(s[1..], find, repl)
  {
  }

  /** Without an occurrence at the start, the scan keeps the first character. */
  lemma ReplaceSkip(s: string, find: string, repl: string)
    requires find != "" && |find| <= |s| && !OccursAt(s, find, 0)
    ensures ReplaceAll(s, find, repl) == [s[0]] + ReplaceAll(s[1..], find, repl)
  {
  }

  /** Keeping the first character in front of the tail's result. */
  lemma ConsSlice(s: string, i: nat, mid: string, whole: string, tail: string)
    requires 0 < i <= |s|
    requires whole == [s[0]] + tail && tail == s[1..][..i - 1] + mid
    ensures whole == s[..i] + mid
  {
    assert [s[0]] + s[1..][..i - 1] == s[..i];
  }

  /** No occurrence before `i > 0` means none at the start, and none in the
      tail before `i - 1`. */
  lemma NoOccurrenceInTail(s: string, find: string, i: nat)
    requires 0 < i && i + |find| <= |s|
    requires forall j :: 0 <= j < i ==> !OccursAt(s, find, j)
    ensures !OccursAt(s, find, 0)
    ensures forall j :: 0 <= j < i - 1 ==> !OccursAt(s[1..], find, j)
    ensures s[1..][i - 1..] == s[i..]
  {
    var t := s[1..];
    forall j | 0 <= j < i - 1
      ensures !OccursAt(t, find, j)
    {
      assert !OccursAt(s, find, j + 1);
      assert t[j..j + |find|] == s[j + 1..j + 1 + |find|];
    }
  }

  /** Replacing a text by itself changes nothing. */
  lemma {:induction false} ReplaceBySelf(s: string, find: string)
    requires find != ""
    ensures ReplaceAll(s, find, find) == s
  {
    if |s| >= |find| {
      if s[..|find|] == find {
        ReplaceBySelf(s[|find|..], find);
        assert s == s[..|find|] + s[|find|..];
      } else {
        ReplaceBySelf(s[1..], find);
        assert s == [s[0]] + s[1..];
      }
    }
  }
}
