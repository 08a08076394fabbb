/** The Pro organizer's search box: which scanned files the list shows for a
    query, compared without regard to ASCII case. */
module Search {
  import opened Basics
  import opened Format
  import opened Records

  /** A record matches when the lowercased query occurs in its lowercased name
      or extension. */
  predicate Matches(r: Record, query: string) {
    var q := Lower(query);
    Contains(Lower(r.name), q) || Contains(Lower(r.ext), q)
  }

  /** The records `filter_files` shows, in file-list order. */
  function FilterRecords(records: seq<Record>, query: string): (shown: seq<Record>)
    ensures |shown| <= |records|
    ensures forall r :: r in shown <==> r in records && Matches(r, query)
    decreases |records|
  {
    if records == [] then []
    else
      var rest := FilterRecords(Init(records), query);
      InitLast(records);
      if Matches(Last(records), query) then rest + [Last(records)] else rest
  }

  /** Filtering keeps the list order: it distributes over concatenation. */
  lemma {:induction false} FilterAppend(a: seq<Record>, b: seq<Record>, query: string)
    ensures FilterRecords(a + b, query) == FilterRecords(a, query) + FilterRecords(b, query)
    decreases |b|
  {
    if b == [] {
      assert a + b == a;
    } else {
      assert Init(a + b) == a + Init(b);
      assert Last(a + b) == Last(b);
      FilterAppend(a, Init(b), query);
    }
  }

  /** An empty search box shows every file. */
  lemma {:induction false} EmptyQueryShowsAll(records: seq<Record>)
    ensures FilterRecords(records, "") == records
    decreases |records|
  {
    if records != [] {
      EmptyContained(Lower(Last(records).name));
      EmptyQueryShowsAll(Init(records));
      InitLast(records);
    }
  }

  /** Typing the query in another case shows the same files. */
  lemma CaseInsensitive(r: Record, query: string)
    ensures Matches(r, Lower(query)) == Matches(r, query)
  {
    LowerIdempotent(query);
  }

  /** The extension a scan stores is already lowercase, so a query lowercased
      once matches it as it is. */
  lemma ScannedExtMatchesAsStored(r: Record, query: string)
    requires !HasUpper(r.ext)
    ensures Contains(Lower(r.ext), Lower(query)) == Contains(r.ext, Lower(query))
  {
    LowerOfLower(r.ext);
  }

  /** The list shown depends only on the lowercased query. */
  lemma {:induction false} FilterCaseInsensitive(records: seq<Record>, query: string)
    ensures FilterRecords(records, Lower(query)) == FilterRecords(records, query)
    decreases |records|
  {
    if records != [] {
      CaseInsensitive(Last(records), query);
      FilterCaseInsensitive(Init(records), query);
    }
  }
}
