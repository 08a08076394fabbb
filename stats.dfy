/** The statistics panel of the Pro organizer: the number of files and bytes
    per destination, in the order destinations first appear, then sorted by
    file count with the largest first. */
module Stats {
  import opened Basics
  import opened Records

  /** What one record adds to a tally: one file, or its size in bytes. */
  function Weight(r: Record, bySize: bool): nat {
    if bySize then r.size else 1
  }

  /** The records' total weight: their number, or the sum of their sizes. */
  function Total(records: seq<Record>, bySize: bool): (t: nat)
    ensures !bySize ==> t == |records|
    decreases |records|
  {
    if records == [] then 0
    else Total(Init(records), bySize) + Weight(Last(records), bySize)
  }

  /** `category_counts[c]` (files) or `category_sizes[c]` (bytes) after the loop. */
  function Tally(records: seq<Record>, c: string, bySize: bool): (n: nat)
    ensures n <= Total(records, bySize)
    decreases |records|
  {
    if records == [] then 0
    else Tally(Init(records), c, bySize) + (if Last(records).destination == c then Weight(Last(records), bySize) else 0)
  }

  predicate Distinct(cs: seq<string>) {
    forall i, j :: 0 <= i < j < |cs| ==> cs[i] != cs[j]
  }

  /** The keys of the `defaultdict`s in insertion order: each destination once,
      where it first appears. */
  function Categories(records: seq<Record>): (cs: seq<string>)
    ensures Distinct(cs)
    ensures forall c :: c in cs <==> exists k :: 0 <= k < |records| && records[k].destination == c
    decreases |records|
  {
    if records == [] then []
    else
      var cs := Categories(Init(records));
      assert forall k :: 0 <= k < |records| - 1 ==> records[k] == Init(records)[k];
      if Last(records).destination in cs then cs else cs + [Last(records).destination]
  }

  /** The `defaultdict` `update_statistics` fills: each destination's count
      (or size) added up record by record. */
  function Dict(records: seq<Record>, bySize: bool): (m: map<string, nat>)
    ensures records != [] ==> Last(records).destination in m
    decreases |records|
  {
    if records == [] then map[]
    else
      var m := Dict(Init(records), bySize);
      var c := Last(records).destination;
      m[c := (if c in m then m[c] else 0) + Weight(Last(records), bySize)]
  }

  /** The dictionary's keys are the destinations and its values their tallies. */
  lemma {:induction false} DictTallies(records: seq<Record>, bySize: bool)
    ensures forall c :: c in Dict(records, bySize) <==> c in Categories(records)
    ensures forall c :: c in Dict(records, bySize) ==> Dict(records, bySize)[c] == Tally(records, c, bySize)
    decreases |records|
  {
    if records != [] {
      var pre := Init(records);
      DictTallies(pre, bySize);
      var c := Last(records).destination;
      if c !in Dict(pre, bySize) {
        TallyAbsent(pre, c, bySize);
      }
    }
  }

  /** Taking one more record into account: the total grows by its size, its
      destination is appended if new, and the dictionaries are updated at it. */
  lemma CountAppend(records: seq<Record>, r: Record)
    ensures var c := r.destination;
            Total(records + [r], true) == Total(records, true) + r.size
            && Categories(records + [r]) == (if c in Categories(records) then Categories(records)
                                             else Categories(records) + [c])
            && forall bySize :: Dict(records + [r], bySize) == DictAdd(Dict(records, bySize), r, bySize)
  {
    OrderSnoc(records, r);
    forall bySize
      ensures Dict(records + [r], bySize) == DictAdd(Dict(records, bySize), r, bySize)
    {
      DictSnoc(records, r, bySize);
    }
  }

  /** The `defaultdict` update for one record: its destination's entry, 0 when
      missing, grows by the record's weight. */
  function DictAdd(m: map<string, nat>, r: Record, bySize: bool): map<string, nat> {
    m[r.destination := (if r.destination in m then m[r.destination] else 0) + Weight(r, bySize)]
  }

  /** The dictionary after one more record. */
  lemma DictSnoc(records: seq<Record>, r: Record, bySize: bool)
    ensures Dict(records + [r], bySize) == DictAdd(Dict(records, bySize), r, bySize)
  {
    InitSnoc(records, r);
  }

  /** The total and the destination order after one more record. */
  lemma OrderSnoc(records: seq<Record>, r: Record)
    ensures Total(records + [r], true) == Total(records, true) + r.size
    ensures Categories(records + [r]) == (if r.destination in Categories(records) then Categories(records)
                                         else Categories(records) + [r.destination])
  {
    InitSnoc(records, r);
  }

  /** A destination no record has tallies to nothing. */
  lemma {:induction false} TallyAbsent(records: seq<Record>, c: string, bySize: bool)
    requires c !in Categories(records)
    ensures Tally(records, c, bySize) == 0
    decreases |records|
  {
    if records != [] {
      assert forall k :: 0 <= k < |records| - 1 ==> records[k] == Init(records)[k];
      TallyAbsent(Init(records), c, bySize);
    }
  }

  /** A destination some record has is counted at least once. */
  lemma {:induction false} TallyPresent(records: seq<Record>, c: string)
    requires c in Categories(records)
    ensures Tally(records, c, false) >= 1
    decreases |records|
  {
    assert records != [];
    if c in Categories(Init(records)) {
      TallyPresent(Init(records), c);
    }
  }

  /** One row of the panel. */
  datatype CategoryStat = CategoryStat(category: string, count: nat, size: nat)

  function StatWeight(s: CategoryStat, bySize: bool): nat {
    if bySize then s.size else s.count
  }

  /** The rows for the given destinations. */
  function Rows(cs: seq<string>, records: seq<Record>): (rows: seq<CategoryStat>)
    ensures |rows| == |cs|
    ensures forall i :: 0 <= i < |cs| ==>
              rows[i] == CategoryStat(cs[i], Tally(records, cs[i], false), Tally(records, cs[i], true))
    decreases |cs|
  {
    if cs == [] then [] else Rows(Init(cs), records) + [CategoryStat(Last(cs), Tally(records, Last(cs), false), Tally(records, Last(cs), true))]
  }

  /** `category_counts.items()` joined with `category_sizes`. */
  function Breakdown(records: seq<Record>): (rows: seq<CategoryStat>)
    ensures |rows| == |Categories(records)|
    ensures forall i :: 0 <= i < |rows| ==>
              rows[i].category == Categories(records)[i] && 1 <= rows[i].count
              && rows[i].count == Tally(records, rows[i].category, false)
              && rows[i].size == Tally(records, rows[i].category, true)
  {
    var cs := Categories(records);
    assert forall i :: 0 <= i < |cs| ==> 1 <= Tally(records, cs[i], false) by {
      forall i | 0 <= i < |cs|
        ensures 1 <= Tally(records, cs[i], false)
      {
        TallyPresent(records, cs[i]);
      }
    }
    Rows(cs, records)
  }

  /** The sum of a column. */
  function Sum(rows: seq<CategoryStat>, bySize: bool): nat
    decreases |rows|
  {
    if rows == [] then 0 else Sum(Init(rows), bySize) + StatWeight(Last(rows), bySize)
  }

  /** Adding a record adds its weight to the row of its destination, if that row is listed. */
  lemma {:induction false} RowsGrow(cs: seq<string>, records: seq<Record>, r: Record, bySize: bool)
    requires Distinct(cs)
    ensures Sum(Rows(cs, records + [r]), bySize)
            == Sum(Rows(cs, records), bySize) + (if r.destination in cs then Weight(r, bySize) else 0)
    decreases |cs|
  {
    if cs != [] {
      assert Init(records + [r]) == records && Last(records + [r]) == r;
      assert forall c :: c in Init(cs) ==> c in cs;
      assert r.destination in cs <==> r.destination in Init(cs) || r.destination == Last(cs);
      assert r.destination in Init(cs) ==> r.destination != Last(cs);
      RowsGrow(Init(cs), records, r, bySize);
    }
  }

  /** Adding a row for a destination nobody has adds nothing. */
  lemma RowsNewCategory(cs: seq<string>, records: seq<Record>, c: string, bySize: bool)
    requires c !in Categories(records)
    ensures Sum(Rows(cs + [c], records), bySize) == Sum(Rows(cs, records), bySize)
  {
    assert Init(cs + [c]) == cs && Last(cs + [c]) == c;
    TallyAbsent(records, c, bySize);
  }

  /** The breakdown accounts for every record: its counts add up to the number
      of files and its sizes to the total size the panel shows. */
  lemma {:induction false} BreakdownAccountsForAll(records: seq<Record>, bySize: bool)
    ensures Sum(Breakdown(records), bySize) == Total(records, bySize)
    decreases |records|
  {
    if records != [] {
      var pre := Init(records);
      var r := Last(records);
      assert records == pre + [r];
      BreakdownAccountsForAll(pre, bySize);
      var cs := Categories(pre);
      if r.destination in cs {
        RowsGrow(cs, pre, r, bySize);
      } else {
        RowsNewCategory(cs, pre, r.destination, bySize);
        RowsGrow(cs + [r.destination], pre, r, bySize);
      }
    }
  }

  /** The counts add up to the number of files. */
  lemma CountsAddUp(records: seq<Record>)
    ensures Sum(Breakdown(records), false) == |records|
  {
    BreakdownAccountsForAll(records, false);
  }

  // ---------------------------------------------------------------------------
  // sorted(..., key=count, reverse=True)

  predicate SortedByCount(rows: seq<CategoryStat>) {
    forall i, j :: 0 <= i < j < |rows| ==> rows[i].count >= rows[j].count
  }

  /** Insert a row after every row with at least its count. */
  function Insert(x: CategoryStat, rows: seq<CategoryStat>): (r: seq<CategoryStat>)
    ensures multiset(r) == multiset(rows) + multiset{x}
    decreases |rows|
  {
    if rows == [] then [x]
    else if rows[0].count >= x.count then
      assert rows == [rows[0]] + rows[1..];
      [rows[0]] + Insert(x, rows[1..])
    else
      [x] + rows
  }

  /** Inserting into a sorted list keeps it sorted. */
  lemma {:induction false} InsertSorted(x: CategoryStat, rows: seq<CategoryStat>)
    requires SortedByCount(rows)
    ensures SortedByCount(Insert(x, rows))
    decreases |rows|
  {
    if rows == [] {
    } else if rows[0].count >= x.count {
      SortedTail(rows);
      InsertSorted(x, rows[1..]);
      SortedHeadBound(rows);
      InsertBounded(x, rows[1..], rows[0].count);
      InsertPastHead(x, rows);
      ConsSorted(rows[0], Insert(x, rows[1..]));
    } else {
      SortedHeadBound(rows);
      ConsSorted(x, rows);
    }
  }

  /** Every row of a list counts at most `b`. */
  predicate AtMost(rows: seq<CategoryStat>, b: nat) {
    forall i :: 0 <= i < |rows| ==> rows[i].count <= b
  }

  lemma SortedTail(rows: seq<CategoryStat>)
    requires rows != [] && SortedByCount(rows)
    ensures SortedByCount(rows[1..])
  {
    forall i, j | 0 <= i < j < |rows[1..]|
      ensures rows[1..][i].count >= rows[1..][j].count
    {
      assert rows[1..][i] == rows[i + 1] && rows[1..][j] == rows[j + 1];
    }
  }

  /** In a sorted list the first row has the largest count. */
  lemma SortedHeadBound(rows: seq<CategoryStat>)
    requires rows != [] && SortedByCount(rows)
    ensures AtMost(rows, rows[0].count)
    ensures AtMost(rows[1..], rows[0].count)
  {
    forall i | 0 <= i < |rows[1..]|
      ensures rows[1..][i].count <= rows[0].count
    {
      assert rows[1..][i] == rows[i + 1];
    }
  }

  /** Inserting a row under a bound keeps every count under it. */
  lemma {:induction false} InsertBounded(x: CategoryStat, rows: seq<CategoryStat>, b: nat)
    requires AtMost(rows, b) && x.count <= b
    ensures AtMost(Insert(x, rows), b)
    decreases |rows|
  {
    if rows != [] && rows[0].count >= x.count {
      AtMostTail(rows, b);
      InsertBounded(x, rows[1..], b);
      InsertPastHead(x, rows);
      AtMostCons(rows[0], Insert(x, rows[1..]), b);
    } else if rows != [] {
      AtMostCons(x, rows, b);
    }
  }

  lemma AtMostTail(rows: seq<CategoryStat>, b: nat)
    requires rows != [] && AtMost(rows, b)
    ensures AtMost(rows[1..], b)
  {
    forall i | 0 <= i < |rows[1..]|
      ensures rows[1..][i].count <= b
    {
      assert rows[1..][i] == rows[i + 1];
    }
  }

  lemma AtMostCons(y: CategoryStat, rows: seq<CategoryStat>, b: nat)
    requires AtMost(rows, b) && y.count <= b
    ensures AtMost([y] + rows, b)
  {
    forall i | 0 <= i < |[y] + rows|
      ensures ([y] + rows)[i].count <= b
    {
      if i > 0 {
        assert ([y] + rows)[i] == rows[i - 1];
      }
    }
  }

  /** A row with at least every count of a sorted list may go in front of it. */
  lemma ConsSorted(y: CategoryStat, rows: seq<CategoryStat>)
    requires SortedByCount(rows) && AtMost(rows, y.count)
    ensures SortedByCount([y] + rows)
  {
    var r := [y] + rows;
    forall i, j | 0 <= i < j < |r|
      ensures r[i].count >= r[j].count
    {
      assert r[j] == rows[j - 1];
      if i > 0 {
        assert r[i] == rows[i - 1];
      }
    }
  }

  /** A stable sort by count, largest first. */
  function SortByCount(rows: seq<CategoryStat>): (r: seq<CategoryStat>)
    ensures SortedByCount(r)
    ensures multiset(r) == multiset(rows)
    decreases |rows|
  {
    if rows == [] then []
    else
      InitLast(rows);
      InsertSorted(Last(rows), SortByCount(Init(rows)));
      Insert(Last(rows), SortByCount(Init(rows)))
  }

  /** The rows with count `v`, in order. */
  function WithCount(rows: seq<CategoryStat>, v: nat): seq<CategoryStat>
    decreases |rows|
  {
    if rows == [] then []
    else (if rows[0].count == v then [rows[0]] else []) + WithCount(rows[1..], v)
  }

  lemma {:induction false} WithCountConcat(a: seq<CategoryStat>, b: seq<CategoryStat>, v: nat)
    ensures WithCount(a + b, v) == WithCount(a, v) + WithCount(b, v)
    decreases |a|
  {
    if a == [] {
      assert a + b == b;
    } else {
      var ab := a + b;
      var h := if a[0].count == v then [a[0]] else [];
      assert ab[0] == a[0] && ab[1..] == a[1..] + b;
      assert WithCount(ab, v) == h + WithCount(a[1..] + b, v);
      WithCountConcat(a[1..], b, v);
      AppendAssoc(h, WithCount(a[1..], v), WithCount(b, v));
    }
  }

  lemma {:induction false} WithCountNone(rows: seq<CategoryStat>, v: nat)
    requires forall i :: 0 <= i < |rows| ==> rows[i].count < v
    ensures WithCount(rows, v) == []
    decreases |rows|
  {
    if rows != [] {
      WithCountNone(rows[1..], v);
    }
  }

  /** A list starting with one row. */
  lemma WithCountCons(y: CategoryStat, rows: seq<CategoryStat>, v: nat)
    ensures WithCount([y] + rows, v) == (if y.count == v then [y] else []) + WithCount(rows, v)
  {
    assert ([y] + rows)[1..] == rows;
  }

  /** Inserting into a sorted list puts the row after every row of equal count. */
  lemma {:induction false} InsertAfterEqual(x: CategoryStat, rows: seq<CategoryStat>, v: nat)
    requires SortedByCount(rows)
    ensures WithCount(Insert(x, rows), v) == WithCount(rows, v) + (if x.count == v then [x] else [])
    decreases |rows|
  {
    if rows == [] {
      WithCountCons(x, [], v);
    } else if rows[0].count >= x.count {
      InsertAfterEqual(x, rows[1..], v);
      InsertAfterHead(x, rows, v);
    } else {
      InsertBeforeHead(x, rows, v);
    }
  }

  /** The step of `InsertAfterEqual` past a first row with at least the count of `x`. */
  lemma InsertAfterHead(x: CategoryStat, rows: seq<CategoryStat>, v: nat)
    requires rows != [] && rows[0].count >= x.count
    requires WithCount(Insert(x, rows[1..]), v) == WithCount(rows[1..], v) + (if x.count == v then [x] else [])
    ensures WithCount(Insert(x, rows), v) == WithCount(rows, v) + (if x.count == v then [x] else [])
  {
    var rest := rows[1..];
    var h: seq<CategoryStat> := if rows[0].count == v then [rows[0]] else [];
    var t: seq<CategoryStat> := if x.count == v then [x] else [];
    InsertPastHead(x, rows);
    WithCountCons(rows[0], Insert(x, rest), v);
    WithCountHead(rows, v);
    AppendAssoc(h, WithCount(rest, v), t);
  }

  lemma InsertPastHead(x: CategoryStat, rows: seq<CategoryStat>)
    requires rows != [] && rows[0].count >= x.count
    ensures Insert(x, rows) == [rows[0]] + Insert(x, rows[1..])
  {
  }

  lemma WithCountHead(rows: seq<CategoryStat>, v: nat)
    requires rows != []
    ensures WithCount(rows, v) == (if rows[0].count == v then [rows[0]] else []) + WithCount(rows[1..], v)
  {
  }

  lemma AppendAssoc<T>(a: seq<T>, b: seq<T>, c: seq<T>)
    ensures a + (b + c) == (a + b) + c
  {
  }

  /** A row with a larger count than the first goes in front. */
  lemma InsertBeforeHead(x: CategoryStat, rows: seq<CategoryStat>, v: nat)
    requires SortedByCount(rows)
    requires rows != [] && rows[0].count < x.count
    ensures WithCount(Insert(x, rows), v) == WithCount(rows, v) + (if x.count == v then [x] else [])
  {
    assert Insert(x, rows) == [x] + rows;
    WithCountCons(x, rows, v);
    if x.count == v {
      WithCountNone(rows, v);
    }
  }

  /** The sort is stable: rows of equal count keep the order in which their
      destinations first appeared, as Python's `sorted` keeps them. */
  lemma {:induction false} SortByCountStable(rows: seq<CategoryStat>, v: nat)
    ensures WithCount(SortByCount(rows), v) == WithCount(rows, v)
    decreases |rows|
  {
    if rows != [] {
      var x := Last(rows);
      var pre := Init(rows);
      var sorted := SortByCount(pre);
      assert rows == pre + [x];
      var tail: seq<CategoryStat> := if x.count == v then [x] else [];
      assert SortByCount(rows) == Insert(x, sorted);
      SortByCountStable(pre, v);
      InsertAfterEqual(x, sorted, v);
      assert WithCount(SortByCount(rows), v) == WithCount(pre, v) + tail;
      WithCountConcat(pre, [x], v);
      WithCountCons(x, [], v);
      assert WithCount([x], v) == tail;
    }
  }

  /** Column sums depend only on the multiset of rows. */
  lemma {:induction false} SumOfPermutation(a: seq<CategoryStat>, b: seq<CategoryStat>, bySize: bool)
    requires multiset(a) == multiset(b)
    ensures Sum(a, bySize) == Sum(b, bySize)
    decreases |a|
  {
    if a != [] {
      var x := Last(a);
      InitLast(a);
      assert x in multiset(b);
      var k :| 0 <= k < |b| && b[k] == x;
      var b' := b[..k] + b[k + 1..];
      assert b == b[..k] + [x] + b[k + 1..];
      assert multiset(b) == multiset(b[..k]) + multiset{x} + multiset(b[k + 1..]);
      assert multiset(b') == multiset(b[..k]) + multiset(b[k + 1..]);
      assert multiset(a) == multiset(Init(a)) + multiset{x};
      assert multiset(Init(a)) == multiset(a) - multiset{x};
      assert multiset(b') == multiset(b) - multiset{x};
      SumOfPermutation(Init(a), b', bySize);
      SumRemove(b, k, bySize);
    }
  }

  /** Removing one row subtracts its weight. */
  lemma {:induction false} SumRemove(b: seq<CategoryStat>, k: nat, bySize: bool)
    requires k < |b|
    ensures Sum(b, bySize) == Sum(b[..k] + b[k + 1..], bySize) + StatWeight(b[k], bySize)
    decreases |b|
  {
    if k == |b| - 1 {
      assert b[..k] + b[k + 1..] == Init(b);
    } else {
      SumRemove(Init(b), k, bySize);
      assert Init(b)[..k] + Init(b)[k + 1..] == Init(b[..k] + b[k + 1..]);
      assert Last(b[..k] + b[k + 1..]) == Last(b);
    }
  }

  /** What `update_statistics` lists: every destination once, sorted by count
      largest first, ties in first-appearance order, with counts adding up to
      the number of files and sizes to the total size. */
  function SortedBreakdown(records: seq<Record>): (rows: seq<CategoryStat>)
    ensures SortedByCount(rows)
    ensures multiset(rows) == multiset(Breakdown(records))
    ensures Sum(rows, false) == |records| && Sum(rows, true) == Total(records, true)
    ensures forall v :: WithCount(rows, v) == WithCount(Breakdown(records), v)
  {
    var rows := SortByCount(Breakdown(records));
    forall v
      ensures WithCount(rows, v) == WithCount(Breakdown(records), v)
    {
      SortByCountStable(Breakdown(records), v);
    }
    SumOfPermutation(rows, Breakdown(records), false);
    SumOfPermutation(rows, Breakdown(records), true);
    CountsAddUp(records);
    BreakdownAccountsForAll(records, true);
    rows
  }
}
