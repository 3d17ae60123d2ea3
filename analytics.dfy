/**
 * The 30-day histograms of the analytics page (frontend route Analytics.tsx). Days are numbered:
 * `today` is the number of the current local day, and `dayOf` gives the local day a timestamp
 * (in milliseconds) falls on, which is what resetting a date to midnight computes. A chart shows
 * the thirty days ending today, oldest first, and for each day the value in force on it.
 */
module Analytics {
  import opened Wrappers

  datatype NumberRecord = NumberRecord(timestamp: int, value: int)
  datatype DefectStatusRecord = DefectStatusRecord(timestamp: int, open: int, inWork: int, closed: int, rejected: int)
  datatype StatusCounts = StatusCounts(open: int, inWork: int, closed: int, rejected: int)

  const HistogramDays := 30
  const NoDefects := StatusCounts(0, 0, 0, 0)

  /** The sort keys the comparators read: a record's timestamp, and a day number itself. */
  function NumberTime(r: NumberRecord): int { r.timestamp }
  function DefectTime(r: DefectStatusRecord): int { r.timestamp }
  function DayNumber(d: int): int { d }

  function Counts(r: DefectStatusRecord): StatusCounts {
    StatusCounts(r.open, r.inWork, r.closed, r.rejected)
  }

  /** Ascending by the key. */
  predicate SortedBy<T>(s: seq<T>, key: T -> int) {
    forall p, q :: 0 <= p < q < |s| ==> key(s[p]) <= key(s[q])
  }

  /** Ascending up to `i`, except that the element at `j` may be out of place. */
  predicate SortedExcept<T>(s: seq<T>, key: T -> int, j: int, i: int)
    requires i < |s|
  {
    forall p, q :: 0 <= p < q <= i && p != j && q != j ==> key(s[p]) <= key(s[q])
  }

  /** One swap moves the out-of-place element one step down and keeps the rest in order. */
  lemma SwapStep<T>(s: seq<T>, key: T -> int, j: int, i: int)
    requires 0 < j <= i < |s|
    requires SortedExcept(s, key, j, i) && key(s[j - 1]) > key(s[j])
    requires forall q :: j < q <= i ==> key(s[j]) <= key(s[q])
    ensures var t := s[j - 1 := s[j]][j := s[j - 1]];
      && SortedExcept(t, key, j - 1, i)
      && (forall q :: j - 1 < q <= i ==> key(t[j - 1]) <= key(t[q]))
      && multiset(t) == multiset(s)
  {
  }

  /** Once the element is in place, the prefix up to `i` is ascending. */
  lemma SettledStep<T>(s: seq<T>, key: T -> int, j: int, i: int)
    requires 0 <= j <= i < |s|
    requires SortedExcept(s, key, j, i) && (j == 0 || key(s[j - 1]) <= key(s[j]))
    requires forall q :: j < q <= i ==> key(s[j]) <= key(s[q])
    ensures SortedBy(s[..i + 1], key)
  {
  }

  /** Moves `a[i]` down past every larger key before it, by adjacent swaps. */
  method InsertLast<T>(a: array<T>, key: T -> int, i: int)
    requires 0 <= i < a.Length && SortedBy(a[..i], key)
    modifies a
    ensures SortedBy(a[..i + 1], key)
    ensures multiset(a[..]) == multiset(old(a[..]))
  {
    var j := i;
    while j > 0 && key(a[j - 1]) > key(a[j])
      invariant 0 <= j <= i
      invariant SortedExcept(a[..], key, j, i)
      invariant forall q :: j < q <= i ==> key(a[j]) <= key(a[q])
      invariant multiset(a[..]) == multiset(old(a[..]))
    {
      SwapDown(a, key, j, i);
      j := j - 1;
    }
    SettledStep(a[..], key, j, i);
  }

  /** Swaps the out-of-place element at `j` with the larger one before it. */
  method SwapDown<T>(a: array<T>, key: T -> int, j: int, i: int)
    requires 0 < j <= i < a.Length
    requires SortedExcept(a[..], key, j, i) && key(a[j - 1]) > key(a[j])
    requires forall q :: j < q <= i ==> key(a[j]) <= key(a[q])
    modifies a
    ensures SortedExcept(a[..], key, j - 1, i)
    ensures forall q :: j - 1 < q <= i ==> key(a[j - 1]) <= key(a[q])
    ensures multiset(a[..]) == multiset(old(a[..]))
  {
    ghost var s := a[..];
    SwapStep(s, key, j, i);
    a[j - 1], a[j] := a[j], a[j - 1];
    assert a[..] == s[j - 1 := s[j]][j := s[j - 1]];
  }

  /**
   * `sort` with a comparator on the key, in place: the array ends up ascending by the key and
   * holds the same elements. (Insertion by adjacent swaps, which never reorders equal keys.)
   */
  method SortBy<T>(a: array<T>, key: T -> int)
    modifies a
    ensures SortedBy(a[..], key)
    ensures multiset(a[..]) == multiset(old(a[..]))
  {
    for i := 0 to a.Length
      invariant SortedBy(a[..i], key)
      invariant multiset(a[..]) == multiset(old(a[..]))
    {
      InsertLast(a, key, i);
    }
    assert a[..a.Length] == a[..];
  }

  /** The thirty days ending today, oldest first. */
  function Window(today: int): (w: seq<int>)
    ensures |w| == HistogramDays
    ensures forall j :: 0 <= j < |w| ==> w[j] == today - (HistogramDays - 1) + j
  {
    seq(HistogramDays, j => today - (HistogramDays - 1) + j)
  }

  lemma SortedFirstIsLeast(a: seq<int>, x: int)
    requires SortedBy(a, DayNumber) && x in a
    ensures a[0] <= x
  {
    var k :| 0 <= k < |a| && a[k] == x;
    if k > 0 {
      assert DayNumber(a[0]) <= DayNumber(a[k]);
    }
  }

  lemma SortedTail(a: seq<int>)
    requires a != [] && SortedBy(a, DayNumber)
    ensures SortedBy(a[1..], DayNumber)
  {
    forall p, q | 0 <= p < q < |a| - 1
      ensures DayNumber(a[1..][p]) <= DayNumber(a[1..][q])
    {
      assert a[1..][p] == a[p + 1] && a[1..][q] == a[q + 1];
    }
  }

  lemma TailMultiset(a: seq<int>)
    requires a != []
    ensures multiset(a[1..]) == multiset(a) - multiset{a[0]}
  {
    assert a == [a[0]] + a[1..];
  }

  /** Two ascending non-empty lists of the same numbers start alike and go on with the same numbers. */
  lemma SameHead(a: seq<int>, b: seq<int>)
    requires a != [] && SortedBy(a, DayNumber) && SortedBy(b, DayNumber)
    requires multiset(a) == multiset(b)
    ensures b != [] && a[0] == b[0] && multiset(a[1..]) == multiset(b[1..])
  {
    assert a[0] in multiset(b);
    SortedFirstIsLeast(b, a[0]);
    assert b[0] in multiset(a);
    SortedFirstIsLeast(a, b[0]);
    TailMultiset(a);
    TailMultiset(b);
  }

  /** Two ascending lists of the same numbers are the same list. */
  lemma {:induction false} SortedSame(a: seq<int>, b: seq<int>)
    requires SortedBy(a, DayNumber) && SortedBy(b, DayNumber)
    requires multiset(a) == multiset(b)
    ensures a == b
  {
    if a == [] {
      assert |multiset(b)| == 0;
    } else {
      SameHead(a, b);
      SortedTail(a);
      SortedTail(b);
      SortedSame(a[1..], b[1..]);
      assert a == [a[0]] + a[1..];
      assert b == [b[0]] + b[1..];
    }
  }

  /** The first `n` days pushed, newest first, are the `n` days ending today. */
  lemma {:induction false} DescendingWindow(d: seq<int>, today: int, n: nat)
    requires n <= |d| && forall i :: 0 <= i < |d| ==> d[i] == today - i
    ensures multiset(d[..n]) == multiset(seq(n, j => today - (n - 1) + j))
  {
    if n > 0 {
      DescendingWindow(d, today, n - 1);
      var w := seq(n, j => today - (n - 1) + j);
      var w' := seq(n - 1, j => today - (n - 2) + j);
      assert |w| == |[today - (n - 1)] + w'|;
      assert forall j :: 1 <= j < n ==> w[j] == w'[j - 1];
      assert w == [today - (n - 1)] + w';
      assert d[..n] == d[..n - 1] + [d[n - 1]];
    }
  }

  /** `last30Days`: pushed newest first, then sorted, giving the window. */
  method Last30Days(today: int) returns (days: array<int>)
    ensures fresh(days)
    ensures days[..] == Window(today)
  {
    days := new int[HistogramDays];
    for i := 0 to HistogramDays
      invariant forall k :: 0 <= k < i ==> days[k] == today - k
    {
      days[i] := today - i;
    }
    ghost var pushed := days[..];
    SortBy(days, DayNumber);
    SortedPushedIsWindow(pushed, days[..], today);
  }

  /** Sorting the thirty days pushed newest first gives the window. */
  lemma SortedPushedIsWindow(pushed: seq<int>, sorted: seq<int>, today: int)
    requires |pushed| == HistogramDays && forall i :: 0 <= i < |pushed| ==> pushed[i] == today - i
    requires SortedBy(sorted, DayNumber) && multiset(sorted) == multiset(pushed)
    ensures sorted == Window(today)
  {
    DescendingWindow(pushed, today, HistogramDays);
    assert pushed[..HistogramDays] == pushed;
    assert SortedBy(Window(today), DayNumber);
    SortedSame(sorted, Window(today));
  }

  /** The day map of the number histogram, as the loop builds it over the records in order. */
  function DailyMaxima(rs: seq<NumberRecord>, dayOf: int -> int): map<int, int> {
    if rs == [] then map[]
    else
      var m := DailyMaxima(rs[..|rs| - 1], dayOf);
      var r := rs[|rs| - 1];
      var d := dayOf(r.timestamp);
      if d !in m || m[d] < r.value then m[d := r.value] else m
  }

  /** A day has an entry exactly when some record falls on it, and the entry is that day's largest value. */
  lemma {:induction false} DailyMaximaIsMax(rs: seq<NumberRecord>, dayOf: int -> int)
    ensures forall d :: d in DailyMaxima(rs, dayOf) <==> exists i :: 0 <= i < |rs| && dayOf(rs[i].timestamp) == d
    ensures forall i :: 0 <= i < |rs| ==>
      dayOf(rs[i].timestamp) in DailyMaxima(rs, dayOf) && rs[i].value <= DailyMaxima(rs, dayOf)[dayOf(rs[i].timestamp)]
    ensures forall d :: d in DailyMaxima(rs, dayOf) ==>
      exists i :: 0 <= i < |rs| && dayOf(rs[i].timestamp) == d && rs[i].value == DailyMaxima(rs, dayOf)[d]
  {
    if rs != [] {
      var init := rs[..|rs| - 1];
      DailyMaximaIsMax(init, dayOf);
      assert forall i :: 0 <= i < |init| ==> rs[i] == init[i];
    }
  }

  /** The day map of the defect histogram, as the loop builds it over the records in order. */
  function DailyLatest(rs: seq<DefectStatusRecord>, dayOf: int -> int): map<int, DefectStatusRecord> {
    if rs == [] then map[]
    else
      var m := DailyLatest(rs[..|rs| - 1], dayOf);
      var r := rs[|rs| - 1];
      var d := dayOf(r.timestamp);
      if d !in m || r.timestamp > m[d].timestamp then m[d := r] else m
  }

  /** A day has an entry exactly when some record falls on it, and the entry is that day's latest record. */
  lemma DailyLatestIsLatest(rs: seq<DefectStatusRecord>, dayOf: int -> int)
    ensures var m := DailyLatest(rs, dayOf);
      && (forall d :: d in m <==> exists i :: 0 <= i < |rs| && dayOf(rs[i].timestamp) == d)
      && (forall d :: d in m ==> m[d] in rs && dayOf(m[d].timestamp) == d)
      && (forall i :: 0 <= i < |rs| ==> dayOf(rs[i].timestamp) in m && rs[i].timestamp <= m[dayOf(rs[i].timestamp)].timestamp)
  {
    var m := DailyLatest(rs, dayOf);
    DailyLatestEntries(rs, dayOf);
    DailyLatestBounds(rs, dayOf);
    forall d | d in m
      ensures exists i :: 0 <= i < |rs| && dayOf(rs[i].timestamp) == d
    {
      var i :| 0 <= i < |rs| && rs[i] == m[d];
    }
  }

  lemma {:induction false} DailyLatestEntries(rs: seq<DefectStatusRecord>, dayOf: int -> int)
    ensures forall d :: d in DailyLatest(rs, dayOf) ==> DailyLatest(rs, dayOf)[d] in rs
    ensures forall d :: d in DailyLatest(rs, dayOf) ==> dayOf(DailyLatest(rs, dayOf)[d].timestamp) == d
  {
    if rs != [] {
      var init := rs[..|rs| - 1];
      DailyLatestEntries(init, dayOf);
      var m0 := DailyLatest(init, dayOf);
      var r := rs[|rs| - 1];
      var m := DailyLatest(rs, dayOf);
      assert m == if dayOf(r.timestamp) !in m0 || r.timestamp > m0[dayOf(r.timestamp)].timestamp then m0[dayOf(r.timestamp) := r] else m0;
      forall d | d in m
        ensures m[d] in rs && dayOf(m[d].timestamp) == d
      {
        if m[d] != r {
          assert d in m0 && m[d] == m0[d];
          var i :| 0 <= i < |init| && init[i] == m0[d];
          assert rs[i] == m0[d];
        }
      }
    }
  }

  lemma {:induction false} DailyLatestBounds(rs: seq<DefectStatusRecord>, dayOf: int -> int)
    ensures var m := DailyLatest(rs, dayOf);
      forall i :: 0 <= i < |rs| ==> dayOf(rs[i].timestamp) in m && rs[i].timestamp <= m[dayOf(rs[i].timestamp)].timestamp
  {
    if rs != [] {
      var init := rs[..|rs| - 1];
      DailyLatestBounds(init, dayOf);
      assert forall i :: 0 <= i < |init| ==> rs[i] == init[i];
    }
  }

  /**
   * The carried values: a day found in the map takes its value, any other day repeats the
   * previous day's value, and the first day without a value takes `init`.
   */
  function CarryForward<V>(days: seq<int>, m: map<int, V>, init: V): (vs: seq<V>)
    ensures |vs| == |days|
    ensures forall j :: 0 <= j < |days| && days[j] in m ==> vs[j] == m[days[j]]
    ensures forall j :: 0 < j < |days| && days[j] !in m ==> vs[j] == vs[j - 1]
    ensures |days| > 0 && days[0] !in m ==> vs[0] == init
  {
    if days == [] then []
    else
      var prev := CarryForward(days[..|days| - 1], m, init);
      var last := if prev == [] then init else prev[|prev| - 1];
      var d := days[|days| - 1];
      prev + [if d in m then m[d] else last]
  }

  /** Before the first day found in the map, every carried value is `init`. */
  lemma {:induction false} CarryBeforeFirst<V>(days: seq<int>, m: map<int, V>, init: V, j: int)
    requires 0 <= j < |days|
    requires forall k :: 0 <= k <= j ==> days[k] !in m
    ensures CarryForward(days, m, init)[j] == init
  {
    if j > 0 {
      CarryBeforeFirst(days, m, init, j - 1);
    }
  }

  /** On a day of the window with records, the number histogram shows that day's largest value. */
  lemma DayWithRecordsShowsMax(rs: seq<NumberRecord>, dayOf: int -> int, today: int, init: int, j: int)
    requires 0 <= j < HistogramDays
    requires exists i :: 0 <= i < |rs| && dayOf(rs[i].timestamp) == Window(today)[j]
    ensures var v := CarryForward(Window(today), DailyMaxima(rs, dayOf), init)[j];
      && (forall i :: 0 <= i < |rs| && dayOf(rs[i].timestamp) == Window(today)[j] ==> rs[i].value <= v)
      && (exists i :: 0 <= i < |rs| && dayOf(rs[i].timestamp) == Window(today)[j] && rs[i].value == v)
  {
    DailyMaximaIsMax(rs, dayOf);
  }

  /** On a day of the window with records, the defect histogram shows the counts of that day's latest record. */
  lemma DayWithRecordsShowsLatest(rs: seq<DefectStatusRecord>, dayOf: int -> int, today: int, j: int, i0: int)
    requires 0 <= j < HistogramDays
    requires 0 <= i0 < |rs| && dayOf(rs[i0].timestamp) == Window(today)[j]
    ensures var m := DailyLatest(rs, dayOf); var day := Window(today)[j];
      && day in m && m[day] in rs && dayOf(m[day].timestamp) == day
      && CarryForward(Window(today), CountsByDay(m), NoDefects)[j] == Counts(m[day])
      && forall i :: 0 <= i < |rs| && dayOf(rs[i].timestamp) == day ==> rs[i].timestamp <= m[day].timestamp
  {
    DailyLatestIsLatest(rs, dayOf);
  }
  lemma ZeroUntilFirstRecord(rs: seq<DefectStatusRecord>, dayOf: int -> int, today: int, j: int)
    requires 0 <= j < HistogramDays
    requires forall i, k :: 0 <= i < |rs| && 0 <= k <= j ==> dayOf(rs[i].timestamp) != Window(today)[k]
    ensures CarryForward(Window(today), CountsByDay(DailyLatest(rs, dayOf)), NoDefects)[j] == NoDefects
  {
    DailyLatestIsLatest(rs, dayOf);
    CarryBeforeFirst(Window(today), CountsByDay(DailyLatest(rs, dayOf)), NoDefects, j);
  }

  /** `create30DaysNumberRecordHistogram`'s map loop. */
  method DailyMaximaOf(records: array<NumberRecord>, dayOf: int -> int) returns (m: map<int, int>)
    ensures m == DailyMaxima(records[..], dayOf)
  {
    m := map[];
    for i := 0 to records.Length
      invariant m == DailyMaxima(records[..i], dayOf)
    {
      var record := records[i];
      var day := dayOf(record.timestamp);
      if day !in m || m[day] < record.value {
        m := m[day := record.value];
      }
      assert records[..i + 1][..i] == records[..i];
    }
    assert records[..records.Length] == records[..];
  }

  /** `create30DaysDefectRecordHistogram`'s map loop. */
  method DailyLatestOf(records: array<DefectStatusRecord>, dayOf: int -> int) returns (m: map<int, DefectStatusRecord>)
    ensures m == DailyLatest(records[..], dayOf)
  {
    m := map[];
    for i := 0 to records.Length
      invariant m == DailyLatest(records[..i], dayOf)
    {
      var record := records[i];
      var day := dayOf(record.timestamp);
      if day !in m || record.timestamp > m[day].timestamp {
        m := m[day := record];
      }
      assert records[..i + 1][..i] == records[..i];
    }
    assert records[..records.Length] == records[..];
  }

  /** The `forEach` over the window: a value per day, carried forward from `lastValue`. */
  method Carry<V>(days: array<int>, m: map<int, V>, init: V) returns (dates: seq<int>, values: seq<V>)
    ensures dates == days[..]
    ensures values == CarryForward(days[..], m, init)
  {
    var lastValue := init;
    dates := [];
    values := [];
    for j := 0 to days.Length
      invariant dates == days[..j]
      invariant values == CarryForward(days[..j], m, init)
      invariant lastValue == if j == 0 then init else values[j - 1]
    {
      var timestamp := days[j];
      if timestamp in m {
        lastValue := m[timestamp];
      }
      assert days[..j + 1][..j] == days[..j];
      dates := dates + [timestamp];
      values := values + [lastValue];
    }
    assert days[..days.Length] == days[..];
  }

  /**
   * `create30DaysNumberRecordHistogram`: sorts the records in place, then gives the window and,
   * per day, the largest value recorded that day or else the value carried from the day before;
   * the value carried into the window is that of the earliest record. With no records the read
   * of the first one fails (None).
   */
  method NumberHistogram(records: array<NumberRecord>, today: int, dayOf: int -> int)
    returns (r: Option<(seq<int>, seq<int>)>)
    modifies records
    ensures SortedBy(records[..], NumberTime) && multiset(records[..]) == multiset(old(records[..]))
    ensures r.None? <==> records.Length == 0
    ensures r.Some? ==>
      && r.value.0 == Window(today)
      && r.value.1 == CarryForward(Window(today), DailyMaxima(records[..], dayOf), records[0].value)
      && (forall i :: 0 <= i < records.Length ==> records[0].timestamp <= records[i].timestamp)
  {
    var last30Days := Last30Days(today);
    SortBy(records, NumberTime);
    var dayValueMap := DailyMaximaOf(records, dayOf);
    if records.Length == 0 {
      return None;
    }
    var dates, values := Carry(last30Days, dayValueMap, records[0].value);
    return Some((dates, values));
  }

  /** The counts shown for each day of the defect map. */
  function CountsByDay(m: map<int, DefectStatusRecord>): (c: map<int, StatusCounts>)
    ensures forall d :: d in c <==> d in m
    ensures forall d :: d in c ==> c[d] == Counts(m[d])
  {
    map d | d in m :: Counts(m[d])
  }

  /**
   * `create30DaysDefectRecordHistogram`: sorts the records in place, then gives the window and
   * four count series; per day the counts of that day's latest record, else those carried from
   * the day before, all zero before the first day with a record.
   */
  method DefectHistogram(records: array<DefectStatusRecord>, today: int, dayOf: int -> int)
    returns (dates: seq<int>, openValues: seq<int>, inWorkValues: seq<int>, closedValues: seq<int>, rejectedValues: seq<int>)
    modifies records
    ensures SortedBy(records[..], DefectTime) && multiset(records[..]) == multiset(old(records[..]))
    ensures dates == Window(today)
    ensures var cs := CarryForward(Window(today), CountsByDay(DailyLatest(records[..], dayOf)), NoDefects);
      && |openValues| == |inWorkValues| == |closedValues| == |rejectedValues| == HistogramDays
      && forall j :: 0 <= j < HistogramDays ==>
           && openValues[j] == cs[j].open && inWorkValues[j] == cs[j].inWork
           && closedValues[j] == cs[j].closed && rejectedValues[j] == cs[j].rejected
  {
    var last30Days := Last30Days(today);
    SortBy(records, DefectTime);
    var dayValueMap := DailyLatestOf(records, dayOf);
    var values;
    dates, values := Carry(last30Days, CountsByDay(dayValueMap), NoDefects);
    openValues := seq(|values|, j requires 0 <= j < |values| => values[j].open);
    inWorkValues := seq(|values|, j requires 0 <= j < |values| => values[j].inWork);
    closedValues := seq(|values|, j requires 0 <= j < |values| => values[j].closed);
    rejectedValues := seq(|values|, j requires 0 <= j < |values| => values[j].rejected);
  }
}
