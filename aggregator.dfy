/** The monthly aggregator (main.js:52-69): group the daily records by the
    key of their month, turn each group into one Monthly record whose month is
    the first day of that month and whose two fields are the means of the
    group's precipitation columns, then sort the records by month. */
module Aggregator {
  import opened Wrappers
  import opened Calendar
  import opened MonthKeys
  import opened Sorting
  import opened Records
  import opened Grouping

  /** The key function handed to `d3.group`. */
  function RecordKey(r: Daily): string {
    MonthKey(r.date)
  }

  function Sum(xs: seq<real>): real {
    if xs == [] then 0.0 else Sum(xs[..|xs| - 1]) + xs[|xs| - 1]
  }

  /** The smallest of a non-empty list of values. */
  function Least(xs: seq<real>): (m: real)
    requires |xs| > 0
    ensures forall i | 0 <= i < |xs| :: m <= xs[i]
    ensures exists i | 0 <= i < |xs| :: xs[i] == m
  {
    if |xs| == 1 then xs[0]
    else
      var m := Least(xs[..|xs| - 1]);
      if xs[|xs| - 1] < m then xs[|xs| - 1] else m
  }

  /** The largest of a non-empty list of values. */
  function Greatest(xs: seq<real>): (m: real)
    requires |xs| > 0
    ensures forall i | 0 <= i < |xs| :: xs[i] <= m
    ensures exists i | 0 <= i < |xs| :: xs[i] == m
  {
    if |xs| == 1 then xs[0]
    else
      var m := Greatest(xs[..|xs| - 1]);
      if xs[|xs| - 1] > m then xs[|xs| - 1] else m
  }

  /** `d3.mean`: the arithmetic mean of a non-empty list. It lies between
      the smallest and the largest of the values. */
  function Mean(xs: seq<real>): (m: real)
    requires |xs| > 0
    ensures exists i, j | 0 <= i < |xs| && 0 <= j < |xs| :: xs[i] <= m <= xs[j]
  {
    var lo, hi, n := Least(xs), Greatest(xs), |xs| as real;
    SumBounds(xs, lo, hi);
    DivideBetween(Sum(xs), n, lo, hi);
    Sum(xs) / n
  }

  lemma DivideBetween(s: real, n: real, lo: real, hi: real)
    requires n > 0.0 && n * lo <= s <= n * hi
    ensures lo <= s / n <= hi
  {
    assert s / n - lo == (s - n * lo) / n;
    assert hi - s / n == (n * hi - s) / n;
  }

  function ActualPrecips(g: seq<Daily>): seq<real> {
    seq(|g|, i requires 0 <= i < |g| => g[i].actualPrecip)
  }

  function AveragePrecips(g: seq<Daily>): seq<real> {
    seq(|g|, i requires 0 <= i < |g| => g[i].averagePrecip)
  }

  /** `new Date(year, month, 1)` as intended: the first day of that month,
      a month index of 12 or more carrying into later years. */
  function MonthStart(year: nat, month: nat): (d: Date)
    ensures ValidDate(d) && d.day == 1
    ensures month < 12 ==> d.year == year && d.month0 == month
  {
    Date(year + month / 12, month % 12, 1)
  }

  /** `new Date(year, month, 1)` as JavaScript evaluates it: a year from 0 to
      99 is read as 1900 plus that year. */
  function MonthStartAsWritten(year: nat, month: nat): Date {
    var y := if year <= 99 then 1900 + year else year;
    Date(y + month / 12, month % 12, 1)
  }

  /** As written, a record of March in year 50 is filed under March 1950,
      and the keys of January 5 and January 1905 yield the same month. */
  lemma MonthStartAsWrittenMisplacesEarlyYears()
    ensures MonthStartAsWritten(50, 2) == Date(1950, 2, 1)
    ensures MonthStartAsWritten(50, 2) != FirstOfMonth(Date(50, 2, 10))
    ensures MonthStartAsWritten(5, 0) == MonthStartAsWritten(1905, 0)
  {
  }

  /** The corrected month start is the first day of the key's own month and
      tells distinct months apart, whatever the year. */
  lemma MonthStartSeparatesMonths(a: Date, b: Date)
    ensures MonthStart(a.year, a.month0) == FirstOfMonth(a)
    ensures MonthStart(a.year, a.month0) == MonthStart(b.year, b.month0)
            <==> MonthKey(a) == MonthKey(b)
  {
    KeySeparatesMonths(a, b);
  }

  /** One Monthly record from a key and its group (the mapping function
      handed to `Array.from`). Its month is the first day of the month the
      key was made from, and each mean lies between the smallest and the
      largest value of its column in the group. */
  function Aggregate(key: string, group: seq<Daily>): (m: Monthly)
    requires ParseKey(key).Some? && |group| > 0
    ensures ValidDate(m.month) && m.month.day == 1
    ensures forall d: Date | key == MonthKey(d) :: m.month == FirstOfMonth(d)
    ensures exists i, j | 0 <= i < |group| && 0 <= j < |group|
              :: group[i].actualPrecip <= m.actualAvg <= group[j].actualPrecip
    ensures exists i, j | 0 <= i < |group| && 0 <= j < |group|
              :: group[i].averagePrecip <= m.averageAvg <= group[j].averagePrecip
  {
    var (year, month) := ParseKey(key).value;
    assert forall d: Date | key == MonthKey(d) :: (year, month) == (d.year, d.month0 as nat) by {
      forall d: Date | key == MonthKey(d) ensures (year, month) == (d.year, d.month0 as nat) {
        KeyRoundTrip(d);
      }
    }
    var actual, average := ActualPrecips(group), AveragePrecips(group);
    Monthly(MonthStart(year, month), Mean(actual), Mean(average))
  }

  /** `Array.from(groups, ([key, values]) => ...)`, in the map's key order:
      one record per key, each dated the first day of a month. */
  function BuildMonthly(keys: seq<string>, groups: map<string, seq<Daily>>): (ms: seq<Monthly>)
    requires forall k | k in keys :: k in groups && |groups[k]| > 0 && ParseKey(k).Some?
    ensures |ms| == |keys|
    ensures forall i | 0 <= i < |ms| :: ValidDate(ms[i].month) && ms[i].month.day == 1
  {
    seq(|keys|, i requires 0 <= i < |keys| => Aggregate(keys[i], groups[keys[i]]))
  }

  /** Every listed key is the key of a record of its group, so it parses back
      to that record's year and month. */
  lemma ListedKeyParses(days: seq<Daily>, k: string)
    requires k in KeysInOrder(days, RecordKey)
    ensures |Members(days, RecordKey, k)| > 0
    ensures ParseKey(k) == Some((Members(days, RecordKey, k)[0].date.year, Members(days, RecordKey, k)[0].date.month0 as nat))
  {
    MembersNonEmpty(days, RecordKey, k);
    KeyRoundTrip(Members(days, RecordKey, k)[0].date);
  }

  /** The Monthly records built from days, before the final sort: one per
      month the days cover, so no more records than days and none exactly
      when there are no days. */
  function Aggregates(days: seq<Daily>): (ms: seq<Monthly>)
    ensures |ms| == |KeysInOrder(days, RecordKey)| <= |days|
    ensures ms == [] <==> days == []
    ensures forall i | 0 <= i < |ms| :: ValidDate(ms[i].month) && ms[i].month.day == 1
  {
    var ks := KeysInOrder(days, RecordKey);
    KeysInOrderComplete(days, RecordKey);
    assert forall k | k in ks :: k in GroupMap(days, RecordKey) && |GroupMap(days, RecordKey)[k]| > 0 && ParseKey(k).Some? by {
      forall k | k in ks ensures |Members(days, RecordKey, k)| > 0 && ParseKey(k).Some? {
        ListedKeyParses(days, k);
      }
    }
    BuildMonthly(ks, GroupMap(days, RecordKey))
  }

  lemma AggregatesAt(days: seq<Daily>, i: nat)
    requires i < |KeysInOrder(days, RecordKey)|
    ensures |Aggregates(days)| == |KeysInOrder(days, RecordKey)|
    ensures ParseKey(KeysInOrder(days, RecordKey)[i]).Some? && |Members(days, RecordKey, KeysInOrder(days, RecordKey)[i])| > 0
    ensures Aggregates(days)[i] == Aggregate(KeysInOrder(days, RecordKey)[i], Members(days, RecordKey, KeysInOrder(days, RecordKey)[i]))
  {
    ListedKeyParses(days, KeysInOrder(days, RecordKey)[i]);
  }

  /** The month of a Monthly record is the first day of the month of every
      record of its group. */
  lemma AggregateMonthOfGroup(days: seq<Daily>, i: nat)
    requires i < |KeysInOrder(days, RecordKey)|
    ensures |Aggregates(days)| == |KeysInOrder(days, RecordKey)|
    ensures var g := Members(days, RecordKey, KeysInOrder(days, RecordKey)[i]);
            forall j | 0 <= j < |g| :: Aggregates(days)[i].month == FirstOfMonth(g[j].date)
  {
    var k := KeysInOrder(days, RecordKey)[i];
    var g := Members(days, RecordKey, k);
    AggregatesAt(days, i);
    ListedKeyParses(days, k);
    assert Aggregates(days)[i].month == FirstOfMonth(g[0].date);
    forall j | 0 <= j < |g| ensures Aggregates(days)[i].month == FirstOfMonth(g[j].date) {
      SameKeySameMonth(g[0], g[j]);
    }
  }

  lemma SameKeySameMonth(a: Daily, b: Daily)
    requires RecordKey(a) == RecordKey(b)
    ensures FirstOfMonth(a.date) == FirstOfMonth(b.date)
  {
    KeySeparatesMonths(a.date, b.date);
  }

  /** Each Monthly record describes one group: its month is the first day of
      the month every record of the group falls in, and its two fields are
      the means of the group's two precipitation columns. */
  lemma AggregateDescribesGroup(days: seq<Daily>, i: nat)
    requires i < |KeysInOrder(days, RecordKey)|
    ensures |Aggregates(days)| == |KeysInOrder(days, RecordKey)|
    ensures var g := Members(days, RecordKey, KeysInOrder(days, RecordKey)[i]);
            && |g| > 0
            && (forall j | 0 <= j < |g| :: Aggregates(days)[i].month == FirstOfMonth(g[j].date))
            && Aggregates(days)[i].actualAvg == Mean(ActualPrecips(g))
            && Aggregates(days)[i].averageAvg == Mean(AveragePrecips(g))
  {
    var k := KeysInOrder(days, RecordKey)[i];
    AggregatesAt(days, i);
    AggregateMonthOfGroup(days, i);
  }

  /** No two Monthly records share a month. */
  lemma AggregateMonthsDistinct(days: seq<Daily>)
    ensures forall i, j | 0 <= i < j < |Aggregates(days)| :: Aggregates(days)[i].month != Aggregates(days)[j].month
  {
    forall i, j | 0 <= i < j < |Aggregates(days)|
      ensures Aggregates(days)[i].month != Aggregates(days)[j].month
    {
      TwoKeysTwoMonths(days, i, j);
    }
  }

  lemma TwoKeysTwoMonths(days: seq<Daily>, i: nat, j: nat)
    requires i < j < |KeysInOrder(days, RecordKey)|
    ensures |Aggregates(days)| == |KeysInOrder(days, RecordKey)|
    ensures Aggregates(days)[i].month != Aggregates(days)[j].month
  {
    var ks := KeysInOrder(days, RecordKey);
    KeysInOrderComplete(days, RecordKey);
    AggregatesAt(days, i);
    AggregatesAt(days, j);
    ListedKeyParses(days, ks[i]);
    ListedKeyParses(days, ks[j]);
    var a, b := Members(days, RecordKey, ks[i])[0], Members(days, RecordKey, ks[j])[0];
    MonthStartSeparatesMonths(a.date, b.date);
  }

  /** Every record's month has a Monthly record. */
  lemma EveryMonthAggregated(days: seq<Daily>, r: Daily)
    requires r in days
    ensures exists i | 0 <= i < |Aggregates(days)| :: Aggregates(days)[i].month == FirstOfMonth(r.date)
  {
    EachInOneGroup(days, RecordKey, r);
    var ks := KeysInOrder(days, RecordKey);
    var i :| 0 <= i < |ks| && ks[i] == RecordKey(r);
    MembersCount(days, RecordKey, ks[i], r);
    var g := Members(days, RecordKey, ks[i]);
    assert r in multiset(g);
    var j :| 0 <= j < |g| && g[j] == r;
    AggregateDescribesGroup(days, i);
  }

  lemma {:induction false} SumBounds(xs: seq<real>, lo: real, hi: real)
    requires forall i | 0 <= i < |xs| :: lo <= xs[i] <= hi
    ensures (|xs| as real) * lo <= Sum(xs) <= (|xs| as real) * hi
  {
    if xs != [] {
      SumBounds(xs[..|xs| - 1], lo, hi);
    }
  }

  /** The mean lies between any bounds of the values it averages. */
  lemma MeanBetween(xs: seq<real>, lo: real, hi: real)
    requires |xs| > 0
    requires forall i | 0 <= i < |xs| :: lo <= xs[i] <= hi
    ensures lo <= Mean(xs) <= hi
  {
    SumBounds(xs, lo, hi);
    var n := |xs| as real;
    assert Mean(xs) * n == Sum(xs);
  }

  predicate MonthsDistinct(s: seq<Monthly>) {
    forall i, j | 0 <= i < j < |s| :: s[i].month != s[j].month
  }

  predicate AllMonthsValid(s: seq<Monthly>) {
    forall i | 0 <= i < |s| :: ValidDate(s[i].month)
  }

  lemma AggregatesWellFormed(days: seq<Daily>)
    ensures MonthsDistinct(Aggregates(days)) && AllMonthsValid(Aggregates(days))
  {
    AggregateMonthsDistinct(days);
  }

  lemma {:induction false} TwoOccurrences<T>(t: seq<T>, x: T)
    requires multiset(t)[x] >= 2
    ensures exists p, q | 0 <= p < q < |t| :: t[p] == x && t[q] == x
  {
    assert t == [t[0]] + t[1..];
    if t[0] == x {
      assert x in multiset(t[1..]);
      var q :| 0 <= q < |t[1..]| && t[1..][q] == x;
      assert t[q + 1] == x;
    } else {
      TwoOccurrences(t[1..], x);
      var p, q :| 0 <= p < q < |t[1..]| && t[1..][p] == x && t[1..][q] == x;
      assert t[p + 1] == x && t[q + 1] == x;
    }
  }

  lemma RepeatedElementCountsTwice<T>(s: seq<T>, i: nat, j: nat)
    requires i < j < |s| && s[i] == s[j]
    ensures multiset(s)[s[i]] >= 2
  {
    assert s == s[..j] + [s[j]] + s[j + 1..];
    assert s[..j][i] == s[i];
  }

  /** Reordering keeps the months pairwise distinct. */
  lemma PermutationKeepsMonthsDistinct(s: seq<Monthly>, t: seq<Monthly>)
    requires multiset(s) == multiset(t) && MonthsDistinct(t)
    ensures MonthsDistinct(s)
  {
    forall i, j | 0 <= i < j < |s| ensures s[i].month != s[j].month {
      if s[i] == s[j] {
        RepeatedElementCountsTwice(s, i, j);
        TwoOccurrences(t, s[i]);
      } else {
        assert s[i] in multiset(t) && s[j] in multiset(t);
        var p :| 0 <= p < |t| && t[p] == s[i];
        var q :| 0 <= q < |t| && t[q] == s[j];
        assert p != q;
      }
    }
  }

  /** After the final sort the Monthly records are strictly increasing by
      month: a reordering of distinct valid months sorted by time value. */
  lemma SortedAggregatesStrictlyIncrease(s: seq<Monthly>, t: seq<Monthly>)
    requires multiset(s) == multiset(t) && MonthsDistinct(t) && AllMonthsValid(t)
    requires SortedBy(s, MonthlyTime)
    ensures forall i, j | 0 <= i < j < |s| :: Before(s[i].month, s[j].month)
  {
    PermutationKeepsMonthsDistinct(s, t);
    forall i, j | 0 <= i < j < |s| ensures Before(s[i].month, s[j].month) {
      assert s[i] in multiset(t) && s[j] in multiset(t);
      var p :| 0 <= p < |t| && t[p] == s[i];
      var q :| 0 <= q < |t| && t[q] == s[j];
      DayNumberOrder(s[i].month, s[j].month);
    }
  }

  /** The sum of two values, taken from the right. */
  lemma SumOfTwo(a: real, b: real)
    ensures Sum([a, b]) == a + b
  {
    assert [a, b][..1] == [a];
    assert [a][..0] == [];
    assert Sum([a]) == Sum([]) + a;
  }

  lemma MeanOfTwo(a: real, b: real)
    ensures Mean([a, b]) == (a + b) / 2.0
  {
    SumOfTwo(a, b);
  }

  /** Two records of the same month form one group under one key. */
  lemma SameMonthGroup(r1: Daily, r2: Daily)
    requires RecordKey(r1) == RecordKey(r2)
    ensures KeysInOrder([r1, r2], RecordKey) == [RecordKey(r1)]
    ensures Members([r1, r2], RecordKey, RecordKey(r1)) == [r1, r2]
  {
    assert [r1] + [r2] == [r1, r2];
    KeysInOrderStep([r1], RecordKey, r2);
    MembersStep([r1], RecordKey, r2, RecordKey(r1));
  }

  /** The record built from the key of r1's month and the group [r1, r2]. */
  lemma AggregateOfPair(r1: Daily, r2: Daily)
    requires ParseKey(RecordKey(r1)).Some?
    ensures Aggregate(RecordKey(r1), [r1, r2])
            == Monthly(FirstOfMonth(r1.date), (r1.actualPrecip + r2.actualPrecip) / 2.0,
                       (r1.averagePrecip + r2.averagePrecip) / 2.0)
  {
    var days := [r1, r2];
    assert ActualPrecips(days) == [r1.actualPrecip, r2.actualPrecip];
    assert AveragePrecips(days) == [r1.averagePrecip, r2.averagePrecip];
    MeanOfTwo(r1.actualPrecip, r2.actualPrecip);
    MeanOfTwo(r1.averagePrecip, r2.averagePrecip);
  }

  /** Two records under one key are aggregated as one group. */
  lemma PairAggregatesOnce(r1: Daily, r2: Daily)
    requires RecordKey(r1) == RecordKey(r2) && ParseKey(RecordKey(r1)).Some?
    ensures Aggregates([r1, r2]) == [Aggregate(RecordKey(r1), [r1, r2])]
  {
    var days := [r1, r2];
    SameMonthGroup(r1, r2);
    AggregatesAt(days, 0);
    var ms := Aggregates(days);
    assert |ms| == 1;
    assert ms[0] == Aggregate(RecordKey(r1), days);
  }

  /** Two records of the same month make a single Monthly record: the first
      day of that month with the averages of their two precipitations. */
  lemma SameMonthPair(r1: Daily, r2: Daily)
    requires r1.date.year == r2.date.year && r1.date.month0 == r2.date.month0
    ensures Aggregates([r1, r2])
            == [Monthly(FirstOfMonth(r1.date), (r1.actualPrecip + r2.actualPrecip) / 2.0,
                        (r1.averagePrecip + r2.averagePrecip) / 2.0)]
  {
    KeySeparatesMonths(r1.date, r2.date);
    KeyRoundTrip(r1.date);
    PairAggregatesOnce(r1, r2);
    AggregateOfPair(r1, r2);
  }

  /** Two January records of 2021 make a single Monthly record dated
      1 January 2021 whose fields are the means of their precipitations. */
  lemma TwoJanuaryRecords()
    ensures Aggregates([Daily(Date(2021, 0, 15), TargetCity, 30.0, 35.0, 0.10, 0.05),
                        Daily(Date(2021, 0, 28), TargetCity, 28.0, 34.0, 0.30, 0.25)])
            == [Monthly(Date(2021, 0, 1), 0.2, 0.15)]
  {
    SameMonthPair(Daily(Date(2021, 0, 15), TargetCity, 30.0, 35.0, 0.10, 0.05),
                  Daily(Date(2021, 0, 28), TargetCity, 28.0, 34.0, 0.30, 0.25));
  }
}
