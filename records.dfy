/** The records the dashboard works on and its filter/sort stage
    (main.js:45-47): keep the rows of one city, then order them by date. */
module Records {
  import opened Calendar
  import opened Sorting

  /** One row of the weather table after its numeric columns have been
      converted (the `*_num` fields main.js adds in place). */
  datatype Daily = Daily(
    date: Date,
    city: string,
    actualMeanTemp: real,
    averageMaxTemp: real,
    actualPrecip: real,
    averagePrecip: real)

  /** One month of chart 2: the first day of that month and the means of the
      two precipitation columns over the month's records. */
  datatype Monthly = Monthly(month: Date, actualAvg: real, averageAvg: real)

  const TargetCity: string := "Indianapolis"

  /** The comparator key of `indyData.sort((a, b) => a.date - b.date)`. */
  function DailyTime(r: Daily): int {
    DayNumber(r.date)
  }

  /** The comparator key of `monthlyData.sort((a, b) => a.month - b.month)`. */
  function MonthlyTime(m: Monthly): int {
    DayNumber(m.month)
  }

  predicate AllValid(rows: seq<Daily>) {
    forall i | 0 <= i < |rows| :: ValidDate(rows[i].date)
  }

  /** `data.filter(d => d.city === "Indianapolis")`. */
  function KeepCity(rows: seq<Daily>): (kept: seq<Daily>)
    ensures |kept| <= |rows|
    ensures forall i | 0 <= i < |kept| :: kept[i].city == TargetCity
  {
    if rows == [] then []
    else (if rows[0].city == TargetCity then [rows[0]] else []) + KeepCity(rows[1..])
  }

  /** s can be obtained from t by deleting elements (greedy matching). */
  predicate IsSubsequence<T(==)>(s: seq<T>, t: seq<T>)
    decreases |t|
  {
    if s == [] then true
    else if t == [] then false
    else if s[0] == t[0] then IsSubsequence(s[1..], t[1..])
    else IsSubsequence(s, t[1..])
  }

  /** The filter keeps every row of the city, as often as it occurs, and no
      other row. */
  lemma {:induction false} KeepCityCount(rows: seq<Daily>, r: Daily)
    ensures multiset(KeepCity(rows))[r] == if r.city == TargetCity then multiset(rows)[r] else 0
  {
    if rows != [] {
      KeepCityCount(rows[1..], r);
      assert rows == [rows[0]] + rows[1..];
    }
  }

  /** The filter keeps the relative order of the rows it keeps. */
  lemma {:induction false} KeepCityInOrder(rows: seq<Daily>)
    ensures IsSubsequence(KeepCity(rows), rows)
  {
    if rows != [] {
      KeepCityInOrder(rows[1..]);
      if rows[0].city == TargetCity {
        assert KeepCity(rows)[1..] == KeepCity(rows[1..]);
      } else {
        assert KeepCity(rows) == KeepCity(rows[1..]);
      }
    }
  }

  /** Rows with valid dates stay valid through the filter. */
  lemma KeepCityValid(rows: seq<Daily>)
    requires AllValid(rows)
    ensures AllValid(KeepCity(rows))
  {
    var kept := KeepCity(rows);
    forall i | 0 <= i < |kept| ensures ValidDate(kept[i].date) {
      KeepCityCount(rows, kept[i]);
      assert kept[i] in multiset(kept);
    }
  }

  /** Sorting by the comparator key orders the rows by calendar date. */
  lemma SortedByDate(rows: seq<Daily>)
    requires AllValid(rows) && SortedBy(rows, DailyTime)
    ensures forall i, j | 0 <= i < j < |rows| :: !Before(rows[j].date, rows[i].date)
  {
    forall i, j | 0 <= i < j < |rows| ensures !Before(rows[j].date, rows[i].date) {
      DayNumberOrder(rows[j].date, rows[i].date);
    }
  }
}
