/** The data preparation of main.js:36-69 end to end: convert the CSV rows,
    keep Indianapolis, sort by date, aggregate by month, sort by month. */
module Pipeline {
  import opened Calendar
  import opened MonthKeys
  import opened Sorting
  import opened Records
  import opened Grouping
  import opened Aggregator

  /** A row as `d3.csv` yields it: every column a string. */
  datatype CsvRow = CsvRow(
    date: string,
    city: string,
    actualMeanTemp: string,
    averageMaxTemp: string,
    actualPrecipitation: string,
    averagePrecipitation: string)

  /** One row after main.js:37-41: the date decoded and the four numeric
      columns converted. Decoding a date string and JavaScript's unary `+`
      on a string are parameters. */
  function Convert(row: CsvRow, parseDate: string -> Date, toNumber: string -> real): (d: Daily)
    ensures d.city == row.city && d.date == parseDate(row.date)
    ensures d.actualMeanTemp == toNumber(row.actualMeanTemp)
    ensures d.averageMaxTemp == toNumber(row.averageMaxTemp)
    ensures d.actualPrecip == toNumber(row.actualPrecipitation)
    ensures d.averagePrecip == toNumber(row.averagePrecipitation)
  {
    Daily(parseDate(row.date), row.city, toNumber(row.actualMeanTemp), toNumber(row.averageMaxTemp),
          toNumber(row.actualPrecipitation), toNumber(row.averagePrecipitation))
  }

  /** The rows of a table, each converted. */
  function ConvertAll(raw: seq<CsvRow>, parseDate: string -> Date, toNumber: string -> real): (rows: seq<Daily>)
    ensures |rows| == |raw|
    ensures forall i | 0 <= i < |raw| :: rows[i] == Convert(raw[i], parseDate, toNumber)
  {
    seq(|raw|, i requires 0 <= i < |raw| => Convert(raw[i], parseDate, toNumber))
  }

  /** `data.forEach(d => { ... })`: every row converted, in order. */
  method ConvertRows(raw: array<CsvRow>, parseDate: string -> Date, toNumber: string -> real)
    returns (rows: array<Daily>)
    ensures fresh(rows) && rows.Length == raw.Length
    ensures forall i | 0 <= i < raw.Length :: rows[i] == Convert(raw[i], parseDate, toNumber)
    ensures rows[..] == ConvertAll(raw[..], parseDate, toNumber)
  {
    rows := new Daily[raw.Length](_ => Daily(Date(0, 0, 1), "", 0.0, 0.0, 0.0, 0.0));
    for i := 0 to raw.Length
      invariant forall k | 0 <= k < i :: rows[k] == Convert(raw[k], parseDate, toNumber)
    {
      rows[i] := Convert(raw[i], parseDate, toNumber);
    }
    assert rows[..] == ConvertAll(raw[..], parseDate, toNumber);
  }

  /** The groups `d3.group` hands over satisfy what building the Monthly
      records needs, and building them from its output gives Aggregates. */
  lemma GroupOutputAggregates(days: seq<Daily>)
    ensures forall k | k in KeysInOrder(days, RecordKey)
              :: k in GroupMap(days, RecordKey) && |GroupMap(days, RecordKey)[k]| > 0 && ParseKey(k).Some?
    ensures BuildMonthly(KeysInOrder(days, RecordKey), GroupMap(days, RecordKey)) == Aggregates(days)
  {
    forall k | k in KeysInOrder(days, RecordKey)
      ensures |Members(days, RecordKey, k)| > 0 && ParseKey(k).Some?
    {
      ListedKeyParses(days, k);
    }
  }

  /** main.js:45-47: the daily records of the city, sorted by date; records
      of the same date stay in the filter's order. */
  method CityByDate(data: array<Daily>) returns (indy: array<Daily>)
    ensures fresh(indy)
    ensures multiset(indy[..]) == multiset(KeepCity(data[..]))
    ensures SortedBy(indy[..], DailyTime)
    ensures SameKeyOrder(indy[..], KeepCity(data[..]), DailyTime)
    ensures AllValid(data[..]) ==> forall i, j | 0 <= i < j < indy.Length :: !Before(indy[j].date, indy[i].date)
  {
    var kept := KeepCity(data[..]);
    indy := ArrayOf(kept);
    SortByKey(indy, DailyTime);
    if AllValid(data[..]) {
      KeepCityValid(data[..]);
      forall i | 0 <= i < indy.Length ensures ValidDate(indy[i].date) {
        assert indy[..][i] in multiset(kept);
      }
      SortedByDate(indy[..]);
    }
  }

  /** `Array.from(d3.group(...), ...)`: a new array of the Monthly records in
      the order of their keys. */
  method AggregateArray(days: seq<Daily>) returns (monthly: array<Monthly>)
    ensures fresh(monthly)
    ensures monthly[..] == Aggregates(days)
  {
    var keys, groups := Group(days, RecordKey);
    GroupOutputAggregates(days);
    monthly := ArrayOf(BuildMonthly(keys, groups));
  }

  /** main.js:52-69: one Monthly record per month the days cover, sorted,
      and so strictly increasing, by month. */
  method MonthlyByMonth(days: seq<Daily>) returns (monthly: array<Monthly>)
    ensures fresh(monthly)
    ensures multiset(monthly[..]) == multiset(Aggregates(days))
    ensures forall i, j | 0 <= i < j < monthly.Length :: Before(monthly[i].month, monthly[j].month)
  {
    monthly := AggregateArray(days);
    SortByKey(monthly, MonthlyTime);
    AggregatesWellFormed(days);
    SortedAggregatesStrictlyIncrease(monthly[..], Aggregates(days));
  }

  /** main.js:36-69 in order: the CSV rows converted, the city's records
      sorted by date, then their monthly aggregates sorted by month. */
  method PrepareData(raw: array<CsvRow>, parseDate: string -> Date, toNumber: string -> real)
    returns (indy: array<Daily>, monthly: array<Monthly>)
    ensures fresh(indy) && fresh(monthly)
    ensures var days := ConvertAll(raw[..], parseDate, toNumber);
            && multiset(indy[..]) == multiset(KeepCity(days))
            && SortedBy(indy[..], DailyTime)
            && SameKeyOrder(indy[..], KeepCity(days), DailyTime)
            && (AllValid(days) ==> forall i, j | 0 <= i < j < indy.Length :: !Before(indy[j].date, indy[i].date))
    ensures multiset(monthly[..]) == multiset(Aggregates(indy[..]))
    ensures forall i, j | 0 <= i < j < monthly.Length :: Before(monthly[i].month, monthly[j].month)
  {
    var data := ConvertRows(raw, parseDate, toNumber);
    indy := CityByDate(data);
    monthly := MonthlyByMonth(indy[..]);
  }
}
