# Indianapolis weather dashboard: the data preparation and chart geometry

`main.js` loads a table of daily weather records and draws two d3 charts.
Chart 1 shows the actual mean and the historical maximum temperature per day.
Chart 2 shows the monthly means of actual and historical precipitation as
pairs of bars. This project models the logic under the drawing:

- `Records`: the converted daily record and the city filter
  (`data.filter(d => d.city === "Indianapolis")`).
- `Sorting`: the in-place sorts of the daily records by date and of the
  monthly records by month. One stable insertion sort on an `array` by an
  integer key stands for both comparators.
- `Calendar`: the calendar values that a JavaScript `Date` exposes, and their
  time value as a day number. It also holds `d3.timeMonth.offset`, which works
  like `setMonth`: when the target month is too short, the extra days carry
  into the next month.
- `MonthKeys`: the `${year}-${month}` group key and its parse
  `key.split("-").map(Number)`.
- `Grouping`: `d3.group`. It is a one-pass method that fills a map and lists
  the keys in order of first appearance. It is proved equal to a definition
  by prefixes.
- `Aggregator`: one Monthly record per group. Its month is the first day of
  the key's month, and its two fields are the `d3.mean`s of the group's two
  precipitation columns.
- `Scales`: d3's linear and time scales as affine maps, the domains of both
  charts, the padded month domain of chart 2, and the bar layout.
- `Hover`: the `mousemove1` handler. It runs a bisect-left from index 1 over
  the date-sorted records and keeps the nearer of the two neighbours.
- `Pipeline`: the whole preparation in the source's order, on arrays, from
  the CSV rows to the two arrays the charts draw.

The external inputs are parameters or inputs of the model:

- The CSV rows arrive as an array of string records.
- Decoding a date string and JavaScript's unary `+` on a string are function
  parameters of `Pipeline.Convert`.
- The pointer's time `x0` is an argument of `Hover.MouseMove`. In the source
  it comes from `xScale1.invert` at the mouse position.

Numbers are `real`s. Dates are `(year, zero-based month, day)` values, and
their order is the order of their day numbers.

## Model

| member | source | states |
|---|---|---|
| Records.KeepCity | main.js:45 | the filter keeps no more rows than it is given, and every row it keeps is of Indianapolis |
| Records.KeepCityCount | main.js:45 | each row occurs in the output exactly as often as in the input when its city is Indianapolis, and otherwise not at all |
| Records.KeepCityInOrder | main.js:45 | the output is a subsequence of the input, so relative order is kept |
| Records.KeepCityValid | main.js:45 | rows with valid calendar dates stay valid through the filter |
| Sorting.SortByKey | main.js:47 | after the in-place sort the array is non-decreasing by key and is a permutation of what it held before; the elements of each key keep their old relative order (the sort is stable) |
| Records.SortedByDate | main.js:47 | an array sorted by the comparator key `a.date - b.date` has no record whose date is before the date of an earlier record |
| Calendar.DayNumberOrder | main.js:47 | on valid dates the time value orders them exactly like the calendar, and equal time values mean equal dates |
| Calendar.FirstOfMonth | main.js:62 | the first day of a date's month is a valid date with day 1 in the same year and month |
| MonthKeys.ShowNatRoundTrip | main.js:56 | reading back the decimal digits of a number that a template literal prints gives that number |
| MonthKeys.ToNumber | main.js:60 | `Number` of the empty string is 0, of a string with a non-digit is NaN, and of a printed number is that number |
| MonthKeys.MonthKey | main.js:53-56 | a date's key splits on "-" into exactly two pieces: the printed year and the printed zero-based month |
| MonthKeys.Split | main.js:60 | `split` always yields at least one piece |
| MonthKeys.SplitAtFirst | main.js:60 | a string with no separator, then the separator, then the rest, splits into that string followed by the pieces of the rest |
| MonthKeys.SplitNoSeparator | main.js:60 | a string without the separator splits into itself alone |
| MonthKeys.ParseKey | main.js:60 | a key without "-" has no month (NaN), and any two printed numbers around "-" parse back to those two numbers |
| MonthKeys.KeyRoundTrip | main.js:54-60 | splitting a month's key on "-" and converting both parts to numbers gives back its year and zero-based month |
| MonthKeys.KeySeparatesMonths | main.js:53-56 | two dates share a key exactly when they share year and month |
| Grouping.Members | main.js:53-57 | a group is no longer than the input, and all its values have the group's key |
| Grouping.MembersNonEmpty | main.js:53-57 | a group is non-empty exactly when its key is listed |
| Grouping.KeysInOrderComplete | main.js:53-57 | the listed keys are distinct, every value's key is listed, there are no more keys than values, and there are none exactly when there are no values |
| Grouping.MembersCount | main.js:53-57 | the group of k holds every value whose key is k, as often as it occurs in the input, and no other value |
| Grouping.EachInOneGroup | main.js:53-57 | every value lies in the group of its own key, which is listed, and in no other group |
| Grouping.Group | main.js:53-57 | the one-pass `d3.group` returns the keys in order of first appearance and the map from each key to its group |
| Aggregator.Mean | main.js:63-64 | `d3.mean` of a non-empty list lies between the smallest and the largest of its values |
| Aggregator.MeanBetween | main.js:63-64 | a mean lies between any bounds of the values it averages |
| Aggregator.MonthStart | main.js:62 | `new Date(year, month, 1)` as intended is a valid first day of a month, and for a month below 12 it is that year and month |
| Aggregator.MonthStartAsWrittenMisplacesEarlyYears | main.js:62 | as JavaScript evaluates it, year 50 becomes 1950, and January of year 5 and January 1905 get the same record month |
| Aggregator.MonthStartSeparatesMonths | main.js:56-62 | the corrected month start of a key is the first day of its own month, and two dates get the same month start exactly when they share a key |
| Aggregator.Aggregate | main.js:58-66 | the record built from a key and its group is dated the first day of the month the key was made from, and each of its means lies between two values of its column in the group |
| Aggregator.BuildMonthly | main.js:52-66 | `Array.from` over the grouped map gives one record per key, each dated a valid first day of a month |
| Aggregator.Aggregates | main.js:52-66 | there are as many Monthly records as listed keys, no more than there are days, none exactly when there are no days, and each is dated a valid first day of a month |
| Aggregator.ListedKeyParses | main.js:56-60 | every listed key has a non-empty group and parses back to the year and month of that group's first record |
| Aggregator.AggregateMonthOfGroup | main.js:52-62 | each Monthly record's month is the first day of the month of every record in its group |
| Aggregator.AggregateDescribesGroup | main.js:52-66 | each Monthly record comes from a non-empty group; its month is the first day of the month of every record in that group, and its fields are the means of the group's two precipitation columns |
| Aggregator.AggregateMonthsDistinct | main.js:52-66 | no two Monthly records share a month |
| Aggregator.EveryMonthAggregated | main.js:52-66 | every record's month has a Monthly record |
| Aggregator.AggregatesWellFormed | main.js:52-66 | the Monthly records have distinct, valid months |
| Aggregator.SameMonthPair | main.js:52-66 | two records of the same month give exactly one Monthly record: the first day of that month, with the averages of their two precipitations |
| Aggregator.TwoJanuaryRecords | main.js:52-66 | the records of 15 and 28 January 2021, with precipitations 0.10/0.05 and 0.30/0.25, give exactly one Monthly record: 1 January 2021 with means 0.2 and 0.15 |
| Aggregator.PermutationKeepsMonthsDistinct | main.js:69 | reordering Monthly records keeps their months pairwise distinct |
| Aggregator.SortedAggregatesStrictlyIncrease | main.js:69 | a permutation of distinct, valid Monthly records that is sorted by time value is strictly increasing by month |
| Scales.Linear.Apply | main.js:75-84 | with a non-empty domain the scale maps x onto the straight line through (d0, r0) and (d1, r1); with an empty one, onto the middle of the range |
| Scales.ScaleStep | main.js:75-84 | a scale with a non-empty domain moves a value by the range-to-domain ratio |
| Scales.ScaleMonotone | main.js:75-84 | with an increasing domain, a scale keeps strict order when its range increases and reverses it when its range decreases |
| Scales.ScaleInside | main.js:75-84 | a scale maps the domain ends to the range ends, and a value strictly inside the domain lands strictly inside the range |
| Scales.ScaleRoundTrip | main.js:223 | inverting a scale with non-empty domain and range gives back the value |
| Scales.MinLow | main.js:81 | `d3.min` of the lower temperature of each row is at most every row's lower temperature and is attained by some row |
| Scales.MaxHigh | main.js:82 | `d3.max` of the higher temperature of each row is at least every row's higher temperature and is attained by some row |
| Scales.TempDomain | main.js:80-83 | chart 1's y-domain exists exactly when there are rows, and it is at least 10 degrees wide |
| Scales.TempDomainContainsData | main.js:79-84 | both temperatures of every row lie strictly inside chart 1's y-domain, so they are drawn strictly inside the plot's height |
| Scales.Earliest | main.js:76 | the earliest date is one of the dates and is no later than any of them |
| Scales.Latest | main.js:243 | the latest date is one of the dates and is no earlier than any of them |
| Scales.DateDomain | main.js:76 | chart 1's x-domain exists exactly when there are rows; both ends are dates of rows, and every row's time value lies between them |
| Scales.DateDomainOfSorted | main.js:76 | on rows sorted by date, chart 1's x-domain runs from the first row's time value to the last row's |
| Calendar.OffsetMonths | main.js:246-247 | a month offset yields a valid date; for days up to 28 it lands on the same day of the target month, otherwise in the target month or, on an earlier day, in the month after it |
| Calendar.OffsetMonthsCarries | main.js:246-247 | the offset date lies d.day - 1 days after the first day of the target month, even when that runs past the target month's end |
| Calendar.OffsetMonthsWrapsYear | main.js:246-247 | January minus one month is December of the year before, December plus one month is January of the next year, and other months move inside their year |
| Calendar.OffsetOneMonth | main.js:246-247 | one month back is strictly earlier and one month on is strictly later |
| Scales.PaddedExtent | main.js:243-247 | chart 2's x-domain exists exactly when there are months, and both its ends are valid dates; on first-of-month records its ends are the first days of the month before the earliest month and of the month after the latest |
| Scales.PaddedMonthDomain | main.js:243-247 | extending `d3.extent` of the months in place by one month on each side gives the padded extent |
| Scales.PaddedExtentContainsMonths | main.js:243-251 | every month lies strictly inside the padded x-domain of chart 2 |
| Scales.XScale2 | main.js:250-252 | chart 2's x-scale maps onto [0, width], and on valid months its domain is not empty |
| Scales.TickInsidePlot | main.js:243-251 | every month's tick lies strictly inside the plot's width |
| Scales.MaxAvg | main.js:257 | `d3.max` of the larger mean of each month is at least every month's larger mean and is attained by some month |
| Scales.PrecipDomain | main.js:255-258 | chart 2's y-domain exists exactly when there are months, starts at 0, and on non-negative means reaches every mean |
| Scales.YScale2 | main.js:254-259 | chart 2's y-scale runs over the y-domain from the bottom of the plot to its top, and its domain is not empty when some mean is positive |
| Scales.BarWidth | main.js:277 | the bar width is positive, and the bars of all months take up 0.4 of the plot's width |
| Scales.ActualBar | main.js:285-288 | the actual bar has the bar width, its right edge 2 px left of the month's tick, and its bottom on the bottom of the plot |
| Scales.HistoricalBar | main.js:307-310 | the historical bar has the bar width, its left edge 2 px right of the month's tick, and its bottom on the bottom of the plot |
| Scales.BarsFlankTick | main.js:285-309 | the two bars of a month have the bar width; the actual bar ends 2 px left of the tick and the historical bar starts 2 px right of it, so they leave a 4 px gap |
| Scales.ChartBars | main.js:280-310 | chart 2 draws one pair of bars per month |
| Scales.BarHeightInPlot | main.js:254-259 | for a mean between 0 and the largest, the bar's top and its height both lie between 0 and the plot's height |
| Scales.ChartBarHeights | main.js:286-310 | when the means are non-negative and not all zero, both bars of every month rise from the bottom of the plot and stay within its height |
| Scales.ChartBarPlacement | main.js:277-310 | when the means are non-negative and not all zero, the pair chart 2 draws for a month has its tick strictly inside the plot, both bars of the positive bar width flanking the tick 2 px apart on each side, and both heights within the plot, rising from its bottom |
| Scales.AllDryBarsHalfHeight | main.js:254-259 | when every mean is 0 the y-domain is empty and d3 maps to the middle of the range, so every bar has half the plot's height |
| Hover.LeftPosition | main.js:222-224 | bisect-left answers a position from lo on: every time before it is below x, and the time at it, if any, is not |
| Hover.LeftPositionIs | main.js:222-224 | any position with those two properties is the bisect-left answer |
| Hover.LeftPositionSplits | main.js:222-224 | on sorted data every time from the answer on is not below x |
| Hover.BisectLeft | main.js:222-224 | the binary search over the sorted array returns the bisect-left position |
| Hover.Closer | main.js:228 | the choice is one of the two records, and when they bracket x0 it is at least as near to x0 as either |
| Hover.CloserBreaksTies | main.js:228 | between two records that bracket x0, a tie or a strictly nearer d0 gives d0, and a strictly nearer d1 gives d1 |
| Hover.Focus | main.js:221-228 | a focus is always one of the records, and there is none with fewer than two records |
| Hover.MouseMove | main.js:221-228 | the handler's focus is the nearer neighbour around the bisect answer from index 1, and None when a neighbour is undefined |
| Hover.FocusUndefined | main.js:224-228 | the lookup fails exactly when there are fewer than two records or the pointer is after the last record |
| Hover.HoverBrackets | main.js:224-227 | with at least two records and the pointer within their dates, the answer is in [1, n-1], and its two neighbours bracket the pointer |
| Hover.FocusIsNearest | main.js:221-228 | under the same conditions the focus is a record of the data nearest to the pointer among all records |
| Pipeline.Convert | main.js:37-41 | a converted row keeps its city, decodes its date and converts all four numeric columns: both temperatures and both precipitations |
| Pipeline.ConvertRows | main.js:36-42 | every row is converted, in order |
| Pipeline.CityByDate | main.js:45-47 | the city's rows as a new array: a permutation of the filter's output, sorted by date, with records of the same date in the filter's order, and in calendar order when the dates are valid |
| Pipeline.AggregateArray | main.js:52-66 | `Array.from(d3.group(...), ...)` gives a new array holding exactly the Monthly records of the days, in key order |
| Pipeline.MonthlyByMonth | main.js:52-69 | the Monthly records as a new array, a permutation of the aggregates, strictly increasing by month |
| Pipeline.PrepareData | main.js:36-69 | from the CSV rows: the city's converted records sorted stably by date (in calendar order when the dates are valid), and their Monthly records strictly increasing by month |

## Left out

- Loading the CSV through the `d3.csv` promise (main.js:34) is I/O, so the rows are an input.
- Date-string decoding (main.js:37) depends on the time zone, so it is a parameter of `Pipeline.Convert`. The time of day is not modelled.
- JavaScript's unary `+` on strings, NaN, and IEEE-754 rounding of the means and of the 1.1 factor are not modelled. Numbers are exact reals, and the conversion is a parameter.
- Pipeline.ConvertRows: returns a new array of converted rows rather than adding the `*_num` fields to the same objects.
- Years before 0 are not modelled: a year is a `nat`. Negative years would print a minus sign, which the key's split on "-" would misread.
- MonthKeys.ToNumber: models `Number` only on the strings a key can split into, digits or not. Signs, exponents and whitespace are not modelled.
- `d3.bisector(...).left` also checks its argument for NaN first. With no NaN, that check never changes the answer, so it is not modelled.
- Scales.BarWidth: requires at least one month. With none, the source divides by zero and gets Infinity, and no bars are drawn.
- Aggregator.Mean: requires a non-empty list. Every group built by `d3.group` is non-empty, so `d3.mean`'s undefined result for an empty list is never produced.
- Scales.PaddedExtent, Scales.XScale2, Scales.ChartBars: require every month to lie after January of year 0, so that the month before the earliest one exists as a `nat` year.
- Scales.ChartBarPlacement: requires some mean to be positive. The all-zero case, where the y-domain is empty, is Scales.AllDryBarsHalfHeight.
- Scales.TempDomain, Scales.DateDomain, Scales.PrecipDomain, Scales.PaddedExtent: an empty input gives None, where d3 gives undefined or NaN. `d3.timeMonth.offset` of undefined is not modelled.
- Axes, ticks, tick formats, titles, legends, tooltips, HTML text and `toFixed`/`toLocaleDateString` formatting (main.js:6-31, 86-99, 126-219, 261-274, 323-366) are presentation only, so they are not modelled.
- `curveMonotoneX` line interpolation (main.js:105, 110) is rendering, so it is not modelled.
- `d3.pointer` and the pixel-to-time inversion (main.js:223) are not modelled: `x0` is an input. Scales.ScaleRoundTrip states the inversion itself.
- Event wiring (mouseover, mouseout, mousemove) and the visibility toggles are not modelled. The event loop is single-threaded, so there is no concurrency.

## Findings

| source | as written | input that shows it | evidently intended | confidence | as-written member | corrected member |
|---|---|---|---|---|---|---|
| main.js:62 | `new Date(year, month, 1)` reads a year from 0 to 99 as 1900 + year | records dated in year 50 are filed under 1950; the keys "5-0" and "1905-0" both get the month 1 January 1905 | the first day of the key's own year and month, distinct for distinct keys | not executed | Aggregator.MonthStartAsWrittenMisplacesEarlyYears | Aggregator.MonthStartSeparatesMonths |
