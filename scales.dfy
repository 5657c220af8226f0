/** The scale mapper and the bar layout of the two charts: the linear scales
    d3 builds (main.js:75-84, 243-259), their domains, and where the paired
    precipitation bars of chart 2 go (main.js:277-310). */
module Scales {
  import opened Wrappers
  import opened Calendar
  import opened Records
  import opened Sorting

  // Layout constants (main.js:2-4): the plot area inside the margins.
  const MarginTop: real := 50.0
  const MarginRight: real := 30.0
  const MarginBottom: real := 60.0
  const MarginLeft: real := 70.0
  const PlotWidth: real := 900.0 - MarginLeft - MarginRight
  const PlotHeight: real := 400.0 - MarginTop - MarginBottom

  /** An unclamped `d3.scaleLinear()` (or `d3.scaleTime()` over day numbers)
      with domain [d0, d1] and range [r0, r1]. */
  datatype Linear = Linear(d0: real, d1: real, r0: real, r1: real) {

    /** Where x lies between d0 and d1; d3 answers 0.5 for an empty domain. */
    function Normalize(x: real): real {
      if d1 - d0 == 0.0 then 0.5 else (x - d0) / (d1 - d0)
    }

    /** `scale(x)`: the number interpolated between r0 and r1. With a
        non-empty domain the point (x, y) lies on the line through (d0, r0)
        and (d1, r1); with an empty one every x goes to the range's middle. */
    function Apply(x: real): (y: real)
      ensures d1 != d0 ==> (y - r0) * (d1 - d0) == (r1 - r0) * (x - d0)
      ensures d1 == d0 ==> y == (r0 + r1) / 2.0
    {
      var t := Normalize(x);
      assert d1 != d0 ==> t * (d1 - d0) == x - d0;
      r0 * (1.0 - t) + r1 * t
    }

    /** `scale.invert(y)`: the same map from range back to domain. */
    function Invert(y: real): real {
      var t := if r1 - r0 == 0.0 then 0.5 else (y - r0) / (r1 - r0);
      d0 * (1.0 - t) + d1 * t
    }
  }

  /** A scale moves its argument by the domain-to-range ratio. */
  lemma ScaleStep(s: Linear, x: real, x': real)
    requires s.d0 != s.d1
    ensures s.Apply(x') - s.Apply(x) == (s.r1 - s.r0) * ((x' - x) / (s.d1 - s.d0))
  {
    var w := s.d1 - s.d0;
    var t, t' := s.Normalize(x), s.Normalize(x');
    assert t' - t == (x' - x) / w;
    assert s.Apply(x') - s.Apply(x) == (s.r1 - s.r0) * (t' - t);
  }

  /** A scale with an increasing domain keeps strict order when its range
      increases and reverses it when its range decreases (the y-scales). */
  lemma ScaleMonotone(s: Linear, x: real, x': real)
    requires s.d0 < s.d1 && x < x'
    ensures s.r0 < s.r1 ==> s.Apply(x) < s.Apply(x')
    ensures s.r0 > s.r1 ==> s.Apply(x) > s.Apply(x')
  {
    ScaleStep(s, x, x');
    assert (x' - x) / (s.d1 - s.d0) > 0.0;
  }

  /** The domain ends map to the range ends, so a value strictly inside the
      domain lands strictly inside the range. */
  lemma ScaleInside(s: Linear, x: real)
    requires s.d0 < x < s.d1
    ensures s.Apply(s.d0) == s.r0 && s.Apply(s.d1) == s.r1
    ensures s.r0 < s.r1 ==> s.r0 < s.Apply(x) < s.r1
    ensures s.r0 > s.r1 ==> s.r1 < s.Apply(x) < s.r0
  {
    ScaleEnds(s);
    ScaleMonotone(s, s.d0, x);
    ScaleMonotone(s, x, s.d1);
  }

  lemma ScaleEnds(s: Linear)
    requires s.d0 != s.d1
    ensures s.Apply(s.d0) == s.r0 && s.Apply(s.d1) == s.r1
  {
    DivideSelf(s.d1 - s.d0);
    assert s.Normalize(s.d0) == 0.0;
    assert s.Normalize(s.d1) == 1.0;
  }

  lemma DivideSelf(w: real)
    requires w != 0.0
    ensures w / w == 1.0
  {
  }

  /** Inverting a scale with non-empty domain and range recovers the value. */
  lemma ScaleRoundTrip(s: Linear, x: real)
    requires s.d0 != s.d1 && s.r0 != s.r1
    ensures s.Invert(s.Apply(x)) == x
  {
    var t := s.Normalize(x);
    var y := s.Apply(x);
    assert y - s.r0 == t * (s.r1 - s.r0);
    assert (y - s.r0) / (s.r1 - s.r0) == t;
    assert x - s.d0 == t * (s.d1 - s.d0);
  }

  function LowTemp(r: Daily): real {
    if r.actualMeanTemp <= r.averageMaxTemp then r.actualMeanTemp else r.averageMaxTemp
  }

  function HighTemp(r: Daily): real {
    if r.actualMeanTemp >= r.averageMaxTemp then r.actualMeanTemp else r.averageMaxTemp
  }

  /** `d3.min(indyData, d => Math.min(...))`. */
  function MinLow(rows: seq<Daily>): (m: real)
    requires rows != []
    ensures forall i | 0 <= i < |rows| :: m <= LowTemp(rows[i])
    ensures exists i | 0 <= i < |rows| :: m == LowTemp(rows[i])
  {
    if |rows| == 1 then LowTemp(rows[0])
    else
      var m := MinLow(rows[..|rows| - 1]);
      var v := LowTemp(rows[|rows| - 1]);
      if v < m then v else m
  }

  /** `d3.max(indyData, d => Math.max(...))`. */
  function MaxHigh(rows: seq<Daily>): (m: real)
    requires rows != []
    ensures forall i | 0 <= i < |rows| :: HighTemp(rows[i]) <= m
    ensures exists i | 0 <= i < |rows| :: m == HighTemp(rows[i])
  {
    if |rows| == 1 then HighTemp(rows[0])
    else
      var m := MaxHigh(rows[..|rows| - 1]);
      var v := HighTemp(rows[|rows| - 1]);
      if v > m then v else m
  }

  /** The y-domain of chart 1: five degrees below the lowest and above the
      highest temperature; None is the NaN pair d3 yields for no rows. */
  function TempDomain(rows: seq<Daily>): (r: Option<(real, real)>)
    ensures r.None? <==> rows == []
    ensures r.Some? ==> r.value.1 - r.value.0 >= 10.0
  {
    if rows == [] then None else Some((MinLow(rows) - 5.0, MaxHigh(rows) + 5.0))
  }

  /** Every temperature of chart 1 lies strictly inside its y-domain, and so
      is drawn strictly inside the plot's height. */
  lemma TempDomainContainsData(rows: seq<Daily>, i: nat)
    requires i < |rows|
    ensures TempDomain(rows).Some?
    ensures var (lo, hi) := TempDomain(rows).value;
            && lo < rows[i].actualMeanTemp < hi
            && lo < rows[i].averageMaxTemp < hi
    ensures var (lo, hi) := TempDomain(rows).value;
            var y := Linear(lo, hi, PlotHeight, 0.0);
            && 0.0 < y.Apply(rows[i].actualMeanTemp) < PlotHeight
            && 0.0 < y.Apply(rows[i].averageMaxTemp) < PlotHeight
  {
    var (lo, hi) := TempDomain(rows).value;
    ScaleInside(Linear(lo, hi, PlotHeight, 0.0), rows[i].actualMeanTemp);
    ScaleInside(Linear(lo, hi, PlotHeight, 0.0), rows[i].averageMaxTemp);
  }

  /** The earliest of some dates, the first one found on ties (`d3.extent`). */
  function Earliest(ds: seq<Date>): (e: Date)
    requires ds != []
    ensures e in ds
    ensures forall i | 0 <= i < |ds| :: DayNumber(e) <= DayNumber(ds[i])
  {
    if |ds| == 1 then ds[0]
    else
      var e := Earliest(ds[..|ds| - 1]);
      if DayNumber(ds[|ds| - 1]) < DayNumber(e) then ds[|ds| - 1] else e
  }

  /** The latest of some dates, the first one found on ties (`d3.extent`). */
  function Latest(ds: seq<Date>): (e: Date)
    requires ds != []
    ensures e in ds
    ensures forall i | 0 <= i < |ds| :: DayNumber(ds[i]) <= DayNumber(e)
  {
    if |ds| == 1 then ds[0]
    else
      var e := Latest(ds[..|ds| - 1]);
      if DayNumber(ds[|ds| - 1]) > DayNumber(e) then ds[|ds| - 1] else e
  }

  function Dates(rows: seq<Daily>): seq<Date> {
    seq(|rows|, i requires 0 <= i < |rows| => rows[i].date)
  }

  function Months(monthly: seq<Monthly>): seq<Date> {
    seq(|monthly|, i requires 0 <= i < |monthly| => monthly[i].month)
  }

  /** The x-domain of chart 1, `d3.extent(indyData, d => d.date)`. */
  function DateDomain(rows: seq<Daily>): (r: Option<(Date, Date)>)
    ensures r.None? <==> rows == []
    ensures r.Some? ==> r.value.0 in Dates(rows) && r.value.1 in Dates(rows)
    ensures r.Some? ==> forall i | 0 <= i < |rows|
                          :: DayNumber(r.value.0) <= DailyTime(rows[i]) <= DayNumber(r.value.1)
  {
    assert forall i | 0 <= i < |rows| :: Dates(rows)[i] == rows[i].date;
    if rows == [] then None else Some((Earliest(Dates(rows)), Latest(Dates(rows))))
  }

  /** On rows sorted by date the extent runs from the first row's date to
      the last row's time value. */
  lemma DateDomainOfSorted(rows: seq<Daily>)
    requires rows != [] && SortedBy(rows, DailyTime)
    ensures DateDomain(rows).Some?
    ensures DayNumber(DateDomain(rows).value.0) == DailyTime(rows[0])
    ensures DayNumber(DateDomain(rows).value.1) == DailyTime(rows[|rows| - 1])
  {
    var (e, l) := DateDomain(rows).value;
    var ds := Dates(rows);
    var p :| 0 <= p < |ds| && ds[p] == e;
    var q :| 0 <= q < |ds| && ds[q] == l;
    SortedExtent(rows, p, q, DayNumber(e), DayNumber(l));
  }

  /** Bounds of sorted rows that some rows attain are its first and last keys. */
  lemma SortedExtent(rows: seq<Daily>, p: nat, q: nat, lo: int, hi: int)
    requires p < |rows| && q < |rows| && SortedBy(rows, DailyTime)
    requires DailyTime(rows[p]) == lo && DailyTime(rows[q]) == hi
    requires forall i | 0 <= i < |rows| :: lo <= DailyTime(rows[i]) <= hi
    ensures lo == DailyTime(rows[0]) && hi == DailyTime(rows[|rows| - 1])
  {
    assert DailyTime(rows[0]) <= DailyTime(rows[p]);
    assert DailyTime(rows[q]) <= DailyTime(rows[|rows| - 1]);
  }

  /** The x-domain of chart 2: the extent of the months, widened by one
      month on each side (main.js:243-247). */
  function PaddedExtent(monthly: seq<Monthly>): (r: Option<(Date, Date)>)
    requires forall i | 0 <= i < |monthly| :: MonthIndex(monthly[i].month) >= 1
    ensures r.None? <==> monthly == []
    ensures r.Some? ==> ValidDate(r.value.0) && ValidDate(r.value.1)
    ensures r.Some? && (forall i | 0 <= i < |monthly| :: monthly[i].month.day == 1)
            ==> && r.value.0.day == 1 && r.value.1.day == 1
                && MonthIndex(r.value.0) + 1 == MonthIndex(Earliest(Months(monthly)))
                && MonthIndex(r.value.1) == MonthIndex(Latest(Months(monthly))) + 1
  {
    if monthly == [] then None
    else
      var ms := Months(monthly);
      Some((OffsetMonths(Earliest(ms), -1), OffsetMonths(Latest(ms), 1)))
  }

  /** `let xDomain2 = d3.extent(...)`, then both ends reassigned in place. */
  method PaddedMonthDomain(monthly: seq<Monthly>) returns (domain: Option<(Date, Date)>)
    requires forall i | 0 <= i < |monthly| :: MonthIndex(monthly[i].month) >= 1
    ensures domain == PaddedExtent(monthly)
  {
    if monthly == [] {
      return None;
    }
    var ms := Months(monthly);
    var lo, hi := Earliest(ms), Latest(ms);
    lo := OffsetMonths(lo, -1);
    hi := OffsetMonths(hi, 1);
    domain := Some((lo, hi));
  }

  /** The padded domain holds every month strictly inside it, so no month's
      tick sits on the edge of chart 2 (where its bars would be clipped). */
  lemma PaddedExtentContainsMonths(monthly: seq<Monthly>, i: nat)
    requires forall j | 0 <= j < |monthly| :: MonthIndex(monthly[j].month) >= 1
    requires forall j | 0 <= j < |monthly| :: ValidDate(monthly[j].month)
    requires i < |monthly|
    ensures PaddedExtent(monthly).Some?
    ensures Before(PaddedExtent(monthly).value.0, monthly[i].month)
    ensures Before(monthly[i].month, PaddedExtent(monthly).value.1)
    ensures DayNumber(PaddedExtent(monthly).value.0) < DayNumber(monthly[i].month)
            < DayNumber(PaddedExtent(monthly).value.1)
  {
    var ms := Months(monthly);
    var e, l := Earliest(ms), Latest(ms);
    var (lo, hi) := PaddedExtent(monthly).value;
    assert ms[i] == monthly[i].month;
    var p :| 0 <= p < |ms| && ms[p] == e;
    var q :| 0 <= q < |ms| && ms[q] == l;
    assert ms[p] == monthly[p].month && ms[q] == monthly[q].month;
    OffsetOneMonth(e);
    OffsetOneMonth(l);
    DayNumberOrder(lo, e);
    DayNumberOrder(l, hi);
    DayNumberOrder(lo, monthly[i].month);
    DayNumberOrder(monthly[i].month, hi);
  }

  function AvgHigh(m: Monthly): real {
    if m.actualAvg >= m.averageAvg then m.actualAvg else m.averageAvg
  }

  /** `d3.max(monthlyData, d => Math.max(d.actual_avg, d.average_avg))`. */
  function MaxAvg(monthly: seq<Monthly>): (m: real)
    requires monthly != []
    ensures forall i | 0 <= i < |monthly| :: AvgHigh(monthly[i]) <= m
    ensures exists i | 0 <= i < |monthly| :: m == AvgHigh(monthly[i])
  {
    if |monthly| == 1 then AvgHigh(monthly[0])
    else
      var m := MaxAvg(monthly[..|monthly| - 1]);
      var v := AvgHigh(monthly[|monthly| - 1]);
      if v > m then v else m
  }

  /** The y-domain of chart 2: from 0 to 1.1 times the largest mean. */
  function PrecipDomain(monthly: seq<Monthly>): (r: Option<(real, real)>)
    ensures r.None? <==> monthly == []
    ensures r.Some? ==> r.value.0 == 0.0
    ensures r.Some? && (forall j | 0 <= j < |monthly| :: monthly[j].actualAvg >= 0.0 && monthly[j].averageAvg >= 0.0)
            ==> forall i | 0 <= i < |monthly| :: monthly[i].actualAvg <= r.value.1 && monthly[i].averageAvg <= r.value.1
  {
    if monthly == [] then None else Some((0.0, MaxAvg(monthly) * 1.1))
  }

  /** `(width / monthlyData.length) * 0.4`: a positive width such that the
      bars of all months take up 0.4 of the plot's width. */
  function BarWidth(count: nat): (w: real)
    requires count > 0
    ensures w > 0.0
    ensures w * (count as real) == 0.4 * PlotWidth
  {
    var n := count as real;
    assert (PlotWidth / n) * n == PlotWidth;
    (PlotWidth / n) * 0.4
  }

  datatype Bar = Bar(x: real, y: real, width: real, height: real)

  /** The actual-average bar: its right edge 2 px left of the month's tick,
      its bottom on the bottom of the plot. */
  function ActualBar(m: Monthly, xs: Linear, ys: Linear, w: real): (b: Bar)
    ensures b.width == w
    ensures b.x + b.width == xs.Apply(DayNumber(m.month) as real) - 2.0
    ensures b.y + b.height == PlotHeight
  {
    Bar(xs.Apply(DayNumber(m.month) as real) - w - 2.0, ys.Apply(m.actualAvg), w, PlotHeight - ys.Apply(m.actualAvg))
  }

  /** The historical-average bar: its left edge 2 px right of the month's
      tick, its bottom on the bottom of the plot. */
  function HistoricalBar(m: Monthly, xs: Linear, ys: Linear, w: real): (b: Bar)
    ensures b.width == w
    ensures b.x == xs.Apply(DayNumber(m.month) as real) + 2.0
    ensures b.y + b.height == PlotHeight
  {
    Bar(xs.Apply(DayNumber(m.month) as real) + 2.0, ys.Apply(m.averageAvg), w, PlotHeight - ys.Apply(m.averageAvg))
  }

  /** The x-scale of chart 2 over the padded month domain: it maps onto
      the plot's width, and its domain is not empty. */
  function XScale2(monthly: seq<Monthly>): (s: Linear)
    requires monthly != []
    requires forall i | 0 <= i < |monthly| :: MonthIndex(monthly[i].month) >= 1
    ensures s.r0 == 0.0 && s.r1 == PlotWidth
    ensures (forall i | 0 <= i < |monthly| :: ValidDate(monthly[i].month)) ==> s.d0 < s.d1
  {
    var (lo, hi) := PaddedExtent(monthly).value;
    assert (forall i | 0 <= i < |monthly| :: ValidDate(monthly[i].month)) ==> DayNumber(lo) < DayNumber(hi) by {
      if forall i | 0 <= i < |monthly| :: ValidDate(monthly[i].month) {
        PaddedExtentContainsMonths(monthly, 0);
      }
    }
    Linear(DayNumber(lo) as real, DayNumber(hi) as real, 0.0, PlotWidth)
  }

  /** The y-scale of chart 2 over its y-domain, drawn upwards from the
      bottom of the plot; its domain is empty only when every mean is 0. */
  function YScale2(monthly: seq<Monthly>): (s: Linear)
    requires monthly != []
    ensures s.r0 == PlotHeight && s.r1 == 0.0
    ensures PrecipDomain(monthly) == Some((s.d0, s.d1))
    ensures MaxAvg(monthly) > 0.0 ==> s.d0 < s.d1
  {
    Linear(0.0, MaxAvg(monthly) * 1.1, PlotHeight, 0.0)
  }

  /** The two bars of every month of chart 2. */
  function ChartBars(monthly: seq<Monthly>): (bars: seq<(Bar, Bar)>)
    requires forall i | 0 <= i < |monthly| :: MonthIndex(monthly[i].month) >= 1
    ensures |bars| == |monthly|
  {
    if monthly == [] then []
    else
      var xs, ys, w := XScale2(monthly), YScale2(monthly), BarWidth(|monthly|);
      seq(|monthly|, i requires 0 <= i < |monthly| =>
        (ActualBar(monthly[i], xs, ys, w), HistoricalBar(monthly[i], xs, ys, w)))
  }

  /** The two bars of a month have the same width and flank its tick with a
      4 px gap between them: the actual one ends 2 px left of the tick, the
      historical one starts 2 px right of it. */
  lemma BarsFlankTick(m: Monthly, xs: Linear, ys: Linear, w: real)
    ensures var tick := xs.Apply(DayNumber(m.month) as real);
            var a, h := ActualBar(m, xs, ys, w), HistoricalBar(m, xs, ys, w);
            && a.width == h.width == w
            && a.x + a.width == tick - 2.0
            && h.x == tick + 2.0
            && h.x - (a.x + a.width) == 4.0
  {
  }

  /** The bars chart 2 draws for a month are the two bars of that month
      under the chart's scales and bar width. */
  lemma ChartBarsAt(monthly: seq<Monthly>, i: nat)
    requires forall j | 0 <= j < |monthly| :: MonthIndex(monthly[j].month) >= 1
    requires i < |monthly|
    ensures ChartBars(monthly)[i]
            == (ActualBar(monthly[i], XScale2(monthly), YScale2(monthly), BarWidth(|monthly|)),
                HistoricalBar(monthly[i], XScale2(monthly), YScale2(monthly), BarWidth(|monthly|)))
  {
  }

  /** Every month's tick lies strictly inside the plot's width. */
  lemma TickInsidePlot(monthly: seq<Monthly>, i: nat)
    requires forall j | 0 <= j < |monthly| :: MonthIndex(monthly[j].month) >= 1
    requires forall j | 0 <= j < |monthly| :: ValidDate(monthly[j].month)
    requires i < |monthly|
    ensures 0.0 < XScale2(monthly).Apply(DayNumber(monthly[i].month) as real) < PlotWidth
  {
    PaddedExtentContainsMonths(monthly, i);
    ScaleInside(XScale2(monthly), DayNumber(monthly[i].month) as real);
  }

  /** A bar drawn for a mean between 0 and the largest mean has its top
      and its height between 0 and the plot's height. */
  lemma BarHeightInPlot(monthly: seq<Monthly>, v: real)
    requires monthly != [] && MaxAvg(monthly) > 0.0
    requires 0.0 <= v <= MaxAvg(monthly)
    ensures var y := YScale2(monthly).Apply(v);
            && 0.0 <= y <= PlotHeight
            && 0.0 <= PlotHeight - y <= PlotHeight
  {
    var s := YScale2(monthly);
    ScaleInside(s, s.d1 / 2.0);
    if 0.0 < v < s.d1 {
      ScaleInside(s, v);
    }
  }

  /** Both bars of every month rise from the bottom of the plot and have
      heights within it when the means are non-negative and not all zero,
      whatever the x-scale and the bar width (ChartBarPlacement applies it
      to the ones chart 2 uses). */
  lemma ChartBarHeights(monthly: seq<Monthly>, i: nat, xs: Linear, w: real)
    requires forall j | 0 <= j < |monthly| :: monthly[j].actualAvg >= 0.0 && monthly[j].averageAvg >= 0.0
    requires i < |monthly| && MaxAvg(monthly) > 0.0
    ensures var a, h := ActualBar(monthly[i], xs, YScale2(monthly), w), HistoricalBar(monthly[i], xs, YScale2(monthly), w);
            && 0.0 <= a.height <= PlotHeight && a.y + a.height == PlotHeight
            && 0.0 <= h.height <= PlotHeight && h.y + h.height == PlotHeight
  {
    assert AvgHigh(monthly[i]) <= MaxAvg(monthly);
    BarHeightInPlot(monthly, monthly[i].actualAvg);
    BarHeightInPlot(monthly, monthly[i].averageAvg);
  }

  /** What chart 2 draws for a month when the means are non-negative and
      not all zero: the month's tick lies strictly inside the plot's width;
      its two bars have the bar width and flank the tick with a 4 px gap;
      both rise from the bottom of the plot and stay within its height. */
  lemma ChartBarPlacement(monthly: seq<Monthly>, i: nat)
    requires forall j | 0 <= j < |monthly| :: MonthIndex(monthly[j].month) >= 1 && ValidDate(monthly[j].month)
    requires forall j | 0 <= j < |monthly| :: monthly[j].actualAvg >= 0.0 && monthly[j].averageAvg >= 0.0
    requires i < |monthly|
    requires exists j | 0 <= j < |monthly| :: monthly[j].actualAvg > 0.0 || monthly[j].averageAvg > 0.0
    ensures var (a, h) := ChartBars(monthly)[i];
            var tick := XScale2(monthly).Apply(DayNumber(monthly[i].month) as real);
            && 0.0 < tick < PlotWidth
            && a.width == h.width == BarWidth(|monthly|) > 0.0
            && a.x + a.width == tick - 2.0 && h.x == tick + 2.0
            && 0.0 <= a.height <= PlotHeight && a.y + a.height == PlotHeight
            && 0.0 <= h.height <= PlotHeight && h.y + h.height == PlotHeight
  {
    ChartBarsAt(monthly, i);
    TickInsidePlot(monthly, i);
    ChartBarHeights(monthly, i, XScale2(monthly), BarWidth(|monthly|));
  }

  /** When every mean is 0 the y-domain is empty and d3 puts every value at
      the middle of the range: each bar is drawn at half the plot's height. */
  lemma AllDryBarsHalfHeight(monthly: seq<Monthly>, i: nat)
    requires forall j | 0 <= j < |monthly| :: MonthIndex(monthly[j].month) >= 1
    requires forall j | 0 <= j < |monthly| :: monthly[j].actualAvg == 0.0 && monthly[j].averageAvg == 0.0
    requires i < |monthly|
    ensures ChartBars(monthly)[i].0.height == PlotHeight / 2.0
    ensures ChartBars(monthly)[i].1.height == PlotHeight / 2.0
  {
    var k :| 0 <= k < |monthly| && MaxAvg(monthly) == AvgHigh(monthly[k]);
    var ys := YScale2(monthly);
    assert ys.d0 == ys.d1;
    ChartBarsAt(monthly, i);
  }
}
