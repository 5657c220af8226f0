/** The hover lookup of chart 1 (main.js:221-228): a left bisection over the
    date-sorted daily records, started at index 1, then the nearer of the two
    records around the pointer's time. The pointer's time `x0` is an input:
    it comes from inverting the x-scale at the mouse position. */
module Hover {
  import opened Wrappers
  import opened Calendar
  import opened Records
  import opened Sorting

  /** The time value a record is compared by, as a real day number. */
  function Time(r: Daily): real {
    DailyTime(r) as real
  }

  function Distance(r: Daily, x: real): real {
    if Time(r) <= x then x - Time(r) else Time(r) - x
  }

  /** Where `bisector(d => d.date).left(data, x, lo)` answers: the first
      position from lo on whose time is not below x, or the end of the data
      when there is none (lo itself when lo is already past the end). */
  function LeftPosition(data: seq<Daily>, x: real, lo: nat): (i: nat)
    ensures lo <= i
    ensures lo <= |data| ==> i <= |data|
    ensures lo >= |data| ==> i == lo
    ensures forall k | lo <= k < i && k < |data| :: Time(data[k]) < x
    ensures i < |data| ==> x <= Time(data[i])
    decreases |data| - lo
  {
    if lo >= |data| then lo
    else if x <= Time(data[lo]) then lo
    else LeftPosition(data, x, lo + 1)
  }

  /** A position with every time below x before it (from lo on) and a time
      not below x at it is the left position. */
  lemma {:induction false} LeftPositionIs(data: seq<Daily>, x: real, lo: nat, i: nat)
    requires lo <= i <= |data|
    requires forall k | lo <= k < i :: Time(data[k]) < x
    requires i < |data| ==> x <= Time(data[i])
    ensures LeftPosition(data, x, lo) == i
    decreases i - lo
  {
    if lo < i {
      LeftPositionIs(data, x, lo + 1, i);
    }
  }

  /** On sorted data every position from the left position on has a time
      not below x. */
  lemma LeftPositionSplits(data: seq<Daily>, x: real, lo: nat)
    requires SortedBy(data, DailyTime) && lo <= |data|
    ensures forall k | LeftPosition(data, x, lo) <= k < |data| :: x <= Time(data[k])
  {
    var i := LeftPosition(data, x, lo);
    forall k | i <= k < |data| ensures x <= Time(data[k]) {
      assert DailyTime(data[i]) <= DailyTime(data[k]);
    }
  }

  /** d3's bisect-left: halve the window [lo, hi) until it is empty, moving
      lo past every middle whose time is below x. */
  method BisectLeft(a: array<Daily>, x: real, lo: nat) returns (i: nat)
    requires SortedBy(a[..], DailyTime)
    ensures i == LeftPosition(a[..], x, lo)
  {
    i := lo;
    if lo >= a.Length {
      return;
    }
    var hi := a.Length;
    while i < hi
      invariant lo <= i <= hi <= a.Length
      invariant forall k | lo <= k < i :: Time(a[k]) < x
      invariant forall k | hi <= k < a.Length :: x <= Time(a[k])
      decreases hi - i
    {
      var mid := (i + hi) / 2;
      if Time(a[mid]) < x {
        forall k | i <= k <= mid ensures Time(a[k]) < x {
          assert a[..][k] == a[k] && a[..][mid] == a[mid];
        }
        i := mid + 1;
      } else {
        forall k | mid <= k < hi ensures x <= Time(a[k]) {
          assert a[..][k] == a[k] && a[..][mid] == a[mid];
        }
        hi := mid;
      }
    }
    LeftPositionIs(a[..], x, lo, i);
  }

  /** `x0 - d0.date > d1.date - x0 ? d1 : d0`: one of the two records, and
      when they bracket x0, one at least as near to x0 as either. */
  function Closer(d0: Daily, d1: Daily, x0: real): (d: Daily)
    ensures d == d0 || d == d1
    ensures Time(d0) <= x0 <= Time(d1)
            ==> Distance(d, x0) <= Distance(d0, x0) && Distance(d, x0) <= Distance(d1, x0)
  {
    if x0 - Time(d0) > Time(d1) - x0 then d1 else d0
  }

  /** Between two records that bracket x0, a tie goes to the earlier record
      and the later one is chosen only when it is strictly nearer. */
  lemma CloserBreaksTies(d0: Daily, d1: Daily, x0: real)
    requires Time(d0) <= x0 <= Time(d1)
    ensures Distance(d0, x0) == Distance(d1, x0) ==> Closer(d0, d1, x0) == d0
    ensures Distance(d1, x0) < Distance(d0, x0) ==> Closer(d0, d1, x0) == d1
    ensures Distance(d0, x0) < Distance(d1, x0) ==> Closer(d0, d1, x0) == d0
  {
  }

  /** The record the focus moves to; None where the source reads `.date` of
      an undefined neighbour and the handler stops with a TypeError. A focus
      is always one of the records, and there is none with fewer than two. */
  function Focus(data: seq<Daily>, x0: real): (f: Option<Daily>)
    ensures f.Some? ==> f.value in data
    ensures |data| < 2 ==> f.None?
  {
    var i := LeftPosition(data, x0, 1);
    if i < |data| then Some(Closer(data[i - 1], data[i], x0)) else None
  }

  /** `mousemove1`: bisect from index 1, take the neighbours around the
      answer, keep the nearer one. */
  method MouseMove(a: array<Daily>, x0: real) returns (focus: Option<Daily>)
    requires SortedBy(a[..], DailyTime)
    ensures focus == Focus(a[..], x0)
  {
    var i := BisectLeft(a, x0, 1);
    if i >= a.Length {
      return None;
    }
    var d0 := a[i - 1];
    var d1 := a[i];
    focus := Some(Closer(d0, d1, x0));
  }

  /** The lookup fails exactly when there are fewer than two records or the
      pointer lies after the last record. */
  lemma FocusUndefined(data: seq<Daily>, x0: real)
    requires SortedBy(data, DailyTime)
    ensures Focus(data, x0).None? <==> |data| < 2 || Time(data[|data| - 1]) < x0
  {
    if |data| >= 2 {
      LeftPositionSplits(data, x0, 1);
    }
  }

  /** With at least two records and the pointer within their dates, the
      bisection answers a position in [1, n-1] whose two neighbours bracket
      the pointer. */
  lemma HoverBrackets(data: seq<Daily>, x0: real)
    requires SortedBy(data, DailyTime) && |data| >= 2
    requires Time(data[0]) <= x0 <= Time(data[|data| - 1])
    ensures var i := LeftPosition(data, x0, 1);
            && 1 <= i <= |data| - 1
            && Time(data[i - 1]) <= x0 <= Time(data[i])
  {
    LeftPositionSplits(data, x0, 1);
  }

  /** With at least two records and the pointer within their dates, the
      focus is a record of the data nearest to the pointer among all of
      them. */
  lemma FocusIsNearest(data: seq<Daily>, x0: real)
    requires SortedBy(data, DailyTime) && |data| >= 2
    requires Time(data[0]) <= x0 <= Time(data[|data| - 1])
    ensures Focus(data, x0).Some? && Focus(data, x0).value in data
    ensures forall k | 0 <= k < |data| :: Distance(Focus(data, x0).value, x0) <= Distance(data[k], x0)
  {
    HoverBrackets(data, x0);
    var i := LeftPosition(data, x0, 1);
    var f := Closer(data[i - 1], data[i], x0);
    assert Focus(data, x0) == Some(f);
    forall k | 0 <= k < |data| ensures Distance(f, x0) <= Distance(data[k], x0) {
      NearerThanOutside(data, i, x0, f, k);
    }
  }

  /** A record at least as near as both records around x0 is at least as
      near as any record of the sorted data. */
  lemma NearerThanOutside(data: seq<Daily>, i: nat, x0: real, f: Daily, k: nat)
    requires SortedBy(data, DailyTime) && 1 <= i < |data| && k < |data|
    requires Time(data[i - 1]) <= x0 <= Time(data[i])
    requires Distance(f, x0) <= Distance(data[i - 1], x0) && Distance(f, x0) <= Distance(data[i], x0)
    ensures Distance(f, x0) <= Distance(data[k], x0)
  {
    if k < i {
      assert DailyTime(data[k]) <= DailyTime(data[i - 1]);
    } else {
      assert DailyTime(data[i]) <= DailyTime(data[k]);
    }
  }
}
