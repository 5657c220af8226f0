/** The grouping key of the monthly aggregator: the template string
    `${year}-${month}` built from a date's full year and zero-based month,
    and its parse, `key.split("-").map(Number)`. */
module MonthKeys {
  import opened Wrappers
  import opened Calendar

  predicate IsDigit(c: char) {
    '0' <= c <= '9'
  }

  predicate AllDigits(s: string) {
    forall i | 0 <= i < |s| :: IsDigit(s[i])
  }

  function DigitChar(n: nat): (c: char)
    requires n < 10
    ensures IsDigit(c) && c as int - '0' as int == n
  {
    ('0' as int + n) as char
  }

  /** A natural number in decimal, as a template literal prints it. */
  function ShowNat(n: nat): (s: string)
    ensures |s| >= 1 && AllDigits(s)
  {
    if n < 10 then [DigitChar(n)] else ShowNat(n / 10) + [DigitChar(n % 10)]
  }

  /** The value of a string of decimal digits (the empty string is 0). */
  function DigitsValue(s: string): nat
    requires AllDigits(s)
  {
    if |s| == 0 then 0 else DigitsValue(s[..|s| - 1]) * 10 + (s[|s| - 1] as int - '0' as int)
  }

  /** JavaScript's `Number(s)` on the strings a key can split into: a string
      of digits (the empty one included) gives its value, anything else NaN.
      It reads back every number a template literal prints. */
  function ToNumber(s: string): (r: Option<nat>)
    ensures s == "" ==> r == Some(0)
    ensures (exists i | 0 <= i < |s| :: !IsDigit(s[i])) ==> r == None
    ensures forall n: nat | s == ShowNat(n) :: r == Some(n)
  {
    assert forall n: nat | s == ShowNat(n) :: AllDigits(s) && DigitsValue(s) == n by {
      forall n: nat | s == ShowNat(n) ensures AllDigits(s) && DigitsValue(s) == n {
        ShowNatRoundTrip(n);
      }
    }
    if AllDigits(s) then Some(DigitsValue(s)) else None
  }

  /** `s.split(sep)` for a one-character separator: the pieces between the
      separators, including empty ones at either end. */
  function Split(s: string, sep: char): (parts: seq<string>)
    ensures |parts| >= 1
  {
    if |s| == 0 then [""]
    else if s[0] == sep then [""] + Split(s[1..], sep)
    else
      var rest := Split(s[1..], sep);
      [[s[0]] + rest[0]] + rest[1..]
  }

  /** The key of the month a date falls in (main.js, key function of the
      group): it splits on "-" into exactly the printed year and the printed
      zero-based month. */
  function MonthKey(d: Date): (k: string)
    ensures Split(k, '-') == [ShowNat(d.year), ShowNat(d.month0)]
  {
    SplitPrinted(d.year, d.month0);
    ShowNat(d.year) + "-" + ShowNat(d.month0)
  }

  /** Two printed numbers joined by "-" split back into the two. */
  lemma SplitPrinted(a: nat, b: nat)
    ensures Split(ShowNat(a) + "-" + ShowNat(b), '-') == [ShowNat(a), ShowNat(b)]
  {
    var xs, ys := ShowNat(a), ShowNat(b);
    SplitAtFirst(xs, '-', ys);
    SplitNoSeparator(ys, '-');
    assert xs + "-" + ys == xs + ['-'] + ys;
  }

  /** `const [year, month] = key.split("-").map(Number)`: None stands for a
      NaN or undefined part. A key without "-" has no month, and a key made
      of two printed numbers around "-" gives back those numbers. */
  function ParseKey(key: string): (r: Option<(nat, nat)>)
    ensures (forall i | 0 <= i < |key| :: key[i] != '-') ==> r == None
    ensures forall a: nat, b: nat | key == ShowNat(a) + "-" + ShowNat(b) :: r == Some((a, b))
  {
    assert (forall i | 0 <= i < |key| :: key[i] != '-') ==> Split(key, '-') == [key] by {
      if forall i | 0 <= i < |key| :: key[i] != '-' {
        SplitNoSeparator(key, '-');
      }
    }
    assert forall a: nat, b: nat | key == ShowNat(a) + "-" + ShowNat(b)
             :: ParseParts(Split(key, '-')) == Some((a, b)) by {
      forall a: nat, b: nat | key == ShowNat(a) + "-" + ShowNat(b)
        ensures ParseParts(Split(key, '-')) == Some((a, b))
      {
        PartsOfPrinted(a, b);
      }
    }
    ParseParts(Split(key, '-'))
  }

  /** The first two pieces of a split key, each read as a number. */
  function ParseParts(parts: seq<string>): Option<(nat, nat)> {
    if |parts| < 2 then None
    else match (ToNumber(parts[0]), ToNumber(parts[1]))
      case (Some(y), Some(m)) => Some((y, m))
      case _ => None
  }

  lemma PartsOfPrinted(a: nat, b: nat)
    ensures ParseParts(Split(ShowNat(a) + "-" + ShowNat(b), '-')) == Some((a, b))
  {
    SplitPrinted(a, b);
    var parts := Split(ShowNat(a) + "-" + ShowNat(b), '-');
    assert ToNumber(parts[0]) == Some(a) && ToNumber(parts[1]) == Some(b);
  }

  lemma {:induction false} ShowNatRoundTrip(n: nat)
    ensures DigitsValue(ShowNat(n)) == n
  {
    if n >= 10 {
      var s := ShowNat(n);
      assert s[..|s| - 1] == ShowNat(n / 10);
      ShowNatRoundTrip(n / 10);
    }
  }

  /** Splitting a prefix free of the separator, then the separator, then the
      rest, yields the prefix followed by the pieces of the rest. */
  lemma {:induction false} SplitAtFirst(a: string, sep: char, b: string)
    requires forall i | 0 <= i < |a| :: a[i] != sep
    ensures Split(a + [sep] + b, sep) == [a] + Split(b, sep)
    decreases |a|
  {
    if |a| == 0 {
      assert a + [sep] + b == [sep] + b;
      assert ([sep] + b)[1..] == b;
    } else {
      assert (a + [sep] + b)[1..] == a[1..] + [sep] + b;
      SplitAtFirst(a[1..], sep, b);
      assert [a[0]] + a[1..] == a;
    }
  }

  /** A string without the separator splits into itself. */
  lemma {:induction false} SplitNoSeparator(s: string, sep: char)
    requires forall i | 0 <= i < |s| :: s[i] != sep
    ensures Split(s, sep) == [s]
    decreases |s|
  {
    if |s| > 0 {
      SplitNoSeparator(s[1..], sep);
      assert [s[0]] + s[1..] == s;
    }
  }

  /** The key round trip: the parse of a month's key gives back its year and
      zero-based month. */
  lemma KeyRoundTrip(d: Date)
    ensures ParseKey(MonthKey(d)) == Some((d.year, d.month0 as nat))
  {
    var ys, ms := ShowNat(d.year), ShowNat(d.month0);
    assert Split(MonthKey(d), '-') == [ys, ms];
    assert ToNumber(ys) == Some(d.year) && ToNumber(ms) == Some(d.month0 as nat);
  }

  /** Two dates share a key exactly when they share year and month. */
  lemma KeySeparatesMonths(a: Date, b: Date)
    ensures MonthKey(a) == MonthKey(b) <==> (a.year == b.year && a.month0 == b.month0)
  {
    KeyRoundTrip(a);
    KeyRoundTrip(b);
  }
}
