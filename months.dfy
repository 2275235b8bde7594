/** `generate_date_range` (utils/donwload_and_pack_tide_data.py:9-15): the months from a
    start to an end month, both written `YYYYMM`, found by adding 32 days to the first of a
    month and going back to day 1. Calendar dates follow Python's `datetime`: proleptic
    Gregorian, years 1 to 9999. */
module Months {
  import opened Wrappers
  import Text

  datatype Date = Date(year: int, month: int, day: int)

  const MAX_YEAR: int := 9999

  predicate IsLeap(y: int) {
    y % 4 == 0 && (y % 100 != 0 || y % 400 == 0)
  }

  function DaysIn(y: int, m: int): (r: int)
    ensures 28 <= r <= 31
  {
    if m == 2 then (if IsLeap(y) then 29 else 28)
    else if m == 4 || m == 6 || m == 9 || m == 11 then 30
    else 31
  }

  predicate ValidDate(d: Date) {
    1 <= d.year <= MAX_YEAR && 1 <= d.month <= 12 && 1 <= d.day <= DaysIn(d.year, d.month)
  }

  /** The first day of the month after `d`'s, or nothing past December 9999. */
  function FirstOfNextMonth(d: Date): Option<Date> {
    if d.month < 12 then Some(Date(d.year, d.month + 1, 1))
    else if d.year < MAX_YEAR then Some(Date(d.year + 1, 1, 1))
    else None
  }

  /** `d + timedelta(days=n)`; nothing when the result is past 9999-12-31, where Python
      raises `OverflowError`. */
  function AddDays(d: Date, n: nat): (r: Option<Date>)
    requires ValidDate(d)
    ensures r.Some? ==> ValidDate(r.value)
    decreases n
  {
    if d.day + n <= DaysIn(d.year, d.month) then Some(d.(day := d.day + n))
    else
      var next := FirstOfNextMonth(d);
      if next.None? then None
      else AddDays(next.value, n - (DaysIn(d.year, d.month) - d.day + 1))
  }

  /** Months counted from year 0: the order of the first days of months. */
  function Index(d: Date): int {
    12 * d.year + d.month - 1
  }

  function FromIndex(k: nat): Date {
    Date(k / 12, k % 12 + 1, 1)
  }

  lemma FromIndexValid(k: nat)
    requires 12 <= k <= 12 * MAX_YEAR + 11
    ensures ValidDate(FromIndex(k)) && FromIndex(k).day == 1 && Index(FromIndex(k)) == k
  {
    var q, r := k / 12, k % 12;
    assert k == 12 * q + r && 0 <= r < 12;
    assert 1 <= q <= MAX_YEAR;
  }

  lemma IndexRoundTrip(d: Date)
    requires ValidDate(d) && d.day == 1
    ensures Index(d) >= 0 && FromIndex(Index(d)) == d
  {
  }

  /** Adding 32 days to the first of a month lands in the next month (on day 2 to 5), so
      one step of the loop moves to the first of the next month; after December 9999 it
      overflows. */
  lemma Advance(d: Date)
    requires ValidDate(d) && d.day == 1
    ensures var r := AddDays(d, 32);
      && (r.None? <==> d.year == MAX_YEAR && d.month == 12)
      && (r.Some? ==> r.value.(day := 1) == FromIndex(Index(d) + 1) && ValidDate(r.value.(day := 1)))
  {
    var next := FirstOfNextMonth(d);
    if next.Some? {
      var rest := 32 - DaysIn(d.year, d.month);
      assert 1 <= rest <= 4;
      assert AddDays(next.value, rest) == Some(next.value.(day := 1 + rest));
    }
  }

  // ---------------------------------------------------------------------------
  // `%Y%m`

  /** `datetime.strptime(s, "%Y%m")`: four digits of year, then a month of two digits
      (01 to 12) or of one (1 to 9), and nothing after them; year 0 is refused. */
  function ParseMonth(s: string): (r: Option<Date>)
    ensures r.Some? ==> ValidDate(r.value) && r.value.day == 1
  {
    if |s| < 5 || |s| > 6 || !Text.AllDigits(s) then None
    else
      Text.DecimalBelow(s[..4]);
      var year := Text.DecimalToNat(s[..4]);
      var month := Text.DecimalToNat(s[4..]);
      if year < 1 || month < 1 || month > 12 || (|s| == 6 && s[4] != '0' && s[4] != '1') then None
      else Some(Date(year, month, 1))
  }

  function TwoDigits(m: nat): (r: string)
    requires m < 100
    ensures |r| == 2 && Text.AllDigits(r)
  {
    [Text.DigitChar(m / 10), Text.DigitChar(m % 10)]
  }

  /** `d.strftime("%Y%m")`: the year as the C library prints it (without padding below
      1000) and the month in two digits. */
  function Format(d: Date): string
    requires ValidDate(d)
  {
    Text.NatToDecimal(d.year) + TwoDigits(d.month)
  }

  /** From year 1000 on the text has six characters and reads back as the same month. */
  lemma FormatRoundTrip(d: Date)
    requires ValidDate(d) && d.day == 1 && d.year >= 1000
    ensures |Format(d)| == 6
    ensures ParseMonth(Format(d)) == Some(d)
  {
    var y := Text.NatToDecimal(d.year);
    var m := TwoDigits(d.month);
    Text.DecimalLength(d.year);
    Text.DecimalRoundTrip(d.year);
    var s := Format(d);
    assert s[..4] == y && s[4..] == m;
    assert Text.AllDigits(s) by {
      forall i | 0 <= i < |s| ensures Text.IsDigit(s[i]) {
        if i < 4 { assert s[i] == y[i]; } else { assert s[i] == m[i - 4]; }
      }
    }
    assert Text.DecimalToNat(m) == d.month by {
      assert m[..1] == [m[0]];
      assert Text.DecimalToNat(m) == 10 * Text.DecimalToNat(m[..1]) + Text.DigitValue(m[1]);
    }
  }

  // ---------------------------------------------------------------------------
  // The range

  /** The months from `s` to `e` inclusive, in order (none when `s` is after `e`). */
  function Between(s: Date, e: Date): (r: seq<Date>)
    requires Index(s) >= 0
    ensures |r| == if Index(e) < Index(s) then 0 else Index(e) - Index(s) + 1
  {
    var n := if Index(e) < Index(s) then 0 else Index(e) - Index(s) + 1;
    seq(n, i requires 0 <= i < n => FromIndex(Index(s) + i))
  }

  lemma BetweenValid(s: Date, e: Date)
    requires ValidDate(s) && s.day == 1 && ValidDate(e) && e.day == 1
    ensures forall i :: 0 <= i < |Between(s, e)| ==> ValidDate(Between(s, e)[i]) && Between(s, e)[i].day == 1
  {
    forall i | 0 <= i < |Between(s, e)|
      ensures ValidDate(Between(s, e)[i]) && Between(s, e)[i].day == 1
    {
      FromIndexValid(Index(s) + i);
    }
  }

  function FormatAll(ds: seq<Date>): (r: seq<string>)
    requires forall i :: 0 <= i < |ds| ==> ValidDate(ds[i])
    ensures |r| == |ds|
    ensures forall i :: 0 <= i < |ds| ==> r[i] == Format(ds[i])
  {
    seq(|ds|, i requires 0 <= i < |ds| => Format(ds[i]))
  }

  /** Why the generator stopped early: a text that is not a month, or the step past
      December 9999. */
  datatype RangeError = BadMonth | Overflow

  /** What iterating `generate_date_range(start, end)` gives: the months yielded, then the
      exception raised, if any. Both texts are parsed before the first month is yielded;
      the step after December 9999 overflows once that month has been yielded. */
  function DateRange(start: string, end: string): (seq<string>, Option<RangeError>) {
    var s, e := ParseMonth(start), ParseMonth(end);
    if s.None? || e.None? then ([], Some(BadMonth))
    else
      BetweenValid(s.value, e.value);
      (FormatAll(Between(s.value, e.value)),
       if Index(s.value) <= Index(e.value) && e.value.year == MAX_YEAR && e.value.month == 12 then Some(Overflow) else None)
  }

  /** The generator's loop. */
  method GenerateDateRange(start: string, end: string) returns (months: seq<string>, failure: Option<RangeError>)
    ensures (months, failure) == DateRange(start, end)
  {
    var s := ParseMonth(start);
    var e := ParseMonth(end);
    if s.None? || e.None? {
      return [], Some(BadMonth);
    }
    var current := s.value;
    var last := e.value;
    BetweenValid(s.value, last);
    var all := Between(s.value, last);
    months := [];
    ghost var i := 0;
    // `current_date <= end`: both are first days of months
    while Index(current) <= Index(last)
      invariant ValidDate(current) && current.day == 1
      invariant Index(s.value) <= Index(current)
      invariant i == Index(current) - Index(s.value)
      invariant i <= |all|
      invariant months == FormatAll(all[..i])
      decreases Index(last) - Index(current)
    {
      IndexRoundTrip(current);
      assert all[..i + 1] == all[..i] + [current];
      FormatAllSnoc(all[..i], current);
      months := months + [Format(current)];
      Advance(current);
      var next := AddDays(current, 32);
      if next.None? {
        assert all[..i + 1] == all;
        return months, Some(Overflow);
      }
      current := next.value.(day := 1);
      i := i + 1;
    }
    assert all[..i] == all;
    return months, None;
  }

  lemma FormatAllSnoc(ds: seq<Date>, d: Date)
    requires forall i :: 0 <= i < |ds| ==> ValidDate(ds[i])
    requires ValidDate(d)
    ensures FormatAll(ds + [d]) == FormatAll(ds) + [Format(d)]
  {
    assert forall i :: 0 <= i < |ds| ==> (ds + [d])[i] == ds[i];
  }

  // ---------------------------------------------------------------------------
  // Properties of the range

  /** The month after the `k`-th. */
  lemma FromIndexNext(k: nat)
    ensures var a, b := FromIndex(k), FromIndex(k + 1);
      && (a.month < 12 ==> b == Date(a.year, a.month + 1, 1))
      && (a.month == 12 ==> b == Date(a.year + 1, 1, 1))
  {
    var q, r := k / 12, k % 12;
    assert k == 12 * q + r && 0 <= r < 12;
    if r < 11 {
      assert k + 1 == 12 * q + (r + 1);
    } else {
      assert k + 1 == 12 * (q + 1);
    }
  }

  /** There are 12·(Ye−Ys) + (Me−Ms) + 1 months when the start is not after the end, and
      none otherwise. */
  lemma RangeLength(s: Date, e: Date)
    requires Index(s) >= 0
    ensures Index(s) <= Index(e) ==> |Between(s, e)| == 12 * (e.year - s.year) + (e.month - s.month) + 1
    ensures Index(e) < Index(s) ==> Between(s, e) == []
  {
  }

  /** The first month is the start and the last is the end. */
  lemma RangeEnds(s: Date, e: Date)
    requires ValidDate(s) && s.day == 1 && ValidDate(e) && e.day == 1
    requires Index(s) <= Index(e)
    ensures Between(s, e)[0] == s && Between(s, e)[|Between(s, e)| - 1] == e
  {
    var r := Between(s, e);
    assert r[0] == FromIndex(Index(s)) == s by { IndexRoundTrip(s); }
    assert r[|r| - 1] == FromIndex(Index(e)) == e by { IndexRoundTrip(e); }
  }

  /** Each month is followed by the next calendar month; December by January of the
      next year. */
  lemma RangeConsecutive(s: Date, e: Date, i: nat)
    requires ValidDate(s) && s.day == 1 && ValidDate(e) && e.day == 1
    requires i + 1 < |Between(s, e)|
    ensures var a, b := Between(s, e)[i], Between(s, e)[i + 1];
      && (a.month < 12 ==> b == Date(a.year, a.month + 1, 1))
      && (a.month == 12 ==> b == Date(a.year + 1, 1, 1))
  {
    FromIndexNext(Index(s) + i);
    assert Between(s, e)[i + 1] == FromIndex(Index(s) + i + 1);
  }

  /** Every month yielded is between the start and the end. */
  lemma RangeBounded(s: Date, e: Date)
    requires ValidDate(s) && s.day == 1 && ValidDate(e) && e.day == 1
    ensures forall i :: 0 <= i < |Between(s, e)| ==>
      Index(s) <= Index(Between(s, e)[i]) <= Index(e)
  {
    forall i | 0 <= i < |Between(s, e)|
      ensures Index(s) <= Index(Between(s, e)[i]) <= Index(e)
    {
      FromIndexValid(Index(s) + i);
    }
  }

  /** From year 1000 on, every value yielded is six characters long. */
  lemma RangeTextsHaveSixCharacters(start: string, end: string)
    requires ParseMonth(start).Some? && ParseMonth(end).Some? && ParseMonth(start).value.year >= 1000
    ensures forall i :: 0 <= i < |DateRange(start, end).0| ==> |DateRange(start, end).0[i]| == 6
  {
    var s, e := ParseMonth(start).value, ParseMonth(end).value;
    BetweenValid(s, e);
    RangeBounded(s, e);
    forall i | 0 <= i < |DateRange(start, end).0|
      ensures |DateRange(start, end).0[i]| == 6
    {
      var d := Between(s, e)[i];
      assert d.year >= 1000;
      FormatRoundTrip(d);
    }
  }
}
