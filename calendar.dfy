/** Calendar dates: the Gregorian arithmetic behind `addDays`, `addWeeks` and
    `addMonths`, the order behind `isBefore`/`isAfter`, and the `yyyy-MM-dd`
    text form that `parseISO` reads and `formatISO(d, {representation: 'date'})`
    writes. Time of day and time zones are not part of a `Date` here. */
module Calendar {
  import opened Types
  import opened Strings

  datatype Date = Date(year: int, month: int, day: int)

  predicate IsLeapYear(y: int) {
    (y % 4 == 0 && y % 100 != 0) || y % 400 == 0
  }

  function DaysInMonth(y: int, m: int): (n: int)
    requires 1 <= m <= 12
    ensures 28 <= n <= 31
    ensures m == 2 ==> (n == 29 <==> IsLeapYear(y))
  {
    if m == 2 then (if IsLeapYear(y) then 29 else 28)
    else if m == 4 || m == 6 || m == 9 || m == 11 then 30
    else 31
  }

  predicate ValidDate(d: Date) {
    0 <= d.year && 1 <= d.month <= 12 && 1 <= d.day <= DaysInMonth(d.year, d.month)
  }

  /** A number that grows with the calendar order of valid dates (it is not a
      count of days: every month is given 31 slots). */
  function Ord(d: Date): int {
    d.year * 372 + (d.month - 1) * 31 + (d.day - 1)
  }

  /** `isBefore(a, b)`, which is also `isAfter(b, a)`. */
  predicate Before(a: Date, b: Date) {
    Ord(a) < Ord(b)
  }

  /** On valid dates `Before` is the order of (year, month, day). */
  lemma BeforeIsCalendarOrder(a: Date, b: Date)
    requires ValidDate(a) && ValidDate(b)
    ensures Before(a, b) <==>
      (a.year < b.year || (a.year == b.year && (a.month < b.month || (a.month == b.month && a.day < b.day))))
  {
    var ma := (a.month - 1) * 31 + (a.day - 1);
    var mb := (b.month - 1) * 31 + (b.day - 1);
    assert 0 <= ma < 372 && 0 <= mb < 372;
    if a.year < b.year {
      assert a.year * 372 + 372 <= b.year * 372;
    } else if a.year > b.year {
      assert b.year * 372 + 372 <= a.year * 372;
    }
  }

  /** `Before` is total on valid dates: two valid dates are equal or ordered. */
  lemma BeforeTotal(a: Date, b: Date)
    requires ValidDate(a) && ValidDate(b) && a != b
    ensures Before(a, b) || Before(b, a)
  {
    BeforeIsCalendarOrder(a, b);
    BeforeIsCalendarOrder(b, a);
  }

  function Min(a: int, b: int): int {
    if a <= b then a else b
  }

  /** `addDays(d, 1)`. */
  function NextDay(d: Date): (r: Date)
    requires ValidDate(d)
    ensures ValidDate(r) && Before(d, r)
  {
    if d.day < DaysInMonth(d.year, d.month) then Date(d.year, d.month, d.day + 1)
    else if d.month < 12 then Date(d.year, d.month + 1, 1)
    else Date(d.year + 1, 1, 1)
  }

  /** The next day is the immediate successor: no valid date lies strictly between. */
  lemma NextDayIsSuccessor(d: Date, x: Date)
    requires ValidDate(d) && ValidDate(x) && Before(d, x)
    ensures !Before(x, NextDay(d))
  {
    var n := NextDay(d);
    BeforeIsCalendarOrder(d, x);
    BeforeIsCalendarOrder(x, n);
  }

  /** `addDays(d, n)`. */
  function AddDays(d: Date, n: nat): (r: Date)
    requires ValidDate(d)
    ensures ValidDate(r)
    ensures n == 0 ==> r == d
    ensures n > 0 ==> Before(d, r)
    decreases n
  {
    if n == 0 then d else AddDays(NextDay(d), n - 1)
  }

  /** The (year, month) `n` months after month `m` of year `y`. */
  function MonthAfter(y: int, m: int, n: nat): (r: (int, int))
    requires 1 <= m <= 12
    ensures 1 <= r.1 <= 12 && r.0 * 12 + r.1 == y * 12 + m + n
    decreases n
  {
    if n == 0 then (y, m)
    else if m == 12 then MonthAfter(y + 1, 1, n - 1)
    else MonthAfter(y, m + 1, n - 1)
  }

  /** `addMonths(d, n)`: the same day n months on, clamped to the last day of
      the target month when that month is shorter. */
  function AddMonths(d: Date, n: nat): (r: Date)
    requires ValidDate(d)
    ensures ValidDate(r)
    ensures r.year * 12 + r.month == d.year * 12 + d.month + n
    ensures r.day == Min(d.day, DaysInMonth(r.year, r.month))
    ensures n > 0 ==> Before(d, r)
  {
    var (y, m) := MonthAfter(d.year, d.month, n);
    var r := Date(y, m, Min(d.day, DaysInMonth(y, m)));
    assert Ord(r) - Ord(d) == 31 * ((r.year * 12 + r.month) - (d.year * 12 + d.month)) + r.day - d.day;
    r
  }

  /** The step of a recurrence: one day, one week or one month. */
  function Step(d: Date, p: Pattern): (r: Date)
    requires ValidDate(d)
    ensures ValidDate(r) && Before(d, r)
  {
    match p
    case Daily => AddDays(d, 1)
    case Weekly => AddDays(d, 7)
    case Monthly => AddMonths(d, 1)
  }

  // ---- the yyyy-MM-dd form ----

  /** `formatISO(d, {representation: 'date'})`. */
  function Format(d: Date): (s: string)
    requires ValidDate(d)
  {
    Padded(d.year, 4) + "-" + Padded(d.month, 2) + "-" + Padded(d.day, 2)
  }

  /** `parseISO` on the calendar-date form `yyyy-MM-dd`, optionally followed by a
      time part (`T...`) whose text is not examined; anything else is an
      Invalid Date. */
  function ParseDate(s: string): (r: Option<Date>)
    ensures r.Some? ==> ValidDate(r.value) && r.value.year < 10000
  {
    if |s| >= 10 && IsDigits(s[..4]) && s[4] == '-' && IsDigits(s[5..7]) && s[7] == '-'
       && IsDigits(s[8..10]) && (|s| == 10 || s[10] == 'T')
    then
      var d := Date(DigitsValue(s[..4]), DigitsValue(s[5..7]), DigitsValue(s[8..10]));
      if ValidDate(d) then
        assert d.year < 10000 by { DigitsBound(s[..4]); }
        Some(d)
      else None
    else None
  }

  lemma DigitsBound(s: string)
    requires IsDigits(s) && |s| == 4
    ensures DigitsValue(s) < 10000
  {
    DigitsValueBound(s);
  }

  /** Reading back a formatted date gives the date. */
  lemma ParseFormat(d: Date)
    requires ValidDate(d) && d.year < 10000
    ensures |Format(d)| == 10
    ensures ParseDate(Format(d)) == Some(d)
  {
    PaddedRoundTrip(d.year, 4);
    PaddedRoundTrip(d.month, 2);
    PaddedRoundTrip(d.day, 2);
    var s := Format(d);
    assert s[..4] == Padded(d.year, 4);
    assert s[5..7] == Padded(d.month, 2);
    assert s[8..10] == Padded(d.day, 2);
  }

  /** For dates with four-digit years, comparing the `yyyy-MM-dd` texts as
      strings is comparing the dates: string order is chronological order. */
  lemma FormatOrder(a: Date, b: Date)
    requires ValidDate(a) && a.year < 10000 && ValidDate(b) && b.year < 10000
    ensures LexLess(Format(a), Format(b)) <==> Before(a, b)
  {
    FieldOrder(a.year, b.year, 4);
    FieldOrder(a.month, b.month, 2);
    FieldOrder(a.day, b.day, 2);
    ThreeFields(Padded(a.year, 4), Padded(a.month, 2), Padded(a.day, 2),
                Padded(b.year, 4), Padded(b.month, 2), Padded(b.day, 2));
    BeforeIsCalendarOrder(a, b);
  }

  /** One zero-padded field compares as its number does. */
  lemma FieldOrder(x: nat, y: nat, w: nat)
    requires 1 <= w && x < Pow10(w) && y < Pow10(w)
    ensures |Padded(x, w)| == w == |Padded(y, w)|
    ensures LexLess(Padded(x, w), Padded(y, w)) <==> x < y
    ensures Padded(x, w) == Padded(y, w) <==> x == y
  {
    PaddedRoundTrip(x, w);
    PaddedRoundTrip(y, w);
    LexLessDigits(Padded(x, w), Padded(y, w));
  }

  /** Three dash-separated fields of fixed widths compare field by field. */
  lemma ThreeFields(x1: string, x2: string, x3: string, y1: string, y2: string, y3: string)
    requires |x1| == |y1| && |x2| == |y2|
    ensures LexLess(x1 + "-" + x2 + "-" + x3, y1 + "-" + y2 + "-" + y3) <==>
      LexLess(x1, y1) || (x1 == y1 && (LexLess(x2, y2) || (x2 == y2 && LexLess(x3, y3))))
  {
    var u3, v3 := "-" + x3, "-" + y3;
    var u2, v2 := x2 + u3, y2 + v3;
    var u1, v1 := "-" + u2, "-" + v2;
    assert x1 + "-" + x2 + "-" + x3 == x1 + u1;
    assert y1 + "-" + y2 + "-" + y3 == y1 + v1;
    LexLessAppend(x1, u1, y1, v1);
    LexLessAppend("-", u2, "-", v2);
    LexLessAppend(x2, u3, y2, v3);
    LexLessAppend("-", x3, "-", y3);
    LexLessIrreflexive(x1);
    LexLessIrreflexive(x2);
  }

  /** On canonical date texts, string order is the order of the dates they denote. */
  lemma CanonicalOrder(s: string, t: string)
    requires IsCanonical(s) && IsCanonical(t)
    ensures LexLess(s, t) <==> Before(ParseDate(s).value, ParseDate(t).value)
  {
    FormatOrder(ParseDate(s).value, ParseDate(t).value);
  }

  /** The text of a date in canonical `yyyy-MM-dd` form. */
  predicate IsCanonical(s: string) {
    ParseDate(s).Some? && |s| == 10 && Format(ParseDate(s).value) == s
  }

  /** `toDateOnly`: canonicalise a date string; `None` where `formatISO` would
      throw on an Invalid Date. */
  function ToDateOnly(s: string): (r: Option<string>)
    ensures r.Some? <==> ParseDate(s).Some?
    ensures r.Some? ==> IsCanonical(r.value) && ParseDate(r.value) == ParseDate(s)
  {
    match ParseDate(s)
    case None => None
    case Some(d) =>
      ParseFormat(d);
      Some(Format(d))
  }

  /** Canonicalising a canonical date changes nothing. */
  lemma ToDateOnlyIdempotent(s: string)
    requires ToDateOnly(s).Some?
    ensures ToDateOnly(ToDateOnly(s).value) == ToDateOnly(s)
  {
  }

  // ---- months ----

  /** The `YYYY-MM` of a date, as `toISOString().slice(0, 7)` gives it. */
  function YearMonth(d: Date): string
    requires ValidDate(d)
  {
    MonthOf(Format(d))
  }

  /** Two dates with four-digit years share their `YYYY-MM` exactly when they
      fall in the same month of the same year. */
  lemma YearMonthDecides(a: Date, b: Date)
    requires ValidDate(a) && a.year < 10000 && ValidDate(b) && b.year < 10000
    ensures YearMonth(a) == YearMonth(b) <==> a.year == b.year && a.month == b.month
  {
    ParseFormat(a);
    ParseFormat(b);
    var fa, fb := Format(a), Format(b);
    assert YearMonth(a) == fa[..7] && YearMonth(b) == fb[..7];
    if fa[..7] == fb[..7] {
      assert fa[..4] == fa[..7][..4] == fb[..7][..4] == fb[..4];
      assert fa[5..7] == fa[..7][5..7] == fb[..7][5..7] == fb[5..7];
    }
    if a.year == b.year && a.month == b.month {
      assert fa[..7] == (Padded(a.year, 4) + "-" + Padded(a.month, 2))[..7];
      assert fb[..7] == (Padded(b.year, 4) + "-" + Padded(b.month, 2))[..7];
    }
  }

  /** The first day of the month before the month of `d`:
      `new Date(d.getFullYear(), d.getMonth() - 1, 1)`. */
  function PrevMonthStart(d: Date): (r: Date)
    requires ValidDate(d) && (d.year >= 1 || d.month > 1)
    ensures ValidDate(r) && r.day == 1
    ensures r.year * 12 + r.month + 1 == d.year * 12 + d.month
  {
    if d.month == 1 then Date(d.year - 1, 12, 1) else Date(d.year, d.month - 1, 1)
  }

  /** The day before `d`. */
  function PrevDay(d: Date): (r: Date)
    requires ValidDate(d) && (d.year >= 1 || d.month > 1 || d.day > 1)
    ensures ValidDate(r) && NextDay(r) == d
  {
    if d.day > 1 then Date(d.year, d.month, d.day - 1)
    else if d.month > 1 then Date(d.year, d.month - 1, DaysInMonth(d.year, d.month - 1))
    else Date(d.year - 1, 12, 31)
  }
}
