/** The proleptic Gregorian calendar as Python's `datetime.date` and
    `calendar.monthrange` see it, plus month arithmetic. */
module Calendar {

  /** `datetime.MINYEAR` and `datetime.MAXYEAR`. */
  const MinYear: int := 1
  const MaxYear: int := 9999

  /** `calendar.isleap`. Python's `%` floors and Dafny's is Euclidean; with a
      positive divisor the two agree. */
  predicate IsLeapYear(year: int)
  {
    year % 4 == 0 && (year % 100 != 0 || year % 400 == 0)
  }

  /** The second component of `calendar.monthrange(year, month)`. */
  function DaysInMonth(year: int, month: int): (n: int)
    requires 1 <= month <= 12
    ensures 28 <= n <= 31
    ensures n == 29 <==> month == 2 && IsLeapYear(year)
    ensures n == 28 <==> month == 2 && !IsLeapYear(year)
    ensures n == 30 <==> month == 4 || month == 6 || month == 9 || month == 11
  {
    if month == 2 then (if IsLeapYear(year) then 29 else 28)
    else if month == 4 || month == 6 || month == 9 || month == 11 then 30
    else 31
  }

  datatype Date = Date(year: int, month: int, day: int)

  /** What the `date(year, month, day)` constructor accepts without raising. */
  predicate ValidDate(d: Date)
  {
    && MinYear <= d.year <= MaxYear
    && 1 <= d.month <= 12
    && 1 <= d.day <= DaysInMonth(d.year, d.month)
  }

  /** A Python `date` object: it cannot hold an invalid date. */
  type CalendarDate = d: Date | ValidDate(d) witness Date(1, 1, 1)

  /** `a <= b` on dates: lexicographic on (year, month, day). */
  predicate DateLe(a: Date, b: Date)
  {
    || a.year < b.year
    || (a.year == b.year && a.month < b.month)
    || (a.year == b.year && a.month == b.month && a.day <= b.day)
  }

  /** A calendar month; the day-1 `date` that TruncMonth yields and that the
      trailing series uses as its key and label. */
  datatype YearMonth = YearMonth(year: int, month: int)

  /** `TruncMonth("date")`. */
  function TruncMonth(d: Date): YearMonth
  {
    YearMonth(d.year, d.month)
  }

  /** The number of months since January of year 0: `year * 12 + month - 1`. */
  function MonthIndex(ym: YearMonth): int
  {
    ym.year * 12 + ym.month - 1
  }

  /** The month with a given index: `(k // 12, k % 12 + 1)`. With the positive
      divisor 12, Python's floor division and Dafny's Euclidean division agree. */
  function FromIndex(k: int): (ym: YearMonth)
    ensures 1 <= ym.month <= 12
    ensures MonthIndex(ym) == k
  {
    YearMonth(k / 12, k % 12 + 1)
  }

  /** The index determines the month: FromIndex undoes MonthIndex. */
  lemma IndexRoundTrip(ym: YearMonth)
    requires 1 <= ym.month <= 12
    ensures FromIndex(MonthIndex(ym)) == ym
  {
    var r := FromIndex(MonthIndex(ym));
    assert (r.year - ym.year) * 12 == ym.month - r.month;
  }

  /** The month after `ym` in the calendar. */
  function NextMonth(ym: YearMonth): YearMonth
  {
    if ym.month == 12 then YearMonth(ym.year + 1, 1) else YearMonth(ym.year, ym.month + 1)
  }

  /** The twelve calendar months that end with `ym`, oldest first. */
  function TrailingMonths(ym: YearMonth): (w: seq<YearMonth>)
    ensures |w| == 12
  {
    seq(12, i requires 0 <= i < 12 => FromIndex(MonthIndex(ym) - 11 + i))
  }

  /** The trailing window is twelve real months, each the month after the
      previous one, ending with the given month. */
  lemma TrailingMonthsShape(ym: YearMonth)
    requires 1 <= ym.month <= 12
    ensures TrailingMonths(ym)[11] == ym
    ensures forall i :: 0 <= i < 12 ==> 1 <= TrailingMonths(ym)[i].month <= 12
    ensures forall i :: 0 <= i < 12 ==> MonthIndex(TrailingMonths(ym)[i]) == MonthIndex(ym) - 11 + i
    ensures forall i :: 0 <= i < 11 ==> NextMonth(TrailingMonths(ym)[i]) == TrailingMonths(ym)[i + 1]
  {
    var w := TrailingMonths(ym);
    IndexRoundTrip(ym);
    forall i | 0 <= i < 12
      ensures w[i] == FromIndex(MonthIndex(ym) - 11 + i)
      ensures 1 <= w[i].month <= 12 && MonthIndex(w[i]) == MonthIndex(ym) - 11 + i
    {
    }
    forall i | 0 <= i < 11
      ensures NextMonth(w[i]) == w[i + 1]
    {
      var n := NextMonth(w[i]);
      assert 1 <= n.month <= 12 && MonthIndex(n) == MonthIndex(w[i]) + 1;
      IndexRoundTrip(n);
    }
  }
}
