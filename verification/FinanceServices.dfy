/** The reporting services of the `finance` revision (finance/services.py):
    month bounds, the month's KPIs, the trailing twelve-month series, the
    category breakdown, the daily series, the previous month and the percent
    delta. The clock read `timezone.localdate()` is the parameter `today`. */
module FinanceServices {
  import opened Results
  import opened Calendar
  import opened Ledger
  import opened Grouping
  import opened Ranking
  import opened Breakdown

  // ---------------------------------------------------------------------
  // Month bounds and sums

  /** `_month_bounds(year, month)`: the first and the last day of the month.
      `calendar.monthrange` raises for a month outside 1..12 and `date` for a
      year outside 1..9999. */
  function MonthBounds(year: int, month: int): (r: Result<(CalendarDate, CalendarDate)>)
    ensures r.Ok? <==> 1 <= month <= 12 && MinYear <= year <= MaxYear
    ensures r.Ok? ==> r.value.0.day == 1 && TruncMonth(r.value.0) == YearMonth(year, month)
    ensures r.Ok? ==> r.value.1.day == DaysInMonth(year, month) && TruncMonth(r.value.1) == YearMonth(year, month)
  {
    if 1 <= month <= 12 && MinYear <= year <= MaxYear then
      Ok((Date(year, month, 1), Date(year, month, DaysInMonth(year, month))))
    else
      Err(InvalidDate)
  }

  /** The bounds enclose exactly the dates of their month. */
  lemma MonthBoundsCover(year: int, month: int, d: CalendarDate)
    requires MonthBounds(year, month).Ok?
    ensures DateLe(MonthBounds(year, month).value.0, d) && DateLe(d, MonthBounds(year, month).value.1)
      <==> d.year == year && d.month == month
  {
  }

  /** `filter(user=user, date__range=_month_bounds(year, month))` selects the
      same rows as `filter(user=user, date__year=year, date__month=month)`. */
  lemma RangeIsMonth(rows: seq<Txn>, user: UserId, year: int, month: int)
    requires MonthBounds(year, month).Ok?
    ensures RangeRows(rows, user, MonthBounds(year, month).value.0, MonthBounds(year, month).value.1)
      == MonthRows(rows, user, year, month)
  {
    var (first, last) := MonthBounds(year, month).value;
    forall t | t in rows
      ensures RangeFilter(user, first, last)(t) == MonthFilter(user, year, month)(t)
    {
      MonthBoundsCover(year, month, t.date);
    }
    WhereCongruent(rows, RangeFilter(user, first, last), MonthFilter(user, year, month));
  }

  /** `_safe_sum`: the SQL SUM, with NULL (no rows) read as 0. */
  function SafeSum(rows: seq<Txn>): (r: int)
    ensures r == Sum(rows)
    ensures rows == [] ==> r == 0
  {
    OrZero(AggregateSum(rows))
  }

  // ---------------------------------------------------------------------
  // Month KPIs

  /** The six figures of `get_month_kpis`: the four kinds' month totals,
      `gastos_totales_mes` and `balance_mes`. */
  datatype Kpis = Kpis(income: int, fixed: int, variable: int, saving: int, expenses: int, balance: int)
  {
    function Total(kind: Kind): int
    {
      match kind
      case Income => income
      case Fixed => fixed
      case Variable => variable
      case Saving => saving
    }
  }

  /** How a kind enters the balance: income adds, the other three subtract. */
  function BalanceSign(kind: Kind): int
  {
    if kind == Income then 1 else -1
  }

  function MonthKpis(store: Store, user: UserId, year: int, month: int): Kpis
  {
    var income := SafeSum(MonthRows(store.income, user, year, month));
    var fixed := SafeSum(MonthRows(store.fixed, user, year, month));
    var variable := SafeSum(MonthRows(store.variable, user, year, month));
    var saving := SafeSum(MonthRows(store.saving, user, year, month));
    var expenses := fixed + variable;
    Kpis(income, fixed, variable, saving, expenses, income - expenses - saving)
  }

  /** A month without rows of the user has six zero figures. */
  lemma MonthKpisNoRows(store: Store, user: UserId, year: int, month: int)
    requires forall kind, t :: t in store.Rows(kind) ==> !InMonth(t, user, year, month)
    ensures MonthKpis(store, user, year, month) == Kpis(0, 0, 0, 0, 0, 0)
  {
    forall kind ensures MonthRows(store.Rows(kind), user, year, month) == [] {
      WhereNone(store.Rows(kind), MonthFilter(user, year, month));
    }
    assert store.income == store.Rows(Income) && store.fixed == store.Rows(Fixed);
    assert store.variable == store.Rows(Variable) && store.saving == store.Rows(Saving);
  }

  /** Saving one row changes only its kind's total, by its amount, and the
      expenses and the balance accordingly, and only when the row is the
      user's and dated in the month; any other row changes nothing. */
  lemma MonthKpisAddRow(store: Store, kind: Kind, t: Txn, user: UserId, year: int, month: int)
    ensures var before, after := MonthKpis(store, user, year, month), MonthKpis(store.With(kind, t), user, year, month);
      var a := if InMonth(t, user, year, month) then t.amount else 0;
      && after.Total(kind) == before.Total(kind) + a
      && (forall other :: other != kind ==> after.Total(other) == before.Total(other))
      && after.expenses == before.expenses + (if kind == Fixed || kind == Variable then a else 0)
      && after.balance == before.balance + BalanceSign(kind) * a
  {
    var p := MonthFilter(user, year, month);
    var after := store.With(kind, t);
    var rows := store.Rows(kind);
    WhereSnoc(rows, t, p);
    assert p(t) == InMonth(t, user, year, month);
    if InMonth(t, user, year, month) {
      assert Where(rows + [t], p) == Where(rows, p) + [t];
      SumSnoc(Where(rows, p), t);
    } else {
      assert Where(rows + [t], p) == Where(rows, p);
    }
    KpisTotal(store, user, year, month, kind);
    KpisTotal(after, user, year, month, kind);
    assert after.Rows(kind) == rows + [t];
    assert MonthRows(after.Rows(kind), user, year, month) == Where(rows + [t], p);
    forall other | other != kind
      ensures MonthKpis(after, user, year, month).Total(other) == MonthKpis(store, user, year, month).Total(other)
    {
      KpisTotal(store, user, year, month, other);
      KpisTotal(after, user, year, month, other);
    }
    var b, c := MonthKpis(store, user, year, month), MonthKpis(after, user, year, month);
    var a := if InMonth(t, user, year, month) then t.amount else 0;
    assert c.Total(kind) == b.Total(kind) + a;
    assert c.expenses == b.expenses + (if kind == Fixed || kind == Variable then a else 0);
    assert c.balance == b.balance + BalanceSign(kind) * a;
  }

  /** Each kind's figure is the sum of that kind's rows in the month. */
  lemma KpisTotal(store: Store, user: UserId, year: int, month: int, kind: Kind)
    ensures MonthKpis(store, user, year, month).Total(kind) == Sum(MonthRows(store.Rows(kind), user, year, month))
  {
  }

  // ---------------------------------------------------------------------
  // The trailing twelve-month series

  /** What `get_last_12_months_series` reports: the twelve months ending with
      today's, oldest first, each with the sum of the user's rows of that
      month. Building the day-1 `date` of a month before year 1 raises. */
  function TrailingSeries(rows: seq<Txn>, user: UserId, today: CalendarDate): Result<seq<Entry<YearMonth>>>
  {
    var w := TrailingMonths(TruncMonth(today));
    if w[0].year < MinYear then Err(InvalidDate)
    else Ok(seq(12, i requires 0 <= i < 12 => Entry(w[i], Sum(MonthRows(rows, user, w[i].year, w[i].month)))))
  }

  /** The series fails only in the first eleven months of year 1; otherwise
      it has twelve consecutive months ending with today's. */
  lemma TrailingSeriesShape(rows: seq<Txn>, user: UserId, today: CalendarDate)
    ensures TrailingSeries(rows, user, today).Err? <==> today.year == MinYear && today.month < 12
    ensures TrailingSeries(rows, user, today).Ok? ==>
      var s := TrailingSeries(rows, user, today).value;
      && |s| == 12
      && s[11].name == TruncMonth(today)
      && (forall i :: 0 <= i < 12 ==> 1 <= s[i].name.month <= 12)
      && (forall i :: 0 <= i < 11 ==> NextMonth(s[i].name) == s[i + 1].name)
  {
    TrailingMonthsShape(TruncMonth(today));
  }

  /** A month of the series without rows of the user totals 0. */
  lemma TrailingSeriesEmptyMonth(rows: seq<Txn>, user: UserId, today: CalendarDate, i: nat)
    requires TrailingSeries(rows, user, today).Ok? && i < 12
    requires var m := TrailingMonths(TruncMonth(today))[i];
      forall t :: t in rows ==> !InMonth(t, user, m.year, m.month)
    ensures TrailingSeries(rows, user, today).value[i].total == 0
  {
    var m := TrailingMonths(TruncMonth(today))[i];
    WhereNone(rows, MonthFilter(user, m.year, m.month));
  }

  /** The first day of the oldest month of the window. */
  function WindowStart(today: CalendarDate): Date
  {
    var w0 := TrailingMonths(TruncMonth(today))[0];
    Date(w0.year, w0.month, 1)
  }

  /** The last day of today's month. */
  function WindowEnd(today: CalendarDate): Date
  {
    Date(today.year, today.month, DaysInMonth(today.year, today.month))
  }

  /** A date lies in the window exactly when its month is one of the twelve. */
  lemma InWindow(today: CalendarDate, d: CalendarDate)
    ensures DateLe(WindowStart(today), d) && DateLe(d, WindowEnd(today))
      <==> MonthIndex(TruncMonth(today)) - 11 <= MonthIndex(TruncMonth(d)) <= MonthIndex(TruncMonth(today))
  {
    TrailingMonthsShape(TruncMonth(today));
    var w0 := TrailingMonths(TruncMonth(today))[0];
    assert MonthIndex(w0) == MonthIndex(TruncMonth(today)) - 11;
  }

  /** Looking up a month of the window in the groups of the window's rows
      gives that month's sum. */
  lemma WindowLookup(rows: seq<Txn>, user: UserId, today: CalendarDate, i: nat)
    requires i < 12
    ensures var m := TrailingMonths(TruncMonth(today))[i];
      TotalOf(GroupTotals(RangeRows(rows, user, WindowStart(today), WindowEnd(today)), TxnMonth), m)
        == Sum(MonthRows(rows, user, m.year, m.month))
  {
    var m := TrailingMonths(TruncMonth(today))[i];
    TrailingMonthsShape(TruncMonth(today));
    var f := RangeFilter(user, WindowStart(today), WindowEnd(today));
    forall t | t in rows
      ensures (f(t) && TxnMonth(t) == m) == MonthFilter(user, m.year, m.month)(t)
    {
      InWindow(today, t.date);
      if InMonth(t, user, m.year, m.month) {
        IndexRoundTrip(m);
      }
    }
    GroupLookup(rows, f, TxnMonth, m, MonthFilter(user, m.year, m.month));
  }

  /** Rows dated outside the window do not affect the series. */
  lemma TrailingSeriesWindow(rows: seq<Txn>, user: UserId, today: CalendarDate)
    ensures TrailingSeries(rows, user, today)
      == TrailingSeries(RangeRows(rows, user, WindowStart(today), WindowEnd(today)), user, today)
  {
    var w := TrailingMonths(TruncMonth(today));
    TrailingMonthsShape(TruncMonth(today));
    var f := RangeFilter(user, WindowStart(today), WindowEnd(today));
    if w[0].year >= MinYear {
      var a := TrailingSeries(rows, user, today).value;
      var b := TrailingSeries(Where(rows, f), user, today).value;
      forall i | 0 <= i < 12 ensures a[i] == b[i] {
        var g := MonthFilter(user, w[i].year, w[i].month);
        WhereWhere(rows, f, g);
        forall t | t in rows ensures Both(f, g)(t) == g(t) {
          InWindow(today, t.date);
        }
        WhereCongruent(rows, Both(f, g), g);
        assert MonthRows(Where(rows, f), user, w[i].year, w[i].month) == MonthRows(rows, user, w[i].year, w[i].month);
      }
      assert a == b;
    }
  }

  /** `get_last_12_months_series` as written. The twelve window months are
      built first; then the map from month to total calls `.date()` on each
      group's month, but truncating a `date` column to the month yields a
      `date`, which has no such method. So the call raises AttributeError as
      soon as the window query returns a group, that is, whenever the user
      has a row in the window. */
  function TrailingSeriesAsWritten(rows: seq<Txn>, user: UserId, today: CalendarDate): Result<seq<Entry<YearMonth>>>
  {
    var w := TrailingMonths(TruncMonth(today));
    if w[0].year < MinYear then Err(InvalidDate)
    else if RangeRows(rows, user, WindowStart(today), WindowEnd(today)) != [] then Err(MissingAttribute)
    else Ok(seq(12, i requires 0 <= i < 12 => Entry(w[i], 0)))
  }

  /** The code as written succeeds exactly when the intended series does and
      the user has no row in the window; it then agrees with the intended
      series, every month of which totals 0. Any row of the user in the
      window turns the intended series into an AttributeError. */
  lemma {:induction false} TrailingSeriesAsWrittenSpec(rows: seq<Txn>, user: UserId, today: CalendarDate)
    ensures TrailingSeriesAsWritten(rows, user, today).Ok?
      <==> (TrailingSeries(rows, user, today).Ok?
            && forall t :: t in rows ==> !InRange(t, user, WindowStart(today), WindowEnd(today)))
    ensures TrailingSeriesAsWritten(rows, user, today).Ok? ==>
      TrailingSeriesAsWritten(rows, user, today) == TrailingSeries(rows, user, today)
    ensures TrailingSeriesAsWritten(rows, user, today).Err? && TrailingSeries(rows, user, today).Ok? ==>
      TrailingSeriesAsWritten(rows, user, today).failure == MissingAttribute
  {
    var w := TrailingMonths(TruncMonth(today));
    var f := RangeFilter(user, WindowStart(today), WindowEnd(today));
    var inWindow := Where(rows, f);
    if w[0].year >= MinYear && inWindow == [] {
      TrailingSeriesWindow(rows, user, today);
      var a := TrailingSeries(rows, user, today).value;
      forall i | 0 <= i < 12 ensures a[i] == Entry(w[i], 0) {
        assert MonthRows(inWindow, user, w[i].year, w[i].month) == [];
      }
      assert a == seq(12, i requires 0 <= i < 12 => Entry(w[i], 0));
    } else if w[0].year >= MinYear {
      var t := inWindow[0];
      assert t in inWindow;
      assert t in rows && InRange(t, user, WindowStart(today), WindowEnd(today));
    }
  }

  /** A witness for the AttributeError: one row dated today. The intended
      series puts its amount in the last month; the code as written raises. */
  lemma TrailingSeriesAsWrittenFails()
    ensures var today := Date(2024, 3, 15);
      var rows := [Txn(1, today, 1000, Some("Rent"), "")];
      && TrailingSeriesAsWritten(rows, 1, today) == Err(MissingAttribute)
      && TrailingSeries(rows, 1, today).Ok?
      && TrailingSeries(rows, 1, today).value[11] == Entry(YearMonth(2024, 3), 1000)
  {
    var today: CalendarDate := Date(2024, 3, 15);
    var t := Txn(1, today, 1000, Some("Rent"), "");
    TrailingMonthsShape(TruncMonth(today));
    TrailingSeriesShape([t], 1, today);
    InWindow(today, today);
    assert RangeRows([t], 1, WindowStart(today), WindowEnd(today)) == [t];
    assert MonthRows([t], 1, 2024, 3) == [t];
  }

  /** The body of the first loop of `get_last_12_months_series`: `i` months
      back from (year, month), the inner loop adding 12 to the month and
      taking 1 from the year until the month is positive. */
  method StepBack(year: int, month: int, i: int) returns (targetYear: int, targetMonth: int)
    requires 1 <= month <= 12 && 0 <= i
    ensures YearMonth(targetYear, targetMonth) == FromIndex(MonthIndex(YearMonth(year, month)) - i)
  {
    targetMonth := month - i;
    targetYear := year;
    while targetMonth <= 0
      invariant targetYear * 12 + targetMonth == year * 12 + month - i
      invariant targetMonth <= 12
      decreases -targetMonth
    {
      targetMonth := targetMonth + 12;
      targetYear := targetYear - 1;
    }
    IndexRoundTrip(YearMonth(targetYear, targetMonth));
  }

  /** The first loop of `get_last_12_months_series`: for i from 11 down to
      0, step back i months from today's, the inner loop bringing the month
      into 1..12; building the month's day-1 `date` raises before year 1. */
  method TrailingMonthStarts(today: CalendarDate) returns (r: Result<seq<YearMonth>>)
    ensures var w := TrailingMonths(TruncMonth(today));
      r == if w[0].year < MinYear then Err(InvalidDate) else Ok(w)
  {
    ghost var w := TrailingMonths(TruncMonth(today));
    var year, month := today.year, today.month;
    var months: seq<YearMonth> := [];
    var i := 11;
    while i >= 0
      invariant -1 <= i <= 11
      invariant |months| == 11 - i
      invariant forall j :: 0 <= j < |months| ==> months[j] == w[j]
      invariant i < 11 ==> w[0].year >= MinYear
    {
      var targetYear, targetMonth := StepBack(year, month, i);
      assert w[11 - i] == FromIndex(MonthIndex(TruncMonth(today)) - i);
      if targetYear < MinYear {
        assert w[0] == FromIndex(MonthIndex(TruncMonth(today)) - 11);
        return Err(InvalidDate);
      }
      months := months + [YearMonth(targetYear, targetMonth)];
      i := i - 1;
    }
    assert months == w;
    r := Ok(months);
  }

  /** `get_last_12_months_series`: the months, the grouped query over
      [first day of the oldest month, last day of today's month], and the
      second loop, which looks each month up with `total_map.get(month, 0)`. */
  method Last12MonthsSeries(rows: seq<Txn>, user: UserId, today: CalendarDate)
    returns (r: Result<seq<Entry<YearMonth>>>)
    ensures r == TrailingSeries(rows, user, today)
  {
    ghost var w := TrailingMonths(TruncMonth(today));
    TrailingMonthsShape(TruncMonth(today));
    var starts := TrailingMonthStarts(today);
    if starts.Err? {
      return Err(starts.failure);
    }
    var months := starts.value;
    var startDate := Date(months[0].year, months[0].month, 1);
    var endDate := MonthBounds(months[11].year, months[11].month).value.1;
    assert startDate == WindowStart(today) && endDate == WindowEnd(today);
    var totals := GroupTotals(RangeRows(rows, user, startDate, endDate), TxnMonth);
    var series: seq<Entry<YearMonth>> := [];
    for k := 0 to 12
      invariant |series| == k
      invariant forall j :: 0 <= j < k ==>
        series[j] == Entry(w[j], Sum(MonthRows(rows, user, w[j].year, w[j].month)))
    {
      WindowLookup(rows, user, today, k);
      series := series + [Entry(months[k], TotalOf(totals, months[k]))];
    }
    assert series == TrailingSeries(rows, user, today).value;
    r := Ok(series);
  }

  // ---------------------------------------------------------------------
  // Category breakdown

  /** `get_category_breakdown`: the month's rows grouped by category name,
      largest total first. */
  function CategoryBreakdown(rows: seq<Txn>, user: UserId, year: int, month: int): seq<Entry<Option<string>>>
  {
    Ranked(GroupTotals(MonthRows(rows, user, year, month), CategoryOf))
  }

  /** Largest first, each category once, exactly the categories of the
      month's rows, each with the sum of its rows, together the month's
      total. */
  lemma CategoryBreakdownSpec(rows: seq<Txn>, user: UserId, year: int, month: int)
    ensures NonIncreasing(CategoryBreakdown(rows, user, year, month), EntryTotal)
    ensures DistinctLabels(CategoryBreakdown(rows, user, year, month))
    ensures forall c :: (c in Labels(CategoryBreakdown(rows, user, year, month))
      <==> exists t :: t in rows && InMonth(t, user, year, month) && t.category == c)
    ensures forall c :: (TotalOf(CategoryBreakdown(rows, user, year, month), c)
      == Sum(Where(MonthRows(rows, user, year, month), HasKey(CategoryOf, c))))
    ensures SumTotals(CategoryBreakdown(rows, user, year, month)) == Sum(MonthRows(rows, user, year, month))
  {
    var m := MonthRows(rows, user, year, month);
    RankedGroupsSpec(m, CategoryOf);
    forall c ensures (c in Labels(CategoryBreakdown(rows, user, year, month))
      <==> exists t :: t in rows && InMonth(t, user, year, month) && t.category == c)
      && (TotalOf(CategoryBreakdown(rows, user, year, month), c)
      == Sum(Where(MonthRows(rows, user, year, month), HasKey(CategoryOf, c))))
    {
      RankedGroupAt(m, CategoryOf, c);
      if t :| t in rows && InMonth(t, user, year, month) && t.category == c {
        assert MonthFilter(user, year, month)(t);
        assert t in m && CategoryOf(t) == c;
      }
      if t :| t in m && CategoryOf(t) == c {
        assert t in rows && MonthFilter(user, year, month)(t);
      }
    }
  }

  // ---------------------------------------------------------------------
  // Daily series

  /** `get_daily_series`: one entry per day of the month, day d carrying
      `total_map.get(d, 0)` over the month's rows grouped by day. */
  function DailySeries(rows: seq<Txn>, user: UserId, year: int, month: int): (r: Result<seq<Entry<int>>>)
    ensures r.Ok? <==> MonthBounds(year, month).Ok?
    ensures r.Ok? ==> |r.value| == DaysInMonth(year, month)
  {
    match MonthBounds(year, month)
    case Err(f) => Err(f)
    case Ok((first, last)) =>
      var totals := GroupTotals(RangeRows(rows, user, first, last), TxnDay);
      Ok(seq(last.day, i requires 0 <= i < last.day => Entry(i + 1, TotalOf(totals, i + 1))))
  }

  /** Entry i is day i + 1 with the sum of the user's rows of that date; a
      day without rows is 0. */
  lemma DailySeriesSpec(rows: seq<Txn>, user: UserId, year: int, month: int, i: nat)
    requires DailySeries(rows, user, year, month).Ok?
    requires i < |DailySeries(rows, user, year, month).value|
    ensures DailySeries(rows, user, year, month).value[i].name == i + 1
    ensures DailySeries(rows, user, year, month).value[i].total == Sum(DayRows(rows, user, Date(year, month, i + 1)))
  {
    var (first, last) := MonthBounds(year, month).value;
    var d := Date(year, month, i + 1);
    var f := RangeFilter(user, first, last);
    forall t | t in rows
      ensures (f(t) && TxnDay(t) == i + 1) == DayFilter(user, d)(t)
    {
      MonthBoundsCover(year, month, t.date);
    }
    GroupLookup(rows, f, TxnDay, i + 1, DayFilter(user, d));
  }

  /** The user's rows of the month dated on day 1..n. */
  function UpToDay(user: UserId, year: int, month: int, n: int): Txn -> bool
  {
    (t: Txn) => InMonth(t, user, year, month) && t.date.day <= n
  }

  /** The first n days of the series add up to the rows of days 1..n. */
  lemma {:induction false} DailyPrefixSum(rows: seq<Txn>, user: UserId, year: int, month: int, n: nat)
    requires DailySeries(rows, user, year, month).Ok?
    requires n <= |DailySeries(rows, user, year, month).value|
    ensures SumTotals(DailySeries(rows, user, year, month).value[..n]) == Sum(Where(rows, UpToDay(user, year, month, n)))
  {
    var s := DailySeries(rows, user, year, month).value;
    if n == 0 {
      WhereNone(rows, UpToDay(user, year, month, 0));
      assert s[..0] == [];
    } else {
      DailyPrefixSum(rows, user, year, month, n - 1);
      DailySeriesSpec(rows, user, year, month, n - 1);
      assert s[..n] == s[..n - 1] + [s[n - 1]];
      SumTotalsSnoc(s[..n - 1], s[n - 1]);
      var p, q := UpToDay(user, year, month, n - 1), DayFilter(user, Date(year, month, n));
      SumWhereSplit(rows, p, q);
      WhereCongruent(rows, Either(p, q), UpToDay(user, year, month, n));
    }
  }

  /** The daily entries add up to the month's total. */
  lemma DailySeriesTotal(rows: seq<Txn>, user: UserId, year: int, month: int)
    requires DailySeries(rows, user, year, month).Ok?
    ensures SumTotals(DailySeries(rows, user, year, month).value) == Sum(MonthRows(rows, user, year, month))
  {
    var s := DailySeries(rows, user, year, month).value;
    DailyPrefixSum(rows, user, year, month, |s|);
    assert s[..|s|] == s;
    WhereCongruent(rows, UpToDay(user, year, month, |s|), MonthFilter(user, year, month));
  }

  // ---------------------------------------------------------------------
  // Previous month and delta

  /** `get_previous_month`. */
  function PreviousMonth(year: int, month: int): (int, int)
  {
    if month == 1 then (year - 1, 12) else (year, month - 1)
  }

  /** For a real month, the previous month is the month one index earlier,
      so the month after it is the given month again. */
  lemma PreviousMonthIndex(year: int, month: int)
    requires 1 <= month <= 12
    ensures var (y, m) := PreviousMonth(year, month);
      && 1 <= m <= 12
      && MonthIndex(YearMonth(y, m)) == MonthIndex(YearMonth(year, month)) - 1
      && NextMonth(YearMonth(y, m)) == YearMonth(year, month)
  {
  }

  datatype Direction = Up | Down | Neutral

  /** The result of `calculate_delta`: the percentage (None when there is no
      baseline) and the direction. */
  datatype Delta = Delta(value: Option<real>, direction: Direction)

  /** `calculate_delta(current, previous)`. */
  function CalculateDelta(current: int, previous: int): (d: Delta)
    ensures d.value == None <==> previous == 0
    ensures d.direction == Neutral <==> previous == 0
    ensures previous != 0 ==> (d.direction == Up <==> current >= previous)
    ensures d.value.Some? ==> d.value.value * (previous as real) == ((current - previous) as real) * 100.0
  {
    if previous == 0 then Delta(None, Neutral)
    else
      var diff := current - previous;
      var direction := if diff >= 0 then Up else Down;
      var percent := (diff as real) / (previous as real) * 100.0;
      Delta(Some(percent), direction)
  }

  /** The percentage recovers the current value from the previous one. */
  lemma DeltaRoundTrip(current: int, previous: int)
    requires previous != 0
    ensures (previous as real) + (previous as real) * CalculateDelta(current, previous).value.value / 100.0 == current as real
  {
    var v := CalculateDelta(current, previous).value.value;
    assert v * (previous as real) == ((current - previous) as real) * 100.0;
  }

  /** Over a negative baseline the direction and the sign of the percentage
      disagree: a rise is reported "up" with a negative percentage. */
  lemma DeltaNegativeBaseline(current: int, previous: int)
    requires previous < 0 && current != previous
    ensures var d := CalculateDelta(current, previous);
      d.direction == Up <==> d.value.value < 0.0
  {
    var v := CalculateDelta(current, previous).value.value;
    assert v * (previous as real) == ((current - previous) as real) * 100.0;
  }
}
