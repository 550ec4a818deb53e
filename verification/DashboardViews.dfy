/** The general dashboard of the `financehub` revision
    (financehub/dashboards/views.py): the month and year pickers and the
    figures `general_dashboard` computes from the services. The clock read
    `date.today()` is the parameter `today`. */
module DashboardViews {
  import opened Results
  import opened Calendar
  import opened Ledger
  import opened Grouping
  import opened Ranking
  import opened Breakdown
  import opened DashboardServices
  import FinanceServices
  import FinanceViews

  // ---------------------------------------------------------------------
  // Pickers

  /** `_month_options`: the months numbered 1..12 with their Spanish names. */
  function MonthOptions(): (r: seq<(int, string)>)
    ensures |r| == 12
    ensures forall i :: 0 <= i < |r| ==> r[i].0 == i + 1 && r[i].1 != ""
    ensures forall i, j :: 0 <= i < j < |r| ==> r[i].1 != r[j].1
  {
    [ (1, "Enero"), (2, "Febrero"), (3, "Marzo"), (4, "Abril"),
      (5, "Mayo"), (6, "Junio"), (7, "Julio"), (8, "Agosto"),
      (9, "Septiembre"), (10, "Octubre"), (11, "Noviembre"), (12, "Diciembre") ]
  }

  /** `_years`: the current year and the four before it, newest first. */
  function Years(today: CalendarDate): (r: seq<int>)
    ensures |r| == 5 && r[0] == today.year
    ensures forall i :: 0 <= i < 4 ==> r[i + 1] == r[i] - 1
  {
    seq(5, i requires 0 <= i < 5 => today.year - i)
  }

  // ---------------------------------------------------------------------
  // The month's figures

  /** `income - fixed - variable - saving`. */
  function Balance(t: MonthTotals): int
  {
    t.income - t.fixed - t.variable - t.saving
  }

  /** `previous_month = month - 1 or 12` and the year before when the month
      is 1. */
  function PreviousMonthWrap(year: int, month: int): (r: (int, int))
    ensures month == 1 ==> r == (year - 1, 12)
    ensures month != 1 ==> r == (year, month - 1)
  {
    var previousMonth := if month - 1 != 0 then month - 1 else 12;
    var previousYear := if month == 1 then year - 1 else year;
    (previousYear, previousMonth)
  }

  /** The wrap agrees with the other revision's `get_previous_month` on every
      input, so for a real month it is the month one index earlier. */
  lemma PreviousMonthWrapAgrees(year: int, month: int)
    ensures PreviousMonthWrap(year, month) == FinanceServices.PreviousMonth(year, month)
    ensures 1 <= month <= 12 ==>
      var (y, m) := PreviousMonthWrap(year, month);
      1 <= m <= 12 && MonthIndex(YearMonth(y, m)) == MonthIndex(YearMonth(year, month)) - 1
  {
    if 1 <= month <= 12 {
      FinanceServices.PreviousMonthIndex(year, month);
    }
  }

  /** The breakdown `get_category_breakdown` returns, as a chart. */
  function BreakdownChart(rows: seq<Txn>, user: UserId, year: int, month: int): FinanceViews.Chart<string>
  {
    var (labels, data) := CategoryBreakdown(rows, user, year, month);
    FinanceViews.Chart(labels, data)
  }

  /** The merged expense breakdown: the fixed categories' pairs, then the
      variable ones', folded into one dict, as the other revision's
      `_merge_category_breakdown` folds them. */
  function MergedBreakdown(store: Store, user: UserId, year: int, month: int): seq<Entry<string>>
  {
    FinanceViews.Merged(BreakdownChart(store.fixed, user, year, month), BreakdownChart(store.variable, user, year, month))
  }

  /** The merge reads every pair of both breakdowns: it folds the ranked
      fixed categories and then the ranked variable ones. */
  lemma MergedBreakdownGroups(store: Store, user: UserId, year: int, month: int)
    ensures MergedBreakdown(store, user, year, month)
      == Grouped([], RankedCategories(store.fixed, user, year, month) + RankedCategories(store.variable, user, year, month))
  {
    ZipUnzip(RankedCategories(store.fixed, user, year, month));
    ZipUnzip(RankedCategories(store.variable, user, year, month));
  }

  /** The month's figures of `general_dashboard`. */
  datatype Figures = Figures(
    totals: MonthTotals, balance: int,
    percentExpense: real, percentSaving: real,
    balanceDelta: int, balanceDeltaPositive: bool)

  /** The balance, the two percentages (0 without income) and the balance
      delta against the month before, with its sign. */
  function MonthFigures(store: Store, user: UserId, year: int, month: int): Figures
  {
    var totals := MonthlyTotals(store, user, year, month);
    var balance := Balance(totals);
    var expensesTotal := totals.fixed + totals.variable;
    var (previousYear, previousMonth) := PreviousMonthWrap(year, month);
    var balanceDelta := balance - Balance(MonthlyTotals(store, user, previousYear, previousMonth));
    Figures(totals, balance, PercentOf(expensesTotal, totals.income), PercentOf(totals.saving, totals.income),
            balanceDelta, balanceDelta >= 0)
  }

  /** What `general_dashboard` puts in its context. */
  datatype Dashboard = Dashboard(
    year: int, month: int,
    monthOptions: seq<(int, string)>, years: seq<int>,
    figures: Figures,
    seriesLabels: seq<YearMonth>,
    incomeSeries: seq<int>, fixedSeries: seq<int>, variableSeries: seq<int>, savingSeries: seq<int>,
    breakdownLabels: seq<string>, breakdownData: seq<int>,
    topExpenses: seq<TaggedExpense>)

  /** The four trailing series, labelled by the income series' months. */
  predicate SeriesOf(store: Store, user: UserId, today: CalendarDate, d: Dashboard)
  {
    && FinanceServices.TrailingSeries(store.income, user, today).Ok?
    && d.seriesLabels == Labels(FinanceServices.TrailingSeries(store.income, user, today).value)
    && d.incomeSeries == Totals(FinanceServices.TrailingSeries(store.income, user, today).value)
    && d.fixedSeries == Totals(FinanceServices.TrailingSeries(store.fixed, user, today).value)
    && d.variableSeries == Totals(FinanceServices.TrailingSeries(store.variable, user, today).value)
    && d.savingSeries == Totals(FinanceServices.TrailingSeries(store.saving, user, today).value)
  }

  /** Each part of the dashboard of `year` and `month`, as the services
      define it. */
  predicate DashboardOf(store: Store, user: UserId, today: CalendarDate, year: int, month: int, d: Dashboard)
  {
    && d.year == year && d.month == month
    && d.monthOptions == MonthOptions() && d.years == Years(today)
    && d.figures == MonthFigures(store, user, year, month)
    && SeriesOf(store, user, today, d)
    && |d.breakdownLabels| == |d.breakdownData|
    && Zip(d.breakdownLabels, d.breakdownData) == MergedBreakdown(store, user, year, month)
    && d.topExpenses == Take(SortDesc(Combined(store, user, year, month), ExpenseAmount), 10)
  }

  /** Filtering on `date__year` builds the first and last day of that year,
      which raises for a year outside the calendar: the month's totals (and
      everything filtered by the same year) need the chosen year inside it,
      and the totals of the month before need that month's year inside it,
      which fails only for January of year 1. */
  predicate YearLookupsValid(ym: (int, int))
  {
    MinYear <= ym.0 <= MaxYear && PreviousMonthWrap(ym.0, ym.1).0 >= MinYear
  }

  /** The lookups fail exactly for a year outside 1..9999 and for January of
      year 1, whose month before lies in year 0. */
  lemma YearLookupsValidSpec(year: int, month: int)
    ensures YearLookupsValid((year, month)) <==> (MinYear <= year <= MaxYear && !(year == MinYear && month == 1))
  {
  }

  /** `general_dashboard` (the dark-mode toggle aside): the parameters, the
      month's figures, the four trailing series, the merged breakdown and
      the top expenses. It fails when a parameter is not a numeral, when a
      year lookup is outside the calendar or when the series cannot be
      built. */
  method GeneralDashboard(store: Store, user: UserId, yearParam: Option<string>, monthParam: Option<string>,
                          today: CalendarDate)
    returns (r: Result<Dashboard>)
    ensures r.Ok? <==> (MonthYearFromParams(yearParam, monthParam, today).Ok?
                        && YearLookupsValid(MonthYearFromParams(yearParam, monthParam, today).value)
                        && !(today.year == MinYear && today.month < 12))
    ensures r.Err? && MonthYearFromParams(yearParam, monthParam, today).Ok? ==> r.failure == InvalidDate
    ensures r.Ok? ==> var (year, month) := MonthYearFromParams(yearParam, monthParam, today).value;
      DashboardOf(store, user, today, year, month, r.value)
  {
    var params := MonthYearFromParams(yearParam, monthParam, today);
    if params.Err? {
      return Err(params.failure);
    }
    var (year, month) := params.value;
    if !(MinYear <= year <= MaxYear) {
      return Err(InvalidDate);
    }

    FinanceServices.TrailingSeriesShape(store.income, user, today);
    FinanceServices.TrailingSeriesShape(store.fixed, user, today);
    FinanceServices.TrailingSeriesShape(store.variable, user, today);
    FinanceServices.TrailingSeriesShape(store.saving, user, today);
    var income := Last12MonthsSeries(store.income, user, today);
    if income.Err? {
      return Err(income.failure);
    }
    var fixed := Last12MonthsSeries(store.fixed, user, today);
    var variable := Last12MonthsSeries(store.variable, user, today);
    var saving := Last12MonthsSeries(store.saving, user, today);

    if PreviousMonthWrap(year, month).0 < MinYear {
      return Err(InvalidDate);
    }
    var figures := MonthFigures(store, user, year, month);

    var (expenseLabels, expenseData) := CategoryBreakdown(store.fixed, user, year, month);
    var (variableLabels, variableData) := CategoryBreakdown(store.variable, user, year, month);
    var breakdown := FinanceViews.MergeCategoryBreakdown(
      FinanceViews.Chart(expenseLabels, expenseData), FinanceViews.Chart(variableLabels, variableData));

    var top := TopExpenses(store, user, year, month, 10);
    var d := Dashboard(
      year, month, MonthOptions(), Years(today), figures,
      income.value.0, income.value.1, fixed.value.1, variable.value.1, saving.value.1,
      breakdown.labels, breakdown.data, top);
    assert SeriesOf(store, user, today, d);
    r := Ok(d);
  }

  // ---------------------------------------------------------------------
  // What the figures mean

  /** The balance and its delta are the other revision's: `balance_mes` of
      this month minus `balance_mes` of the month before. */
  lemma MonthFiguresBalance(store: Store, user: UserId, year: int, month: int)
    ensures MonthFigures(store, user, year, month).balance == FinanceServices.MonthKpis(store, user, year, month).balance
    ensures var (py, pm) := FinanceServices.PreviousMonth(year, month);
      MonthFigures(store, user, year, month).balanceDelta
        == FinanceServices.MonthKpis(store, user, year, month).balance - FinanceServices.MonthKpis(store, user, py, pm).balance
    ensures MonthFigures(store, user, year, month).balanceDeltaPositive
      <==> MonthFigures(store, user, year, month).balanceDelta >= 0
  {
    PreviousMonthWrapAgrees(year, month);
    var (py, pm) := FinanceServices.PreviousMonth(year, month);
    MonthlyTotalsAgree(store, user, year, month);
    MonthlyTotalsAgree(store, user, py, pm);
  }

  /** The merged labels are the fixed breakdown's and the variable
      breakdown's labels together. */
  lemma MergedBreakdownLabels(store: Store, user: UserId, year: int, month: int, c: string)
    ensures c in Labels(MergedBreakdown(store, user, year, month))
      <==> (c in CategoryBreakdown(store.fixed, user, year, month).0
        || c in CategoryBreakdown(store.variable, user, year, month).0)
  {
    var a := RankedCategories(store.fixed, user, year, month);
    var b := RankedCategories(store.variable, user, year, month);
    MergedBreakdownGroups(store, user, year, month);
    GroupedLabels(a, b, c);
  }

  /** A category is a merged label exactly when a fixed or a variable row of
      the month has it. */
  lemma MergedBreakdownLabel(store: Store, user: UserId, year: int, month: int, c: string)
    ensures c in Labels(MergedBreakdown(store, user, year, month))
      <==> ((exists t :: t in store.fixed && InMonth(t, user, year, month) && t.category == Some(c))
        || (exists t :: t in store.variable && InMonth(t, user, year, month) && t.category == Some(c)))
  {
    MergedBreakdownLabels(store, user, year, month, c);
    CategoryLabelAt(store.fixed, user, year, month, c);
    CategoryLabelAt(store.variable, user, year, month, c);
  }

  /** A merged label's value is the month's fixed sum plus the month's
      variable sum for that category. */
  lemma MergedBreakdownTotal(store: Store, user: UserId, year: int, month: int, c: string)
    ensures TotalOf(MergedBreakdown(store, user, year, month), c)
      == Sum(Where(MonthRows(store.fixed, user, year, month), HasKey(CategoryOf, Some(c))))
       + Sum(Where(MonthRows(store.variable, user, year, month), HasKey(CategoryOf, Some(c))))
  {
    var a := RankedCategories(store.fixed, user, year, month);
    var b := RankedCategories(store.variable, user, year, month);
    var fixedChart := BreakdownChart(store.fixed, user, year, month);
    var variableChart := BreakdownChart(store.variable, user, year, month);
    FinanceViews.MergedTotals(fixedChart, variableChart, c);
    ZipUnzip(a);
    ZipUnzip(b);
    assert FinanceViews.Pairs(fixedChart) == a;
    assert FinanceViews.Pairs(variableChart) == b;
    RankedGroupsSpec(Where(MonthRows(store.fixed, user, year, month), HasCategory()), CategoryName);
    RankedGroupsSpec(Where(MonthRows(store.variable, user, year, month), HasCategory()), CategoryName);
    LabelSumDistinct(a, c);
    LabelSumDistinct(b, c);
    CategoryTotalAt(store.fixed, user, year, month, c);
    CategoryTotalAt(store.variable, user, year, month, c);
  }

  /** The merged labels are distinct, the fixed categories first in their
      ranked order, then the variable categories not among them. */
  lemma MergedBreakdownOrder(store: Store, user: UserId, year: int, month: int)
    ensures DistinctLabels(MergedBreakdown(store, user, year, month))
    ensures var fixedLabels := Labels(RankedCategories(store.fixed, user, year, month));
      && |fixedLabels| <= |MergedBreakdown(store, user, year, month)|
      && Labels(MergedBreakdown(store, user, year, month))[..|fixedLabels|] == fixedLabels
      && (forall i :: |fixedLabels| <= i < |MergedBreakdown(store, user, year, month)| ==>
            MergedBreakdown(store, user, year, month)[i].name !in fixedLabels)
  {
    var fixedChart := BreakdownChart(store.fixed, user, year, month);
    var variableChart := BreakdownChart(store.variable, user, year, month);
    var fixedLabels := Labels(RankedCategories(store.fixed, user, year, month));
    FinanceViews.MergedOrder(fixedChart, variableChart);
    assert fixedChart.labels[..FinanceViews.PairCount(fixedChart)] == fixedLabels;
    RankedGroupsSpec(Where(MonthRows(store.fixed, user, year, month), HasCategory()), CategoryName);
    FirstSeenDistinct(fixedLabels);
  }
}
