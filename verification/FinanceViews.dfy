/** The computational helpers of the `finance` revision's views
    (finance/views.py): the query parameters, the merge of two category
    breakdowns, the month's top expenses, the expense series, the saving
    dashboard's figures and a module dashboard's month total. */
module FinanceViews {
  import opened Results
  import opened Calendar
  import opened Ledger
  import opened Grouping
  import opened Ranking
  import opened Numerals
  import FinanceServices

  // ---------------------------------------------------------------------
  // Query parameters

  /** `int(request.GET.get(name, default))`: a missing parameter gives the
      default, a present one, even an empty one, goes through `int()`. */
  function QueryInt(param: Option<string>, default: int): (r: Result<int>)
    ensures param.None? ==> r == Ok(default)
    ensures param.Some? ==> r == ParseInt(param.value)
  {
    match param
    case None => Ok(default)
    case Some(s) => ParseInt(s)
  }

  /** The year and month of the views, each parameter on its own: a missing
      one gives today's, a present one, even an empty one, goes through
      `int()`; the year is read first. */
  function QueryMonthYear(yearParam: Option<string>, monthParam: Option<string>, today: CalendarDate)
    : (r: Result<(int, int)>)
    ensures r.Ok? <==> ((yearParam.None? || ParseInt(yearParam.value).Ok?)
                     && (monthParam.None? || ParseInt(monthParam.value).Ok?))
    ensures r.Err? ==> r.failure == NotAnInteger
    ensures r.Ok? && yearParam.None? ==> r.value.0 == today.year
    ensures r.Ok? && monthParam.None? ==> r.value.1 == today.month
    ensures r.Ok? && yearParam.Some? ==> r.value.0 == ParseInt(yearParam.value).value
    ensures r.Ok? && monthParam.Some? ==> r.value.1 == ParseInt(monthParam.value).value
  {
    var year := QueryInt(yearParam, today.year);
    var month := QueryInt(monthParam, today.month);
    if year.Err? then Err(year.failure)
    else if month.Err? then Err(month.failure)
    else Ok((year.value, month.value))
  }

  /** Missing parameters give today's month; printed numerals come back
      unchanged; an empty parameter is an error here (the other revision
      falls back to today for it). */
  lemma QueryMonthYearSpec(year: int, month: int, today: CalendarDate)
    ensures QueryMonthYear(None, None, today) == Ok((today.year, today.month))
    ensures QueryMonthYear(Some(IntToString(year)), Some(IntToString(month)), today) == Ok((year, month))
    ensures QueryMonthYear(Some(""), None, today) == Err(NotAnInteger)
    ensures QueryMonthYear(None, Some(""), today) == Err(NotAnInteger)
  {
    ParseIntRoundTrip(year);
    ParseIntRoundTrip(month);
  }

  // ---------------------------------------------------------------------
  // Merging category breakdowns

  /** A chart's `{"labels": ..., "data": ...}`. */
  datatype Chart<K> = Chart(labels: seq<K>, data: seq<int>)

  /** The pairs `zip(labels, data, strict=False)` reads. */
  function Pairs<K>(c: Chart<K>): seq<Entry<K>>
  {
    Zip(c.labels, c.data)
  }

  /** How many pairs the zip reads: the shorter list's length. */
  function PairCount<K>(c: Chart<K>): nat
  {
    if |c.labels| <= |c.data| then |c.labels| else |c.data|
  }

  /** The zip pairs the first labels with the first data, and reads nothing
      past the shorter list. */
  lemma PairsRead<K>(c: Chart<K>)
    ensures PairCount(c) <= |c.labels| && PairCount(c) <= |c.data|
    ensures Labels(Pairs(c)) == c.labels[..PairCount(c)]
    ensures Totals(Pairs(c)) == c.data[..PairCount(c)]
    ensures Pairs(c) == Pairs(Chart(c.labels[..PairCount(c)], c.data[..PairCount(c)]))
  {
  }

  /** The merged dict, as its items in insertion order. */
  function Merged<K(==)>(primary: Chart<K>, secondary: Chart<K>): seq<Entry<K>>
  {
    Grouped([], Pairs(primary) + Pairs(secondary))
  }

  /** `_merge_category_breakdown`: the two loops adding each pair into the
      `totals` dict, then the dict's keys and values. */
  method MergeCategoryBreakdown<K(==)>(primary: Chart<K>, secondary: Chart<K>) returns (r: Chart<K>)
    ensures |r.labels| == |r.data|
    ensures Zip(r.labels, r.data) == Merged(primary, secondary)
  {
    var keys: seq<K>, totals: map<K, int> := [], map[];
    assert Items(keys, totals) == [];
    keys, totals := AddPairs(keys, totals, primary.labels, primary.data);
    keys, totals := AddPairs(keys, totals, secondary.labels, secondary.data);
    GroupedAppend([], Pairs(primary), Pairs(secondary));
    var data := seq(|keys|, i requires 0 <= i < |keys| => totals[keys[i]]);
    r := Chart(keys, data);
    assert Zip(r.labels, r.data) == Items(keys, totals);
  }

  /** The merged labels are distinct and in first-seen order: the
      primary's first, then the secondary's new ones. */
  lemma MergedOrder<K>(primary: Chart<K>, secondary: Chart<K>)
    ensures DistinctLabels(Merged(primary, secondary))
    ensures Labels(Merged(primary, secondary))
      == FirstSeen(primary.labels[..PairCount(primary)] + secondary.labels[..PairCount(secondary)])
    ensures var first := FirstSeen(primary.labels[..PairCount(primary)]);
      && |first| <= |Merged(primary, secondary)|
      && Labels(Merged(primary, secondary))[..|first|] == first
      && (forall i :: |first| <= i < |Merged(primary, secondary)| ==>
            Merged(primary, secondary)[i].name !in primary.labels[..PairCount(primary)])
  {
    var a, b := Pairs(primary), Pairs(secondary);
    GroupedSpec([], a + b);
    GroupedOrder(a + b);
    PairsRead(primary);
    PairsRead(secondary);
    assert Labels(a + b) == Labels(a) + Labels(b);
    FirstSeenAppend(Labels(a), Labels(b));
    var m := Merged(primary, secondary);
    forall i | 0 <= i < |m| ensures m[i].name == Labels(m)[i] {
    }
  }

  /** Each merged label's value is the sum of every value paired with it in
      either input, and nothing is lost. */
  lemma MergedTotals<K>(primary: Chart<K>, secondary: Chart<K>, k: K)
    ensures TotalOf(Merged(primary, secondary), k) == LabelSum(Pairs(primary), k) + LabelSum(Pairs(secondary), k)
    ensures SumTotals(Merged(primary, secondary)) == SumTotals(Pairs(primary)) + SumTotals(Pairs(secondary))
  {
    var a, b := Pairs(primary), Pairs(secondary);
    GroupedSpec([], a + b);
    LabelSumAppend(a, b, k);
    TotalOfAbsent<K>([], k);
    SumTotalsAppend(a, b);
  }

  // ---------------------------------------------------------------------
  // Top expenses

  /** A row of `_top_expenses`: description, amount and category name. */
  datatype ExpenseItem = ExpenseItem(description: string, amount: Cents, category: Option<string>)

  /** How many items `_top_expenses` keeps. */
  const TopExpensesLimit: nat := 10

  function AsItem(t: Txn): ExpenseItem
  {
    ExpenseItem(t.description, t.amount, t.category)
  }

  function AsItems(rows: seq<Txn>): (r: seq<ExpenseItem>)
    ensures |r| == |rows|
  {
    seq(|rows|, i requires 0 <= i < |rows| => AsItem(rows[i]))
  }

  function ItemAmount(e: ExpenseItem): int
  {
    e.amount
  }

  /** The month's fixed items followed by its variable items. */
  function MonthExpenseItems(store: Store, user: UserId, year: int, month: int): seq<ExpenseItem>
  {
    AsItems(MonthRows(store.fixed, user, year, month)) + AsItems(MonthRows(store.variable, user, year, month))
  }

  /** `_top_expenses`: the month's bounds (an invalid month raises), the
      fixed and variable rows in that range, `combined.sort(reverse=True)`
      on the amount and the first ten. */
  method TopExpenses(store: Store, user: UserId, year: int, month: int) returns (r: Result<seq<ExpenseItem>>)
    ensures r.Ok? <==> FinanceServices.MonthBounds(year, month).Ok?
    ensures r.Ok? ==> r.value == Take(SortDesc(MonthExpenseItems(store, user, year, month), ItemAmount), TopExpensesLimit)
  {
    var bounds := FinanceServices.MonthBounds(year, month);
    if bounds.Err? {
      return Err(bounds.failure);
    }
    var (start, end) := bounds.value;
    var fixed := AsItems(RangeRows(store.fixed, user, start, end));
    var variable := AsItems(RangeRows(store.variable, user, start, end));
    FinanceServices.RangeIsMonth(store.fixed, user, year, month);
    FinanceServices.RangeIsMonth(store.variable, user, year, month);
    var combined := fixed + variable;
    var top := SortedPrefix(combined, ItemAmount, TopExpensesLimit);
    r := Ok(top);
  }

  /** `e` is a fixed or a variable row of the user's month. */
  predicate MonthItem(store: Store, user: UserId, year: int, month: int, e: ExpenseItem)
  {
    || (exists t :: t in store.fixed && InMonth(t, user, year, month) && e == AsItem(t))
    || (exists t :: t in store.variable && InMonth(t, user, year, month) && e == AsItem(t))
  }

  lemma MonthItemOrigin(store: Store, user: UserId, year: int, month: int, e: ExpenseItem)
    requires e in MonthExpenseItems(store, user, year, month)
    ensures MonthItem(store, user, year, month, e)
  {
    var fm, vm := MonthRows(store.fixed, user, year, month), MonthRows(store.variable, user, year, month);
    var p := MonthFilter(user, year, month);
    if e in AsItems(fm) {
      var j :| 0 <= j < |fm| && AsItems(fm)[j] == e;
      assert fm[j] in fm;
      assert fm[j] in store.fixed && p(fm[j]);
    } else {
      var j :| 0 <= j < |vm| && AsItems(vm)[j] == e;
      assert vm[j] in vm;
      assert vm[j] in store.variable && p(vm[j]);
    }
  }

  /** At most ten items, largest amount first, each a fixed or variable row
      of the month. */
  lemma TopExpensesSpec(store: Store, user: UserId, year: int, month: int)
    ensures var r := Take(SortDesc(MonthExpenseItems(store, user, year, month), ItemAmount), TopExpensesLimit);
      && |r| <= TopExpensesLimit
      && NonIncreasing(r, ItemAmount)
      && (forall i :: 0 <= i < |r| ==> MonthItem(store, user, year, month, r[i]))
  {
    var combined := MonthExpenseItems(store, user, year, month);
    var r := Take(SortDesc(combined, ItemAmount), TopExpensesLimit);
    TopSpec(combined, ItemAmount, TopExpensesLimit);
    forall i | 0 <= i < |r| ensures MonthItem(store, user, year, month, r[i]) {
      assert r[i] in combined;
      MonthItemOrigin(store, user, year, month, r[i]);
    }
  }

  /** Ties keep the fixed-then-variable order: the items of any one amount
      are a prefix of the fixed ones followed by the variable ones. */
  lemma TopExpensesTies(store: Store, user: UserId, year: int, month: int, v: int)
    ensures WithKey(Take(SortDesc(MonthExpenseItems(store, user, year, month), ItemAmount), TopExpensesLimit), ItemAmount, v)
      <= WithKey(AsItems(MonthRows(store.fixed, user, year, month)), ItemAmount, v)
         + WithKey(AsItems(MonthRows(store.variable, user, year, month)), ItemAmount, v)
  {
    var fixed := AsItems(MonthRows(store.fixed, user, year, month));
    var variable := AsItems(MonthRows(store.variable, user, year, month));
    TopSpec(fixed + variable, ItemAmount, TopExpensesLimit);
    WithKeyAppend(fixed, variable, ItemAmount, v);
  }

  // ---------------------------------------------------------------------
  // Expense series

  /** The sum of a list of numbers. */
  function Total(xs: seq<int>): int
  {
    if xs == [] then 0 else Total(xs[..|xs| - 1]) + xs[|xs| - 1]
  }

  /** The expense series' data: `fixed + variable` over the zip of the two
      series, as long as the shorter one. */
  function ExpenseSeriesData(fixed: seq<int>, variable: seq<int>): (r: seq<int>)
    ensures |r| == if |fixed| <= |variable| then |fixed| else |variable|
  {
    var n := if |fixed| <= |variable| then |fixed| else |variable|;
    seq(n, i requires 0 <= i < n => fixed[i] + variable[i])
  }

  /** Summed over the months, the expense series is the fixed series plus
      the variable series, as far as the shorter one goes. */
  lemma {:induction false} ExpenseSeriesTotal(fixed: seq<int>, variable: seq<int>)
    ensures var n := |ExpenseSeriesData(fixed, variable)|;
      Total(ExpenseSeriesData(fixed, variable)) == Total(fixed[..n]) + Total(variable[..n])
    decreases |fixed|
  {
    var r := ExpenseSeriesData(fixed, variable);
    var n := |r|;
    if n != 0 {
      var f, v := fixed[..n - 1], variable[..n - 1];
      ExpenseSeriesTotal(f, v);
      assert f[..n - 1] == f && v[..n - 1] == v;
      assert ExpenseSeriesData(f, v) == r[..n - 1];
      assert fixed[..n][..n - 1] == f;
      assert variable[..n][..n - 1] == v;
      assert Total(r) == Total(r[..n - 1]) + fixed[n - 1] + variable[n - 1];
      assert Total(fixed[..n]) == Total(f) + fixed[n - 1];
      assert Total(variable[..n]) == Total(v) + variable[n - 1];
    } else {
      assert fixed[..n] == [] && variable[..n] == [];
    }
  }

  /** Each month's sum over some rows. */
  function MonthSums(rows: seq<Txn>, user: UserId, months: seq<YearMonth>): (r: seq<int>)
    ensures |r| == |months|
  {
    seq(|months|, i requires 0 <= i < |months| => Sum(MonthRows(rows, user, months[i].year, months[i].month)))
  }

  /** Over the same months, the expense series of the fixed and the variable
      month sums is the month sums of both kinds' rows together. */
  lemma ExpenseSeriesOfMonths(fixed: seq<Txn>, variable: seq<Txn>, user: UserId, months: seq<YearMonth>)
    ensures ExpenseSeriesData(MonthSums(fixed, user, months), MonthSums(variable, user, months))
      == MonthSums(fixed + variable, user, months)
  {
    var r := ExpenseSeriesData(MonthSums(fixed, user, months), MonthSums(variable, user, months));
    forall i | 0 <= i < |months| ensures r[i] == MonthSums(fixed + variable, user, months)[i] {
      var p := MonthFilter(user, months[i].year, months[i].month);
      WhereAppend(fixed, variable, p);
      SumAppend(Where(fixed, p), Where(variable, p));
    }
  }

  // ---------------------------------------------------------------------
  // Saving dashboard

  /** The figures of `saving_dashboard`. */
  datatype SavingFigures = SavingFigures(totalMonth: Cents, totalYear: Cents, incomeMonth: Cents, savingPct: real)

  /** `saving_dashboard`: building the month's bounds raises for an invalid
      month; the month's and the year's savings (1 January to 31 December)
      and the month's income, each `or 0`, and `saving_pct`, 0 when the
      income is 0. */
  function SavingDashboardFigures(store: Store, user: UserId, year: int, month: int): (r: Result<SavingFigures>)
    ensures r.Ok? <==> FinanceServices.MonthBounds(year, month).Ok?
  {
    var bounds := FinanceServices.MonthBounds(year, month);
    if bounds.Err? then Err(bounds.failure)
    else
      var (startMonth, endMonth) := bounds.value;
      var startYear, endYear := Date(year, 1, 1), Date(year, 12, 31);
      var totalMonth := OrZero(AggregateSum(RangeRows(store.saving, user, startMonth, endMonth)));
      var totalYear := OrZero(AggregateSum(RangeRows(store.saving, user, startYear, endYear)));
      var incomeMonth := OrZero(AggregateSum(RangeRows(store.income, user, startMonth, endMonth)));
      Ok(SavingFigures(totalMonth, totalYear, incomeMonth, PercentOf(totalMonth, incomeMonth)))
  }

  /** The range from 1 January to 31 December is the year. */
  lemma YearRangeIsYear(rows: seq<Txn>, user: UserId, year: int)
    ensures RangeRows(rows, user, Date(year, 1, 1), Date(year, 12, 31)) == YearRows(rows, user, year)
  {
    forall t | t in rows
      ensures RangeFilter(user, Date(year, 1, 1), Date(year, 12, 31))(t) == YearFilter(user, year)(t)
    {
    }
    WhereCongruent(rows, RangeFilter(user, Date(year, 1, 1), Date(year, 12, 31)), YearFilter(user, year));
  }

  /** The figures are the month's and the year's savings and the month's
      income; the percentage is 0 without income, and otherwise the savings
      as a share of the income, times 100. */
  lemma SavingFiguresSpec(store: Store, user: UserId, year: int, month: int)
    requires FinanceServices.MonthBounds(year, month).Ok?
    ensures var f := SavingDashboardFigures(store, user, year, month).value;
      && f.totalMonth == Sum(MonthRows(store.saving, user, year, month))
      && f.totalYear == Sum(YearRows(store.saving, user, year))
      && f.incomeMonth == Sum(MonthRows(store.income, user, year, month))
      && (f.incomeMonth == 0 ==> f.savingPct == 0.0)
      && (f.incomeMonth != 0 ==> f.savingPct * (f.incomeMonth as real) == (f.totalMonth as real) * 100.0)
  {
    FinanceServices.RangeIsMonth(store.saving, user, year, month);
    FinanceServices.RangeIsMonth(store.income, user, year, month);
    YearRangeIsYear(store.saving, user, year);
  }

  // ---------------------------------------------------------------------
  // Module dashboard

  /** `total_month` of `_module_dashboard`: the kind's rows within the
      month's bounds, summed, `or 0`; an invalid month raises. */
  function ModuleMonthTotal(rows: seq<Txn>, user: UserId, year: int, month: int): (r: Result<Cents>)
    ensures r.Ok? <==> FinanceServices.MonthBounds(year, month).Ok?
  {
    var bounds := FinanceServices.MonthBounds(year, month);
    if bounds.Err? then Err(bounds.failure)
    else Ok(OrZero(AggregateSum(RangeRows(rows, user, bounds.value.0, bounds.value.1))))
  }

  /** The total is the month's sum, and 0 for a month without rows. */
  lemma ModuleMonthTotalSpec(rows: seq<Txn>, user: UserId, year: int, month: int)
    requires FinanceServices.MonthBounds(year, month).Ok?
    ensures ModuleMonthTotal(rows, user, year, month).value == Sum(MonthRows(rows, user, year, month))
    ensures (forall t :: t in rows ==> !InMonth(t, user, year, month)) ==> ModuleMonthTotal(rows, user, year, month).value == 0
  {
    FinanceServices.RangeIsMonth(rows, user, year, month);
    if forall t :: t in rows ==> !InMonth(t, user, year, month) {
      WhereNone(rows, MonthFilter(user, year, month));
    }
  }
}
