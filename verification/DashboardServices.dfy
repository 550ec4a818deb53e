/** The reporting services of the `financehub` revision
    (financehub/dashboards/services.py): query parameters, the month's totals,
    the trailing twelve-month series, the category breakdown, the daily
    series, the top categories and the top expenses. The clock read
    `date.today()` is the parameter `today`. */
module DashboardServices {
  import opened Results
  import opened Calendar
  import opened Ledger
  import opened Grouping
  import opened Ranking
  import opened Breakdown
  import opened Numerals
  import FinanceServices

  // ---------------------------------------------------------------------
  // Query parameters

  /** Python truthiness of an optional string: present and non-empty. */
  predicate Present(param: Option<string>)
  {
    param.Some? && param.value != ""
  }

  /** `get_month_year_from_params`: a present parameter goes through `int()`
      (which raises on anything but a signed decimal numeral), a missing or
      empty one falls back to today. No range check. */
  function MonthYearFromParams(yearParam: Option<string>, monthParam: Option<string>, today: CalendarDate)
    : (r: Result<(int, int)>)
    ensures r.Ok? <==> ((Present(yearParam) ==> ParseInt(yearParam.value).Ok?)
                     && (Present(monthParam) ==> ParseInt(monthParam.value).Ok?))
    ensures r.Err? ==> r.failure == NotAnInteger
    ensures r.Ok? && !Present(yearParam) ==> r.value.0 == today.year
    ensures r.Ok? && !Present(monthParam) ==> r.value.1 == today.month
    ensures r.Ok? && Present(yearParam) ==> r.value.0 == ParseInt(yearParam.value).value
    ensures r.Ok? && Present(monthParam) ==> r.value.1 == ParseInt(monthParam.value).value
  {
    var year := if Present(yearParam) then ParseInt(yearParam.value) else Ok(today.year);
    var month := if Present(monthParam) then ParseInt(monthParam.value) else Ok(today.month);
    if year.Err? then Err(year.failure)
    else if month.Err? then Err(month.failure)
    else Ok((year.value, month.value))
  }

  /** Any year and month, printed as numerals, come back unchanged, even
      outside the calendar's range. */
  lemma MonthYearRoundTrip(year: int, month: int, today: CalendarDate)
    ensures MonthYearFromParams(Some(IntToString(year)), Some(IntToString(month)), today) == Ok((year, month))
  {
    ParseIntRoundTrip(year);
    ParseIntRoundTrip(month);
  }

  // ---------------------------------------------------------------------
  // Monthly totals

  /** The dict `get_monthly_totals` returns. */
  datatype MonthTotals = MonthTotals(income: int, fixed: int, variable: int, saving: int)

  /** `get_monthly_totals`: each kind's SUM over the month, `or 0`. */
  function MonthlyTotals(store: Store, user: UserId, year: int, month: int): MonthTotals
  {
    MonthTotals(
      OrZero(AggregateSum(MonthRows(store.income, user, year, month))),
      OrZero(AggregateSum(MonthRows(store.fixed, user, year, month))),
      OrZero(AggregateSum(MonthRows(store.variable, user, year, month))),
      OrZero(AggregateSum(MonthRows(store.saving, user, year, month))))
  }

  /** The two revisions agree: the totals are the other revision's KPIs, and
      income minus the three outflows is its `balance_mes`. */
  lemma MonthlyTotalsAgree(store: Store, user: UserId, year: int, month: int)
    ensures var t, k := MonthlyTotals(store, user, year, month), FinanceServices.MonthKpis(store, user, year, month);
      && t.income == k.income && t.fixed == k.fixed && t.variable == k.variable && t.saving == k.saving
      && t.income - t.fixed - t.variable - t.saving == k.balance
  {
  }

  /** A month without rows of the user totals 0 for every kind. */
  lemma MonthlyTotalsNoRows(store: Store, user: UserId, year: int, month: int)
    requires forall kind, t :: t in store.Rows(kind) ==> !InMonth(t, user, year, month)
    ensures MonthlyTotals(store, user, year, month) == MonthTotals(0, 0, 0, 0)
  {
    FinanceServices.MonthKpisNoRows(store, user, year, month);
    MonthlyTotalsAgree(store, user, year, month);
  }

  // ---------------------------------------------------------------------
  // The trailing twelve-month series

  /** A series as parallel label and data lists. */
  function Unzipped<K>(r: Result<seq<Entry<K>>>): Result<(seq<K>, seq<int>)>
  {
    match r
    case Ok(s) => Ok((Labels(s), Totals(s)))
    case Err(f) => Err(f)
  }

  /** A month of the window looked up in the groups of the rows dated on or
      after the first day of the window's oldest month: that month's sum. */
  lemma SinceLookup(rows: seq<Txn>, user: UserId, today: CalendarDate, k: nat)
    requires k < 12
    ensures var w := TrailingMonths(TruncMonth(today));
      TotalOf(GroupTotals(Where(rows, SinceFilter(user, Date(w[0].year, w[0].month, 1))), TxnMonth), w[k])
        == Sum(MonthRows(rows, user, w[k].year, w[k].month))
  {
    var w := TrailingMonths(TruncMonth(today));
    TrailingMonthsShape(TruncMonth(today));
    var f := SinceFilter(user, Date(w[0].year, w[0].month, 1));
    var m := w[k];
    forall t | t in rows
      ensures (f(t) && TxnMonth(t) == m) == MonthFilter(user, m.year, m.month)(t)
    {
      if InMonth(t, user, m.year, m.month) {
        assert MonthIndex(w[0]) <= MonthIndex(m);
      }
    }
    GroupLookup(rows, f, TxnMonth, m, MonthFilter(user, m.year, m.month));
  }

  /** `get_last_12_months_series`: the months by index arithmetic
      (`(y * 12 + m - 1) - i`, then `// 12` and `% 12 + 1`), the grouped
      query with only a lower bound, and the labels and data lists. It reports
      what the other revision's series reports. */
  method Last12MonthsSeries(rows: seq<Txn>, user: UserId, today: CalendarDate)
    returns (r: Result<(seq<YearMonth>, seq<int>)>)
    ensures r == Unzipped(FinanceServices.TrailingSeries(rows, user, today))
  {
    var start := TruncMonth(today);
    ghost var w := TrailingMonths(start);
    var months: seq<YearMonth> := [];
    var i := 11;
    while i >= 0
      invariant -1 <= i <= 11
      invariant |months| == 11 - i
      invariant forall j :: 0 <= j < |months| ==> months[j] == w[j]
      invariant i < 11 ==> w[0].year >= MinYear
    {
      var monthYear := (start.year * 12 + start.month - 1) - i;
      var year := monthYear / 12;
      var month := monthYear % 12 + 1;
      assert w[11 - i] == FromIndex(MonthIndex(start) - i);
      assert YearMonth(year, month) == FromIndex(monthYear);
      if year < MinYear {
        assert w[0] == FromIndex(MonthIndex(start) - 11);
        return Err(InvalidDate);
      }
      months := months + [YearMonth(year, month)];
      i := i - 1;
    }
    assert months == w;
    var queried := Where(rows, SinceFilter(user, Date(months[0].year, months[0].month, 1)));
    var dataMap := GroupTotals(queried, TxnMonth);
    var data := seq(12, k requires 0 <= k < 12 => TotalOf(dataMap, months[k]));
    ghost var s := FinanceServices.TrailingSeries(rows, user, today).value;
    forall k | 0 <= k < 12 ensures data[k] == Totals(s)[k] {
      SinceLookup(rows, user, today, k);
    }
    assert months == Labels(s);
    assert data == Totals(s);
    r := Ok((months, data));
  }

  // ---------------------------------------------------------------------
  // Category breakdown

  /** `category__isnull=False`. */
  function HasCategory(): Txn -> bool
  {
    (t: Txn) => t.category.Some?
  }

  /** `category__name` of a row whose category is not null. */
  function CategoryName(t: Txn): string
  {
    t.category.GetOr("")
  }

  /** The month's rows with a category, grouped by its name, largest first. */
  function RankedCategories(rows: seq<Txn>, user: UserId, year: int, month: int): seq<Entry<string>>
  {
    Ranked(GroupTotals(Where(MonthRows(rows, user, year, month), HasCategory()), CategoryName))
  }

  /** `get_category_breakdown`: parallel labels and data. */
  function CategoryBreakdown(rows: seq<Txn>, user: UserId, year: int, month: int): (r: (seq<string>, seq<int>))
    ensures |r.0| == |r.1|
  {
    var ranked := RankedCategories(rows, user, year, month);
    (Labels(ranked), Totals(ranked))
  }

  /** A category name is a label exactly when a row of the month has it. */
  lemma CategoryLabelAt(rows: seq<Txn>, user: UserId, year: int, month: int, c: string)
    ensures c in CategoryBreakdown(rows, user, year, month).0
      <==> exists t :: t in rows && InMonth(t, user, year, month) && t.category == Some(c)
  {
    var named := Where(MonthRows(rows, user, year, month), HasCategory());
    RankedGroupAt(named, CategoryName, c);
    if t :| t in rows && InMonth(t, user, year, month) && t.category == Some(c) {
      assert MonthFilter(user, year, month)(t) && HasCategory()(t);
      assert t in named && CategoryName(t) == c;
    }
    if t :| t in named && CategoryName(t) == c {
      assert t in MonthRows(rows, user, year, month) && HasCategory()(t);
      assert t in rows && MonthFilter(user, year, month)(t);
    }
  }

  /** The datum of category `c` is the sum of the month's rows in `c`. */
  lemma CategoryTotalAt(rows: seq<Txn>, user: UserId, year: int, month: int, c: string)
    ensures TotalOf(RankedCategories(rows, user, year, month), c)
      == Sum(Where(MonthRows(rows, user, year, month), HasKey(CategoryOf, Some(c))))
  {
    var m := MonthRows(rows, user, year, month);
    var g := HasKey(CategoryOf, Some(c));
    forall t | t in m ensures (HasCategory()(t) && CategoryName(t) == c) == g(t) {
      assert g(t) == (CategoryOf(t) == Some(c));
    }
    RankedGroupLookup(m, HasCategory(), CategoryName, c, g);
  }

  /** The data is largest first, each label once; a label is there exactly
      when a row of the month has that category, and its datum is the sum of
      those rows. */
  lemma CategoryBreakdownSpec(rows: seq<Txn>, user: UserId, year: int, month: int)
    ensures var (labels, data) := CategoryBreakdown(rows, user, year, month);
      && (forall i, j :: 0 <= i < j < |data| ==> data[i] >= data[j])
      && (forall i, j :: 0 <= i < j < |labels| ==> labels[i] != labels[j])
    ensures forall c :: (c in CategoryBreakdown(rows, user, year, month).0
      <==> exists t :: t in rows && InMonth(t, user, year, month) && t.category == Some(c))
    ensures forall i :: 0 <= i < |CategoryBreakdown(rows, user, year, month).0| ==>
      CategoryBreakdown(rows, user, year, month).1[i]
        == Sum(Where(MonthRows(rows, user, year, month), HasKey(CategoryOf, Some(CategoryBreakdown(rows, user, year, month).0[i]))))
  {
    var ranked := RankedCategories(rows, user, year, month);
    RankedGroupsSpec(Where(MonthRows(rows, user, year, month), HasCategory()), CategoryName);
    forall c ensures (c in Labels(ranked) <==> exists t :: t in rows && InMonth(t, user, year, month) && t.category == Some(c)) {
      CategoryLabelAt(rows, user, year, month, c);
    }
    forall i | 0 <= i < |ranked|
      ensures ranked[i].total == Sum(Where(MonthRows(rows, user, year, month), HasKey(CategoryOf, Some(ranked[i].name))))
    {
      TotalOfMember(ranked, ranked[i]);
      CategoryTotalAt(rows, user, year, month, ranked[i].name);
    }
  }

  /** A row without a category leaves the breakdown as it was. */
  lemma CategoryBreakdownSkipsNull(rows: seq<Txn>, t: Txn, user: UserId, year: int, month: int)
    requires t.category.None?
    ensures CategoryBreakdown(rows + [t], user, year, month) == CategoryBreakdown(rows, user, year, month)
  {
    var p, q := MonthFilter(user, year, month), HasCategory();
    var before, after := Where(rows, p), Where(rows + [t], p);
    WhereSnoc(rows, t, p);
    assert Where(after, q) == Where(before, q) by {
      if p(t) {
        assert after == before + [t];
        WhereSnoc(before, t, q);
        assert !q(t);
      } else {
        assert after == before;
      }
    }
    assert RankedCategories(rows + [t], user, year, month) == RankedCategories(rows, user, year, month);
  }

  // ---------------------------------------------------------------------
  // Daily series

  /** `get_daily_series`: `calendar.monthrange` raises for a month outside
      1..12, building the day's `date` for a year outside 1..9999; otherwise
      one label per day of the month and `data_map.get(day, 0)` over the
      month's rows grouped by date. */
  function DailySeries(rows: seq<Txn>, user: UserId, year: int, month: int): (r: Result<(seq<Date>, seq<int>)>)
    ensures r.Ok? <==> FinanceServices.MonthBounds(year, month).Ok?
    ensures r.Ok? ==> |r.value.0| == |r.value.1| == DaysInMonth(year, month)
  {
    if !(1 <= month <= 12) then Err(InvalidDate)
    else
      var lastDay := DaysInMonth(year, month);
      if !(MinYear <= year <= MaxYear) then Err(InvalidDate)
      else
        var days := seq(lastDay, i requires 0 <= i < lastDay => Date(year, month, i + 1));
        var dataMap := GroupTotals(MonthRows(rows, user, year, month), TxnDate);
        Ok((days, seq(lastDay, i requires 0 <= i < lastDay => TotalOf(dataMap, days[i]))))
  }

  /** Label i is day i + 1 of the month, and the data is the other
      revision's daily series: each day's sum, adding up to the month. */
  lemma DailySeriesAgree(rows: seq<Txn>, user: UserId, year: int, month: int)
    requires DailySeries(rows, user, year, month).Ok?
    ensures var (labels, data) := DailySeries(rows, user, year, month).value;
      && (forall i :: 0 <= i < |labels| ==> labels[i] == Date(year, month, i + 1))
      && data == Totals(FinanceServices.DailySeries(rows, user, year, month).value)
  {
    var (labels, data) := DailySeries(rows, user, year, month).value;
    var other := FinanceServices.DailySeries(rows, user, year, month).value;
    forall i | 0 <= i < |data| ensures data[i] == Totals(other)[i] {
      var d := Date(year, month, i + 1);
      var f := MonthFilter(user, year, month);
      forall t | t in rows ensures (f(t) && TxnDate(t) == d) == DayFilter(user, d)(t) {
      }
      GroupLookup(rows, f, TxnDate, d, DayFilter(user, d));
      FinanceServices.DailySeriesSpec(rows, user, year, month, i);
    }
  }

  // ---------------------------------------------------------------------
  // Top categories

  /** `get_top_categories(queryset, limit)`: the groups by category name,
      largest first, the first `limit` of them. Rows without a category form
      a group of their own. */
  function TopCategories(rows: seq<Txn>, limit: nat): seq<Entry<Option<string>>>
  {
    Take(Ranked(GroupTotals(rows, CategoryOf)), limit)
  }

  /** At most `limit` groups, largest first, no group left out larger than
      one kept, each with the sum of its rows; the null category is a group
      whenever a row has it. */
  lemma TopCategoriesSpec(rows: seq<Txn>, limit: nat)
    ensures |TopCategories(rows, limit)| <= limit
    ensures NonIncreasing(TopCategories(rows, limit), EntryTotal)
    ensures DistinctLabels(TopCategories(rows, limit))
    ensures forall i :: 0 <= i < |TopCategories(rows, limit)| ==>
      TopCategories(rows, limit)[i].total == Sum(Where(rows, HasKey(CategoryOf, TopCategories(rows, limit)[i].name)))
    ensures forall i, j :: 0 <= i < |TopCategories(rows, limit)| <= j < |Ranked(GroupTotals(rows, CategoryOf))| ==>
      Ranked(GroupTotals(rows, CategoryOf))[i].total >= Ranked(GroupTotals(rows, CategoryOf))[j].total
    ensures None in Labels(Ranked(GroupTotals(rows, CategoryOf))) <==> exists t :: t in rows && t.category.None?
  {
    var ranked := Ranked(GroupTotals(rows, CategoryOf));
    RankedGroupsSpec(rows, CategoryOf);
    RankedGroupAt(rows, CategoryOf, None);
    TopSpec(GroupTotals(rows, CategoryOf), EntryTotal, limit);
    var top := TopCategories(rows, limit);
    assert top == ranked[..|top|];
    forall i | 0 <= i < |top|
      ensures top[i].total == Sum(Where(rows, HasKey(CategoryOf, top[i].name)))
    {
      TotalOfMember(ranked, ranked[i]);
      RankedGroupAt(rows, CategoryOf, top[i].name);
    }
  }

  // ---------------------------------------------------------------------
  // Top expenses

  /** A row of `get_top_expenses`: description, amount and date, tagged with
      'Gasto fijo' (Fixed) or 'Gasto variable' (Variable). */
  datatype TaggedExpense = TaggedExpense(description: string, amount: Cents, date: CalendarDate, kind: Kind)

  function Tag(t: Txn, kind: Kind): TaggedExpense
  {
    TaggedExpense(t.description, t.amount, t.date, kind)
  }

  function Tagged(rows: seq<Txn>, kind: Kind): (r: seq<TaggedExpense>)
    ensures |r| == |rows|
  {
    seq(|rows|, i requires 0 <= i < |rows| => Tag(rows[i], kind))
  }

  function ExpenseAmount(e: TaggedExpense): int
  {
    e.amount
  }

  /** `combined`: the month's fixed rows, then its variable rows, tagged. */
  function Combined(store: Store, user: UserId, year: int, month: int): seq<TaggedExpense>
  {
    Tagged(MonthRows(store.fixed, user, year, month), Fixed) + Tagged(MonthRows(store.variable, user, year, month), Variable)
  }

  /** `get_top_expenses`: `combined.sort(key=amount, reverse=True)`, then
      `combined[:limit]`. */
  method TopExpenses(store: Store, user: UserId, year: int, month: int, limit: nat) returns (r: seq<TaggedExpense>)
    ensures r == Take(SortDesc(Combined(store, user, year, month), ExpenseAmount), limit)
  {
    var fixed := Tagged(MonthRows(store.fixed, user, year, month), Fixed);
    var variable := Tagged(MonthRows(store.variable, user, year, month), Variable);
    var combined := fixed + variable;
    r := SortedPrefix(combined, ExpenseAmount, limit);
  }

  /** A tagged item comes from a row of the tagged rows. */
  lemma TaggedOrigin(rows: seq<Txn>, kind: Kind, e: TaggedExpense)
    requires e in Tagged(rows, kind)
    ensures exists t :: t in rows && e == Tag(t, kind)
  {
    var j :| 0 <= j < |rows| && Tagged(rows, kind)[j] == e;
    assert rows[j] in rows;
  }

  /** `e` is a fixed or a variable row of the user's month, tagged with its
      kind. */
  predicate MonthExpense(store: Store, user: UserId, year: int, month: int, e: TaggedExpense)
  {
    || (exists t :: t in store.fixed && InMonth(t, user, year, month) && e == Tag(t, Fixed))
    || (exists t :: t in store.variable && InMonth(t, user, year, month) && e == Tag(t, Variable))
  }

  /** Every item of the combined list is a month expense. */
  lemma CombinedOrigin(store: Store, user: UserId, year: int, month: int, e: TaggedExpense)
    requires e in Combined(store, user, year, month)
    ensures MonthExpense(store, user, year, month, e)
  {
    var fm, vm := MonthRows(store.fixed, user, year, month), MonthRows(store.variable, user, year, month);
    var p := MonthFilter(user, year, month);
    if e in Tagged(fm, Fixed) {
      TaggedOrigin(fm, Fixed, e);
      var t :| t in fm && e == Tag(t, Fixed);
      assert t in store.fixed && p(t);
    } else {
      TaggedOrigin(vm, Variable, e);
      var t :| t in vm && e == Tag(t, Variable);
      assert t in store.variable && p(t);
    }
  }

  /** At most `limit` items, largest amount first, each a fixed or variable
      row of the user's month tagged with its kind. */
  lemma TopExpensesSpec(store: Store, user: UserId, year: int, month: int, limit: nat)
    ensures var r := Take(SortDesc(Combined(store, user, year, month), ExpenseAmount), limit);
      && |r| <= limit
      && NonIncreasing(r, ExpenseAmount)
      && (forall i :: 0 <= i < |r| ==> MonthExpense(store, user, year, month, r[i]))
  {
    var combined := Combined(store, user, year, month);
    var r := Take(SortDesc(combined, ExpenseAmount), limit);
    TopSpec(combined, ExpenseAmount, limit);
    forall i | 0 <= i < |r| ensures MonthExpense(store, user, year, month, r[i]) {
      assert r[i] in combined;
      CombinedOrigin(store, user, year, month, r[i]);
    }
  }

  /** Among items of equal amount, the fixed rows come first, each kind in
      its table's order: the items of any one amount are a prefix of the
      fixed ones followed by the variable ones. */
  lemma TopExpensesTies(store: Store, user: UserId, year: int, month: int, limit: nat, v: int)
    ensures WithKey(Take(SortDesc(Combined(store, user, year, month), ExpenseAmount), limit), ExpenseAmount, v)
      <= WithKey(Tagged(MonthRows(store.fixed, user, year, month), Fixed), ExpenseAmount, v)
         + WithKey(Tagged(MonthRows(store.variable, user, year, month), Variable), ExpenseAmount, v)
  {
    var fixed := Tagged(MonthRows(store.fixed, user, year, month), Fixed);
    var variable := Tagged(MonthRows(store.variable, user, year, month), Variable);
    TopSpec(fixed + variable, ExpenseAmount, limit);
    WithKeyAppend(fixed, variable, ExpenseAmount, v);
  }
}
