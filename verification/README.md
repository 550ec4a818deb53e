# Money-Manager reporting core, in Dafny

This project models the reporting and aggregation layer of the Money-Manager
personal-finance tracker. It covers both revisions of that layer:

- `finance`: finance/services.py and the computational helpers of finance/views.py;
- `financehub`: financehub/dashboards/services.py and the arithmetic of
  `general_dashboard` in financehub/dashboards/views.py.

Both revisions read dated, user-owned transaction rows of four kinds: income,
fixed expense, variable expense and saving. From them they compute:

- monthly totals and a balance;
- a trailing twelve-month series;
- a per-day series for one month;
- a per-category breakdown ordered by total;
- the previous month and a percent delta;
- the merge of the fixed and variable breakdowns;
- the month's largest expenses.

Each database query becomes a filter, group and sum over a sequence of rows.
An amount is an integer number of cents. A percentage is a `real`.
A `ValueError` (an invalid date for `date()` or `calendar.monthrange`, a
non-numeral for `int()` and, in `general_dashboard`, a `date__year` lookup
outside the calendar) is modelled as an `Err` result, and so is the
`AttributeError` listed under Findings. The service functions that filter on
`date__year` do not model that lookup's error (see Left out). The clock
(`timezone.localdate()`, `date.today()`) becomes a `today` parameter.

Modules:

- `Results`: Option, Result and the three failures.
- `Calendar`: Python's `date` and `calendar.monthrange`, plus month indices and
  the twelve-month window.
- `Ledger`: rows, the four tables, `Sum`, `Where` and the filters the queries
  use, and the percentage rule.
- `Grouping`: GROUP BY … SUM, and Python's insertion-ordered dict accumulation.
- `Ranking`: Python's stable `sort(reverse=True)` as a function and as an
  in-place insertion sort on an array, plus the `[:limit]` slice.
- `Breakdown`: a GROUP BY ordered by `-total`.
- `Numerals`: `int()` and `str()` on decimal numerals.
- One module per source file: `FinanceServices`, `DashboardServices`,
  `FinanceViews` and `DashboardViews`.

Where the source loops or mutates, the model does too:

- the month walk-back loops of both `get_last_12_months_series`;
- the dict-filling loops of the breakdown merges;
- the in-place `sort` of the top-expense lists.

Each of these is a method proved equal to a specification function. Lemmas
then state what that function promises.

Notes on the code's behaviour:

- the financehub twelve-month query has only a lower date bound;
- a zero income gives percentages of 0, not a null sentinel;
- the finance category breakdown does not drop rows without a category;
- `calculate_delta` with a zero baseline reports direction "neutral".

## Model

| member | source | states |
|---|---|---|
| Calendar.DaysInMonth | finance/services.py:13 | the last day of a month is 28–31: 29 exactly for February of a leap year, 28 for February otherwise, 30 for April, June, September and November |
| Calendar.FromIndex | financehub/dashboards/services.py:30-32 | `(k // 12, k % 12 + 1)` is a month in 1..12 whose index is `k` |
| Calendar.IndexRoundTrip | financehub/dashboards/services.py:30-32 | for a real month, the index arithmetic gives the month back |
| Calendar.TrailingMonthsShape | finance/services.py:49-56 | the window is twelve months in 1..12, each the next month after the one before, the last one being the given month |
| Ledger.AggregateSum | finance/services.py:18 | the SQL SUM is null exactly for no rows, and otherwise the sum of the amounts |
| Ledger.PercentOf | financehub/dashboards/views.py:62-63 | 0 when the whole is 0; otherwise `r * whole == part * 100`; between 0 and 100 for a part within a positive whole |
| Grouping.AddPairs | finance/views.py:511-514 | the dict-update loop keeps an insertion-ordered dict, and its items are the old items with every zipped pair folded in |
| Grouping.AddToSpec | finance/views.py:512 | `totals[label] = totals.get(label, 0) + value` keeps keys distinct, adds a new key last, adds the value to that key only, and adds it to the grand total |
| Grouping.GroupedSpec | financehub/dashboards/views.py:55-59 | folding pairs keeps keys distinct; the keys are the old keys and the new labels; each total grows by exactly the values paired with its key |
| Grouping.GroupedOrder | finance/views.py:515 | the keys of a dict filled from empty are the labels in first-seen order |
| Grouping.GroupedAppend | finance/views.py:511-514 | running the second loop after the first folds the concatenation of the two pair lists |
| Grouping.GroupTotalsSpec | finance/services.py:82-87 | GROUP BY gives distinct keys, exactly the keys that occur, each with the sum of its rows, together summing to all rows |
| Ranking.SortDescSpec | financehub/dashboards/services.py:97 | the descending sort is a permutation, is non-increasing, and keeps the input order among equal keys |
| Ranking.SortDescInPlace | financehub/dashboards/services.py:97 | the in-place insertion sort on the array leaves the stable descending sort of its old contents |
| Ranking.SortedPrefix | financehub/dashboards/services.py:97-98 | sorting a list in place and slicing `[:limit]` gives the first `limit` of the stable descending sort |
| Ranking.TopSpec | financehub/dashboards/services.py:97-98 | the slice has at most `limit` items, all from the input, largest first; no item left out is larger than one kept; for each key, the kept items are the first ones in input order |
| Breakdown.RankedGroupsSpec | finance/services.py:82-87 | a GROUP BY ordered by `-total` is non-increasing, has distinct keys and sums to all rows |
| Breakdown.RankedGroupAt | finance/services.py:82-87 | a key is in the ordered groups exactly when a row has it, and its total is the sum of those rows |
| Numerals.ParseInt | financehub/dashboards/services.py:10-11 | `int()` fails only with NotAnInteger, and never succeeds on an empty string or a lone sign |
| Numerals.ParseIntRoundTrip | financehub/dashboards/services.py:10-11 | `int(str(i)) == i` for every integer |
| Numerals.ParseIntRejects | financehub/dashboards/services.py:10-11 | a string with a non-digit after the optional sign is rejected |
| FinanceServices.MonthBounds | finance/services.py:12-14 | succeeds exactly for month 1..12 and year 1..9999; gives day 1 and the month's last day |
| FinanceServices.MonthBoundsCover | finance/services.py:12-14 | a date lies between the bounds exactly when it is in that year and month |
| FinanceServices.RangeIsMonth | finance/views.py:521-528 | filtering by the month's bounds selects the same rows as filtering by year and month |
| FinanceServices.SafeSum | finance/services.py:17-18 | the sum of the amounts, and 0 for no rows |
| FinanceServices.MonthKpis | finance/services.py:21-41 | the month's KPIs; what they state is in KpisTotal, MonthKpisNoRows and MonthKpisAddRow |
| FinanceServices.KpisTotal | finance/services.py:22-29 | each kind's KPI is the sum of that kind's rows of the user's month |
| FinanceServices.MonthKpisNoRows | finance/services.py:21-41 | a month without rows of the user has all six KPIs 0 |
| FinanceServices.MonthKpisAddRow | finance/services.py:21-41 | a new row changes only its kind's total, by its amount, and the expenses and balance accordingly, and only when it is the user's and in the month |
| FinanceServices.TrailingSeries | finance/services.py:44-78 | the intended twelve-month series; see TrailingSeriesShape, TrailingSeriesEmptyMonth and TrailingSeriesWindow |
| FinanceServices.TrailingSeriesShape | finance/services.py:44-78 | the series fails only before December of year 1; otherwise it has twelve consecutive months in 1..12 ending with today's month |
| FinanceServices.TrailingSeriesEmptyMonth | finance/services.py:75 | a month of the window with no rows of the user totals 0 |
| FinanceServices.InWindow | finance/services.py:58-59 | a date lies in [first day of the oldest month, last day of today's month] exactly when its month is in the window |
| FinanceServices.WindowLookup | finance/services.py:61-75 | looking a window month up in the grouped query gives that month's sum |
| FinanceServices.TrailingSeriesWindow | finance/services.py:58-67 | rows outside the window do not affect the series |
| FinanceServices.TrailingSeriesAsWritten | finance/services.py:44-78 | the series as the code stands, raising at line 69 once the window query returns a group; see TrailingSeriesAsWrittenSpec |
| FinanceServices.TrailingSeriesAsWrittenSpec | finance/services.py:58-78 | the code as written succeeds exactly when the intended series does and the user has no row in the window, and then equals it (all zeros); otherwise it fails with AttributeError |
| FinanceServices.TrailingSeriesAsWrittenFails | finance/services.py:69 | one row dated today: the code as written raises, while the intended series holds the row's amount in today's month |
| FinanceServices.StepBack | finance/services.py:50-56 | the inner `while` leaves the month in 1..12, i months before the given month |
| FinanceServices.TrailingMonthStarts | finance/services.py:49-56 | the loop builds the twelve window months oldest first, and raises only when a month falls before year 1 |
| FinanceServices.Last12MonthsSeries | finance/services.py:44-78 | the method returns the intended trailing series (line 69 corrected, see Findings): each window month with the sum of the user's rows of that month |
| FinanceServices.CategoryBreakdown | finance/services.py:81-91 | the month's ranked category groups; see CategoryBreakdownSpec |
| FinanceServices.CategoryBreakdownSpec | finance/services.py:81-91 | non-increasing totals, each category once, exactly the month's categories, each with the sum of its rows, together the month's total |
| FinanceServices.DailySeries | finance/services.py:94-107 | succeeds exactly when the month is valid, with one entry per day of the month |
| FinanceServices.DailySeriesSpec | finance/services.py:103-106 | entry i is day i+1 with the sum of that date's rows; a day without rows is 0 |
| FinanceServices.DailyPrefixSum | finance/services.py:103-106 | the first n entries sum to the rows of days 1..n |
| FinanceServices.DailySeriesTotal | finance/services.py:94-107 | the entries sum to the month's total |
| FinanceServices.PreviousMonth | finance/services.py:110-113 | December of the year before for January, else the month before; see PreviousMonthIndex |
| FinanceServices.PreviousMonthIndex | finance/services.py:110-113 | for a real month, the previous month is a month in 1..12 one index earlier, and the month after it is the given one |
| FinanceServices.CalculateDelta | finance/services.py:116-122 | no value and direction neutral exactly for a zero baseline; otherwise "up" iff current ≥ previous, and `value * previous == (current - previous) * 100` |
| FinanceServices.DeltaRoundTrip | finance/services.py:119-121 | previous + previous × value / 100 recovers the current value |
| FinanceServices.DeltaNegativeBaseline | finance/services.py:119-121 | over a negative baseline a rise is "up" with a negative percentage |
| DashboardServices.MonthYearFromParams | financehub/dashboards/services.py:8-12 | succeeds exactly when every present (non-empty) parameter is a numeral, otherwise fails with the `int()` error; a missing or empty parameter gives today's year or month, a present one its parsed value, each parameter independently |
| DashboardServices.MonthYearRoundTrip | financehub/dashboards/services.py:8-12 | any numerals, even out of calendar range, are read back unchanged (no range check) |
| DashboardServices.MonthlyTotals | financehub/dashboards/services.py:15-22 | the month's four totals; see MonthlyTotalsAgree and MonthlyTotalsNoRows |
| DashboardServices.MonthlyTotalsAgree | financehub/dashboards/services.py:15-22 | the four totals are the other revision's month KPIs, and income minus the outflows is its balance |
| DashboardServices.MonthlyTotalsNoRows | financehub/dashboards/services.py:15-22 | a month without rows of the user totals 0 for every kind |
| DashboardServices.SinceLookup | financehub/dashboards/services.py:34-46 | with only the lower date bound, a window month's datum is still that month's sum |
| DashboardServices.Last12MonthsSeries | financehub/dashboards/services.py:25-47 | the index-arithmetic loop and lookups give the other revision's trailing series as labels and data |
| DashboardServices.CategoryBreakdown | financehub/dashboards/services.py:50-59 | labels and data have the same length |
| DashboardServices.CategoryLabelAt | financehub/dashboards/services.py:50-57 | a name is a label exactly when a row of the month has that category |
| DashboardServices.CategoryTotalAt | financehub/dashboards/services.py:51-58 | a category's total is the sum of the month's rows in it |
| DashboardServices.CategoryBreakdownSpec | financehub/dashboards/services.py:50-59 | data non-increasing, labels distinct, exactly the month's categories, each datum that category's sum |
| DashboardServices.CategoryBreakdownSkipsNull | financehub/dashboards/services.py:52 | a row without a category leaves the breakdown unchanged |
| DashboardServices.DailySeries | financehub/dashboards/services.py:62-78 | succeeds exactly for a valid month, with labels and data as long as the month |
| DashboardServices.DailySeriesAgree | financehub/dashboards/services.py:62-78 | label i is day i+1, and the data is the other revision's daily series |
| DashboardServices.TopCategories | financehub/dashboards/services.py:81-82 | the first `limit` ranked category groups; see TopCategoriesSpec |
| DashboardServices.TopCategoriesSpec | financehub/dashboards/services.py:81-82 | at most `limit` groups, largest first, distinct, each its rows' sum, none left out larger; null categories form a group |
| DashboardServices.TopExpenses | financehub/dashboards/services.py:85-98 | the method returns the first `limit` of the stable descending sort of the month's fixed then variable rows, tagged |
| DashboardServices.TaggedOrigin | financehub/dashboards/services.py:92-96 | every tagged item comes from a row with that tag |
| DashboardServices.CombinedOrigin | financehub/dashboards/services.py:86-96 | every combined item is a fixed or variable row of the user's month, tagged with its kind |
| DashboardServices.TopExpensesSpec | financehub/dashboards/services.py:85-98 | at most `limit` items, non-increasing by amount, each a month expense tagged with its kind |
| DashboardServices.TopExpensesTies | financehub/dashboards/services.py:92-98 | among equal amounts, the items are a prefix of the fixed ones then the variable ones, in table order |
| FinanceViews.QueryInt | finance/views.py:249-250 | a missing parameter gives the default; a present one, even empty, goes through `int()` |
| FinanceViews.QueryMonthYear | finance/views.py:248-250 | each parameter on its own: succeeds exactly when every present one (even an empty one) is a numeral, otherwise fails with the `int()` error; a missing one gives today's year or month, a present one its parsed value |
| FinanceViews.QueryMonthYearSpec | finance/views.py:248-250 | missing parameters give today; numerals read back; an empty parameter is an error |
| FinanceViews.PairsRead | finance/views.py:511-513 | the zip reads the first min(len labels, len data) pairs and nothing more |
| FinanceViews.MergeCategoryBreakdown | finance/views.py:509-517 | the two loops give labels and data of equal length whose pairs are the merged dict's items |
| FinanceViews.MergedOrder | finance/views.py:509-517 | labels distinct, in first-seen order: the primary's first, then only new ones from the secondary |
| FinanceViews.MergedTotals | finance/views.py:510-516 | each label's value is the sum of all values paired with it in both inputs, and nothing is lost |
| FinanceViews.TopExpenses | finance/views.py:520-536 | fails exactly for an invalid month; otherwise the first ten of the stable descending sort of the month's fixed then variable rows |
| FinanceViews.MonthItemOrigin | finance/views.py:523-534 | every combined item is a fixed or variable row of the user's month |
| FinanceViews.TopExpensesSpec | finance/views.py:520-536 | at most ten items, non-increasing by amount, each from the month's fixed or variable rows |
| FinanceViews.TopExpensesTies | finance/views.py:531-536 | among equal amounts, the items are a prefix of the fixed ones then the variable ones |
| FinanceViews.ExpenseSeriesData | finance/views.py:258-264 | the expense series is as long as the shorter of the two input series |
| FinanceViews.ExpenseSeriesTotal | finance/views.py:260-263 | its sum is the fixed sum plus the variable sum over that length |
| FinanceViews.ExpenseSeriesOfMonths | finance/views.py:258-264 | over the same months, it is the month sums of the fixed and variable rows together |
| FinanceViews.SavingDashboardFigures | finance/views.py:305-332 | fails exactly for an invalid month |
| FinanceViews.YearRangeIsYear | finance/views.py:311-325 | 1 January to 31 December selects exactly the year's rows |
| FinanceViews.SavingFiguresSpec | finance/views.py:314-332 | month and year savings and month income are sums of their rows; `saving_pct` is 0 without income, else savings / income × 100 |
| FinanceViews.ModuleMonthTotal | finance/views.py:480-490 | fails exactly for an invalid month |
| FinanceViews.ModuleMonthTotalSpec | finance/views.py:484-490 | `total_month` is the month's sum, and 0 for a month without rows |
| DashboardViews.MonthOptions | financehub/dashboards/views.py:18-32 | twelve options numbered 1..12 in order, with distinct non-empty names |
| DashboardViews.Years | financehub/dashboards/views.py:35-37 | five years, the current year first, each one less than the one before |
| DashboardViews.PreviousMonthWrap | financehub/dashboards/views.py:65-66 | month 1 gives December of the year before; any other month gives (year, month − 1) |
| DashboardViews.PreviousMonthWrapAgrees | financehub/dashboards/views.py:65-66 | the wrap equals `get_previous_month` on every input, and for a real month it is one month index earlier |
| DashboardViews.MergedBreakdown | financehub/dashboards/views.py:53-59 | the merged breakdown dict; see MergedBreakdownLabels, MergedBreakdownLabel, MergedBreakdownTotal and MergedBreakdownOrder |
| DashboardViews.MergedBreakdownGroups | financehub/dashboards/views.py:53-59 | the merge folds every ranked fixed category, then every ranked variable one |
| DashboardViews.MonthFigures | financehub/dashboards/views.py:45-81 | the month's figures; see MonthFiguresBalance and Ledger.PercentOf |
| DashboardViews.MonthFiguresBalance | financehub/dashboards/views.py:46-81 | the balance is `balance_mes`; the delta is it minus the previous month's `balance_mes`; positive iff the delta ≥ 0 |
| DashboardViews.MergedBreakdownLabels | financehub/dashboards/views.py:55-59 | the merged labels are the fixed and variable breakdown labels together |
| DashboardViews.MergedBreakdownLabel | financehub/dashboards/views.py:53-59 | a category is a merged label exactly when a fixed or variable row of the month has it |
| DashboardViews.MergedBreakdownTotal | financehub/dashboards/views.py:53-59 | a label's value is its fixed sum plus its variable sum |
| DashboardViews.MergedBreakdownOrder | financehub/dashboards/views.py:55-59 | labels distinct: the fixed categories first in ranked order, then variable categories not among them |
| DashboardViews.YearLookupsValidSpec | financehub/dashboards/views.py:46-67 | the dashboard's year lookups are valid exactly for a year in 1..9999 other than January of year 1 |
| DashboardViews.GeneralDashboard | financehub/dashboards/views.py:45-91 | succeeds exactly when the parameters parse, the chosen year is in 1..9999 and is not paired with January of year 1 (whose month before has no `date__year` lookup), and the series can be built; other failures are invalid dates; the result holds the figures, the four series, the merged breakdown and the top ten expenses, each as its service defines it |

## Left out

- Database and ORM mechanics: querysets, `TruncMonth`/`ExtractDay`/`TruncDay` and `aggregate` are filter, group and sum steps over sequences. Each table is a sequence in the model's default ordering, most recent first.
- SQL leaves the order among groups with equal totals unspecified. The model keeps the first-seen order of the groups and sorts stably.
- `float()` conversions and `Decimal` arithmetic: amounts are exact integer cents, and percentages are exact `real` values without `Decimal` rounding.
- Labels built by `strftime` and `calendar.month_name` depend on the locale. A month label is its (year, month); a day label is its date.
- Request handling: only the integer parsing of `year` and `month` is modelled. Sessions, the dark-mode toggle, `login_required`, `render`, `json.dumps` and messages are left out.
- Views that only read and write through the framework are left out: CRUD, forms, admin, URL configuration, migrations and the other financehub dashboards.
- `seed_demo` writes random data to the database and prints. It has no aggregation logic.
- The wiring of the finance `dashboard` view is left out. It calls `get_year_12_months_series`, `get_saving_distribution` and `get_saving_goal_progress`, which are not defined in finance/services.py. It also passes a list of dicts where a labels/data chart is read. Its helpers are modelled on the chart shape they read.
- `get_saving_goal_progress` and `get_saving_distribution`, called by `saving_dashboard`, are not part of this model.
- Numerals.ParseInt: accepts ASCII digits with an optional sign only. Python's `int()` also accepts surrounding whitespace, underscores between digits and non-ASCII digits.
- FinanceServices.MonthKpis: a `date__year` lookup raises for a year outside 1..9999; the model gives that month's KPIs as for an empty month instead of an error.
- FinanceServices.CategoryBreakdown: the same `date__year` error is not modelled; a year outside 1..9999 gives an empty breakdown.
- DashboardServices.MonthlyTotals: the same `date__year` error is not modelled; a year outside 1..9999 gives zero totals. The dashboard that calls it does model the error.
- DashboardServices.CategoryBreakdown: the same `date__year` error is not modelled; a year outside 1..9999 gives an empty breakdown.
- DashboardServices.TopExpenses: the same `date__year` error is not modelled; a year outside 1..9999 gives no expenses.
- DashboardServices.TopCategories: `limit` is a natural number. A negative Python slice bound is not modelled.
- Ledger.PercentOf: the percentages of `general_dashboard` are stated through PercentOf's own contract rather than through a separate lemma about the dashboard's totals.

## Findings

| source | as written | input that shows it | evidently intended | confidence | as-written member | corrected member |
|---|---|---|---|---|---|---|
| finance/services.py:69 | `item["month"].date()` on the month that `TruncMonth` gives for a date column, which is a `date` and has no `.date()` method, so the call raises AttributeError | today 2024-03-15 and one row of the user dated 2024-03-15 (FinanceServices.TrailingSeriesAsWrittenFails) | key the totals by the month's `date` itself, as financehub/dashboards/services.py:42 does, so each window month gets its sum | not executed; high | FinanceServices.TrailingSeriesAsWritten | FinanceServices.Last12MonthsSeries |
