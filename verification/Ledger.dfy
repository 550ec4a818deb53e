/** The transaction rows both revisions aggregate, and the filter and sum
    steps their queries are made of. */
module Ledger {
  import opened Results
  import opened Calendar

  type UserId = int

  /** A money amount in integer cents: the `DecimalField(max_digits=12,
      decimal_places=2)` amount, scaled by 100. */
  type Cents = int

  /** One row of Income, FixedExpense, VariableExpense or Saving: the fields
      the aggregation reads. The category is the referenced category's name,
      or None where the reference is null. */
  datatype Txn = Txn(
    user: UserId,
    date: CalendarDate,
    amount: Cents,
    category: Option<string>,
    description: string)

  /** The four transaction models. */
  datatype Kind = Income | Fixed | Variable | Saving

  /** The four tables, each in its model's default ordering (most recent
      date first). */
  datatype Store = Store(income: seq<Txn>, fixed: seq<Txn>, variable: seq<Txn>, saving: seq<Txn>)
  {
    /** `model.objects`: the rows of one kind. */
    function Rows(kind: Kind): seq<Txn>
    {
      match kind
      case Income => income
      case Fixed => fixed
      case Variable => variable
      case Saving => saving
    }

    /** The store after `t` is saved as a row of `kind`. */
    function With(kind: Kind, t: Txn): (s: Store)
      ensures s.Rows(kind) == Rows(kind) + [t]
      ensures forall other :: other != kind ==> s.Rows(other) == Rows(other)
    {
      match kind
      case Income => this.(income := income + [t])
      case Fixed => this.(fixed := fixed + [t])
      case Variable => this.(variable := variable + [t])
      case Saving => this.(saving := saving + [t])
    }
  }

  /** `TruncMonth("date")`: the row's month. */
  function TxnMonth(t: Txn): YearMonth
  {
    TruncMonth(t.date)
  }

  /** `ExtractDay("date")`: the row's day of the month. */
  function TxnDay(t: Txn): int
  {
    t.date.day
  }

  /** `TruncDay("date")`: the row's date. */
  function TxnDate(t: Txn): Date
  {
    t.date
  }

  /** `category__name`: the category's name, None for a null category. */
  function CategoryOf(t: Txn): Option<string>
  {
    t.category
  }

  /** The arithmetic sum of the amounts; 0 for no rows. */
  function Sum(rows: seq<Txn>): int
  {
    if rows == [] then 0 else Sum(rows[..|rows| - 1]) + rows[|rows| - 1].amount
  }

  lemma SumSnoc(rows: seq<Txn>, t: Txn)
    ensures Sum(rows + [t]) == Sum(rows) + t.amount
  {
    assert (rows + [t])[..|rows|] == rows;
  }

  lemma {:induction false} SumAppend(a: seq<Txn>, b: seq<Txn>)
    ensures Sum(a + b) == Sum(a) + Sum(b)
    decreases |b|
  {
    if b == [] {
      assert a + b == a;
    } else {
      var b' := b[..|b| - 1];
      assert (a + b)[..|a + b| - 1] == a + b';
      SumAppend(a, b');
    }
  }

  /** A non-negative amount on every row gives a non-negative sum. */
  lemma {:induction false} SumNonNegative(rows: seq<Txn>)
    requires forall t :: t in rows ==> t.amount >= 0
    ensures Sum(rows) >= 0
  {
    if rows != [] {
      assert forall t :: t in rows[..|rows| - 1] ==> t in rows;
      SumNonNegative(rows[..|rows| - 1]);
    }
  }

  /** `aggregate(total=Sum("amount"))["total"]`: SQL SUM is NULL over no rows. */
  function AggregateSum(rows: seq<Txn>): (r: Option<int>)
    ensures r == None <==> rows == []
    ensures r.Some? ==> r.value == Sum(rows)
  {
    if rows == [] then None else Some(Sum(rows))
  }

  /** `total or 0`: a NULL aggregate reads as zero. */
  function OrZero(total: Option<int>): int
  {
    total.GetOr(0)
  }

  /** `.filter(...)`: the rows that satisfy `p`, in their original order. */
  function Where(rows: seq<Txn>, p: Txn -> bool): (r: seq<Txn>)
    ensures |r| <= |rows|
    ensures forall t :: t in r <==> t in rows && p(t)
  {
    if rows == [] then []
    else Where(rows[..|rows| - 1], p) + (if p(rows[|rows| - 1]) then [rows[|rows| - 1]] else [])
  }

  lemma WhereSnoc(rows: seq<Txn>, t: Txn, p: Txn -> bool)
    ensures Where(rows + [t], p) == Where(rows, p) + (if p(t) then [t] else [])
  {
    assert (rows + [t])[..|rows|] == rows;
  }

  /** Two filters that agree on every row select the same rows. */
  lemma {:induction false} WhereCongruent(rows: seq<Txn>, p: Txn -> bool, q: Txn -> bool)
    requires forall t :: t in rows ==> p(t) == q(t)
    ensures Where(rows, p) == Where(rows, q)
  {
    if rows != [] {
      var init := rows[..|rows| - 1];
      assert forall t :: t in init ==> t in rows;
      WhereCongruent(init, p, q);
    }
  }

  /** The conjunction of two row filters. */
  function Both(p: Txn -> bool, q: Txn -> bool): Txn -> bool
  {
    t => p(t) && q(t)
  }

  /** Filtering twice is filtering once by the conjunction. */
  lemma {:induction false} WhereWhere(rows: seq<Txn>, p: Txn -> bool, q: Txn -> bool)
    ensures Where(Where(rows, p), q) == Where(rows, Both(p, q))
  {
    if rows != [] {
      var init, t := rows[..|rows| - 1], rows[|rows| - 1];
      assert rows == init + [t];
      WhereWhere(init, p, q);
      WhereSnoc(init, t, p);
      WhereSnoc(init, t, Both(p, q));
      assert Both(p, q)(t) == (p(t) && q(t));
      if p(t) {
        assert Where(rows, p) == Where(init, p) + [t];
        WhereSnoc(Where(init, p), t, q);
      } else {
        assert Where(rows, p) == Where(init, p);
      }
    }
  }

  /** `filter(user=user, date__year=year, date__month=month)`. */
  predicate InMonth(t: Txn, user: UserId, year: int, month: int)
  {
    t.user == user && t.date.year == year && t.date.month == month
  }

  function MonthFilter(user: UserId, year: int, month: int): Txn -> bool
  {
    t => InMonth(t, user, year, month)
  }

  function MonthRows(rows: seq<Txn>, user: UserId, year: int, month: int): seq<Txn>
  {
    Where(rows, MonthFilter(user, year, month))
  }

  /** `filter(user=user, date__gte=start, date__lte=end)`, which is also what
      `date__range=(start, end)` means. */
  predicate InRange(t: Txn, user: UserId, start: Date, end: Date)
  {
    t.user == user && DateLe(start, t.date) && DateLe(t.date, end)
  }

  function RangeFilter(user: UserId, start: Date, end: Date): Txn -> bool
  {
    t => InRange(t, user, start, end)
  }

  function RangeRows(rows: seq<Txn>, user: UserId, start: Date, end: Date): seq<Txn>
  {
    Where(rows, RangeFilter(user, start, end))
  }

  /** `filter(user=user, date__gte=start)`: a lower bound only. */
  function SinceFilter(user: UserId, start: Date): Txn -> bool
  {
    (t: Txn) => t.user == user && DateLe(start, t.date)
  }

  /** The user's rows dated exactly `d`. */
  function DayFilter(user: UserId, d: Date): Txn -> bool
  {
    (t: Txn) => t.user == user && t.date == d
  }

  function DayRows(rows: seq<Txn>, user: UserId, d: Date): seq<Txn>
  {
    Where(rows, DayFilter(user, d))
  }

  /** `filter(user=user, date__year=year)`. */
  function YearFilter(user: UserId, year: int): Txn -> bool
  {
    (t: Txn) => t.user == user && t.date.year == year
  }

  function YearRows(rows: seq<Txn>, user: UserId, year: int): seq<Txn>
  {
    Where(rows, YearFilter(user, year))
  }

  /** A filter no row passes selects nothing, and the sum over it is 0. */
  lemma {:induction false} WhereNone(rows: seq<Txn>, p: Txn -> bool)
    requires forall t :: t in rows ==> !p(t)
    ensures Where(rows, p) == []
    ensures Sum(Where(rows, p)) == 0
  {
    if rows != [] {
      var init := rows[..|rows| - 1];
      assert forall t :: t in init ==> t in rows;
      WhereNone(init, p);
    }
  }

  /** Filtering distributes over concatenation. */
  lemma {:induction false} WhereAppend(a: seq<Txn>, b: seq<Txn>, p: Txn -> bool)
    ensures Where(a + b, p) == Where(a, p) + Where(b, p)
    decreases |b|
  {
    if b == [] {
      assert a + b == a;
    } else {
      var init, t := b[..|b| - 1], b[|b| - 1];
      var tail := if p(t) then [t] else [];
      assert b == init + [t];
      assert a + b == (a + init) + [t];
      WhereAppend(a, init, p);
      WhereSnoc(a + init, t, p);
      WhereSnoc(init, t, p);
      assert Where(a + b, p) == (Where(a, p) + Where(init, p)) + tail;
      assert Where(b, p) == Where(init, p) + tail;
    }
  }

  /** Either of two row filters. */
  function Either(p: Txn -> bool, q: Txn -> bool): Txn -> bool
  {
    t => p(t) || q(t)
  }

  /** The sum over two filters that no row passes together is the sum of the
      two sums. */
  lemma {:induction false} SumWhereSplit(rows: seq<Txn>, p: Txn -> bool, q: Txn -> bool)
    requires forall t :: t in rows ==> !(p(t) && q(t))
    ensures Sum(Where(rows, Either(p, q))) == Sum(Where(rows, p)) + Sum(Where(rows, q))
  {
    if rows != [] {
      var init, t := rows[..|rows| - 1], rows[|rows| - 1];
      assert rows == init + [t];
      assert forall u :: u in init ==> u in rows;
      SumWhereSplit(init, p, q);
      WhereSnoc(init, t, p);
      WhereSnoc(init, t, q);
      WhereSnoc(init, t, Either(p, q));
      assert Either(p, q)(t) == (p(t) || q(t));
      if p(t) {
        assert Where(rows, Either(p, q)) == Where(init, Either(p, q)) + [t];
        assert Where(rows, p) == Where(init, p) + [t];
        assert Where(rows, q) == Where(init, q);
        SumSnoc(Where(init, p), t);
        SumSnoc(Where(init, Either(p, q)), t);
      } else if q(t) {
        assert Where(rows, Either(p, q)) == Where(init, Either(p, q)) + [t];
        assert Where(rows, p) == Where(init, p);
        assert Where(rows, q) == Where(init, q) + [t];
        SumSnoc(Where(init, q), t);
        SumSnoc(Where(init, Either(p, q)), t);
      } else {
        assert Where(rows, Either(p, q)) == Where(init, Either(p, q));
        assert Where(rows, p) == Where(init, p);
        assert Where(rows, q) == Where(init, q);
      }
    }
  }

  /** `part / whole * 100 if whole else 0`: a percentage with a zero-baseline
      rule instead of a division by zero. */
  function PercentOf(part: int, whole: int): (r: real)
    ensures whole == 0 ==> r == 0.0
    ensures whole != 0 ==> r * (whole as real) == (part as real) * 100.0
    ensures whole > 0 && 0 <= part ==> 0.0 <= r
    ensures whole > 0 && 0 <= part <= whole ==> r <= 100.0
  {
    if whole != 0 then (part as real) / (whole as real) * 100.0 else 0.0
  }
}
