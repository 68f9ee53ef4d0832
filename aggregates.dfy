/** The figures money.js derives from the ledger on every redraw: the totals and balance
    of `updateBalance`, the statistics of `updateReports` and the two chart series of
    `updateCharts`. All are pure functions of a ledger snapshot. */
module Aggregates {
  import opened Transactions
  import opened Views

  /** `.reduce((sum, t) => sum + t.amount, 0)`. */
  function Sum(s: seq<Transaction>): real
  {
    if s == [] then 0.0 else s[0].amount + Sum(s[1..])
  }

  /** The income or expense total: filter by type, then reduce. */
  function Total(s: seq<Transaction>, k: Kind): real
  {
    Sum(OfKind(s, k))
  }

  /** `income - expenses`. */
  function Balance(s: seq<Transaction>): real
  {
    Total(s, Income) - Total(s, Expense)
  }

  /** What one record contributes to the balance, the direction carried by its type. */
  function Signed(t: Transaction): real
  {
    if t.kind == Income then t.amount else -t.amount
  }

  /** A reference definition of the balance in one pass over the ledger. */
  function SignedSum(s: seq<Transaction>): real
  {
    if s == [] then 0.0 else Signed(s[0]) + SignedSum(s[1..])
  }

  /** The balance is income minus expense record by record; in particular it is 0 for an empty ledger. */
  lemma {:induction false} BalanceIsSignedSum(s: seq<Transaction>)
    ensures Balance(s) == SignedSum(s)
    ensures s == [] ==> Balance(s) == 0.0
  {
    if s != [] {
      BalanceIsSignedSum(s[1..]);
      if s[0].kind == Income {
        assert OfKind(s, Income) == [s[0]] + OfKind(s[1..], Income);
        assert ([s[0]] + OfKind(s[1..], Income))[1..] == OfKind(s[1..], Income);
      } else {
        assert OfKind(s, Expense) == [s[0]] + OfKind(s[1..], Expense);
        assert ([s[0]] + OfKind(s[1..], Expense))[1..] == OfKind(s[1..], Expense);
      }
    }
  }

  /** Taking out the one record with the id takes its signed amount out of the balance. */
  lemma {:induction false} SignedSumRemoveUnique(s: seq<Transaction>, id: int)
    requires CountId(s, id) == 1
    ensures FindFirst(s, id).Some?
    ensures SignedSum(RemoveId(s, id)) + Signed(FindFirst(s, id).value) == SignedSum(s)
  {
    if s[0].id == id {
      assert CountId(s[1..], id) == 0;
    } else {
      SignedSumRemoveUnique(s[1..], id);
      assert ([s[0]] + RemoveId(s[1..], id))[1..] == RemoveId(s[1..], id);
    }
  }

  /** Deleting a record whose id is unique and undoing the delete gives back the balance. */
  lemma BalanceAfterUndo(s: seq<Transaction>, id: int)
    requires CountId(s, id) == 1
    ensures FindFirst(s, id).Some?
    ensures Balance([FindFirst(s, id).value] + RemoveId(s, id)) == Balance(s)
  {
    var t := FindFirst(s, id).value;
    var r := RemoveId(s, id);
    SignedSumRemoveUnique(s, id);
    BalanceIsSignedSum(s);
    BalanceIsSignedSum([t] + r);
    assert ([t] + r)[1..] == r;
  }

  lemma {:induction false} SumNonNegative(s: seq<Transaction>)
    requires forall i :: 0 <= i < |s| ==> s[i].amount >= 0.0
    ensures Sum(s) >= 0.0
  {
    if s != [] {
      SumNonNegative(s[1..]);
    }
  }

  /** With positive amounts neither total is negative. */
  lemma TotalNonNegative(s: seq<Transaction>, k: Kind)
    ensures AllPositive(s) ==> Total(s, k) >= 0.0
  {
    if AllPositive(s) {
      var r := OfKind(s, k);
      forall i | 0 <= i < |r| ensures r[i].amount >= 0.0 {
        assert r[i] in s;
      }
      SumNonNegative(r);
    }
  }

  /** A sum of `n` amounts none above `m` is at most `n * m`, and positive when they all are. */
  lemma {:induction false} SumBounds(s: seq<Transaction>, m: real)
    requires forall i :: 0 <= i < |s| ==> s[i].amount <= m
    ensures Sum(s) <= (|s| as real) * m
    ensures s != [] && AllPositive(s) ==> Sum(s) > 0.0
  {
    if s != [] {
      SumBounds(s[1..], m);
    }
  }

  /** The average of one type: the total over the count, and 0 when there is no record of that type. */
  function Average(s: seq<Transaction>, k: Kind): real
  {
    var n := |OfKind(s, k)|;
    if n > 0 then Total(s, k) / (n as real) else 0.0
  }

  /** The average is 0 when there is no record of the type, and otherwise times the count gives the total. */
  lemma AverageTimesCount(s: seq<Transaction>, k: Kind)
    ensures |OfKind(s, k)| == 0 ==> Average(s, k) == 0.0
    ensures |OfKind(s, k)| > 0 ==> Average(s, k) * (|OfKind(s, k)| as real) == Total(s, k)
  {
    var x, n := Total(s, k), |OfKind(s, k)| as real;
    if n > 0.0 {
      QuotientTimes(x, n);
      assert Average(s, k) == x / n;
    }
  }

  /** The position of a largest amount in a non-empty list: the first one on a tie. */
  function MaxIndex(s: seq<Transaction>): (k: nat)
    requires s != []
    ensures k < |s|
    ensures forall i :: 0 <= i < |s| ==> s[i].amount <= s[k].amount
  {
    if |s| == 1 then 0
    else
      var k := 1 + MaxIndex(s[1..]);
      assert forall i :: 1 <= i < |s| ==> s[i] == s[1..][i - 1];
      if s[0].amount >= s[k].amount then 0 else k
  }

  /** `Math.max(...amounts)` over a non-empty list: one of the amounts, and none is larger. */
  function MaxAmount(s: seq<Transaction>): (m: real)
    requires s != []
    ensures exists i :: 0 <= i < |s| && s[i].amount == m
    ensures forall i :: 0 <= i < |s| ==> s[i].amount <= m
  {
    s[MaxIndex(s)].amount
  }

  /** The highest amount of the report: 0 for an empty ledger, otherwise the largest amount. */
  function Highest(s: seq<Transaction>): (m: real)
    ensures s == [] ==> m == 0.0
    ensures s != [] ==> (exists i :: 0 <= i < |s| && s[i].amount == m)
                        && forall i :: 0 <= i < |s| ==> s[i].amount <= m
  {
    if |s| > 0 then MaxAmount(s) else 0.0
  }

  /** An average lies between 0 (exclusive) and the highest amount of the ledger. */
  lemma AverageBounds(s: seq<Transaction>, k: Kind)
    requires AllPositive(s) && |OfKind(s, k)| > 0
    ensures 0.0 < Average(s, k) <= Highest(s)
  {
    MeanBounds(s, OfKind(s, k));
  }

  /** The mean of a non-empty selection of positive ledger records lies in `(0, highest]`. */
  lemma MeanBounds(s: seq<Transaction>, r: seq<Transaction>)
    requires AllPositive(s) && r != [] && forall t :: t in r ==> t in s
    ensures 0.0 < Sum(r) / (|r| as real) <= Highest(s)
  {
    var x, n, h := Sum(r), |r| as real, Highest(s);
    assert 0.0 < x <= n * h by {
      BoundedByHighest(s, r);
      SumBounds(r, h);
    }
    QuotientBounds(x, n, h);
  }

  /** Records drawn from the ledger have positive amounts no larger than its highest. */
  lemma BoundedByHighest(s: seq<Transaction>, r: seq<Transaction>)
    requires AllPositive(s) && forall t :: t in r ==> t in s
    ensures AllPositive(r) && forall i :: 0 <= i < |r| ==> r[i].amount <= Highest(s)
  {
    forall i | 0 <= i < |r| ensures 0.0 < r[i].amount <= Highest(s) {
      assert r[i] in s;
    }
  }

  /** Dividing by a non-zero `n` and multiplying back gives the value again. */
  lemma QuotientTimes(x: real, n: real)
    requires n != 0.0
    ensures (x / n) * n == x
  {
  }

  /** `0 < x <= n * h` with `n > 0` puts `x / n` in `(0, h]`. */
  lemma QuotientBounds(x: real, n: real, h: real)
    requires n > 0.0 && 0.0 < x <= n * h
    ensures 0.0 < x / n <= h
  {
    assert (x / n) * n == x;
  }

  /** Scaling by a positive `m` maps `[0, m]` into `[0, 100]`, positive values to positive ones. */
  lemma PercentOf(x: real, m: real)
    requires m > 0.0
    ensures 0.0 <= x <= m ==> 0.0 <= x / m * 100.0 <= 100.0
    ensures x > 0.0 ==> x / m * 100.0 > 0.0
  {
    assert (x / m) * m == x;
  }

  /** Scaling by a positive `m` keeps the order of two values. */
  lemma PercentOrder(x: real, y: real, m: real)
    requires m > 0.0
    ensures x > y <==> x / m * 100.0 > y / m * 100.0
  {
    assert (x / m) * m == x && (y / m) * m == y;
  }

  /** `v` is `x` as a percentage of the scale `m`: scaled back by `m`, it is `x` times 100. */
  predicate PercentOfScale(v: real, x: real, m: real)
  {
    v * m == x * 100.0
  }

  /** A percentage of a non-zero `m`, scaled back by `m`, is the value times 100. */
  lemma PercentTimes(x: real, m: real)
    requires m != 0.0
    ensures PercentOfScale(x / m * 100.0, x, m)
  {
    assert (x / m) * m == x;
  }

  /** A non-zero value is 100 percent of itself. */
  lemma SelfPercent(m: real)
    requires m != 0.0
    ensures m / m * 100.0 == 100.0
  {
  }

  /** A calendar month in the local time zone: `getFullYear()` and `getMonth()`. */
  datatype YearMonth = YearMonth(year: int, month: int)

  /** The records whose date falls in the month `ym`; `monthOf` is the calendar of the runtime. */
  function InMonth(s: seq<Transaction>, ym: YearMonth, monthOf: int -> YearMonth): (r: seq<Transaction>)
    ensures IsSubsequence(r, s)
    ensures forall i :: 0 <= i < |r| ==> monthOf(r[i].date) == ym
    ensures (forall i :: 0 <= i < |s| ==> monthOf(s[i].date) == ym) ==> r == s
    ensures (forall i :: 0 <= i < |s| ==> monthOf(s[i].date) != ym) ==> r == []
  {
    if s == [] then []
    else if monthOf(s[0].date) == ym then [s[0]] + InMonth(s[1..], ym, monthOf)
    else InMonth(s[1..], ym, monthOf)
  }

  /** The month filter keeps every record dated in the month, as often as it occurs in the ledger, and no other record. */
  lemma {:induction false} InMonthCounts(s: seq<Transaction>, ym: YearMonth, monthOf: int -> YearMonth, t: Transaction)
    ensures multiset(InMonth(s, ym, monthOf))[t] == if monthOf(t.date) == ym then multiset(s)[t] else 0
  {
    if s != [] {
      InMonthCounts(s[1..], ym, monthOf, t);
      assert s == [s[0]] + s[1..];
    }
  }

  /** This month's net: income minus expense over the records dated in the month of `now`. */
  function MonthNet(s: seq<Transaction>, now: int, monthOf: int -> YearMonth): real
  {
    Balance(InMonth(s, monthOf(now), monthOf))
  }

  /** A record added in the current month moves the month's net by its signed amount;
      one dated in another month leaves it alone. */
  lemma MonthNetOfNewRecord(t: Transaction, s: seq<Transaction>, now: int, monthOf: int -> YearMonth)
    ensures monthOf(t.date) == monthOf(now) ==> MonthNet([t] + s, now, monthOf) == MonthNet(s, now, monthOf) + Signed(t)
    ensures monthOf(t.date) != monthOf(now) ==> MonthNet([t] + s, now, monthOf) == MonthNet(s, now, monthOf)
  {
    var ym := monthOf(now);
    assert ([t] + s)[1..] == s;
    BalanceIsSignedSum(InMonth(s, ym, monthOf));
    BalanceIsSignedSum(InMonth([t] + s, ym, monthOf));
    if monthOf(t.date) == ym {
      assert ([t] + InMonth(s, ym, monthOf))[1..] == InMonth(s, ym, monthOf);
    }
  }

  /** When every record is dated this month, the month's net is the balance; when none is, it is 0. */
  lemma MonthNetExtremes(s: seq<Transaction>, now: int, monthOf: int -> YearMonth)
    ensures (forall i :: 0 <= i < |s| ==> monthOf(s[i].date) == monthOf(now)) ==> MonthNet(s, now, monthOf) == Balance(s)
    ensures (forall i :: 0 <= i < |s| ==> monthOf(s[i].date) != monthOf(now)) ==> MonthNet(s, now, monthOf) == 0.0
  {
    BalanceIsSignedSum([]);
  }

  /** The report's trend label. */
  datatype Trend = Positive | Negative | Neutral

  /** The sign classification of the balance. */
  function TrendOf(balance: real): (r: Trend)
    ensures r == Positive <==> balance > 0.0
    ensures r == Negative <==> balance < 0.0
    ensures r == Neutral <==> balance == 0.0
  {
    if balance > 0.0 then Positive else if balance < 0.0 then Negative else Neutral
  }

  /** The statistics `updateReports` shows. */
  datatype Report = Report(count: nat, avgIncome: real, avgExpense: real, highest: real, monthNet: real, trend: Trend)

  function Reports(s: seq<Transaction>, now: int, monthOf: int -> YearMonth): (r: Report)
    ensures r.count == |s|
    ensures r.trend == Positive <==> Total(s, Income) > Total(s, Expense)
    ensures r.trend == Negative <==> Total(s, Income) < Total(s, Expense)
    ensures r.avgIncome == Average(s, Income) && r.avgExpense == Average(s, Expense)
    ensures r.highest == Highest(s) && (AllPositive(s) && s != [] ==> r.highest > 0.0)
    ensures r.monthNet == MonthNet(s, now, monthOf)
  {
    Report(|s|, Average(s, Income), Average(s, Expense), Highest(s), MonthNet(s, now, monthOf), TrendOf(Balance(s)))
  }

  /** `Math.max(totalIncome, totalExpense, 1)`. */
  function BarScale(income: real, expense: real): (m: real)
    ensures m >= 1.0 && m >= income && m >= expense
    ensures m == 1.0 || m == income || m == expense
  {
    var larger := if income >= expense then income else expense;
    if larger >= 1.0 then larger else 1.0
  }

  /** The heights, in percent, of the income and the expense bar. */
  function Bars(s: seq<Transaction>): (r: (real, real))
    ensures AllPositive(s) ==> 0.0 <= r.0 <= 100.0 && 0.0 <= r.1 <= 100.0
    ensures Total(s, Income) >= 1.0 && Total(s, Income) >= Total(s, Expense) ==> r.0 == 100.0
    ensures Total(s, Expense) >= 1.0 && Total(s, Expense) >= Total(s, Income) ==> r.1 == 100.0
    ensures Total(s, Income) > Total(s, Expense) <==> r.0 > r.1
    ensures PercentOfScale(r.0, Total(s, Income), BarScale(Total(s, Income), Total(s, Expense)))
    ensures PercentOfScale(r.1, Total(s, Expense), BarScale(Total(s, Income), Total(s, Expense)))
  {
    var income := Total(s, Income);
    var expense := Total(s, Expense);
    var m := BarScale(income, expense);
    TotalNonNegative(s, Income);
    TotalNonNegative(s, Expense);
    PercentOf(income, m);
    PercentOf(expense, m);
    PercentOrder(income, expense, m);
    SelfPercent(m);
    PercentTimes(income, m);
    PercentTimes(expense, m);
    (income / m * 100.0, expense / m * 100.0)
  }

  /** How many records the recent-activity chart shows. */
  const RecentCount := 5

  /** `transactions.slice(0, 5)`: the newest records, in ledger order. */
  function Recent(s: seq<Transaction>): (r: seq<Transaction>)
    ensures |r| == if |s| < RecentCount then |s| else RecentCount
    ensures forall i :: 0 <= i < |r| ==> r[i] == s[i]
  {
    if |s| <= RecentCount then s else s[..RecentCount]
  }

  /** `w` holds, entry by entry, the amounts of `series` as percentages of `m`: each entry, scaled
      back by `m`, is its amount times 100. */
  predicate PercentagesOf(w: seq<real>, series: seq<Transaction>, m: real)
  {
    |w| == |series| && forall i :: 0 <= i < |w| ==> PercentOfScale(w[i], series[i].amount, m)
  }

  /** The bar widths of the recent-activity chart: each amount as a percentage of the largest. */
  function Widths(series: seq<Transaction>): (w: seq<real>)
    requires series == [] || MaxAmount(series) != 0.0
    ensures |w| == |series|
    ensures series != [] ==> PercentagesOf(w, series, MaxAmount(series))
    ensures series != [] ==> exists i :: 0 <= i < |w| && series[i].amount == MaxAmount(series) && w[i] == 100.0
    ensures AllPositive(series) ==> forall i :: 0 <= i < |w| ==> 0.0 < w[i] <= 100.0
  {
    if series == [] then []
    else
      var w := Percents(series, MaxAmount(series));
      PercentsOfMax(series, w, MaxAmount(series));
      w
  }

  /** `series.map(t => (t.amount / m) * 100)`. */
  function Percents(series: seq<Transaction>, m: real): (w: seq<real>)
    requires m != 0.0
    ensures PercentagesOf(w, series, m)
  {
    if series == [] then []
    else
      var a := series[0].amount;
      PercentTimes(a, m);
      assert forall i :: 1 <= i < |series| ==> series[i] == series[1..][i - 1];
      [a / m * 100.0] + Percents(series[1..], m)
  }

  /** Percentages of the largest amount `m`: the entry of an amount equal to `m` is 100, and
      when all amounts are positive every entry lies in (0, 100]. */
  lemma PercentsOfMax(series: seq<Transaction>, w: seq<real>, m: real)
    requires m != 0.0 && (exists j :: 0 <= j < |series| && series[j].amount == m)
    requires forall i :: 0 <= i < |series| ==> series[i].amount <= m
    requires PercentagesOf(w, series, m)
    ensures exists i :: 0 <= i < |w| && series[i].amount == m && w[i] == 100.0
    ensures AllPositive(series) ==> forall i :: 0 <= i < |w| ==> 0.0 < w[i] <= 100.0
  {
    var j :| 0 <= j < |series| && series[j].amount == m;
    FromPercent(w[j], series[j].amount, m);
    forall i | 0 <= i < |w| && AllPositive(series) ensures 0.0 < w[i] <= 100.0 {
      FromPercent(w[i], series[i].amount, m);
    }
  }

  /** A value that, scaled back by `m`, is `a` times 100 is 100 when `a` is `m`, and lies in (0, 100]
      when `0 < a <= m`. */
  lemma FromPercent(v: real, a: real, m: real)
    requires m != 0.0 && PercentOfScale(v, a, m)
    ensures a == m ==> v == 100.0
    ensures 0.0 < a <= m ==> 0.0 < v <= 100.0
  {
  }
}
