/** The dashboard cards: all-time income, expense and balance, the same sums
    for the current and the previous month, and the month-over-month change
    shown under each card. */
module DashboardCards {
  import opened Types
  import opened Calendar
  import opened Selection

  datatype Cards = Cards(
    income: real,
    expense: real,
    balance: real,
    monthIncome: real,
    monthExpense: real,
    lastIncome: real,
    lastExpense: real)

  /** One pass over the transactions. Everything that is not income counts
      as expense; `ym` and `last` are the `YYYY-MM` keys of the current and
      the previous month. */
  method ComputeCards(txs: seq<Transaction>, ym: string, last: string) returns (c: Cards)
    ensures c.income == SumWhere(txs, Selector(IncomeOnly, None, None))
    ensures c.expense == SumWhere(txs, Selector(NotIncome, None, None))
    ensures c.balance == c.income - c.expense
    ensures c.monthIncome == SumWhere(txs, Selector(IncomeOnly, Some(ym), None))
    ensures c.monthExpense == SumWhere(txs, Selector(NotIncome, Some(ym), None))
    ensures c.lastIncome == SumWhere(txs, Selector(IncomeOnly, Some(last), None))
    ensures c.lastExpense == SumWhere(txs, Selector(NotIncome, Some(last), None))
  {
    var income, expense, monthIncome, monthExpense, lastIncome, lastExpense := 0.0, 0.0, 0.0, 0.0, 0.0, 0.0;
    for i := 0 to |txs|
      invariant income == SumWhere(txs[..i], Selector(IncomeOnly, None, None))
      invariant expense == SumWhere(txs[..i], Selector(NotIncome, None, None))
      invariant monthIncome == SumWhere(txs[..i], Selector(IncomeOnly, Some(ym), None))
      invariant monthExpense == SumWhere(txs[..i], Selector(NotIncome, Some(ym), None))
      invariant lastIncome == SumWhere(txs[..i], Selector(IncomeOnly, Some(last), None))
      invariant lastExpense == SumWhere(txs[..i], Selector(NotIncome, Some(last), None))
    {
      var tx := txs[i];
      var amt := tx.amount;
      assert txs[..i + 1][..i] == txs[..i];
      if tx.txType == Income {
        income := income + amt;
      } else {
        expense := expense + amt;
      }
      var ymTx := MonthOf(tx.date);
      if ymTx == ym {
        if tx.txType == Income {
          monthIncome := monthIncome + amt;
        } else {
          monthExpense := monthExpense + amt;
        }
      }
      if ymTx == last {
        if tx.txType == Income {
          lastIncome := lastIncome + amt;
        } else {
          lastExpense := lastExpense + amt;
        }
      }
    }
    assert txs[..|txs|] == txs;
    c := Cards(income, expense, income - expense, monthIncome, monthExpense, lastIncome, lastExpense);
  }

  /** The income and expense cards split the sum of all amounts between them,
      and with positive amounts a month's figure never exceeds the all-time one. */
  lemma CardsAddUp(txs: seq<Transaction>, ym: string)
    ensures SumWhere(txs, Selector(IncomeOnly, None, None)) + SumWhere(txs, Selector(NotIncome, None, None))
         == SumWhere(txs, Selector(AnyType, None, None))
    ensures AllPositive(txs) ==>
      && 0.0 <= SumWhere(txs, Selector(IncomeOnly, Some(ym), None)) <= SumWhere(txs, Selector(IncomeOnly, None, None))
      && 0.0 <= SumWhere(txs, Selector(NotIncome, Some(ym), None)) <= SumWhere(txs, Selector(NotIncome, None, None))
  {
    IncomePlusRestIsAll(txs, None, None);
    if AllPositive(txs) {
      MonthSumAtMostTotal(txs, IncomeOnly, ym);
      MonthSumAtMostTotal(txs, NotIncome, ym);
    }
  }

  /** `Math.round`: the nearest integer, halves rounded up. */
  function Round(x: real): (r: int)
    ensures x - 0.5 < r as real <= x + 0.5
  {
    (x + 0.5).Floor
  }

  /** The month-over-month change in percent. With nothing last month it is
      100 when there is something this month and 0 otherwise. */
  function Delta(curr: real, prev: real): (r: int)
    ensures prev == 0.0 ==> r == (if curr > 0.0 then 100 else 0)
    ensures prev != 0.0 ==> (curr - prev) / prev * 100.0 - 0.5 < r as real <= (curr - prev) / prev * 100.0 + 0.5
  {
    if prev == 0.0 then (if curr > 0.0 then 100 else 0) else Round((curr - prev) / prev * 100.0)
  }

  /** No change is 0%, doubling is +100% and dropping to nothing is -100%;
      after a positive month, growth never shows as a fall nor a fall as growth. */
  lemma DeltaFacts(curr: real, prev: real)
    ensures prev != 0.0 ==> Delta(prev, prev) == 0 && Delta(2.0 * prev, prev) == 100 && Delta(0.0, prev) == -100
    ensures prev > 0.0 && curr >= prev ==> Delta(curr, prev) >= 0
    ensures prev > 0.0 && curr <= prev ==> Delta(curr, prev) <= 0
  {
  }

  // ---- the key of the previous month ----

  /** The `YYYY-MM` of the month before the month of `today`. */
  function LastMonth(today: Date): string
    requires ValidDate(today) && 1 <= today.year < 10000
  {
    YearMonth(PrevMonthStart(today))
  }

  /** `LastMonth` is the key of every date in the previous calendar month, and
      never the key of the current one. */
  lemma LastMonthIsPreviousMonth(today: Date, d: Date)
    requires ValidDate(today) && 1 <= today.year < 10000
    requires ValidDate(d)
    ensures d.year * 12 + d.month + 1 == today.year * 12 + today.month ==> YearMonth(d) == LastMonth(today)
    ensures LastMonth(today) != YearMonth(today)
  {
    var p := PrevMonthStart(today);
    YearMonthDecides(p, today);
    if d.year * 12 + d.month + 1 == today.year * 12 + today.month {
      YearMonthDecides(d, p);
    }
  }

  /** `last` as the dashboard computes it: local midnight on the first of the
      previous month, then written out in UTC. `offsetMinutes` is how far
      local time is ahead of UTC. East of UTC that midnight is still the
      previous day in UTC, the last day of the month before. */
  function LastMonthAsWritten(localToday: Date, offsetMinutes: int): string
    requires ValidDate(localToday) && 1 <= localToday.year < 10000
    requires -1440 < offsetMinutes < 1440
  {
    var first := PrevMonthStart(localToday);
    YearMonth(if offsetMinutes > 0 then PrevDay(first) else first)
  }

  /** At UTC or west of it the key is the previous month's; east of UTC it is
      the key of the month two before. */
  lemma LastMonthAsWrittenByZone(today: Date, offsetMinutes: int)
    requires ValidDate(today) && 1 <= today.year < 10000
    requires -1440 < offsetMinutes < 1440
    ensures offsetMinutes <= 0 ==> LastMonthAsWritten(today, offsetMinutes) == LastMonth(today)
    ensures offsetMinutes > 0 ==>
      && LastMonthAsWritten(today, offsetMinutes) != LastMonth(today)
      && LastMonthAsWritten(today, offsetMinutes) == YearMonth(PrevMonthStart(PrevMonthStart(today)))
  {
    var first := PrevMonthStart(today);
    if offsetMinutes > 0 {
      var back := PrevDay(first);
      YearMonthDecides(back, first);
      YearMonthDecides(back, PrevMonthStart(first));
    }
  }

  /** On 15 June 2024 three hours east of UTC the dashboard compares June with
      April instead of May. */
  lemma LastMonthAsWrittenExample()
    ensures LastMonthAsWritten(Date(2024, 6, 15), 180) == YearMonth(Date(2024, 4, 30))
    ensures LastMonth(Date(2024, 6, 15)) == YearMonth(Date(2024, 5, 1))
    ensures LastMonthAsWritten(Date(2024, 6, 15), 180) != LastMonth(Date(2024, 6, 15))
  {
    LastMonthAsWrittenByZone(Date(2024, 6, 15), 180);
  }
}
