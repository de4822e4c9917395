/** The income/expense line chart: one row per `YYYY-MM` that has any
    transaction, holding that month's income and the rest as expense, sorted
    by month. */
module IncomeExpenseLineChart {
  import opened Types
  import opened Strings
  import opened Sums
  import opened Sorting
  import opened Selection
  import Lists

  datatype MonthRow = MonthRow(month: string, income: real, expense: real)

  function MonthKey(r: MonthRow): string { r.month }
  function IncomeOf(r: MonthRow): real { r.income }
  function ExpenseOf(r: MonthRow): real { r.expense }

  /** The position of the row for month `ym`, or -1 when there is none. */
  function FindRow(rows: seq<MonthRow>, ym: string): (i: int)
    ensures -1 <= i < |rows|
    ensures i >= 0 ==> rows[i].month == ym
    ensures i < 0 <==> forall j :: 0 <= j < |rows| ==> rows[j].month != ym
  {
    if rows == [] then -1
    else if rows[|rows| - 1].month == ym then |rows| - 1
    else FindRow(rows[..|rows| - 1], ym)
  }

  /** One loop step: fetch the month's row or start a fresh one, add the
      amount to income or expense, and store the row back. */
  function AddTo(rows: seq<MonthRow>, tx: Transaction): seq<MonthRow> {
    var ym := MonthOf(tx.date);
    var i := FindRow(rows, ym);
    if i >= 0 then rows[i := Bump(rows[i], tx)] else rows + [Bump(MonthRow(ym, 0.0, 0.0), tx)]
  }

  /** Add the amount to the row's income or, for any other type, its expense. */
  function Bump(row: MonthRow, tx: Transaction): MonthRow {
    if tx.txType == Income then row.(income := row.income + tx.amount)
    else row.(expense := row.expense + tx.amount)
  }

  /** The map's rows, in insertion order, after the whole loop. */
  function MonthRows(txs: seq<Transaction>): seq<MonthRow> {
    if txs == [] then [] else AddTo(MonthRows(txs[..|txs| - 1]), txs[|txs| - 1])
  }

  /** The chart's rows. */
  function Rows(txs: seq<Transaction>): seq<MonthRow> {
    SortBy(MonthRows(txs), MonthKey, Ascending)
  }

  lemma MonthRowsSnoc(txs: seq<Transaction>, i: int)
    requires 0 <= i < |txs|
    ensures MonthRows(txs[..i + 1]) == AddTo(MonthRows(txs[..i]), txs[i])
  {
    assert txs[..i + 1][..i] == txs[..i];
  }

  /** The body of the loop, on the rows built so far. */
  method AddRow(rows: seq<MonthRow>, tx: Transaction) returns (rows': seq<MonthRow>)
    ensures rows' == AddTo(rows, tx)
  {
    var ym := MonthOf(tx.date);
    var at := FindRow(rows, ym);
    var row := if at >= 0 then rows[at] else MonthRow(ym, 0.0, 0.0);
    if tx.txType == Income {
      row := row.(income := row.income + tx.amount);
    } else {
      row := row.(expense := row.expense + tx.amount);
    }
    rows' := if at >= 0 then rows[at := row] else rows + [row];
  }

  method ChartRows(txs: seq<Transaction>) returns (data: seq<MonthRow>)
    ensures data == Rows(txs)
  {
    var rows := [];
    for i := 0 to |txs|
      invariant rows == MonthRows(txs[..i])
    {
      MonthRowsSnoc(txs, i);
      rows := AddRow(rows, txs[i]);
    }
    assert txs[..|txs|] == txs;
    data := SortBy(rows, MonthKey, Ascending);
  }

  /** Some transaction is dated in month `ym`. */
  predicate HasMonth(txs: seq<Transaction>, ym: string) {
    exists n :: 0 <= n < |txs| && MonthOf(txs[n].date) == ym
  }

  /** One row per month with a transaction and none for other months. */
  ghost predicate RowsCover(rows: seq<MonthRow>, txs: seq<Transaction>) {
    && DistinctKeys(rows, MonthKey)
    && (forall ym :: FindRow(rows, ym) >= 0 <==> HasMonth(txs, ym))
  }

  /** Each row holds its month's income and non-income sums. */
  ghost predicate RowsTotal(rows: seq<MonthRow>, txs: seq<Transaction>) {
    forall i :: 0 <= i < |rows| ==>
      && rows[i].income == SumWhere(txs, Selector(IncomeOnly, Some(rows[i].month), None))
      && rows[i].expense == SumWhere(txs, Selector(NotIncome, Some(rows[i].month), None))
  }

  lemma {:induction false} MonthRowsCover(txs: seq<Transaction>)
    ensures RowsCover(MonthRows(txs), txs)
    decreases |txs|
  {
    if txs != [] {
      var init := txs[..|txs| - 1];
      MonthRowsCover(init);
      AddToCovers(MonthRows(init), init, txs[|txs| - 1]);
      Lists.FrontLast(txs);
    }
  }

  lemma {:induction false} MonthRowsTotal(txs: seq<Transaction>)
    ensures RowsTotal(MonthRows(txs), txs)
    decreases |txs|
  {
    if txs != [] {
      var init := txs[..|txs| - 1];
      MonthRowsTotal(init);
      MonthRowsCover(init);
      AddToTotals(MonthRows(init), init, txs[|txs| - 1]);
      Lists.FrontLast(txs);
    }
  }

  lemma HasMonthSnoc(txs: seq<Transaction>, tx: Transaction, m: string)
    ensures HasMonth(txs + [tx], m) <==> HasMonth(txs, m) || m == MonthOf(tx.date)
  {
    var txs' := txs + [tx];
    if HasMonth(txs', m) && m != MonthOf(tx.date) {
      var n :| 0 <= n < |txs'| && MonthOf(txs'[n].date) == m;
      assert txs[n] == txs'[n];
    }
    if HasMonth(txs, m) {
      var n :| 0 <= n < |txs| && MonthOf(txs[n].date) == m;
      assert txs'[n] == txs[n];
    }
    if m == MonthOf(tx.date) {
      assert txs'[|txs|] == tx;
    }
  }

  lemma AddToCovers(rows: seq<MonthRow>, txs: seq<Transaction>, tx: Transaction)
    requires RowsCover(rows, txs)
    ensures RowsCover(AddTo(rows, tx), txs + [tx])
  {
    var rows' := AddTo(rows, tx);
    var ym := MonthOf(tx.date);
    var at := FindRow(rows, ym);
    forall m ensures HasMonth(txs + [tx], m) <==> HasMonth(txs, m) || m == ym {
      HasMonthSnoc(txs, tx, m);
    }
    if at >= 0 {
      forall m ensures FindRow(rows', m) == FindRow(rows, m) {
        FindRowAfterUpdate(rows, at, rows'[at], m);
      }
    } else {
      assert rows'[..|rows|] == rows;
      forall m ensures FindRow(rows', m) == (if m == ym then |rows| else FindRow(rows, m)) {
      }
    }
  }

  lemma AddToTotals(rows: seq<MonthRow>, txs: seq<Transaction>, tx: Transaction)
    requires RowsCover(rows, txs) && RowsTotal(rows, txs)
    ensures RowsTotal(AddTo(rows, tx), txs + [tx])
  {
    var rows' := AddTo(rows, tx);
    var ym := MonthOf(tx.date);
    var at := FindRow(rows, ym);
    forall i | 0 <= i < |rows'|
      ensures rows'[i].income == SumWhere(txs + [tx], Selector(IncomeOnly, Some(rows'[i].month), None))
      ensures rows'[i].expense == SumWhere(txs + [tx], Selector(NotIncome, Some(rows'[i].month), None))
    {
      SumWhereSnoc(txs, tx, Selector(IncomeOnly, Some(rows'[i].month), None));
      SumWhereSnoc(txs, tx, Selector(NotIncome, Some(rows'[i].month), None));
      if i == |rows| {
        SumWhereIgnoresUnselected(txs, Selector(IncomeOnly, Some(ym), None));
        SumWhereIgnoresUnselected(txs, Selector(NotIncome, Some(ym), None));
      }
    }
  }

  lemma {:induction false} FindRowAfterUpdate(rows: seq<MonthRow>, i: int, row: MonthRow, m: string)
    requires DistinctKeys(rows, MonthKey) && 0 <= i < |rows| && row.month == rows[i].month
    ensures FindRow(rows[i := row], m) == FindRow(rows, m)
    decreases |rows|
  {
    var rows' := rows[i := row];
    if i < |rows| - 1 {
      assert rows'[..|rows'| - 1] == rows[..|rows| - 1][i := row];
      FindRowAfterUpdate(rows[..|rows| - 1], i, row, m);
    } else {
      assert rows'[..|rows'| - 1] == rows[..|rows| - 1];
    }
  }

  /** One loop step adds the amount to the income line or to the expense line. */
  lemma AddToSums(rows: seq<MonthRow>, tx: Transaction)
    ensures SumOf(AddTo(rows, tx), IncomeOf) == SumOf(rows, IncomeOf) + (if tx.txType == Income then tx.amount else 0.0)
    ensures SumOf(AddTo(rows, tx), ExpenseOf) == SumOf(rows, ExpenseOf) + (if tx.txType == Income then 0.0 else tx.amount)
  {
    var i := FindRow(rows, MonthOf(tx.date));
    if i >= 0 {
      SumOfUpdate(rows, i, Bump(rows[i], tx), IncomeOf);
      SumOfUpdate(rows, i, Bump(rows[i], tx), ExpenseOf);
    } else {
      SumOfSnoc(rows, Bump(MonthRow(MonthOf(tx.date), 0.0, 0.0), tx), IncomeOf);
      SumOfSnoc(rows, Bump(MonthRow(MonthOf(tx.date), 0.0, 0.0), tx), ExpenseOf);
    }
  }

  /** The income line adds up to all income and the expense line to
      everything else. */
  lemma {:induction false} MonthRowsSums(txs: seq<Transaction>)
    ensures SumOf(MonthRows(txs), IncomeOf) == SumWhere(txs, Selector(IncomeOnly, None, None))
    ensures SumOf(MonthRows(txs), ExpenseOf) == SumWhere(txs, Selector(NotIncome, None, None))
    decreases |txs|
  {
    if txs != [] {
      MonthRowsSums(txs[..|txs| - 1]);
      AddToSums(MonthRows(txs[..|txs| - 1]), txs[|txs| - 1]);
    }
  }

  /** The chart's months strictly increase, and its two lines add up to the
      all-time income and the all-time rest. */
  lemma RowsOrderAndSums(txs: seq<Transaction>)
    ensures var data := Rows(txs);
      && (forall i, j :: 0 <= i < j < |data| ==> LexLess(data[i].month, data[j].month))
      && SumOf(data, IncomeOf) == SumWhere(txs, Selector(IncomeOnly, None, None))
      && SumOf(data, ExpenseOf) == SumWhere(txs, Selector(NotIncome, None, None))
  {
    var rows := MonthRows(txs);
    MonthRowsCover(txs);
    MonthRowsSums(txs);
    SortBySorted(rows, MonthKey, Ascending);
    SortByDistinct(rows, MonthKey, Ascending);
    StrictlyAscending(Rows(txs), MonthKey);
    SumOfSortBy(rows, MonthKey, Ascending, IncomeOf);
    SumOfSortBy(rows, MonthKey, Ascending, ExpenseOf);
  }

  /** Reordering the rows keeps each row's sums. */
  lemma ReorderedTotal(rows: seq<MonthRow>, data: seq<MonthRow>, txs: seq<Transaction>)
    requires multiset(data) == multiset(rows) && RowsTotal(rows, txs)
    ensures RowsTotal(data, txs)
  {
    forall i | 0 <= i < |data|
      ensures data[i].income == SumWhere(txs, Selector(IncomeOnly, Some(data[i].month), None))
      ensures data[i].expense == SumWhere(txs, Selector(NotIncome, Some(data[i].month), None))
    {
      assert data[i] in multiset(rows);
      var x :| 0 <= x < |rows| && rows[x] == data[i];
    }
  }

  /** Reordering the rows keeps the set of months that have one. */
  lemma ReorderedMonths(rows: seq<MonthRow>, data: seq<MonthRow>)
    requires multiset(data) == multiset(rows)
    ensures forall ym :: FindRow(rows, ym) >= 0 <==> exists i :: 0 <= i < |data| && data[i].month == ym
  {
    forall ym | FindRow(rows, ym) >= 0
      ensures exists i :: 0 <= i < |data| && data[i].month == ym
    {
      var x := FindRow(rows, ym);
      assert rows[x] in multiset(data);
      var i :| 0 <= i < |data| && data[i] == rows[x];
    }
    forall ym | exists i :: 0 <= i < |data| && data[i].month == ym
      ensures FindRow(rows, ym) >= 0
    {
      var i :| 0 <= i < |data| && data[i].month == ym;
      assert data[i] in multiset(rows);
      var x :| 0 <= x < |rows| && rows[x] == data[i];
    }
  }

  /** The chart has a row for exactly the months with a transaction, each
      holding that month's income and everything else as expense. */
  lemma RowsContents(txs: seq<Transaction>)
    ensures var data := Rows(txs);
      && (forall ym :: HasMonth(txs, ym) <==> exists i :: 0 <= i < |data| && data[i].month == ym)
      && (forall i :: 0 <= i < |data| ==>
            && data[i].income == SumWhere(txs, Selector(IncomeOnly, Some(data[i].month), None))
            && data[i].expense == SumWhere(txs, Selector(NotIncome, Some(data[i].month), None)))
  {
    var rows := MonthRows(txs);
    MonthRowsCover(txs);
    MonthRowsTotal(txs);
    ReorderedMonths(rows, Rows(txs));
    ReorderedTotal(rows, Rows(txs), txs);
  }
}
