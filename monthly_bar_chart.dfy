/** The monthly expense bars: every expense summed per `YYYY-MM`, one bar per
    month, sorted by month. */
module MonthlyBarChart {
  import opened Types
  import opened Strings
  import opened Grouping
  import opened Selection
  import opened Sorting
  import Sums

  const AllExpenses := Selector(ExpenseOnly, None, None)

  /** The bars, as the sort leaves them. */
  function Bars(txs: seq<Transaction>): seq<Entry> {
    SortBy(GroupTotals(Pairs(txs, AllExpenses, ByMonth)), KeyOf, Ascending)
  }

  /** The loop builds the month map; the bars are its entries sorted by month
      (the comparator only ever sees distinct months). */
  method MonthlyExpenses(txs: seq<Transaction>) returns (data: seq<Entry>)
    ensures data == Bars(txs)
  {
    var byMonth := [];
    for i := 0 to |txs|
      invariant byMonth == GroupedUpTo(txs, i, AllExpenses, ByMonth)
    {
      var tx := txs[i];
      if tx.txType != Expense {
        continue;
      }
      var ym := MonthOf(tx.date);
      byMonth := Upsert(byMonth, ym, tx.amount);
    }
    GroupedUpToPairs(txs, |txs|, AllExpenses, ByMonth);
    assert txs[..|txs|] == txs;
    data := SortBy(byMonth, KeyOf, Ascending);
  }

  /** The months strictly increase along the bars, and the bars add up to
      all expenses. */
  lemma BarsOrderAndSum(txs: seq<Transaction>)
    ensures var data := Bars(txs);
      && (forall i, j :: 0 <= i < j < |data| ==> LexLess(data[i].key, data[j].key))
      && Sums.SumOf(data, TotalOf) == SumWhere(txs, AllExpenses)
  {
    var es := GroupTotals(Pairs(txs, AllExpenses, ByMonth));
    GroupedSelection(txs, AllExpenses, ByMonth);
    SortBySorted(es, KeyOf, Ascending);
    SortByDistinct(es, KeyOf, Ascending);
    StrictlyAscending(Bars(txs), KeyOf);
    SumOfSortBy(es, KeyOf, Ascending, TotalOf);
  }

  /** There is a bar for exactly the months with an expense, each holding
      that month's expenses. */
  lemma BarsContents(txs: seq<Transaction>)
    ensures var data := Bars(txs);
      && (forall i :: 0 <= i < |data| ==> data[i].total == SumWhere(txs, Selector(ExpenseOnly, Some(data[i].key), None)))
      && (forall ym :: Occurs(txs, AllExpenses, ByMonth, ym) <==> exists i :: 0 <= i < |data| && data[i].key == ym)
  {
    var es := GroupTotals(Pairs(txs, AllExpenses, ByMonth));
    GroupedSelection(txs, AllExpenses, ByMonth);
    ReorderedTotals(es, Bars(txs));
    ReorderedKeys(es, Bars(txs));
  }
}
