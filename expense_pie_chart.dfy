/** The category breakdown pie: every expense summed per category, one slice
    per category in the order the categories first appear. */
module ExpensePieChart {
  import opened Types
  import opened Grouping
  import opened Selection
  import Sorting
  import Sums

  /** The transactions the pie counts: every expense. */
  const AllExpenses := Selector(ExpenseOnly, None, None)

  method CategoryBreakdown(txs: seq<Transaction>) returns (data: seq<Entry>)
    ensures data == GroupTotals(Pairs(txs, AllExpenses, ByCategory))
    ensures Sorting.DistinctKeys(data, KeyOf)
    ensures forall c :: Find(data, c) >= 0 <==> Occurs(txs, AllExpenses, ByCategory, c)
    ensures forall c :: Lookup(data, c) == SumWhere(txs, Selector(ExpenseOnly, None, Some(c)))
    ensures Sums.SumOf(data, TotalOf) == SumWhere(txs, AllExpenses)
  {
    data := [];
    for i := 0 to |txs|
      invariant data == GroupedUpTo(txs, i, AllExpenses, ByCategory)
    {
      var tx := txs[i];
      if tx.txType != Expense {
        continue;
      }
      data := Upsert(data, tx.category, tx.amount);
    }
    GroupedUpToPairs(txs, |txs|, AllExpenses, ByCategory);
    assert txs[..|txs|] == txs;
    GroupedSelection(txs, AllExpenses, ByCategory);
  }

  /** Slices come in the order their categories first appear among the
      expenses: any expense in a later slice's category is preceded by one in
      an earlier slice's category. */
  lemma SliceOrder(txs: seq<Transaction>, i: int, j: int, m: int)
    requires 0 <= i < j < |GroupTotals(Pairs(txs, AllExpenses, ByCategory))|
    requires 0 <= m < |txs| && txs[m].txType == Expense
    requires txs[m].category == GroupTotals(Pairs(txs, AllExpenses, ByCategory))[j].key
    ensures exists n :: 0 <= n < m && txs[n].txType == Expense &&
                        txs[n].category == GroupTotals(Pairs(txs, AllExpenses, ByCategory))[i].key
  {
    GroupedSelectionOrder(txs, AllExpenses, ByCategory, i, j, m);
  }
}
