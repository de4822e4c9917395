/** Sums of transaction amounts restricted by type, month and category: the
    quantities the dashboard cards, the budget bars and the charts accumulate. */
module Selection {
  import opened Types
  import opened Grouping

  /** How a sum treats the transaction type. `NotIncome` is the dashboard's and
      the line chart's "anything else counts as expense"; `ExpenseOnly` is the
      budget bars' and the other charts' `type === 'expense'`. */
  datatype TypeTest = AnyType | IncomeOnly | NotIncome | ExpenseOnly

  datatype Selector = Selector(kind: TypeTest, month: Option<string>, category: Option<string>)

  predicate TypePasses(kind: TypeTest, t: string) {
    match kind
    case AnyType => true
    case IncomeOnly => t == Income
    case NotIncome => t != Income
    case ExpenseOnly => t == Expense
  }

  predicate Selects(sel: Selector, t: Transaction) {
    && TypePasses(sel.kind, t.txType)
    && (sel.month.Some? ==> MonthOf(t.date) == sel.month.value)
    && (sel.category.Some? ==> t.category == sel.category.value)
  }

  /** The sum of the amounts of the selected transactions. */
  function SumWhere(txs: seq<Transaction>, sel: Selector): real {
    if txs == [] then 0.0
    else
      var t := txs[|txs| - 1];
      SumWhere(txs[..|txs| - 1], sel) + (if Selects(sel, t) then t.amount else 0.0)
  }

  lemma SumWhereSnoc(txs: seq<Transaction>, t: Transaction, sel: Selector)
    ensures SumWhere(txs + [t], sel) == SumWhere(txs, sel) + (if Selects(sel, t) then t.amount else 0.0)
  {
    assert (txs + [t])[..|txs|] == txs;
  }

  predicate AllPositive(txs: seq<Transaction>) {
    forall i :: 0 <= i < |txs| ==> txs[i].amount > 0.0
  }

  /** Every transaction is counted in exactly one of the income and non-income sums. */
  lemma {:induction false} IncomePlusRestIsAll(txs: seq<Transaction>, month: Option<string>, category: Option<string>)
    ensures SumWhere(txs, Selector(IncomeOnly, month, category)) + SumWhere(txs, Selector(NotIncome, month, category))
         == SumWhere(txs, Selector(AnyType, month, category))
    decreases |txs|
  {
    if txs != [] {
      IncomePlusRestIsAll(txs[..|txs| - 1], month, category);
    }
  }

  /** With positive amounts, a sum over fewer transactions is no larger. */
  lemma {:induction false} NarrowerSumIsSmaller(txs: seq<Transaction>, narrow: Selector, wide: Selector)
    requires AllPositive(txs)
    requires forall i :: 0 <= i < |txs| && Selects(narrow, txs[i]) ==> Selects(wide, txs[i])
    ensures 0.0 <= SumWhere(txs, narrow) <= SumWhere(txs, wide)
    decreases |txs|
  {
    if txs != [] {
      NarrowerSumIsSmaller(txs[..|txs| - 1], narrow, wide);
    }
  }

  /** A sum restricted to one month is at most the unrestricted sum. */
  lemma MonthSumAtMostTotal(txs: seq<Transaction>, kind: TypeTest, ym: string)
    requires AllPositive(txs)
    ensures 0.0 <= SumWhere(txs, Selector(kind, Some(ym), None)) <= SumWhere(txs, Selector(kind, None, None))
  {
    NarrowerSumIsSmaller(txs, Selector(kind, Some(ym), None), Selector(kind, None, None));
  }

  /** A transaction the selector rejects contributes nothing. */
  lemma {:induction false} SumWhereIgnoresUnselected(txs: seq<Transaction>, sel: Selector)
    requires forall i :: 0 <= i < |txs| ==> !Selects(sel, txs[i])
    ensures SumWhere(txs, sel) == 0.0
    decreases |txs|
  {
    if txs != [] {
      SumWhereIgnoresUnselected(txs[..|txs| - 1], sel);
    }
  }

  /** The key a grouping loop files a transaction under. */
  datatype KeyBy = ByCategory | ByMonth

  function KeyFor(g: KeyBy, t: Transaction): string {
    match g
    case ByCategory => t.category
    case ByMonth => MonthOf(t.date)
  }

  /** The selector `sel` narrowed to the transactions filed under key `k`. */
  function Narrow(sel: Selector, g: KeyBy, k: string): Selector {
    match g
    case ByCategory => sel.(category := Some(k))
    case ByMonth => sel.(month := Some(k))
  }

  /** The grouping key is not already fixed by the selector. */
  predicate Groupable(sel: Selector, g: KeyBy) {
    match g
    case ByCategory => sel.category.None?
    case ByMonth => sel.month.None?
  }

  /** The (key, amount) pair of each selected transaction, in order: what a
      loop that skips the unselected transactions adds to its map. */
  function Pairs(txs: seq<Transaction>, sel: Selector, g: KeyBy): (ps: seq<(string, real)>)
    ensures |ps| <= |txs|
  {
    if txs == [] then []
    else
      var t := txs[|txs| - 1];
      Pairs(txs[..|txs| - 1], sel, g) + (if Selects(sel, t) then [(KeyFor(g, t), t.amount)] else [])
  }

  /** One more transaction adds its pair when it is selected. */
  lemma PairsSnoc(txs: seq<Transaction>, t: Transaction, sel: Selector, g: KeyBy)
    ensures Pairs(txs + [t], sel, g) == Pairs(txs, sel, g) + (if Selects(sel, t) then [(KeyFor(g, t), t.amount)] else [])
  {
    assert (txs + [t])[..|txs|] == txs;
  }

  /** The entries a grouping loop holds after its first `n` transactions:
      each selected one is added to its key's entry, the others are skipped. */
  function GroupedUpTo(txs: seq<Transaction>, n: nat, sel: Selector, g: KeyBy): seq<Entry>
    requires n <= |txs|
  {
    if n == 0 then []
    else
      var es := GroupedUpTo(txs, n - 1, sel, g);
      var t := txs[n - 1];
      if Selects(sel, t) then Upsert(es, KeyFor(g, t), t.amount) else es
  }

  /** The loop's entries are the grouped pairs of the transactions it has seen. */
  lemma {:induction false} GroupedUpToPairs(txs: seq<Transaction>, n: nat, sel: Selector, g: KeyBy)
    requires n <= |txs|
    ensures GroupedUpTo(txs, n, sel, g) == GroupTotals(Pairs(txs[..n], sel, g))
  {
    if n > 0 {
      GroupedUpToPairs(txs, n - 1, sel, g);
      var t := txs[n - 1];
      assert txs[..n] == txs[..n - 1] + [t];
      PairsSnoc(txs[..n - 1], t, sel, g);
      if Selects(sel, t) {
        GroupTotalsSnoc(Pairs(txs[..n - 1], sel, g), KeyFor(g, t), t.amount);
      } else {
        assert Pairs(txs[..n], sel, g) == Pairs(txs[..n - 1], sel, g);
      }
    }
  }

  /** The amounts paired with key `k` add up to the sum of the selected
      transactions filed under `k`. */
  lemma {:induction false} PairsSumKey(txs: seq<Transaction>, sel: Selector, g: KeyBy, k: string)
    requires Groupable(sel, g)
    ensures SumKey(Pairs(txs, sel, g), k) == SumWhere(txs, Narrow(sel, g, k))
    decreases |txs|
  {
    if txs != [] {
      var ps := Pairs(txs, sel, g);
      var init := Pairs(txs[..|txs| - 1], sel, g);
      PairsSumKey(txs[..|txs| - 1], sel, g, k);
      if Selects(sel, txs[|txs| - 1]) {
        assert ps[..|ps| - 1] == init;
      } else {
        assert ps == init;
      }
    }
  }

  /** All the paired amounts add up to the sum of the selected transactions. */
  lemma {:induction false} PairsSum(txs: seq<Transaction>, sel: Selector, g: KeyBy)
    ensures SumPairs(Pairs(txs, sel, g)) == SumWhere(txs, sel)
    decreases |txs|
  {
    if txs != [] {
      var ps := Pairs(txs, sel, g);
      var init := Pairs(txs[..|txs| - 1], sel, g);
      PairsSum(txs[..|txs| - 1], sel, g);
      if Selects(sel, txs[|txs| - 1]) {
        assert ps[..|ps| - 1] == init;
      } else {
        assert ps == init;
      }
    }
  }

  /** Some selected transaction is filed under `k`. */
  predicate Occurs(txs: seq<Transaction>, sel: Selector, g: KeyBy, k: string) {
    exists i :: 0 <= i < |txs| && Selects(sel, txs[i]) && KeyFor(g, txs[i]) == k
  }

  /** A key is paired exactly when some selected transaction is filed under it. */
  lemma {:induction false} PairsKeys(txs: seq<Transaction>, sel: Selector, g: KeyBy, k: string)
    ensures HasPair(Pairs(txs, sel, g), k) <==> Occurs(txs, sel, g, k)
    decreases |txs|
  {
    if txs != [] {
      var ps := Pairs(txs, sel, g);
      var init := txs[..|txs| - 1];
      var t := txs[|txs| - 1];
      PairsKeys(init, sel, g, k);
      if Selects(sel, t) {
        assert ps[..|ps| - 1] == Pairs(init, sel, g);
        HasPairSnoc(ps, k);
      } else {
        assert ps == Pairs(init, sel, g);
      }
      if Occurs(txs, sel, g, k) && !(Selects(sel, t) && KeyFor(g, t) == k) {
        var i :| 0 <= i < |txs| && Selects(sel, txs[i]) && KeyFor(g, txs[i]) == k;
        assert init[i] == txs[i];
      }
      if Occurs(init, sel, g, k) {
        var i :| 0 <= i < |init| && Selects(sel, init[i]) && KeyFor(g, init[i]) == k;
        assert txs[i] == init[i];
      }
    }
  }

  /** The grouped totals of the selected transactions: one entry per key some
      selected transaction is filed under, holding the sum of those
      transactions, and the entries add up to the sum of all selected ones. */
  lemma GroupedSelection(txs: seq<Transaction>, sel: Selector, g: KeyBy)
    requires Groupable(sel, g)
    ensures var es := GroupTotals(Pairs(txs, sel, g));
      && Sorting.DistinctKeys(es, KeyOf)
      && (forall k :: Find(es, k) >= 0 <==> Occurs(txs, sel, g, k))
      && (forall k :: Lookup(es, k) == SumWhere(txs, Narrow(sel, g, k)))
      && Sums.SumOf(es, TotalOf) == SumWhere(txs, sel)
  {
    var ps := Pairs(txs, sel, g);
    GroupTotalsEntries(ps);
    GroupTotalsSum(ps);
    PairsSum(txs, sel, g);
    forall k ensures HasPair(ps, k) <==> Occurs(txs, sel, g, k) {
      PairsKeys(txs, sel, g, k);
    }
    forall k ensures SumKey(ps, k) == SumWhere(txs, Narrow(sel, g, k)) {
      PairsSumKey(txs, sel, g, k);
    }
  }

  /** Every grouped entry's key is the key of some selected transaction. */
  lemma GroupedKeyOccurs(txs: seq<Transaction>, sel: Selector, g: KeyBy, x: int)
    requires 0 <= x < |GroupTotals(Pairs(txs, sel, g))|
    ensures Occurs(txs, sel, g, GroupTotals(Pairs(txs, sel, g))[x].key)
  {
    var es := GroupTotals(Pairs(txs, sel, g));
    GroupTotalsEntries(Pairs(txs, sel, g));
    assert Find(es, es[x].key) >= 0;
    PairsKeys(txs, sel, g, es[x].key);
  }

  /** The entries after one more transaction: the earlier keys in place, then
      at most one new key, that of the last transaction, which no earlier
      selected transaction is filed under. */
  lemma GroupedSnoc(txs: seq<Transaction>, sel: Selector, g: KeyBy)
    requires txs != []
    ensures var olds := GroupTotals(Pairs(txs[..|txs| - 1], sel, g));
      var es := GroupTotals(Pairs(txs, sel, g));
      && |olds| <= |es| <= |olds| + 1
      && (forall x :: 0 <= x < |olds| ==> es[x].key == olds[x].key)
      && (|es| > |olds| ==>
            && Selects(sel, txs[|txs| - 1])
            && es[|olds|].key == KeyFor(g, txs[|txs| - 1])
            && !Occurs(txs[..|txs| - 1], sel, g, es[|olds|].key))
  {
    var init := txs[..|txs| - 1];
    var t := txs[|txs| - 1];
    var olds := GroupTotals(Pairs(init, sel, g));
    PairsSnoc(init, t, sel, g);
    assert init + [t] == txs;
    if Selects(sel, t) {
      GroupTotalsSnoc(Pairs(init, sel, g), KeyFor(g, t), t.amount);
      UpsertKeys(olds, KeyFor(g, t), t.amount);
      GroupTotalsEntries(Pairs(init, sel, g));
      PairsKeys(init, sel, g, KeyFor(g, t));
    } else {
      assert Pairs(txs, sel, g) == Pairs(init, sel, g);
    }
  }

  /** The grouped entries come in the order their keys first occur: before
      any selected transaction filed under a later entry's key there is one
      filed under an earlier entry's key. */
  lemma {:induction false} GroupedSelectionOrder(txs: seq<Transaction>, sel: Selector, g: KeyBy, i: int, j: int, m: int)
    requires 0 <= i < j < |GroupTotals(Pairs(txs, sel, g))|
    requires 0 <= m < |txs| && Selects(sel, txs[m]) && KeyFor(g, txs[m]) == GroupTotals(Pairs(txs, sel, g))[j].key
    ensures exists n :: 0 <= n < m && Selects(sel, txs[n]) && KeyFor(g, txs[n]) == GroupTotals(Pairs(txs, sel, g))[i].key
    decreases |txs|
  {
    var init := txs[..|txs| - 1];
    var olds := GroupTotals(Pairs(init, sel, g));
    GroupedSnoc(txs, sel, g);
    if m < |txs| - 1 {
      KeyBeforeLastIsOld(txs, sel, g, j, m);
      assert init[m] == txs[m];
      GroupedSelectionOrder(init, sel, g, i, j, m);
      var n :| 0 <= n < m && Selects(sel, init[n]) && KeyFor(g, init[n]) == olds[i].key;
      assert txs[n] == init[n];
    } else {
      GroupedKeyOccurs(init, sel, g, i);
      var n :| 0 <= n < |init| && Selects(sel, init[n]) && KeyFor(g, init[n]) == olds[i].key;
      assert txs[n] == init[n];
    }
  }

  /** A key some earlier selected transaction is filed under was already
      grouped before the last transaction. */
  lemma KeyBeforeLastIsOld(txs: seq<Transaction>, sel: Selector, g: KeyBy, j: int, m: int)
    requires 0 <= j < |GroupTotals(Pairs(txs, sel, g))|
    requires 0 <= m < |txs| - 1 && Selects(sel, txs[m]) && KeyFor(g, txs[m]) == GroupTotals(Pairs(txs, sel, g))[j].key
    ensures j < |GroupTotals(Pairs(txs[..|txs| - 1], sel, g))|
  {
    var init := txs[..|txs| - 1];
    var es := GroupTotals(Pairs(txs, sel, g));
    var olds := GroupTotals(Pairs(init, sel, g));
    GroupedSnoc(txs, sel, g);
    assert init[m] == txs[m];
    assert Selects(sel, init[m]) && KeyFor(g, init[m]) == es[j].key;
    assert Occurs(init, sel, g, es[j].key);
    assert |es| > |olds| ==> es[j].key != es[|olds|].key;
  }
}
