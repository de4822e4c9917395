/** The budget bars: this month's expenses summed per category, and for each
    budget rule the spent, remaining and over-budget figures and the two bar
    widths derived from them. */
module BudgetProgress {
  import opened Types
  import opened Grouping
  import opened Selection
  import Sorting

  /** The transactions the bars count: expenses dated in month `ym`. */
  function MonthExpenses(ym: string): Selector {
    Selector(ExpenseOnly, Some(ym), None)
  }

  /** The `byCat` map: for each category with an expense this month, the sum
      of those expenses, in the order the categories first appear. */
  method SpentByCategory(txs: seq<Transaction>, ym: string) returns (byCat: seq<Entry>)
    ensures byCat == GroupTotals(Pairs(txs, MonthExpenses(ym), ByCategory))
    ensures Sorting.DistinctKeys(byCat, KeyOf)
    ensures forall c :: Find(byCat, c) >= 0 <==> Occurs(txs, MonthExpenses(ym), ByCategory, c)
    ensures forall c :: Lookup(byCat, c) == SumWhere(txs, Selector(ExpenseOnly, Some(ym), Some(c)))
  {
    byCat := [];
    for i := 0 to |txs|
      invariant byCat == GroupedUpTo(txs, i, MonthExpenses(ym), ByCategory)
    {
      var t := txs[i];
      if t.txType != Expense {
        continue;
      }
      if MonthOf(t.date) != ym {
        continue;
      }
      byCat := Upsert(byCat, t.category, t.amount);
    }
    GroupedUpToPairs(txs, |txs|, MonthExpenses(ym), ByCategory);
    assert txs[..|txs|] == txs;
    GroupedSelection(txs, MonthExpenses(ym), ByCategory);
  }

  /** What one budget bar shows. */
  datatype Bar = Bar(
    spent: real,
    limit: real,
    remaining: real,
    over: bool,
    overBy: real,
    pctSpent: real,
    pctRemain: real)

  function Max(a: real, b: real): real { if a >= b then a else b }
  function Min(a: real, b: real): real { if a <= b then a else b }
  function Abs(a: real): real { if a >= 0.0 then a else -a }

  /** The width of the spent part of a bar, in percent of the limit, capped
      at 100; with no limit, any spending fills the bar. */
  function SpentWidth(spent: real, limit: real): (p: real)
    requires limit >= 0.0
    ensures p <= 100.0
    ensures spent >= 0.0 ==> 0.0 <= p
    ensures spent > limit ==> p == 100.0
    ensures limit > 0.0 && spent <= limit ==> p == spent / limit * 100.0
    ensures limit == 0.0 ==> p == (if spent > 0.0 then 100.0 else 0.0)
  {
    if limit > 0.0 then
      RatioFacts(spent, limit);
      Min(100.0, spent / limit * 100.0)
    else if spent > 0.0 then 100.0 else 0.0
  }

  lemma ScaleMonotone(a: real, b: real, c: real)
    requires a <= b && c > 0.0
    ensures a * c <= b * c
    ensures a < b ==> a * c < b * c
  {
  }

  /** Against a positive limit, the share spent is above one exactly when the
      spending exceeds the limit, and not negative for non-negative spending. */
  lemma RatioFacts(spent: real, limit: real)
    requires limit > 0.0
    ensures spent > limit ==> spent / limit > 1.0
    ensures spent <= limit ==> spent / limit <= 1.0
    ensures spent >= 0.0 ==> spent / limit >= 0.0
  {
    var r := spent / limit;
    assert r * limit == spent;
    if r > 1.0 { ScaleMonotone(1.0, r, limit); assert limit < spent; }
    if r <= 1.0 { ScaleMonotone(r, 1.0, limit); assert spent <= limit; }
    if r < 0.0 { ScaleMonotone(r, 0.0, limit); assert spent < 0.0; }
  }

  /** The bar for one rule. A negative limit counts as no limit; with no
      limit, any spending fills the bar. */
  function BarFor(rule: BudgetRule, byCat: seq<Entry>): (b: Bar)
    ensures Find(byCat, rule.category) < 0 ==> b.spent == 0.0
    ensures b.limit >= 0.0 && (rule.monthlyLimit >= 0.0 ==> b.limit == rule.monthlyLimit)
    ensures rule.monthlyLimit < 0.0 ==> b.limit == 0.0
    ensures b.over <==> b.spent > b.limit
    ensures b.remaining >= 0.0
    ensures !b.over ==> b.remaining == b.limit - b.spent
    ensures b.over ==> b.remaining == 0.0 && b.overBy == b.spent - b.limit
    ensures b.pctSpent <= 100.0
    ensures b.spent >= 0.0 ==> 0.0 <= b.pctSpent
    ensures b.over ==> b.pctSpent == 100.0
    ensures b.limit > 0.0 && b.spent <= b.limit ==> b.pctSpent == b.spent / b.limit * 100.0
    ensures b.limit > 0.0 ==> b.pctSpent + b.pctRemain == 100.0
    ensures b.limit == 0.0 ==> b.pctRemain == 0.0 && b.pctSpent == (if b.spent > 0.0 then 100.0 else 0.0)
  {
    var spent := Lookup(byCat, rule.category);
    var limit := Max(0.0, rule.monthlyLimit);
    var remainingRaw := limit - spent;
    var pctSpent := SpentWidth(spent, limit);
    Bar(spent, limit, Max(0.0, remainingRaw), spent > limit, Abs(remainingRaw), pctSpent,
        if limit > 0.0 then Max(0.0, 100.0 - pctSpent) else 0.0)
  }

  /** Over the map the loop builds, a rule's bar reads the sum of its
      category's expenses this month, and with positive amounts it is over
      budget exactly when that sum exceeds the limit. */
  lemma BarOfMonth(rule: BudgetRule, txs: seq<Transaction>, ym: string)
    ensures var b := BarFor(rule, GroupTotals(Pairs(txs, MonthExpenses(ym), ByCategory)));
      && b.spent == SumWhere(txs, Selector(ExpenseOnly, Some(ym), Some(rule.category)))
      && (AllPositive(txs) ==> 0.0 <= b.spent && (b.over <==> b.spent > Max(0.0, rule.monthlyLimit)))
  {
    GroupedSelection(txs, MonthExpenses(ym), ByCategory);
    if AllPositive(txs) {
      NarrowerSumIsSmaller(txs, Selector(ExpenseOnly, Some(ym), Some(rule.category)), MonthExpenses(ym));
    }
  }
}
