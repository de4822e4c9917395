/** The transaction store (`mockApi`): transactions and budget rules kept under
    two keys of a persistent key-value store, with listing, filtering, sorting
    and the expansion of recurring transactions. The key-value store is the
    `Store` object's two fields; "now" and the random id are parameters. */
module MockApi {
  import opened Types
  import opened Strings
  import opened Calendar
  import opened Recurrence
  import opened Sorting
  import opened Lists

  /** The fields of a transaction to create: all but the id. */
  datatype Draft = Draft(
    amount: real, txType: string, category: string, date: string,
    notes: Option<string>, recurring: Option<Recurring>)

  /** A partial transaction for `update`; `None` leaves a field as stored. The
      optional fields can also be cleared: `Some(None)`. */
  datatype TxPatch = TxPatch(
    id: Option<string>, amount: Option<real>, txType: Option<string>,
    category: Option<string>, date: Option<string>,
    notes: Option<Option<string>>, recurring: Option<Option<Recurring>>)

  const NoChange := TxPatch(None, None, None, None, None, None, None)

  function DateOf(t: Transaction): string { t.date }

  // ---- filtering ----

  /** `isBefore(parseISO(a), parseISO(b))`: false when either is an Invalid Date. */
  predicate EarlierText(a: string, b: string) {
    ParseDate(a).Some? && ParseDate(b).Some? && Before(ParseDate(a).value, ParseDate(b).value)
  }

  /** The test `list` applies to each transaction; a filter field that is
      absent or the empty string is ignored. */
  predicate Matches(f: TxFilters, tx: Transaction) {
    && !(Truthy(f.txType) && tx.txType != f.txType.value)
    && !(Truthy(f.category) && tx.category != f.category.value)
    && !(Truthy(f.from) && EarlierText(tx.date, f.from.value))
    && !(Truthy(f.to) && EarlierText(f.to.value, tx.date))
    && !(Truthy(f.q) && !Contains(ToLower(tx.notes.GetOr("")), ToLower(f.q.value)))
  }

  predicate NoActiveFilter(f: TxFilters) {
    !Truthy(f.txType) && !Truthy(f.category) && !Truthy(f.from) && !Truthy(f.to) && !Truthy(f.q)
  }

  function Filter(txs: seq<Transaction>, f: TxFilters): seq<Transaction> {
    Keep(txs, tx => Matches(f, tx))
  }

  /** What `list(filters)` returns for the stored value `stored` on day `today`:
      the expansion, filtered when filters are given, sorted newest first by
      the date text; an error when the expansion throws. */
  function ListSpec(stored: Option<seq<Transaction>>, filters: Option<TxFilters>, today: Date): Result<seq<Transaction>>
    requires ValidDate(today)
  {
    match Expand(stored.GetOr([]), today)
    case Err(e) => Err(e)
    case Ok(w) => Ok(SortBy(if filters.Some? then Filter(w, filters.value) else w, DateOf, Descending))
  }

  // ---- create and update ----

  /** The transaction `create` stores, or why it throws: a non-positive amount is
      refused first, then a date that does not parse. */
  function NewTransaction(d: Draft, newId: string): (r: Result<Transaction>)
    ensures r.Ok? <==> d.amount > 0.0 && ParseDate(d.date).Some?
    ensures d.amount <= 0.0 ==> r == Err(AmountNotPositive)
    ensures r.Err? && d.amount > 0.0 ==> r == Err(InvalidDate)
    ensures r.Ok? ==> var t := r.value;
      && t.id == newId && IsCanonical(t.date) && ParseDate(t.date) == ParseDate(d.date)
      && t.amount == d.amount && t.txType == d.txType && t.category == d.category
      && t.notes == d.notes && t.recurring == d.recurring
  {
    if d.amount <= 0.0 then Err(AmountNotPositive)
    else match ToDateOnly(d.date)
      case None => Err(InvalidDate)
      case Some(date) => Ok(Transaction(newId, d.amount, d.txType, d.category, date, d.notes, d.recurring))
  }

  /** `{ ...t, ...p }`. */
  function Apply(t: Transaction, p: TxPatch): Transaction {
    Transaction(
      p.id.GetOr(t.id), p.amount.GetOr(t.amount), p.txType.GetOr(t.txType),
      p.category.GetOr(t.category), p.date.GetOr(t.date),
      p.notes.GetOr(t.notes), p.recurring.GetOr(t.recurring))
  }

  /** The patch `{ ...p, ...q }`. */
  function Then(p: TxPatch, q: TxPatch): TxPatch {
    TxPatch(
      if q.id.Some? then q.id else p.id,
      if q.amount.Some? then q.amount else p.amount,
      if q.txType.Some? then q.txType else p.txType,
      if q.category.Some? then q.category else p.category,
      if q.date.Some? then q.date else p.date,
      if q.notes.Some? then q.notes else p.notes,
      if q.recurring.Some? then q.recurring else p.recurring)
  }

  lemma ApplyNoChange(t: Transaction)
    ensures Apply(t, NoChange) == t
  {
  }

  /** Applying two patches in turn is applying their merge, and applying a
      patch twice is applying it once. */
  lemma ApplyThen(t: Transaction, p: TxPatch, q: TxPatch)
    ensures Apply(Apply(t, p), q) == Apply(t, Then(p, q))
    ensures Apply(Apply(t, p), p) == Apply(t, p)
  {
  }

  /** The transaction `update` stores in place of `t`, or why it throws: the
      merged amount must be positive, and a non-empty merged date must parse. */
  function Updated(t: Transaction, p: TxPatch): (r: Result<Transaction>)
    ensures var u := Apply(t, p);
      r.Ok? <==> u.amount > 0.0 && (u.date == "" || ParseDate(u.date).Some?)
    ensures r.Ok? ==> var u := Apply(t, p);
      && r.value == u.(date := r.value.date)
      && (u.date == "" ==> r.value.date == "")
      && (u.date != "" ==> IsCanonical(r.value.date) && ParseDate(r.value.date) == ParseDate(u.date))
  {
    var u := Apply(t, p);
    if u.amount <= 0.0 then Err(AmountNotPositive)
    else if u.date == "" then Ok(u)
    else match ToDateOnly(u.date)
      case None => Err(InvalidDate)
      case Some(date) => Ok(u.(date := date))
  }

  /** `list.findIndex(t => t.id === id)`. */
  function FindId(txs: seq<Transaction>, id: string): (i: int)
    ensures -1 <= i < |txs|
    ensures i >= 0 ==> txs[i].id == id && forall j :: 0 <= j < i ==> txs[j].id != id
    ensures i < 0 <==> forall j :: 0 <= j < |txs| ==> txs[j].id != id
  {
    if txs == [] then -1
    else if txs[0].id == id then 0
    else
      var i := FindId(txs[1..], id);
      if i < 0 then -1 else i + 1
  }

  /** `list.filter(t => t.id !== id)`. */
  function RemoveId(txs: seq<Transaction>, id: string): seq<Transaction> {
    Keep(txs, (t: Transaction) => t.id != id)
  }

  /** After removal no transaction has the id, every other one is kept, and
      removing an id that is not there changes nothing. */
  lemma RemoveIdFacts(txs: seq<Transaction>, id: string)
    ensures forall i :: 0 <= i < |RemoveId(txs, id)| ==> RemoveId(txs, id)[i].id != id
    ensures forall i :: 0 <= i < |txs| && txs[i].id != id ==> txs[i] in RemoveId(txs, id)
    ensures FindId(txs, id) < 0 ==> RemoveId(txs, id) == txs
    ensures RemoveId(RemoveId(txs, id), id) == RemoveId(txs, id)
  {
    if FindId(txs, id) < 0 {
      KeepAll(txs, (t: Transaction) => t.id != id);
    }
    KeepAll(RemoveId(txs, id), (t: Transaction) => t.id != id);
  }

  /** What `create` and `update` guarantee of every transaction they store. */
  predicate WellFormed(t: Transaction) {
    t.amount > 0.0 && (t.date == "" || IsCanonical(t.date))
  }

  predicate DistinctIds(txs: seq<Transaction>) {
    forall i, j :: 0 <= i < j < |txs| ==> txs[i].id != txs[j].id
  }

  class Store {
    /** The value under `ft.transactions.v1`; `None` until first written. */
    var txKey: Option<seq<Transaction>>
    /** The value under `ft.budgets.v1`; `None` until first written. */
    var budgetKey: Option<seq<BudgetRule>>

    constructor ()
      ensures txKey == None && budgetKey == None
    {
      txKey := None;
      budgetKey := None;
    }

    /** Every stored transaction is well formed. */
    predicate Valid()
      reads this
    {
      txKey.Some? ==> forall i :: 0 <= i < |txKey.value| ==> WellFormed(txKey.value[i])
    }

    /** `list(filters)`, with `today` for `new Date()`. */
    method List(filters: Option<TxFilters>, today: Date) returns (r: Result<seq<Transaction>>)
      requires ValidDate(today)
      ensures r == ListSpec(txKey, filters, today)
      ensures Valid() && r.Ok? ==> forall i :: 0 <= i < |r.value| ==> r.value[i].amount > 0.0
    {
      var base := txKey.GetOr([]);
      var expanded := ExpandRecurring(base, today);
      if expanded.Err? {
        return Err(expanded.error);
      }
      var out := expanded.value;
      if filters.Some? {
        out := Filter(out, filters.value);
      }
      if Valid() {
        ListAmountsPositive(txKey, filters, today);
      }
      return Ok(SortBy(out, DateOf, Descending));
    }

    /** `create(tx)`, with `newId` for the generated id. */
    method Create(d: Draft, newId: string) returns (r: Result<Transaction>)
      modifies this
      ensures r == NewTransaction(d, newId)
      ensures r.Ok? ==> txKey == Some(old(txKey).GetOr([]) + [r.value])
      ensures r.Err? ==> txKey == old(txKey)
      ensures budgetKey == old(budgetKey)
      ensures old(Valid()) ==> Valid()
      ensures old(DistinctIds(txKey.GetOr([]))) && FindId(old(txKey).GetOr([]), newId) < 0
        ==> DistinctIds(txKey.GetOr([]))
    {
      r := NewTransaction(d, newId);
      if r.Ok? {
        txKey := Some(txKey.GetOr([]) + [r.value]);
      }
    }

    /** `update(id, patch)`: the first transaction with the id is replaced by its
        patched form; a missing id throws, and so does an invalid result. */
    method Update(id: string, p: TxPatch) returns (r: Result<Transaction>)
      modifies this
      ensures var txs := old(txKey).GetOr([]);
        var i := FindId(txs, id);
        && (i < 0 ==> r == Err(NotFound))
        && (i >= 0 ==> r == Updated(txs[i], p))
        && (r.Ok? ==> txKey == Some(txs[i := r.value]))
      ensures r.Err? ==> txKey == old(txKey)
      ensures budgetKey == old(budgetKey)
      ensures old(Valid()) ==> Valid()
    {
      var txs := txKey.GetOr([]);
      var i := FindId(txs, id);
      if i < 0 {
        return Err(NotFound);
      }
      r := Updated(txs[i], p);
      if r.Ok? {
        txKey := Some(txs[i := r.value]);
      }
    }

    /** `remove(id)`: the stored list is always written back. */
    method Remove(id: string)
      modifies this
      ensures txKey == Some(RemoveId(old(txKey).GetOr([]), id))
      ensures budgetKey == old(budgetKey)
      ensures old(Valid()) ==> Valid()
    {
      var txs := txKey.GetOr([]);
      txKey := Some(RemoveId(txs, id));
    }

    /** `clearAll()`: the budget rules are kept. */
    method ClearAll()
      modifies this
      ensures txKey == Some([]) && budgetKey == old(budgetKey)
      ensures Valid()
    {
      txKey := Some([]);
    }

    /** `budgets()`: the stored rules, or none before any were set. */
    method Budgets() returns (rules: seq<BudgetRule>)
      ensures budgetKey.None? ==> rules == []
      ensures budgetKey.Some? ==> rules == budgetKey.value
    {
      rules := budgetKey.GetOr([]);
    }

    /** `setBudgets(rules)`: the rules replace the stored ones. */
    method SetBudgets(rules: seq<BudgetRule>)
      modifies this
      ensures budgetKey == Some(rules) && txKey == old(txKey)
    {
      budgetKey := Some(rules);
    }
  }

  // ---- what `list` returns ----

  /** The listed transactions are exactly those of the expansion that pass
      the filters, each listed no more often than the expansion holds it. */
  lemma ListContents(stored: Option<seq<Transaction>>, filters: Option<TxFilters>, today: Date, x: Transaction)
    requires ValidDate(today) && ListSpec(stored, filters, today).Ok?
    ensures var w := Expand(stored.GetOr([]), today);
      && w.Ok?
      && (x in ListSpec(stored, filters, today).value <==> x in w.value && (filters.None? || Matches(filters.value, x)))
      && multiset(ListSpec(stored, filters, today).value) <= multiset(w.value)
  {
    var w := Expand(stored.GetOr([]), today).value;
    var s := if filters.Some? then Filter(w, filters.value) else w;
    var r := SortBy(s, DateOf, Descending);
    assert x in r <==> x in multiset(r);
    if filters.Some? {
      KeepSubMultiset(w, tx => Matches(filters.value, tx));
      if x in s {
        var i :| 0 <= i < |s| && s[i] == x;
      }
      if x in w && Matches(filters.value, x) {
        var i :| 0 <= i < |w| && w[i] == x;
      }
    }
  }

  /** Every listed record passes each filter that is set: it has the filter's
      type and category, its date is neither before `from` nor after `to`
      when both parse, and its notes contain the search text, ASCII case
      ignored. */
  lemma ListHonoursFilters(stored: Option<seq<Transaction>>, f: TxFilters, today: Date, i: int)
    requires ValidDate(today) && ListSpec(stored, Some(f), today).Ok?
    requires 0 <= i < |ListSpec(stored, Some(f), today).value|
    ensures var x := ListSpec(stored, Some(f), today).value[i];
      var d := ParseDate(x.date);
      && (Truthy(f.txType) ==> x.txType == f.txType.value)
      && (Truthy(f.category) ==> x.category == f.category.value)
      && (Truthy(f.from) && d.Some? && ParseDate(f.from.value).Some? ==> !Before(d.value, ParseDate(f.from.value).value))
      && (Truthy(f.to) && d.Some? && ParseDate(f.to.value).Some? ==> !Before(ParseDate(f.to.value).value, d.value))
      && (Truthy(f.q) ==> Contains(ToLower(x.notes.GetOr("")), ToLower(f.q.value)))
  {
    ListContents(stored, Some(f), today, ListSpec(stored, Some(f), today).value[i]);
  }

  /** The date bounds are inclusive: a record dated on both bounds passes them. */
  lemma DateBoundsInclusive(f: TxFilters, tx: Transaction)
    requires !Truthy(f.txType) && !Truthy(f.category) && !Truthy(f.q)
    requires f.from == Some(tx.date) && f.to == Some(tx.date)
    ensures Matches(f, tx)
  {
  }

  /** When every stored amount is above zero, so is every listed one: an
      occurrence carries its template's amount. */
  lemma ListAmountsPositive(stored: Option<seq<Transaction>>, filters: Option<TxFilters>, today: Date)
    requires ValidDate(today) && ListSpec(stored, filters, today).Ok?
    requires forall i :: 0 <= i < |stored.GetOr([])| ==> stored.GetOr([])[i].amount > 0.0
    ensures var r := ListSpec(stored, filters, today).value;
      forall i :: 0 <= i < |r| ==> r[i].amount > 0.0
  {
    var base := stored.GetOr([]);
    var r := ListSpec(stored, filters, today).value;
    var w := Expand(base, today).value;
    forall i | 0 <= i < |r| ensures r[i].amount > 0.0 {
      ListContents(stored, filters, today, r[i]);
      var k :| 0 <= k < |w| && w[k] == r[i];
      ExpandedAmountPositive(base, today, k);
    }
  }

  /** Each entry of the expansion carries the amount of a stored record. */
  lemma ExpandedAmountPositive(base: seq<Transaction>, today: Date, k: int)
    requires ValidDate(today) && Expand(base, today).Ok?
    requires forall i :: 0 <= i < |base| ==> base[i].amount > 0.0
    requires 0 <= k < |Expand(base, today).value|
    ensures Expand(base, today).value[k].amount > 0.0
  {
    var w := Expand(base, today).value;
    ExpandAppendsFreshOccurrences(base, today);
    if k < |base| {
      assert w[k] == w[..|base|][k] == base[k];
    } else {
      var j :| 0 <= j < |base| && GeneratedBy(w[k], base[j], today);
      var ds := SeriesOf(base[j], today);
      var n :| 0 <= n < |ds| && w[k] == Occurrence(base[j], ds[n]);
    }
  }

  /** The list is ordered newest first by the date text. */
  lemma ListSortedByDate(stored: Option<seq<Transaction>>, filters: Option<TxFilters>, today: Date)
    requires ValidDate(today) && ListSpec(stored, filters, today).Ok?
    ensures Sorted(ListSpec(stored, filters, today).value, DateOf, Descending)
  {
    var w := Expand(stored.GetOr([]), today).value;
    SortBySorted(if filters.Some? then Filter(w, filters.value) else w, DateOf, Descending);
  }

  /** Where dates are in canonical form, the text order is the calendar order:
      no listed transaction is dated before one listed after it. */
  lemma ListNewestFirst(stored: Option<seq<Transaction>>, filters: Option<TxFilters>, today: Date, i: int, j: int)
    requires ValidDate(today) && ListSpec(stored, filters, today).Ok?
    requires var r := ListSpec(stored, filters, today).value;
      0 <= i < j < |r| && IsCanonical(r[i].date) && IsCanonical(r[j].date)
    ensures var r := ListSpec(stored, filters, today).value;
      !Before(ParseDate(r[i].date).value, ParseDate(r[j].date).value)
  {
    var r := ListSpec(stored, filters, today).value;
    ListSortedByDate(stored, filters, today);
    CanonicalOrder(r[i].date, r[j].date);
  }

  /** Without an active filter the list is a reordering of the whole expansion. */
  lemma ListUnfiltered(stored: Option<seq<Transaction>>, filters: Option<TxFilters>, today: Date)
    requires ValidDate(today) && ListSpec(stored, filters, today).Ok?
    requires filters.None? || NoActiveFilter(filters.value)
    ensures multiset(ListSpec(stored, filters, today).value) == multiset(Expand(stored.GetOr([]), today).value)
  {
    if filters.Some? {
      KeepAll(Expand(stored.GetOr([]), today).value, tx => Matches(filters.value, tx));
    }
  }

  /** A store with no recurring transaction lists a reordering of what it holds. */
  lemma ListPlainStore(stored: Option<seq<Transaction>>, today: Date)
    requires ValidDate(today)
    requires forall j :: 0 <= j < |stored.GetOr([])| ==> stored.GetOr([])[j].recurring.None?
    ensures ListSpec(stored, None, today).Ok?
    ensures multiset(ListSpec(stored, None, today).value) == multiset(stored.GetOr([]))
  {
    ExpandPlain(stored.GetOr([]), today);
  }

  /** Listing throws exactly when a stored recurring transaction has a start date,
      or a non-empty end date, that does not parse. */
  lemma ListFails(stored: Option<seq<Transaction>>, filters: Option<TxFilters>, today: Date)
    requires ValidDate(today)
    ensures var txs := stored.GetOr([]);
      ListSpec(stored, filters, today).Err? <==>
      exists j :: 0 <= j < |txs| && txs[j].recurring.Some? && Window(txs[j].recurring.value, today).Err?
  {
    ExpandFromFails(stored.GetOr([]), stored.GetOr([]), today);
  }

  /** Unfiltered, the list shows every date of every recurring series: an entry
      with that occurrence's date, notes, amount, type and category. */
  lemma ListShowsEverySeriesDate(stored: Option<seq<Transaction>>, today: Date, j: int, i: int)
    requires ValidDate(today) && ListSpec(stored, None, today).Ok?
    requires 0 <= j < |stored.GetOr([])| && 0 <= i < |SeriesOf(stored.GetOr([])[j], today)|
    ensures var tx := stored.GetOr([])[j];
      HasKey(ListSpec(stored, None, today).value, Occurrence(tx, SeriesOf(tx, today)[i]))
  {
    var base := stored.GetOr([]);
    var tx := base[j];
    var o := Occurrence(tx, SeriesOf(tx, today)[i]);
    var w := Expand(base, today).value;
    var r := ListSpec(stored, None, today).value;
    ExpandCoversSeries(base, today, j, i);
    var k :| 0 <= k < |w| && SameKey(w[k], o);
    assert w[k] in multiset(r);
    var m :| 0 <= m < |r| && r[m] == w[k];
  }
}
