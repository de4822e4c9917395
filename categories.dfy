/** The category lists offered by the transaction form, and the flat list of
    every category without repeats. */
module Categories {
  import opened Types

  const ExpenseCategories: seq<string> :=
    ["Food", "Rent", "Utilities", "Transport", "Shopping", "Entertainment", "Health", "Other"]

  const IncomeCategories: seq<string> := ["Salary", "Investment", "Other Income"]

  predicate NoDuplicates(xs: seq<string>) {
    forall i, j :: 0 <= i < j < |xs| ==> xs[i] != xs[j]
  }

  /** `[...new Set(xs)]`: each element once, at the place it first occurs. */
  function Dedup(xs: seq<string>): (r: seq<string>)
    ensures NoDuplicates(r)
    ensures forall x :: x in r <==> x in xs
    ensures |r| <= |xs|
  {
    if xs == [] then []
    else
      var d := Dedup(xs[..|xs| - 1]);
      if xs[|xs| - 1] in d then d else d + [xs[|xs| - 1]]
  }

  /** A list without repeats comes out of the set unchanged. */
  lemma {:induction false} DedupDistinct(xs: seq<string>)
    requires NoDuplicates(xs)
    ensures Dedup(xs) == xs
    decreases |xs|
  {
    if xs != [] {
      var init := xs[..|xs| - 1];
      DedupDistinct(init);
      assert xs[|xs| - 1] !in init;
      assert init + [xs[|xs| - 1]] == xs;
    }
  }

  function AllCategories(): seq<string> {
    Dedup(ExpenseCategories + IncomeCategories)
  }

  /** The form's choices for a transaction type; anything but income gets
      the expense list. */
  function CategoriesByType(t: string): seq<string> {
    if t == Income then IncomeCategories else ExpenseCategories
  }

  /** The two lists share no name and repeat none, so the flat list is the
      expense list followed by the income list, eleven names in all. */
  lemma CategoryLists()
    ensures forall c :: c in ExpenseCategories ==> c !in IncomeCategories
    ensures NoDuplicates(ExpenseCategories) && NoDuplicates(IncomeCategories)
    ensures AllCategories() == ExpenseCategories + IncomeCategories
    ensures |AllCategories()| == 11
  {
    var all := ExpenseCategories + IncomeCategories;
    assert NoDuplicates(all);
    DedupDistinct(all);
  }

  /** Every choice the form offers is in the flat list, and every name in the
      flat list is offered for one of the two types. */
  lemma CategoriesByTypeCovers(c: string)
    ensures (c in CategoriesByType(Income) || c in CategoriesByType(Expense)) <==> c in AllCategories()
  {
  }

  /** "Other Income" is offered for income but is not a name the `Category`
      type declares; every other listed name is declared. */
  lemma OtherIncomeUndeclared()
    ensures "Other Income" in CategoriesByType(Income) && !IsDeclaredCategory("Other Income")
    ensures forall c :: c in AllCategories() && c != "Other Income" ==> IsDeclaredCategory(c)
  {
  }
}
