/** The filter bar's state: five optional fields, patched field by field and
    reset to the initial state. */
module FiltersStore {
  import opened Types
  import MockApi

  /** `Partial<FiltersState>`: for each field, absent (`None`), or present
      with a value that may itself be `undefined` (`Some(None)`). */
  datatype FiltersPatch = FiltersPatch(
    txType: Option<Option<string>>,
    category: Option<Option<string>>,
    from: Option<Option<string>>,
    to: Option<Option<string>>,
    q: Option<Option<string>>)

  /** No type, category or dates, and an empty search. */
  const Initial := TxFilters(None, None, None, None, Some(""))

  const EmptyPatch := FiltersPatch(None, None, None, None, None)

  /** The patch `reset` amounts to: every field present. */
  const ResetPatch := FiltersPatch(Some(None), Some(None), Some(None), Some(None), Some(Some("")))

  /** A present field of the patch wins over the current value. */
  function Pick(cur: Option<string>, p: Option<Option<string>>): Option<string> {
    if p.Some? then p.value else cur
  }

  /** `{ ...s, ...patch }`. */
  function Merge(s: TxFilters, p: FiltersPatch): TxFilters {
    TxFilters(Pick(s.txType, p.txType), Pick(s.category, p.category), Pick(s.from, p.from),
              Pick(s.to, p.to), Pick(s.q, p.q))
  }

  /** Two patches in a row as one: the later one's present fields win. */
  function Then(p: FiltersPatch, q: FiltersPatch): FiltersPatch {
    FiltersPatch(if q.txType.Some? then q.txType else p.txType,
                 if q.category.Some? then q.category else p.category,
                 if q.from.Some? then q.from else p.from,
                 if q.to.Some? then q.to else p.to,
                 if q.q.Some? then q.q else p.q)
  }

  /** An empty patch changes nothing, a patch applied twice is applied once,
      two patches compose into one, and the reset patch yields the initial
      state whatever the state was. */
  lemma MergeLaws(s: TxFilters, p: FiltersPatch, q: FiltersPatch)
    ensures Merge(s, EmptyPatch) == s
    ensures Merge(Merge(s, p), p) == Merge(s, p)
    ensures Merge(Merge(s, p), q) == Merge(s, Then(p, q))
    ensures Merge(s, ResetPatch) == Initial
  {
  }

  /** A patch sets exactly the fields it holds. */
  lemma MergeSetsPresentFields(s: TxFilters, p: FiltersPatch)
    ensures var r := Merge(s, p);
      && (r.txType == if p.txType.Some? then p.txType.value else s.txType)
      && (r.q == if p.q.Some? then p.q.value else s.q)
      && (r.category == if p.category.Some? then p.category.value else s.category)
      && (r.from == if p.from.Some? then p.from.value else s.from)
      && (r.to == if p.to.Some? then p.to.value else s.to)
  {
  }

  /** The initial filters let every transaction through. */
  lemma InitialFiltersNothing()
    ensures MockApi.NoActiveFilter(Initial)
  {
  }

  class FilterStore {
    var state: TxFilters

    constructor()
      ensures state == Initial
    {
      state := Initial;
    }

    method Set(patch: FiltersPatch)
      modifies this
      ensures state == Merge(old(state), patch)
    {
      state := Merge(state, patch);
    }

    method Reset()
      modifies this
      ensures state == Initial
    {
      state := Initial;
    }
  }
}
