/** The recurrence expansion of the store (`_expandRecurring` in
    src/services/mockApi.ts): every recurring template contributes one
    occurrence per step from its start date to its end bound, skipping an
    occurrence whose (date, notes, amount, type, category) is already present. */
module Recurrence {
  import opened Types
  import opened Calendar

  /** The dates visited by `while (!isAfter(current, end)) { ...; current = step(current) }`. */
  function Occurrences(cur: Date, end: Date, p: Pattern): (ds: seq<Date>)
    requires ValidDate(cur)
    ensures forall i :: 0 <= i < |ds| ==> ValidDate(ds[i]) && !Before(ds[i], cur) && !Before(end, ds[i])
    decreases Ord(end) - Ord(cur)
  {
    if Before(end, cur) then [] else [cur] + Occurrences(Step(cur, p), end, p)
  }

  /** The visited dates form a chain of single steps from `cur` that stops at the
      first date past `end`. */
  lemma {:induction false} OccurrencesChain(cur: Date, end: Date, p: Pattern)
    requires ValidDate(cur)
    ensures var ds := Occurrences(cur, end, p);
      && (ds == [] <==> Before(end, cur))
      && (ds != [] ==> ds[0] == cur && Before(end, Step(ds[|ds| - 1], p)))
      && (forall i :: 0 <= i < |ds| - 1 ==> ds[i + 1] == Step(ds[i], p))
    decreases Ord(end) - Ord(cur)
  {
    if !Before(end, cur) {
      var ds := Occurrences(cur, end, p);
      var sub := Occurrences(Step(cur, p), end, p);
      OccurrencesChain(Step(cur, p), end, p);
      assert ds == [cur] + sub;
      forall i | 0 <= i < |ds| - 1
        ensures ds[i + 1] == Step(ds[i], p)
      {
        if i > 0 {
          assert ds[i] == sub[i - 1] && ds[i + 1] == sub[i];
        }
      }
      if sub != [] {
        assert ds[|ds| - 1] == sub[|sub| - 1];
      }
    }
  }

  /** The visited dates are strictly increasing, so no date is visited twice. */
  lemma {:induction false} OccurrencesIncreasing(cur: Date, end: Date, p: Pattern, i: int, j: int)
    requires ValidDate(cur)
    requires 0 <= i < j < |Occurrences(cur, end, p)|
    ensures Before(Occurrences(cur, end, p)[i], Occurrences(cur, end, p)[j])
    decreases Ord(end) - Ord(cur)
  {
    var ds := Occurrences(cur, end, p);
    var next := Step(cur, p);
    var sub := Occurrences(next, end, p);
    assert ds == [cur] + sub;
    assert ds[j] == sub[j - 1];
    if i == 0 {
      assert Ord(cur) < Ord(next) <= Ord(sub[j - 1]);
    } else {
      OccurrencesIncreasing(next, end, p, i - 1, j - 1);
      assert ds[i] == sub[i - 1];
    }
  }

  /** The occurrence generated from template `tx` for date `d`. */
  function Occurrence(tx: Transaction, d: Date): (o: Transaction)
    requires ValidDate(d)
  {
    tx.(id := tx.id + ":" + Format(d), date := Format(d))
  }

  /** The tuple the duplicate check compares. */
  predicate SameKey(a: Transaction, b: Transaction) {
    a.date == b.date && a.notes == b.notes && a.amount == b.amount
    && a.txType == b.txType && a.category == b.category
  }

  /** `expanded.some(e => ...)`: an entry with the key of occurrence `o` is present. */
  predicate HasKey(acc: seq<Transaction>, o: Transaction) {
    exists i | 0 <= i < |acc| :: SameKey(acc[i], o)
  }

  /** The inner loop over the dates of one template. */
  function AddOccurrences(acc: seq<Transaction>, tx: Transaction, ds: seq<Date>): (r: seq<Transaction>)
    requires forall i :: 0 <= i < |ds| ==> ValidDate(ds[i])
    ensures |acc| <= |r| && r[..|acc|] == acc
    decreases |ds|
  {
    if ds == [] then acc
    else
      var o := Occurrence(tx, ds[0]);
      AddOccurrences(if HasKey(acc, o) then acc else acc + [o], tx, ds[1..])
  }

  /** The start date and end bound of a template's series: the end date when
      one is given (a non-empty string), otherwise `today` plus two months. */
  function Window(rec: Recurring, today: Date): Result<(Date, Date)>
    requires ValidDate(today)
  {
    match ParseDate(rec.startDate)
    case None => Err(InvalidDate)
    case Some(start) =>
      if Truthy(rec.endDate) then
        match ParseDate(rec.endDate.value)
        case None => Err(InvalidDate)
        case Some(end) => Ok((start, end))
      else Ok((start, AddMonths(today, 2)))
  }

  /** The dates a template visits; empty for a template with no recurrence or an
      unreadable window. */
  function SeriesOf(tx: Transaction, today: Date): (ds: seq<Date>)
    requires ValidDate(today)
    ensures forall i :: 0 <= i < |ds| ==> ValidDate(ds[i])
    ensures tx.recurring.Some? && Window(tx.recurring.value, today).Ok? ==>
      var (start, end) := Window(tx.recurring.value, today).value;
      forall i :: 0 <= i < |ds| ==> !Before(ds[i], start) && !Before(end, ds[i])
  {
    if tx.recurring.None? then []
    else match Window(tx.recurring.value, today)
      case Err(_) => []
      case Ok((start, end)) => Occurrences(start, end, tx.recurring.value.pattern)
  }

  /** The outer loop over the templates still to be expanded. */
  function ExpandFrom(todo: seq<Transaction>, acc: seq<Transaction>, today: Date): (r: Result<seq<Transaction>>)
    requires ValidDate(today)
    ensures r.Ok? ==> |acc| <= |r.value| && r.value[..|acc|] == acc
  {
    if todo == [] then Ok(acc)
    else
      var tx := todo[0];
      if tx.recurring.None? then ExpandFrom(todo[1..], acc, today)
      else if Window(tx.recurring.value, today).Err? then Err(InvalidDate)
      else ExpandFrom(todo[1..], AddOccurrences(acc, tx, SeriesOf(tx, today)), today)
  }

  /** The stored list with the occurrences of its recurring templates appended. */
  function Expand(base: seq<Transaction>, today: Date): Result<seq<Transaction>>
    requires ValidDate(today)
  {
    ExpandFrom(base, base, today)
  }

  /** A template whose start date comes after its end bound visits no date. */
  lemma StartAfterEndVisitsNothing(cur: Date, end: Date, p: Pattern)
    requires ValidDate(cur) && Before(end, cur)
    ensures Occurrences(cur, end, p) == []
  {
  }

  /** With no end date, a monthly series started on 31 January 2024 and expanded
      on 1 March 2024 runs to 1 May 2024 and drifts to the 29th after February:
      each step is one month after the previous iterate, not after the start. */
  lemma MonthlySeriesDrifts()
    ensures AddMonths(Date(2024, 3, 1), 2) == Date(2024, 5, 1)
    ensures Occurrences(Date(2024, 1, 31), Date(2024, 5, 1), Monthly)
         == [Date(2024, 1, 31), Date(2024, 2, 29), Date(2024, 3, 29), Date(2024, 4, 29)]
  {
    var d0, d1, d2, d3, d4 := Date(2024, 1, 31), Date(2024, 2, 29), Date(2024, 3, 29), Date(2024, 4, 29), Date(2024, 5, 29);
    var end := Date(2024, 5, 1);
    assert Step(d0, Monthly) == d1;
    assert Step(d1, Monthly) == d2;
    assert Step(d2, Monthly) == d3;
    assert Step(d3, Monthly) == d4;
    assert Occurrences(d4, end, Monthly) == [];
    assert Occurrences(d3, end, Monthly) == [d3];
    assert Occurrences(d2, end, Monthly) == [d2, d3];
    assert Occurrences(d1, end, Monthly) == [d1, d2, d3];
  }

  /** No entry appended at or after position `n` repeats the key of an earlier entry. */
  predicate NoRepeatFrom(r: seq<Transaction>, n: int) {
    forall i, k :: 0 <= i < k < |r| && n <= k ==> !SameKey(r[i], r[k])
  }

  /** `o` is the occurrence of template `tx` on one of the dates its series visits. */
  predicate GeneratedBy(o: Transaction, tx: Transaction, today: Date)
    requires ValidDate(today)
  {
    var ds := SeriesOf(tx, today);
    exists i :: 0 <= i < |ds| && o == Occurrence(tx, ds[i])
  }

  lemma {:induction false} AddOccurrencesNoRepeat(acc: seq<Transaction>, tx: Transaction, ds: seq<Date>)
    requires forall i :: 0 <= i < |ds| ==> ValidDate(ds[i])
    ensures NoRepeatFrom(AddOccurrences(acc, tx, ds), |acc|)
    decreases |ds|
  {
    if ds != [] {
      var o := Occurrence(tx, ds[0]);
      var acc' := if HasKey(acc, o) then acc else acc + [o];
      AddOccurrencesNoRepeat(acc', tx, ds[1..]);
      var r := AddOccurrences(acc, tx, ds);
      assert r == AddOccurrences(acc', tx, ds[1..]);
      assert r[..|acc'|] == acc';
      forall i, k | 0 <= i < k < |r| && |acc| <= k
        ensures !SameKey(r[i], r[k])
      {
        if k < |acc'| {
          assert k == |acc| && r[k] == o && r[i] == acc[i];
        }
      }
    }
  }

  lemma {:induction false} AddOccurrencesOrigin(acc: seq<Transaction>, tx: Transaction, ds: seq<Date>)
    requires forall i :: 0 <= i < |ds| ==> ValidDate(ds[i])
    ensures var r := AddOccurrences(acc, tx, ds);
      forall k :: |acc| <= k < |r| ==> exists i :: 0 <= i < |ds| && r[k] == Occurrence(tx, ds[i])
    decreases |ds|
  {
    if ds != [] {
      var o := Occurrence(tx, ds[0]);
      var acc' := if HasKey(acc, o) then acc else acc + [o];
      AddOccurrencesOrigin(acc', tx, ds[1..]);
      var r := AddOccurrences(acc, tx, ds);
      assert r == AddOccurrences(acc', tx, ds[1..]);
      assert r[..|acc'|] == acc';
      forall k | |acc| <= k < |r|
        ensures exists i :: 0 <= i < |ds| && r[k] == Occurrence(tx, ds[i])
      {
        if k < |acc'| {
          assert r[k] == acc'[k] == o;
        } else {
          var i :| 0 <= i < |ds[1..]| && r[k] == Occurrence(tx, ds[1..][i]);
          assert ds[1..][i] == ds[i + 1];
        }
      }
    }
  }

  lemma {:induction false} AddOccurrencesCovers(acc: seq<Transaction>, tx: Transaction, ds: seq<Date>)
    requires forall i :: 0 <= i < |ds| ==> ValidDate(ds[i])
    ensures var r := AddOccurrences(acc, tx, ds);
      forall i :: 0 <= i < |ds| ==> HasKey(r, Occurrence(tx, ds[i]))
    decreases |ds|
  {
    if ds != [] {
      var o := Occurrence(tx, ds[0]);
      var acc' := if HasKey(acc, o) then acc else acc + [o];
      AddOccurrencesCovers(acc', tx, ds[1..]);
      var r := AddOccurrences(acc, tx, ds);
      assert r == AddOccurrences(acc', tx, ds[1..]);
      assert r[..|acc'|] == acc';
      forall i | 0 <= i < |ds|
        ensures HasKey(r, Occurrence(tx, ds[i]))
      {
        if i == 0 {
          if !HasKey(acc, o) {
            assert acc'[|acc|] == o && SameKey(o, o);
          }
          assert HasKey(acc', o);
          var m :| 0 <= m < |acc'| && SameKey(acc'[m], o);
          assert r[m] == acc'[m];
        } else {
          assert ds[1..][i - 1] == ds[i];
        }
      }
    }
  }

  /** One template of the outer loop: the occurrences of its series appended
      (none for a template that does not recur). */
  lemma ExpandFromStep(todo: seq<Transaction>, acc: seq<Transaction>, today: Date)
    requires ValidDate(today) && todo != [] && ExpandFrom(todo, acc, today).Ok?
    ensures ExpandFrom(todo, acc, today)
         == ExpandFrom(todo[1..], AddOccurrences(acc, todo[0], SeriesOf(todo[0], today)), today)
  {
  }

  lemma {:induction false} ExpandFromNoRepeat(todo: seq<Transaction>, acc: seq<Transaction>, today: Date)
    requires ValidDate(today) && ExpandFrom(todo, acc, today).Ok?
    ensures NoRepeatFrom(ExpandFrom(todo, acc, today).value, |acc|)
    decreases |todo|
  {
    if todo != [] {
      var acc' := AddOccurrences(acc, todo[0], SeriesOf(todo[0], today));
      ExpandFromStep(todo, acc, today);
      ExpandFromNoRepeat(todo[1..], acc', today);
      AddOccurrencesNoRepeat(acc, todo[0], SeriesOf(todo[0], today));
      var r := ExpandFrom(todo, acc, today).value;
      assert r[..|acc'|] == acc';
      forall i, k | 0 <= i < k < |r| && |acc| <= k
        ensures !SameKey(r[i], r[k])
      {
        if k < |acc'| {
          assert r[i] == acc'[i] && r[k] == acc'[k];
        }
      }
    }
  }

  lemma {:induction false} ExpandFromOrigin(todo: seq<Transaction>, acc: seq<Transaction>, today: Date)
    requires ValidDate(today) && ExpandFrom(todo, acc, today).Ok?
    ensures var r := ExpandFrom(todo, acc, today).value;
      forall k :: |acc| <= k < |r| ==> exists j :: 0 <= j < |todo| && GeneratedBy(r[k], todo[j], today)
    decreases |todo|
  {
    if todo != [] {
      var acc' := AddOccurrences(acc, todo[0], SeriesOf(todo[0], today));
      ExpandFromStep(todo, acc, today);
      ExpandFromOrigin(todo[1..], acc', today);
      AddOccurrencesOrigin(acc, todo[0], SeriesOf(todo[0], today));
      var r := ExpandFrom(todo, acc, today).value;
      assert r[..|acc'|] == acc';
      forall k | |acc| <= k < |r|
        ensures exists j :: 0 <= j < |todo| && GeneratedBy(r[k], todo[j], today)
      {
        if k < |acc'| {
          assert r[k] == acc'[k];
          assert GeneratedBy(r[k], todo[0], today);
        } else {
          var j :| 0 <= j < |todo[1..]| && GeneratedBy(r[k], todo[1..][j], today);
          assert todo[1..][j] == todo[j + 1];
        }
      }
    }
  }

  lemma {:induction false} ExpandFromCovers(todo: seq<Transaction>, acc: seq<Transaction>, today: Date)
    requires ValidDate(today) && ExpandFrom(todo, acc, today).Ok?
    ensures var r := ExpandFrom(todo, acc, today).value;
      forall j, i :: 0 <= j < |todo| && 0 <= i < |SeriesOf(todo[j], today)|
        ==> HasKey(r, Occurrence(todo[j], SeriesOf(todo[j], today)[i]))
    decreases |todo|
  {
    if todo != [] {
      var tx := todo[0];
      var acc' := AddOccurrences(acc, tx, SeriesOf(tx, today));
      ExpandFromStep(todo, acc, today);
      ExpandFromCovers(todo[1..], acc', today);
      AddOccurrencesCovers(acc, tx, SeriesOf(tx, today));
      var r := ExpandFrom(todo, acc, today).value;
      assert r[..|acc'|] == acc';
      forall j, i | 0 <= j < |todo| && 0 <= i < |SeriesOf(todo[j], today)|
        ensures HasKey(r, Occurrence(todo[j], SeriesOf(todo[j], today)[i]))
      {
        if j == 0 {
          var o := Occurrence(tx, SeriesOf(tx, today)[i]);
          var m :| 0 <= m < |acc'| && SameKey(acc'[m], o);
          assert r[m] == acc'[m];
        } else {
          assert todo[1..][j - 1] == todo[j];
        }
      }
    }
  }

  /** Expansion keeps the stored list as an unchanged prefix; everything after it
      is an occurrence of a recurring template of that list on a date its series
      visits, and no such occurrence repeats the key of an earlier entry, so in
      particular a template's own stored row is never duplicated. */
  lemma ExpandAppendsFreshOccurrences(base: seq<Transaction>, today: Date)
    requires ValidDate(today) && Expand(base, today).Ok?
    ensures var r := Expand(base, today).value;
      && |base| <= |r| && r[..|base|] == base
      && (forall k :: |base| <= k < |r| ==> exists j :: 0 <= j < |base| && GeneratedBy(r[k], base[j], today))
      && (forall i, k :: 0 <= i < k < |r| && |base| <= k ==> !SameKey(r[i], r[k]))
  {
    ExpandFromNoRepeat(base, base, today);
    ExpandFromOrigin(base, base, today);
  }

  /** Every date a template's series visits is represented in the expansion:
      an occurrence is only ever skipped because its key is already there. */
  lemma ExpandCoversSeries(base: seq<Transaction>, today: Date, j: int, i: int)
    requires ValidDate(today) && Expand(base, today).Ok?
    requires 0 <= j < |base| && 0 <= i < |SeriesOf(base[j], today)|
    ensures HasKey(Expand(base, today).value, Occurrence(base[j], SeriesOf(base[j], today)[i]))
  {
    ExpandFromCovers(base, base, today);
  }

  /** Expansion fails exactly when some recurring template has a start date, or
      a non-empty end date, that does not parse. */
  lemma {:induction false} ExpandFromFails(todo: seq<Transaction>, acc: seq<Transaction>, today: Date)
    requires ValidDate(today)
    ensures ExpandFrom(todo, acc, today).Err? <==>
      exists j :: 0 <= j < |todo| && todo[j].recurring.Some? && Window(todo[j].recurring.value, today).Err?
    ensures (forall j :: 0 <= j < |todo| ==> todo[j].recurring.None?) ==> ExpandFrom(todo, acc, today) == Ok(acc)
    decreases |todo|
  {
    if todo != [] {
      var tx := todo[0];
      var acc' := if tx.recurring.None? then acc else AddOccurrences(acc, tx, SeriesOf(tx, today));
      ExpandFromFails(todo[1..], acc', today);
      if exists j :: 0 <= j < |todo[1..]| && todo[1..][j].recurring.Some? && Window(todo[1..][j].recurring.value, today).Err? {
        var j :| 0 <= j < |todo[1..]| && todo[1..][j].recurring.Some? && Window(todo[1..][j].recurring.value, today).Err?;
        assert todo[j + 1] == todo[1..][j];
      }
      if exists j :: 0 <= j < |todo| && todo[j].recurring.Some? && Window(todo[j].recurring.value, today).Err? {
        var j :| 0 <= j < |todo| && todo[j].recurring.Some? && Window(todo[j].recurring.value, today).Err?;
        if j > 0 {
          assert todo[1..][j - 1] == todo[j];
        }
      }
      if forall j :: 0 <= j < |todo| ==> todo[j].recurring.None? {
        assert forall j :: 0 <= j < |todo[1..]| ==> todo[1..][j] == todo[j + 1];
      }
    }
  }

  /** A list with no recurring template expands to itself. */
  lemma ExpandPlain(base: seq<Transaction>, today: Date)
    requires ValidDate(today)
    requires forall j :: 0 <= j < |base| ==> base[j].recurring.None?
    ensures Expand(base, today) == Ok(base)
  {
    ExpandFromFails(base, base, today);
  }

  /** `_expandRecurring(base, now)`. */
  method ExpandRecurring(base: seq<Transaction>, today: Date) returns (r: Result<seq<Transaction>>)
    requires ValidDate(today)
    ensures r == Expand(base, today)
  {
    var expanded := base;
    var k := 0;
    while k < |base|
      invariant 0 <= k <= |base|
      invariant ExpandFrom(base[k..], expanded, today) == Expand(base, today)
    {
      var tx := base[k];
      assert base[k..][1..] == base[k + 1..];
      if tx.recurring.None? {
        k := k + 1;
        continue;
      }
      var rec := tx.recurring.value;
      var window := Window(rec, today);
      if window.Err? {
        return Err(InvalidDate);
      }
      var current, end := window.value.0, window.value.1;
      ghost var before := expanded;
      while !Before(end, current)
        invariant ValidDate(current)
        invariant AddOccurrences(expanded, tx, Occurrences(current, end, rec.pattern))
               == AddOccurrences(before, tx, SeriesOf(tx, today))
        decreases Ord(end) - Ord(current)
      {
        var o := Occurrence(tx, current);
        var present := HasKey(expanded, o);
        if !present {
          expanded := expanded + [o];
        }
        current := Step(current, rec.pattern);
      }
      k := k + 1;
    }
    return Ok(expanded);
  }
}
