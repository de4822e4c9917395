/** Grouped sums: `map.set(k, (map.get(k) || 0) + amount)` over a loop, with
    the JavaScript `Map` modelled as its entries in insertion order, which is
    the order `Array.from(map)` yields them in. */
module Grouping {
  import opened Sums
  import opened Sorting

  datatype Entry = Entry(key: string, total: real)

  function KeyOf(e: Entry): string { e.key }
  function TotalOf(e: Entry): real { e.total }

  /** The position of key `k`, or -1 when absent. */
  function Find(es: seq<Entry>, k: string): (i: int)
    ensures -1 <= i < |es|
    ensures i >= 0 ==> es[i].key == k
    ensures i < 0 <==> forall j :: 0 <= j < |es| ==> es[j].key != k
  {
    if es == [] then -1
    else if es[|es| - 1].key == k then |es| - 1
    else Find(es[..|es| - 1], k)
  }

  /** `map.get(k) || 0`. */
  function Lookup(es: seq<Entry>, k: string): real {
    var i := Find(es, k);
    if i >= 0 then es[i].total else 0.0
  }

  /** `map.set(k, (map.get(k) || 0) + a)`. */
  function Upsert(es: seq<Entry>, k: string, a: real): seq<Entry> {
    var i := Find(es, k);
    if i >= 0 then es[i := Entry(k, es[i].total + a)] else es + [Entry(k, a)]
  }

  /** The entries after adding each (key, amount) pair in turn to an empty map. */
  function GroupTotals(ps: seq<(string, real)>): seq<Entry> {
    if ps == [] then [] else Upsert(GroupTotals(ps[..|ps| - 1]), ps[|ps| - 1].0, ps[|ps| - 1].1)
  }

  /** One more pair is one more `map.set` on the entries built so far. */
  lemma GroupTotalsSnoc(ps: seq<(string, real)>, k: string, a: real)
    ensures GroupTotals(ps + [(k, a)]) == Upsert(GroupTotals(ps), k, a)
  {
    assert (ps + [(k, a)])[..|ps|] == ps;
  }

  predicate HasPair(ps: seq<(string, real)>, k: string) {
    exists i :: 0 <= i < |ps| && ps[i].0 == k
  }

  /** The sum of the amounts paired with key `k`. */
  function SumKey(ps: seq<(string, real)>, k: string): real {
    if ps == [] then 0.0
    else SumKey(ps[..|ps| - 1], k) + (if ps[|ps| - 1].0 == k then ps[|ps| - 1].1 else 0.0)
  }

  function SumPairs(ps: seq<(string, real)>): real {
    if ps == [] then 0.0 else SumPairs(ps[..|ps| - 1]) + ps[|ps| - 1].1
  }

  /** One entry per key that occurs among the pairs and none for other keys,
      each holding the sum of the amounts paired with its key. */
  lemma {:induction false} GroupTotalsEntries(ps: seq<(string, real)>)
    ensures var es := GroupTotals(ps);
      && DistinctKeys(es, KeyOf)
      && (forall k :: Find(es, k) >= 0 <==> HasPair(ps, k))
      && (forall k :: Lookup(es, k) == SumKey(ps, k))
    decreases |ps|
  {
    if ps != [] {
      var init := ps[..|ps| - 1];
      GroupTotalsEntries(init);
      UpsertFacts(GroupTotals(init), ps[|ps| - 1].0, ps[|ps| - 1].1);
      forall k ensures HasPair(ps, k) <==> HasPair(init, k) || ps[|ps| - 1].0 == k {
        HasPairSnoc(ps, k);
      }
    }
  }

  /** What one `map.set(k, (map.get(k) || 0) + a)` does to the entries. */
  lemma UpsertFacts(es: seq<Entry>, k0: string, a: real)
    requires DistinctKeys(es, KeyOf)
    ensures var es' := Upsert(es, k0, a);
      && DistinctKeys(es', KeyOf)
      && (forall k :: Find(es', k) >= 0 <==> Find(es, k) >= 0 || k == k0)
      && (forall k :: Lookup(es', k) == Lookup(es, k) + (if k == k0 then a else 0.0))
  {
    var es' := Upsert(es, k0, a);
    var i0 := Find(es, k0);
    if i0 < 0 {
      assert es' == es + [Entry(k0, a)];
      UpsertNew(es, k0, a);
      forall k
        ensures Find(es', k) >= 0 <==> Find(es, k) >= 0 || k == k0
        ensures Lookup(es', k) == Lookup(es, k) + (if k == k0 then a else 0.0)
      {
        assert Find(es', k) == (if k == k0 then |es| else Find(es, k));
      }
    } else {
      assert es' == es[i0 := Entry(es[i0].key, es[i0].total + a)];
      UpsertExisting(es, i0, a);
      forall k
        ensures Find(es', k) >= 0 <==> Find(es, k) >= 0 || k == k0
        ensures Lookup(es', k) == Lookup(es, k) + (if k == k0 then a else 0.0)
      {
        assert Find(es', k) == Find(es, k);
      }
    }
  }

  /** A new key is appended after the existing entries. */
  lemma UpsertNew(es: seq<Entry>, k0: string, a: real)
    requires DistinctKeys(es, KeyOf) && Find(es, k0) < 0
    ensures DistinctKeys(es + [Entry(k0, a)], KeyOf)
    ensures forall k :: Find(es + [Entry(k0, a)], k) == (if k == k0 then |es| else Find(es, k))
  {
    var es' := es + [Entry(k0, a)];
    assert es'[..|es'| - 1] == es;
  }

  /** Adding to an existing entry moves no key. */
  lemma UpsertExisting(es: seq<Entry>, i0: int, a: real)
    requires DistinctKeys(es, KeyOf) && 0 <= i0 < |es|
    ensures DistinctKeys(es[i0 := Entry(es[i0].key, es[i0].total + a)], KeyOf)
    ensures forall k :: Find(es[i0 := Entry(es[i0].key, es[i0].total + a)], k) == Find(es, k)
  {
    forall k ensures Find(es[i0 := Entry(es[i0].key, es[i0].total + a)], k) == Find(es, k) {
      FindAfterUpdate(es, i0, a, k);
    }
  }

  lemma HasPairSnoc(ps: seq<(string, real)>, k: string)
    requires ps != []
    ensures HasPair(ps, k) <==> HasPair(ps[..|ps| - 1], k) || ps[|ps| - 1].0 == k
  {
    var init := ps[..|ps| - 1];
    if HasPair(ps, k) && ps[|ps| - 1].0 != k {
      var i :| 0 <= i < |ps| && ps[i].0 == k;
      assert init[i].0 == k;
    }
    if HasPair(init, k) {
      var i :| 0 <= i < |init| && init[i].0 == k;
      assert ps[i].0 == k;
    }
  }

  lemma {:induction false} FindAfterUpdate(es: seq<Entry>, i: int, a: real, k: string)
    requires DistinctKeys(es, KeyOf) && 0 <= i < |es|
    ensures Find(es[i := Entry(es[i].key, es[i].total + a)], k) == Find(es, k)
    decreases |es|
  {
    var es' := es[i := Entry(es[i].key, es[i].total + a)];
    if i < |es| - 1 {
      assert es'[..|es'| - 1] == es[..|es| - 1][i := Entry(es[i].key, es[i].total + a)];
      FindAfterUpdate(es[..|es| - 1], i, a, k);
    } else {
      assert es'[..|es'| - 1] == es[..|es| - 1];
    }
  }

  /** The totals add up to the sum of all amounts. */
  lemma {:induction false} GroupTotalsSum(ps: seq<(string, real)>)
    ensures SumOf(GroupTotals(ps), TotalOf) == SumPairs(ps)
    decreases |ps|
  {
    if ps != [] {
      var init := ps[..|ps| - 1];
      var (k0, a0) := ps[|ps| - 1];
      GroupTotalsSum(init);
      var es := GroupTotals(init);
      var i := Find(es, k0);
      if i >= 0 {
        SumOfUpdate(es, i, Entry(k0, es[i].total + a0), TotalOf);
      } else {
        SumOfSnoc(es, Entry(k0, a0), TotalOf);
      }
    }
  }

  /** Upserting keeps every existing key in place and appends only a new key. */
  lemma UpsertKeys(es: seq<Entry>, k0: string, a: real)
    ensures var es' := Upsert(es, k0, a);
      && |es| <= |es'| <= |es| + 1
      && (forall i :: 0 <= i < |es| ==> es'[i].key == es[i].key)
      && (|es'| > |es| ==> es'[|es|].key == k0 && Find(es, k0) < 0)
  {
  }

  /** With distinct keys, looking up an entry's own key finds that entry. */
  lemma LookupOwnKey(es: seq<Entry>, x: int)
    requires DistinctKeys(es, KeyOf) && 0 <= x < |es|
    ensures Find(es, es[x].key) == x && Lookup(es, es[x].key) == es[x].total
  {
  }

  /** A reordering of the entries (the chart's sort) still holds each key's
      total. */
  lemma ReorderedTotals(es: seq<Entry>, data: seq<Entry>)
    requires DistinctKeys(es, KeyOf) && multiset(data) == multiset(es)
    ensures forall i :: 0 <= i < |data| ==> data[i].total == Lookup(es, data[i].key)
  {
    forall i | 0 <= i < |data|
      ensures data[i].total == Lookup(es, data[i].key)
    {
      assert data[i] in multiset(es);
      var x :| 0 <= x < |es| && es[x] == data[i];
      LookupOwnKey(es, x);
    }
  }

  /** A reordering of the entries holds exactly the keys the entries hold. */
  lemma ReorderedKeys(es: seq<Entry>, data: seq<Entry>)
    requires multiset(data) == multiset(es)
    ensures forall k :: Find(es, k) >= 0 <==> exists i :: 0 <= i < |data| && data[i].key == k
  {
    forall k | Find(es, k) >= 0
      ensures exists i :: 0 <= i < |data| && data[i].key == k
    {
      var x := Find(es, k);
      assert es[x] in multiset(data);
      var i :| 0 <= i < |data| && data[i] == es[x];
    }
    forall k | exists i :: 0 <= i < |data| && data[i].key == k
      ensures Find(es, k) >= 0
    {
      var i :| 0 <= i < |data| && data[i].key == k;
      assert data[i] in multiset(es);
      var x :| 0 <= x < |es| && es[x] == data[i];
    }
  }
}
