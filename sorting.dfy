/** The sorts the core asks of `Array.prototype.sort`: by a string key, with
    JavaScript's `<` on strings, ascending or descending. The library sort is
    stable; it is modelled here as a stable insertion sort on values. */
module Sorting {
  import opened Strings
  import opened Sums

  datatype Direction = Ascending | Descending

  /** In direction `dir`, key `a` belongs strictly before key `b`. */
  predicate Precedes(dir: Direction, a: string, b: string) {
    if dir == Ascending then LexLess(a, b) else LexLess(b, a)
  }

  lemma PrecedesFacts(dir: Direction, a: string, b: string, c: string)
    ensures !Precedes(dir, a, a)
    ensures Precedes(dir, a, b) && Precedes(dir, b, c) ==> Precedes(dir, a, c)
    ensures a != b ==> Precedes(dir, a, b) || Precedes(dir, b, a)
  {
    LexLessIrreflexive(a);
    if a != b {
      LexLessTotal(a, b);
    }
    if Precedes(dir, a, b) && Precedes(dir, b, c) {
      if dir == Ascending {
        LexLessTransitive(a, b, c);
      } else {
        LexLessTransitive(c, b, a);
      }
    }
  }

  /** No later element belongs strictly before an earlier one. */
  predicate Sorted<T>(s: seq<T>, key: T -> string, dir: Direction) {
    forall i, j :: 0 <= i < j < |s| ==> !Precedes(dir, key(s[j]), key(s[i]))
  }

  predicate DistinctKeys<T>(s: seq<T>, key: T -> string) {
    forall i, j :: 0 <= i < j < |s| ==> key(s[i]) != key(s[j])
  }

  /** Put `x` after every element it does not belong strictly before. */
  function Insert<T>(x: T, s: seq<T>, key: T -> string, dir: Direction): (r: seq<T>)
    ensures multiset(r) == multiset(s) + multiset{x}
  {
    if s == [] then [x]
    else if Precedes(dir, key(x), key(s[0])) then [x] + s
    else
      assert s == [s[0]] + s[1..];
      [s[0]] + Insert(x, s[1..], key, dir)
  }

  /** Sort by inserting each element, in input order, into the sorted prefix. */
  function SortBy<T>(s: seq<T>, key: T -> string, dir: Direction): (r: seq<T>)
    ensures multiset(r) == multiset(s)
  {
    if s == [] then []
    else
      assert s == s[..|s| - 1] + [s[|s| - 1]];
      Insert(s[|s| - 1], SortBy(s[..|s| - 1], key, dir), key, dir)
  }

  lemma {:induction false} InsertSorted<T>(x: T, s: seq<T>, key: T -> string, dir: Direction)
    requires Sorted(s, key, dir)
    ensures Sorted(Insert(x, s, key, dir), key, dir)
    decreases |s|
  {
    if s == [] {
    } else if Precedes(dir, key(x), key(s[0])) {
      var r := Insert(x, s, key, dir);
      forall i, j | 0 <= i < j < |r|
        ensures !Precedes(dir, key(r[j]), key(r[i]))
      {
        if i == 0 {
          PrecedesFacts(dir, key(s[j - 1]), key(x), key(s[0]));
        }
      }
    } else {
      var t := Insert(x, s[1..], key, dir);
      InsertSorted(x, s[1..], key, dir);
      var r := [s[0]] + t;
      forall j | 0 < j < |r|
        ensures !Precedes(dir, key(r[j]), key(s[0]))
      {
        InsertFrom(x, s[1..], key, dir, j - 1);
      }
    }
  }

  /** Each element of `Insert(x, s)` is `x` or an element of `s`. */
  lemma InsertFrom<T>(x: T, s: seq<T>, key: T -> string, dir: Direction, j: int)
    requires 0 <= j < |Insert(x, s, key, dir)|
    ensures var y := Insert(x, s, key, dir)[j];
      y == x || exists k :: 0 <= k < |s| && s[k] == y
  {
    var y := Insert(x, s, key, dir)[j];
    assert y in multiset(Insert(x, s, key, dir));
    if y != x {
      assert y in multiset(s);
    }
  }

  lemma {:induction false} SortBySorted<T>(s: seq<T>, key: T -> string, dir: Direction)
    ensures Sorted(SortBy(s, key, dir), key, dir)
    decreases |s|
  {
    if s != [] {
      SortBySorted(s[..|s| - 1], key, dir);
      InsertSorted(s[|s| - 1], SortBy(s[..|s| - 1], key, dir), key, dir);
    }
  }

  lemma {:induction false} InsertDistinct<T>(x: T, s: seq<T>, key: T -> string, dir: Direction)
    requires DistinctKeys(s, key)
    requires forall i :: 0 <= i < |s| ==> key(s[i]) != key(x)
    ensures DistinctKeys(Insert(x, s, key, dir), key)
    decreases |s|
  {
    if s != [] && !Precedes(dir, key(x), key(s[0])) {
      var t := Insert(x, s[1..], key, dir);
      InsertDistinct(x, s[1..], key, dir);
      var r := [s[0]] + t;
      forall j | 0 < j < |r|
        ensures key(r[j]) != key(s[0])
      {
        InsertFrom(x, s[1..], key, dir, j - 1);
        if r[j] != x {
          var k :| 0 <= k < |s[1..]| && s[1..][k] == r[j];
          assert s[k + 1] == r[j];
        }
      }
    }
  }

  lemma {:induction false} SortByDistinct<T>(s: seq<T>, key: T -> string, dir: Direction)
    requires DistinctKeys(s, key)
    ensures DistinctKeys(SortBy(s, key, dir), key)
    decreases |s|
  {
    if s != [] {
      var p := s[..|s| - 1];
      var x := s[|s| - 1];
      SortByDistinct(p, key, dir);
      var q := SortBy(p, key, dir);
      forall i | 0 <= i < |q|
        ensures key(q[i]) != key(x)
      {
        assert q[i] in multiset(p);
        var k :| 0 <= k < |p| && p[k] == q[i];
        assert s[k] == q[i];
      }
      InsertDistinct(x, q, key, dir);
    }
  }

  /** Sorted ascending with distinct keys means strictly ascending. */
  lemma StrictlyAscending<T>(s: seq<T>, key: T -> string)
    requires Sorted(s, key, Ascending) && DistinctKeys(s, key)
    ensures forall i, j :: 0 <= i < j < |s| ==> LexLess(key(s[i]), key(s[j]))
  {
    forall i, j | 0 <= i < j < |s|
      ensures LexLess(key(s[i]), key(s[j]))
    {
      LexLessTotal(key(s[i]), key(s[j]));
    }
  }

  lemma {:induction false} SumOfInsert<T>(x: T, s: seq<T>, key: T -> string, dir: Direction, f: T -> real)
    ensures SumOf(Insert(x, s, key, dir), f) == f(x) + SumOf(s, f)
    decreases |s|
  {
    if s != [] && !Precedes(dir, key(x), key(s[0])) {
      SumOfInsert(x, s[1..], key, dir, f);
      assert ([s[0]] + Insert(x, s[1..], key, dir))[1..] == Insert(x, s[1..], key, dir);
    } else if s != [] {
      assert ([x] + s)[1..] == s;
    }
  }

  lemma {:induction false} SumOfSortBy<T>(s: seq<T>, key: T -> string, dir: Direction, f: T -> real)
    ensures SumOf(SortBy(s, key, dir), f) == SumOf(s, f)
    decreases |s|
  {
    if s != [] {
      var p := s[..|s| - 1];
      SumOfSortBy(p, key, dir, f);
      SumOfInsert(s[|s| - 1], SortBy(p, key, dir), key, dir, f);
      SumOfSnoc(p, s[|s| - 1], f);
      assert p + [s[|s| - 1]] == s;
    }
  }
}
