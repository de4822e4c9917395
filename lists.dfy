/** `Array.prototype.filter` on values: keep, in order, the elements a
    predicate accepts. */
module Lists {

  function Keep<T>(s: seq<T>, p: T -> bool): (r: seq<T>)
    ensures |r| <= |s|
    ensures forall i :: 0 <= i < |r| ==> r[i] in s && p(r[i])
    ensures forall i :: 0 <= i < |s| && p(s[i]) ==> s[i] in r
  {
    if s == [] then [] else (if p(s[0]) then [s[0]] else []) + Keep(s[1..], p)
  }

  /** Filtering distributes over concatenation, so the kept elements stay in
      their original order. */
  lemma {:induction false} KeepAppend<T>(s: seq<T>, t: seq<T>, p: T -> bool)
    ensures Keep(s + t, p) == Keep(s, p) + Keep(t, p)
    decreases |s|
  {
    if s != [] {
      assert (s + t)[0] == s[0] && (s + t)[1..] == s[1..] + t;
      KeepAppend(s[1..], t, p);
    } else {
      assert s + t == t;
    }
  }

  /** Filtering with a predicate every element passes changes nothing. */
  lemma {:induction false} KeepAll<T>(s: seq<T>, p: T -> bool)
    requires forall i :: 0 <= i < |s| ==> p(s[i])
    ensures Keep(s, p) == s
    decreases |s|
  {
    if s != [] {
      KeepAll(s[1..], p);
    }
  }

  /** The kept elements are taken from `s`, with no element more often than in `s`. */
  lemma {:induction false} KeepSubMultiset<T>(s: seq<T>, p: T -> bool)
    ensures multiset(Keep(s, p)) <= multiset(s)
    decreases |s|
  {
    if s != [] {
      KeepSubMultiset(s[1..], p);
      assert s == [s[0]] + s[1..];
    }
  }

  /** A non-empty sequence is its front followed by its last element. */
  lemma FrontLast<T>(s: seq<T>)
    requires s != []
    ensures s[..|s| - 1] + [s[|s| - 1]] == s
  {
  }
}
