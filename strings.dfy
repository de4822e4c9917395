/** The JavaScript string operations the core relies on: the `<` order on
    strings, `trim`, `toLowerCase`, `includes`, `split` and `join`, and the
    decimal digits that dates are written with. */
module Strings {

  /** JavaScript's `a < b` on strings: lexicographic by character. */
  predicate LexLess(a: string, b: string)
    decreases |a|
  {
    if a == [] then b != []
    else if b == [] then false
    else if a[0] != b[0] then a[0] < b[0]
    else LexLess(a[1..], b[1..])
  }

  lemma {:induction false} LexLessIrreflexive(a: string)
    ensures !LexLess(a, a)
    decreases |a|
  {
    if a != [] {
      LexLessIrreflexive(a[1..]);
    }
  }

  lemma {:induction false} LexLessTransitive(a: string, b: string, c: string)
    requires LexLess(a, b) && LexLess(b, c)
    ensures LexLess(a, c)
    decreases |a|
  {
    if a != [] && a[0] == b[0] && b[0] == c[0] {
      LexLessTransitive(a[1..], b[1..], c[1..]);
    }
  }

  /** Any two different strings are ordered one way or the other. */
  lemma {:induction false} LexLessTotal(a: string, b: string)
    requires a != b
    ensures LexLess(a, b) || LexLess(b, a)
    decreases |a|
  {
    if a != [] && b != [] && a[0] == b[0] {
      assert a == [a[0]] + a[1..] && b == [b[0]] + b[1..];
      LexLessTotal(a[1..], b[1..]);
    }
  }

  lemma {:induction false} LexLessAsymmetric(a: string, b: string)
    requires LexLess(a, b)
    ensures !LexLess(b, a)
  {
    if LexLess(b, a) {
      LexLessTransitive(a, b, a);
      LexLessIrreflexive(a);
    }
  }

  /** The characters `trim` removes: the white space of ECMAScript (tab,
      vertical tab, form feed, the byte order mark and every Unicode space
      separator) and its line terminators. */
  predicate IsSpace(c: char) {
    || c == '\t' || c == '\n' || c == '\U{000B}' || c == '\U{000C}' || c == '\r'
    || c == ' ' || c == '\U{00A0}' || c == '\U{1680}'
    || ('\U{2000}' <= c <= '\U{200A}')
    || c == '\U{2028}' || c == '\U{2029}' || c == '\U{202F}' || c == '\U{205F}'
    || c == '\U{3000}' || c == '\U{FEFF}'
  }

  /** Neither end of `s` is a space, so `trim` leaves it alone. */
  predicate Trimmed(s: string) {
    s == [] || (!IsSpace(s[0]) && !IsSpace(s[|s| - 1]))
  }

  function TrimStart(s: string): (r: string)
    ensures |r| <= |s| && r == s[|s| - |r|..]
    ensures r == [] || !IsSpace(r[0])
    ensures (s == [] || !IsSpace(s[0])) ==> r == s
    ensures forall i :: 0 <= i < |s| - |r| ==> IsSpace(s[i])
  {
    if s != [] && IsSpace(s[0]) then TrimStart(s[1..]) else s
  }

  function TrimEnd(s: string): (r: string)
    ensures |r| <= |s| && r == s[..|r|]
    ensures r == [] || !IsSpace(r[|r| - 1])
    ensures (s == [] || !IsSpace(s[|s| - 1])) ==> r == s
    ensures forall i :: |r| <= i < |s| ==> IsSpace(s[i])
  {
    if s != [] && IsSpace(s[|s| - 1]) then TrimEnd(s[..|s| - 1]) else s
  }

  /** `String.prototype.trim`. */
  function Trim(s: string): (r: string)
    ensures Trimmed(r)
    ensures Trimmed(s) ==> r == s
    ensures |r| <= |s|
    ensures r == [] <==> forall i :: 0 <= i < |s| ==> IsSpace(s[i])
  {
    var t := TrimStart(s);
    var r := TrimEnd(t);
    assert r != [] ==> r[0] == t[0];
    r
  }

  /** `trim` is idempotent. */
  lemma TrimIdempotent(s: string)
    ensures Trim(Trim(s)) == Trim(s)
  {
  }

  /** One white-space character before a trimmed value is removed: with
      the Unicode space separators in `IsSpace`, an ideographic space
      (U+3000) in front of `expense` goes as well as a plain blank. */
  lemma TrimDropsLeadingSpace(c: char, v: string)
    requires IsSpace(c) && Trimmed(v)
    ensures Trim([c] + v) == v
  {
    assert ([c] + v)[1..] == v;
    assert TrimStart([c] + v) == TrimStart(v) == v;
  }

  /** One white-space character after a trimmed value is removed. */
  lemma TrimDropsTrailingSpace(v: string, c: char)
    requires IsSpace(c) && Trimmed(v)
    ensures Trim(v + [c]) == v
  {
    if v == [] {
      assert [] + [c] == [c] && [c][1..] == [];
    } else {
      assert (v + [c])[0] == v[0];
      assert TrimStart(v + [c]) == v + [c];
      assert (v + [c])[..|v|] == v;
      assert TrimEnd(v + [c]) == TrimEnd(v) == v;
    }
  }

  /** `toLowerCase`, on the ASCII letters. */
  function ToLower(s: string): (r: string)
    ensures |r| == |s|
    ensures forall i :: 0 <= i < |s| ==> r[i] == (if 'A' <= s[i] <= 'Z' then (s[i] as int + 32) as char else s[i])
  {
    if s == [] then []
    else [if 'A' <= s[0] <= 'Z' then (s[0] as int + 32) as char else s[0]] + ToLower(s[1..])
  }

  /** `hay.includes(needle)`. */
  predicate Contains(hay: string, needle: string) {
    exists i | 0 <= i <= |hay| - |needle| :: OccursAt(hay, needle, i)
  }

  /** A text contains whatever lies inside it. */
  lemma ContainsInfix(a: string, needle: string, b: string)
    ensures Contains(a + needle + b, needle)
  {
    var hay := a + needle + b;
    assert hay[|a|..|a| + |needle|] == needle;
    assert OccursAt(hay, needle, |a|);
  }

  predicate OccursAt(hay: string, needle: string, i: int) {
    0 <= i <= |hay| - |needle| && hay[i..i + |needle|] == needle
  }

  predicate HasChar(s: string, c: char) {
    exists i :: 0 <= i < |s| && s[i] == c
  }

  /** `xs.join(sep)` with a one-character separator. */
  function Join(sep: char, xs: seq<string>): string {
    if |xs| == 0 then ""
    else if |xs| == 1 then xs[0]
    else xs[0] + [sep] + Join(sep, xs[1..])
  }

  /** `s.split(sep)` with a one-character separator: never empty. */
  function Split(s: string, sep: char): (r: seq<string>)
    ensures |r| >= 1
  {
    if s == [] then [""]
    else
      var rest := Split(s[1..], sep);
      if s[0] == sep then [""] + rest else [[s[0]] + rest[0]] + rest[1..]
  }

  lemma {:induction false} SplitNoSep(x: string, sep: char, t: string)
    requires !HasChar(x, sep)
    ensures Split(x + [sep] + t, sep) == [x] + Split(t, sep)
    ensures Split(x, sep) == [x]
    decreases |x|
  {
    if x == [] {
      assert [] + [sep] + t == [sep] + t;
      assert ([sep] + t)[1..] == t;
    } else {
      assert !HasChar(x[1..], sep) by {
        forall i | 0 <= i < |x[1..]| ensures x[1..][i] != sep { assert x[1..][i] == x[i + 1]; }
      }
      SplitNoSep(x[1..], sep, t);
      assert x[0] != sep;
      assert (x + [sep] + t)[1..] == x[1..] + [sep] + t;
      assert [x[0]] + x[1..] == x;
    }
  }

  /** Splitting what was joined gives back the pieces, when no piece holds the separator. */
  lemma {:induction false} SplitJoin(xs: seq<string>, sep: char)
    requires |xs| >= 1
    requires forall i :: 0 <= i < |xs| ==> !HasChar(xs[i], sep)
    ensures Split(Join(sep, xs), sep) == xs
    decreases |xs|
  {
    if |xs| == 1 {
      SplitNoSep(xs[0], sep, "");
    } else {
      SplitJoin(xs[1..], sep);
      SplitNoSep(xs[0], sep, Join(sep, xs[1..]));
      assert [xs[0]] + xs[1..] == xs;
    }
  }

  /** `s.split(/\r?\n/)`: lines end at `\n`, and a `\r` just before it goes too. */
  function SplitLines(s: string): (r: seq<string>)
    ensures |r| >= 1
  {
    if s == [] then [""]
    else if s[0] == '\n' then [""] + SplitLines(s[1..])
    else if |s| >= 2 && s[0] == '\r' && s[1] == '\n' then [""] + SplitLines(s[2..])
    else
      var rest := SplitLines(s[1..]);
      [[s[0]] + rest[0]] + rest[1..]
  }

  predicate NoLineBreak(s: string) {
    !HasChar(s, '\n') && !HasChar(s, '\r')
  }

  lemma {:induction false} SplitLinesOne(x: string, t: string)
    requires NoLineBreak(x)
    ensures SplitLines(x + "\n" + t) == [x] + SplitLines(t)
    ensures SplitLines(x) == [x]
    decreases |x|
  {
    if x == [] {
      assert [] + "\n" + t == "\n" + t;
      assert ("\n" + t)[1..] == t;
    } else {
      assert NoLineBreak(x[1..]) by {
        forall i | 0 <= i < |x[1..]| ensures x[1..][i] != '\n' && x[1..][i] != '\r' { assert x[1..][i] == x[i + 1]; }
      }
      SplitLinesOne(x[1..], t);
      assert x[0] != '\n' && x[0] != '\r';
      assert (x + "\n" + t)[1..] == x[1..] + "\n" + t;
      assert [x[0]] + x[1..] == x;
    }
  }

  /** Splitting lines joined with `\n` gives back the lines, when none holds a line break. */
  lemma {:induction false} SplitLinesJoin(ls: seq<string>)
    requires |ls| >= 1
    requires forall i :: 0 <= i < |ls| ==> NoLineBreak(ls[i])
    ensures SplitLines(Join('\n', ls)) == ls
    decreases |ls|
  {
    if |ls| == 1 {
      SplitLinesOne(ls[0], "");
    } else {
      SplitLinesJoin(ls[1..]);
      SplitLinesOne(ls[0], Join('\n', ls[1..]));
      assert [ls[0]] + ls[1..] == ls;
    }
  }

  // ---- decimal digits ----

  predicate IsDigits(s: string) {
    forall i :: 0 <= i < |s| ==> '0' <= s[i] <= '9'
  }

  function DigitChar(k: int): (c: char)
    requires 0 <= k < 10
    ensures '0' <= c <= '9' && c as int - '0' as int == k
  {
    ('0' as int + k) as char
  }

  /** The decimal numeral of `n`, without leading zeros. */
  function Decimal(n: nat): (s: string)
    ensures 1 <= |s| && IsDigits(s)
  {
    if n < 10 then [DigitChar(n)] else Decimal(n / 10) + [DigitChar(n % 10)]
  }

  /** `n` written with at least `w` digits, padded with leading zeros. */
  function Padded(n: nat, w: nat): (s: string)
    ensures IsDigits(s) && |s| >= w
  {
    ZeroPad(Decimal(n), w)
  }

  function ZeroPad(s: string, w: nat): (r: string)
    requires IsDigits(s)
    ensures IsDigits(r) && |r| >= w && |r| >= |s|
    decreases w - |s|
  {
    if |s| >= w then s else ZeroPad(['0'] + s, w)
  }

  /** The number a string of digits denotes. */
  function DigitsValue(s: string): nat
    requires IsDigits(s)
  {
    if s == [] then 0 else DigitsValue(s[..|s| - 1]) * 10 + (s[|s| - 1] as int - '0' as int)
  }

  function Pow10(k: nat): nat {
    if k == 0 then 1 else 10 * Pow10(k - 1)
  }

  lemma {:induction false} DigitsValueBound(s: string)
    requires IsDigits(s)
    ensures DigitsValue(s) < Pow10(|s|)
    decreases |s|
  {
    if s != [] {
      DigitsValueBound(s[..|s| - 1]);
    }
  }

  lemma {:induction false} DecimalValue(n: nat)
    ensures DigitsValue(Decimal(n)) == n
  {
    if n >= 10 {
      DecimalValue(n / 10);
      var s := Decimal(n);
      assert s[..|s| - 1] == Decimal(n / 10);
    }
  }

  lemma {:induction false} DecimalLength(n: nat, k: nat)
    requires 1 <= k && n < Pow10(k)
    ensures |Decimal(n)| <= k
  {
    if n >= 10 {
      assert k >= 2;
      DecimalLength(n / 10, k - 1);
    }
  }

  lemma {:induction false} LeadingZeroValue(s: string)
    requires IsDigits(s)
    ensures DigitsValue(['0'] + s) == DigitsValue(s)
    decreases |s|
  {
    if s != [] {
      var t := ['0'] + s;
      assert t[..|t| - 1] == ['0'] + s[..|s| - 1];
      LeadingZeroValue(s[..|s| - 1]);
    }
  }

  lemma {:induction false} ZeroPadValue(s: string, w: nat)
    requires IsDigits(s)
    ensures DigitsValue(ZeroPad(s, w)) == DigitsValue(s)
    ensures |ZeroPad(s, w)| == if |s| >= w then |s| else w
    decreases w - |s|
  {
    if |s| < w {
      LeadingZeroValue(s);
      ZeroPadValue(['0'] + s, w);
    }
  }

  /** A number below 10^w is written in exactly w digits and reads back as itself. */
  lemma PaddedRoundTrip(n: nat, w: nat)
    requires 1 <= w && n < Pow10(w)
    ensures |Padded(n, w)| == w
    ensures DigitsValue(Padded(n, w)) == n
  {
    DecimalLength(n, w);
    DecimalValue(n);
    ZeroPadValue(Decimal(n), w);
  }

  /** On numerals of equal length, `<` on the text is `<` on the numbers,
      and equal texts are equal numbers. */
  lemma {:induction false} LexLessDigits(a: string, b: string)
    requires IsDigits(a) && IsDigits(b) && |a| == |b|
    ensures LexLess(a, b) <==> DigitsValue(a) < DigitsValue(b)
    ensures a == b <==> DigitsValue(a) == DigitsValue(b)
    decreases |a|
  {
    if a != [] {
      var a', b' := a[..|a| - 1], b[..|b| - 1];
      var x, y := a[|a| - 1], b[|b| - 1];
      LexLessDigits(a', b');
      assert a == a' + [x] && b == b' + [y];
      LexLessAppend(a', [x], b', [y]);
      assert LexLess([x], [y]) <==> x < y;
      assert a == b <==> a' == b' && x == y;
    }
  }

  /** Comparing two texts that start with prefixes of the same length: the
      prefixes decide unless they are equal. */
  lemma {:induction false} LexLessAppend(x: string, y: string, x': string, y': string)
    requires |x| == |x'|
    ensures x == x' ==> (LexLess(x + y, x' + y') <==> LexLess(y, y'))
    ensures x != x' ==> (LexLess(x + y, x' + y') <==> LexLess(x, x'))
    decreases |x|
  {
    if x == [] {
      assert x + y == y && x' + y' == y';
    } else {
      assert (x + y)[0] == x[0] && (x' + y')[0] == x'[0];
      assert (x + y)[1..] == x[1..] + y;
      assert (x' + y')[1..] == x'[1..] + y';
      if x[0] == x'[0] {
        assert x == x' <==> x[1..] == x'[1..];
        LexLessAppend(x[1..], y, x'[1..], y');
      }
    }
  }
}
