/** Python `str` operations the scripts rely on, over `string` (= seq<char>), with the facts the
    rest of the model needs about them. Python 2 byte strings: whitespace is the six ASCII
    characters of `string.whitespace`, and ordering is by character code. */
module Str {

  /** `s.startswith(p)` */
  predicate StartsWith(s: string, p: string) { |p| <= |s| && s[..|p|] == p }

  /** `s.endswith(p)` */
  predicate EndsWith(s: string, p: string) { |p| <= |s| && s[|s| - |p|..] == p }

  /** `sub in s` */
  predicate Contains(s: string, sub: string)
    decreases |s|
  {
    StartsWith(s, sub) || (|s| > 0 && Contains(s[1..], sub))
  }

  /** `c in s` for a single character */
  predicate HasChar(s: string, c: char) { c in s }

  lemma ContainsAt(s: string, sub: string, i: nat)
    requires i + |sub| <= |s| && s[i..i + |sub|] == sub
    ensures Contains(s, sub)
    decreases i
  {
    if i > 0 {
      assert s[1..][i - 1..i - 1 + |sub|] == sub;
      ContainsAt(s[1..], sub, i - 1);
    }
  }

  lemma ContainsWitness(s: string, sub: string) returns (i: nat)
    requires Contains(s, sub)
    ensures i + |sub| <= |s| && s[i..i + |sub|] == sub
    decreases |s|
  {
    if StartsWith(s, sub) {
      i := 0;
    } else {
      var j := ContainsWitness(s[1..], sub);
      i := j + 1;
      assert s[i..i + |sub|] == s[1..][j..j + |sub|];
    }
  }

  /** `s.find(sub)`: the first index where `sub` occurs, or -1. */
  function Find(s: string, sub: string): (r: int)
    ensures -1 <= r <= |s|
    ensures r == -1 <==> !Contains(s, sub)
    ensures r >= 0 ==> r + |sub| <= |s| && s[r..r + |sub|] == sub
    ensures r >= 0 ==> forall k :: 0 <= k < r ==> !StartsWith(s[k..], sub)
    decreases |s|
  {
    if StartsWith(s, sub) then 0
    else if |s| == 0 then -1
    else
      var r := Find(s[1..], sub);
      if r == -1 then -1
      else
        FindShift(s, sub, r);
        r + 1
  }

  /** An occurrence in the tail, with none before it, is one position further on in `s`. */
  lemma FindShift(s: string, sub: string, r: nat)
    requires s != [] && r + |sub| <= |s| - 1 && s[1..][r..r + |sub|] == sub
    requires forall k :: 0 <= k < r ==> !StartsWith(s[1..][k..], sub)
    ensures s[r + 1..r + 1 + |sub|] == sub
    ensures forall k :: 1 <= k < r + 1 ==> !StartsWith(s[k..], sub)
  {
    assert s[r + 1..r + 1 + |sub|] == s[1..][r..r + |sub|];
    forall k | 1 <= k < r + 1 ensures !StartsWith(s[k..], sub) {
      assert s[k..] == s[1..][k - 1..];
    }
  }

  /** `s.index(c)` for a character `s` holds: its first position. */
  function IndexOf(s: string, c: char): (i: nat)
    requires c in s
    ensures i < |s| && s[i] == c && c !in s[..i]
  {
    if s[0] == c then 0
    else
      var i := IndexOf(s[1..], c) + 1;
      assert s[..i] == [s[0]] + s[1..][..i - 1];
      i
  }

  /** `s.replace(pat, rep)` for a non-empty `pat`: leftmost occurrences, not overlapping. */
  function Replace(s: string, pat: string, rep: string): string
    requires pat != []
    decreases |s|
  {
    if |s| < |pat| then s
    else if s[..|pat|] == pat then rep + Replace(s[|pat|..], pat, rep)
    else [s[0]] + Replace(s[1..], pat, rep)
  }

  /** Replacing a pattern that does not occur changes nothing. */
  lemma {:induction false} ReplaceAbsent(s: string, pat: string, rep: string)
    requires pat != [] && !Contains(s, pat)
    ensures Replace(s, pat, rep) == s
    decreases |s|
  {
    if |s| >= |pat| {
      assert !StartsWith(s, pat);
      ReplaceAbsent(s[1..], pat, rep);
    }
  }

  /** Replacing by something shorter never lengthens the text. */
  lemma {:induction false} ReplaceNotLonger(s: string, pat: string, rep: string)
    requires pat != [] && |rep| <= |pat|
    ensures |Replace(s, pat, rep)| <= |s|
    decreases |s|
  {
    if |s| >= |pat| {
      if s[..|pat|] == pat {
        ReplaceNotLonger(s[|pat|..], pat, rep);
      } else {
        ReplaceNotLonger(s[1..], pat, rep);
      }
    }
  }

  /** Replacing an occurring pattern by something strictly shorter shortens the text: the
      `while x in s: s = s.replace(x, y)` loops of the scripts terminate. */
  lemma {:induction false} ReplaceShrinks(s: string, pat: string, rep: string)
    requires pat != [] && |rep| < |pat| && Contains(s, pat)
    ensures |Replace(s, pat, rep)| < |s|
    decreases |s|
  {
    if StartsWith(s, pat) {
      ReplaceNotLonger(s[|pat|..], pat, rep);
    } else {
      ReplaceShrinks(s[1..], pat, rep);
    }
  }

  /** `sep.join(xs)` */
  function Join(sep: string, xs: seq<string>): string
  {
    if |xs| == 0 then ""
    else if |xs| == 1 then xs[0]
    else xs[0] + sep + Join(sep, xs[1..])
  }

  /** The concatenation of a list of strings, `''.join(xs)`. */
  function Concat(xs: seq<string>): string
  {
    if xs == [] then "" else xs[0] + Concat(xs[1..])
  }

  lemma {:induction false} ConcatAppend(xs: seq<string>, ys: seq<string>)
    ensures Concat(xs + ys) == Concat(xs) + Concat(ys)
  {
    if xs != [] {
      assert (xs + ys)[1..] == xs[1..] + ys;
      ConcatAppend(xs[1..], ys);
    } else {
      assert xs + ys == ys;
    }
  }

  /** `s.split(c)` for a one-character separator: never empty, and joining gives `s` back. */
  function Split(s: string, c: char): (r: seq<string>)
    ensures |r| >= 1
    ensures forall i :: 0 <= i < |r| ==> c !in r[i]
    ensures Join([c], r) == s
    decreases |s|
  {
    if s == [] then [""]
    else if s[0] == c then
      var rest := Split(s[1..], c);
      assert Join([c], [""] + rest) == "" + [c] + Join([c], rest);
      [""] + rest
    else
      var rest := Split(s[1..], c);
      var r := [[s[0]] + rest[0]] + rest[1..];
      assert Join([c], r) == [s[0]] + Join([c], rest) by {
        if |rest| > 1 {
          assert r[1..] == rest[1..];
        }
      }
      r
  }

  /** The characters of Python 2's `string.whitespace`. */
  predicate IsSpace(c: char) { c == ' ' || c == '\t' || c == '\n' || c == '\r' || c == '\U{000B}' || c == '\U{000C}' }

  /** `s.strip()` */
  function StripLeft(s: string): (r: string)
    ensures |r| <= |s| && EndsWith(s, r)
    ensures r == [] || !IsSpace(r[0])
    decreases |s|
  {
    if s != [] && IsSpace(s[0]) then StripLeft(s[1..]) else s
  }

  function StripRight(s: string): (r: string)
    ensures |r| <= |s| && StartsWith(s, r)
    ensures r == [] || !IsSpace(r[|r| - 1])
    decreases |s|
  {
    if s != [] && IsSpace(s[|s| - 1]) then StripRight(s[..|s| - 1]) else s
  }

  function Strip(s: string): string { StripRight(StripLeft(s)) }

  /** The leading run of non-whitespace characters. */
  function Word(s: string): (r: string)
    ensures |r| <= |s| && r == s[..|r|]
    ensures forall i :: 0 <= i < |r| ==> !IsSpace(r[i])
    ensures |r| < |s| ==> IsSpace(s[|r|])
  {
    if s == [] || IsSpace(s[0]) then [] else [s[0]] + Word(s[1..])
  }

  /** `s.split()`: the maximal runs of non-whitespace characters. */
  function SplitWs(s: string): (r: seq<string>)
    ensures forall i :: 0 <= i < |r| ==> r[i] != [] && forall k :: 0 <= k < |r[i]| ==> !IsSpace(r[i][k])
    decreases |s|
  {
    var t := StripLeft(s);
    if t == [] then []
    else
      var w := Word(t);
      [w] + SplitWs(t[|w|..])
  }

  /** The characters of a word of `s.split()` are characters of `s`. */
  lemma {:induction false} SplitWsChars(s: string, w: string, c: char)
    requires w in SplitWs(s) && c in w
    ensures c in s
    decreases |s|
  {
    var t := StripLeft(s);
    assert t != [];
    var v := Word(t);
    var rest := t[|v|..];
    assert SplitWs(s) == [v] + SplitWs(rest);
    if w == v {
      CharInPrefix(t, |v|, c);
    } else {
      assert w in SplitWs(rest);
      SplitWsChars(rest, w, c);
      CharInSuffix(t, |v|, c);
    }
    assert s[|s| - |t|..] == t;
    CharInSuffix(s, |s| - |t|, c);
  }

  lemma CharInSuffix(s: string, a: nat, c: char)
    requires a <= |s| && c in s[a..]
    ensures c in s
  {
    var i :| 0 <= i < |s| - a && s[a..][i] == c;
    assert s[a + i] == c;
  }

  lemma CharInPrefix(s: string, b: nat, c: char)
    requires b <= |s| && c in s[..b]
    ensures c in s
  {
    var i :| 0 <= i < b && s[..b][i] == c;
    assert s[i] == c;
  }

  // ---------------------------------------------------------------------------------------
  // Ordering of strings (Python compares strings by character code, a prefix first).

  predicate Le(a: string, b: string)
    decreases |a|
  {
    |a| == 0 || (|b| > 0 && (a[0] < b[0] || (a[0] == b[0] && Le(a[1..], b[1..]))))
  }

  lemma {:induction false} LeTotal(a: string, b: string)
    ensures Le(a, b) || Le(b, a)
    decreases |a|
  {
    if |a| > 0 && |b| > 0 && a[0] == b[0] { LeTotal(a[1..], b[1..]); }
  }

  lemma {:induction false} LeAntisym(a: string, b: string)
    requires Le(a, b) && Le(b, a)
    ensures a == b
    decreases |a|
  {
    if |a| > 0 {
      LeAntisym(a[1..], b[1..]);
      assert a == [a[0]] + a[1..];
      assert b == [b[0]] + b[1..];
    }
  }

  lemma {:induction false} LeTrans(a: string, b: string, c: string)
    requires Le(a, b) && Le(b, c)
    ensures Le(a, c)
    decreases |a|
  {
    if |a| > 0 && a[0] == b[0] && b[0] == c[0] { LeTrans(a[1..], b[1..], c[1..]); }
  }

  lemma LeRefl(a: string)
    ensures Le(a, a)
  {
    LeTotal(a, a);
  }

  predicate IsSorted(s: seq<string>)
  {
    forall i, j :: 0 <= i < j < |s| ==> Le(s[i], s[j])
  }

  function Insert(x: string, s: seq<string>): (r: seq<string>)
    ensures multiset(r) == multiset(s) + multiset{x}
    ensures IsSorted(s) ==> IsSorted(r)
  {
    if s == [] then [x]
    else if Le(x, s[0]) then
      PrependSorted(x, s);
      [x] + s
    else
      var t := Insert(x, s[1..]);
      assert s == [s[0]] + s[1..];
      assert IsSorted(s) ==> IsSorted([s[0]] + t) by { if IsSorted(s) { InsertBehind(x, s, t); } }
      [s[0]] + t
  }

  lemma PrependSorted(x: string, s: seq<string>)
    requires s != [] && Le(x, s[0])
    ensures IsSorted(s) ==> IsSorted([x] + s)
  {
    if IsSorted(s) {
      forall j | 0 < j < |[x] + s| ensures Le(x, ([x] + s)[j]) {
        if j > 1 { LeTrans(x, s[0], s[j - 1]); }
      }
    }
  }

  /** When `x` goes after the head, the head stays ahead of the sorted insertion into the tail. */
  lemma InsertBehind(x: string, s: seq<string>, t: seq<string>)
    requires s != [] && IsSorted(s) && !Le(x, s[0])
    requires IsSorted(t) && multiset(t) == multiset(s[1..]) + multiset{x}
    ensures IsSorted([s[0]] + t)
  {
    LeTotal(x, s[0]);
    forall j | 0 <= j < |t| ensures Le(s[0], t[j]) {
      assert t[j] in multiset(t);
      if t[j] != x {
        assert t[j] in multiset(s[1..]);
        var k :| 0 <= k < |s[1..]| && s[1..][k] == t[j];
        assert s[k + 1] == t[j];
      }
    }
  }

  /** `sorted(xs)` */
  function Sort(s: seq<string>): (r: seq<string>)
    ensures IsSorted(r)
    ensures multiset(r) == multiset(s)
    ensures |r| == |s|
  {
    if s == [] then []
    else
      assert s == [s[0]] + s[1..];
      var r := Insert(s[0], Sort(s[1..]));
      assert |r| == |multiset(r)|;
      r
  }

  /** The head of a sorted list is at most each of its elements. */
  lemma HeadLeast(a: seq<string>, x: string)
    requires IsSorted(a) && x in a
    ensures Le(a[0], x)
  {
    var i :| 0 <= i < |a| && a[i] == x;
    if i == 0 { LeRefl(x); }
  }

  lemma SameHeadTail(a: seq<string>, b: seq<string>)
    requires a != [] && b != [] && a[0] == b[0] && a[1..] == b[1..]
    ensures a == b
  {
    assert a == [a[0]] + a[1..] && b == [b[0]] + b[1..];
  }

  lemma SortedTail(a: seq<string>)
    requires a != [] && IsSorted(a)
    ensures IsSorted(a[1..])
  {
    forall i, j | 0 <= i < j < |a| - 1 ensures Le(a[1..][i], a[1..][j]) {
      assert a[1..][i] == a[i + 1] && a[1..][j] == a[j + 1];
    }
  }

  lemma MultisetTail(a: seq<string>)
    requires a != []
    ensures multiset(a[1..]) == multiset(a) - multiset{a[0]}
  {
    assert a == [a[0]] + a[1..];
  }

  /** Two sorted lists with the same elements are the same list (`sorted` is determined). */
  lemma {:induction false} SortedUnique(a: seq<string>, b: seq<string>)
    requires IsSorted(a) && IsSorted(b) && multiset(a) == multiset(b)
    ensures a == b
    decreases |a|
  {
    if a != [] {
      assert |a| == |multiset(a)| == |b|;
      assert a[0] in multiset(b) && b[0] in multiset(a);
      HeadLeast(b, a[0]);
      HeadLeast(a, b[0]);
      LeAntisym(a[0], b[0]);
      MultisetTail(a);
      MultisetTail(b);
      SortedTail(a);
      SortedTail(b);
      SortedUnique(a[1..], b[1..]);
      SameHeadTail(a, b);
    }
  }

  /** Sorting a sorted list leaves it unchanged, so sorting is idempotent. */
  lemma SortSorted(s: seq<string>)
    requires IsSorted(s)
    ensures Sort(s) == s
  {
    SortedUnique(Sort(s), s);
  }

  lemma SortIdempotent(s: seq<string>)
    ensures Sort(Sort(s)) == Sort(s)
  {
    SortSorted(Sort(s));
  }

  /** `m` is the least element of `s`. */
  predicate IsMinOf(m: string, s: set<string>)
  {
    m in s && forall y :: y in s ==> Le(m, y)
  }

  /** A finite set of strings has a least element. */
  lemma {:induction false} MinExists(s: set<string>) returns (m: string)
    requires s != {}
    ensures IsMinOf(m, s)
    decreases |s|
  {
    var x :| x in s;
    if s == {x} {
      m := x;
      LeRefl(x);
    } else {
      var m' := MinExists(s - {x});
      LeTotal(x, m');
      if Le(x, m') {
        m := x;
        LeRefl(x);
        forall y | y in s ensures Le(m, y) { if y != x { LeTrans(x, m', y); } }
      } else {
        m := m';
      }
    }
  }

  lemma MinUnique(s: set<string>)
    ensures forall m1, m2 :: IsMinOf(m1, s) && IsMinOf(m2, s) ==> m1 == m2
  {
    forall m1, m2 | IsMinOf(m1, s) && IsMinOf(m2, s) ensures m1 == m2 {
      LeAntisym(m1, m2);
    }
  }

  /** `min(s)` for a non-empty set of strings. */
  function SetMin(s: set<string>): (m: string)
    requires s != {}
    ensures IsMinOf(m, s)
  {
    assert exists m :: IsMinOf(m, s) by { var m := MinExists(s); }
    MinUnique(s);
    var m :| IsMinOf(m, s);
    m
  }

  /** `sorted(a_set)`: the elements of the set in ascending order. */
  function SortSet(s: set<string>): (r: seq<string>)
    ensures IsSorted(r)
    ensures |r| == |s|
    ensures forall x :: x in r <==> x in s
    decreases |s|
  {
    if s == {} then []
    else
      var m := SetMin(s);
      var rest := SortSet(s - {m});
      var r := [m] + rest;
      assert forall j :: 0 < j < |r| ==> Le(m, r[j]) by {
        forall j | 0 < j < |r| ensures Le(m, r[j]) { assert r[j] in rest; }
      }
      r
  }

  /** `xs.remove(x)` on a list of strings: drops the first element equal to `x`. */
  function RemoveFirst(xs: seq<string>, x: string): (r: seq<string>)
    ensures x in xs ==> multiset(r) == multiset(xs) - multiset{x}
    ensures x !in xs ==> r == xs
  {
    if xs == [] then []
    else if xs[0] == x then
      assert xs == [xs[0]] + xs[1..];
      xs[1..]
    else
      assert xs == [xs[0]] + xs[1..];
      [xs[0]] + RemoveFirst(xs[1..], x)
  }
}
