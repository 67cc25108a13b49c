/** Failure-compatible wrappers shared by every module of the model. */
module Base {

  /** Python's `None`-or-value. */
  datatype Option<+T> = None | Some(value: T) {
    predicate IsFailure() { None? }
    function PropagateFailure<U>(): Option<U> requires None? { None }
    function Extract(): T requires Some? { value }
    function GetOr(default: T): T {
      match this
      case Some(v) => v
      case None => default
    }
  }

  /** A value or the exception the Python code would raise. */
  datatype Result<+T, +E> = Ok(value: T) | Err(error: E) {
    predicate IsFailure() { Err? }
    function PropagateFailure<U>(): Result<U, E> requires Err? { Err(error) }
    function Extract(): T requires Ok? { value }
  }

  /** The Python exceptions the modelled code can raise. */
  datatype PyError =
    | IndexError        // a list or string subscript out of range
    | ValueError        // `list.remove`/`list.index` of a missing element, an unpacking mismatch, a lexer remainder
    | AttributeError    // an attribute looked up on an object that lacks it
    | KeyError          // a missing dictionary key
    | ParseError        // CMakeParseError
    | GenericException  // a bare `Exception`
    | TypeError         // an operation applied to a value of the wrong type, such as `sorted(None)`
    | AssertionError    // a failed `assert` statement

  /** Slicing facts, stated once for any element type. */
  lemma SliceSnoc<T>(s: seq<T>, i: nat)
    requires i < |s|
    ensures s[..i + 1] == s[..i] + [s[i]]
  {
  }

  lemma SliceSplit<T>(s: seq<T>, i: nat)
    requires i <= |s|
    ensures s[..i] + s[i..] == s
  {
  }

  lemma SliceSnocFrom<T>(s: seq<T>, a: nat, b: nat)
    requires a <= b < |s|
    ensures s[a..b + 1] == s[a..b] + [s[b]]
  {
  }

  lemma SliceCons<T>(s: seq<T>, i: nat)
    requires i < |s|
    ensures s[i..] == [s[i]] + s[i + 1..]
  {
  }

  lemma SliceDrop<T>(s: seq<T>, i: nat)
    requires i < |s|
    ensures s[i..][0] == s[i] && s[i..][1..] == s[i + 1..]
  {
  }

  lemma SliceOfSlice<T>(s: seq<T>, o: nat, a: nat, b: nat)
    requires o + a <= o + b <= |s|
    ensures s[o..][a..b] == s[o + a..o + b] && s[o..][a..] == s[o + a..]
  {
  }

  lemma SliceMid<T>(s: seq<T>, a: nat, b: nat)
    requires a <= b <= |s|
    ensures s[a..] == s[a..b] + s[b..]
  {
  }

  // ---------------------------------------------------------------------------------------
  // Filtering: `[x for x in xs if keep(x)]`, `filter(keep, xs)`

  function Filter<T(==,!new)>(xs: seq<T>, keep: T -> bool): (r: seq<T>)
    ensures |r| <= |xs|
    ensures forall x :: x in r <==> x in xs && keep(x)
  {
    if xs == [] then []
    else
      assert xs == [xs[0]] + xs[1..];
      (if keep(xs[0]) then [xs[0]] else []) + Filter(xs[1..], keep)
  }

  /** Filtering keeps the order: it distributes over concatenation. */
  lemma {:induction false} FilterAppend<T(!new)>(a: seq<T>, b: seq<T>, keep: T -> bool)
    ensures Filter(a + b, keep) == Filter(a, keep) + Filter(b, keep)
  {
    if a == [] {
      assert a + b == b;
    } else {
      assert (a + b)[0] == a[0];
      assert (a + b)[1..] == a[1..] + b;
      FilterAppend(a[1..], b, keep);
    }
  }

  /** Filtering an appended element keeps it exactly when `keep` holds of it. */
  lemma FilterSnoc<T(!new)>(a: seq<T>, x: T, keep: T -> bool)
    ensures Filter(a + [x], keep) == Filter(a, keep) + (if keep(x) then [x] else [])
  {
    FilterAppend(a, [x], keep);
    assert Filter([x], keep) == (if keep(x) then [x] else []) + Filter([x][1..], keep);
  }

  /** Filtering a prepended element keeps it exactly when `keep` holds of it. */
  lemma FilterCons<T(!new)>(x: T, a: seq<T>, keep: T -> bool)
    ensures Filter([x] + a, keep) == (if keep(x) then [x] else []) + Filter(a, keep)
  {
    assert ([x] + a)[1..] == a;
  }

  /** Filtering drops nothing exactly when every element is kept, and then it is the identity. */
  lemma {:induction false} FilterAll<T(!new)>(xs: seq<T>, keep: T -> bool)
    ensures |Filter(xs, keep)| == |xs| <==> forall x :: x in xs ==> keep(x)
    ensures (forall x :: x in xs ==> keep(x)) ==> Filter(xs, keep) == xs
  {
    if xs != [] {
      FilterAll(xs[1..], keep);
      assert xs == [xs[0]] + xs[1..];
    }
  }

  /** Filtering keeps nothing when no element is kept. */
  lemma {:induction false} FilterNone<T(!new)>(xs: seq<T>, keep: T -> bool)
    requires forall x :: x in xs ==> !keep(x)
    ensures Filter(xs, keep) == []
  {
    if xs != [] {
      FilterNone(xs[1..], keep);
    }
  }

  /** The positions of the kept elements, in order. */
  function KeptAt<T>(xs: seq<T>, keep: T -> bool): (pos: seq<nat>)
    ensures forall i :: 0 <= i < |pos| ==> pos[i] < |xs|
  {
    if xs == [] then []
    else
      var rest := KeptAt(xs[1..], keep);
      (if keep(xs[0]) then [0] else []) + seq(|rest|, i requires 0 <= i < |rest| => rest[i] + 1)
  }

  /** The kept elements are the elements at those positions. */
  lemma {:induction false} KeptAtFilter<T(!new)>(xs: seq<T>, keep: T -> bool)
    ensures |KeptAt(xs, keep)| == |Filter(xs, keep)|
    ensures forall i :: 0 <= i < |KeptAt(xs, keep)| ==> xs[KeptAt(xs, keep)[i]] == Filter(xs, keep)[i]
  {
    if xs != [] {
      KeptAtFilter(xs[1..], keep);
      var rest := KeptAt(xs[1..], keep);
      var r1 := Filter(xs[1..], keep);
      var sh := seq(|rest|, i requires 0 <= i < |rest| => rest[i] + 1);
      forall i | 0 <= i < |rest| ensures xs[sh[i]] == r1[i] {
        assert xs[rest[i] + 1] == xs[1..][rest[i]];
      }
      if keep(xs[0]) {
        assert KeptAt(xs, keep) == [0] + sh;
        assert Filter(xs, keep) == [xs[0]] + r1;
      } else {
        assert KeptAt(xs, keep) == sh;
        assert Filter(xs, keep) == r1;
      }
    }
  }

  /** No element strictly between positions `lo` and `hi` is kept. */
  predicate NoneKept<T>(xs: seq<T>, keep: T -> bool, lo: int, hi: int)
  {
    forall k :: lo < k < hi && 0 <= k < |xs| ==> !keep(xs[k])
  }
  /** Gaps in the tail are gaps in the whole list, one position further on. */
  lemma NoneKeptShift<T>(xs: seq<T>, keep: T -> bool, lo: int, hi: int)
    requires xs != [] && lo >= -1 && NoneKept(xs[1..], keep, lo, hi)
    ensures NoneKept(xs, keep, lo + 1, hi + 1)
  {
    forall k | lo + 1 < k < hi + 1 && 0 <= k < |xs| ensures !keep(xs[k]) {
      assert xs[k] == xs[1..][k - 1];
    }
  }
  /** One unfolding of KeptAt. */
  lemma KeptAtShape<T>(xs: seq<T>, keep: T -> bool)
    requires xs != []
    ensures var d := if keep(xs[0]) then 1 else 0;
      var pos := KeptAt(xs, keep); var rest := KeptAt(xs[1..], keep);
      |pos| == |rest| + d && (d == 1 ==> pos[0] == 0)
      && forall i :: d <= i < |pos| ==> pos[i] == rest[i - d] + 1
  {
    var rest := KeptAt(xs[1..], keep);
    var sh := seq(|rest|, i requires 0 <= i < |rest| => rest[i] + 1);
    var h: seq<nat> := if keep(xs[0]) then [0] else [];
    assert KeptAt(xs, keep) == h + sh;
  }
  /** Nothing is kept before the first position. */
  lemma {:induction false} KeptAtHead<T>(xs: seq<T>, keep: T -> bool)
    ensures var pos := KeptAt(xs, keep);
      |pos| > 0 ==> NoneKept(xs, keep, -1, pos[0])
  {
    if xs != [] {
      KeptAtHead(xs[1..], keep);
      KeptAtShape(xs, keep);
      var rest := KeptAt(xs[1..], keep);
      if |rest| > 0 && !keep(xs[0]) {
        NoneKeptShift(xs, keep, -1, rest[0]);
      }
    }
  }
  /** The positions increase, and nothing is kept between two consecutive ones. */
  predicate Gapless<T>(xs: seq<T>, keep: T -> bool, pos: seq<nat>)
  {
    forall i :: 0 <= i < |pos| - 1 ==> pos[i] < pos[i + 1] && NoneKept(xs, keep, pos[i], pos[i + 1])
  }
  lemma {:induction false} KeptAtGaps<T>(xs: seq<T>, keep: T -> bool)
    ensures Gapless(xs, keep, KeptAt(xs, keep))
  {
    if xs != [] {
      KeptAtGaps(xs[1..], keep);
      KeptAtHead(xs[1..], keep);
      KeptAtShape(xs, keep);
      var rest := KeptAt(xs[1..], keep);
      var pos := KeptAt(xs, keep);
      var d := if keep(xs[0]) then 1 else 0;
      forall i | 0 <= i < |pos| - 1 ensures pos[i] < pos[i + 1] && NoneKept(xs, keep, pos[i], pos[i + 1]) {
        if i >= d {
          assert pos[i] == rest[i - d] + 1 && pos[i + 1] == rest[i - d + 1] + 1;
          assert NoneKept(xs[1..], keep, rest[i - d], rest[i - d + 1]);
          NoneKeptShift(xs, keep, rest[i - d], rest[i - d + 1]);
        } else {
          assert pos[0] == 0 && pos[1] == rest[0] + 1;
          NoneKeptShift(xs, keep, -1, rest[0]);
        }
      }
    }
  }

  /** Every kept element's position is among them. */
  lemma {:induction false} KeptAtComplete<T>(xs: seq<T>, keep: T -> bool, k: int)
    requires 0 <= k < |xs| && keep(xs[k])
    ensures k in KeptAt(xs, keep)
  {
    KeptAtShape(xs, keep);
    var d := if keep(xs[0]) then 1 else 0;
    if k > 0 {
      assert xs[1..][k - 1] == xs[k];
      KeptAtComplete(xs[1..], keep, k - 1);
      var rest := KeptAt(xs[1..], keep);
      var i :| 0 <= i < |rest| && rest[i] == k - 1;
      assert KeptAt(xs, keep)[i + d] == k;
    }
  }
}
