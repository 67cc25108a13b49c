/** The text helpers of the older `src/roscompile/util.py`: ignorable text is cut out of a
    file's contents, and runs of blank lines are collapsed. The ignore lists come from data
    files on the package path; here they are parameters. */
module LegacyUtil {
  import opened Base
  import opened Str

  const ThreeNewlines := "\n\n\n"
  const TwoNewlines := "\n\n"

  // ---------------------------------------------------------------------------------------
  // remove_blank_lines

  /** The `while '\n\n\n' in s: s = s.replace('\n\n\n', '\n\n')` loop, as a recursive
      definition; every round shortens the text. */
  function BlankLinesRemoved(s: string): string
    decreases |s|
  {
    if Contains(s, ThreeNewlines) then
      ReplaceShrinks(s, ThreeNewlines, TwoNewlines);
      BlankLinesRemoved(Replace(s, ThreeNewlines, TwoNewlines))
    else s
  }

  /** remove_blank_lines */
  method RemoveBlankLines(s: string) returns (r: string)
    ensures r == BlankLinesRemoved(s)
  {
    r := s;
    while Contains(r, ThreeNewlines)
      invariant BlankLinesRemoved(r) == BlankLinesRemoved(s)
      decreases |r|
    {
      ReplaceShrinks(r, ThreeNewlines, TwoNewlines);
      r := Replace(r, ThreeNewlines, TwoNewlines);
    }
  }

  predicate NotNewline(c: char) { c != '\n' }

  /** The text of a string once its newlines are taken out. */
  function Text(s: string): (r: string)
    ensures '\n' !in r
  {
    Filter(s, NotNewline)
  }

  /** One round of the loop takes out newlines only: the other characters stay, in order. */
  lemma {:induction false} ReplaceKeepsText(s: string)
    ensures Text(Replace(s, ThreeNewlines, TwoNewlines)) == Text(s)
    decreases |s|
  {
    var r := Replace(s, ThreeNewlines, TwoNewlines);
    if |s| < 3 {
    } else if s[..3] == ThreeNewlines {
      assert s == ThreeNewlines + s[3..];
      ReplaceKeepsText(s[3..]);
      FilterAppend(ThreeNewlines, s[3..], NotNewline);
      FilterAppend(TwoNewlines, Replace(s[3..], ThreeNewlines, TwoNewlines), NotNewline);
      assert Filter(ThreeNewlines, NotNewline) == [] && Filter(TwoNewlines, NotNewline) == [];
    } else {
      assert s == [s[0]] + s[1..];
      ReplaceKeepsText(s[1..]);
      FilterAppend([s[0]], s[1..], NotNewline);
      FilterAppend([s[0]], Replace(s[1..], ThreeNewlines, TwoNewlines), NotNewline);
    }
  }

  /** remove_blank_lines leaves no three newlines in a row; it changes a text exactly when the
      text has three in a row; it never lengthens the text, and it takes out newlines only. */
  lemma {:induction false} BlankLinesRemovedSpec(s: string)
    ensures !Contains(BlankLinesRemoved(s), ThreeNewlines)
    ensures BlankLinesRemoved(s) == s <==> !Contains(s, ThreeNewlines)
    ensures |BlankLinesRemoved(s)| <= |s|
    ensures Text(BlankLinesRemoved(s)) == Text(s)
    decreases |s|
  {
    if Contains(s, ThreeNewlines) {
      var t := Replace(s, ThreeNewlines, TwoNewlines);
      ReplaceShrinks(s, ThreeNewlines, TwoNewlines);
      ReplaceKeepsText(s);
      BlankLinesRemovedSpec(t);
      assert BlankLinesRemoved(s) == BlankLinesRemoved(t);
    }
  }

  /** A second remove_blank_lines changes nothing. */
  lemma BlankLinesRemovedIdempotent(s: string)
    ensures BlankLinesRemoved(BlankLinesRemoved(s)) == BlankLinesRemoved(s)
  {
    BlankLinesRemovedSpec(s);
    BlankLinesRemovedSpec(BlankLinesRemoved(s));
  }

  // ---------------------------------------------------------------------------------------
  // clean_contents

  /** `s.replace(x, '')`; Python leaves the text alone when `x` is empty. */
  function Removed(s: string, x: string): (r: string)
  {
    if x == [] then s else Replace(s, x, "")
  }

  /** `for x in xs: s = s.replace(x, '')` */
  function RemovedEach(s: string, xs: seq<string>): string
    decreases |xs|
  {
    if xs == [] then s else RemovedEach(Removed(s, xs[0]), xs[1..])
  }

  /** `pattern % variables` for each pattern; Python's formatting is a parameter. */
  function Filled(patterns: seq<string>, variables: map<string, string>, fill: (string, map<string, string>) -> string): (r: seq<string>)
    ensures |r| == |patterns|
    ensures forall i :: 0 <= i < |r| ==> r[i] == fill(patterns[i], variables)
  {
    seq(|patterns|, i requires 0 <= i < |patterns| => fill(patterns[i], variables))
  }

  /** `variables` is None or a dictionary; `not variables` holds for None and for `{}`. */
  predicate Given(variables: Option<map<string, string>>)
  {
    variables.Some? && variables.value != map[]
  }

  /** clean_contents: the ignore lines are cut out in list order, then, when variables are
      given, the patterns filled with them. */
  function Cleaned(s: string, lines: seq<string>, patterns: seq<string>, variables: Option<map<string, string>>,
                   fill: (string, map<string, string>) -> string): string
  {
    var t := RemovedEach(s, lines);
    if Given(variables) then RemovedEach(t, Filled(patterns, variables.value, fill)) else t
  }

  lemma RemovedEachStep(s: string, xs: seq<string>, i: nat)
    requires i < |xs|
    ensures RemovedEach(s, xs[i..]) == RemovedEach(Removed(s, xs[i]), xs[i + 1..])
  {
    assert xs[i..][1..] == xs[i + 1..];
  }

  method RemoveEach(s: string, xs: seq<string>) returns (r: string)
    ensures r == RemovedEach(s, xs)
  {
    r := s;
    for i := 0 to |xs|
      invariant RemovedEach(r, xs[i..]) == RemovedEach(s, xs)
    {
      RemovedEachStep(r, xs, i);
      r := Removed(r, xs[i]);
    }
    assert xs[|xs|..] == [];
  }

  /** clean_contents, with the ignore data and the formatting given. */
  method CleanContents(s: string, lines: seq<string>, patterns: seq<string>, variables: Option<map<string, string>>,
                       fill: (string, map<string, string>) -> string) returns (r: string)
    ensures r == Cleaned(s, lines, patterns, variables, fill)
  {
    r := RemoveEach(s, lines);
    if !Given(variables) {
      return;
    }
    r := RemoveEach(r, Filled(patterns, variables.value, fill));
  }

  /** Cutting out a list of strings one after the other: cutting out `a + b` is cutting out
      `a`, then `b`. */
  lemma {:induction false} RemovedEachAppend(s: string, a: seq<string>, b: seq<string>)
    ensures RemovedEach(s, a + b) == RemovedEach(RemovedEach(s, a), b)
    decreases |a|
  {
    if a == [] {
      assert a + b == b;
    } else {
      assert (a + b)[0] == a[0] && (a + b)[1..] == a[1..] + b;
      RemovedEachAppend(Removed(s, a[0]), a[1..], b);
    }
  }

  /** Cutting out never lengthens a text, and a text in which no string of the list occurs is
      left as it is. */
  lemma {:induction false} RemovedEachSpec(s: string, xs: seq<string>)
    ensures |RemovedEach(s, xs)| <= |s|
    ensures (forall i :: 0 <= i < |xs| ==> !Contains(s, xs[i])) ==> RemovedEach(s, xs) == s
    decreases |xs|
  {
    if xs != [] {
      var t := Removed(s, xs[0]);
      if xs[0] != [] {
        ReplaceNotLonger(s, xs[0], "");
        if !Contains(s, xs[0]) {
          ReplaceAbsent(s, xs[0], "");
        }
      }
      RemovedEachSpec(t, xs[1..]);
      if forall i :: 0 <= i < |xs| ==> !Contains(s, xs[i]) {
        assert t == s;
        assert forall i :: 0 <= i < |xs[1..]| ==> xs[1..][i] == xs[i + 1];
      }
    }
  }

  /** clean_contents never lengthens the text; without variables the patterns play no part;
      and a text holding none of the lines (nor, with variables, the filled patterns) is left
      as it is. */
  lemma CleanedSpec(s: string, lines: seq<string>, patterns: seq<string>, variables: Option<map<string, string>>,
                    fill: (string, map<string, string>) -> string)
    ensures |Cleaned(s, lines, patterns, variables, fill)| <= |s|
    ensures !Given(variables) ==> Cleaned(s, lines, patterns, variables, fill) == RemovedEach(s, lines)
    ensures Given(variables) ==>
      Cleaned(s, lines, patterns, variables, fill) == RemovedEach(s, lines + Filled(patterns, variables.value, fill))
    ensures (forall i :: 0 <= i < |lines| ==> !Contains(s, lines[i])) &&
            (Given(variables) ==> forall i :: 0 <= i < |patterns| ==> !Contains(s, fill(patterns[i], variables.value))) ==>
            Cleaned(s, lines, patterns, variables, fill) == s
  {
    var t := RemovedEach(s, lines);
    RemovedEachSpec(s, lines);
    if Given(variables) {
      var ps := Filled(patterns, variables.value, fill);
      RemovedEachAppend(s, lines, ps);
      RemovedEachSpec(t, ps);
    }
  }

  /** The order of the list matters: cutting `ab` then `c` out of `acb` leaves `ab`, the other
      order leaves nothing. */
  lemma RemovalOrderMatters()
    ensures RemovedEach("acb", ["ab", "c"]) == "ab"
    ensures RemovedEach("acb", ["c", "ab"]) == ""
  {
    AbFirst();
    CFirst();
    assert ["ab", "c"][1..] == ["c"] && ["c"][1..] == [];
    assert ["c", "ab"][1..] == ["ab"] && ["ab"][1..] == [];
  }

  /** `ab` does not occur in `acb`; cutting `c` then leaves `ab`. */
  lemma AbFirst()
    ensures Replace("acb", "ab", "") == "acb"
    ensures Replace("ab", "c", "") == "ab"
  {
    assert Replace("b", "ab", "") == "b";
    assert Replace("cb", "ab", "") == "cb";
    assert Replace("b", "c", "") == "b" by {
      assert Replace([], "c", "") == [];
    }
  }

  /** Cutting `c` out of `acb` joins `a` and `b` into an `ab` that goes next. */
  lemma CFirst()
    ensures Replace("acb", "c", "") == "ab"
    ensures Replace("ab", "ab", "") == ""
  {
    assert Replace("b", "c", "") == "b" by {
      assert Replace([], "c", "") == [];
    }
    assert Replace("cb", "c", "") == "b";
    assert Replace([], "ab", "") == [];
  }
}
