/** The package.xml editor of the older roscompile (src/roscompile/package_xml.py): format-1
    dependency lists, read by tag and extended by a scan over the root's children that a small
    state machine drives. */
module LegacyPackageXml {
  import opened Str
  import opened PackageXml
  import opened PackageXmlDoc

  /** IGNORE_PACKAGES */
  const Ignored: seq<string> := ["roslib"]

  const BuildKey: TagName := "build_depend"
  const RunKey: TagName := "run_depend"

  /** The tag get_packages and add_packages use. */
  function Key(build: bool): TagName
  {
    if build then BuildKey else RunKey
  }

  predicate IsTag(x: Node, t: string)
  {
    x.Element? && x.name == t
  }

  /** An element that is neither a build_depend nor a run_depend. */
  predicate IsOther(x: Node)
  {
    x.Element? && x.name != BuildKey && x.name != RunKey
  }

  /** No child from `i` on carries tag `t`. */
  predicate NoneTagged(cs: seq<Node>, t: string, i: nat)
  {
    forall k :: i <= k < |cs| ==> !IsTag(cs[k], t)
  }

  // ---------------------------------------------------------------------------------------
  // get_packages (package_xml.py:12-21)

  /** The text of every child with tag `key`, in document order. */
  function Texts(cs: seq<Node>, key: string): seq<string>
    decreases |cs|
  {
    if cs == [] then []
    else Texts(cs[..|cs| - 1], key) + (var x := cs[|cs| - 1]; if IsTag(x, key) then [x.text] else [])
  }

  /** get_packages lists each package as often as the document does under the tag. */
  lemma {:induction false} TextsCount(cs: seq<Node>, key: string, p: string)
    ensures multiset(Texts(cs, key))[p] == CountOf(cs, key, p)
    decreases |cs|
  {
    if cs != [] {
      TextsCount(cs[..|cs| - 1], key, p);
    }
  }

  // ---------------------------------------------------------------------------------------
  // The request (package_xml.py:36-39)

  /** remove takes one occurrence of `x` out and keeps every other package. */
  lemma RemoveFirstCount(xs: seq<string>, x: string, q: string)
    requires x in xs
    ensures multiset(RemoveFirst(xs, x))[q] == multiset(xs)[q] - (if q == x then 1 else 0)
  {
  }

  /** The loop of add_packages over the packages already listed: each listing takes one
      occurrence out of the request, when it holds one. */
  function Pruned(pkgs: seq<string>, existing: seq<string>): seq<string>
    decreases |existing|
  {
    if existing == [] then pkgs
    else Pruned(if existing[0] in pkgs then RemoveFirst(pkgs, existing[0]) else pkgs, existing[1..])
  }

  /** The request keeps each package as many times as it asked for it beyond the listings
      already there. */
  lemma {:induction false} PrunedCount(pkgs: seq<string>, existing: seq<string>, q: string)
    ensures multiset(Pruned(pkgs, existing))[q] ==
      if multiset(pkgs)[q] > multiset(existing)[q] then multiset(pkgs)[q] - multiset(existing)[q] else 0
    decreases |existing|
  {
    if existing != [] {
      var e := existing[0];
      var p := if e in pkgs then RemoveFirst(pkgs, e) else pkgs;
      if e in pkgs {
        RemoveFirstCount(pkgs, e, q);
      } else if q == e {
        assert multiset(pkgs)[q] == 0;
      }
      PrunedCount(p, existing[1..], q);
      assert existing == [e] + existing[1..];
      assert multiset(existing)[q] == multiset(existing[1..])[q] + (if q == e then 1 else 0);
    }
  }

  /** In particular a request without repetitions loses exactly the packages already listed. */
  lemma PrunedSet(pkgs: seq<string>, existing: seq<string>, q: string)
    ensures q in Pruned(pkgs, existing) <==> multiset(pkgs)[q] > multiset(existing)[q]
  {
    PrunedCount(pkgs, existing, q);
    assert q in Pruned(pkgs, existing) <==> multiset(Pruned(pkgs, existing))[q] > 0;
  }

  // ---------------------------------------------------------------------------------------
  // insert_new_elements (package_xml.py:23-34)

  /** The nodes insert_new_elements builds: for each value that is not ignored, in order, an
      indentation '\n  ' and an element holding the value. */
  function NewNodes(name: TagName, values: seq<string>): (r: seq<Node>)
    ensures |r| <= 2 * |values|
    decreases |values|
  {
    if values == [] then []
    else
      var v := values[|values| - 1];
      NewNodes(name, values[..|values| - 1]) + (if v in Ignored then [] else [Text("\n  "), Element(name, v)])
  }

  /** The new nodes list every value that is not ignored as often as it is requested, under
      `name` and nothing else; roslib never. */
  lemma {:induction false} NewNodesCount(name: TagName, values: seq<string>, t: string, p: string)
    ensures CountOf(NewNodes(name, values), t, p) == if t == name && p !in Ignored then multiset(values)[p] else 0
    decreases |values|
  {
    if values != [] {
      var n := |values| - 1;
      var v := values[n];
      NewNodesCount(name, values[..n], t, p);
      var tail: seq<Node> := if v in Ignored then [] else [Text("\n  "), Element(name, v)];
      CountOfAppend(NewNodes(name, values[..n]), tail, t, p);
      if v !in Ignored {
        assert tail[..1] == [Text("\n  ")] && [Text("\n  ")][..0] == [];
      }
      assert values == values[..n] + [v];
    }
  }

  /** Where `l[:i-1] + x + l[i-1:]` puts `x` in a list of length `n`: Python counts the index
      -1 (when `i` is 0) from the end, and clamps an index past the end. */
  function Cut(n: nat, i: nat): (c: nat)
    ensures c <= n
  {
    if i == 0 then (if n > 0 then n - 1 else 0) else if i - 1 <= n then i - 1 else n
  }

  /** insert_new_elements(name, values, i) */
  function InsertedAt(cs: seq<Node>, name: TagName, values: seq<string>, i: nat): seq<Node>
  {
    var c := Cut(|cs|, i);
    cs[..c] + NewNodes(name, values) + cs[c..]
  }

  /** insert_new_elements keeps every child, in order, around the new nodes, and adds their
      listings. */
  lemma InsertedAtSpec(cs: seq<Node>, name: TagName, values: seq<string>, i: nat, t: string, p: string)
    ensures var c := Cut(|cs|, i);
      var r := InsertedAt(cs, name, values, i);
      var m := |NewNodes(name, values)|;
      |r| == |cs| + m && r[..c] == cs[..c] && r[c + m..] == cs[c..]
    ensures CountOf(InsertedAt(cs, name, values, i), t, p) ==
      CountOf(cs, t, p) + (if t == name && p !in Ignored then multiset(values)[p] else 0)
  {
    var c := Cut(|cs|, i);
    var mid := NewNodes(name, values);
    assert (cs[..c] + mid + cs[c..])[..c] == cs[..c];
    assert (cs[..c] + mid + cs[c..])[c + |mid|..] == cs[c..];
    CountOfAppend(cs[..c] + mid, cs[c..], t, p);
    CountOfAppend(cs[..c], mid, t, p);
    CountOfAppend(cs[..c], cs[c..], t, p);
    assert cs[..c] + cs[c..] == cs;
    NewNodesCount(name, values, t, p);
  }

  // ---------------------------------------------------------------------------------------
  // add_packages (package_xml.py:36-69)

  /** The state machine as written, and as evidently intended: as written a build_depend sets
      the state back to 1 and a run_depend back to 2 wherever they appear; corrected, the state
      only moves forward. */
  datatype Version = AsWritten | Corrected

  function Advance(state: nat, next: nat, v: Version): nat
  {
    if v == AsWritten || state < next then next else state
  }

  /** The while loop of add_packages from position `i` in `state` (0: no dependency seen yet,
      1: after a build_depend, 2: after a run_depend, 3: past the run_depend block): the
      children, the position and the state when it ends. After an insertion the position moves
      on by two per requested package, ignored ones included. */
  function Scan(cs: seq<Node>, pkgs: seq<string>, build: bool, i: nat, state: nat, v: Version): (r: (seq<Node>, nat, nat))
    ensures r.1 >= |r.0|
    decreases |cs| - i
  {
    if i >= |cs| then (cs, i, state)
    else if cs[i].Text? then Scan(cs, pkgs, build, i + 1, state, v)
    else if cs[i].name == BuildKey then Scan(cs, pkgs, build, i + 1, Advance(state, 1, v), v)
    else if cs[i].name == RunKey then
      if state <= 1 && build then
        Scan(InsertedAt(cs, BuildKey, pkgs, i), pkgs, build, i + 2 * |pkgs| + 1, Advance(state, 2, v), v)
      else Scan(cs, pkgs, build, i + 1, Advance(state, 2, v), v)
    else if state == 2 then
      if !build then Scan(InsertedAt(cs, RunKey, pkgs, i), pkgs, build, i + 2 * |pkgs| + 1, 3, v)
      else Scan(cs, pkgs, build, i + 1, 3, v)
    else Scan(cs, pkgs, build, i + 1, state, v)
  }

  /** The insertion after the loop: with no dependency seen, or for run packages still after
      the run_depend block, at the position the loop ended on. */
  function Finish(r: (seq<Node>, nat, nat), pkgs: seq<string>, build: bool): seq<Node>
  {
    var (cs, i, state) := r;
    if state == 0 then InsertedAt(cs, Key(build), pkgs, i)
    else if state == 2 && !build then InsertedAt(cs, RunKey, pkgs, i)
    else cs
  }

  /** add_packages(pkgs, build) on children `cs`. */
  function LegacyAdded(cs: seq<Node>, pkgs: seq<string>, build: bool, v: Version): seq<Node>
  {
    var p := Pruned(pkgs, Texts(cs, Key(build)));
    Finish(Scan(cs, p, build, 0, 0, v), p, build)
  }

  /** The first run_depend at or after `i`, or len(children). */
  function NextRun(cs: seq<Node>, i: nat): (j: nat)
    requires i <= |cs|
    ensures i <= j <= |cs| && (j < |cs| ==> IsTag(cs[j], RunKey))
    ensures forall k :: i <= k < j ==> !IsTag(cs[k], RunKey)
    decreases |cs| - i
  {
    if i == |cs| || IsTag(cs[i], RunKey) then i else NextRun(cs, i + 1)
  }

  /** The first element at or after `i` that is not a dependency, or len(children). */
  function NextOther(cs: seq<Node>, i: nat): (j: nat)
    requires i <= |cs|
    ensures i <= j <= |cs| && (j < |cs| ==> IsOther(cs[j]))
    ensures forall k :: i <= k < j ==> !IsOther(cs[k])
    decreases |cs| - i
  {
    if i == |cs| || IsOther(cs[i]) then i else NextOther(cs, i + 1)
  }

  /** Up to the first run_depend nothing is inserted and the state stays below 2; there the
      build packages go in (before the node before it) and the scan goes on past them. */
  lemma {:induction false} ScanToRun(cs: seq<Node>, pkgs: seq<string>, build: bool, i: nat, state: nat, v: Version)
    requires i <= |cs| && state <= 1
    requires NextRun(cs, i) < |cs|
    ensures var j := NextRun(cs, i);
      Scan(cs, pkgs, build, i, state, v) ==
        if build then Scan(InsertedAt(cs, BuildKey, pkgs, j), pkgs, build, j + 2 * |pkgs| + 1, 2, v)
        else Scan(cs, pkgs, build, j + 1, 2, v)
    decreases |cs| - i
  {
    if !IsTag(cs[i], RunKey) {
      ScanToRun(cs, pkgs, build, i + 1, if cs[i].Element? && cs[i].name == BuildKey then 1 else state, v);
    }
  }

  /** Without a run_depend from `i` on, the scan inserts nothing; it ends at the end in state 0
      when no build_depend comes either, and in a state of 1 otherwise. */
  lemma {:induction false} ScanNoRun(cs: seq<Node>, pkgs: seq<string>, build: bool, i: nat, state: nat, v: Version)
    requires i <= |cs| && state <= 1
    requires NextRun(cs, i) == |cs|
    ensures Scan(cs, pkgs, build, i, state, v) ==
      (cs, |cs|, if state == 0 && NoneTagged(cs, BuildKey, i) then 0 else 1)
    decreases |cs| - i
  {
    if i < |cs| {
      ScanNoRun(cs, pkgs, build, i + 1, if cs[i].Element? && cs[i].name == BuildKey then 1 else state, v);
    }
  }

  /** Corrected, once the state is past 2 (or past 1 for build packages), nothing more is
      inserted and the state stays there. */
  lemma {:induction false} ScanQuiet(cs: seq<Node>, pkgs: seq<string>, build: bool, i: nat, state: nat)
    requires state >= 3 || (state >= 2 && build)
    ensures Scan(cs, pkgs, build, i, state, Corrected).0 == cs
    ensures Scan(cs, pkgs, build, i, state, Corrected).2 >= state
    decreases |cs| - i
  {
    if i < |cs| {
      ScanQuiet(cs, pkgs, build, i + 1, if IsOther(cs[i]) && state == 2 then 3 else state);
    }
  }

  /** Corrected, run packages after a run_depend go in before the next element that is not a
      dependency, or the scan ends at the end still in state 2. */
  lemma {:induction false} ScanRunBlock(cs: seq<Node>, pkgs: seq<string>, i: nat)
    requires i <= |cs|
    ensures var k := NextOther(cs, i);
      var r := Scan(cs, pkgs, false, i, 2, Corrected);
      if k < |cs| then r.0 == InsertedAt(cs, RunKey, pkgs, k) && r.2 >= 3
      else r == (cs, |cs|, 2)
    decreases |cs| - i
  {
    if i < |cs| {
      if IsOther(cs[i]) {
        ScanQuiet(InsertedAt(cs, RunKey, pkgs, i), pkgs, false, i + 2 * |pkgs| + 1, 3);
      } else {
        ScanRunBlock(cs, pkgs, i + 1);
      }
    }
  }

  /** Where add_packages puts build packages (corrected): just before the node before the first
      run_depend; before the last child when there is no dependency at all; and nowhere when
      there are build_depends but no run_depend. */
  lemma BuildPlacement(cs: seq<Node>, pkgs: seq<string>)
    ensures var p := Pruned(pkgs, Texts(cs, BuildKey));
      var j := NextRun(cs, 0);
      LegacyAdded(cs, pkgs, true, Corrected) ==
        if j < |cs| then InsertedAt(cs, BuildKey, p, j)
        else if NoneTagged(cs, BuildKey, 0) then InsertedAt(cs, BuildKey, p, |cs|)
        else cs
  {
    var p := Pruned(pkgs, Texts(cs, BuildKey));
    var j := NextRun(cs, 0);
    var r := Scan(cs, p, true, 0, 0, Corrected);
    assert LegacyAdded(cs, pkgs, true, Corrected) == Finish(r, p, true);
    if j < |cs| {
      var ins := InsertedAt(cs, BuildKey, p, j);
      ScanToRun(cs, p, true, 0, 0, Corrected);
      ScanQuiet(ins, p, true, j + 2 * |p| + 1, 2);
      assert r.0 == ins && r.2 >= 2;
    } else {
      ScanNoRun(cs, p, true, 0, 0, Corrected);
    }
  }

  /** Where add_packages puts run packages (corrected): before the first element after the
      first run_depend that is not a dependency, or before the last child when the dependencies
      run to the end; before the last child when there is no dependency at all; and nowhere
      when there are build_depends but no run_depend. */
  lemma RunPlacement(cs: seq<Node>, pkgs: seq<string>)
    ensures var p := Pruned(pkgs, Texts(cs, RunKey));
      var j := NextRun(cs, 0);
      LegacyAdded(cs, pkgs, false, Corrected) ==
        if j < |cs| then InsertedAt(cs, RunKey, p, NextOther(cs, j + 1))
        else if NoneTagged(cs, BuildKey, 0) then InsertedAt(cs, RunKey, p, |cs|)
        else cs
  {
    if NextRun(cs, 0) < |cs| {
      RunPlacementAfterRun(cs, pkgs);
    } else {
      RunPlacementNoRun(cs, pkgs);
    }
  }

  lemma RunPlacementAfterRun(cs: seq<Node>, pkgs: seq<string>)
    requires NextRun(cs, 0) < |cs|
    ensures LegacyAdded(cs, pkgs, false, Corrected) ==
      InsertedAt(cs, RunKey, Pruned(pkgs, Texts(cs, RunKey)), NextOther(cs, NextRun(cs, 0) + 1))
  {
    var p := Pruned(pkgs, Texts(cs, RunKey));
    var j := NextRun(cs, 0);
    assert LegacyAdded(cs, pkgs, false, Corrected) == Finish(Scan(cs, p, false, 0, 0, Corrected), p, false);
    ScanToRun(cs, p, false, 0, 0, Corrected);
    ScanRunBlockFinish(cs, p, j + 1);
  }

  /** What the run_depend block leaves once the loop's last insertion is made. */
  lemma ScanRunBlockFinish(cs: seq<Node>, pkgs: seq<string>, i: nat)
    requires i <= |cs|
    ensures Finish(Scan(cs, pkgs, false, i, 2, Corrected), pkgs, false) == InsertedAt(cs, RunKey, pkgs, NextOther(cs, i))
  {
    ScanRunBlock(cs, pkgs, i);
    var r := Scan(cs, pkgs, false, i, 2, Corrected);
    if NextOther(cs, i) < |cs| {
      assert r.0 == InsertedAt(cs, RunKey, pkgs, NextOther(cs, i)) && r.2 >= 3;
    } else {
      assert r == (cs, |cs|, 2);
    }
  }

  lemma RunPlacementNoRun(cs: seq<Node>, pkgs: seq<string>)
    requires NextRun(cs, 0) == |cs|
    ensures LegacyAdded(cs, pkgs, false, Corrected) ==
      if NoneTagged(cs, BuildKey, 0) then InsertedAt(cs, RunKey, Pruned(pkgs, Texts(cs, RunKey)), |cs|) else cs
  {
    var p := Pruned(pkgs, Texts(cs, RunKey));
    var r := Scan(cs, p, false, 0, 0, Corrected);
    assert LegacyAdded(cs, pkgs, false, Corrected) == Finish(r, p, false);
    ScanNoRun(cs, p, false, 0, 0, Corrected);
    assert r == (cs, |cs|, if NoneTagged(cs, BuildKey, 0) then 0 else 1);
  }

  /** Hence, corrected, add_packages inserts the request at most once: every package it did
      not list yet and that is not ignored is added as often as requested, or the document is
      left alone. */
  lemma AddedOnce(cs: seq<Node>, pkgs: seq<string>, build: bool, t: string, q: string)
    ensures var p := Pruned(pkgs, Texts(cs, Key(build)));
      var n := CountOf(LegacyAdded(cs, pkgs, build, Corrected), t, q);
      n == CountOf(cs, t, q) ||
      n == CountOf(cs, t, q) + (if t == Key(build) && q !in Ignored then multiset(p)[q] else 0)
  {
    var p := Pruned(pkgs, Texts(cs, Key(build)));
    if build {
      BuildPlacement(cs, pkgs);
    } else {
      RunPlacement(cs, pkgs);
    }
    var j := NextRun(cs, 0);
    var at := if j < |cs| then (if build then j else NextOther(cs, j + 1)) else |cs|;
    InsertedAtSpec(cs, Key(build), p, at, t, q);
  }

  // ---------------------------------------------------------------------------------------
  // The as-written state machine on dependencies listed package by package

  /** `<build_depend>a</build_depend> <run_depend>a</run_depend> <build_depend>b</build_depend>
      <run_depend>b</run_depend>`, each after an indentation. */
  const Interleaved: seq<Node> := [
    Text("\n  "), Element(BuildKey, "a"), Text("\n  "), Element(RunKey, "a"),
    Text("\n  "), Element(BuildKey, "b"), Text("\n  "), Element(RunKey, "b"), Text("\n")]

  /** As written, asking for build package c on that document inserts it twice: before the
      run_depend of a, and again before the run_depend of b, because the build_depend of b puts
      the state back to 1. Corrected, it is inserted once. */
  lemma InterleavedTwice()
    ensures CountOf(LegacyAdded(Interleaved, ["c"], true, AsWritten), BuildKey, "c") == 2
    ensures CountOf(LegacyAdded(Interleaved, ["c"], true, Corrected), BuildKey, "c") == 1
  {
    var cs := Interleaved;
    var p := ["c"];
    InterleavedRequest();
    InterleavedAsWritten();
    var d1 := InsertedAt(cs, BuildKey, p, 3);
    InsertedAtSpec(cs, BuildKey, p, 3, BuildKey, "c");
    InsertedAtSpec(d1, BuildKey, p, 9, BuildKey, "c");
    assert multiset(p)["c"] == 1;
    // Corrected: once, before the run_depend of a.
    BuildPlacement(cs, p);
    InsertedAtSpec(cs, BuildKey, p, NextRun(cs, 0), BuildKey, "c");
  }

  /** On that document the request for c stays whole, and c is not listed yet. */
  lemma InterleavedRequest()
    ensures Pruned(["c"], Texts(Interleaved, BuildKey)) == ["c"]
    ensures CountOf(Interleaved, BuildKey, "c") == 0
  {
    var cs := Interleaved;
    InterleavedBuildTexts();
    assert Pruned(["c"], ["a", "b"]) == ["c"] by {
      assert ["a", "b"][1..] == ["b"] && ["b"][1..] == [];
    }
    CountOfSpec(cs, BuildKey, "c");
  }

  /** The build packages the document lists: a and b. */
  lemma InterleavedBuildTexts()
    ensures Texts(Interleaved, BuildKey) == ["a", "b"]
  {
    var cs := Interleaved;
    assert cs[..1][..0] == [];
    assert Texts(cs[..1], BuildKey) == [];
    assert cs[..2][..1] == cs[..1];
    assert Texts(cs[..2], BuildKey) == ["a"];
    assert cs[..3][..2] == cs[..2];
    assert Texts(cs[..3], BuildKey) == ["a"];
    assert cs[..4][..3] == cs[..3];
    assert Texts(cs[..4], BuildKey) == ["a"];
    assert cs[..5][..4] == cs[..4];
    assert Texts(cs[..5], BuildKey) == ["a"];
    assert cs[..6][..5] == cs[..5];
    assert Texts(cs[..6], BuildKey) == ["a", "b"];
    assert cs[..7][..6] == cs[..6];
    assert Texts(cs[..7], BuildKey) == ["a", "b"];
    assert cs[..8][..7] == cs[..7];
    assert Texts(cs[..8], BuildKey) == ["a", "b"];
    assert cs[..9][..8] == cs[..8] && cs[..9] == cs;
  }

  /** As written, c goes in before the run_depend of a; the scan resumes at 6 in state 2; the
      build_depend of b (now at 7) puts it back to 1; and c goes in again before the
      run_depend of b (now at 9). */
  lemma InterleavedAsWritten()
    ensures NextRun(Interleaved, 0) == 3
    ensures LegacyAdded(Interleaved, ["c"], true, AsWritten) ==
      InsertedAt(InsertedAt(Interleaved, BuildKey, ["c"], 3), BuildKey, ["c"], 9)
  {
    var cs := Interleaved;
    var p := ["c"];
    InterleavedRequest();
    assert NextRun(cs, 3) == 3;
    assert NextRun(cs, 0) == 3 by {
      assert NextRun(cs, 2) == 3 && NextRun(cs, 1) == 3;
    }
    ScanToRun(cs, p, true, 0, 0, AsWritten);
    var nodes := NewNodes(BuildKey, p);
    assert nodes == [Text("\n  "), Element(BuildKey, "c")] by {
      assert p[..0] == [];
    }
    var d1 := InsertedAt(cs, BuildKey, p, 3);
    assert d1 == cs[..2] + nodes + cs[2..];
    assert |d1| == 11 && d1[6].Text? && d1[7] == Element(BuildKey, "b") && d1[9] == Element(RunKey, "b");
    assert Scan(d1, p, true, 6, 2, AsWritten) == Scan(d1, p, true, 8, 1, AsWritten);
    assert NextRun(d1, 9) == 9;
    assert NextRun(d1, 8) == 9;
    ScanToRun(d1, p, true, 8, 1, AsWritten);
    var d2 := InsertedAt(d1, BuildKey, p, 9);
    assert |d2| == 13;
    assert Scan(d2, p, true, 12, 2, AsWritten) == (d2, 13, 2) by {
      assert d2[12].Text?;
    }
  }

  // ---------------------------------------------------------------------------------------
  // The document

  class LegacyPackageXML {
    /** root.childNodes */
    var children: seq<Node>

    constructor (children: seq<Node>)
      ensures this.children == children
    {
      this.children := children;
    }

    /** get_packages(build) */
    method GetPackages(build: bool) returns (pkgs: seq<string>)
      ensures pkgs == Texts(children, Key(build))
    {
      var key := if build then BuildKey else RunKey;
      pkgs := [];
      for j := 0 to |children|
        invariant pkgs == Texts(children[..j], key)
      {
        assert children[..j + 1][..j] == children[..j];
        var el := children[j];
        if el.Element? && el.name == key {
          pkgs := pkgs + [el.text];
        }
      }
      assert children[..|children|] == children;
    }

    /** insert_new_elements(name, values, i) */
    method InsertNewElements(name: TagName, values: seq<string>, i: nat)
      modifies this
      ensures children == InsertedAt(old(children), name, values, i)
    {
      var x: seq<Node> := [];
      for k := 0 to |values|
        invariant x == NewNodes(name, values[..k])
      {
        assert values[..k + 1][..k] == values[..k];
        var pkg := values[k];
        if pkg in Ignored {
          continue;
        }
        x := x + [Text("\n  "), Element(name, pkg)];
      }
      assert values[..|values|] == values;
      var c := Cut(|children|, i);
      children := children[..c] + x + children[c..];
    }

    /** The first loop of add_packages: `pkgs.remove(pkg)` for each listed package it holds. */
    static method RemoveListed(pkgs: seq<string>, existing: seq<string>) returns (remaining: seq<string>)
      ensures remaining == Pruned(pkgs, existing)
    {
      remaining := pkgs;
      for k := 0 to |existing|
        invariant Pruned(remaining, existing[k..]) == Pruned(pkgs, existing)
      {
        assert existing[k..][1..] == existing[k + 1..];
        var pkg := existing[k];
        if pkg in remaining {
          remaining := RemoveFirst(remaining, pkg);
        }
      }
      assert existing[|existing|..] == [];
    }

    /** One pass of add_packages' loop over the child at `i`. */
    method ScanStep(remaining: seq<string>, build: bool, i: nat, state: nat) returns (next: nat, state': nat)
      requires i < |children|
      modifies this
      ensures Scan(children, remaining, build, next, state', Corrected) == Scan(old(children), remaining, build, i, state, Corrected)
      ensures |children| - next < |old(children)| - i
    {
      var child := children[i];
      next, state' := i + 1, state;
      if child.Text? {
        return;
      }
      var name := child.name;
      if name == BuildKey {
        state' := Advance(state, 1, Corrected);
      } else if name == RunKey {
        if state <= 1 && build {
          InsertNewElements(BuildKey, remaining, i);
          next := i + |remaining| * 2 + 1;
        }
        state' := Advance(state, 2, Corrected);
      } else if state == 2 {
        if !build {
          InsertNewElements(RunKey, remaining, i);
          next := i + |remaining| * 2 + 1;
        }
        state' := 3;
      }
    }

    /** add_packages(pkgs, build), with the state machine corrected so that it only moves
        forward; `remaining` is the caller's list after the call. */
    method AddPackages(pkgs: seq<string>, build: bool) returns (remaining: seq<string>)
      modifies this
      ensures remaining == Pruned(pkgs, Texts(old(children), Key(build)))
      ensures children == LegacyAdded(old(children), pkgs, build, Corrected)
    {
      var existing := GetPackages(build);
      remaining := RemoveListed(pkgs, existing);
      ghost var c0 := children;
      var state: nat := 0;
      var i: nat := 0;
      while i < |children|
        invariant Scan(children, remaining, build, i, state, Corrected) == Scan(c0, remaining, build, 0, 0, Corrected)
        decreases |children| - i
      {
        i, state := ScanStep(remaining, build, i, state);
      }
      if state == 0 {
        InsertNewElements(Key(build), remaining, i);
      } else if state == 2 && !build {
        InsertNewElements(RunKey, remaining, i);
      }
    }
  }
}
