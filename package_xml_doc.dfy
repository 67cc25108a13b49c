/** The `PackageXML` object of ros_introspection/package_xml.py: the children of the `<package>`
    root, the package format and the cached indentation width, with the methods that read and
    rewrite the child list. */
module PackageXmlDoc {
  import opened Base
  import opened Str
  import opened PackageXml

  // ---------------------------------------------------------------------------------------
  // std_tab (package_xml.py:74-87)

  /** How many text children end with exactly `n` spaces. */
  function Tally(cs: seq<Node>, n: nat): nat
    decreases |cs|
  {
    if cs == [] then 0
    else
      var x := cs[|cs| - 1];
      Tally(cs[..|cs| - 1], n) + (if x.Text? && TrailingSpaces(x.data) == n then 1 else 0)
  }

  lemma {:induction false} TallySpec(cs: seq<Node>, n: nat)
    ensures Tally(cs, n) > 0 <==> exists j :: 0 <= j < |cs| && cs[j].Text? && TrailingSpaces(cs[j].data) == n
    decreases |cs|
  {
    if cs != [] {
      var m := |cs| - 1;
      TallySpec(cs[..m], n);
      assert forall j :: 0 <= j < m ==> cs[..m][j] == cs[j];
    }
  }

  /** Without a tally, every child is an element. */
  lemma {:induction false} NoTallyNoText(cs: seq<Node>)
    requires forall n: nat :: Tally(cs, n) == 0
    ensures forall j :: 0 <= j < |cs| ==> cs[j].Element?
    decreases |cs|
  {
    if cs != [] {
      var m := |cs| - 1;
      var x := cs[m];
      var n := if x.Text? then TrailingSpaces(x.data) else 0;
      assert Tally(cs, n) == 0;
      forall k: nat ensures Tally(cs[..m], k) == 0 {
        assert Tally(cs, k) == 0;
      }
      NoTallyNoText(cs[..m]);
      assert forall j :: 0 <= j < m ==> cs[..m][j] == cs[j];
    }
  }

  /** A width std_tab may settle on: 4 without text children, else a most frequent number of
      trailing spaces (Python's `max` keeps the first of equally frequent widths in dictionary
      order, which is not fixed here). */
  ghost predicate IsStdTab(cs: seq<Node>, w: nat)
  {
    ((forall j :: 0 <= j < |cs| ==> cs[j].Element?) ==> w == 4) &&
    ((exists j :: 0 <= j < |cs| && cs[j].Text?) ==> Tally(cs, w) > 0 && forall n: nat :: Tally(cs, n) <= Tally(cs, w))
  }

  function Count(m: map<nat, nat>, n: nat): nat
  {
    if n in m then m[n] else 0
  }

  /** The body of std_tab: tally the trailing spaces of the text children, then take a most
      frequent count (visiting the tallies in any order), or 4 without text children. */
  method MostFrequentWidth(cs: seq<Node>) returns (w: nat)
    ensures IsStdTab(cs, w)
  {
    var counts: map<nat, nat> := map[];
    for i := 0 to |cs|
      invariant forall n :: Count(counts, n) == Tally(cs[..i], n)
      invariant forall n :: n in counts ==> counts[n] > 0
    {
      SliceSnoc(cs, i);
      assert cs[..i + 1][..i] == cs[..i];
      if cs[i].Text? {
        var c := CountTrailingSpaces(cs[i].data);
        counts := counts[c := Count(counts, c) + 1];
      }
    }
    assert cs[..|cs|] == cs;
    if counts == map[] {
      w := 4;
      NoTallyNoText(cs);
    } else {
      var keys := counts.Keys;
      w :| w in keys;
      while keys != {}
        invariant keys <= counts.Keys && w in counts
        invariant forall n :: n in counts && n !in keys ==> counts[n] <= counts[w]
        decreases |keys|
      {
        var k :| k in keys;
        if counts[k] > counts[w] {
          w := k;
        }
        keys := keys - {k};
      }
      assert Count(counts, w) > 0;
      TallySpec(cs, w);
      forall n: nat ensures Tally(cs, n) <= Tally(cs, w) {
        assert Count(counts, n) <= Count(counts, w);
      }
    }
  }

  // ---------------------------------------------------------------------------------------
  // get_child_indexes (package_xml.py:115-144)

  /** The loop state of get_child_indexes after the runs `rs`: the open run is the last one, and
      the dictionary holds the runs before it. */
  predicate ChildIndexesSoFar(rs: seq<Run>, tags: map<string, seq<(nat, nat)>>, current: Option<TagName>, start: nat, last: nat)
  {
    if rs == [] then current == None && tags == map[]
    else
      var r := rs[|rs| - 1];
      current == Some(r.name) && start == r.first && last == r.last && tags == Index(rs[..|rs| - 1])
  }

  /** Closing the open run gives the dictionary of all runs. */
  lemma ChildIndexesClose(rs: seq<Run>, tags: map<string, seq<(nat, nat)>>, current: Option<TagName>, start: nat, last: nat)
    requires ChildIndexesSoFar(rs, tags, current, start, last)
    ensures current.Some? ==> tags[current.value := Get(tags, current.value) + [(start, last)]] == Index(rs)
    ensures current.None? ==> tags == Index(rs)
  {
    if rs != [] {
      var n := |rs| - 1;
      IndexSnoc(rs[..n], rs[n]);
      assert rs[..n] + [rs[n]] == rs;
    }
  }

  /** One more child: a text node leaves the state alone, an element extends the open run or
      closes it and opens a new one. */
  lemma ChildIndexesStep(cs: seq<Node>, i: nat, tags: map<string, seq<(nat, nat)>>, current: Option<TagName>, start: nat, last: nat)
    requires i < |cs| && ChildIndexesSoFar(Runs(cs[..i]), tags, current, start, last)
    ensures cs[i].Text? ==> ChildIndexesSoFar(Runs(cs[..i + 1]), tags, current, start, last)
    ensures cs[i].Element? && current == Some(cs[i].name) ==>
      ChildIndexesSoFar(Runs(cs[..i + 1]), tags, current, start, i)
    ensures cs[i].Element? && current != Some(cs[i].name) ==>
      ChildIndexesSoFar(Runs(cs[..i + 1]), if current.Some? then tags[current.value := Get(tags, current.value) + [(start, last)]] else tags,
                        Some(cs[i].name), i, i)
  {
    var rs := Runs(cs[..i]);
    assert cs[..i + 1][..i] == cs[..i];
    ChildIndexesClose(rs, tags, current, start, last);
    if cs[i].Element? && current == Some(cs[i].name) {
      var n := |rs| - 1;
      var rs' := rs[..n] + [Run(cs[i].name, rs[n].first, i)];
      assert rs'[..|rs'| - 1] == rs[..n];
    } else if cs[i].Element? {
      var rs' := rs + [Run(cs[i].name, i, i)];
      assert rs'[..|rs'| - 1] == rs;
    }
  }

  /** Every entry of the dictionary holds at least one run. */
  lemma IndexNonEmpty(rs: seq<Run>)
    ensures forall t :: t in Index(rs) ==> Index(rs)[t] != []
  {
    forall t | t in Index(rs) ensures Index(rs)[t] != [] {
      RunsNamedEmpty(rs, t);
    }
  }

  // ---------------------------------------------------------------------------------------
  // get_insertion_index (package_xml.py:146-172)

  /** The end index of the last run of a tag, 0 when the tag has none. */
  function LastEnd(idx: map<string, seq<(nat, nat)>>, t: string): nat
  {
    if t in idx && idx[t] != [] then Last(idx[t]).1 else 0
  }

  /** The state of the search for the closest earlier tag once the keys in `seen` are visited:
      none found exactly when no visited tag comes before the new one, else the best has the
      largest ordering index below `bound` and, among tags with that index, the latest last
      run. */
  predicate BestSoFar(idx: map<string, seq<(nat, nat)>>, seen: set<string>, bound: nat, best: Option<string>, bestIndex: nat, rank: string -> nat)
  {
    (best.None? <==> forall t :: t in seen ==> rank(t) >= bound) &&
    (best.Some? ==>
      best.value in seen && bestIndex == rank(best.value) < bound &&
      forall t :: t in seen && rank(t) < bound ==>
        rank(t) < bestIndex || (rank(t) == bestIndex && LastEnd(idx, t) <= LastEnd(idx, best.value)))
  }

  /** One more visited key: the search keeps its state, or takes the key as the new best when
      it ranks below the bound and beats the best so far. */
  lemma BestStep(idx: map<string, seq<(nat, nat)>>, seen: set<string>, t: string, bound: nat, best: Option<string>,
                 bestIndex: nat, rank: string -> nat)
    requires BestSoFar(idx, seen, bound, best, bestIndex, rank) && t !in seen
    ensures rank(t) < bound && (best.None? || rank(t) > bestIndex || (rank(t) == bestIndex && LastEnd(idx, t) > LastEnd(idx, best.value))) ==>
      BestSoFar(idx, seen + {t}, bound, Some(t), rank(t), rank)
    ensures !(rank(t) < bound && (best.None? || rank(t) > bestIndex || (rank(t) == bestIndex && LastEnd(idx, t) > LastEnd(idx, best.value)))) ==>
      BestSoFar(idx, seen + {t}, bound, best, bestIndex, rank)
  {
  }

  /** The dictionary's end index of a tag is the last element with that tag. */
  lemma LastEndIsLastNamed(cs: seq<Node>, t: string)
    requires t in Index(Runs(cs))
    ensures LastEnd(Index(Runs(cs)), t) == LastWhere(cs, IsNamed(t))
  {
    IndexLast(cs, t);
    var p := LastEnd(Index(Runs(cs)), t);
    var l := LastWhere(cs, IsNamed(t));
    assert IsNamed(t)(cs[p]);
    if l >= 0 {
      assert IsNamed(t)(cs[l]);
      assert !Named(cs, l, t) || l <= p;
    }
  }

  /** An element's tag is a key of the dictionary. */
  lemma ElementIsKey(cs: seq<Node>, j: nat)
    requires j < |cs| && cs[j].Element?
    ensures cs[j].name in Index(Runs(cs))
  {
    IndexKeys(cs, cs[j].name);
    assert Named(cs, j, cs[j].name);
  }

  /** A tag already present goes after its last element. */
  lemma TagPresentIndex(cs: seq<Node>, tag: string, rank: string -> nat)
    requires tag in Index(Runs(cs))
    ensures InsertionIndex(cs, tag, rank) == LastEnd(Index(Runs(cs)), tag)
  {
    LastEndIsLastNamed(cs, tag);
  }

  /** With no earlier tag in the dictionary, nothing comes before the new tag. */
  lemma NoBestAtEnd(cs: seq<Node>, tag: string, rank: string -> nat)
    requires tag !in Index(Runs(cs))
    requires forall t :: t in Index(Runs(cs)) ==> rank(t) >= rank(tag)
    ensures InsertionIndex(cs, tag, rank) == |cs|
  {
    var b := rank(tag);
    NotKeyNotNamed(cs, tag);
    forall j | 0 <= j < |cs| && cs[j].Element? ensures OrderOf(cs[j], rank) >= b {
      ElementIsKey(cs, j);
    }
    NothingBeforeAtEnd(cs, tag, rank);
  }

  lemma NothingBeforeAtEnd(cs: seq<Node>, tag: string, rank: string -> nat)
    requires LastWhere(cs, IsNamed(tag)) == -1
    requires forall j :: 0 <= j < |cs| && cs[j].Element? ==> OrderOf(cs[j], rank) >= rank(tag)
    ensures InsertionIndex(cs, tag, rank) == |cs|
  {
    MaxOrderBelowSpec(cs, rank(tag), rank);
  }

  /** A tag that is not a key has no element, so LastWhere finds none. */
  lemma NotKeyNotNamed(cs: seq<Node>, tag: string)
    requires tag !in Index(Runs(cs))
    ensures LastWhere(cs, IsNamed(tag)) == -1
  {
    IndexKeys(cs, tag);
    var l := LastWhere(cs, IsNamed(tag));
    assert l >= 0 ==> Named(cs, l, tag);
  }

  /** The best tag found gives the reference insertion index. */
  lemma BestGivesInsertionIndex(cs: seq<Node>, tag: string, b: string, rank: string -> nat)
    requires tag !in Index(Runs(cs))
    requires BestSoFar(Index(Runs(cs)), Index(Runs(cs)).Keys, rank(tag), Some(b), rank(b), rank)
    ensures InsertionIndex(cs, tag, rank) == LastEnd(Index(Runs(cs)), b)
  {
    var idx := Index(Runs(cs));
    var bound := rank(tag);
    var bi := rank(b);
    NotKeyNotNamed(cs, tag);
    MaxOrderBelowSpec(cs, bound, rank);
    var o := MaxOrderBelow(cs, bound, rank);
    LastEndIsLastNamed(cs, b);
    IndexLast(cs, b);
    var lb := LastEnd(idx, b);
    assert Named(cs, lb, b) && OrderOf(cs[lb], rank) == bi;
    var j :| 0 <= j < |cs| && cs[j].Element? && OrderOf(cs[j], rank) == o;
    ElementIsKey(cs, j);
    assert o == bi;
    var r := LastWhere(cs, HasOrder(o, rank));
    assert HasOrder(o, rank)(cs[lb]);
    assert lb <= r;
    assert HasOrder(o, rank)(cs[r]);
    var n := cs[r].name;
    ElementIsKey(cs, r);
    LastEndIsLastNamed(cs, n);
    assert IsNamed(n)(cs[r]);
    assert r <= LastEnd(idx, n);
    assert LastEnd(idx, n) <= lb;
  }

  /** get_insertion_index's search over the dictionary as evidently intended, visiting its keys
      in any order: the tag with the largest rank below `bound`, the latest last run breaking
      ties between equal ranks. The loop as written (package_xml.py:159-167) lets a later last
      run win whatever its rank; BestAsWritten models that. */
  method ClosestEarlierTag(indexes: map<string, seq<(nat, nat)>>, bound: nat, rank: string -> nat)
    returns (best: Option<string>, bestIndex: nat)
    requires forall t :: t in indexes ==> indexes[t] != []
    ensures BestSoFar(indexes, indexes.Keys, bound, best, bestIndex, rank)
  {
    best, bestIndex := None, 0;
    var keys := indexes.Keys;
    while keys != {}
      invariant keys <= indexes.Keys
      invariant BestSoFar(indexes, indexes.Keys - keys, bound, best, bestIndex, rank)
      decreases |keys|
    {
      var t :| t in keys;
      BestStep(indexes, indexes.Keys - keys, t, bound, best, bestIndex, rank);
      assert indexes.Keys - (keys - {t}) == indexes.Keys - keys + {t};
      var ni := rank(t);
      if ni < bound {
        if best.None? || ni > bestIndex || (ni == bestIndex && Last(indexes[t]).1 > Last(indexes[best.value]).1) {
          best := Some(t);
          bestIndex := ni;
        }
      }
      keys := keys - {t};
    }
    assert indexes.Keys - keys == indexes.Keys;
  }

  /** get_insertion_index's loop as written (package_xml.py:159-167), visiting the keys in the
      order `order`: a key below the bound replaces the best when it ranks higher, but also when
      its last run compares higher as a (first, last) pair, whatever its rank. */
  function BestAsWritten(idx: map<string, seq<(nat, nat)>>, order: seq<string>, bound: nat, best: Option<string>,
                         bestIndex: nat, rank: string -> nat): (r: Option<string>)
    ensures r.Some? ==> r == best || r.value in order
    decreases |order|
  {
    if order == [] then best
    else
      var t := order[0];
      var ni := rank(t);
      if ni < bound && (best.None? || ni > bestIndex || PairAbove(LastPair(idx, t), LastPair(idx, best.value))) then
        BestAsWritten(idx, order[1..], bound, Some(t), ni, rank)
      else
        BestAsWritten(idx, order[1..], bound, best, bestIndex, rank)
  }

  function LastPair(idx: map<string, seq<(nat, nat)>>, t: string): (nat, nat)
  {
    if t in idx && idx[t] != [] then Last(idx[t]) else (0, 0)
  }

  /** Python's comparison of two pairs. */
  predicate PairAbove(a: (nat, nat), b: (nat, nat))
  {
    a.0 > b.0 || (a.0 == b.0 && a.1 > b.1)
  }

  /** A document out of ORDERING order: the version (rank 1) at position 1, the name (rank 0) at
      position 3. */
  const Unordered: seq<Node> := [Text("\n  "), Element("version", "1.0.0"), Text("\n  "), Element("name", "foo"), Text("\n")]

  const UnorderedIndex: map<string, seq<(nat, nat)>> := map["version" := [(1, 1)], "name" := [(3, 3)]]

  lemma UnorderedRuns()
    ensures Runs(Unordered) == [Run("version", 1, 1), Run("name", 3, 3)]
  {
    var cs := Unordered;
    assert cs[..1][..0] == [] && cs[..2][..1] == cs[..1] && cs[..3][..2] == cs[..2];
    assert cs[..4][..3] == cs[..3] && cs[..5][..4] == cs[..4] && cs[..5] == cs;
    assert Runs(cs[..1]) == [];
    assert Runs(cs[..2]) == [Run("version", 1, 1)];
    assert Runs(cs[..3]) == [Run("version", 1, 1)];
    assert Runs(cs[..4]) == [Run("version", 1, 1), Run("name", 3, 3)];
  }

  lemma UnorderedKeys()
    ensures Index(Runs(Unordered)) == UnorderedIndex
  {
    UnorderedRuns();
    var r0, r1 := Run("version", 1, 1), Run("name", 3, 3);
    var e: seq<Run> := [];
    assert Index(e) == map[];
    IndexSnoc(e, r0);
    assert e + [r0] == [r0];
    assert Get(Index(e), r0.name) + [(r0.first, r0.last)] == [(1, 1)];
    var m0 := map["version" := [(1, 1)]];
    assert Index([r0]) == m0;
    IndexSnoc([r0], r1);
    assert [r0] + [r1] == [r0, r1];
    assert Get(m0, r1.name) + [(r1.first, r1.last)] == [(3, 3)];
    assert Index([r0, r1]) == m0["name" := [(3, 3)]];
  }

  /** The loop as written on that document's dictionary, for a new description: it settles on
      the name (last run ending at 3) when it visits the version first, on the version (ending
      at 1) when it visits the name first. */
  lemma AsWrittenDependsOnOrder()
    ensures BestAsWritten(UnorderedIndex, ["version", "name"], OrderingIndex("description"), None, 0, OrderingIndex) == Some("name")
    ensures BestAsWritten(UnorderedIndex, ["name", "version"], OrderingIndex("description"), None, 0, OrderingIndex) == Some("version")
    ensures LastEnd(UnorderedIndex, "name") == 3 && LastEnd(UnorderedIndex, "version") == 1
  {
    OrderingIndexIs("name", 0);
    OrderingIndexIs("version", 1);
    OrderingIndexIs("description", 2);
    assert ["version", "name"][1..] == ["name"] && ["name", "version"][1..] == ["version"];
  }

  /** The reference search on that document's dictionary settles on the version. */
  lemma UnorderedBest()
    ensures BestSoFar(UnorderedIndex, UnorderedIndex.Keys, OrderingIndex("description"), Some("version"), OrderingIndex("version"), OrderingIndex)
    ensures LastEnd(UnorderedIndex, "version") == 1
  {
    OrderingIndexIs("name", 0);
    OrderingIndexIs("version", 1);
    OrderingIndexIs("description", 2);
    assert UnorderedIndex.Keys == {"version", "name"};
  }

  /** The reference answer on that document: after the version, at 1, whatever the order. */
  lemma UnorderedInsertion()
    ensures InsertionIndex(Unordered, "description", OrderingIndex) == 1
  {
    UnorderedKeys();
    UnorderedBest();
    assert "description" !in UnorderedIndex;
    BestGivesInsertionIndex(Unordered, "description", "version", OrderingIndex);
  }

  // ---------------------------------------------------------------------------------------
  // Counting entries (used by insert_new_tags, add_packages and remove_element)

  /** An element with tag `t` whose text is `p`: one listing of package `p` under `t`. */
  predicate IsEntry(x: Node, t: string, p: string)
  {
    x.Element? && x.name == t && x.text == p
  }

  /** How many elements list `p` under `t`. */
  function CountOf(cs: seq<Node>, t: string, p: string): nat
    decreases |cs|
  {
    if cs == [] then 0
    else CountOf(cs[..|cs| - 1], t, p) + (if IsEntry(cs[|cs| - 1], t, p) then 1 else 0)
  }

  lemma {:induction false} CountOfAppend(a: seq<Node>, b: seq<Node>, t: string, p: string)
    ensures CountOf(a + b, t, p) == CountOf(a, t, p) + CountOf(b, t, p)
    decreases |b|
  {
    if b == [] {
      assert a + b == a;
    } else {
      var n := |b| - 1;
      assert (a + b)[..|a + b| - 1] == a + b[..n];
      CountOfAppend(a, b[..n], t, p);
    }
  }

  lemma {:induction false} CountOfSpec(cs: seq<Node>, t: string, p: string)
    ensures CountOf(cs, t, p) > 0 <==> exists j :: 0 <= j < |cs| && IsEntry(cs[j], t, p)
    decreases |cs|
  {
    if cs != [] {
      var n := |cs| - 1;
      CountOfSpec(cs[..n], t, p);
      assert forall j :: 0 <= j < n ==> cs[..n][j] == cs[j];
    }
  }

  /** A package is among the texts of the `keys` elements exactly when it is listed under one
      of the keys. */
  lemma PackagesInByCount(cs: seq<Node>, keys: seq<string>, p: string)
    ensures p in PackagesIn(cs, keys) <==> exists t :: t in keys && CountOf(cs, t, p) > 0
  {
    PackagesInSpec(cs, keys, p);
    if p in PackagesIn(cs, keys) {
      var j :| 0 <= j < |cs| && cs[j].Element? && cs[j].name in keys && cs[j].text == p;
      CountOfSpec(cs, cs[j].name, p);
    }
    if exists t :: t in keys && CountOf(cs, t, p) > 0 {
      var t :| t in keys && CountOf(cs, t, p) > 0;
      CountOfSpec(cs, t, p);
    }
  }

  /** Two documents listing every package under every tag equally often have the same
      packages for any keys. */
  lemma PackagesInSameCounts(a: seq<Node>, b: seq<Node>, keys: seq<string>)
    requires forall t, p :: CountOf(a, t, p) == CountOf(b, t, p)
    ensures PackagesIn(a, keys) == PackagesIn(b, keys)
  {
    forall p ensures p in PackagesIn(a, keys) <==> p in PackagesIn(b, keys) {
      PackagesInByCount(a, keys, p);
      PackagesInByCount(b, keys, p);
    }
  }

  // ---------------------------------------------------------------------------------------
  // insert_new_tags, insert_new_packages (package_xml.py:174-193)

  function Spaces(n: nat): (s: string)
    ensures |s| == n && forall k :: 0 <= k < n ==> s[k] == ' '
  {
    seq(n, _ => ' ')
  }

  /** get_tab_element: a text node holding a newline and `width` spaces. */
  function Indent(width: nat): Node
  {
    Text("\n" + Spaces(width))
  }

  /** The new elements, each preceded by an indent node. */
  function Indented(width: nat, tags: seq<Node>): (r: seq<Node>)
    ensures |r| == 2 * |tags|
    decreases |tags|
  {
    if tags == [] then [] else Indented(width, tags[..|tags| - 1]) + [Indent(width), tags[|tags| - 1]]
  }

  /** get_insertion_index, as the class computes it. */
  function SourceIndex(cs: seq<Node>, tag: string): nat
  {
    InsertionIndex(cs, tag, OrderingIndex)
  }

  /** Where insert_new_tags splices: after the position get_insertion_index gives, clamped to
      the end as Python's slices are. The insertion index is a parameter here; the class passes
      SourceIndex. */
  function SplicePoint(cs: seq<Node>, tag: string, index: (seq<Node>, string) -> nat): (c: nat)
    ensures c <= |cs|
  {
    var i := index(cs, tag);
    if i + 1 < |cs| then i + 1 else |cs|
  }

  /** insert_new_tags on a non-empty list of elements of one tag. */
  function Spliced(cs: seq<Node>, width: nat, tags: seq<Node>, index: (seq<Node>, string) -> nat): seq<Node>
    requires tags != [] && tags[0].Element?
  {
    var c := SplicePoint(cs, tags[0].name, index);
    cs[..c] + Indented(width, tags) + cs[c..]
  }

  lemma {:induction false} IndentedCount(width: nat, tags: seq<Node>, t: string, p: string)
    ensures CountOf(Indented(width, tags), t, p) == CountOf(tags, t, p)
    decreases |tags|
  {
    if tags != [] {
      var n := |tags| - 1;
      var pair := [Indent(width), tags[n]];
      IndentedCount(width, tags[..n], t, p);
      assert Indented(width, tags) == Indented(width, tags[..n]) + pair;
      CountOfAppend(Indented(width, tags[..n]), pair, t, p);
      assert pair[..1] == [Indent(width)];
      assert [Indent(width)][..0] == [];
      assert CountOf([Indent(width)], t, p) == 0;
      assert CountOf(pair, t, p) == if IsEntry(tags[n], t, p) then 1 else 0;
    }
  }

  /** insert_new_tags keeps every existing node, in order, around the new ones. */
  lemma SplicedFrame(cs: seq<Node>, width: nat, tags: seq<Node>, index: (seq<Node>, string) -> nat)
    requires tags != [] && tags[0].Element?
    ensures var c := SplicePoint(cs, tags[0].name, index);
      Spliced(cs, width, tags, index)[..c] == cs[..c] && Spliced(cs, width, tags, index)[c + 2 * |tags|..] == cs[c..]
  {
    var c := SplicePoint(cs, tags[0].name, index);
    var mid := Indented(width, tags);
    assert (cs[..c] + mid + cs[c..])[c + |mid|..] == cs[c..];
    assert (cs[..c] + mid + cs[c..])[..c] == cs[..c];
  }

  /** ... and adds exactly the listings of the new elements. */
  lemma SplicedCount(cs: seq<Node>, width: nat, tags: seq<Node>, index: (seq<Node>, string) -> nat, t: string, p: string)
    requires tags != [] && tags[0].Element?
    ensures CountOf(Spliced(cs, width, tags, index), t, p) == CountOf(cs, t, p) + CountOf(tags, t, p)
  {
    var c := SplicePoint(cs, tags[0].name, index);
    var mid := Indented(width, tags);
    CountOfAppend(cs[..c] + mid, cs[c..], t, p);
    CountOfAppend(cs[..c], mid, t, p);
    CountOfAppend(cs[..c], cs[c..], t, p);
    assert cs[..c] + cs[c..] == cs;
    IndentedCount(width, tags, t, p);
  }

  /** One element of tag `tag` per package, in the given order. */
  function ElementsFor(tag: TagName, ps: seq<string>): (r: seq<Node>)
    ensures |r| == |ps|
    ensures forall i :: 0 <= i < |ps| ==> r[i] == Element(tag, ps[i])
    decreases |ps|
  {
    if ps == [] then [] else ElementsFor(tag, ps[..|ps| - 1]) + [Element(tag, ps[|ps| - 1])]
  }

  lemma {:induction false} ElementsForCount(tag: TagName, ps: seq<string>, t: string, p: string)
    ensures CountOf(ElementsFor(tag, ps), t, p) == if t == tag then multiset(ps)[p] else 0
    decreases |ps|
  {
    if ps != [] {
      var n := |ps| - 1;
      ElementsForCount(tag, ps[..n], t, p);
      assert ElementsFor(tag, ps)[..n] == ElementsFor(tag, ps[..n]);
      assert ps == ps[..n] + [ps[n]];
    }
  }

  /** `sorted(values)` holds each value once. */
  lemma {:induction false} SortSetOnce(values: set<string>, p: string)
    ensures multiset(SortSet(values))[p] == if p in values then 1 else 0
    decreases |values|
  {
    if values != {} {
      var m := SetMin(values);
      SortSetOnce(values - {m}, p);
      assert SortSet(values) == [m] + SortSet(values - {m});
    }
  }

  /** insert_new_packages: the values, sorted, as new `tag` elements; no change without
      values. */
  function PackagesInserted(cs: seq<Node>, width: nat, tag: TagName, values: set<string>, index: (seq<Node>, string) -> nat): seq<Node>
  {
    if values == {} then cs else
      var ps := SortSet(values);
      assert ps != [] by { var v :| v in values; assert v in ps; }
      Spliced(cs, width, ElementsFor(tag, ps), index)
  }

  /** insert_new_packages lists each value once more under `tag` and changes nothing else. */
  lemma PackagesInsertedCount(cs: seq<Node>, width: nat, tag: TagName, values: set<string>, index: (seq<Node>, string) -> nat, t: string, p: string)
    ensures CountOf(PackagesInserted(cs, width, tag, values, index), t, p) == CountOf(cs, t, p) + (if t == tag && p in values then 1 else 0)
  {
    if values != {} {
      var ps := SortSet(values);
      var v :| v in values;
      assert v in ps;
      SplicedCount(cs, width, ElementsFor(tag, ps), index, t, p);
      ElementsForCount(tag, ps, t, p);
      SortSetOnce(values, p);
    }
  }

  /** Hence the packages of any keys gain the values exactly when `tag` is one of the keys. */
  lemma PackagesInsertedSets(cs: seq<Node>, width: nat, tag: TagName, values: set<string>, index: (seq<Node>, string) -> nat, keys: seq<string>)
    ensures PackagesIn(PackagesInserted(cs, width, tag, values, index), keys) == PackagesIn(cs, keys) + (if tag in keys then values else {})
  {
    var after := PackagesInserted(cs, width, tag, values, index);
    forall p ensures p in PackagesIn(after, keys) <==> p in PackagesIn(cs, keys) + (if tag in keys then values else {}) {
      forall t ensures CountOf(after, t, p) == CountOf(cs, t, p) + (if t == tag && p in values then 1 else 0) {
        PackagesInsertedCount(cs, width, tag, values, index, t, p);
      }
      GainedMember(cs, after, keys, tag, p in values, p);
    }
  }

  /** When `after` lists `p` under `tag` once more when `gained` and otherwise as `cs` does,
      `p` is among the packages of the keys exactly as the counts say. */
  lemma GainedMember(cs: seq<Node>, after: seq<Node>, keys: seq<string>, tag: string, gained: bool, p: string)
    requires forall t :: CountOf(after, t, p) == CountOf(cs, t, p) + (if t == tag && gained then 1 else 0)
    ensures p in PackagesIn(after, keys) <==> p in PackagesIn(cs, keys) || (tag in keys && gained)
  {
    PackagesInByCount(after, keys, p);
    PackagesInByCount(cs, keys, p);
    if tag in keys && gained {
      assert CountOf(after, tag, p) > 0;
    }
    if p in PackagesIn(after, keys) && !(tag in keys && gained) {
      var t :| t in keys && CountOf(after, t, p) > 0;
      assert CountOf(cs, t, p) > 0;
    }
  }

  /** A tag's packages are among the packages of any keys holding that tag. */
  lemma PackagesInTag(cs: seq<Node>, tag: string, keys: seq<string>)
    requires tag in keys
    ensures PackagesIn(cs, [tag]) <= PackagesIn(cs, keys)
  {
    forall p | p in PackagesIn(cs, [tag]) ensures p in PackagesIn(cs, keys) {
      PackagesInSpec(cs, [tag], p);
      PackagesInSpec(cs, keys, p);
    }
  }

  /** Inserting packages not yet listed under `tag` lists no package twice that was listed at
      most once. */
  lemma InsertedSingle(cs: seq<Node>, width: nat, tag: TagName, values: set<string>, index: (seq<Node>, string) -> nat, t: string, p: string)
    requires values !! PackagesIn(cs, [tag])
    requires CountOf(cs, t, p) <= 1
    ensures CountOf(PackagesInserted(cs, width, tag, values, index), t, p) <= 1
  {
    PackagesInsertedCount(cs, width, tag, values, index, t, p);
    if t == tag && p in values {
      PackagesInByCount(cs, [tag], p);
    }
  }

  // ---------------------------------------------------------------------------------------
  // add_packages (package_xml.py:195-217)

  /** One call of insert_new_packages: a tag and the packages to list under it. */
  type Step = (TagName, set<string>)

  /** The insert_new_packages calls, one after the other. */
  function InsertAll(cs: seq<Node>, width: nat, steps: seq<Step>, index: (seq<Node>, string) -> nat): seq<Node>
    decreases |steps|
  {
    if steps == [] then cs
    else InsertAll(PackagesInserted(cs, width, steps[0].0, steps[0].1, index), width, steps[1..], index)
  }

  /** The packages the steps list under one of the keys. */
  function StepsIn(steps: seq<Step>, keys: seq<string>): set<string>
    decreases |steps|
  {
    if steps == [] then {}
    else Part(steps[0], keys) + StepsIn(steps[1..], keys)
  }

  /** Each step lists only packages that its tag does not list yet, in the document or in an
      earlier step. */
  predicate FreshSteps(cs: seq<Node>, steps: seq<Step>)
  {
    forall i :: 0 <= i < |steps| ==> steps[i].1 !! PackagesIn(cs, [steps[i].0]) + StepsIn(steps[..i], [steps[i].0])
  }

  /** The packages of any keys after the steps: those before and those the steps list under
      the keys. */
  lemma {:induction false} InsertAllSets(cs: seq<Node>, width: nat, steps: seq<Step>, index: (seq<Node>, string) -> nat, keys: seq<string>)
    ensures PackagesIn(InsertAll(cs, width, steps, index), keys) == PackagesIn(cs, keys) + StepsIn(steps, keys)
    decreases |steps|
  {
    if steps != [] {
      var d := PackagesInserted(cs, width, steps[0].0, steps[0].1, index);
      PackagesInsertedSets(cs, width, steps[0].0, steps[0].1, index, keys);
      InsertAllSets(d, width, steps[1..], index, keys);
    }
  }

  lemma StepsInPrefix(steps: seq<Step>, i: nat, keys: seq<string>)
    requires i < |steps|
    ensures StepsIn(steps[..i + 1], keys) == Part(steps[0], keys) + StepsIn(steps[1..][..i], keys)
  {
    assert steps[..i + 1][1..] == steps[1..][..i];
  }

  /** Fresh steps list no package twice under a tag that listed it at most once. */
  lemma {:induction false} InsertAllSingle(cs: seq<Node>, width: nat, steps: seq<Step>, index: (seq<Node>, string) -> nat, t: string, p: string)
    requires FreshSteps(cs, steps)
    requires CountOf(cs, t, p) <= 1
    ensures CountOf(InsertAll(cs, width, steps, index), t, p) <= 1
    decreases |steps|
  {
    if steps != [] {
      var (tag, values) := steps[0];
      assert steps[..0] == [];
      var d := PackagesInserted(cs, width, tag, values, index);
      InsertedSingle(cs, width, tag, values, index, t, p);
      var rest := steps[1..];
      forall i | 0 <= i < |rest|
        ensures rest[i].1 !! PackagesIn(d, [rest[i].0]) + StepsIn(rest[..i], [rest[i].0])
      {
        var key := [rest[i].0];
        assert rest[i] == steps[i + 1];
        assert steps[i + 1].1 !! PackagesIn(cs, key) + StepsIn(steps[..i + 1], key);
        PackagesInsertedSets(cs, width, tag, values, index, key);
        assert PackagesIn(d, key) == PackagesIn(cs, key) + Part(steps[0], key);
        StepsInPrefix(steps, i, key);
        assert StepsIn(steps[..i + 1], key) == Part(steps[0], key) + StepsIn(rest[..i], key);
      }
      InsertAllSingle(d, width, rest, index, t, p);
    }
  }

  /** The depend-tag calls of add_packages, given the new build packages `b` and the new run
      packages `r` (both already stripped of the existing ones). */
  function DependSteps(format: int, b: set<string>, r: set<string>, existingRun: set<string>, prefer: bool): seq<Step>
  {
    if format == 1 then [("build_depend", b), ("run_depend", r)]
    else if prefer then [("depend", b + r)]
    else
      var both := b * r;
      [("depend", both), ("build_depend", b - both), ("exec_depend", b - both - existingRun), ("exec_depend", r - both)]
  }

  /** The depend-tag insertions of add_packages on children `cs` of a document with package
      format `format` and indentation width `width`; in format 1 the run packages take in the
      build packages. */
  function DependsAdded(cs: seq<Node>, width: nat, format: int, build: set<string>, run: set<string>,
                        prefer: bool, index: (seq<Node>, string) -> nat): seq<Node>
  {
    var existingBuild := Packages(cs, BuildMode, format);
    var existingRun := Packages(cs, RunMode, format);
    InsertAll(cs, width, DependSteps(format, build - existingBuild,
                                     (if format == 1 then run + build else run) - existingRun, existingRun, prefer), index)
  }

  /** add_packages: the depend-tag insertions, then the test packages that are neither built
      before, nor among the build packages, nor tested after the insertions. */
  function Added(cs: seq<Node>, width: nat, format: int, build: set<string>, run: set<string>,
                 test: Option<set<string>>, prefer: bool, index: (seq<Node>, string) -> nat): seq<Node>
  {
    var existingBuild := Packages(cs, BuildMode, format);
    var deps := DependsAdded(cs, width, format, build, run, prefer, index);
    if test.Some? && test.value != {} then
      PackagesInserted(deps, width, TestDependTag, test.value - existingBuild - (build - existingBuild) - Packages(deps, TestMode, format), index)
    else deps
  }

  /** What one step lists under the keys. */
  function Part(s: Step, keys: seq<string>): set<string>
  {
    if s.0 in keys then s.1 else {}
  }

  lemma {:induction false} StepsInAppend(a: seq<Step>, b: seq<Step>, keys: seq<string>)
    ensures StepsIn(a + b, keys) == StepsIn(a, keys) + StepsIn(b, keys)
    decreases |a|
  {
    if a == [] {
      assert a + b == b;
    } else {
      assert (a + b)[1..] == a[1..] + b;
      StepsInAppend(a[1..], b, keys);
    }
  }

  lemma StepsInOne(s: Step, keys: seq<string>)
    ensures StepsIn([s], keys) == Part(s, keys)
  {
    var e: seq<Step> := [];
    assert [s][1..] == e;
  }

  lemma StepsInTwo(s0: Step, s1: Step, keys: seq<string>)
    ensures StepsIn([s0, s1], keys) == Part(s0, keys) + Part(s1, keys)
  {
    StepsInAppend([s0], [s1], keys);
    StepsInOne(s0, keys);
    StepsInOne(s1, keys);
    assert [s0] + [s1] == [s0, s1];
  }

  lemma StepsInThree(s0: Step, s1: Step, s2: Step, keys: seq<string>)
    ensures StepsIn([s0, s1, s2], keys) == Part(s0, keys) + Part(s1, keys) + Part(s2, keys)
  {
    StepsInAppend([s0, s1], [s2], keys);
    StepsInTwo(s0, s1, keys);
    StepsInOne(s2, keys);
    assert [s0, s1] + [s2] == [s0, s1, s2];
  }

  lemma StepsInFour(s0: Step, s1: Step, s2: Step, s3: Step, keys: seq<string>)
    ensures StepsIn([s0, s1, s2, s3], keys) == Part(s0, keys) + Part(s1, keys) + Part(s2, keys) + Part(s3, keys)
  {
    StepsInAppend([s0, s1, s2], [s3], keys);
    StepsInThree(s0, s1, s2, keys);
    StepsInOne(s3, keys);
    assert [s0, s1, s2] + [s3] == [s0, s1, s2, s3];
  }

  /** Format 1: build_depend takes the new build packages, run_depend the new run packages. */
  lemma DependStepsFormat1(b: set<string>, r: set<string>, r0: set<string>, prefer: bool, mode: Mode)
    ensures StepsIn(DependSteps(1, b, r, r0, prefer), PackageKeys(mode, 1)) ==
      match mode
      case BuildMode => b
      case RunMode => r
      case TestMode => {}
  {
    var s0: Step, s1: Step := ("build_depend", b), ("run_depend", r);
    assert DependSteps(1, b, r, r0, prefer) == [s0, s1];
    StepsInTwo(s0, s1, PackageKeys(mode, 1));
    match mode
    case BuildMode => assert PackageKeys(mode, 1) == ["build_depend"];
    case RunMode => assert PackageKeys(mode, 1) == ["run_depend"];
    case TestMode => assert PackageKeys(mode, 1) == ["test_depend"];
  }

  /** Format 2 preferring depend: every new package counts for both building and running. */
  lemma DependStepsPrefer(b: set<string>, r: set<string>, r0: set<string>, mode: Mode)
    ensures StepsIn(DependSteps(2, b, r, r0, true), PackageKeys(mode, 2)) ==
      if mode == TestMode then {} else b + r
  {
    var s0: Step := ("depend", b + r);
    StepsInOne(s0, PackageKeys(mode, 2));
    match mode
    case BuildMode => assert PackageKeys(mode, 2) == ["build_depend", "depend"];
    case RunMode => assert PackageKeys(mode, 2) == ["depend", "exec_depend"];
    case TestMode => assert PackageKeys(mode, 2) == ["test_depend"];
  }

  /** Format 2 splitting the tags: building gains the new build packages, running the new run
      packages and the new build packages not yet run. */
  lemma DependStepsSplit(b: set<string>, r: set<string>, r0: set<string>, mode: Mode)
    ensures StepsIn(DependSteps(2, b, r, r0, false), PackageKeys(mode, 2)) ==
      match mode
      case BuildMode => b
      case RunMode => r + (b - r0)
      case TestMode => {}
  {
    var both := b * r;
    var s0: Step, s1: Step := ("depend", both), ("build_depend", b - both);
    var s2: Step, s3: Step := ("exec_depend", b - both - r0), ("exec_depend", r - both);
    StepsInFour(s0, s1, s2, s3, PackageKeys(mode, 2));
    match mode
    case BuildMode => assert PackageKeys(mode, 2) == ["build_depend", "depend"];
    case RunMode => assert PackageKeys(mode, 2) == ["depend", "exec_depend"];
    case TestMode => assert PackageKeys(mode, 2) == ["test_depend"];
  }

  /** Freshness of four steps, step by step. */
  lemma FreshFour(cs: seq<Node>, s0: Step, s1: Step, s2: Step, s3: Step)
    requires s0.1 !! PackagesIn(cs, [s0.0])
    requires s1.1 !! PackagesIn(cs, [s1.0]) + Part(s0, [s1.0])
    requires s2.1 !! PackagesIn(cs, [s2.0]) + Part(s0, [s2.0]) + Part(s1, [s2.0])
    requires s3.1 !! PackagesIn(cs, [s3.0]) + Part(s0, [s3.0]) + Part(s1, [s3.0]) + Part(s2, [s3.0])
    ensures FreshSteps(cs, [s0, s1, s2, s3])
  {
    var steps := [s0, s1, s2, s3];
    var e: seq<Step> := [];
    assert steps[..0] == e && steps[..1] == [s0] && steps[..2] == [s0, s1] && steps[..3] == [s0, s1, s2];
    StepsInOne(s0, [s1.0]);
    StepsInTwo(s0, s1, [s2.0]);
    StepsInThree(s0, s1, s2, [s3.0]);
  }

  /** The depend-tag calls never list a package under a tag that already lists it. */
  lemma DependStepsFresh(cs: seq<Node>, format: int, build: set<string>, run: set<string>, prefer: bool)
    requires format == 1 || format == 2
    ensures var b0, r0 := Packages(cs, BuildMode, format), Packages(cs, RunMode, format);
      var b, r := build - b0, (if format == 1 then run + build else run) - r0;
      FreshSteps(cs, DependSteps(format, b, r, r0, prefer))
  {
    var kb, kr := PackageKeys(BuildMode, format), PackageKeys(RunMode, format);
    var b0, r0 := PackagesIn(cs, kb), PackagesIn(cs, kr);
    var b, r := build - b0, (if format == 1 then run + build else run) - r0;
    var steps := DependSteps(format, b, r, r0, prefer);
    var e: seq<Step> := [];
    if format == 1 {
      assert kb == ["build_depend"] && kr == ["run_depend"];
      assert steps[..0] == e && steps[..1] == [steps[0]];
      StepsInOne(steps[0], ["run_depend"]);
    } else {
      assert kb == ["build_depend", "depend"] && kr == ["depend", "exec_depend"];
      PackagesInTag(cs, "depend", kb);
      PackagesInTag(cs, "depend", kr);
      if prefer {
        assert steps[..0] == e;
      } else {
        PackagesInTag(cs, "build_depend", kb);
        PackagesInTag(cs, "exec_depend", kr);
        var both := b * r;
        FreshFour(cs, ("depend", both), ("build_depend", b - both), ("exec_depend", b - both - r0), ("exec_depend", r - both));
      }
    }
  }

  /** The packages of one mode after the depend-tag calls of add_packages in format 1. */
  lemma DependsFormat1Packages(cs: seq<Node>, width: nat, build: set<string>, run: set<string>,
                               prefer: bool, index: (seq<Node>, string) -> nat, mode: Mode)
    ensures var b0, r0 := Packages(cs, BuildMode, 1), Packages(cs, RunMode, 1);
      var deps := InsertAll(cs, width, DependSteps(1, build - b0, run + build - r0, r0, prefer), index);
      Packages(deps, mode, 1) == Packages(cs, mode, 1) +
        match mode
        case BuildMode => build
        case RunMode => run + build
        case TestMode => {}
  {
    var b0, r0 := Packages(cs, BuildMode, 1), Packages(cs, RunMode, 1);
    var b, r := build - b0, run + build - r0;
    var steps := DependSteps(1, b, r, r0, prefer);
    InsertAllSets(cs, width, steps, index, PackageKeys(mode, 1));
    DependStepsFormat1(b, r, r0, prefer, mode);
  }

  /** The same in format 2 with depend preferred. */
  lemma DependsPreferPackages(cs: seq<Node>, width: nat, build: set<string>, run: set<string>,
                              index: (seq<Node>, string) -> nat, mode: Mode)
    ensures var b0, r0 := Packages(cs, BuildMode, 2), Packages(cs, RunMode, 2);
      var deps := InsertAll(cs, width, DependSteps(2, build - b0, run - r0, r0, true), index);
      Packages(deps, mode, 2) == Packages(cs, mode, 2) +
        match mode
        case BuildMode => build + (run - r0)
        case RunMode => run + (build - b0)
        case TestMode => {}
  {
    var b0, r0 := Packages(cs, BuildMode, 2), Packages(cs, RunMode, 2);
    var b, r := build - b0, run - r0;
    var steps := DependSteps(2, b, r, r0, true);
    InsertAllSets(cs, width, steps, index, PackageKeys(mode, 2));
    DependStepsPrefer(b, r, r0, mode);
  }

  /** The same in format 2 with the tags split. */
  lemma DependsSplitPackages(cs: seq<Node>, width: nat, build: set<string>, run: set<string>,
                             index: (seq<Node>, string) -> nat, mode: Mode)
    ensures var b0, r0 := Packages(cs, BuildMode, 2), Packages(cs, RunMode, 2);
      var deps := InsertAll(cs, width, DependSteps(2, build - b0, run - r0, r0, false), index);
      Packages(deps, mode, 2) == Packages(cs, mode, 2) +
        match mode
        case BuildMode => build
        case RunMode => run + (build - b0)
        case TestMode => {}
  {
    var b0, r0 := Packages(cs, BuildMode, 2), Packages(cs, RunMode, 2);
    var b, r := build - b0, run - r0;
    var steps := DependSteps(2, b, r, r0, false);
    InsertAllSets(cs, width, steps, index, PackageKeys(mode, 2));
    DependStepsSplit(b, r, r0, mode);
  }

  /** The depend-tag calls by format. */
  lemma DependsModes(cs: seq<Node>, width: nat, format: int, build: set<string>, run: set<string>,
                     prefer: bool, index: (seq<Node>, string) -> nat, mode: Mode)
    requires format == 1 || format == 2
    ensures var b0, r0 := Packages(cs, BuildMode, format), Packages(cs, RunMode, format);
      Packages(DependsAdded(cs, width, format, build, run, prefer, index), mode, format) == Packages(cs, mode, format) +
        match mode
        case BuildMode => build + (if format == 2 && prefer then run - r0 else {})
        case RunMode => run + (if format == 1 then build else build - b0)
        case TestMode => {}
  {
    if format == 1 {
      DependsFormat1Packages(cs, width, build, run, prefer, index, mode);
    } else if prefer {
      DependsPreferPackages(cs, width, build, run, index, mode);
    } else {
      DependsSplitPackages(cs, width, build, run, index, mode);
    }
  }

  /** The test_depend call of add_packages adds its packages to the test packages only. */
  lemma TestTail(deps: seq<Node>, width: nat, format: int, values: set<string>, index: (seq<Node>, string) -> nat, mode: Mode)
    ensures Packages(PackagesInserted(deps, width, TestDependTag, values, index), mode, format)
      == Packages(deps, mode, format) + (if mode == TestMode then values else {})
  {
    PackageKeysSpec(mode, format, "test_depend");
    PackagesInsertedSets(deps, width, "test_depend", values, index, PackageKeys(mode, format));
  }

  /** The test packages left after removing the built ones and the already tested ones add
      to the tested packages what removing only the built ones does. */
  lemma TestValues(t0: set<string>, tests: set<string>, b0: set<string>, build: set<string>)
    ensures t0 + (tests - b0 - (build - b0) - t0) == t0 + (tests - b0 - build)
  {
  }

  /** The packages add_packages adds to each mode. */
  function AddedWant(cs: seq<Node>, format: int, build: set<string>, run: set<string>,
                     test: Option<set<string>>, prefer: bool, mode: Mode): set<string>
  {
    var b0, r0 := Packages(cs, BuildMode, format), Packages(cs, RunMode, format);
    match mode
    case BuildMode => build + (if format == 2 && prefer then run - r0 else {})
    case RunMode => run + (if format == 1 then build else build - b0)
    case TestMode => if test.Some? then test.value - b0 - build else {}
  }

  /** What add_packages does to the packages of each mode: build gains the build packages
      (and, with depend preferred in format 2, the run packages not yet run), run gains the run
      packages and the build packages (in format 2 only those not yet built), and test gains the
      test packages that are neither built before nor among the build packages. */
  lemma AddedPackages(cs: seq<Node>, width: nat, format: int, build: set<string>, run: set<string>,
                      test: Option<set<string>>, prefer: bool, index: (seq<Node>, string) -> nat, mode: Mode)
    requires format == 1 || format == 2
    ensures var b0, r0 := Packages(cs, BuildMode, format), Packages(cs, RunMode, format);
      Packages(Added(cs, width, format, build, run, test, prefer, index), mode, format) == Packages(cs, mode, format) +
        match mode
        case BuildMode => build + (if format == 2 && prefer then run - r0 else {})
        case RunMode => run + (if format == 1 then build else build - b0)
        case TestMode => if test.Some? then test.value - b0 - build else {}
  {
    if test.Some? && test.value != {} && mode == TestMode {
      AddedPackagesTests(cs, width, format, build, run, test, prefer, index);
    } else if test.Some? && test.value != {} {
      AddedPackagesTested(cs, width, format, build, run, test, prefer, index, mode);
    } else {
      AddedPackagesUntested(cs, width, format, build, run, test, prefer, index, mode);
    }
  }

  /** AddedPackages when there is nothing to test. */
  lemma AddedPackagesUntested(cs: seq<Node>, width: nat, format: int, build: set<string>, run: set<string>,
                              test: Option<set<string>>, prefer: bool, index: (seq<Node>, string) -> nat, mode: Mode)
    requires format == 1 || format == 2
    requires !(test.Some? && test.value != {})
    ensures Packages(Added(cs, width, format, build, run, test, prefer, index), mode, format) ==
      Packages(cs, mode, format) + AddedWant(cs, format, build, run, test, prefer, mode)
  {
    DependsModes(cs, width, format, build, run, prefer, index, mode);
  }

  /** AddedPackages when there are packages to test: the build and run packages. */
  lemma AddedPackagesTested(cs: seq<Node>, width: nat, format: int, build: set<string>, run: set<string>,
                            test: Option<set<string>>, prefer: bool, index: (seq<Node>, string) -> nat, mode: Mode)
    requires format == 1 || format == 2
    requires test.Some? && test.value != {} && mode != TestMode
    ensures Packages(Added(cs, width, format, build, run, test, prefer, index), mode, format) ==
      Packages(cs, mode, format) + AddedWant(cs, format, build, run, test, prefer, mode)
  {
    var deps := DependsAdded(cs, width, format, build, run, prefer, index);
    var b0 := Packages(cs, BuildMode, format);
    DependsModes(cs, width, format, build, run, prefer, index, mode);
    TestTail(deps, width, format, test.value - b0 - (build - b0) - Packages(deps, TestMode, format), index, mode);
  }

  /** AddedPackages when there are packages to test: the test packages. */
  lemma AddedPackagesTests(cs: seq<Node>, width: nat, format: int, build: set<string>, run: set<string>,
                           test: Option<set<string>>, prefer: bool, index: (seq<Node>, string) -> nat)
    requires format == 1 || format == 2
    requires test.Some? && test.value != {}
    ensures Packages(Added(cs, width, format, build, run, test, prefer, index), TestMode, format) ==
      Packages(cs, TestMode, format) + AddedWant(cs, format, build, run, test, prefer, TestMode)
  {
    var deps := DependsAdded(cs, width, format, build, run, prefer, index);
    var b0 := Packages(cs, BuildMode, format);
    var t0 := Packages(deps, TestMode, format);
    var values := test.value - b0 - (build - b0) - t0;
    TestTail(deps, width, format, values, index, TestMode);
    DependsModes(cs, width, format, build, run, prefer, index, TestMode);
    TestValues(t0, test.value, b0, build);
  }

  /** add_packages never lists a package twice under a tag that listed it at most once. */
  lemma AddedNoDuplicates(cs: seq<Node>, width: nat, format: int, build: set<string>, run: set<string>,
                          test: Option<set<string>>, prefer: bool, index: (seq<Node>, string) -> nat, t: string, p: string)
    requires format == 1 || format == 2
    requires CountOf(cs, t, p) <= 1
    ensures CountOf(Added(cs, width, format, build, run, test, prefer, index), t, p) <= 1
  {
    DependsNoDuplicates(cs, width, format, build, run, prefer, index, t, p);
    if test.Some? && test.value != {} {
      TestsNoDuplicates(cs, width, format, build, run, test.value, prefer, index, t, p);
    }
  }

  /** The test_depend insertion of add_packages lists no package twice under one tag. */
  lemma TestsNoDuplicates(cs: seq<Node>, width: nat, format: int, build: set<string>, run: set<string>,
                          tests: set<string>, prefer: bool, index: (seq<Node>, string) -> nat, t: string, p: string)
    requires tests != {}
    requires CountOf(DependsAdded(cs, width, format, build, run, prefer, index), t, p) <= 1
    ensures CountOf(Added(cs, width, format, build, run, Some(tests), prefer, index), t, p) <= 1
  {
    var deps := DependsAdded(cs, width, format, build, run, prefer, index);
    var b0 := Packages(cs, BuildMode, format);
    var values := tests - b0 - (build - b0) - Packages(deps, TestMode, format);
    assert PackageKeys(TestMode, format) == ["test_depend"];
    InsertedSingle(deps, width, "test_depend", values, index, t, p);
  }

  /** The depend-tag insertions of add_packages never list a package twice under one tag. */
  lemma DependsNoDuplicates(cs: seq<Node>, width: nat, format: int, build: set<string>, run: set<string>,
                            prefer: bool, index: (seq<Node>, string) -> nat, t: string, p: string)
    requires format == 1 || format == 2
    requires CountOf(cs, t, p) <= 1
    ensures CountOf(DependsAdded(cs, width, format, build, run, prefer, index), t, p) <= 1
  {
    var b0, r0 := Packages(cs, BuildMode, format), Packages(cs, RunMode, format);
    var steps := DependSteps(format, build - b0, (if format == 1 then run + build else run) - r0, r0, prefer);
    DependStepsFresh(cs, format, build, run, prefer);
    InsertAllSingle(cs, width, steps, index, t, p);
  }

  // ---------------------------------------------------------------------------------------
  // The calls of add_packages on the document (package_xml.py:195-217)

  /** The dependency tags add_packages writes. */
  const BuildDependTag: TagName := "build_depend"
  const RunDependTag: TagName := "run_depend"
  const DependTag: TagName := "depend"
  const ExecDependTag: TagName := "exec_depend"
  const TestDependTag: TagName := "test_depend"

  /** The width the document's cached std_tab gives, or 4 while none is cached; nothing was
      inserted yet in that case, so the width does not matter. */
  function TabOr(tab: Option<nat>): nat
  {
    if tab.Some? then tab.value else 4
  }

  /** The child list and cached width after the insert_new_packages calls `steps` on children
      `c0`: while no width is cached, nothing was inserted. */
  ghost predicate AfterSteps(c0: seq<Node>, steps: seq<Step>, cs: seq<Node>, tab: Option<nat>)
  {
    if tab.None? then cs == c0 && forall j :: 0 <= j < |steps| ==> steps[j].1 == {}
    else cs == InsertAll(c0, tab.value, steps, SourceIndex)
  }

  lemma {:induction false} InsertAllSnoc(cs: seq<Node>, width: nat, steps: seq<Step>, s: Step, index: (seq<Node>, string) -> nat)
    ensures InsertAll(cs, width, steps + [s], index) == PackagesInserted(InsertAll(cs, width, steps, index), width, s.0, s.1, index)
    decreases |steps|
  {
    if steps == [] {
      assert ([] + [s])[1..] == [];
    } else {
      assert (steps + [s])[1..] == steps[1..] + [s];
      InsertAllSnoc(PackagesInserted(cs, width, steps[0].0, steps[0].1, index), width, steps[1..], s, index);
    }
  }

  /** Steps without packages leave the children alone, whatever the width. */
  lemma {:induction false} InsertAllNothing(cs: seq<Node>, width: nat, steps: seq<Step>, index: (seq<Node>, string) -> nat)
    requires forall j :: 0 <= j < |steps| ==> steps[j].1 == {}
    ensures InsertAll(cs, width, steps, index) == cs
    decreases |steps|
  {
    if steps != [] {
      assert steps[0].1 == {};
      InsertAllNothing(cs, width, steps[1..], index);
    }
  }

  /** One more insert_new_packages call keeps AfterSteps. */
  lemma AfterStepsNext(c0: seq<Node>, steps: seq<Step>, s: Step, cs: seq<Node>, tab: Option<nat>, cs1: seq<Node>, tab1: Option<nat>)
    requires AfterSteps(c0, steps, cs, tab)
    requires tab.Some? ==> tab1 == tab
    requires s.1 != {} ==> tab1.Some?
    requires tab1.None? ==> cs1 == cs
    requires cs1 == PackagesInserted(cs, TabOr(tab1), s.0, s.1, SourceIndex)
    ensures AfterSteps(c0, steps + [s], cs1, tab1)
  {
    if tab1.Some? {
      var w := tab1.value;
      if tab.None? {
        InsertAllNothing(c0, w, steps, SourceIndex);
      }
      InsertAllSnoc(c0, w, steps, s, SourceIndex);
    } else {
      assert forall j :: 0 <= j < |steps| ==> (steps + [s])[j] == steps[j];
    }
  }

  /** Once the width is cached for good, the children are the steps' insertions at that
      width. */
  lemma AfterStepsWidth(c0: seq<Node>, steps: seq<Step>, cs: seq<Node>, tab: Option<nat>, tab1: Option<nat>)
    requires AfterSteps(c0, steps, cs, tab)
    requires tab.Some? ==> tab1 == tab
    ensures cs == InsertAll(c0, TabOr(tab1), steps, SourceIndex)
  {
    if tab.None? {
      InsertAllNothing(c0, TabOr(tab1), steps, SourceIndex);
    }
  }

  /** Added with packages to test: the test insertion after the depend-tag insertions. */
  lemma AddedTested(cs: seq<Node>, width: nat, format: int, build: set<string>, run: set<string>,
                    test: Option<set<string>>, prefer: bool, index: (seq<Node>, string) -> nat)
    requires test.Some? && |test.value| > 0
    ensures var b0 := Packages(cs, BuildMode, format);
      var deps := DependsAdded(cs, width, format, build, run, prefer, index);
      Added(cs, width, format, build, run, test, prefer, index) ==
        PackagesInserted(deps, width, TestDependTag, test.value - b0 - (build - b0) - Packages(deps, TestMode, format), index)
  {
    assert test.value != {};
  }

  /** Added with nothing to test: the depend-tag insertions alone. */
  lemma AddedUntested(cs: seq<Node>, width: nat, format: int, build: set<string>, run: set<string>,
                      test: Option<set<string>>, prefer: bool, index: (seq<Node>, string) -> nat)
    requires !(test.Some? && |test.value| > 0)
    ensures Added(cs, width, format, build, run, test, prefer, index) == DependsAdded(cs, width, format, build, run, prefer, index)
  {
    assert !(test.Some? && test.value != {});
  }

  /** The packages of `keys + [k]` are those of `keys` and those of `k`. */
  /** A list holding each package as often as the tag lists it holds exactly the packages the
      tag lists. */
  lemma ByTagListed(cs: seq<Node>, tag: string, got: seq<string>)
    requires forall p :: multiset(got)[p] == CountOf(cs, tag, p)
    ensures forall p :: p in got <==> p in PackagesIn(cs, [tag])
  {
    forall p ensures p in got <==> p in PackagesIn(cs, [tag]) {
      PackagesInByCount(cs, [tag], p);
      assert p in got <==> multiset(got)[p] > 0;
    }
  }

  lemma PackagesInKeysSnoc(cs: seq<Node>, keys: seq<string>, k: string)
    ensures PackagesIn(cs, keys + [k]) == PackagesIn(cs, keys) + PackagesIn(cs, [k])
  {
    forall p ensures p in PackagesIn(cs, keys + [k]) <==> p in PackagesIn(cs, keys) + PackagesIn(cs, [k]) {
      PackagesInSpec(cs, keys + [k], p);
      PackagesInSpec(cs, keys, p);
      PackagesInSpec(cs, [k], p);
    }
  }

  // ---------------------------------------------------------------------------------------
  // remove_element (package_xml.py:219-227)

  /** INDENT_PATTERN.match(s): `re.match('\n *', s)` succeeds exactly when `s` starts with a
      newline, since the spaces after it may be none. */
  predicate IndentMatch(s: string)
  {
    |s| > 0 && s[0] == '\n'
  }

  /** Whether remove_element also drops the node before child `j`. */
  predicate DropsIndent(cs: seq<Node>, j: nat)
    requires j < |cs|
  {
    j > 0 && cs[j - 1].Text? && IndentMatch(cs[j - 1].data)
  }

  /** remove_element on child `j`: the child goes, and so does the text node before it when it
      starts with an indentation. */
  function ElementRemoved(cs: seq<Node>, j: nat): seq<Node>
    requires j < |cs|
  {
    if DropsIndent(cs, j) then cs[..j - 1] + cs[j + 1..] else cs[..j] + cs[j + 1..]
  }

  /** remove_element keeps every other child in order: those before the dropped indentation
      (or before the element) and those after the element. */
  lemma ElementRemovedFrame(cs: seq<Node>, j: nat)
    requires j < |cs|
    ensures var k := if DropsIndent(cs, j) then j - 1 else j;
      var r := ElementRemoved(cs, j);
      |r| == |cs| - (j + 1 - k) && r[..k] == cs[..k] && r[k..] == cs[j + 1..]
  {
    var k := if DropsIndent(cs, j) then j - 1 else j;
    assert (cs[..k] + cs[j + 1..])[..k] == cs[..k];
    assert (cs[..k] + cs[j + 1..])[k..] == cs[j + 1..];
  }

  /** remove_element takes away the element's one listing and no other: a text node listed
      nothing. */
  lemma ElementRemovedCount(cs: seq<Node>, j: nat, t: string, p: string)
    requires j < |cs|
    ensures CountOf(ElementRemoved(cs, j), t, p) == CountOf(cs, t, p) - (if IsEntry(cs[j], t, p) then 1 else 0)
  {
    var k := if DropsIndent(cs, j) then j - 1 else j;
    assert cs == cs[..k] + (cs[k..j + 1] + cs[j + 1..]);
    CountOfAppend(cs[..k], cs[k..j + 1] + cs[j + 1..], t, p);
    CountOfAppend(cs[k..j + 1], cs[j + 1..], t, p);
    CountOfAppend(cs[..k], cs[j + 1..], t, p);
    if k < j {
      assert cs[k..j + 1] == [cs[k]] + [cs[j]];
      CountOfAppend([cs[k]], [cs[j]], t, p);
      assert [cs[k]][..0] == [] && [cs[j]][..0] == [];
    } else {
      assert cs[k..j + 1] == [cs[j]];
      assert [cs[j]][..0] == [];
    }
  }

  // ---------------------------------------------------------------------------------------
  // remove_dependencies (package_xml.py:229-235)

  /** remove_dependencies(name, pkgs): every `name` element whose package is in `pkgs` goes, in
      document order, each with the indentation text just before it. */
  function DependenciesRemoved(cs: seq<Node>, name: string, pkgs: set<string>): seq<Node>
    decreases |cs|
  {
    if cs == [] then []
    else
      var out := DependenciesRemoved(cs[..|cs| - 1], name, pkgs);
      var x := cs[|cs| - 1];
      if x.Element? && x.name == name && x.text in pkgs then
        if |out| > 0 && out[|out| - 1].Text? && IndentMatch(out[|out| - 1].data) then out[..|out| - 1] else out
      else out + [x]
  }

  /** One step of remove_dependencies on a matching element, as remove_element performs it. */
  lemma DependenciesRemovedDrop(cs: seq<Node>, i: nat, name: string, pkgs: set<string>)
    requires i < |cs| && cs[i].Element? && cs[i].name == name && cs[i].text in pkgs
    ensures var out := DependenciesRemoved(cs[..i], name, pkgs);
      |out| < |out + cs[i..]| && (out + cs[i..])[|out|].Element? &&
      ElementRemoved(out + cs[i..], |out|) == DependenciesRemoved(cs[..i + 1], name, pkgs) + cs[i + 1..]
  {
    assert cs[..i + 1][..i] == cs[..i];
    var out := DependenciesRemoved(cs[..i], name, pkgs);
    var all := out + cs[i..];
    assert all[|out|] == cs[i];
    if DropsIndent(all, |out|) {
      assert all[..|out| - 1] == out[..|out| - 1];
    } else {
      assert all[..|out|] == out;
    }
    assert all[|out| + 1..] == cs[i + 1..];
  }

  /** One step of remove_dependencies on any other child. */
  lemma DependenciesRemovedKeep(cs: seq<Node>, i: nat, name: string, pkgs: set<string>)
    requires i < |cs| && !(cs[i].Element? && cs[i].name == name && cs[i].text in pkgs)
    ensures DependenciesRemoved(cs[..i], name, pkgs) + cs[i..] == DependenciesRemoved(cs[..i + 1], name, pkgs) + cs[i + 1..]
  {
    assert cs[..i + 1][..i] == cs[..i];
    assert cs[i..] == [cs[i]] + cs[i + 1..];
  }

  /** After remove_dependencies no `name` element lists a package of `pkgs`, and every other
      listing is kept exactly as often as before. */
  lemma {:induction false} DependenciesRemovedCount(cs: seq<Node>, name: string, pkgs: set<string>, t: string, p: string)
    ensures CountOf(DependenciesRemoved(cs, name, pkgs), t, p) == if t == name && p in pkgs then 0 else CountOf(cs, t, p)
    decreases |cs|
  {
    if cs != [] {
      var prefix, x := cs[..|cs| - 1], cs[|cs| - 1];
      DependenciesRemovedCount(prefix, name, pkgs, t, p);
      var out := DependenciesRemoved(prefix, name, pkgs);
      if x.Element? && x.name == name && x.text in pkgs {
        if |out| > 0 && out[|out| - 1].Text? && IndentMatch(out[|out| - 1].data) {
          var n := |out| - 1;
          assert out == out[..n] + [out[n]];
          CountOfAppend(out[..n], [out[n]], t, p);
          assert [out[n]][..0] == [];
        }
      } else {
        CountOfAppend(out, [x], t, p);
        assert [x][..0] == [];
      }
    }
  }

  // ---------------------------------------------------------------------------------------
  // The document

  class PackageXML {
    /** root.childNodes */
    var children: seq<Node>
    /** The package format: the root's format attribute, 1 without one. */
    var format: int
    /** The cached std_tab. */
    var tab: Option<nat>

    constructor (children: seq<Node>, formatAttribute: Option<int>)
      ensures this.children == children && tab == None
      ensures format == (if formatAttribute.Some? then formatAttribute.value else 1)
    {
      this.children := children;
      this.format := if formatAttribute.Some? then formatAttribute.value else 1;
      this.tab := None;
    }

    /** std_tab: the indentation width, computed from the children on first use and then kept. */
    method StdTab() returns (w: nat)
      modifies this
      ensures children == old(children) && format == old(format)
      ensures old(tab).Some? ==> w == old(tab).value
      ensures old(tab).None? ==> IsStdTab(children, w)
      ensures tab == Some(w)
    {
      if tab.Some? {
        return tab.value;
      }
      w := MostFrequentWidth(children);
      tab := Some(w);
    }

    /** get_child_indexes: for each tag, the (first, last) positions of its runs of elements in
        document order. */
    method GetChildIndexes() returns (tags: map<string, seq<(nat, nat)>>)
      ensures tags == Index(Runs(children))
    {
      tags := map[];
      var i := 0;
      var current: Option<TagName> := None;
      var start: nat, last: nat := 0, 0;
      while i < |children|
        invariant i <= |children|
        invariant ChildIndexesSoFar(Runs(children[..i]), tags, current, start, last)
      {
        ChildIndexesStep(children, i, tags, current, start, last);
        var child := children[i];
        if child.Text? {
          i := i + 1;
          continue;
        }
        var name := child.name;
        if Some(name) != current {
          if current.Some? {
            tags := tags[current.value := Get(tags, current.value) + [(start, last)]];
          }
          start := i;
          current := Some(name);
        }
        last := i;
        i := i + 1;
      }
      assert children[..i] == children;
      ChildIndexesClose(Runs(children), tags, current, start, last);
      if current.Some? {
        tags := tags[current.value := Get(tags, current.value) + [(start, last)]];
      }
    }

    /** get_insertion_index, with the search for the closest earlier tag ordered by ordering
        index and then by position, so that its answer does not depend on the order in which
        the dictionary is visited. */
    method GetInsertionIndex(tag: TagName) returns (r: nat)
      ensures r == InsertionIndex(children, tag, OrderingIndex)
    {
      var indexes := GetChildIndexes();
      IndexNonEmpty(Runs(children));
      if tag in indexes {
        TagPresentIndex(children, tag, OrderingIndex);
        return Last(indexes[tag]).1;
      }
      var best, bestIndex := ClosestEarlierTag(indexes, OrderingIndex(tag), OrderingIndex);
      if best.None? {
        NoBestAtEnd(children, tag, OrderingIndex);
        return |children|;
      }
      BestGivesInsertionIndex(children, tag, best.value, OrderingIndex);
      return Last(indexes[best.value]).1;
    }

    /** get_packages_by_tag: the text of every child with the tag, in document order; each
        package appears as often as it is listed. */
    method PackagesByTag(tag: string) returns (pkgs: seq<string>)
      ensures forall p :: multiset(pkgs)[p] == CountOf(children, tag, p)
    {
      pkgs := [];
      for j := 0 to |children|
        invariant forall p :: multiset(pkgs)[p] == CountOf(children[..j], tag, p)
      {
        assert children[..j + 1][..j] == children[..j];
        var el := children[j];
        if el.Element? && el.name == tag {
          pkgs := pkgs + [el.text];
        }
      }
      assert children[..|children|] == children;
    }

    /** get_packages(mode): the packages listed under the mode's tags. */
    method GetPackages(mode: Mode) returns (pkgs: set<string>)
      ensures pkgs == Packages(children, mode, format)
    {
      var keys := PackageKeys(mode, format);
      var all: seq<string> := [];
      forall p ensures p !in PackagesIn(children, keys[..0]) {
        PackagesInSpec(children, keys[..0], p);
      }
      for k := 0 to |keys|
        invariant forall p :: p in all <==> p in PackagesIn(children, keys[..k])
      {
        var got := PackagesByTag(keys[k]);
        assert keys[..k + 1] == keys[..k] + [keys[k]];
        PackagesInKeysSnoc(children, keys[..k], keys[k]);
        ByTagListed(children, keys[k], got);
        all := all + got;
      }
      assert keys[..|keys|] == keys;
      pkgs := set p | p in all;
    }

    /** get_tab_element(tabs): a text node with a newline and std_tab * tabs spaces. */
    method TabElement(tabs: nat) returns (n: Node)
      modifies this
      ensures children == old(children) && format == old(format)
      ensures old(tab).Some? ==> tab == old(tab)
      ensures old(tab).None? ==> tab.Some? && IsStdTab(children, tab.value)
      ensures tab.Some? && n == Indent(tab.value * tabs)
    {
      var w := StdTab();
      n := Indent(w * tabs);
    }

    /** insert_new_tags: nothing without tags; otherwise the tags, each after an indent node,
        spliced in after the insertion index of the first one's tag. */
    method InsertNewTags(tags: seq<Node>)
      requires tags != [] ==> tags[0].Element?
      modifies this
      ensures format == old(format)
      ensures old(tab).Some? ==> tab == old(tab)
      ensures old(tab).None? && tab.Some? ==> IsStdTab(old(children), tab.value)
      ensures tags == [] ==> children == old(children) && tab == old(tab)
      ensures tags != [] ==> tab.Some? && children == Spliced(old(children), tab.value, tags, SourceIndex)
    {
      if |tags| == 0 {
        return;
      }
      var index := GetInsertionIndex(tags[0].name);
      var plus := IndentTags(tags);
      var c := if index + 1 < |children| then index + 1 else |children|;
      children := children[..c] + plus + children[c..];
    }

    /** The loop of insert_new_tags: each tag after an indent node of one tab. */
    method IndentTags(tags: seq<Node>) returns (plus: seq<Node>)
      requires tags != []
      modifies this
      ensures children == old(children) && format == old(format)
      ensures old(tab).Some? ==> tab == old(tab)
      ensures old(tab).None? && tab.Some? ==> IsStdTab(old(children), tab.value)
      ensures tab.Some? && plus == Indented(tab.value, tags)
    {
      plus := [];
      var i := 0;
      while i < |tags|
        invariant i <= |tags|
        invariant children == old(children) && format == old(format)
        invariant old(tab).Some? ==> tab == old(tab)
        invariant old(tab).None? && tab.Some? ==> IsStdTab(old(children), tab.value)
        invariant i == 0 ==> plus == []
        invariant i > 0 ==> tab.Some? && plus == Indented(tab.value, tags[..i])
      {
        var indent := TabElement(1);
        assert tags[..i + 1][..i] == tags[..i];
        plus := plus + [indent, tags[i]];
        i := i + 1;
      }
      assert tags[..i] == tags;
    }

    /** insert_new_packages: one element per value, in sorted order, inserted as by
        insert_new_tags. */
    method InsertNewPackages(tag: TagName, values: set<string>)
      modifies this
      ensures format == old(format)
      ensures old(tab).Some? ==> tab == old(tab)
      ensures old(tab).None? && tab.Some? ==> IsStdTab(old(children), tab.value)
      ensures values != {} ==> tab.Some?
      ensures tab.None? ==> children == old(children)
      ensures children == PackagesInserted(old(children), TabOr(tab), tag, values, SourceIndex)
    {
      var ps := SortSet(values);
      var elements: seq<Node> := [];
      for i := 0 to |ps|
        invariant elements == ElementsFor(tag, ps[..i])
      {
        assert ps[..i + 1][..i] == ps[..i];
        elements := elements + [Element(tag, ps[i])];
      }
      assert ps[..|ps|] == ps;
      if values != {} {
        var v :| v in values;
        assert v in ps;
      }
      InsertNewTags(elements);
    }

    /** add_packages: the children become Added's, at the width std_tab caches on the first
        insertion (AddedPackages and AddedNoDuplicates say what that does to the packages). */
    method AddPackages(build: set<string>, run: set<string>, test: Option<set<string>>, prefer: bool)
      modifies this
      ensures format == old(format)
      ensures old(tab).Some? ==> tab == old(tab)
      ensures old(tab).None? && tab.Some? ==> IsStdTab(old(children), tab.value)
      ensures children == Added(old(children), TabOr(tab), format, build, run, test, prefer, SourceIndex)
    {
      var runDepends := if format == 1 then run + build else run;
      var existingBuild := GetPackages(BuildMode);
      var existingRun := GetPackages(RunMode);
      var b := build - existingBuild;
      var r := runDepends - existingRun;
      ghost var c0, t0 := children, tab;
      ghost var steps := DependSteps(format, b, r, existingRun, prefer);
      assert AfterSteps(c0, [], children, tab);
      InsertDepends(c0, t0, b, r, existingRun, prefer);
      ghost var mid, tabMid := children, tab;
      if test.Some? && |test.value| > 0 {
        var existingTest := GetPackages(TestMode);
        InsertNewPackages(TestDependTag, test.value - existingBuild - b - existingTest);
        AfterStepsWidth(c0, steps, mid, tabMid, tab);
        AddedTested(c0, TabOr(tab), format, build, run, test, prefer, SourceIndex);
      } else {
        AfterStepsWidth(c0, steps, mid, tabMid, tab);
        AddedUntested(c0, TabOr(tab), format, build, run, test, prefer, SourceIndex);
      }
    }

    /** The depend-tag insert_new_packages calls of add_packages. */
    method InsertDepends(ghost c0: seq<Node>, ghost t0: Option<nat>, b: set<string>, r: set<string>,
                         existingRun: set<string>, prefer: bool)
      requires AfterSteps(c0, [], children, tab)
      requires t0 == tab
      modifies this
      ensures format == old(format)
      ensures AfterSteps(c0, DependSteps(format, b, r, existingRun, prefer), children, tab)
      ensures t0.Some? ==> tab == t0
      ensures t0.None? && tab.Some? ==> IsStdTab(c0, tab.value)
    {
      ghost var steps: seq<Step> := [];
      if format == 1 {
        InsertStep(c0, t0, steps, BuildDependTag, b);
        steps := steps + [(BuildDependTag, b)];
        InsertStep(c0, t0, steps, RunDependTag, r);
        steps := steps + [(RunDependTag, r)];
      } else if prefer {
        InsertStep(c0, t0, steps, DependTag, b + r);
        steps := steps + [(DependTag, b + r)];
      } else {
        var both := b * r;
        InsertStep(c0, t0, steps, DependTag, both);
        steps := steps + [(DependTag, both)];
        InsertStep(c0, t0, steps, BuildDependTag, b - both);
        steps := steps + [(BuildDependTag, b - both)];
        InsertStep(c0, t0, steps, ExecDependTag, b - both - existingRun);
        steps := steps + [(ExecDependTag, b - both - existingRun)];
        InsertStep(c0, t0, steps, ExecDependTag, r - both);
        steps := steps + [(ExecDependTag, r - both)];
      }
      assert steps == DependSteps(format, b, r, existingRun, prefer);
    }

    /** One insert_new_packages call of add_packages, keeping AfterSteps and the cached width's
        history. */
    method InsertStep(ghost c0: seq<Node>, ghost t0: Option<nat>, ghost steps: seq<Step>, tag: TagName, values: set<string>)
      requires AfterSteps(c0, steps, children, tab)
      requires t0.Some? ==> tab == t0
      requires t0.None? && tab.Some? ==> IsStdTab(c0, tab.value)
      modifies this
      ensures format == old(format)
      ensures AfterSteps(c0, steps + [(tag, values)], children, tab)
      ensures t0.Some? ==> tab == t0
      ensures t0.None? && tab.Some? ==> IsStdTab(c0, tab.value)
    {
      ghost var cs, t := children, tab;
      InsertNewPackages(tag, values);
      AfterStepsNext(c0, steps, (tag, values), cs, t, children, tab);
    }

    /** remove_element on the child at `j`: the child and, when the node before it is text
        starting with an indentation, that node too. */
    method RemoveElement(j: nat)
      requires j < |children| && children[j].Element?
      modifies this
      ensures format == old(format) && tab == old(tab)
      ensures children == ElementRemoved(old(children), j)
    {
      var index := j;
      if index > 0 {
        var previous := children[index - 1];
        if previous.Text? && IndentMatch(previous.data) {
          children := children[..index - 1] + children[index..];
          index := index - 1;
        }
      }
      children := children[..index] + children[index + 1..];
    }

    /** remove_dependencies(name, pkgs): remove_element on each matching element in turn. */
    method RemoveDependencies(name: string, pkgs: set<string>)
      modifies this
      ensures format == old(format) && tab == old(tab)
      ensures children == DependenciesRemoved(old(children), name, pkgs)
    {
      var cs := children;
      assert cs[..0] == [] && cs[0..] == cs;
      for i := 0 to |cs|
        invariant format == old(format) && tab == old(tab)
        invariant children == DependenciesRemoved(cs[..i], name, pkgs) + cs[i..]
      {
        var el := cs[i];
        if el.Element? && el.name == name && el.text in pkgs {
          DependenciesRemovedDrop(cs, i, name, pkgs);
          RemoveElement(|DependenciesRemoved(cs[..i], name, pkgs)|);
        } else {
          DependenciesRemovedKeep(cs, i, name, pkgs);
        }
      }
      assert cs[..|cs|] == cs && cs[|cs|..] == [];
    }
  }
}
