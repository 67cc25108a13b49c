/** The `package.xml` editor of ros_introspection/package_xml.py. The children of the `<package>`
    root are an abstract sequence of text nodes and elements; an element carries its tag name
    and the text of its first child, which for a dependency tag is the package name. The XML
    parser and writer are not modelled. */
module PackageXml {
  import opened Base
  import opened Str

  /** XML tag names are never empty. */
  type TagName = s: string | s != [] witness "a"

  datatype Node = Text(data: string) | Element(name: TagName, text: string)

  // ---------------------------------------------------------------------------------------
  // Ordering (package_xml.py:6-26)

  /** One entry of ORDERING: a tag, or a bucket of tags that share a position. */
  datatype OrderEntry = One(name: string) | Bucket(names: seq<string>)

  const Ordering: seq<OrderEntry> := [
    One("name"), One("version"), One("description"),
    Bucket(["maintainer", "license", "author", "url"]),
    One("buildtool_depend"), One("depend"), One("build_depend"), One("build_export_depend"),
    One("run_depend"), One("exec_depend"), One("test_depend"), One("doc_depend"),
    One("export")]

  predicate EntryHas(e: OrderEntry, name: string)
  {
    match e
    case One(n) => n == name
    case Bucket(ns) => name in ns
  }

  /** get_ordering_index: the position of the first ORDERING entry naming the tag, else
      len(ORDERING). */
  function OrderingIndex(name: string): (r: nat)
    ensures r <= |Ordering|
    ensures r < |Ordering| ==> EntryHas(Ordering[r], name)
    ensures forall j :: 0 <= j < r ==> !EntryHas(Ordering[j], name)
  {
    OrderingIndexFrom(name, 0)
  }

  function OrderingIndexFrom(name: string, i: nat): (r: nat)
    requires i <= |Ordering|
    ensures i <= r <= |Ordering|
    ensures r < |Ordering| ==> EntryHas(Ordering[r], name)
    ensures forall j :: i <= j < r ==> !EntryHas(Ordering[j], name)
    decreases |Ordering| - i
  {
    if i == |Ordering| then i
    else if EntryHas(Ordering[i], name) then i
    else OrderingIndexFrom(name, i + 1)
  }

  lemma OrderingIndexIs(name: string, i: nat)
    requires i < |Ordering| && EntryHas(Ordering[i], name)
    requires forall j :: 0 <= j < i ==> !EntryHas(Ordering[j], name)
    ensures OrderingIndex(name) == i
  {
  }

  /** The people tags share one position, just after the description. */
  lemma PeopleShareIndex(name: string)
    requires name in ["maintainer", "license", "author", "url"]
    ensures OrderingIndex(name) == 3
  {
    assert name[0] != 'n' && name[0] != 'v' && name[0] != 'd';
    OrderingIndexIs(name, 3);
  }

  // ---------------------------------------------------------------------------------------
  // Text helpers (package_xml.py:29-39)

  /** get_package_tag_index: where `key` first occurs in `s`, or 0 when it does not. The text
      before it is the header that `write` keeps. */
  function PackageTagIndex(s: string, key: string): (r: nat)
    ensures r <= |s|
    ensures !Contains(s, key) ==> r == 0
    ensures Contains(s, key) ==> r + |key| <= |s| && s[r..r + |key|] == key
    ensures Contains(s, key) ==> forall k :: 0 <= k < r ==> !StartsWith(s[k..], key)
  {
    if !Contains(s, key) then 0 else Find(s, key)
  }

  /** The number of spaces that end the text. */
  function TrailingSpaces(s: string): (c: nat)
    ensures c <= |s|
    decreases |s|
  {
    if s != [] && s[|s| - 1] == ' ' then 1 + TrailingSpaces(s[..|s| - 1]) else 0
  }

  /** count_trailing_spaces */
  method CountTrailingSpaces(s: string) returns (c: nat)
    ensures c == TrailingSpaces(s)
  {
    c := 0;
    assert s[..|s|] == s;
    while c < |s| && s[|s| - c - 1] == ' '
      invariant c <= |s|
      invariant TrailingSpaces(s) == c + TrailingSpaces(s[..|s| - c])
    {
      assert s[..|s| - c][..|s| - c - 1] == s[..|s| - c - 1];
      c := c + 1;
    }
  }

  /** The last `c` characters are spaces and the one before them, if any, is not. */
  lemma {:induction false} TrailingSpacesSpec(s: string)
    ensures forall k :: |s| - TrailingSpaces(s) <= k < |s| ==> s[k] == ' '
    ensures TrailingSpaces(s) < |s| ==> s[|s| - TrailingSpaces(s) - 1] != ' '
    decreases |s|
  {
    if s != [] && s[|s| - 1] == ' ' {
      var t := s[..|s| - 1];
      TrailingSpacesSpec(t);
      assert forall k :: 0 <= k < |t| ==> t[k] == s[k];
    }
  }

  // ---------------------------------------------------------------------------------------
  // Packages (package_xml.py:89-110)

  datatype Mode = BuildMode | RunMode | TestMode

  /** The tags get_packages reads for a mode and a package format. */
  function PackageKeys(mode: Mode, format: int): (keys: seq<string>)
  {
    (if mode == BuildMode then ["build_depend"] else [])
    + (if format == 1 && mode == RunMode then ["run_depend"] else [])
    + (if format == 2 && mode != TestMode then ["depend"] + (if mode == RunMode then ["exec_depend"] else []) else [])
    + (if mode == TestMode then ["test_depend"] else [])
  }

  /** Which tags count for which mode: build_depend (and depend in format 2) for building,
      run_depend in format 1 or depend and exec_depend in format 2 for running, test_depend for
      testing. */
  lemma PackageKeysSpec(mode: Mode, format: int, tag: string)
    ensures tag in PackageKeys(mode, format) <==>
      match mode
      case BuildMode => tag == "build_depend" || (format == 2 && tag == "depend")
      case RunMode => (format == 1 && tag == "run_depend") || (format == 2 && (tag == "depend" || tag == "exec_depend"))
      case TestMode => tag == "test_depend"
  {
  }

  /** get_packages_by_tag for each of the tags: the texts of the elements with one of them. */
  function PackagesIn(cs: seq<Node>, keys: seq<string>): (r: set<string>)
    decreases |cs|
  {
    if cs == [] then {}
    else PackagesIn(cs[..|cs| - 1], keys)
         + (var x := cs[|cs| - 1]; if x.Element? && x.name in keys then {x.text} else {})
  }

  /** get_packages */
  function Packages(cs: seq<Node>, mode: Mode, format: int): set<string>
  {
    PackagesIn(cs, PackageKeys(mode, format))
  }

  lemma {:induction false} PackagesInSpec(cs: seq<Node>, keys: seq<string>, p: string)
    ensures p in PackagesIn(cs, keys) <==>
      exists j :: 0 <= j < |cs| && cs[j].Element? && cs[j].name in keys && cs[j].text == p
    decreases |cs|
  {
    if cs != [] {
      var n := |cs| - 1;
      PackagesInSpec(cs[..n], keys, p);
      if exists j :: 0 <= j < n && cs[..n][j].Element? && cs[..n][j].name in keys && cs[..n][j].text == p {
        var j :| 0 <= j < n && cs[..n][j].Element? && cs[..n][j].name in keys && cs[..n][j].text == p;
        assert cs[j] == cs[..n][j];
      }
      if exists j :: 0 <= j < |cs| && cs[j].Element? && cs[j].name in keys && cs[j].text == p {
        var j :| 0 <= j < |cs| && cs[j].Element? && cs[j].name in keys && cs[j].text == p;
        if j < n {
          assert cs[..n][j] == cs[j];
        }
      }
    }
  }

  lemma {:induction false} PackagesInAppend(a: seq<Node>, b: seq<Node>, keys: seq<string>)
    ensures PackagesIn(a + b, keys) == PackagesIn(a, keys) + PackagesIn(b, keys)
    decreases |b|
  {
    if b == [] {
      assert a + b == a;
    } else {
      var n := |b| - 1;
      assert (a + b)[..|a + b| - 1] == a + b[..n];
      PackagesInAppend(a, b[..n], keys);
    }
  }

  /** A package is in get_packages exactly when an element with one of the mode's tags names
      it. */
  lemma PackagesSpec(cs: seq<Node>, mode: Mode, format: int, p: string)
    ensures p in Packages(cs, mode, format) <==>
      exists j :: 0 <= j < |cs| && cs[j].Element? && cs[j].name in PackageKeys(mode, format) && cs[j].text == p
  {
    PackagesInSpec(cs, PackageKeys(mode, format), p);
  }

  // ---------------------------------------------------------------------------------------
  // get_child_indexes (package_xml.py:115-144)

  /** A run of elements with the same tag: the positions of its first and last element. */
  datatype Run = Run(name: TagName, first: nat, last: nat)

  /** The runs of same-named elements, in document order, as the while loop of
      get_child_indexes finds them: text nodes are skipped and do not break a run. */
  function Runs(cs: seq<Node>): seq<Run>
    decreases |cs|
  {
    if cs == [] then []
    else
      var rs := Runs(cs[..|cs| - 1]);
      var i := |cs| - 1;
      match cs[i]
      case Text(_) => rs
      case Element(name, _) =>
        if rs != [] && rs[|rs| - 1].name == name then rs[..|rs| - 1] + [Run(name, rs[|rs| - 1].first, i)]
        else rs + [Run(name, i, i)]
  }

  predicate Named(cs: seq<Node>, j: int, t: string)
  {
    0 <= j < |cs| && cs[j].Element? && cs[j].name == t
  }

  /** A run starts and ends with an element of its tag, and every element within it has that
      tag. */
  predicate RunOk(cs: seq<Node>, r: Run)
  {
    r.first <= r.last < |cs| && Named(cs, r.first, r.name) && Named(cs, r.last, r.name)
    && forall j :: r.first <= j <= r.last && cs[j].Element? ==> cs[j].name == r.name
  }

  predicate AllRunsOk(cs: seq<Node>, rs: seq<Run>)
  {
    forall k :: 0 <= k < |rs| ==> RunOk(cs, rs[k])
  }

  /** The runs come in document order, without overlap. */
  predicate Ascending(rs: seq<Run>)
  {
    forall k1, k2 :: 0 <= k1 < k2 < |rs| ==> rs[k1].last < rs[k2].first
  }

  /** Consecutive runs have different tags. */
  predicate Alternating(rs: seq<Run>)
  {
    forall k1, k2 {:trigger rs[k1], rs[k2]} :: 0 <= k1 < |rs| && k2 == k1 + 1 && k2 < |rs| ==> rs[k1].name != rs[k2].name
  }

  predicate IsElement(cs: seq<Node>, j: int)
  {
    0 <= j < |cs| && cs[j].Element?
  }

  /** Position `j` lies in a run. */
  ghost predicate InRun(rs: seq<Run>, j: int)
  {
    exists k :: 0 <= k < |rs| && rs[k].first <= j <= rs[k].last
  }

  /** Every element lies in a run. */
  ghost predicate Covers(cs: seq<Node>, rs: seq<Run>)
  {
    forall j :: IsElement(cs, j) ==> InRun(rs, j)
  }

  /** The runs are the maximal runs of same-named elements: only text lies between two runs,
      so consecutive runs, having different tags, cannot be joined. */
  ghost predicate RunsOf(cs: seq<Node>, rs: seq<Run>)
  {
    AllRunsOk(cs, rs) && Ascending(rs) && Alternating(rs) && Covers(cs, rs)
  }

  /** Only text follows the last run. */
  lemma TextAfterRuns(cs: seq<Node>, rs: seq<Run>, j: nat)
    requires RunsOf(cs, rs) && rs != [] && rs[|rs| - 1].last < j < |cs|
    ensures cs[j].Text?
  {
    var n := |rs| - 1;
    forall m | 0 <= m < |rs| ensures !(rs[m].first <= j <= rs[m].last) {
      if m < n {
        assert RunOk(cs, rs[n]);
        assert rs[m].last < rs[n].first;
      }
    }
    assert !InRun(rs, j);
    assert !IsElement(cs, j);
  }

  /** Only text lies between two consecutive runs. */
  lemma TextBetweenRuns(cs: seq<Node>, rs: seq<Run>, k: nat, j: nat)
    requires RunsOf(cs, rs) && k + 1 < |rs| && rs[k].last < j < rs[k + 1].first
    ensures cs[j].Text?
  {
    forall m | 0 <= m < |rs| ensures !(rs[m].first <= j <= rs[m].last) {
      if m < k {
        assert RunOk(cs, rs[k]);
        assert rs[m].last < rs[k].first;
      } else if m > k + 1 {
        assert RunOk(cs, rs[m]);
        assert rs[k + 1].last < rs[m].first;
        assert RunOk(cs, rs[k + 1]);
      }
    }
    assert !InRun(rs, j);
    assert !IsElement(cs, j);
  }

  lemma RunOkSnoc(cs: seq<Node>, x: Node, r: Run)
    requires RunOk(cs, r)
    ensures RunOk(cs + [x], r)
  {
    assert forall j :: 0 <= j < |cs| ==> (cs + [x])[j] == cs[j];
  }

  lemma AllRunsOkSnoc(cs: seq<Node>, x: Node, rs: seq<Run>)
    requires AllRunsOk(cs, rs)
    ensures AllRunsOk(cs + [x], rs)
  {
    forall k | 0 <= k < |rs| ensures RunOk(cs + [x], rs[k]) {
      RunOkSnoc(cs, x, rs[k]);
    }
  }

  /** Each run of `rs` lies within the run at the same position of `rs'`. */
  predicate Within(rs: seq<Run>, rs': seq<Run>)
  {
    |rs| <= |rs'| && forall k :: 0 <= k < |rs| ==> rs'[k].first <= rs[k].first && rs[k].last <= rs'[k].last
  }

  lemma CoversSnoc(cs: seq<Node>, x: Node, rs: seq<Run>, rs': seq<Run>, m: nat)
    requires Covers(cs, rs) && Within(rs, rs')
    requires m < |rs'| && rs'[m].first <= |cs| <= rs'[m].last
    ensures Covers(cs + [x], rs')
  {
    var cs' := cs + [x];
    forall j | IsElement(cs', j) ensures InRun(rs', j) {
      if j < |cs| {
        assert cs[j] == cs'[j] && IsElement(cs, j);
        var k :| 0 <= k < |rs| && rs[k].first <= j <= rs[k].last;
        assert rs'[k].first <= j <= rs'[k].last;
      } else {
        assert rs'[m].first <= j <= rs'[m].last;
      }
    }
  }

  lemma RunsSnocText(cs: seq<Node>, x: Node, rs: seq<Run>)
    requires RunsOf(cs, rs) && x.Text?
    ensures RunsOf(cs + [x], rs)
  {
    AllRunsOkSnoc(cs, x, rs);
    var cs' := cs + [x];
    assert forall j :: 0 <= j < |cs| ==> cs'[j] == cs[j];
    forall j | IsElement(cs', j) ensures InRun(rs, j) {
      assert j < |cs| && IsElement(cs, j);
    }
  }

  /** An element with the tag of the last run extends that run to its position. */
  lemma JoinedRunOk(cs: seq<Node>, x: Node, rs: seq<Run>)
    requires RunsOf(cs, rs) && rs != [] && x.Element? && x.name == rs[|rs| - 1].name
    ensures RunOk(cs + [x], Run(x.name, rs[|rs| - 1].first, |cs|))
  {
    var l := rs[|rs| - 1];
    var cs' := cs + [x];
    assert RunOk(cs, l);
    forall j | l.first <= j <= |cs| && cs'[j].Element? ensures cs'[j].name == x.name {
      if j < |cs| {
        assert cs'[j] == cs[j];
        if j > l.last {
          TextAfterRuns(cs, rs, j);
        }
      }
    }
  }

  lemma RunsSnocJoin(cs: seq<Node>, x: Node, rs: seq<Run>)
    requires RunsOf(cs, rs) && x.Element? && rs != [] && rs[|rs| - 1].name == x.name
    ensures RunsOf(cs + [x], rs[..|rs| - 1] + [Run(x.name, rs[|rs| - 1].first, |cs|)])
  {
    var n := |rs| - 1;
    var rs' := rs[..n] + [Run(x.name, rs[n].first, |cs|)];
    assert forall k :: 0 <= k < n ==> rs'[k] == rs[k];
    JoinedRunOk(cs, x, rs);
    AllRunsOkSnoc(cs, x, rs);
    assert AllRunsOk(cs + [x], rs');
    assert rs'[n].first == rs[n].first && rs'[n].name == rs[n].name;
    assert Ascending(rs');
    assert Alternating(rs');
    assert Within(rs, rs');
    CoversSnoc(cs, x, rs, rs', n);
  }

  lemma RunsSnocNew(cs: seq<Node>, x: Node, rs: seq<Run>)
    requires RunsOf(cs, rs) && x.Element? && (rs == [] || rs[|rs| - 1].name != x.name)
    ensures RunsOf(cs + [x], rs + [Run(x.name, |cs|, |cs|)])
  {
    var rs' := rs + [Run(x.name, |cs|, |cs|)];
    assert forall k :: 0 <= k < |rs| ==> rs'[k] == rs[k];
    AllRunsOkSnoc(cs, x, rs);
    assert AllRunsOk(cs + [x], rs');
    assert Ascending(rs') by {
      forall k1, k2 | 0 <= k1 < k2 < |rs'| ensures rs'[k1].last < rs'[k2].first {
        assert RunOk(cs, rs[k1]);
      }
    }
    assert Alternating(rs');
    assert Within(rs, rs');
    CoversSnoc(cs, x, rs, rs', |rs|);
  }

  lemma RunsStep(cs: seq<Node>, x: Node)
    requires RunsOf(cs, Runs(cs))
    ensures RunsOf(cs + [x], Runs(cs + [x]))
  {
    var cs' := cs + [x];
    assert cs'[..|cs'| - 1] == cs;
    var rs := Runs(cs);
    match x
    case Text(_) =>
      RunsSnocText(cs, x, rs);
    case Element(name, _) =>
      if rs != [] && rs[|rs| - 1].name == name {
        RunsSnocJoin(cs, x, rs);
      } else {
        RunsSnocNew(cs, x, rs);
      }
  }

  /** Runs finds exactly the maximal runs of same-named elements. */
  lemma {:induction false} RunsSpec(cs: seq<Node>)
    ensures RunsOf(cs, Runs(cs))
    decreases |cs|
  {
    if cs != [] {
      var n := |cs| - 1;
      RunsSpec(cs[..n]);
      RunsStep(cs[..n], cs[n]);
      assert cs[..n] + [cs[n]] == cs;
    }
  }

  /** The (first, last) pairs of the runs with tag `t`, in order. */
  function RunsNamed(rs: seq<Run>, t: string): seq<(nat, nat)>
    decreases |rs|
  {
    if rs == [] then []
    else
      var r := rs[|rs| - 1];
      RunsNamed(rs[..|rs| - 1], t) + (if r.name == t then [(r.first, r.last)] else [])
  }

  /** The dictionary get_child_indexes returns: each tag with its runs, in order. */
  function Index(rs: seq<Run>): (m: map<string, seq<(nat, nat)>>)
  {
    map t | t in (set k | 0 <= k < |rs| :: rs[k].name) :: RunsNamed(rs, t)
  }

  function Get(m: map<string, seq<(nat, nat)>>, t: string): seq<(nat, nat)>
  {
    if t in m then m[t] else []
  }

  lemma {:induction false} RunsNamedEmpty(rs: seq<Run>, t: string)
    ensures RunsNamed(rs, t) == [] <==> forall k :: 0 <= k < |rs| ==> rs[k].name != t
    decreases |rs|
  {
    if rs != [] {
      var n := |rs| - 1;
      RunsNamedEmpty(rs[..n], t);
      assert forall k :: 0 <= k < n ==> rs[..n][k] == rs[k];
    }
  }

  /** One more run extends the dictionary entry of its tag and no other. */
  lemma IndexSnoc(rs: seq<Run>, r: Run)
    ensures Index(rs + [r]) == Index(rs)[r.name := Get(Index(rs), r.name) + [(r.first, r.last)]]
  {
    var rs' := rs + [r];
    assert rs'[..|rs'| - 1] == rs;
    var a := Index(rs');
    var b := Index(rs)[r.name := Get(Index(rs), r.name) + [(r.first, r.last)]];
    assert forall k :: 0 <= k < |rs| ==> rs'[k] == rs[k];
    forall t | t in a ensures t in b && a[t] == b[t] {
      if t != r.name {
        var k :| 0 <= k < |rs'| && rs'[k].name == t;
        assert k < |rs|;
      } else if t !in Index(rs) {
        RunsNamedEmpty(rs, t);
      }
    }
    forall t | t in b ensures t in a {
      if t != r.name {
        var k :| 0 <= k < |rs| && rs[k].name == t;
        assert rs'[k].name == t;
      } else {
        assert rs'[|rs|].name == t;
      }
    }
  }

  /** The last run named `t` gives the last pair of its entry, and no later run has that tag. */
  lemma {:induction false} RunsNamedLast(rs: seq<Run>, t: string) returns (k: nat)
    requires RunsNamed(rs, t) != []
    ensures k < |rs| && rs[k].name == t
    ensures RunsNamed(rs, t)[|RunsNamed(rs, t)| - 1] == (rs[k].first, rs[k].last)
    ensures forall k' :: k < k' < |rs| ==> rs[k'].name != t
    decreases |rs|
  {
    var n := |rs| - 1;
    if rs[n].name == t {
      k := n;
    } else {
      k := RunsNamedLast(rs[..n], t);
      assert rs[..n][k] == rs[k];
    }
  }

  function Last(ps: seq<(nat, nat)>): (nat, nat)
    requires ps != []
  {
    ps[|ps| - 1]
  }

  /** get_child_indexes element by element: a tag is a key exactly when some element has it. */
  lemma IndexKeys(cs: seq<Node>, t: string)
    ensures t in Index(Runs(cs)) <==> exists j :: Named(cs, j, t)
  {
    var rs := Runs(cs);
    RunsSpec(cs);
    if exists j :: Named(cs, j, t) {
      var j :| Named(cs, j, t);
      assert IsElement(cs, j);
      var m :| 0 <= m < |rs| && rs[m].first <= j <= rs[m].last;
      assert RunOk(cs, rs[m]);
      assert rs[m].name == t;
    }
    if t in Index(rs) {
      var k :| 0 <= k < |rs| && rs[k].name == t;
      assert RunOk(cs, rs[k]);
      assert Named(cs, rs[k].first, t);
    }
  }

  /** The last pair of a tag's entry ends at the last element with that tag. */
  lemma IndexLast(cs: seq<Node>, t: string)
    requires t in Index(Runs(cs))
    ensures Index(Runs(cs))[t] != [] && Named(cs, Last(Index(Runs(cs))[t]).1, t)
    ensures forall j :: Last(Index(Runs(cs))[t]).1 < j < |cs| ==> !Named(cs, j, t)
  {
    var rs := Runs(cs);
    var k := IndexLastRun(rs, t);
    RunsSpec(cs);
    LastRunNamed(cs, rs, t, k);
  }

  /** The entry of a tag ends with its last run. */
  lemma IndexLastRun(rs: seq<Run>, t: string) returns (k: nat)
    requires t in Index(rs)
    ensures Index(rs)[t] != [] && k < |rs| && rs[k].name == t && Last(Index(rs)[t]) == (rs[k].first, rs[k].last)
    ensures forall k' :: k < k' < |rs| ==> rs[k'].name != t
  {
    var k0 :| 0 <= k0 < |rs| && rs[k0].name == t;
    RunsNamedEmpty(rs, t);
    k := RunsNamedLast(rs, t);
  }

  lemma LastRunNamed(cs: seq<Node>, rs: seq<Run>, t: string, k: nat)
    requires RunsOf(cs, rs) && k < |rs| && rs[k].name == t
    requires forall k' :: k < k' < |rs| ==> rs[k'].name != t
    ensures Named(cs, rs[k].last, t)
    ensures forall j :: rs[k].last < j < |cs| ==> !Named(cs, j, t)
  {
    assert RunOk(cs, rs[k]);
    forall j | rs[k].last < j < |cs| ensures !Named(cs, j, t) {
      NotNamedAfterLastRun(cs, rs, t, k, j);
    }
  }

  lemma NotNamedAfterLastRun(cs: seq<Node>, rs: seq<Run>, t: string, k: nat, j: nat)
    requires RunsOf(cs, rs) && k < |rs| && rs[k].last < j < |cs|
    requires forall k' :: k < k' < |rs| ==> rs[k'].name != t
    ensures !Named(cs, j, t)
  {
    if IsElement(cs, j) {
      var m :| 0 <= m < |rs| && rs[m].first <= j <= rs[m].last;
      assert RunOk(cs, rs[m]);
      assert RunOk(cs, rs[k]);
    }
  }

  // ---------------------------------------------------------------------------------------
  // Where a new tag goes, element by element (package_xml.py:146-172)

  /** The position of the last node satisfying `p`, or -1. */
  function LastWhere(cs: seq<Node>, p: Node -> bool): (r: int)
    ensures -1 <= r < |cs|
    ensures r >= 0 ==> p(cs[r])
    ensures forall j :: r < j < |cs| ==> !p(cs[j])
    decreases |cs|
  {
    if cs == [] then -1
    else if p(cs[|cs| - 1]) then |cs| - 1
    else
      var r := LastWhere(cs[..|cs| - 1], p);
      assert forall j :: 0 <= j < |cs| - 1 ==> cs[..|cs| - 1][j] == cs[j];
      r
  }

  /** The rank of an element's tag, -1 for a text node. Here and below `rank` stands for
      get_ordering_index (the class passes OrderingIndex); none of the proofs depends on the
      contents of ORDERING. */
  function OrderOf(x: Node, rank: string -> nat): int
  {
    if x.Element? then rank(x.name) else -1
  }

  /** The largest ordering index below `bound` among the elements, or -1 when none is. */
  function MaxOrderBelow(cs: seq<Node>, bound: nat, rank: string -> nat): (o: int)
    decreases |cs|
  {
    if cs == [] then -1
    else
      var o := MaxOrderBelow(cs[..|cs| - 1], bound, rank);
      var x := OrderOf(cs[|cs| - 1], rank);
      if x < bound && x > o then x else o
  }

  lemma {:induction false} MaxOrderBelowSpec(cs: seq<Node>, bound: nat, rank: string -> nat)
    ensures MaxOrderBelow(cs, bound, rank) < bound
    ensures forall j :: 0 <= j < |cs| && cs[j].Element? && OrderOf(cs[j], rank) < bound ==> OrderOf(cs[j], rank) <= MaxOrderBelow(cs, bound, rank)
    ensures MaxOrderBelow(cs, bound, rank) >= 0 ==>
      exists j :: 0 <= j < |cs| && cs[j].Element? && OrderOf(cs[j], rank) == MaxOrderBelow(cs, bound, rank)
    decreases |cs|
  {
    if cs != [] {
      var n := |cs| - 1;
      MaxOrderBelowSpec(cs[..n], bound, rank);
      assert forall j :: 0 <= j < n ==> cs[..n][j] == cs[j];
      var o := MaxOrderBelow(cs[..n], bound, rank);
      if o >= 0 {
        var j :| 0 <= j < n && cs[..n][j].Element? && OrderOf(cs[..n][j], rank) == o;
        assert cs[j].Element? && OrderOf(cs[j], rank) == o;
      }
    }
  }

  function IsNamed(t: string): Node -> bool
  {
    (x: Node) => x.Element? && x.name == t
  }

  function HasOrder(o: int, rank: string -> nat): Node -> bool
  {
    (x: Node) => x.Element? && rank(x.name) == o
  }

  /** Where get_insertion_index says a new `tag` element goes: after the last element with that
      tag; else after the last element of the closest tag that comes before it in ORDERING; else
      at the end. */
  function InsertionIndex(cs: seq<Node>, tag: string, rank: string -> nat): (r: nat)
    ensures r <= |cs|
  {
    var l := LastWhere(cs, IsNamed(tag));
    if l >= 0 then l
    else
      var o := MaxOrderBelow(cs, rank(tag), rank);
      if o < 0 then |cs| else
        MaxOrderBelowSpec(cs, rank(tag), rank);
        var j :| 0 <= j < |cs| && cs[j].Element? && OrderOf(cs[j], rank) == o;
        assert HasOrder(o, rank)(cs[j]);
        LastWhere(cs, HasOrder(o, rank))
  }

  /** The insertion point: right after the last element with the tag when there is one;
      otherwise right after the last element among those whose tag comes closest before it in
      ORDERING; the end when no element comes before it. */
  lemma InsertionIndexSpec(cs: seq<Node>, tag: string, rank: string -> nat)
    ensures (exists j :: Named(cs, j, tag)) ==>
      Named(cs, InsertionIndex(cs, tag, rank), tag) && forall j :: InsertionIndex(cs, tag, rank) < j < |cs| ==> !Named(cs, j, tag)
    ensures InsertionIndex(cs, tag, rank) == |cs| <==>
      forall j :: 0 <= j < |cs| && cs[j].Element? ==> cs[j].name != tag && OrderOf(cs[j], rank) >= rank(tag)
    ensures (forall j :: 0 <= j < |cs| ==> !Named(cs, j, tag)) && InsertionIndex(cs, tag, rank) < |cs| ==>
      var r := InsertionIndex(cs, tag, rank);
      cs[r].Element? && OrderOf(cs[r], rank) < rank(tag) &&
      forall j :: 0 <= j < |cs| && cs[j].Element? && OrderOf(cs[j], rank) < rank(tag) ==>
        OrderOf(cs[j], rank) < OrderOf(cs[r], rank) || (OrderOf(cs[j], rank) == OrderOf(cs[r], rank) && j <= r)
  {
    var b := rank(tag);
    MaxOrderBelowSpec(cs, b, rank);
    var l := LastWhere(cs, IsNamed(tag));
    if l >= 0 {
      assert IsNamed(tag)(cs[l]);
      assert Named(cs, l, tag);
    } else {
      assert forall j :: 0 <= j < |cs| ==> !IsNamed(tag)(cs[j]);
      var o := MaxOrderBelow(cs, b, rank);
      if o >= 0 {
        var r := LastWhere(cs, HasOrder(o, rank));
        assert r == InsertionIndex(cs, tag, rank);
        var j0 :| 0 <= j0 < |cs| && cs[j0].Element? && OrderOf(cs[j0], rank) == o;
        assert HasOrder(o, rank)(cs[j0]);
        forall j | 0 <= j < |cs| && cs[j].Element? && OrderOf(cs[j], rank) < b
          ensures OrderOf(cs[j], rank) < OrderOf(cs[r], rank) || (OrderOf(cs[j], rank) == OrderOf(cs[r], rank) && j <= r)
        {
          if OrderOf(cs[j], rank) == o {
            assert HasOrder(o, rank)(cs[j]);
          }
        }
      }
    }
  }
}
