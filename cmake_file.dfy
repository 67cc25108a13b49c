/** The index-keeping operations of the `CMake` class of ros_introspection/cmake.py on a
    document value: the `content_map` index, sort keys and insertion, adding and removing
    commands. */
module CMakeFile {
  import opened Base
  import opened Str
  import opened CMakeDoc

  // ---------------------------------------------------------------------------------------
  // The content_map index (cmake.py:155-167)

  /** The `content_map` key an item is filed under: its command name, or 'group'. */
  function KeyOf(c: Content): Option<string>
  {
    match c
    case Raw(_) => None
    case Cmd(cmd) => Some(cmd.name)
    case Group(_, _, _, _) => Some("group")
  }

  /** The identity of a command or group item. */
  function IdOf(c: Content): nat
    requires !c.Raw?
  {
    if c.Cmd? then c.cmd.id else c.id
  }

  /** The ids of the items filed under `k`, in document order. */
  function IdsUnder(cs: seq<Content>, k: string): seq<nat>
  {
    if cs == [] then []
    else (if KeyOf(cs[0]) == Some(k) then [IdOf(cs[0])] else []) + IdsUnder(cs[1..], k)
  }

  lemma {:induction false} IdsUnderAppend(a: seq<Content>, b: seq<Content>, k: string)
    ensures IdsUnder(a + b, k) == IdsUnder(a, k) + IdsUnder(b, k)
  {
    if a == [] {
      assert a + b == b;
    } else {
      var h := if KeyOf(a[0]) == Some(k) then [IdOf(a[0])] else [];
      assert (a + b)[0] == a[0];
      assert (a + b)[1..] == a[1..] + b;
      calc {
        IdsUnder(a + b, k);
        h + IdsUnder(a[1..] + b, k);
        { IdsUnderAppend(a[1..], b, k); }
        h + (IdsUnder(a[1..], k) + IdsUnder(b, k));
        (h + IdsUnder(a[1..], k)) + IdsUnder(b, k);
      }
    }
  }

  lemma IdsUnderSnoc(cs: seq<Content>, c: Content, k: string)
    ensures IdsUnder(cs + [c], k) == IdsUnder(cs, k) + (if KeyOf(c) == Some(k) then [IdOf(c)] else [])
  {
    IdsUnderAppend(cs, [c], k);
    assert [c][1..] == [];
  }

  /** The ids of all command and group items, in document order. */
  function Ids(cs: seq<Content>): seq<nat>
  {
    if cs == [] then []
    else (if cs[0].Raw? then [] else [IdOf(cs[0])]) + Ids(cs[1..])
  }

  lemma {:induction false} IdsAppend(a: seq<Content>, b: seq<Content>)
    ensures Ids(a + b) == Ids(a) + Ids(b)
  {
    if a == [] {
      assert a + b == b;
    } else {
      assert (a + b)[0] == a[0];
      assert (a + b)[1..] == a[1..] + b;
      IdsAppend(a[1..], b);
    }
  }

  lemma {:induction false} IdsUnderInIds(cs: seq<Content>, k: string)
    ensures multiset(IdsUnder(cs, k)) <= multiset(Ids(cs))
  {
    if cs != [] {
      IdsUnderInIds(cs[1..], k);
    }
  }

  predicate Distinct<T(==)>(xs: seq<T>)
  {
    forall i, j :: 0 <= i < j < |xs| ==> xs[i] != xs[j]
  }

  /** `content_map[k]` on a `defaultdict(list)`: the empty list for a key never filed. */
  function Lookup(m: map<string, seq<nat>>, k: string): seq<nat>
  {
    if k in m then m[k] else []
  }

  /** The index invariant: item identities are distinct, and `content_map[k]` lists (in some
      order) exactly the ids of the top-level items filed under `k`. */
  ghost predicate Consistent(d: CMake)
  {
    Distinct(Ids(d.contents))
    && forall k :: multiset(Lookup(d.contentMap, k)) == multiset(IdsUnder(d.contents, k))
  }

  /** The content_map the constructor builds for `cs`: each item filed in turn. */
  function Index(cs: seq<Content>): (m: map<string, seq<nat>>)
    ensures forall k :: Lookup(m, k) == IdsUnder(cs, k)
    ensures forall k :: k in m <==> IdsUnder(cs, k) != []
  {
    if cs == [] then map[]
    else
      var init := cs[..|cs| - 1];
      var c := cs[|cs| - 1];
      assert cs == init + [c];
      assert forall k ::
               Lookup(FileUnder(Index(init), c), k) == IdsUnder(cs, k)
               && (k in FileUnder(Index(init), c) <==> IdsUnder(cs, k) != []) by {
        forall k
          ensures Lookup(FileUnder(Index(init), c), k) == IdsUnder(cs, k)
          ensures k in FileUnder(Index(init), c) <==> IdsUnder(cs, k) != []
        {
          IdsUnderSnoc(init, c, k);
          FileUnderLookup(Index(init), c, k);
        }
      }
      FileUnder(Index(init), c)
  }

  /** CMake(initial_contents, depth): files every command under its name and every group under
      'group', in document order. */
  method NewCMake(contents: seq<Content>, depth: nat) returns (d: CMake)
    ensures d == CMake(contents, Index(contents), depth)
    ensures forall k :: Lookup(d.contentMap, k) == IdsUnder(contents, k)
    ensures forall k :: k in d.contentMap <==> IdsUnder(contents, k) != []
  {
    var m: map<string, seq<nat>> := map[];
    var i := 0;
    while i < |contents|
      invariant 0 <= i <= |contents|
      invariant m == Index(contents[..i])
    {
      var c := contents[i];
      assert contents[..i + 1][..i] == contents[..i];
      if !c.Raw? {
        var key := KeyOf(c).value;
        m := m[key := Lookup(m, key) + [IdOf(c)]];
      }
      i := i + 1;
    }
    assert contents[..i] == contents;
    d := CMake(contents, m, depth);
  }

  /** A document built by the constructor satisfies the index invariant when its items have
      distinct identities. */
  lemma NewCMakeConsistent(d: CMake)
    requires Distinct(Ids(d.contents))
    requires forall k :: Lookup(d.contentMap, k) == IdsUnder(d.contents, k)
    ensures Consistent(d)
  {
  }

  // ---------------------------------------------------------------------------------------
  // Following content_map references

  /** The first item filed under `k` whose identity is `id`. */
  function ItemUnder(cs: seq<Content>, k: string, id: nat): (r: Option<Content>)
    ensures r.Some? ==> r.value in cs && KeyOf(r.value) == Some(k) && IdOf(r.value) == id
    ensures r.Some? <==> id in IdsUnder(cs, k)
  {
    if cs == [] then None
    else if KeyOf(cs[0]) == Some(k) && IdOf(cs[0]) == id then Some(cs[0])
    else ItemUnder(cs[1..], k, id)
  }

  function ResolveIds(cs: seq<Content>, k: string, ids: seq<nat>): (r: seq<Content>)
    ensures |r| <= |ids|
    ensures forall c :: c in r ==> c in cs && KeyOf(c) == Some(k)
    ensures (forall id :: id in ids ==> id in IdsUnder(cs, k)) ==> |r| == |ids|
  {
    if ids == [] then []
    else
      var rest := ResolveIds(cs, k, ids[1..]);
      match ItemUnder(cs, k, ids[0])
      case None => rest
      case Some(c) => [c] + rest
  }

  /** The objects `content_map[k]` refers to, in the index's order. An id naming no item cannot
      occur in a Consistent document (ResolvedComplete). */
  function Resolved(d: CMake, k: string): (r: seq<Content>)
    ensures forall c :: c in r ==> c in d.contents && KeyOf(c) == Some(k)
  {
    ResolveIds(d.contents, k, Lookup(d.contentMap, k))
  }

  lemma ResolvedComplete(d: CMake, k: string)
    requires Consistent(d)
    ensures |Resolved(d, k)| == |Lookup(d.contentMap, k)|
  {
    forall id | id in Lookup(d.contentMap, k)
      ensures id in IdsUnder(d.contents, k)
    {
      assert id in multiset(Lookup(d.contentMap, k));
    }
  }

  lemma {:induction false} ItemUnderAppend(a: seq<Content>, b: seq<Content>, k: string, id: nat)
    ensures ItemUnder(a + b, k, id) == if ItemUnder(a, k, id).Some? then ItemUnder(a, k, id) else ItemUnder(b, k, id)
  {
    if a == [] {
      assert a + b == b;
    } else {
      assert (a + b)[0] == a[0];
      assert (a + b)[1..] == a[1..] + b;
      ItemUnderAppend(a[1..], b, k, id);
    }
  }

  lemma {:induction false} ResolveIdsSnoc(cs: seq<Content>, k: string, ids: seq<nat>, id: nat)
    ensures ResolveIds(cs, k, ids + [id]) == ResolveIds(cs, k, ids) +
      (if ItemUnder(cs, k, id).Some? then [ItemUnder(cs, k, id).value] else [])
  {
    if ids == [] {
      assert ids + [id] == [id];
      assert [id][1..] == [];
    } else {
      assert (ids + [id])[0] == ids[0];
      assert (ids + [id])[1..] == ids[1..] + [id];
      ResolveIdsSnoc(cs, k, ids[1..], id);
    }
  }

  /** Resolving ids through a document with extra items changes nothing for ids those items do
      not carry. */
  lemma {:induction false} ResolveIdsSame(cs: seq<Content>, cs': seq<Content>, k: string, ids: seq<nat>)
    requires forall id :: id in ids ==> ItemUnder(cs', k, id) == ItemUnder(cs, k, id)
    ensures ResolveIds(cs', k, ids) == ResolveIds(cs, k, ids)
  {
    if ids != [] {
      ResolveIdsSame(cs, cs', k, ids[1..]);
    }
  }

  // ---------------------------------------------------------------------------------------
  // Sort keys (cmake.py:27-44)

  /** The second component of a sort key: None, an anchor index, or a section name. Python 2
      orders None below every number and every number below every string. */
  datatype SubKey = NoKey | IntKey(n: nat) | StrKey(s: string)

  datatype SortKey = SortKey(index: nat, sub: SubKey)

  predicate SubLe(a: SubKey, b: SubKey)
  {
    match (a, b)
    case (NoKey, _) => true
    case (_, NoKey) => false
    case (IntKey(m), IntKey(n)) => m <= n
    case (IntKey(_), StrKey(_)) => true
    case (StrKey(_), IntKey(_)) => false
    case (StrKey(x), StrKey(y)) => Le(x, y)
  }

  /** Python's `<=` on the (index, key) tuples. */
  predicate KeyLe(a: SortKey, b: SortKey)
  {
    a.index < b.index || (a.index == b.index && SubLe(a.sub, b.sub))
  }

  lemma KeyLeTotal(a: SortKey, b: SortKey)
    ensures KeyLe(a, b) || KeyLe(b, a)
  {
    if a.index == b.index && a.sub.StrKey? && b.sub.StrKey? {
      LeTotal(a.sub.s, b.sub.s);
    }
  }

  lemma KeyLeTrans(a: SortKey, b: SortKey, c: SortKey)
    requires KeyLe(a, b) && KeyLe(b, c)
    ensures KeyLe(a, c)
  {
    if a.index == b.index == c.index && a.sub.StrKey? && b.sub.StrKey? && c.sub.StrKey? {
      LeTrans(a.sub.s, b.sub.s, c.sub.s);
    }
  }

  function IndexOf(xs: seq<string>, x: string): (r: nat)
    requires x in xs
    ensures r < |xs| && xs[r] == x
    ensures forall j :: 0 <= j < r ==> xs[j] != x
  {
    if xs[0] == x then 0 else 1 + IndexOf(xs[1..], x)
  }

  /** The build-target commands share ORDERING position 14. */
  lemma BuildTargetIndex(name: string)
    requires name in BuildTargetCommands
    ensures OrderingIndex(name) == 14
  {
    assert EntryHas(Ordering[14], name);
    forall j | 0 <= j < 14
      ensures !EntryHas(Ordering[j], name)
    {
      assert Ordering[j].One?;
    }
  }

  /** Groups sit at ORDERING position 18. */
  lemma GroupIndex()
    ensures OrderingIndex("group") == 18
  {
    assert EntryHas(Ordering[18], "group");
    forall j | 0 <= j < 18
      ensures !EntryHas(Ordering[j], "group")
    {
    }
  }

  predicate IsBuildTarget(c: Content)
  {
    c.Cmd? && c.cmd.name in BuildTargetCommands
  }

  /** get_sort_key(content, anchors): the sort key and the anchors list after the call (a new
      build target's first token is appended). A string item has no `command_name`, and a build
      target without a first token raises IndexError. */
  function SortKeyOf(content: Option<Content>, anchors: seq<string>): (r: Result<(SortKey, seq<string>), PyError>)
  {
    match content
    case None => Ok((SortKey(|Ordering| + 1, NoKey), anchors))
    case Some(Raw(_)) => Err(AttributeError)
    case Some(Group(_, tag, _, _)) =>
      var rs := RealSections(tag.sections);
      Ok((SortKey(OrderingIndex("group"), if |rs| > 0 then StrKey(rs[0].name) else NoKey), anchors))
    case Some(Cmd(c)) =>
      if c.name in BuildTargetCommands then
        match FirstToken(c)
        case None => Err(IndexError)
        case Some(tok) =>
          var a := if tok in anchors then anchors else anchors + [tok];
          Ok((SortKey(OrderingIndex(c.name), IntKey(IndexOf(a, tok))), a))
      else Ok((SortKey(OrderingIndex(c.name), NoKey), anchors))
  }

  /** The primary key is the ORDERING position (len(ORDERING)+1 for None); a build target is
      keyed by the position of its first token among the anchors, appended when new; a group by
      the name of its opening tag's first real section; anything else has no secondary key. */
  lemma SortKeySpec(content: Option<Content>, anchors: seq<string>)
    ensures content.None? ==> SortKeyOf(content, anchors) == Ok((SortKey(|Ordering| + 1, NoKey), anchors))
    ensures content.Some? && content.value.Cmd? && !IsBuildTarget(content.value) ==>
      SortKeyOf(content, anchors) == Ok((SortKey(OrderingIndex(content.value.cmd.name), NoKey), anchors))
    ensures content.Some? && IsBuildTarget(content.value) && FirstToken(content.value.cmd).Some? ==>
      var tok := FirstToken(content.value.cmd).value;
      var r := SortKeyOf(content, anchors);
      r.Ok? && r.value.0.index == 14 && r.value.0.sub.IntKey?
      && (tok in anchors ==> r.value.1 == anchors)
      && (tok !in anchors ==> r.value.1 == anchors + [tok] && r.value.0.sub.n == |anchors|)
      && r.value.1[r.value.0.sub.n] == tok
      && forall j :: 0 <= j < r.value.0.sub.n ==> r.value.1[j] != tok
    ensures content.Some? && content.value.Group? ==>
      var rs := RealSections(content.value.initialTag.sections);
      SortKeyOf(content, anchors) == Ok((SortKey(18, if |rs| > 0 then StrKey(rs[0].name) else NoKey), anchors))
  {
    GroupIndex();
    if content.Some? && IsBuildTarget(content.value) && FirstToken(content.value.cmd).Some? {
      BuildTargetIndex(content.value.cmd.name);
      var tok := FirstToken(content.value.cmd).value;
      if tok !in anchors {
        assert (anchors + [tok])[|anchors|] == tok;
        assert forall j :: 0 <= j < |anchors| ==> (anchors + [tok])[j] != tok;
      }
    }
  }

  // ---------------------------------------------------------------------------------------
  // get_ordered_build_targets (cmake.py:254-262)

  /** The first token of a build-target item. */
  function TargetToken(c: Content): Option<string>
  {
    if IsBuildTarget(c) then FirstToken(c.cmd) else None
  }

  predicate Untokened(c: Content)
  {
    IsBuildTarget(c) && FirstToken(c.cmd).None?
  }

  /** The loop of get_ordered_build_targets from the list `acc`: each build target's first token,
      appended when not yet present; IndexError for a build target without one. */
  function BuildTargetsFrom(acc: seq<string>, cs: seq<Content>): Result<seq<string>, PyError>
    decreases |cs|
  {
    if cs == [] then Ok(acc)
    else if Untokened(cs[0]) then Err(IndexError)
    else
      var acc' := match TargetToken(cs[0]) case None => acc case Some(t) => if t in acc then acc else acc + [t];
      BuildTargetsFrom(acc', cs[1..])
  }

  /** get_ordered_build_targets fails exactly when some build target has no first token;
      otherwise it extends `acc`, keeps it duplicate-free, and holds exactly the tokens of `acc`
      and of the build targets. */
  lemma {:induction false} BuildTargetsSpec(acc: seq<string>, cs: seq<Content>)
    decreases |cs|
    ensures var r := BuildTargetsFrom(acc, cs);
      (r.Err? <==> exists i :: 0 <= i < |cs| && Untokened(cs[i]))
      && (r.Ok? ==> |acc| <= |r.value| && r.value[..|acc|] == acc)
      && (r.Ok? && Distinct(acc) ==> Distinct(r.value))
      && (r.Ok? ==> forall t :: t in r.value <==>
            t in acc || exists i :: 0 <= i < |cs| && TargetToken(cs[i]) == Some(t))
  {
    if cs != [] && !Untokened(cs[0]) {
      var acc' := match TargetToken(cs[0]) case None => acc case Some(t) => if t in acc then acc else acc + [t];
      BuildTargetsSpec(acc', cs[1..]);
      assert forall i :: 1 <= i < |cs| ==> cs[i] == cs[1..][i - 1];
      assert forall i :: 0 <= i < |cs| - 1 ==> cs[1..][i] == cs[i + 1];
    }
  }

  /** get_ordered_build_targets */
  method OrderedBuildTargets(cs: seq<Content>) returns (r: Result<seq<string>, PyError>)
    ensures r == BuildTargetsFrom([], cs)
  {
    var targets: seq<string> := [];
    var i := 0;
    while i < |cs|
      invariant 0 <= i <= |cs|
      invariant BuildTargetsFrom([], cs) == BuildTargetsFrom(targets, cs[i..])
    {
      assert cs[i..][1..] == cs[i + 1..];
      var c := cs[i];
      if IsBuildTarget(c) {
        match FirstToken(c.cmd)
        case None =>
          return Err(IndexError);
        case Some(t) =>
          if t !in targets {
            targets := targets + [t];
          }
      }
      i := i + 1;
    }
    return Ok(targets);
  }

  // ---------------------------------------------------------------------------------------
  // get_insertion_index (cmake.py:181-195)

  /** The loop of get_insertion_index from position `i`, with `iIndex` one past the last item
      seen so far whose key is at most `newKey`; string items are skipped. */
  function ScanFrom(cs: seq<Content>, anchors: seq<string>, newKey: SortKey, i: nat, iIndex: nat)
    : (r: Result<nat, PyError>)
    requires i <= |cs| && iIndex <= i
    ensures r.Ok? ==> r.value <= |cs|
    decreases |cs| - i
  {
    if i == |cs| then Ok(|cs|)
    else if cs[i].Raw? then ScanFrom(cs, anchors, newKey, i + 1, iIndex)
    else
      var p :- SortKeyOf(Some(cs[i]), anchors);
      if KeyLe(p.0, newKey) then ScanFrom(cs, p.1, newKey, i + 1, i + 1) else Ok(iIndex)
  }

  /** get_insertion_index(cmd) */
  function InsertionIndexOf(d: CMake, c: Content): (r: Result<nat, PyError>)
    ensures r.Ok? ==> r.value <= |d.contents|
  {
    var anchors :- BuildTargetsFrom([], d.contents);
    var p :- SortKeyOf(Some(c), anchors);
    ScanFrom(d.contents, p.1, p.0, 0, 0)
  }

  method InsertionIndex(d: CMake, c: Content) returns (r: Result<nat, PyError>)
    ensures r == InsertionIndexOf(d, c)
  {
    var anchors := OrderedBuildTargets(d.contents);
    if anchors.Err? {
      return Err(anchors.error);
    }
    var newKey := SortKeyOf(Some(c), anchors.value);
    if newKey.Err? {
      return Err(newKey.error);
    }
    var a := newKey.value.1;
    var key := newKey.value.0;
    var iIndex := 0;
    var i := 0;
    while i < |d.contents|
      invariant 0 <= iIndex <= i <= |d.contents|
      invariant InsertionIndexOf(d, c) == ScanFrom(d.contents, a, key, i, iIndex)
    {
      var content := d.contents[i];
      if !content.Raw? {
        var k := SortKeyOf(Some(content), a);
        if k.Err? {
          return Err(k.error);
        }
        if KeyLe(k.value.0, key) {
          a := k.value.1;
          iIndex := i + 1;
        } else {
          return Ok(iIndex);
        }
      }
      i := i + 1;
    }
    return Ok(|d.contents|);
  }

  /** Every build target of `cs` has a first token among `anchors`: the case of the anchors
      get_insertion_index computes from the same contents. */
  predicate KeyedBy(cs: seq<Content>, anchors: seq<string>)
  {
    forall j {:trigger IsBuildTarget(cs[j])} :: 0 <= j < |cs| && IsBuildTarget(cs[j]) ==>
      FirstToken(cs[j].cmd).Some? && FirstToken(cs[j].cmd).value in anchors
  }

  lemma KeyedKeyOk(c: Content, anchors: seq<string>)
    requires !c.Raw?
    requires IsBuildTarget(c) ==> FirstToken(c.cmd).Some? && FirstToken(c.cmd).value in anchors
    ensures SortKeyOf(Some(c), anchors).Ok? && SortKeyOf(Some(c), anchors).value.1 == anchors
  {
    SortKeySpec(Some(c), anchors);
  }

  /** The sort key of item `j` against anchors that already hold every build target's token. */
  function KeyAt(cs: seq<Content>, anchors: seq<string>, j: nat): SortKey
    requires j < |cs| && !cs[j].Raw? && KeyedBy(cs, anchors)
  {
    KeyedKeyOk(cs[j], anchors);
    SortKeyOf(Some(cs[j]), anchors).value.0
  }

  lemma {:induction false} BuildTargetsKeyed(cs: seq<Content>)
    requires BuildTargetsFrom([], cs).Ok?
    ensures KeyedBy(cs, BuildTargetsFrom([], cs).value)
  {
    var a := BuildTargetsFrom([], cs).value;
    BuildTargetsSpec([], cs);
    forall j | 0 <= j < |cs| && IsBuildTarget(cs[j])
      ensures FirstToken(cs[j].cmd).Some? && FirstToken(cs[j].cmd).value in a
    {
      assert !Untokened(cs[j]);
      assert TargetToken(cs[j]) == Some(FirstToken(cs[j].cmd).value);
    }
  }

  /** Every non-string item before `n` has a key at most `newKey`. */
  predicate AllBelow(cs: seq<Content>, anchors: seq<string>, newKey: SortKey, n: nat)
    requires KeyedBy(cs, anchors) && n <= |cs|
  {
    forall j {:trigger KeyAt(cs, anchors, j)} :: 0 <= j < n && !cs[j].Raw? ==> KeyLe(KeyAt(cs, anchors, j), newKey)
  }

  /** Some non-string item at or after `r` has a key larger than `newKey`, with only strings
      between `r` and it. */
  predicate LargerAfter(cs: seq<Content>, anchors: seq<string>, newKey: SortKey, r: nat)
    requires KeyedBy(cs, anchors)
  {
    exists j :: r <= j < |cs| && !cs[j].Raw? && !KeyLe(KeyAt(cs, anchors, j), newKey)
                && forall l :: r <= l < j ==> cs[l].Raw?
  }

  /** The scan from `i` under anchors that key every item: it never fails, and its result is
      one past the last item before the first larger key (so 0 or just after a non-string
      item), or len(contents). */
  lemma {:induction false} ScanFromSpec(cs: seq<Content>, anchors: seq<string>, newKey: SortKey, i: nat, iIndex: nat)
    requires i <= |cs| && iIndex <= i
    requires KeyedBy(cs, anchors)
    requires AllBelow(cs, anchors, newKey, i)
    requires forall j :: iIndex <= j < i ==> cs[j].Raw?
    ensures ScanFrom(cs, anchors, newKey, i, iIndex).Ok?
    ensures var r := ScanFrom(cs, anchors, newKey, i, iIndex).value;
      AllBelow(cs, anchors, newKey, r) && (r < |cs| ==> LargerAfter(cs, anchors, newKey, r))
    decreases |cs| - i
  {
    if i == |cs| {
    } else if cs[i].Raw? {
      assert AllBelow(cs, anchors, newKey, i + 1);
      ScanFromSpec(cs, anchors, newKey, i + 1, iIndex);
    } else {
      KeyedKeyOk(cs[i], anchors);
      var p := SortKeyOf(Some(cs[i]), anchors).value;
      assert p.0 == KeyAt(cs, anchors, i);
      if KeyLe(p.0, newKey) {
        assert AllBelow(cs, anchors, newKey, i + 1);
        ScanFromSpec(cs, anchors, newKey, i + 1, i + 1);
      } else {
        assert ScanFrom(cs, anchors, newKey, i, iIndex) == Ok(iIndex);
        assert AllBelow(cs, anchors, newKey, iIndex);
        assert LargerAfter(cs, anchors, newKey, iIndex);
      }
    }
  }

  /** Whatever the keys, a scan that starts at 0 or just after a non-string item ends there,
      just after a later non-string item, or at len(contents). */
  lemma {:induction false} ScanFromAfterItem(cs: seq<Content>, anchors: seq<string>, newKey: SortKey, i: nat, iIndex: nat, r: nat)
    requires i <= |cs| && iIndex <= i
    requires iIndex == 0 || !cs[iIndex - 1].Raw?
    requires ScanFrom(cs, anchors, newKey, i, iIndex) == Ok(r)
    ensures r < |cs| ==> r == 0 || !cs[r - 1].Raw?
    decreases |cs| - i, 1
  {
    if i == |cs| {
    } else if cs[i].Raw? {
      ScanFromAfterItem(cs, anchors, newKey, i + 1, iIndex, r);
    } else {
      ScanItemAfterItem(cs, anchors, newKey, i, iIndex, r);
    }
  }

  /** The step of ScanFromAfterItem at a non-string item: the scan stops at `iIndex` or goes
      on from just after the item. */
  lemma {:induction false} ScanItemAfterItem(cs: seq<Content>, anchors: seq<string>, newKey: SortKey, i: nat, iIndex: nat, r: nat)
    requires i < |cs| && iIndex <= i && !cs[i].Raw?
    requires iIndex == 0 || !cs[iIndex - 1].Raw?
    requires ScanFrom(cs, anchors, newKey, i, iIndex) == Ok(r)
    ensures r < |cs| ==> r == 0 || !cs[r - 1].Raw?
    decreases |cs| - i, 0
  {
    var k := SortKeyOf(Some(cs[i]), anchors);
    assert k.Ok?;
    if KeyLe(k.value.0, newKey) {
      ScanFromAfterItem(cs, k.value.1, newKey, i + 1, i + 1, r);
    } else {
      assert r == iIndex;
    }
  }

  /** get_insertion_index computes the new item's key against the document's build targets and
      scans from the start; those anchors key every item of the document. */
  lemma InsertionIndexScan(d: CMake, c: Content)
    requires !c.Raw?
    requires BuildTargetsFrom([], d.contents).Ok?
    requires IsBuildTarget(c) ==> FirstToken(c.cmd).Some?
    ensures
      var p := SortKeyOf(Some(c), BuildTargetsFrom([], d.contents).value);
      p.Ok? && KeyedBy(d.contents, p.value.1)
      && InsertionIndexOf(d, c) == ScanFrom(d.contents, p.value.1, p.value.0, 0, 0)
  {
    var a0 := BuildTargetsFrom([], d.contents).value;
    BuildTargetsKeyed(d.contents);
    SortKeySpec(Some(c), a0);
    var p := SortKeyOf(Some(c), a0).value;
    assert KeyedBy(d.contents, p.1);
  }

  /** The ordering half of InsertionIndexSpec. */
  lemma InsertionIndexOrdered(d: CMake, c: Content)
    requires !c.Raw?
    requires BuildTargetsFrom([], d.contents).Ok?
    requires IsBuildTarget(c) ==> FirstToken(c.cmd).Some?
    ensures InsertionIndexOf(d, c).Ok?
    ensures
      var a0 := BuildTargetsFrom([], d.contents).value;
      var p := SortKeyOf(Some(c), a0).value;
      var r := InsertionIndexOf(d, c).value;
      var cs := d.contents;
      KeyedBy(cs, p.1) && r <= |cs| && AllBelow(cs, p.1, p.0, r) && (r < |cs| ==> LargerAfter(cs, p.1, p.0, r))
  {
    InsertionIndexScan(d, c);
    var p := SortKeyOf(Some(c), BuildTargetsFrom([], d.contents).value).value;
    ScanFromSpec(d.contents, p.1, p.0, 0, 0);
  }

  /** The position half of InsertionIndexSpec: the index is 0, len(contents), or just after a
      non-string item. */
  lemma InsertionIndexAfterItem(d: CMake, c: Content)
    requires !c.Raw?
    requires BuildTargetsFrom([], d.contents).Ok?
    requires IsBuildTarget(c) ==> FirstToken(c.cmd).Some?
    ensures InsertionIndexOf(d, c).Ok?
    ensures
      var r := InsertionIndexOf(d, c).value;
      var cs := d.contents;
      r < |cs| ==> r == 0 || !cs[r - 1].Raw?
  {
    InsertionIndexScan(d, c);
    var p := SortKeyOf(Some(c), BuildTargetsFrom([], d.contents).value).value;
    assert InsertionIndexOf(d, c).Ok? by {
      ScanFromSpec(d.contents, p.1, p.0, 0, 0);
    }
    ScanFromAfterItem(d.contents, p.1, p.0, 0, 0, InsertionIndexOf(d, c).value);
  }

  /** get_insertion_index: when the build targets and the new item can be keyed, the index is
      one past the last non-string item whose key is at most the new key before the first
      larger key, and len(contents) when no larger key exists. The anchors are those of the
      document with the new item's token appended if it was not there. */
  lemma InsertionIndexSpec(d: CMake, c: Content)
    requires !c.Raw?
    requires BuildTargetsFrom([], d.contents).Ok?
    requires IsBuildTarget(c) ==> FirstToken(c.cmd).Some?
    ensures InsertionIndexOf(d, c).Ok?
    ensures
      var a0 := BuildTargetsFrom([], d.contents).value;
      var p := SortKeyOf(Some(c), a0).value;
      var r := InsertionIndexOf(d, c).value;
      var cs := d.contents;
      KeyedBy(cs, p.1) && r <= |cs| && AllBelow(cs, p.1, p.0, r) && (r < |cs| ==> LargerAfter(cs, p.1, p.0, r))
      && (r < |cs| ==> r == 0 || !cs[r - 1].Raw?)
  {
    InsertionIndexOrdered(d, c);
    InsertionIndexAfterItem(d, c);
  }

  // ---------------------------------------------------------------------------------------
  // add_command and remove_command (cmake.py:197-219)

  /** `'  ' * depth` */
  function Indent(depth: nat): (r: string)
    ensures |r| == 2 * depth && forall i :: 0 <= i < |r| ==> r[i] == ' '
  {
    if depth == 0 then "" else "  " + Indent(depth - 1)
  }

  /** The '\n' string add_command puts after a non-string item before the insertion index. */
  function Pre(d: CMake, r: nat): seq<Content>
    requires r <= |d.contents|
  {
    if r > 0 && !d.contents[r - 1].Raw? then [Raw("\n")] else []
  }

  /** The indentation before, and the newline after, a command added inside a group. */
  function Ind(d: CMake): seq<Content> { if d.depth > 0 then [Raw(Indent(d.depth))] else [] }
  function Post(d: CMake): seq<Content> { if d.depth > 0 then [Raw("\n")] else [] }

  /** The items add_command splices in at the insertion index. */
  function Spliced(d: CMake, r: nat, c: Content): seq<Content>
    requires r <= |d.contents|
  {
    Pre(d, r) + Ind(d) + [c] + Post(d)
  }

  /** content_map[name].append(cmd), or content_map['group'].append(group). */
  function FileUnder(m: map<string, seq<nat>>, c: Content): map<string, seq<nat>>
  {
    match KeyOf(c)
    case None => m
    case Some(k) => m[k := Lookup(m, k) + [IdOf(c)]]
  }

  /** The document after splicing `c` in at position `i` and filing it in content_map. */
  function SpliceAt(d: CMake, i: nat, c: Content): CMake
    requires i <= |d.contents|
  {
    d.(contents := d.contents[..i] + Spliced(d, i, c) + d.contents[i..], contentMap := FileUnder(d.contentMap, c))
  }

  /** add_command(cmd) for a Command or a CommandGroup. */
  function AddCommand(d: CMake, c: Content): (r: Result<CMake, PyError>)
    ensures r.Ok? ==> InsertionIndexOf(d, c).Ok? && r.value == SpliceAt(d, InsertionIndexOf(d, c).value, c)
  {
    var i :- InsertionIndexOf(d, c);
    Ok(SpliceAt(d, i, c))
  }

  lemma RawOnly(xs: seq<Content>)
    requires forall j :: 0 <= j < |xs| ==> xs[j].Raw?
    ensures Ids(xs) == [] && forall k :: IdsUnder(xs, k) == []
  {
    if xs != [] {
      RawOnly(xs[1..]);
    }
  }

  lemma SplicedShape(d: CMake, r: nat, c: Content)
    requires r <= |d.contents|
    ensures Ids(Spliced(d, r, c)) == (if c.Raw? then [] else [IdOf(c)])
    ensures forall k :: IdsUnder(Spliced(d, r, c), k) == (if KeyOf(c) == Some(k) then [IdOf(c)] else [])
  {
    var a := Pre(d, r) + Ind(d);
    RawOnly(a);
    RawOnly(Post(d));
    forall k
      ensures IdsUnder(Spliced(d, r, c), k) == (if KeyOf(c) == Some(k) then [IdOf(c)] else [])
    {
      IdsUnderAppend(a + [c], Post(d), k);
      IdsUnderAppend(a, [c], k);
      assert [c][1..] == [];
    }
    IdsAppend(a + [c], Post(d));
    IdsAppend(a, [c]);
    assert [c][1..] == [];
  }

  lemma DistinctSplice(a: seq<nat>, x: nat, b: seq<nat>)
    requires Distinct(a + b) && x !in a + b
    ensures Distinct(a + [x] + b)
  {
    var s := a + [x] + b;
    forall i, j | 0 <= i < j < |s|
      ensures s[i] != s[j]
    {
      if i < |a| && j < |a| {
        assert s[i] == (a + b)[i] && s[j] == (a + b)[j];
      } else if i < |a| && j == |a| {
        assert s[i] == (a + b)[i];
      } else if i < |a| {
        assert s[i] == (a + b)[i] && s[j] == (a + b)[j - 1];
      } else if i == |a| {
        assert s[j] == (a + b)[j - 1];
      } else {
        assert s[i] == (a + b)[i - 1] && s[j] == (a + b)[j - 1];
      }
    }
  }

  lemma FileUnderLookup(m: map<string, seq<nat>>, c: Content, k: string)
    ensures Lookup(FileUnder(m, c), k) == Lookup(m, k) + (if KeyOf(c) == Some(k) then [IdOf(c)] else [])
  {
  }

  lemma SpliceIdsUnder(d: CMake, i: nat, c: Content, k: string)
    requires !c.Raw? && i <= |d.contents|
    ensures IdsUnder(SpliceAt(d, i, c).contents, k) ==
      IdsUnder(d.contents[..i], k) + (if KeyOf(c) == Some(k) then [IdOf(c)] else []) + IdsUnder(d.contents[i..], k)
  {
    var cs := d.contents;
    var sp := Spliced(d, i, c);
    SplicedShape(d, i, c);
    IdsUnderAppend(cs[..i] + sp, cs[i..], k);
    IdsUnderAppend(cs[..i], sp, k);
  }

  /** Splicing `c` in and filing it keeps the entry for `k` in step with the contents. */
  lemma SpliceIndexAt(d: CMake, i: nat, c: Content, k: string)
    requires !c.Raw? && i <= |d.contents|
    requires multiset(Lookup(d.contentMap, k)) == multiset(IdsUnder(d.contents, k))
    ensures multiset(Lookup(SpliceAt(d, i, c).contentMap, k)) == multiset(IdsUnder(SpliceAt(d, i, c).contents, k))
  {
    var cs := d.contents;
    var x: seq<nat> := if KeyOf(c) == Some(k) then [IdOf(c)] else [];
    assert cs == cs[..i] + cs[i..];
    SpliceIdsUnder(d, i, c, k);
    FileUnderLookup(d.contentMap, c, k);
    IdsUnderAppend(cs[..i], cs[i..], k);
    var a, b := IdsUnder(cs[..i], k), IdsUnder(cs[i..], k);
    MultisetSplice(Lookup(d.contentMap, k), a, x, b);
  }

  lemma MultisetSplice(l: seq<nat>, a: seq<nat>, x: seq<nat>, b: seq<nat>)
    requires multiset(l) == multiset(a + b)
    ensures multiset(l + x) == multiset(a + x + b)
  {
    assert multiset(a + x + b) == multiset(a) + multiset(x) + multiset(b);
  }

  lemma SpliceConsistent(d: CMake, i: nat, c: Content)
    requires Consistent(d) && !c.Raw? && IdOf(c) !in Ids(d.contents) && i <= |d.contents|
    ensures Consistent(SpliceAt(d, i, c))
  {
    var cs := d.contents;
    var sp := Spliced(d, i, c);
    assert cs == cs[..i] + cs[i..];
    SplicedShape(d, i, c);
    IdsAppend(cs[..i] + sp, cs[i..]);
    IdsAppend(cs[..i], sp);
    IdsAppend(cs[..i], cs[i..]);
    DistinctSplice(Ids(cs[..i]), IdOf(c), Ids(cs[i..]));
    forall k {
      SpliceIndexAt(d, i, c, k);
    }
  }

  lemma ItemUnderAbsent(cs: seq<Content>, k: string, id: nat)
    requires id !in Ids(cs)
    ensures ItemUnder(cs, k, id) == None
  {
    IdsUnderInIds(cs, k);
    assert multiset(Ids(cs))[id] == 0;
    assert multiset(IdsUnder(cs, k))[id] == 0;
  }

  lemma ItemUnderInsert(x: seq<Content>, a: seq<Content>, c: Content, p: seq<Content>, y: seq<Content>,
                        k: string, id: nat)
    requires forall j :: 0 <= j < |a| ==> a[j].Raw?
    requires forall j :: 0 <= j < |p| ==> p[j].Raw?
    requires !c.Raw? && IdOf(c) !in Ids(x) && IdOf(c) !in Ids(y)
    ensures ItemUnder(x + (a + [c] + p) + y, k, id) ==
      if id == IdOf(c) && KeyOf(c) == Some(k) then Some(c) else ItemUnder(x + y, k, id)
  {
    RawOnly(a);
    RawOnly(p);
    assert ItemUnder(a, k, id) == None;
    assert ItemUnder(p, k, id) == None;
    assert ItemUnder([c], k, id) == if IdOf(c) == id && KeyOf(c) == Some(k) then Some(c) else None;
    ItemUnderAppend(a, [c], k, id);
    ItemUnderAppend(a + [c], p, k, id);
    ItemUnderAppend(x + (a + [c] + p), y, k, id);
    ItemUnderAppend(x, a + [c] + p, k, id);
    ItemUnderAppend(x, y, k, id);
    if id == IdOf(c) {
      ItemUnderAbsent(x, k, id);
      ItemUnderAbsent(y, k, id);
    }
  }

  /** After a splice, each id resolves to the item it resolved to before, and the new item's id
      to the new item. */
  lemma ItemUnderSpliced(d: CMake, i: nat, c: Content, k: string, id: nat)
    requires !c.Raw? && IdOf(c) !in Ids(d.contents) && i <= |d.contents|
    ensures ItemUnder(SpliceAt(d, i, c).contents, k, id) ==
      if id == IdOf(c) && KeyOf(c) == Some(k) then Some(c) else ItemUnder(d.contents, k, id)
  {
    var cs := d.contents;
    assert cs == cs[..i] + cs[i..];
    IdsAppend(cs[..i], cs[i..]);
    assert Spliced(d, i, c) == (Pre(d, i) + Ind(d)) + [c] + Post(d);
    ItemUnderInsert(cs[..i], Pre(d, i) + Ind(d), c, Post(d), cs[i..], k, id);
  }

  /** After a splice, `content_map[k]` resolves to what it resolved to before, followed by the
      new item when it is filed under `k`. */
  lemma ResolvedAfterSplice(d: CMake, i: nat, c: Content, k: string)
    requires Consistent(d) && !c.Raw? && IdOf(c) !in Ids(d.contents) && i <= |d.contents|
    ensures Resolved(SpliceAt(d, i, c), k) == Resolved(d, k) + (if KeyOf(c) == Some(k) then [c] else [])
  {
    var d' := SpliceAt(d, i, c);
    var l := Lookup(d.contentMap, k);
    IdsUnderInIds(d.contents, k);
    assert IdOf(c) !in multiset(l);
    forall id | id in l
      ensures ItemUnder(d'.contents, k, id) == ItemUnder(d.contents, k, id)
    {
      ItemUnderSpliced(d, i, c, k, id);
    }
    ResolveIdsSame(d.contents, d'.contents, k, l);
    FileUnderLookup(d.contentMap, c, k);
    if KeyOf(c) == Some(k) {
      ResolveIdsSnoc(d'.contents, k, l, IdOf(c));
      ItemUnderSpliced(d, i, c, k, IdOf(c));
    }
  }

  /** add_command keeps content_map in step with contents when the item is a new object. */
  lemma AddCommandConsistent(d: CMake, c: Content)
    requires Consistent(d) && !c.Raw? && IdOf(c) !in Ids(d.contents)
    requires AddCommand(d, c).Ok?
    ensures Consistent(AddCommand(d, c).value)
  {
    SpliceConsistent(d, InsertionIndexOf(d, c).value, c);
  }

  /** The position of the first command item with identity `id`. */
  function FindItem(cs: seq<Content>, id: nat): (r: Option<nat>)
    ensures r.Some? ==> r.value < |cs| && cs[r.value].Cmd? && cs[r.value].cmd.id == id
    ensures r.Some? ==> forall l :: 0 <= l < r.value ==> !(cs[l].Cmd? && cs[l].cmd.id == id)
    ensures r.None? ==> forall l :: 0 <= l < |cs| ==> !(cs[l].Cmd? && cs[l].cmd.id == id)
  {
    if cs == [] then None
    else if cs[0].Cmd? && cs[0].cmd.id == id then Some(0)
    else
      match FindItem(cs[1..], id)
      case None => None
      case Some(j) => Some(j + 1)
  }

  /** `contents.remove(cmd)`: the first command item with identity `id` removed; None is the
      ValueError of a missing element. */
  function RemoveItem(cs: seq<Content>, id: nat): Option<seq<Content>>
  {
    match FindItem(cs, id)
    case None => None
    case Some(j) => Some(cs[..j] + cs[j + 1..])
  }

  /** `list.remove(x)` on a list of ids; None is the ValueError of a missing element. */
  function RemoveId(xs: seq<nat>, id: nat): (r: Option<seq<nat>>)
    ensures r.Some? <==> id in xs
    ensures r.Some? ==> multiset(r.value) == multiset(xs) - multiset{id}
  {
    if xs == [] then None
    else if xs[0] == id then
      assert xs == [xs[0]] + xs[1..];
      Some(xs[1..])
    else
      match RemoveId(xs[1..], id)
      case None => None
      case Some(rest) =>
        assert xs == [xs[0]] + xs[1..];
        Some([xs[0]] + rest)
  }

  /** remove_command(cmd): `contents.remove(cmd)` then `content_map[cmd.command_name].remove(cmd)`,
      each by identity; ValueError when either is missing. */
  function RemoveCommand(d: CMake, cmd: Command): (r: Result<CMake, PyError>)
  {
    var cs := RemoveItem(d.contents, cmd.id);
    var ids := RemoveId(Lookup(d.contentMap, cmd.name), cmd.id);
    if cs.None? || ids.None? then Err(ValueError)
    else Ok(d.(contents := cs.value, contentMap := d.contentMap[cmd.name := ids.value]))
  }

  lemma {:induction false} IdInIds(cs: seq<Content>, j: nat)
    requires j < |cs| && !cs[j].Raw?
    ensures IdOf(cs[j]) in Ids(cs)
  {
    if j > 0 {
      IdInIds(cs[1..], j - 1);
    }
  }

  /** Distinct identities: two different positions hold items with different ids. */
  lemma {:induction false} DistinctIds(cs: seq<Content>, i: nat, j: nat)
    requires Distinct(Ids(cs))
    requires i < j < |cs| && !cs[i].Raw? && !cs[j].Raw?
    ensures IdOf(cs[i]) != IdOf(cs[j])
  {
    var h: seq<nat> := if cs[0].Raw? then [] else [IdOf(cs[0])];
    assert Ids(cs) == h + Ids(cs[1..]);
    if i == 0 {
      IdInIds(cs[1..], j - 1);
      var p :| 0 <= p < |Ids(cs[1..])| && Ids(cs[1..])[p] == IdOf(cs[j]);
      assert Ids(cs)[0] == IdOf(cs[0]) && Ids(cs)[p + 1] == IdOf(cs[j]);
    } else {
      assert Distinct(Ids(cs[1..])) by {
        forall a, b | 0 <= a < b < |Ids(cs[1..])|
          ensures Ids(cs[1..])[a] != Ids(cs[1..])[b]
        {
          assert Ids(cs)[a + |h|] == Ids(cs[1..])[a] && Ids(cs)[b + |h|] == Ids(cs[1..])[b];
        }
      }
      DistinctIds(cs[1..], i - 1, j - 1);
    }
  }

  lemma IdsUnderRemoveAt(cs: seq<Content>, j: nat, k: string)
    requires j < |cs|
    ensures multiset(IdsUnder(cs[..j] + cs[j + 1..], k))
         == multiset(IdsUnder(cs, k)) - multiset(IdsUnder([cs[j]], k))
    ensures multiset(Ids(cs[..j] + cs[j + 1..])) == multiset(Ids(cs)) - multiset(Ids([cs[j]]))
  {
    var a, b := cs[..j], cs[j + 1..];
    assert cs == a + [cs[j]] + b;
    IdsUnderAppend(a + [cs[j]], b, k);
    IdsUnderAppend(a, [cs[j]], k);
    IdsUnderAppend(a, b, k);
    MultisetCut(IdsUnder(a, k), IdsUnder([cs[j]], k), IdsUnder(b, k));
    IdsAppend(a + [cs[j]], b);
    IdsAppend(a, [cs[j]]);
    IdsAppend(a, b);
    MultisetCut(Ids(a), Ids([cs[j]]), Ids(b));
  }

  lemma MultisetCut(a: seq<nat>, x: seq<nat>, b: seq<nat>)
    ensures multiset(a + b) == multiset(a + x + b) - multiset(x)
  {
    assert multiset(a + x + b) == multiset(a) + multiset(x) + multiset(b);
  }

  lemma CountPair(ys: seq<nat>, a: nat, b: nat)
    requires a < b < |ys|
    ensures multiset(ys)[ys[a]] >= 1 + (if ys[b] == ys[a] then 1 else 0)
  {
    assert ys == ys[..b] + [ys[b]] + ys[b + 1..];
    assert ys[..b][a] == ys[a];
    assert multiset(ys[..b])[ys[a]] >= 1;
  }

  lemma DistinctMultiset(xs: seq<nat>, ys: seq<nat>)
    requires Distinct(xs) && multiset(ys) <= multiset(xs)
    ensures Distinct(ys)
  {
    forall a, b | 0 <= a < b < |ys|
      ensures ys[a] != ys[b]
    {
      CountPair(ys, a, b);
      assert ys[a] in multiset(xs);
      DistinctCount(xs, ys[a]);
    }
  }

  lemma DistinctCount(xs: seq<nat>, x: nat)
    requires Distinct(xs) && x in xs
    ensures multiset(xs)[x] == 1
  {
    var q :| 0 <= q < |xs| && xs[q] == x;
    assert xs == xs[..q] + [x] + xs[q + 1..];
    assert x !in xs[..q] && x !in xs[q + 1..] by {
      forall l | 0 <= l < |xs| && l != q ensures xs[l] != xs[q] { }
    }
  }

  /** In a document with distinct identities, the first command with the id of a command in it
      is that command. */
  lemma SameIdSamePosition(cs: seq<Content>, i: nat, j: nat)
    requires Distinct(Ids(cs))
    requires i < |cs| && j < |cs| && !cs[i].Raw? && !cs[j].Raw?
    ensures IdOf(cs[i]) == IdOf(cs[j]) ==> i == j
  {
    if i < j {
      DistinctIds(cs, i, j);
    } else if j < i {
      DistinctIds(cs, j, i);
    }
  }

  lemma FindCommand(d: CMake, cmd: Command) returns (j: nat)
    requires Distinct(Ids(d.contents)) && Cmd(cmd) in d.contents
    ensures FindItem(d.contents, cmd.id) == Some(j) && j < |d.contents| && d.contents[j] == Cmd(cmd)
  {
    var cs := d.contents;
    var p :| 0 <= p < |cs| && cs[p] == Cmd(cmd);
    j := FindItem(cs, cmd.id).value;
    SameIdSamePosition(cs, j, p);
  }

  lemma RemovedIndexAt(d: CMake, cmd: Command, j: nat, k: string)
    requires j < |d.contents| && d.contents[j] == Cmd(cmd)
    requires multiset(Lookup(d.contentMap, k)) == multiset(IdsUnder(d.contents, k))
    requires RemoveCommand(d, cmd).Ok?
    requires RemoveCommand(d, cmd).value.contents == d.contents[..j] + d.contents[j + 1..]
    ensures multiset(Lookup(RemoveCommand(d, cmd).value.contentMap, k))
         == multiset(IdsUnder(RemoveCommand(d, cmd).value.contents, k))
  {
    IdsUnderRemoveAt(d.contents, j, k);
    var x := IdsUnder([d.contents[j]], k);
    assert [d.contents[j]][1..] == [];
    assert x == if k == cmd.name then [cmd.id] else [];
    var m := RemoveCommand(d, cmd).value.contentMap;
    if k == cmd.name {
      assert Lookup(m, k) == RemoveId(Lookup(d.contentMap, k), cmd.id).value;
    } else {
      assert Lookup(m, k) == Lookup(d.contentMap, k);
    }
  }

  lemma {:induction false} InIdsUnder(cs: seq<Content>, j: nat)
    requires j < |cs| && !cs[j].Raw?
    ensures IdOf(cs[j]) in IdsUnder(cs, KeyOf(cs[j]).value)
  {
    if j > 0 {
      InIdsUnder(cs[1..], j - 1);
    }
  }

  lemma RemoveSucceeds(d: CMake, cmd: Command) returns (j: nat)
    requires Consistent(d) && Cmd(cmd) in d.contents
    ensures j < |d.contents| && d.contents[j] == Cmd(cmd)
    ensures RemoveCommand(d, cmd).Ok?
    ensures RemoveCommand(d, cmd).value.contents == d.contents[..j] + d.contents[j + 1..]
  {
    j := FindCommand(d, cmd);
    InIdsUnder(d.contents, j);
    assert cmd.id in multiset(IdsUnder(d.contents, cmd.name));
    assert cmd.id in Lookup(d.contentMap, cmd.name);
  }

  lemma RemoveDropsId(d: CMake, cmd: Command, j: nat)
    requires Consistent(d) && j < |d.contents| && d.contents[j] == Cmd(cmd)
    requires RemoveCommand(d, cmd).Ok?
    requires RemoveCommand(d, cmd).value.contents == d.contents[..j] + d.contents[j + 1..]
    ensures Distinct(Ids(RemoveCommand(d, cmd).value.contents))
    ensures cmd.id !in Ids(RemoveCommand(d, cmd).value.contents)
  {
    var cs := d.contents;
    var rest := cs[..j] + cs[j + 1..];
    IdsUnderRemoveAt(cs, j, "");
    assert Ids([cs[j]]) == [cmd.id] by { assert [cs[j]][1..] == []; }
    DistinctMultiset(Ids(cs), Ids(rest));
    IdInIds(cs, j);
    DistinctCount(Ids(cs), cmd.id);
    assert cmd.id !in multiset(Ids(rest));
  }

  /** remove_command on a command of a Consistent document succeeds, removes it from contents
      and from content_map, and keeps the two in step. */
  lemma RemoveCommandConsistent(d: CMake, cmd: Command)
    requires Consistent(d) && Cmd(cmd) in d.contents
    ensures RemoveCommand(d, cmd).Ok?
    ensures Consistent(RemoveCommand(d, cmd).value)
    ensures cmd.id !in Ids(RemoveCommand(d, cmd).value.contents)
    ensures forall k :: cmd.id !in Lookup(RemoveCommand(d, cmd).value.contentMap, k)
  {
    var j := RemoveSucceeds(d, cmd);
    RemoveDropsId(d, cmd, j);
    var d' := RemoveCommand(d, cmd).value;
    forall k
      ensures multiset(Lookup(d'.contentMap, k)) == multiset(IdsUnder(d'.contents, k))
      ensures cmd.id !in Lookup(d'.contentMap, k)
    {
      RemovedIndexAt(d, cmd, j, k);
      IdsUnderInIds(d'.contents, k);
      assert cmd.id !in multiset(Lookup(d'.contentMap, k));
    }
  }

  lemma {:induction false} RemoveIdLast(xs: seq<nat>, id: nat)
    requires id !in xs
    ensures RemoveId(xs + [id], id) == Some(xs)
  {
    if xs == [] {
      assert xs + [id] == [id];
      assert [id][1..] == [];
    } else {
      assert (xs + [id])[0] == xs[0];
      assert (xs + [id])[1..] == xs[1..] + [id];
      RemoveIdLast(xs[1..], id);
      assert [xs[0]] + xs[1..] == xs;
    }
  }

  lemma {:induction false} FindItemAt(cs: seq<Content>, j: nat, id: nat)
    requires j < |cs| && cs[j].Cmd? && cs[j].cmd.id == id
    requires forall l :: 0 <= l < j ==> !(cs[l].Cmd? && cs[l].cmd.id == id)
    ensures FindItem(cs, id) == Some(j)
  {
    if j > 0 {
      FindItemAt(cs[1..], j - 1, id);
    }
  }

  /** No command in `cs[..i] + pi` carries the id, when none of `cs` does and `pi` holds only
      strings. */
  lemma FreshBefore(cs: seq<Content>, i: nat, pi: seq<Content>, id: nat)
    requires i <= |cs| && id !in Ids(cs) && forall x :: x in pi ==> x.Raw?
    ensures forall l :: 0 <= l < |cs[..i] + pi| ==>
      !((cs[..i] + pi)[l].Cmd? && (cs[..i] + pi)[l].cmd.id == id)
  {
    forall l | 0 <= l < |cs[..i] + pi|
      ensures !((cs[..i] + pi)[l].Cmd? && (cs[..i] + pi)[l].cmd.id == id)
    {
      if l < i {
        assert (cs[..i] + pi)[l] == cs[l];
        if cs[l].Cmd? {
          IdInIds(cs, l);
        }
      } else {
        assert (cs[..i] + pi)[l] == pi[l - i] && pi[l - i] in pi;
      }
    }
  }

  /** The first command with an id is the one placed right after an id-free prefix. */
  lemma FindAfter(x: seq<Content>, cmd: Command, y: seq<Content>)
    requires forall l :: 0 <= l < |x| ==> !(x[l].Cmd? && x[l].cmd.id == cmd.id)
    ensures FindItem(x + [Cmd(cmd)] + y, cmd.id) == Some(|x|)
  {
    var s := x + [Cmd(cmd)] + y;
    assert s[|x|] == Cmd(cmd);
    forall l | 0 <= l < |x|
      ensures !(s[l].Cmd? && s[l].cmd.id == cmd.id)
    {
      assert s[l] == x[l];
    }
    FindItemAt(s, |x|, cmd.id);
  }

  lemma CutOut(a: seq<Content>, c: Content, b: seq<Content>)
    ensures |a + [c] + b| == |a| + 1 + |b| && (a + [c] + b)[|a|] == c
    ensures (a + [c] + b)[..|a|] + (a + [c] + b)[|a| + 1..] == a + b
  {
    assert (a + [c] + b)[..|a|] == a;
    assert (a + [c] + b)[|a| + 1..] == b;
  }

  /** Where a splice put a new command: `contents` gains strings `seps` and the command at
      position j, all at position i. */
  lemma SplicedAt(d: CMake, i: nat, cmd: Command) returns (j: nat, seps: seq<Content>)
    requires cmd.id !in Ids(d.contents) && i <= |d.contents|
    ensures forall x :: x in seps ==> x.Raw?
    ensures var cs1 := SpliceAt(d, i, Cmd(cmd)).contents;
      j < |cs1| && cs1[j] == Cmd(cmd) && FindItem(cs1, cmd.id) == Some(j)
      && cs1[..j] + cs1[j + 1..] == d.contents[..i] + seps + d.contents[i..]
  {
    var c := Cmd(cmd);
    var cs := d.contents;
    var pi := Pre(d, i) + Ind(d);
    var q := Post(d);
    var a := cs[..i] + pi;
    var b := q + cs[i..];
    SpliceShape(d, i, c);
    FreshBefore(cs, i, pi, cmd.id);
    FindAfter(a, cmd, b);
    CutOut(a, c, b);
    j := |a|;
    seps := pi + q;
    RegroupSeps(cs[..i], pi, q, cs[i..]);
  }

  /** The contents after SpliceAt: the separators before the item, the item, the ones after. */
  lemma SpliceShape(d: CMake, i: nat, c: Content)
    requires i <= |d.contents|
    ensures SpliceAt(d, i, c).contents
      == (d.contents[..i] + (Pre(d, i) + Ind(d))) + [c] + (Post(d) + d.contents[i..])
  {
    assert Spliced(d, i, c) == Pre(d, i) + Ind(d) + [c] + Post(d);
  }

  lemma RegroupSeps<T>(x: seq<T>, p: seq<T>, q: seq<T>, y: seq<T>)
    ensures (x + p) + (q + y) == x + (p + q) + y
  {
  }

  /** Removing a command just spliced in at position i leaves the old contents with strings
      inserted at i, and the old index entries. */
  lemma RemoveAfterSplice(d: CMake, i: nat, cmd: Command) returns (seps: seq<Content>)
    requires i <= |d.contents| && cmd.id !in Ids(d.contents)
    requires cmd.id !in Lookup(d.contentMap, cmd.name)
    ensures forall x :: x in seps ==> x.Raw?
    ensures RemoveCommand(SpliceAt(d, i, Cmd(cmd)), cmd)
      == Ok(d.(contents := d.contents[..i] + seps + d.contents[i..],
               contentMap := d.contentMap[cmd.name := Lookup(d.contentMap, cmd.name)]))
  {
    var c := Cmd(cmd);
    var d1 := SpliceAt(d, i, c);
    var j;
    j, seps := SplicedAt(d, i, cmd);
    var l := Lookup(d.contentMap, cmd.name);
    FileUnderLookup(d.contentMap, c, cmd.name);
    assert Lookup(d1.contentMap, cmd.name) == l + [cmd.id];
    RemoveIdLast(l, cmd.id);
    assert d1.contentMap[cmd.name := l] == d.contentMap[cmd.name := l];
  }

  /** remove_command undoes add_command of a new command, except for the separator and
      indentation strings add_command put around it: the index is as before, and the contents
      are the old contents with only strings inserted at one place. */
  lemma LookupRestored(m: map<string, seq<nat>>, n: string)
    ensures forall k :: Lookup(m[n := Lookup(m, n)], k) == Lookup(m, k)
  {
  }

  lemma AddThenRemove(d: CMake, cmd: Command) returns (i: nat, seps: seq<Content>)
    requires Consistent(d) && cmd.id !in Ids(d.contents)
    requires AddCommand(d, Cmd(cmd)).Ok?
    ensures RemoveCommand(AddCommand(d, Cmd(cmd)).value, cmd).Ok?
    ensures var d2 := RemoveCommand(AddCommand(d, Cmd(cmd)).value, cmd).value;
      (forall k :: Lookup(d2.contentMap, k) == Lookup(d.contentMap, k))
      && d2.depth == d.depth
      && i <= |d.contents| && d2.contents == d.contents[..i] + seps + d.contents[i..]
    ensures forall x :: x in seps ==> x.Raw?
  {
    var c := Cmd(cmd);
    i := InsertionIndexOf(d, c).value;
    assert AddCommand(d, c).value == SpliceAt(d, i, c);
    IdsUnderInIds(d.contents, cmd.name);
    assert cmd.id !in multiset(Lookup(d.contentMap, cmd.name));
    seps := RemoveAfterSplice(d, i, cmd);
    assert RemoveCommand(AddCommand(d, c).value, cmd) == RemoveCommand(SpliceAt(d, i, c), cmd);
    LookupRestored(d.contentMap, cmd.name);
  }

}
