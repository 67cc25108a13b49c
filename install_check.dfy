/** install_section_check of roscompile/installs.py: the install commands of one install type
    are brought in line with the items that should be installed. */
module InstallCheck {
  import opened Base
  import opened Str
  import opened CMakeDoc
  import opened CMakeFile
  import opened CMakeEdit
  import opened CMakePass
  import opened Installs

  // ---------------------------------------------------------------------------------------
  // get_commands_by_type (installs.py:137-142)

  /** Whether the item with identity `id` filed under install counts for the type `t`: an
      identity not in the contents is skipped, a group has no sections (AttributeError). */
  function Counts(d: CMake, id: nat, t: InstallType, subfolder: string): Result<bool, PyError>
  {
    match ItemUnder(d.contents, "install", id)
    case None => Ok(false)
    case Some(x) =>
      if !x.Cmd? then Err(AttributeError)
      else
        var types :- InstallTypes(x.cmd, subfolder);
        Ok(t in types)
  }

  /** The identities among `ids` of the install commands that use the type `t`. */
  function ByType(d: CMake, ids: seq<nat>, t: InstallType, subfolder: string): Result<seq<nat>, PyError>
    decreases |ids|
  {
    if ids == [] then Ok([])
    else
      var keep :- Counts(d, ids[0], t, subfolder);
      var rest :- ByType(d, ids[1..], t, subfolder);
      Ok(if keep then [ids[0]] + rest else rest)
  }

  /** The command with identity `id` filed under install uses the type `t`. */
  predicate UsesType(d: CMake, id: nat, t: InstallType, subfolder: string)
  {
    var x := ItemUnder(d.contents, "install", id);
    x.Some? && x.value.Cmd? && InstallTypes(x.value.cmd, subfolder).Ok? && t in InstallTypes(x.value.cmd, subfolder).value
  }

  lemma CountsSpec(d: CMake, id: nat, t: InstallType, subfolder: string)
    ensures Counts(d, id, t, subfolder).Ok? ==> (Counts(d, id, t, subfolder).value <==> UsesType(d, id, t, subfolder))
  {
  }

  method GetCommandsByType(d: CMake, t: InstallType, subfolder: string) returns (r: Result<seq<nat>, PyError>)
    ensures r == ByType(d, Lookup(d.contentMap, "install"), t, subfolder)
  {
    var ids := Lookup(d.contentMap, "install");
    var found: seq<nat> := [];
    var i := 0;
    assert ids[0..] == ids;
    assert ByType(d, ids[0..], t, subfolder).Ok? ==> found + ByType(d, ids[0..], t, subfolder).value == ByType(d, ids[0..], t, subfolder).value;
    while i < |ids|
      invariant 0 <= i <= |ids|
      invariant ByType(d, ids, t, subfolder) == Prefixed(found, ByType(d, ids[i..], t, subfolder))
    {
      assert ids[i..][1..] == ids[i + 1..];
      var keep := CountsAt(d, ids[i], t, subfolder);
      if keep.Err? {
        return Err(keep.error);
      }
      if keep.value {
        PrefixedCons(found, ids[i], ByType(d, ids[i + 1..], t, subfolder));
        found := found + [ids[i]];
      }
      i := i + 1;
    }
    assert ids[i..] == [];
    assert found + [] == found;
    return Ok(found);
  }

  method CountsAt(d: CMake, id: nat, t: InstallType, subfolder: string) returns (r: Result<bool, PyError>)
    ensures r == Counts(d, id, t, subfolder)
  {
    var x := ItemUnder(d.contents, "install", id);
    if x.None? {
      return Ok(false);
    }
    if !x.value.Cmd? {
      return Err(AttributeError);
    }
    var types := GetInstallTypes(x.value.cmd, subfolder);
    if types.Err? {
      return Err(types.error);
    }
    return Ok(t in types.value);
  }

  lemma PrefixedCons(found: seq<nat>, id: nat, rest: Result<seq<nat>, PyError>)
    ensures Prefixed(found, if rest.Ok? then Ok([id] + rest.value) else rest) == Prefixed(found + [id], rest)
  {
    if rest.Ok? {
      assert found + ([id] + rest.value) == found + [id] + rest.value;
    }
  }

  /** get_commands_by_type keeps, in the index's order, exactly the install commands that use
      the type. */
  lemma {:induction false} ByTypeSpec(d: CMake, ids: seq<nat>, t: InstallType, subfolder: string)
    ensures ByType(d, ids, t, subfolder).Ok? ==>
      var r := ByType(d, ids, t, subfolder).value;
      (forall id :: id in r <==> id in ids && UsesType(d, id, t, subfolder))
      && IsSubseq(r, ids)
    decreases |ids|
  {
    if ids != [] {
      ByTypeSpec(d, ids[1..], t, subfolder);
      CountsSpec(d, ids[0], t, subfolder);
      assert forall id :: id in ids <==> id == ids[0] || id in ids[1..];
      var r := ByType(d, ids, t, subfolder);
      if r.Ok? && Counts(d, ids[0], t, subfolder).value {
        assert r.value[1..] == ByType(d, ids[1..], t, subfolder).value;
      }
    }
  }

  /** `sub` is `xs` with some elements left out. */
  predicate IsSubseq<T(==)>(sub: seq<T>, xs: seq<T>)
    decreases |xs|
  {
    if sub == [] then true
    else if xs == [] then false
    else (sub[0] == xs[0] && IsSubseq(sub[1..], xs[1..])) || IsSubseq(sub, xs[1..])
  }

  // ---------------------------------------------------------------------------------------
  // matches_patterns (installs.py:74-79)

  /** A pattern with its surrounding double quotes removed; `pattern[0]` raises IndexError for
      an empty pattern. */
  function Unquoted(pattern: string): Result<string, PyError>
  {
    if pattern == [] then Err(IndexError)
    else if pattern[0] == pattern[|pattern| - 1] && pattern[0] == '"' then
      Ok(if |pattern| >= 2 then pattern[1..|pattern| - 1] else "")
    else Ok(pattern)
  }

  /** matches_patterns(item, patterns): whether some pattern matches, tried in order. The shell
      pattern matcher fnmatch is the parameter `fnmatch`. */
  function MatchesPatterns(item: string, patterns: seq<string>, fnmatch: (string, string) -> bool): Result<bool, PyError>
  {
    if patterns == [] then Ok(false)
    else
      var p :- Unquoted(patterns[0]);
      if fnmatch(item, p) then Ok(true) else MatchesPatterns(item, patterns[1..], fnmatch)
  }

  /** Without empty patterns, an item matches exactly when one of the unquoted patterns does. */
  lemma {:induction false} MatchesPatternsSpec(item: string, patterns: seq<string>, fnmatch: (string, string) -> bool)
    requires forall k :: 0 <= k < |patterns| ==> patterns[k] != []
    ensures MatchesPatterns(item, patterns, fnmatch).Ok?
    ensures MatchesPatterns(item, patterns, fnmatch).value <==>
      exists k :: 0 <= k < |patterns| && fnmatch(item, Unquoted(patterns[k]).value)
  {
    if patterns != [] {
      MatchesPatternsSpec(item, patterns[1..], fnmatch);
      if exists k :: 0 <= k < |patterns[1..]| && fnmatch(item, Unquoted(patterns[1..][k]).value) {
        var k :| 0 <= k < |patterns[1..]| && fnmatch(item, Unquoted(patterns[1..][k]).value);
        assert patterns[k + 1] == patterns[1..][k];
      }
      if exists k :: 0 <= k < |patterns| && fnmatch(item, Unquoted(patterns[k]).value) {
        var k :| 0 <= k < |patterns| && fnmatch(item, Unquoted(patterns[k]).value);
        if k > 0 {
          assert patterns[1..][k - 1] == patterns[k];
        }
      }
    }
  }

  /** The items no pattern matches: the nonmatching_items loop of install_section_check. */
  function NonMatching(items: seq<string>, patterns: seq<string>, fnmatch: (string, string) -> bool): Result<seq<string>, PyError>
  {
    if items == [] then Ok([])
    else
      var m :- MatchesPatterns(items[0], patterns, fnmatch);
      var rest :- NonMatching(items[1..], patterns, fnmatch);
      Ok(if m then rest else [items[0]] + rest)
  }

  method CollectNonMatching(items: seq<string>, patterns: seq<string>, fnmatch: (string, string) -> bool)
    returns (r: Result<seq<string>, PyError>)
    ensures r == NonMatching(items, patterns, fnmatch)
  {
    var kept: seq<string> := [];
    var i := 0;
    assert items[0..] == items;
    assert NonMatching(items[0..], patterns, fnmatch).Ok? ==> kept + NonMatching(items[0..], patterns, fnmatch).value == NonMatching(items[0..], patterns, fnmatch).value;
    while i < |items|
      invariant 0 <= i <= |items|
      invariant NonMatching(items, patterns, fnmatch) == Then(kept, NonMatching(items[i..], patterns, fnmatch))
    {
      assert items[i..][1..] == items[i + 1..];
      var m := MatchesPatterns(items[i], patterns, fnmatch);
      if m.Err? {
        return Err(m.error);
      }
      if !m.value {
        ThenCons(kept, items[i], NonMatching(items[i + 1..], patterns, fnmatch));
        kept := kept + [items[i]];
      }
      i := i + 1;
    }
    assert items[i..] == [];
    assert kept + [] == kept;
    return Ok(kept);
  }

  /** The items kept so far followed by those still to come. */
  function Then(kept: seq<string>, rest: Result<seq<string>, PyError>): Result<seq<string>, PyError>
  {
    if rest.Ok? then Ok(kept + rest.value) else rest
  }

  lemma ThenCons(kept: seq<string>, x: string, rest: Result<seq<string>, PyError>)
    ensures Then(kept, if rest.Ok? then Ok([x] + rest.value) else rest) == Then(kept + [x], rest)
  {
    if rest.Ok? {
      assert kept + ([x] + rest.value) == kept + [x] + rest.value;
    }
  }

  /** Without empty patterns, the loop keeps, in order, exactly the items no pattern matches. */
  lemma {:induction false} NonMatchingSpec(items: seq<string>, patterns: seq<string>, fnmatch: (string, string) -> bool)
    requires forall k :: 0 <= k < |patterns| ==> patterns[k] != []
    ensures NonMatching(items, patterns, fnmatch).Ok?
    ensures forall x :: x in NonMatching(items, patterns, fnmatch).value <==>
      x in items && forall k :: 0 <= k < |patterns| ==> !fnmatch(x, Unquoted(patterns[k]).value)
    ensures IsSubseq(NonMatching(items, patterns, fnmatch).value, items)
  {
    if items != [] {
      NonMatchingSpec(items[1..], patterns, fnmatch);
      MatchesPatternsSpec(items[0], patterns, fnmatch);
      forall x
        ensures x in NonMatching(items, patterns, fnmatch).value <==>
          x in items && forall k :: 0 <= k < |patterns| ==> !fnmatch(x, Unquoted(patterns[k]).value)
      {
        MatchesPatternsSpec(x, patterns, fnmatch);
        assert x in items <==> x == items[0] || x in items[1..];
      }
      var r := NonMatching(items, patterns, fnmatch).value;
      if !MatchesPatterns(items[0], patterns, fnmatch).value {
        assert r[1..] == NonMatching(items[1..], patterns, fnmatch).value;
      }
    }
  }

  // ---------------------------------------------------------------------------------------
  // install_section_check with nothing to install (installs.py:150-156)

  /** The command installs one type only (get_install_types without a subfolder). */
  predicate Alone(x: Command)
  {
    InstallTypes(x, "").Ok? && |InstallTypes(x, "").value| == 1
  }

  /** One command of the type when there is nothing to install: removed from the document when
      it installs nothing else, otherwise stripped by remove_install_section. */
  function DropOrStrip(d: CMake, id: nat, t: InstallType, order: seq<string>): Result<CMake, PyError>
  {
    match ItemUnder(d.contents, "install", id)
    case None => Ok(d)
    case Some(x) =>
      if !x.Cmd? then Err(AttributeError)
      else
        var types :- InstallTypes(x.cmd, "");
        if |types| == 1 then RemoveCommand(d, x.cmd)
        else
          var c :- InstallSectionRemoved(x.cmd, Destinations(t), order);
          Ok(UpdateCmd(d, c))
  }

  /** The loop over the commands of the type, in turn. */
  function RemovedByType(d: CMake, ids: seq<nat>, t: InstallType, order: seq<string>): Result<CMake, PyError>
    decreases |ids|
  {
    if ids == [] then Ok(d)
    else
      var d1 :- DropOrStrip(d, ids[0], t, order);
      RemovedByType(d1, ids[1..], t, order)
  }

  method RemoveByType(d: CMake, ids: seq<nat>, t: InstallType, order: seq<string>) returns (r: Result<CMake, PyError>)
    ensures r == RemovedByType(d, ids, t, order)
  {
    var cur := d;
    assert ids[0..] == ids;
    for i := 0 to |ids|
      invariant RemovedByType(d, ids, t, order) == RemovedByType(cur, ids[i..], t, order)
    {
      assert ids[i..][1..] == ids[i + 1..];
      var next := DropOrStripAt(cur, ids[i], t, order);
      if next.Err? {
        return next;
      }
      cur := next.value;
    }
    assert ids[|ids|..] == [];
    return Ok(cur);
  }

  method DropOrStripAt(d: CMake, id: nat, t: InstallType, order: seq<string>) returns (r: Result<CMake, PyError>)
    ensures r == DropOrStrip(d, id, t, order)
  {
    var x := ItemUnder(d.contents, "install", id);
    if x.None? {
      return Ok(d);
    }
    if !x.value.Cmd? {
      return Err(AttributeError);
    }
    var cmd := x.value.cmd;
    var types := GetInstallTypes(cmd, "");
    if types.Err? {
      return Err(types.error);
    }
    if |types.value| == 1 {
      return RemoveCommand(d, cmd);
    }
    var c := RemoveInstallSection(cmd, Destinations(t), order);
    if c.Err? {
      return Err(c.error);
    }
    return Ok(UpdateCmd(d, c.value));
  }

  /** No item of `r` has an identity `d` lacks. */
  ghost predicate IdsWithin(r: CMake, d: CMake)
  {
    forall id :: id in Ids(r.contents) ==> id in Ids(d.contents)
  }

  /** Every item whose identity is not listed in `ids` is found in `r` as it is in `d`. */
  ghost predicate OthersKept(d: CMake, r: CMake, ids: seq<nat>)
  {
    forall k, id :: id !in ids ==> ItemUnder(r.contents, k, id) == ItemUnder(d.contents, k, id)
  }

  lemma RemovedElsewhere(cs: seq<Content>, j: nat, k: string, id: nat)
    requires j < |cs| && !cs[j].Raw? && IdOf(cs[j]) != id
    ensures ItemUnder(cs[..j] + cs[j + 1..], k, id) == ItemUnder(cs, k, id)
  {
    assert cs == cs[..j] + ([cs[j]] + cs[j + 1..]);
    assert [cs[j]][1..] == [];
    ItemUnderAppend(cs[..j], cs[j + 1..], k, id);
    ItemUnderAppend(cs[..j], [cs[j]] + cs[j + 1..], k, id);
    ItemUnderAppend([cs[j]], cs[j + 1..], k, id);
  }

  lemma RemovedIdsWithin(cs: seq<Content>, j: nat)
    requires j < |cs|
    ensures forall id :: id in Ids(cs[..j] + cs[j + 1..]) ==> id in Ids(cs)
  {
    assert cs == cs[..j] + ([cs[j]] + cs[j + 1..]);
    IdsAppend(cs[..j], cs[j + 1..]);
    IdsAppend(cs[..j], [cs[j]] + cs[j + 1..]);
    IdsAppend([cs[j]], cs[j + 1..]);
  }

  /** Removing or stripping one command keeps the index consistent, adds no identity and
      leaves every other item as it was. */
  lemma DropOrStripSpec(d: CMake, id: nat, t: InstallType, order: seq<string>)
    requires Consistent(d)
    ensures var r := DropOrStrip(d, id, t, order);
      r.Ok? ==> Consistent(r.value) && IdsWithin(r.value, d) && OthersKept(d, r.value, [id])
  {
    var x := ItemUnder(d.contents, "install", id);
    if x.Some? && x.value.Cmd? && InstallTypes(x.value.cmd, "").Ok? {
      var cmd := x.value.cmd;
      if |InstallTypes(cmd, "").value| == 1 {
        DroppedKeeps(d, cmd);
      } else {
        var c := InstallSectionRemoved(cmd, Destinations(t), order);
        if c.Ok? {
          PairsRemovedSpec(cmd, FirstWords(map[], Destinations(t), order));
          StrippedKeeps(d, cmd, c.value);
        }
      }
    }
  }

  lemma DroppedKeeps(d: CMake, cmd: Command)
    requires Consistent(d) && Cmd(cmd) in d.contents
    ensures RemoveCommand(d, cmd).Ok?
    ensures var r := RemoveCommand(d, cmd).value;
      Consistent(r) && IdsWithin(r, d) && OthersKept(d, r, [cmd.id])
  {
    var j := RemoveSucceeds(d, cmd);
    RemoveCommandConsistent(d, cmd);
    var r := RemoveCommand(d, cmd).value;
    forall k, other | other !in [cmd.id]
      ensures ItemUnder(r.contents, k, other) == ItemUnder(d.contents, k, other)
    {
      RemovedElsewhere(d.contents, j, k, other);
    }
    RemovedIdsWithin(d.contents, j);
  }

  lemma StrippedKeeps(d: CMake, cmd: Command, c: Command)
    requires Consistent(d) && Cmd(cmd) in d.contents && c.id == cmd.id && c.name == cmd.name
    ensures var r := UpdateCmd(d, c);
      Consistent(r) && IdsWithin(r, d) && OthersKept(d, r, [cmd.id])
  {
    SameNameOf(d.contents, cmd, c);
    UpdateConsistent(d, c);
    ReplaceAllIds(d.contents, c, "");
    forall k, other | other !in [cmd.id]
      ensures ItemUnder(UpdateCmd(d, c).contents, k, other) == ItemUnder(d.contents, k, other)
    {
      ItemUnderReplaced(d.contents, c, k, other);
    }
  }

  /** The visited command is gone when it installs only this type, and otherwise stripped of
      the sections remove_install_section drops. */
  lemma DropOrStripVisited(d: CMake, id: nat, t: InstallType, order: seq<string>, x: Command)
    requires Consistent(d) && ItemUnder(d.contents, "install", id) == Some(Cmd(x))
    ensures var r := DropOrStrip(d, id, t, order);
      r.Ok? ==>
        (Alone(x) ==> id !in Ids(r.value.contents))
        && (!Alone(x) ==> InstallSectionRemoved(x, Destinations(t), order).Ok?
                          && ItemUnder(r.value.contents, "install", id) == Some(Cmd(InstallSectionRemoved(x, Destinations(t), order).value)))
  {
    if InstallTypes(x, "").Ok? {
      if Alone(x) {
        RemoveCommandConsistent(d, x);
      } else {
        var c := InstallSectionRemoved(x, Destinations(t), order);
        if c.Ok? {
          PairsRemovedSpec(x, FirstWords(map[], Destinations(t), order));
          SameNameOf(d.contents, x, c.value);
          ItemUnderReplaced(d.contents, c.value, "install", id);
        }
      }
    }
  }

  /** With nothing to install, the loop keeps the index consistent, adds no identity and leaves
      every item not of the type as it was. */
  lemma {:induction false} RemovedByTypeSpec(d: CMake, ids: seq<nat>, t: InstallType, order: seq<string>)
    requires Consistent(d)
    ensures var r := RemovedByType(d, ids, t, order);
      r.Ok? ==> Consistent(r.value) && IdsWithin(r.value, d) && OthersKept(d, r.value, ids)
    decreases |ids|
  {
    if ids != [] {
      DropOrStripSpec(d, ids[0], t, order);
      var d1 := DropOrStrip(d, ids[0], t, order);
      if d1.Ok? {
        RemovedByTypeSpec(d1.value, ids[1..], t, order);
        var r := RemovedByType(d1.value, ids[1..], t, order);
        if r.Ok? {
          forall k, id | id !in ids
            ensures ItemUnder(r.value.contents, k, id) == ItemUnder(d.contents, k, id)
          {
            assert id !in [ids[0]] && id !in ids[1..];
          }
        }
      }
    }
  }

  /** Each listed command installing only this type is removed; each installing others too is
      left stripped of the sections remove_install_section drops. */
  lemma {:induction false} RemovedByTypeEach(d: CMake, ids: seq<nat>, t: InstallType, order: seq<string>, id: nat, x: Command)
    requires Consistent(d) && Distinct(ids) && id in ids
    requires ItemUnder(d.contents, "install", id) == Some(Cmd(x))
    ensures var r := RemovedByType(d, ids, t, order);
      r.Ok? ==>
        (Alone(x) ==> id !in Ids(r.value.contents))
        && (!Alone(x) ==> InstallSectionRemoved(x, Destinations(t), order).Ok?
                          && ItemUnder(r.value.contents, "install", id) == Some(Cmd(InstallSectionRemoved(x, Destinations(t), order).value)))
    decreases |ids|
  {
    assert Distinct(ids[1..]) by {
      forall i, j | 0 <= i < j < |ids[1..]|
        ensures ids[1..][i] != ids[1..][j]
      {
        assert ids[1..][i] == ids[i + 1] && ids[1..][j] == ids[j + 1];
      }
    }
    DropOrStripSpec(d, ids[0], t, order);
    var d1 := DropOrStrip(d, ids[0], t, order);
    if d1.Ok? {
      if ids[0] == id {
        DropOrStripVisited(d, id, t, order, x);
        DistinctHead(ids);
        RemovedByTypeSpec(d1.value, ids[1..], t, order);
      } else {
        assert id !in [ids[0]];
        RemovedByTypeEach(d1.value, ids[1..], t, order, id, x);
      }
    }
  }

  lemma DistinctHead(ids: seq<nat>)
    requires Distinct(ids) && ids != []
    ensures ids[0] !in ids[1..]
  {
    forall m | 0 <= m < |ids[1..]|
      ensures ids[1..][m] != ids[0]
    {
      assert ids[1..][m] == ids[m + 1];
    }
  }

  // ---------------------------------------------------------------------------------------
  // install_section_check with items to install (installs.py:144-148, 158-192)

  /** The section that lists the items: the configuration's keyword, or DIRECTORY when the
      items are directories installed with FILES. */
  function SectionName(t: InstallType, directory: bool): string
  {
    if directory && Keyword(t) == "FILES" then "DIRECTORY" else Keyword(t)
  }

  /** Each item joined to the subfolder. */
  function Joined(items: seq<string>, subfolder: string): (r: seq<string>)
    ensures |r| == |items| && forall k :: 0 <= k < |items| ==> r[k] == PathJoin(subfolder, items[k])
  {
    seq(|items|, k requires 0 <= k < |items| => PathJoin(subfolder, items[k]))
  }

  /** `lambda v: v in xs` */
  function Among(xs: seq<string>): string -> bool
  {
    v => v in xs
  }

  /** `lambda v: v not in xs` */
  function NotAmong(xs: seq<string>): string -> bool
  {
    v => v !in xs
  }

  /** `section.values = [value for value in section.values if value in items]` as written: the
      command's changed flag is left alone. */
  function PrunedAsWritten(c: Command, p: nat, items: seq<string>): Command
    requires p < |c.sections| && c.sections[p].Sec?
  {
    var s := c.sections[p].section;
    c.(sections := c.sections[p := Sec(s.(values := Filter(s.values, Among(items))))])
  }

  /** The same pruning, marking the command changed when a value was dropped, so that the
      command is no longer rendered from its original text. */
  function Pruned(c: Command, p: nat, items: seq<string>): (r: Command)
    requires p < |c.sections| && c.sections[p].Sec?
    ensures |r.sections| == |c.sections| && r.sections[p].Sec?
  {
    var s := c.sections[p].section;
    var kept := Filter(s.values, Among(items));
    c.(sections := c.sections[p := Sec(s.(values := kept))], changed := c.changed || kept != s.values)
  }

  /** The item a found section was extended with at the end: the values plus the items still
      to install, the command marked changed. */
  function Appended(c: Command, p: nat, items: seq<string>): Command
  {
    if p < |c.sections| && c.sections[p].Sec? then
      var s := c.sections[p].section;
      c.(sections := c.sections[p := Sec(s.(values := s.values + items))], changed := true)
    else c
  }

  /** The last command the loop visited, with the position of the section `section` ended up
      naming for it (None when it stayed None). */
  datatype Last = Last(cmd: Command, at: Option<nat>)

  /** The state of the loop over the commands: the document, the items still to install and
      the last command visited. */
  datatype Scan = Scan(doc: CMake, items: seq<string>, last: Option<Last>)

  /** The loop body for one command, after install_sections: prune a found section, or for
      FILES look at a DIRECTORY section and its FILES_MATCHING PATTERN. */
  function Placed(st: Scan, c: Command, key: string, fnmatch: (string, string) -> bool): Result<Scan, PyError>
  {
    match FindSection(c.sections, key)
    case Some(p) =>
      var c2 := Pruned(c, p, st.items);
      Ok(Scan(UpdateCmd(st.doc, c2), Filter(st.items, NotAmong(c2.sections[p].section.values)), Some(Last(c2, Some(p)))))
    case None =>
      var d1 := UpdateCmd(st.doc, c);
      if key != "FILES" then Ok(Scan(d1, st.items, Some(Last(c, None))))
      else
        match FindSection(c.sections, "DIRECTORY")
        case None => Ok(Scan(d1, st.items, Some(Last(c, None))))
        case Some(q) =>
          var pattern :- MultiwordSection(c, ["FILES_MATCHING", "PATTERN"]);
          var rest :- if pattern.None? then Ok([])
                      else NonMatching(st.items, c.sections[pattern.value].section.values, fnmatch);
          Ok(Scan(d1, rest, Some(Last(c, Some(q)))))
  }

  /** One pass of the loop: the command `id`, given the install sections of the type. */
  function Visit(st: Scan, id: nat, key: string, t: InstallType, order: seq<string>, subfolder: string,
                 fnmatch: (string, string) -> bool): Result<Scan, PyError>
  {
    match ItemUnder(st.doc.contents, "install", id)
    case None => Ok(st)
    case Some(x) =>
      if !x.Cmd? then Err(AttributeError)
      else
        var c :- CheckAll(x.cmd, Checks(Destinations(t), order, subfolder));
        Placed(st, c, key, fnmatch)
  }

  function VisitAll(st: Scan, ids: seq<nat>, key: string, t: InstallType, order: seq<string>, subfolder: string,
                    fnmatch: (string, string) -> bool): Result<Scan, PyError>
    decreases |ids|
  {
    if ids == [] then Ok(st)
    else
      var st1 :- Visit(st, ids[0], key, t, order, subfolder, fnmatch);
      VisitAll(st1, ids[1..], key, t, order, subfolder, fnmatch)
  }

  /** After the loop: nothing left to install leaves the document; with no command of the type
      a new install command `freshId` lists the items and gets the install sections; otherwise
      the items are appended to the section found in the last command, if any. */
  function Finished(st: Scan, key: string, t: InstallType, order: seq<string>, subfolder: string, freshId: nat)
    : Result<CMake, PyError>
  {
    if st.items == [] then Ok(st.doc)
    else
      match st.last
      case None =>
        var c := AddSection(NewCommand(freshId, "install"), key, st.items, Shared);
        var d1 :- AddCommand(st.doc, Cmd(c));
        var c2 :- CheckAll(c, Checks(Destinations(t), order, subfolder));
        Ok(UpdateCmd(d1, c2))
      case Some(l) =>
        if l.at.None? then Ok(st.doc) else Ok(UpdateCmd(st.doc, Appended(l.cmd, l.at.value, st.items)))
  }

  /** install_section_check(cmake, items, install_type, directory, subfolder); `order` is the
      iteration order of the destination map and `freshId` the identity of a command it
      creates. */
  function InstallSectionChecked(d: CMake, items: seq<string>, t: InstallType, directory: bool, subfolder: string,
                                 order: seq<string>, fnmatch: (string, string) -> bool, freshId: nat)
    : Result<CMake, PyError>
  {
    var key := SectionName(t, directory);
    var ids :- ByType(d, Lookup(d.contentMap, "install"), t, subfolder);
    if items == [] then RemovedByType(d, ids, t, order)
    else
      var st :- VisitAll(Scan(d, Joined(items, subfolder), None), ids, key, t, order, subfolder, fnmatch);
      Finished(st, key, t, order, subfolder, freshId)
  }

  method InstallSectionCheck(d: CMake, items: seq<string>, t: InstallType, directory: bool, subfolder: string,
                             order: seq<string>, fnmatch: (string, string) -> bool, freshId: nat)
    returns (r: Result<CMake, PyError>)
    ensures r == InstallSectionChecked(d, items, t, directory, subfolder, order, fnmatch, freshId)
  {
    var key := SectionName(t, directory);
    var cmds := GetCommandsByType(d, t, subfolder);
    if cmds.Err? {
      return Err(cmds.error);
    }
    var ids := cmds.value;
    if |items| == 0 {
      r := RemoveByType(d, ids, t, order);
      return;
    }
    var st := Scan(d, Joined(items, subfolder), None);
    var start := st;
    assert ids[0..] == ids;
    for i := 0 to |ids|
      invariant VisitAll(start, ids, key, t, order, subfolder, fnmatch) == VisitAll(st, ids[i..], key, t, order, subfolder, fnmatch)
    {
      assert ids[i..][1..] == ids[i + 1..];
      var next := VisitCmd(st, ids[i], key, t, order, subfolder, fnmatch);
      if next.Err? {
        return Err(next.error);
      }
      st := next.value;
    }
    assert ids[|ids|..] == [];
    r := Finish(st, key, t, order, subfolder, freshId);
  }

  /** The body of the loop over the commands of the type. */
  method VisitCmd(st: Scan, id: nat, key: string, t: InstallType, order: seq<string>, subfolder: string,
                  fnmatch: (string, string) -> bool) returns (r: Result<Scan, PyError>)
    ensures r == Visit(st, id, key, t, order, subfolder, fnmatch)
  {
    var x := ItemUnder(st.doc.contents, "install", id);
    if x.None? {
      return Ok(st);
    }
    if !x.value.Cmd? {
      return Err(AttributeError);
    }
    var c := InstallSections(x.value.cmd, Destinations(t), order, subfolder);
    if c.Err? {
      return Err(c.error);
    }
    r := Place(st, c.value, key, fnmatch);
  }

  /** The loop body after install_sections. */
  method Place(st: Scan, cmd: Command, key: string, fnmatch: (string, string) -> bool) returns (r: Result<Scan, PyError>)
    ensures r == Placed(st, cmd, key, fnmatch)
  {
    var p := FindSection(cmd.sections, key);
    if p.Some? {
      var pruned := Pruned(cmd, p.value, st.items);
      var values := pruned.sections[p.value].section.values;
      return Ok(Scan(UpdateCmd(st.doc, pruned), Filter(st.items, NotAmong(values)), Some(Last(pruned, p))));
    }
    var d1 := UpdateCmd(st.doc, cmd);
    if key != "FILES" {
      return Ok(Scan(d1, st.items, Some(Last(cmd, None))));
    }
    var q := FindSection(cmd.sections, "DIRECTORY");
    if q.None? {
      return Ok(Scan(d1, st.items, Some(Last(cmd, None))));
    }
    var pattern := GetMultiwordSection(cmd, ["FILES_MATCHING", "PATTERN"]);
    if pattern.Err? {
      return Err(pattern.error);
    }
    var rest: seq<string> := [];
    if pattern.value.Some? {
      var nonmatching := CollectNonMatching(st.items, cmd.sections[pattern.value.value].section.values, fnmatch);
      if nonmatching.Err? {
        return Err(nonmatching.error);
      }
      rest := nonmatching.value;
    }
    return Ok(Scan(d1, rest, Some(Last(cmd, q))));
  }

  /** The tail of install_section_check, after the loop. */
  method Finish(st: Scan, key: string, t: InstallType, order: seq<string>, subfolder: string, freshId: nat)
    returns (r: Result<CMake, PyError>)
    ensures r == Finished(st, key, t, order, subfolder, freshId)
  {
    if |st.items| == 0 {
      return Ok(st.doc);
    }
    if st.last.None? {
      var c := AddSection(NewCommand(freshId, "install"), key, st.items, Shared);
      var d1 := AddCommand(st.doc, Cmd(c));
      if d1.Err? {
        return Err(d1.error);
      }
      var c2 := InstallSections(c, Destinations(t), order, subfolder);
      if c2.Err? {
        return Err(c2.error);
      }
      return Ok(UpdateCmd(d1.value, c2.value));
    }
    var l := st.last.value;
    if l.at.Some? {
      return Ok(UpdateCmd(st.doc, Appended(l.cmd, l.at.value, st.items)));
    }
    return Ok(st.doc);
  }

  // ---------------------------------------------------------------------------------------
  // What the items branch promises

  /** A list comprehension keeps the order of what it keeps. */
  lemma {:induction false} FilterSubseq(xs: seq<string>, keep: string -> bool)
    ensures IsSubseq(Filter(xs, keep), xs)
  {
    if xs != [] {
      FilterSubseq(xs[1..], keep);
      var r := Filter(xs, keep);
      if keep(xs[0]) {
        assert r[1..] == Filter(xs[1..], keep);
      } else {
        assert r == Filter(xs[1..], keep);
      }
    }
  }

  /** The pruned section keeps, in order, exactly its values that are to be installed; nothing
      else in the command changes, and the command is marked changed when a value was dropped. */
  lemma PrunedSpec(c: Command, p: nat, items: seq<string>)
    requires p < |c.sections| && c.sections[p].Sec?
    ensures var r := Pruned(c, p, items);
      var prev := c.sections[p].section;
      var kept := r.sections[p].section.values;
      r.id == c.id && r.name == c.name && r.original == c.original
      && (forall j :: 0 <= j < |c.sections| && j != p ==> r.sections[j] == c.sections[j])
      && r.sections[p].section.name == prev.name && r.sections[p].section.style == prev.style
      && (forall v :: v in kept <==> v in prev.values && v in items)
      && IsSubseq(kept, prev.values)
      && (r.changed <==> c.changed || kept != prev.values)
  {
    FilterSubseq(c.sections[p].section.values, Among(items));
  }

  /** The items left to install after a section was pruned are exactly those it did not hold
      already; with them appended, the section holds exactly the items. */
  lemma PruneThenAppend(c: Command, p: nat, items: seq<string>)
    requires p < |c.sections| && c.sections[p].Sec?
    ensures var c2 := Pruned(c, p, items);
      var kept := c2.sections[p].section.values;
      var left := Filter(items, NotAmong(kept));
      (forall x :: x in left <==> x in items && x !in c.sections[p].section.values)
      && (forall x :: x in kept + left <==> x in items)
      && (forall x :: x in Appended(c2, p, left).sections[p].section.values <==> x in items)
  {
    PrunedSpec(c, p, items);
  }

  /** The changed flag makes the corrected pruning visible: the command is rendered from its
      sections, as if it had no original text, whenever a value was dropped. */
  lemma PrunedRendered(c: Command, p: nat, items: seq<string>, shared: SectionStyle)
    requires p < |c.sections| && c.sections[p].Sec?
    requires Pruned(c, p, items).sections[p] != c.sections[p]
    ensures CommandText(Pruned(c, p, items), shared) == CommandText(Pruned(c, p, items).(original := None), shared)
  {
    assert Pruned(c, p, items).changed;
  }

  /** The sections of `install(TARGETS a b RUNTIME DESTINATION ${CATKIN_PACKAGE_BIN_DESTINATION})`. */
  const BinInstall: seq<SectionItem> :=
    [Sec(Section("TARGETS", ["a", "b"], Shared)), Sec(Section("RUNTIME", [], Shared)),
     Sec(Section("DESTINATION", ["${CATKIN_PACKAGE_BIN_DESTINATION}"], Shared))]

  /** As written, a command whose install rule is already in place keeps its original text
      after a stale target was pruned from it:
      `install(TARGETS a b RUNTIME DESTINATION ${CATKIN_PACKAGE_BIN_DESTINATION})` with only `a`
      to install still renders `b`. */
  lemma PrunedAsWrittenLost(shared: SectionStyle)
    ensures var text := "install(TARGETS a b RUNTIME DESTINATION ${CATKIN_PACKAGE_BIN_DESTINATION})";
      var c := Command(0, "install", Some(text), false, "", BinInstall);
      var r := PrunedAsWritten(c, 0, ["a"]);
      r.sections[0].section.values == ["a"] && CommandText(r, shared) == Some(text)
  {
    assert Filter(["a", "b"], Among(["a"])) == ["a"] by {
      assert ["a", "b"][1..] == ["b"];
      assert ["b"][1..] == [];
    }
  }

  /** The last command visited is in the document as the loop left it, and the position kept
      for it names one of its sections. */
  ghost predicate LastHeld(st: Scan)
  {
    st.last.Some? ==>
      var l := st.last.value;
      ItemUnder(st.doc.contents, "install", l.cmd.id) == Some(Cmd(l.cmd))
      && (l.at.Some? ==> l.at.value < |l.cmd.sections| && l.cmd.sections[l.at.value].Sec?)
  }

  /** No item is left to install that was not to be installed before. */
  ghost predicate ItemsWithin(st1: Scan, st: Scan)
  {
    forall x :: x in st1.items ==> x in st.items
  }

  lemma {:induction false} NonMatchingWithin(items: seq<string>, patterns: seq<string>, fnmatch: (string, string) -> bool)
    ensures NonMatching(items, patterns, fnmatch).Ok? ==>
      forall x :: x in NonMatching(items, patterns, fnmatch).value ==> x in items
  {
    if items != [] {
      NonMatchingWithin(items[1..], patterns, fnmatch);
    }
  }

  /** Writing back a visited command keeps the index consistent and the identities, and the
      document then holds the written command. */
  lemma WrittenBack(d: CMake, x: Command, c: Command)
    requires Consistent(d) && ItemUnder(d.contents, "install", x.id) == Some(Cmd(x)) && c.id == x.id && c.name == x.name
    ensures Consistent(UpdateCmd(d, c)) && Ids(UpdateCmd(d, c).contents) == Ids(d.contents)
    ensures ItemUnder(UpdateCmd(d, c).contents, "install", c.id) == Some(Cmd(c))
  {
    SameNameOf(d.contents, x, c);
    UpdateConsistent(d, c);
    ReplaceAllIds(d.contents, c, "");
    ItemUnderReplaced(d.contents, c, "install", x.id);
  }

  lemma PlacedSpec(st: Scan, x: Command, c: Command, key: string, fnmatch: (string, string) -> bool)
    requires Consistent(st.doc) && ItemUnder(st.doc.contents, "install", x.id) == Some(Cmd(x))
    requires c.id == x.id && c.name == x.name
    ensures var r := Placed(st, c, key, fnmatch);
      r.Ok? ==> Consistent(r.value.doc) && Ids(r.value.doc.contents) == Ids(st.doc.contents)
                && LastHeld(r.value) && ItemsWithin(r.value, st)
  {
    match FindSection(c.sections, key)
    case Some(p) =>
      PrunedSpec(c, p, st.items);
      WrittenBack(st.doc, x, Pruned(c, p, st.items));
    case None =>
      WrittenBack(st.doc, x, c);
      NonMatchingWithin(st.items, [], fnmatch);
      var pattern := MultiwordSection(c, ["FILES_MATCHING", "PATTERN"]);
      if pattern.Ok? && pattern.value.Some? {
        NonMatchingWithin(st.items, c.sections[pattern.value.value].section.values, fnmatch);
      }
  }

  /** One pass of the loop keeps the index consistent and the identities, holds the last
      command, and never adds an item to install. */
  lemma VisitSpec(st: Scan, id: nat, key: string, t: InstallType, order: seq<string>, subfolder: string,
                  fnmatch: (string, string) -> bool)
    requires Consistent(st.doc) && LastHeld(st)
    ensures var r := Visit(st, id, key, t, order, subfolder, fnmatch);
      r.Ok? ==> Consistent(r.value.doc) && Ids(r.value.doc.contents) == Ids(st.doc.contents)
                && LastHeld(r.value) && ItemsWithin(r.value, st)
  {
    var x := ItemUnder(st.doc.contents, "install", id);
    if x.Some? && x.value.Cmd? {
      var checks := Checks(Destinations(t), order, subfolder);
      CheckAllSpec(x.value.cmd, checks);
      var c := CheckAll(x.value.cmd, checks);
      if c.Ok? {
        PlacedSpec(st, x.value.cmd, c.value, key, fnmatch);
      }
    }
  }

  lemma {:induction false} VisitAllSpec(st: Scan, ids: seq<nat>, key: string, t: InstallType, order: seq<string>,
                                        subfolder: string, fnmatch: (string, string) -> bool)
    requires Consistent(st.doc) && LastHeld(st)
    ensures var r := VisitAll(st, ids, key, t, order, subfolder, fnmatch);
      r.Ok? ==> Consistent(r.value.doc) && Ids(r.value.doc.contents) == Ids(st.doc.contents)
                && LastHeld(r.value) && ItemsWithin(r.value, st)
    decreases |ids|
  {
    if ids != [] {
      VisitSpec(st, ids[0], key, t, order, subfolder, fnmatch);
      var st1 := Visit(st, ids[0], key, t, order, subfolder, fnmatch);
      if st1.Ok? {
        VisitAllSpec(st1.value, ids[1..], key, t, order, subfolder, fnmatch);
      }
    }
  }

  /** The command's first item is a section `key` whose values start with `items`. */
  predicate Lists(c: Command, key: string, items: seq<string>)
  {
    |c.sections| > 0 && c.sections[0].Sec? && c.sections[0].section.name == key
    && |items| <= |c.sections[0].section.values| && c.sections[0].section.values[..|items|] == items
  }

  /** Every check holds in the command. */
  predicate AllHold(c: Command, checks: seq<(string, string)>)
  {
    forall k :: 0 <= k < |checks| ==> Holds(c, checks[k].0, checks[k].1)
  }

  /** Without a command of the type, a new install command `freshId` is filed that lists the
      items in its section `key` and holds every install section of the type; the index stays
      consistent. */
  lemma FinishedNew(st: Scan, key: string, t: InstallType, order: seq<string>, subfolder: string, freshId: nat)
    requires Consistent(st.doc) && freshId !in Ids(st.doc.contents)
    requires st.items != [] && st.last.None?
    ensures var r := Finished(st, key, t, order, subfolder, freshId);
      r.Ok? ==>
        Consistent(r.value)
        && var x := ItemUnder(r.value.contents, "install", freshId);
           x.Some? && x.value.Cmd? && Lists(x.value.cmd, key, st.items)
           && AllHold(x.value.cmd, Checks(Destinations(t), order, subfolder))
  {
    var c := AddSection(NewCommand(freshId, "install"), key, st.items, Shared);
    var d1 := AddCommand(st.doc, Cmd(c));
    var checks := Checks(Destinations(t), order, subfolder);
    var c2 := CheckAll(c, checks);
    if d1.Ok? && c2.Ok? {
      assert Finished(st, key, t, order, subfolder, freshId) == Ok(UpdateCmd(d1.value, c2.value));
      AddCommandConsistent(st.doc, Cmd(c));
      ItemUnderSpliced(st.doc, InsertionIndexOf(st.doc, Cmd(c)).value, Cmd(c), "install", freshId);
      NewCommandListed(freshId, key, st.items, checks);
      WrittenBack(d1.value, c, c2.value);
    }
  }

  /** The new command lists the items and, after install_sections, holds every check. */
  lemma NewCommandListed(freshId: nat, key: string, items: seq<string>, checks: seq<(string, string)>)
    ensures var c := AddSection(NewCommand(freshId, "install"), key, items, Shared);
      var c2 := CheckAll(c, checks);
      c2.Ok? ==> c2.value.id == freshId && c2.value.name == "install" && Lists(c2.value, key, items) && AllHold(c2.value, checks)
  {
    var c := AddSection(NewCommand(freshId, "install"), key, items, Shared);
    CheckAllSpec(c, checks);
    assert c.sections[0] == Sec(Section(key, items, Shared));
  }

  /** Otherwise the items still to install are appended to the section found in the last
      command, which is marked changed; the index stays consistent. */
  lemma FinishedAppend(st: Scan, key: string, t: InstallType, order: seq<string>, subfolder: string, freshId: nat)
    requires Consistent(st.doc) && LastHeld(st)
    requires st.items != [] && st.last.Some? && st.last.value.at.Some?
    ensures var r := Finished(st, key, t, order, subfolder, freshId);
      var l := st.last.value;
      var p := l.at.value;
      r.Ok? && Consistent(r.value)
      && var x := ItemUnder(r.value.contents, "install", l.cmd.id);
         x.Some? && x.value.Cmd? && x.value.cmd.changed
         && |x.value.cmd.sections| == |l.cmd.sections|
         && x.value.cmd.sections[p].Sec?
         && x.value.cmd.sections[p].section.values == l.cmd.sections[p].section.values + st.items
         && forall j :: 0 <= j < |l.cmd.sections| && j != p ==> x.value.cmd.sections[j] == l.cmd.sections[j]
  {
    var l := st.last.value;
    WrittenBack(st.doc, l.cmd, Appended(l.cmd, l.at.value, st.items));
  }

  /** The tail keeps the index consistent. */
  lemma FinishedConsistent(st: Scan, key: string, t: InstallType, order: seq<string>, subfolder: string, freshId: nat)
    requires Consistent(st.doc) && LastHeld(st) && freshId !in Ids(st.doc.contents)
    ensures var r := Finished(st, key, t, order, subfolder, freshId);
      r.Ok? ==> Consistent(r.value)
  {
    if st.items != [] {
      if st.last.None? {
        FinishedNew(st, key, t, order, subfolder, freshId);
      } else if st.last.value.at.Some? {
        FinishedAppend(st, key, t, order, subfolder, freshId);
      }
    }
  }

  /** install_section_check keeps content_map in step with contents, given an identity for a
      new command that no item has. */
  lemma InstallSectionCheckedConsistent(d: CMake, items: seq<string>, t: InstallType, directory: bool, subfolder: string,
                                        order: seq<string>, fnmatch: (string, string) -> bool, freshId: nat)
    requires Consistent(d) && freshId !in Ids(d.contents)
    ensures var r := InstallSectionChecked(d, items, t, directory, subfolder, order, fnmatch, freshId);
      r.Ok? ==> Consistent(r.value)
  {
    var key := SectionName(t, directory);
    var ids := ByType(d, Lookup(d.contentMap, "install"), t, subfolder);
    if ids.Ok? {
      if items == [] {
        RemovedByTypeSpec(d, ids.value, t, order);
      } else {
        var st0 := Scan(d, Joined(items, subfolder), None);
        VisitAllSpec(st0, ids.value, key, t, order, subfolder, fnmatch);
        var st := VisitAll(st0, ids.value, key, t, order, subfolder, fnmatch);
        if st.Ok? {
          FinishedConsistent(st.value, key, t, order, subfolder, freshId);
        }
      }
    }
  }

  /** Every item still to install after the loop is one of the items, joined to the
      subfolder. */
  lemma LeftoversJoined(d: CMake, items: seq<string>, ids: seq<nat>, key: string, t: InstallType, order: seq<string>,
                        subfolder: string, fnmatch: (string, string) -> bool)
    requires Consistent(d)
    ensures var r := VisitAll(Scan(d, Joined(items, subfolder), None), ids, key, t, order, subfolder, fnmatch);
      r.Ok? ==> forall x :: x in r.value.items ==> exists k :: 0 <= k < |items| && x == PathJoin(subfolder, items[k])
  {
    var st0 := Scan(d, Joined(items, subfolder), None);
    VisitAllSpec(st0, ids, key, t, order, subfolder, fnmatch);
    var r := VisitAll(st0, ids, key, t, order, subfolder, fnmatch);
    if r.Ok? {
      forall x | x in r.value.items
        ensures exists k :: 0 <= k < |items| && x == PathJoin(subfolder, items[k])
      {
        var k :| 0 <= k < |st0.items| && st0.items[k] == x;
      }
    }
  }
}
