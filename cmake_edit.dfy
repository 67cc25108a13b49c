/** Editing commands in place through `content_map` (ros_introspection/cmake.py:299-328): a
    command object reached through the index is changed where it sits in `contents`, which the
    model expresses by replacing the item with the same identity. */
module CMakeEdit {
  import opened Base
  import opened Str
  import opened CMakeDoc
  import opened CMakeFile

  // ---------------------------------------------------------------------------------------
  // In-place updates of a command object

  /** The item after the command object `c.id` has been changed to `c`. */
  function ReplaceItem(x: Content, c: Command): (r: Content)
    ensures x.Cmd? && x.cmd.id == c.id ==> r == Cmd(c)
    ensures !(x.Cmd? && x.cmd.id == c.id) ==> r == x
  {
    if x.Cmd? && x.cmd.id == c.id then Cmd(c) else x
  }

  function ReplaceAll(cs: seq<Content>, c: Command): (r: seq<Content>)
    ensures |r| == |cs| && forall j :: 0 <= j < |cs| ==> r[j] == ReplaceItem(cs[j], c)
  {
    seq(|cs|, j requires 0 <= j < |cs| => ReplaceItem(cs[j], c))
  }

  /** A change to the command object `c.id`, seen through the document: the item with that
      identity becomes `c`; the index and every other item are untouched. */
  function UpdateCmd(d: CMake, c: Command): (r: CMake)
    ensures r.contentMap == d.contentMap && r.depth == d.depth
    ensures r.contents == ReplaceAll(d.contents, c)
  {
    d.(contents := ReplaceAll(d.contents, c))
  }

  /** The object `c.id` keeps its command name. */
  predicate SameName(cs: seq<Content>, c: Command)
  {
    forall j :: 0 <= j < |cs| && cs[j].Cmd? && cs[j].cmd.id == c.id ==> cs[j].cmd.name == c.name
  }

  lemma {:induction false} ReplaceAllIds(cs: seq<Content>, c: Command, k: string)
    requires SameName(cs, c)
    ensures Ids(ReplaceAll(cs, c)) == Ids(cs)
    ensures IdsUnder(ReplaceAll(cs, c), k) == IdsUnder(cs, k)
  {
    if cs != [] {
      assert ReplaceAll(cs, c)[1..] == ReplaceAll(cs[1..], c);
      ReplaceAllIds(cs[1..], c, k);
    }
  }

  /** Changing a command object without renaming it keeps the index invariant. */
  lemma UpdateConsistent(d: CMake, c: Command)
    requires Consistent(d) && SameName(d.contents, c)
    ensures Consistent(UpdateCmd(d, c))
  {
    forall k
      ensures multiset(Lookup(d.contentMap, k)) == multiset(IdsUnder(UpdateCmd(d, c).contents, k))
    {
      ReplaceAllIds(d.contents, c, k);
    }
    ReplaceAllIds(d.contents, c, "");
  }

  lemma {:induction false} ItemUnderReplaced(cs: seq<Content>, c: Command, k: string, id: nat)
    requires SameName(cs, c)
    ensures ItemUnder(ReplaceAll(cs, c), k, id) ==
      if ItemUnder(cs, k, id).Some? then Some(ReplaceItem(ItemUnder(cs, k, id).value, c)) else None
  {
    if cs != [] {
      assert ReplaceAll(cs, c)[1..] == ReplaceAll(cs[1..], c);
      ItemUnderReplaced(cs[1..], c, k, id);
    }
  }

  lemma {:induction false} ResolveIdsReplaced(cs: seq<Content>, c: Command, k: string, ids: seq<nat>)
    requires SameName(cs, c)
    ensures ResolveIds(ReplaceAll(cs, c), k, ids) == ReplaceAll(ResolveIds(cs, k, ids), c)
  {
    if ids != [] {
      ResolveIdsReplaced(cs, c, k, ids[1..]);
      ItemUnderReplaced(cs, c, k, ids[0]);
      var rest := ResolveIds(cs, k, ids[1..]);
      match ItemUnder(cs, k, ids[0])
      case None =>
      case Some(x) =>
        assert ReplaceAll([x] + rest, c) == [ReplaceItem(x, c)] + ReplaceAll(rest, c);
    }
  }

  /** Through the index, a changed command is seen changed and nothing else is. */
  lemma ResolvedAfterUpdate(d: CMake, c: Command, k: string)
    requires SameName(d.contents, c)
    ensures Resolved(UpdateCmd(d, c), k) == ReplaceAll(Resolved(d, k), c)
  {
    ResolveIdsReplaced(d.contents, c, k, Lookup(d.contentMap, k));
  }

  /** Changing a command to what it already is changes nothing. */
  lemma UpdateUnchanged(d: CMake, c: Command)
    requires forall j :: 0 <= j < |d.contents| && d.contents[j].Cmd? && d.contents[j].cmd.id == c.id ==> d.contents[j] == Cmd(c)
    ensures UpdateCmd(d, c) == d
  {
    assert ReplaceAll(d.contents, c) == d.contents;
  }

  /** In a document with distinct identities, the item with a given command's identity is that
      command, so changing it to itself changes nothing. */
  lemma UpdateSelf(d: CMake, c: Command)
    requires Distinct(Ids(d.contents)) && Cmd(c) in d.contents
    ensures UpdateCmd(d, c) == d
  {
    var p :| 0 <= p < |d.contents| && d.contents[p] == Cmd(c);
    forall j | 0 <= j < |d.contents| && d.contents[j].Cmd? && d.contents[j].cmd.id == c.id
      ensures d.contents[j] == Cmd(c)
    {
      SameIdSamePosition(d.contents, j, p);
    }
    UpdateUnchanged(d, c);
  }

  /** A change to a command of the document that keeps its name keeps every item's name. */
  lemma SameNameOf(cs: seq<Content>, c0: Command, c: Command)
    requires Distinct(Ids(cs)) && Cmd(c0) in cs && c0.id == c.id && c0.name == c.name
    ensures SameName(cs, c)
  {
    var p :| 0 <= p < |cs| && cs[p] == Cmd(c0);
    forall j | 0 <= j < |cs| && cs[j].Cmd? && cs[j].cmd.id == c.id
      ensures cs[j].cmd.name == c.name
    {
      SameIdSamePosition(cs, j, p);
    }
  }

  // ---------------------------------------------------------------------------------------
  // get_command_section (cmake.py:299-309)

  /** What get_command_section returns: (None, None), or a command with the position of its
      section named `key` (None when it has none). */
  datatype Found = NotFound | Found(cmd: Command, at: Option<nat>)

  /** The first command of `cs` that has a section named `key`; AttributeError when an item
      before it is not a Command (a CommandGroup has no get_section). */
  function FirstWithSection(cs: seq<Content>, key: string): Result<Option<Command>, PyError>
  {
    if cs == [] then Ok(None)
    else if !cs[0].Cmd? then Err(AttributeError)
    else if GetSection(cs[0].cmd, key).Some? then Ok(Some(cs[0].cmd))
    else FirstWithSection(cs[1..], key)
  }

  /** Every item of `cs` before `p` is a command without a section named `key`. */
  predicate ClearBefore(cs: seq<Content>, key: string, p: nat)
    requires p <= |cs|
  {
    forall j :: 0 <= j < p ==> cs[j].Cmd? && GetSection(cs[j].cmd, key).None?
  }

  /** The command found has the section and only commands without it come before it; none is
      found exactly when every item is a command without it. */
  lemma {:induction false} FirstWithSectionSpec(cs: seq<Content>, key: string)
    ensures var r := FirstWithSection(cs, key);
      (r.Ok? && r.value.Some? ==>
         exists p :: 0 <= p < |cs| && cs[p] == Cmd(r.value.value) && GetSection(r.value.value, key).Some?
                     && ClearBefore(cs, key, p))
      && (r == Ok(None) <==> ClearBefore(cs, key, |cs|))
  {
    if cs != [] && cs[0].Cmd? && GetSection(cs[0].cmd, key).None? {
      var r := FirstWithSection(cs[1..], key);
      FirstWithSectionSpec(cs[1..], key);
      assert forall j :: 1 <= j < |cs| ==> cs[j] == cs[1..][j - 1];
      if r.Ok? && r.value.Some? {
        var p :| 0 <= p < |cs[1..]| && cs[1..][p] == Cmd(r.value.value) && GetSection(r.value.value, key).Some?
                 && ClearBefore(cs[1..], key, p);
        assert cs[p + 1] == Cmd(r.value.value) && ClearBefore(cs, key, p + 1);
      }
      assert ClearBefore(cs[1..], key, |cs| - 1) ==> ClearBefore(cs, key, |cs|);
      assert ClearBefore(cs, key, |cs|) ==> ClearBefore(cs[1..], key, |cs| - 1);
    }
  }

  /** get_command_section(name, key) on the commands `content_map[name]` refers to: the first
      of them with a section named `key`, else the first of them with no section. */
  function CommandSection(d: CMake, name: string, key: string): (r: Result<Found, PyError>)
    ensures r == Ok(NotFound) <==> Resolved(d, name) == []
    ensures r.Ok? && r.value.Found? ==> Cmd(r.value.cmd) in Resolved(d, name)
    ensures r.Ok? && r.value.Found? && r.value.at.Some? ==>
      var c := r.value.cmd;
      var i := r.value.at.value;
      i < |c.sections| && c.sections[i].Sec? && c.sections[i].section.name == key
      && Some(c.sections[i].section) == GetSection(c, key)
    ensures r.Ok? && r.value.Found? && r.value.at.None? ==>
      Resolved(d, name)[0] == Cmd(r.value.cmd)
      && forall x :: x in Resolved(d, name) ==> x.Cmd? && GetSection(x.cmd, key).None?
  {
    var cs := Resolved(d, name);
    if cs == [] then Ok(NotFound)
    else
      FirstWithSectionSpec(cs, key);
      var f :- FirstWithSection(cs, key);
      match f
      case Some(c) => Ok(Found(c, FindSection(c.sections, key)))
      case None =>
        assert cs[0].Cmd?;
        assert forall x :: x in cs ==> x.Cmd? && GetSection(x.cmd, key).None?;
        Ok(Found(cs[0].cmd, None))
  }

  /** get_command_section's loop over `content_map[name]`. */
  method GetCommandSection(d: CMake, name: string, key: string) returns (r: Result<Found, PyError>)
    ensures r == CommandSection(d, name, key)
  {
    var cs := Resolved(d, name);
    if |cs| == 0 {
      return Ok(NotFound);
    }
    var i := 0;
    while i < |cs|
      invariant 0 <= i <= |cs|
      invariant FirstWithSection(cs, key) == FirstWithSection(cs[i..], key)
    {
      assert cs[i..][1..] == cs[i + 1..];
      if !cs[i].Cmd? {
        return Err(AttributeError);
      }
      var at := FindSection(cs[i].cmd.sections, key);
      if at.Some? {
        return Ok(Found(cs[i].cmd, at));
      }
      i := i + 1;
    }
    return Ok(Found(cs[0].cmd, None));
  }

  // ---------------------------------------------------------------------------------------
  // section_check (cmake.py:311-328)

  /** `[item for item in items if item not in values]` */
  function Missing(items: seq<string>, values: seq<string>): (r: seq<string>)
    ensures forall x :: x in r <==> x in items && x !in values
    ensures |r| <= |items|
    ensures r == [] <==> forall x :: x in items ==> x in values
    ensures values == [] ==> r == items
  {
    if items == [] then []
    else
      assert items == [items[0]] + items[1..];
      (if items[0] in values then [] else [items[0]]) + Missing(items[1..], values)
  }

  /** `sorted(xs)`, or `xs` as given when the caller asks for no alphabetical order (the
      `alpha_order` argument roscompile/cmake.py:222 and :226 pass; the section_check of
      ros_introspection/cmake.py always sorts, which `alpha` = true models). */
  function Arrange(xs: seq<string>, alpha: bool): (r: seq<string>)
    ensures multiset(r) == multiset(xs)
    ensures alpha ==> IsSorted(r)
  {
    if alpha then Sort(xs) else xs
  }

  /** The values a section holds after section_check merged `items` into `values`. */
  function Merged(values: seq<string>, items: seq<string>, alpha: bool): seq<string>
  {
    values + Arrange(Missing(items, values), alpha)
  }

  /** The merge keeps the old values as a prefix, and what it appends is exactly the missing
      items, in sorted order: every item is then present. */
  lemma MergedSpec(values: seq<string>, items: seq<string>, alpha: bool)
    ensures Merged(values, items, alpha)[..|values|] == values
    ensures alpha ==> IsSorted(Merged(values, items, alpha)[|values|..])
    ensures !alpha ==> Merged(values, items, alpha)[|values|..] == Missing(items, values)
    ensures forall x :: x in Merged(values, items, alpha)[|values|..] <==> x in items && x !in values
    ensures forall x :: x in items ==> x in Merged(values, items, alpha)
  {
    var m := Missing(items, values);
    var t := Merged(values, items, alpha)[|values|..];
    assert t == Arrange(m, alpha);
    forall x
      ensures x in t <==> x in m
    {
      assert x in t <==> x in multiset(t);
      assert x in m <==> x in multiset(m);
    }
  }

  /** A merge into values that already hold every item appends nothing. */
  lemma MergedNothingMissing(values: seq<string>, items: seq<string>, alpha: bool)
    requires forall x :: x in items ==> x in values
    ensures Merged(values, items, alpha) == values
  {
    assert Missing(items, values) == [];
  }

  /** The command after section_check edited it: a new section holding the sorted items when
      it has none named `key`, else the merge into that section's values. Either way the
      command is marked changed. */
  function CheckedCommand(c: Command, at: Option<nat>, key: string, items: seq<string>, alpha: bool): (r: Command)
    requires at.Some? ==> at.value < |c.sections| && c.sections[at.value].Sec?
  {
    match at
    case None => AddSection(c, key, Arrange(items, alpha), Shared)
    case Some(i) =>
      var s := c.sections[i].section;
      c.(sections := c.sections[i := Sec(s.(values := Merged(s.values, items, alpha)))], changed := true)
  }

  /** The position get_command_section reports names a section of its command. */
  predicate WellFound(f: Found)
  {
    f.Found? && f.at.Some? ==> f.at.value < |f.cmd.sections| && f.cmd.sections[f.at.value].Sec?
  }

  /** The edit section_check makes once get_command_section has answered `f`: a new command
      `name` (with the identity `freshId`) is added when none exists, then the command is
      changed in place. */
  function CheckFound(d: CMake, f: Found, items: seq<string>, name: string, key: string,
                      alpha: bool, freshId: nat): (r: Result<CMake, PyError>)
    requires WellFound(f)
  {
    match f
    case NotFound =>
      var c := NewCommand(freshId, name);
      var d1 :- AddCommand(d, Cmd(c));
      Ok(UpdateCmd(d1, CheckedCommand(c, None, key, items, alpha)))
    case Found(c, at) => Ok(UpdateCmd(d, CheckedCommand(c, at, key, items, alpha)))
  }

  /** section_check(items, name, key, zero_okay): ensures a command `name` with a section `key`
      holding every item. `freshId` is the identity of the Command a missing command is created
      as. */
  function SectionCheck(d: CMake, items: seq<string>, name: string, key: string, zeroOkay: bool,
                        alpha: bool, freshId: nat): (r: Result<CMake, PyError>)
    ensures |items| == 0 && !zeroOkay ==> r == Ok(d)
  {
    if |items| == 0 && !zeroOkay then Ok(d)
    else
      var f :- CommandSection(d, name, key);
      CheckFound(d, f, items, name, key, alpha, freshId)
  }

  // ---------------------------------------------------------------------------------------
  // What section_check guarantees

  /** The command get_command_section finds for `name` has a section `key` holding `values`,
      and it is marked changed. */
  predicate FoundWith(d: CMake, name: string, key: string, values: seq<string>)
  {
    var g := CommandSection(d, name, key);
    g.Ok? && g.value.Found? && g.value.at.Some? && g.value.cmd.changed
    && g.value.cmd.sections[g.value.at.value].section.values == values
  }

  /** The values of the section get_command_section finds, or none. */
  function FoundValues(f: Found): seq<string>
  {
    if f.Found? && f.at.Some? && f.at.value < |f.cmd.sections| && f.cmd.sections[f.at.value].Sec?
    then f.cmd.sections[f.at.value].section.values else []
  }

  lemma {:induction false} FirstWithSectionReplaced(cs: seq<Content>, c: Command, c': Command, key: string, p: nat)
    requires p < |cs| && cs[p] == Cmd(c) && c.id == c'.id && GetSection(c', key).Some?
    requires forall j :: 0 <= j < p ==> cs[j].Cmd? && GetSection(cs[j].cmd, key).None?
    ensures FirstWithSection(ReplaceAll(cs, c'), key) == Ok(Some(c'))
  {
    var r := ReplaceAll(cs, c');
    if p > 0 && ReplaceItem(cs[0], c') != Cmd(c') {
      assert r[1..] == ReplaceAll(cs[1..], c');
      FirstWithSectionReplaced(cs[1..], c, c', key, p - 1);
    }
  }

  lemma {:induction false} FindSectionSet(items: seq<SectionItem>, key: string, i: nat, s: Section)
    requires FindSection(items, key) == Some(i) && s.name == key
    ensures FindSection(items[i := Sec(s)], key) == Some(i)
  {
    if i > 0 {
      assert items[i := Sec(s)][1..] == items[1..][i - 1 := Sec(s)];
      FindSectionSet(items[1..], key, i - 1, s);
    }
  }

  lemma FindSectionSnoc(items: seq<SectionItem>, key: string, s: Section)
    requires FindSection(items, key) == None && s.name == key
    ensures FindSection(items + [Sec(s)], key) == Some(|items|)
  {
    var t := items + [Sec(s)];
    assert t[|items|] == Sec(s);
    assert s in RealSections(t);
    var k := FindSection(t, key).value;
    if k < |items| {
      assert false;
    }
  }

  /** When `c` is the command found, the document after `c` is changed to `c2` (a command that
      now has the section, at the position `i`) finds `c2` and its section at `i`. */
  lemma FoundAfterUpdate(d: CMake, name: string, key: string, c: Command, c2: Command, p: nat, i: nat)
    requires Consistent(d) && c.id == c2.id && c.name == c2.name
    requires p < |Resolved(d, name)| && Resolved(d, name)[p] == Cmd(c)
    requires forall j :: 0 <= j < p ==> Resolved(d, name)[j].Cmd? && GetSection(Resolved(d, name)[j].cmd, key).None?
    requires FindSection(c2.sections, key) == Some(i)
    ensures Consistent(UpdateCmd(d, c2))
    ensures CommandSection(UpdateCmd(d, c2), name, key) == Ok(Found(c2, Some(i)))
  {
    var cs := Resolved(d, name);
    assert Cmd(c) in d.contents by { assert Cmd(c) in cs; }
    SameNameOf(d.contents, c, c2);
    UpdateConsistent(d, c2);
    ResolvedAfterUpdate(d, c2, name);
    FirstWithSectionReplaced(cs, c, c2, key, p);
  }

  /** Where in `content_map[name]` the command get_command_section found with its section is. */
  lemma FoundPosition(d: CMake, name: string, key: string) returns (p: nat)
    requires CommandSection(d, name, key).Ok? && CommandSection(d, name, key).value.Found?
    requires CommandSection(d, name, key).value.at.Some?
    ensures p < |Resolved(d, name)| && Resolved(d, name)[p] == Cmd(CommandSection(d, name, key).value.cmd)
    ensures forall j :: 0 <= j < p ==> Resolved(d, name)[j].Cmd? && GetSection(Resolved(d, name)[j].cmd, key).None?
    ensures CommandSection(d, name, key).value.at == FindSection(CommandSection(d, name, key).value.cmd.sections, key)
  {
    var cs := Resolved(d, name);
    var fw := FirstWithSection(cs, key);
    FirstWithSectionSpec(cs, key);
    p :| 0 <= p < |cs| && cs[p] == Cmd(fw.value.value) && GetSection(fw.value.value, key).Some?
         && ClearBefore(cs, key, p);
  }

  /** section_check on a command that has the section: its values are merged. */
  lemma CheckFoundAt(d: CMake, f: Found, items: seq<string>, name: string, key: string, alpha: bool, freshId: nat)
    requires Consistent(d) && CommandSection(d, name, key) == Ok(f) && f.Found? && f.at.Some?
    ensures CheckFound(d, f, items, name, key, alpha, freshId).Ok?
    ensures Consistent(CheckFound(d, f, items, name, key, alpha, freshId).value)
    ensures FoundWith(CheckFound(d, f, items, name, key, alpha, freshId).value, name, key, Merged(FoundValues(f), items, alpha))
  {
    var p := FoundPosition(d, name, key);
    MergeAt(d, f, p, items, name, key, alpha, freshId);
  }

  /** Merging into the section get_command_section found in the command at `p` of
      `content_map[name]`, when the commands before it lack the section. */
  lemma MergeAt(d: CMake, f: Found, p: nat, items: seq<string>, name: string, key: string, alpha: bool, freshId: nat)
    requires Consistent(d) && f.Found? && f.at.Some? && FindSection(f.cmd.sections, key) == f.at
    requires p < |Resolved(d, name)| && Resolved(d, name)[p] == Cmd(f.cmd)
    requires forall j :: 0 <= j < p ==> Resolved(d, name)[j].Cmd? && GetSection(Resolved(d, name)[j].cmd, key).None?
    ensures CheckFound(d, f, items, name, key, alpha, freshId).Ok?
    ensures Consistent(CheckFound(d, f, items, name, key, alpha, freshId).value)
    ensures FoundWith(CheckFound(d, f, items, name, key, alpha, freshId).value, name, key, Merged(FoundValues(f), items, alpha))
  {
    var c, i := f.cmd, f.at.value;
    var c2 := CheckedCommand(c, f.at, key, items, alpha);
    var s := c.sections[i].section;
    FindSectionSet(c.sections, key, i, s.(values := Merged(s.values, items, alpha)));
    FoundAfterUpdate(d, name, key, c, c2, p, i);
  }

  /** section_check on a command without the section: a section of the sorted items is added. */
  lemma CheckFoundNone(d: CMake, f: Found, items: seq<string>, name: string, key: string, alpha: bool, freshId: nat)
    requires Consistent(d) && CommandSection(d, name, key) == Ok(f) && f.Found? && f.at.None?
    ensures CheckFound(d, f, items, name, key, alpha, freshId).Ok?
    ensures Consistent(CheckFound(d, f, items, name, key, alpha, freshId).value)
    ensures FoundWith(CheckFound(d, f, items, name, key, alpha, freshId).value, name, key, Merged([], items, alpha))
  {
    assert Cmd(f.cmd) in Resolved(d, name);
    AddSectionAt(d, f, items, name, key, alpha, freshId);
  }

  /** Adding the section to the first command of `content_map[name]`, which lacks it. */
  lemma AddSectionAt(d: CMake, f: Found, items: seq<string>, name: string, key: string, alpha: bool, freshId: nat)
    requires Consistent(d) && f.Found? && f.at.None? && GetSection(f.cmd, key).None?
    requires Resolved(d, name) != [] && Resolved(d, name)[0] == Cmd(f.cmd)
    ensures CheckFound(d, f, items, name, key, alpha, freshId).Ok?
    ensures Consistent(CheckFound(d, f, items, name, key, alpha, freshId).value)
    ensures FoundWith(CheckFound(d, f, items, name, key, alpha, freshId).value, name, key, Merged([], items, alpha))
  {
    var c := f.cmd;
    var c2 := CheckedCommand(c, f.at, key, items, alpha);
    var sec := Section(key, Arrange(items, alpha), Shared);
    assert c2.sections == c.sections + [Sec(sec)];
    FindSectionSnoc(c.sections, key, sec);
    assert Missing(items, []) == items;
    assert sec.values == Merged([], items, alpha);
    FoundAfterUpdate(d, name, key, c, c2, 0, |c.sections|);
  }

  /** section_check when no command `name` exists: a new command holding the sorted items is
      added, and it is the one found afterwards. */
  lemma CheckFoundNew(d: CMake, items: seq<string>, name: string, key: string, alpha: bool, freshId: nat)
    requires Consistent(d) && freshId !in Ids(d.contents)
    requires CommandSection(d, name, key) == Ok(NotFound)
    requires CheckFound(d, NotFound, items, name, key, alpha, freshId).Ok?
    ensures Consistent(CheckFound(d, NotFound, items, name, key, alpha, freshId).value)
    ensures FoundWith(CheckFound(d, NotFound, items, name, key, alpha, freshId).value, name, key, Merged([], items, alpha))
  {
    var c := NewCommand(freshId, name);
    assert Resolved(d, name) == [];
    NewCommandAdded(d, c);
    NewCommandChecked(AddCommand(d, Cmd(c)).value, c, items, key, alpha);
  }

  /** A command without sections that is the only one of its name: giving it the section. */
  lemma NewCommandChecked(d1: CMake, c: Command, items: seq<string>, key: string, alpha: bool)
    requires Consistent(d1) && Resolved(d1, c.name) == [Cmd(c)] && c.sections == []
    ensures Consistent(UpdateCmd(d1, CheckedCommand(c, None, key, items, alpha)))
    ensures FoundWith(UpdateCmd(d1, CheckedCommand(c, None, key, items, alpha)), c.name, key, Merged([], items, alpha))
  {
    var c2 := CheckedCommand(c, None, key, items, alpha);
    assert FindSection(c2.sections, key) == Some(0);
    assert Missing(items, []) == items;
    FoundAfterUpdate(d1, c.name, key, c, c2, 0, 0);
  }

  /** Adding a command when none of its name exists makes it the only one filed under it. */
  lemma NewCommandAdded(d: CMake, c: Command)
    requires Consistent(d) && c.id !in Ids(d.contents) && Resolved(d, c.name) == []
    requires AddCommand(d, Cmd(c)).Ok?
    ensures Consistent(AddCommand(d, Cmd(c)).value)
    ensures Resolved(AddCommand(d, Cmd(c)).value, c.name) == [Cmd(c)]
  {
    AddCommandConsistent(d, Cmd(c));
    ResolvedAfterSplice(d, InsertionIndexOf(d, Cmd(c)).value, Cmd(c), c.name);
  }

  /** section_check(items, name, key): afterwards get_command_section finds a command `name`
      whose section `key` holds the old values of the section it found (none if it found no
      section) followed by the missing items in sorted order; the index stays consistent. */
  lemma SectionCheckHolds(d: CMake, items: seq<string>, name: string, key: string, zeroOkay: bool, alpha: bool, freshId: nat)
    requires Consistent(d) && freshId !in Ids(d.contents)
    requires !(|items| == 0 && !zeroOkay)
    requires SectionCheck(d, items, name, key, zeroOkay, alpha, freshId).Ok?
    ensures CommandSection(d, name, key).Ok?
    ensures Consistent(SectionCheck(d, items, name, key, zeroOkay, alpha, freshId).value)
    ensures FoundWith(SectionCheck(d, items, name, key, zeroOkay, alpha, freshId).value, name, key,
                      Merged(FoundValues(CommandSection(d, name, key).value), items, alpha))
  {
    var f := CommandSection(d, name, key).value;
    if f.NotFound? {
      CheckFoundNew(d, items, name, key, alpha, freshId);
    } else if f.at.Some? {
      CheckFoundAt(d, f, items, name, key, alpha, freshId);
    } else {
      CheckFoundNone(d, f, items, name, key, alpha, freshId);
    }
  }

  /** Once get_command_section finds a changed command whose section holds every item,
      section_check leaves the document as it is. */
  lemma SectionCheckStable(d: CMake, items: seq<string>, name: string, key: string, zeroOkay: bool, alpha: bool,
                           freshId: nat, values: seq<string>)
    requires Consistent(d) && FoundWith(d, name, key, values)
    requires forall x :: x in items ==> x in values
    ensures SectionCheck(d, items, name, key, zeroOkay, alpha, freshId) == Ok(d)
  {
    if !(|items| == 0 && !zeroOkay) {
      var f := CommandSection(d, name, key).value;
      var c := f.cmd;
      var i := f.at.value;
      var s := c.sections[i].section;
      MergedNothingMissing(s.values, items, alpha);
      assert s.(values := Merged(s.values, items, alpha)) == s;
      assert c.sections[i := Sec(s)] == c.sections;
      assert CheckedCommand(c, f.at, key, items, alpha) == c;
      assert Cmd(c) in d.contents by { assert Cmd(c) in Resolved(d, name); }
      UpdateSelf(d, c);
    }
  }

  /** section_check is idempotent: a second identical call changes nothing. */
  lemma SectionCheckIdempotent(d: CMake, items: seq<string>, name: string, key: string, zeroOkay: bool,
                               alpha: bool, freshId: nat, freshId2: nat)
    requires Consistent(d) && freshId !in Ids(d.contents)
    requires SectionCheck(d, items, name, key, zeroOkay, alpha, freshId).Ok?
    ensures var d' := SectionCheck(d, items, name, key, zeroOkay, alpha, freshId).value;
      SectionCheck(d', items, name, key, zeroOkay, alpha, freshId2) == Ok(d')
  {
    if !(|items| == 0 && !zeroOkay) {
      SectionCheckHolds(d, items, name, key, zeroOkay, alpha, freshId);
      var v := Merged(FoundValues(CommandSection(d, name, key).value), items, alpha);
      MergedSpec(FoundValues(CommandSection(d, name, key).value), items, alpha);
      SectionCheckStable(SectionCheck(d, items, name, key, zeroOkay, alpha, freshId).value, items, name, key,
                         zeroOkay, alpha, freshId2, v);
    }
  }
}
