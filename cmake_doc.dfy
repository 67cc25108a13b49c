/** The CMake document of ros_introspection/cmake.py: sections, commands, command groups and the
    `CMake` document with its `contents` list and its `content_map` index.

    Python objects are modelled as values. Object identity, which the source relies on when it
    edits a command it found through `content_map` or removes one with `list.remove`, is the
    `id` of a command or group: `content_map` lists ids, `contents` holds the values, and an
    in-place edit of an object is the replacement of the value with the same id. */
module CMakeDoc {
  import opened Base
  import opened Str

  // ---------------------------------------------------------------------------------------
  // Ordering (cmake.py:3-44)

  const BuildTargetCommands: seq<string> :=
    ["add_library", "add_executable", "target_link_libraries", "add_dependencies", "add_rostest"]

  /** One entry of ORDERING: a single command name, or a bucket of names that share a position. */
  datatype OrderEntry = One(name: string) | Bucket(names: seq<string>)

  const Ordering: seq<OrderEntry> := [
    One("cmake_minimum_required"), One("project"), One("set_directory_properties"), One("find_package"),
    One("pkg_check_modules"), One("catkin_python_setup"), One("add_definitions"), One("add_message_files"),
    One("add_service_files"), One("add_action_files"), One("generate_dynamic_reconfigure_options"),
    One("generate_messages"), One("catkin_package"), One("catkin_metapackage"),
    Bucket(BuildTargetCommands),
    One("include_directories"),
    Bucket(["roslint_cpp", "roslint_python", "roslint_add_test"]),
    One("catkin_add_gtest"), One("group"),
    Bucket(["install", "catkin_install_python"])]

  predicate EntryHas(e: OrderEntry, name: string)
  {
    match e
    case One(n) => n == name
    case Bucket(ns) => name in ns
  }

  /** get_ordering_index: the position of the first ORDERING entry naming the command, else
      len(ORDERING). */
  function OrderingIndex(name: string): (r: nat)
    ensures r <= |Ordering|
    ensures r < |Ordering| ==> EntryHas(Ordering[r], name)
    ensures forall j :: 0 <= j < r ==> !EntryHas(Ordering[j], name)
  {
    OrderingIndexFrom(name, 0)
  }

  function OrderingIndexFrom(name: string, i: nat): (r: nat)
    requires i <= |Ordering|
    ensures i <= r <= |Ordering|
    ensures r < |Ordering| ==> EntryHas(Ordering[r], name)
    ensures forall j :: i <= j < r ==> !EntryHas(Ordering[j], name)
    decreases |Ordering| - i
  {
    if i == |Ordering| then i
    else if EntryHas(Ordering[i], name) then i
    else OrderingIndexFrom(name, i + 1)
  }

  // ---------------------------------------------------------------------------------------
  // Sections (cmake.py:47-79)

  datatype SectionStyle = SectionStyle(prename: string, nameValSep: string, valSep: string)

  /** The value of a freshly constructed `SectionStyle()`. */
  const InitialStyle := SectionStyle("", " ", " ")

  /** `Section.__init__` has the default argument `style=SectionStyle()`: one object, created once,
      shared by every section built without an explicit style. `Shared` is a reference to that
      object (whose current value is passed to the renderers as `shared`); `Own` is a style
      object of the section's own. */
  datatype StyleRef = Shared | Own(style: SectionStyle)

  datatype Section = Section(name: string, values: seq<string>, style: StyleRef)

  function StyleOf(r: StyleRef, shared: SectionStyle): SectionStyle
  {
    match r
    case Shared => shared
    case Own(st) => st
  }

  /** Section.is_valid */
  predicate IsValidSection(s: Section) { |s.name| > 0 || |s.values| > 0 }

  /** Section.__repr__ */
  function SectionText(s: Section, shared: SectionStyle): string
  {
    var st := StyleOf(s.style, shared);
    st.prename
    + (if |s.name| > 0 then s.name + (if |s.values| > 0 then st.nameValSep else "") else "")
    + Join(st.valSep, s.values)
  }

  // ---------------------------------------------------------------------------------------
  // Commands (cmake.py:82-141)

  /** An element of `Command.sections`: a raw string (whitespace or comment between sections)
      or a Section. */
  datatype SectionItem = Fragment(text: string) | Sec(section: Section)

  datatype Command = Command(id: nat, name: string, original: Option<string>, changed: bool,
                             preParen: string, sections: seq<SectionItem>)

  /** Command(command_name), a new object with identity `id`. */
  function NewCommand(id: nat, name: string): (c: Command)
    ensures c.name == name && c.sections == [] && !c.changed && c.original == None
  {
    Command(id, name, None, false, "", [])
  }

  /** get_real_sections */
  function RealSections(items: seq<SectionItem>): (r: seq<Section>)
    ensures |r| <= |items|
    ensures forall s :: s in r <==> Sec(s) in items
  {
    if items == [] then []
    else
      var rest := RealSections(items[1..]);
      assert items == [items[0]] + items[1..];
      match items[0]
      case Fragment(_) => rest
      case Sec(s) => [s] + rest
  }

  lemma {:induction false} RealSectionsAppend(a: seq<SectionItem>, b: seq<SectionItem>)
    ensures RealSections(a + b) == RealSections(a) + RealSections(b)
  {
    if a != [] {
      assert (a + b)[1..] == a[1..] + b;
      RealSectionsAppend(a[1..], b);
    } else {
      assert a + b == b;
    }
  }

  /** The position in `items` of the first Section named `key` (get_section finds that section). */
  function FindSection(items: seq<SectionItem>, key: string): (r: Option<nat>)
    ensures r.Some? ==> r.value < |items| && items[r.value].Sec? && items[r.value].section.name == key
    ensures r.Some? ==> forall j :: 0 <= j < r.value ==> !(items[j].Sec? && items[j].section.name == key)
    ensures r.None? <==> forall s :: s in RealSections(items) ==> s.name != key
  {
    if items == [] then None
    else if items[0].Sec? && items[0].section.name == key then Some(0)
    else
      assert items == [items[0]] + items[1..];
      match FindSection(items[1..], key)
      case None => None
      case Some(j) => Some(j + 1)
  }

  /** get_section: the first real section named `key`, or None. */
  function GetSection(c: Command, key: string): (r: Option<Section>)
    ensures r.Some? ==> r.value in RealSections(c.sections) && r.value.name == key
    ensures r.None? <==> forall s :: s in RealSections(c.sections) ==> s.name != key
  {
    match FindSection(c.sections, key)
    case None => None
    case Some(i) => Some(c.sections[i].section)
  }

  /** get_sections: every real section named `key`, in order. */
  function GetSections(c: Command, key: string): (r: seq<Section>)
    ensures forall s :: s in r <==> s in RealSections(c.sections) && s.name == key
  {
    SectionsNamed(RealSections(c.sections), key)
  }

  function SectionsNamed(ss: seq<Section>, key: string): (r: seq<Section>)
    ensures |r| <= |ss|
    ensures forall s :: s in r <==> s in ss && s.name == key
  {
    if ss == [] then []
    else
      assert ss == [ss[0]] + ss[1..];
      (if ss[0].name == key then [ss[0]] else []) + SectionsNamed(ss[1..], key)
  }

  /** add_section(key, values): appends a section that shares the default style object, and marks
      the command changed. `style` is the optional third argument its callers in roscompile
      pass (installs.py:99, python_setup.py:45-46). */
  function AddSection(c: Command, key: string, values: seq<string>, style: StyleRef): (r: Command)
    ensures RealSections(r.sections) == RealSections(c.sections) + [Section(key, values, style)]
    ensures r.changed && r.id == c.id && r.name == c.name && r.original == c.original
    ensures |r.sections| == |c.sections| + 1 && r.sections[..|c.sections|] == c.sections
  {
    RealSectionsAppend(c.sections, [Sec(Section(key, values, style))]);
    c.(sections := c.sections + [Sec(Section(key, values, style))], changed := true)
  }

  /** get_tokens: the values of all real sections, in order. */
  function Tokens(c: Command): seq<string>
  {
    AllValues(RealSections(c.sections))
  }

  function AllValues(ss: seq<Section>): seq<string>
  {
    if ss == [] then [] else ss[0].values + AllValues(ss[1..])
  }

  /** first_token: `get_real_sections()[0].values[0]`, which raises IndexError (None here) when
      there is no real section or the first one has no value. */
  function FirstToken(c: Command): (r: Option<string>)
    ensures r.Some? <==> |RealSections(c.sections)| > 0 && |RealSections(c.sections)[0].values| > 0
    ensures r.Some? ==> r.value == RealSections(c.sections)[0].values[0]
  {
    var rs := RealSections(c.sections);
    if |rs| > 0 && |rs[0].values| > 0 then Some(rs[0].values[0]) else None
  }

  lemma {:induction false} AllValuesAppend(a: seq<Section>, b: seq<Section>)
    ensures AllValues(a + b) == AllValues(a) + AllValues(b)
  {
    if a != [] {
      assert (a + b)[0] == a[0];
      assert (a + b)[1..] == a[1..] + b;
      AllValuesAppend(a[1..], b);
    } else {
      assert a + b == b;
    }
  }

  lemma RealSectionsOfFragments(items: seq<SectionItem>)
    requires forall j :: 0 <= j < |items| ==> items[j].Fragment?
    ensures RealSections(items) == []
  {
  }

  /** add: appends a section (a Section object is always truthy; None is not) and marks the
      command changed. */
  function Add(c: Command, s: Option<Section>): (r: Command)
    ensures s.None? ==> r == c
    ensures s.Some? ==> RealSections(r.sections) == RealSections(c.sections) + [s.value] && r.changed
  {
    match s
    case None => c
    case Some(sec) =>
      RealSectionsAppend(c.sections, [Sec(sec)]);
      c.(sections := c.sections + [Sec(sec)], changed := true)
  }

  /** The position of the last real section among `items`. */
  function LastSection(items: seq<SectionItem>): (r: Option<nat>)
    ensures r.Some? ==> r.value < |items| && items[r.value].Sec?
    ensures r.Some? ==> forall j :: r.value < j < |items| ==> items[j].Fragment?
    ensures r.None? ==> forall j :: 0 <= j < |items| ==> items[j].Fragment?
  {
    if items == [] then None
    else if items[|items| - 1].Sec? then Some(|items| - 1)
    else LastSection(items[..|items| - 1])
  }

  /** add_token: appends `tok` to the values of the last real section, or adds an unnamed
      section holding it when there is none; the command is marked changed. */
  function AddToken(c: Command, tok: string): (r: Command)
  {
    match LastSection(c.sections)
    case None => c.(sections := c.sections + [Sec(Section("", [tok], Shared))], changed := true)
    case Some(i) =>
      var s := c.sections[i].section;
      c.(sections := c.sections[i := Sec(s.(values := s.values + [tok]))], changed := true)
  }

  /** add_token extends get_tokens by exactly the new token, keeps the command's identity and
      name, and marks it changed. */
  /** The real sections of `items` whose last real section is at `i`. */
  lemma RealSectionsAtLast(items: seq<SectionItem>, i: nat)
    requires i < |items| && items[i].Sec?
    requires forall j :: i < j < |items| ==> items[j].Fragment?
    ensures RealSections(items) == RealSections(items[..i]) + [items[i].section]
  {
    assert items == items[..i] + [items[i]] + items[i + 1..];
    RealSectionsOfFragments(items[i + 1..]);
    RealSectionsAppend(items[..i] + [items[i]], items[i + 1..]);
    RealSectionsAppend(items[..i], [items[i]]);
    assert RealSections([items[i]]) == [items[i].section];
  }

  /** add_token extends get_tokens by exactly the new token, keeps the command's identity and
      name, and marks it changed. */
  lemma AddTokenAppends(c: Command, tok: string)
    ensures Tokens(AddToken(c, tok)) == Tokens(c) + [tok]
    ensures AddToken(c, tok).changed
    ensures AddToken(c, tok).id == c.id && AddToken(c, tok).name == c.name
  {
    var items := c.sections;
    match LastSection(items)
    case None =>
      var n := Section("", [tok], Shared);
      RealSectionsOfFragments(items);
      RealSectionsAppend(items, [Sec(n)]);
      assert RealSections([Sec(n)]) == [n];
      assert RealSections(items) + [n] == [n];
      assert AllValues([n]) == [tok];
      assert Tokens(c) == [];
    case Some(i) =>
      var s := items[i].section;
      var s' := s.(values := s.values + [tok]);
      var items' := items[i := Sec(s')];
      RealSectionsAtLast(items, i);
      assert items'[..i] == items[..i];
      RealSectionsAtLast(items', i);
      var pre := RealSections(items[..i]);
      AllValuesAppend(pre, [s]);
      AllValuesAppend(pre, [s']);
      assert AllValues([s]) == s.values;
      assert AllValues([s']) == s.values + [tok];
  }

  // ---------------------------------------------------------------------------------------
  // Rendering (Command.__repr__)

  /** The characters `s[-1] not in '( \n'` and `section[0] not in ' \n'` test. */
  predicate OpensOrBreaks(c: char) { c == '(' || c == ' ' || c == '\n' }
  predicate Breaks(c: char) { c == ' ' || c == '\n' }

  function ItemText(item: SectionItem, shared: SectionStyle): string
  {
    match item
    case Fragment(t) => t
    case Sec(s) => SectionText(s, shared)
  }

  /** The loop of Command.__repr__ over `map(str, self.sections)`, starting from the text `acc`
      (never empty: it ends with the '(' at least). None is the IndexError of `section[0]` on an
      empty section text that does not follow '(', ' ' or '\n'. */
  function JoinSections(acc: string, items: seq<SectionItem>, shared: SectionStyle): (r: Option<string>)
    requires acc != []
    ensures r.Some? ==> StartsWith(r.value, acc)
    decreases |items|
  {
    if items == [] then Some(acc)
    else
      var t := ItemText(items[0], shared);
      var last := acc[|acc| - 1];
      if !OpensOrBreaks(last) && t == [] then None
      else
        var sep := if !OpensOrBreaks(last) && !Breaks(t[0]) then " " else "";
        var r := JoinSections(acc + sep + t, items[1..], shared);
        assert r.Some? ==> StartsWith(r.value, acc) by {
          if r.Some? {
            assert r.value[..|acc|] == r.value[..|acc + sep + t|][..|acc|];
          }
        }
        r
  }

  /** Command.__repr__: the original text while the command is unchanged; otherwise the name,
      pre_paren and '(' followed by the sections, with a newline before ')' when the text is
      multi-line. */
  function CommandText(c: Command, shared: SectionStyle): Option<string>
  {
    if c.original.Some? && c.original.value != [] && !c.changed then Some(c.original.value)
    else
      match JoinSections(c.name + c.preParen + "(", c.sections, shared)
      case None => None
      case Some(s) =>
        var s' := if '\n' in s && s[|s| - 1] != '\n' then s + "\n" else s;
        Some(s' + ")")
  }

  lemma CommandTextNonEmpty(c: Command, shared: SectionStyle)
    ensures CommandText(c, shared).Some? ==> CommandText(c, shared).value != []
  {
  }

  /** An unchanged command with its original text renders as that text; any other command
      renders as its name, pre_paren and '(' up to a closing ')', and when that text spans
      several lines the ')' stands on a line of its own. */
  lemma CommandTextShape(c: Command, shared: SectionStyle)
    ensures c.original.Some? && c.original.value != [] && !c.changed ==> CommandText(c, shared) == c.original
    ensures !(c.original.Some? && c.original.value != [] && !c.changed) && CommandText(c, shared).Some? ==>
      var t := CommandText(c, shared).value;
      StartsWith(t, c.name + c.preParen + "(") && |t| >= 2 && t[|t| - 1] == ')'
      && ('\n' in t[..|t| - 1] ==> t[|t| - 2] == '\n')
  {
    if !(c.original.Some? && c.original.value != [] && !c.changed) && CommandText(c, shared).Some? {
      var head := c.name + c.preParen + "(";
      CloseText(head, JoinSections(head, c.sections, shared).value);
    }
  }

  /** The end of Command.__repr__: a newline when the text is multi-line, then ')'. */
  lemma CloseText(head: string, s: string)
    requires head != [] && StartsWith(s, head)
    ensures var s' := if '\n' in s && s[|s| - 1] != '\n' then s + "\n" else s;
      var t := s' + ")";
      StartsWith(t, head) && |t| >= 2 && t[|t| - 1] == ')'
      && ('\n' in t[..|t| - 1] ==> t[|t| - 2] == '\n')
  {
    var s' := if '\n' in s && s[|s| - 1] != '\n' then s + "\n" else s;
    var t := s' + ")";
    assert t[..|t| - 1] == s';
    assert s'[..|s|] == s;
    assert t[..|head|] == s'[..|head|];
  }

  // ---------------------------------------------------------------------------------------
  // Documents (cmake.py:144-154, 330-331)

  /** An element of `CMake.contents`: a raw string, a Command, or a CommandGroup
      (initial_tag, sub, close_tag), the latter with the identity `id`. */
  datatype Content =
    | Raw(text: string)
    | Cmd(cmd: Command)
    | Group(id: nat, initialTag: Command, sub: CMake, closeTag: Command)

  /** A CMake object: `contents`, the `content_map` index from a command name (or 'group') to
      the ids of the items filed under it, and the nesting `depth`. */
  datatype CMake = CMake(contents: seq<Content>, contentMap: map<string, seq<nat>>, depth: nat)

  function ContentText(c: Content, shared: SectionStyle): Option<string>
    decreases c, 1
  {
    match c
    case Raw(t) => Some(t)
    case Cmd(cmd) => CommandText(cmd, shared)
    case Group(_, i, sub, e) =>
      // CommandGroup.__repr__
      match (CommandText(i, shared), ContentsText(sub.contents, shared), CommandText(e, shared))
      case (Some(a), Some(b), Some(d)) => Some(a + b + d)
      case _ => None
  }

  /** `''.join(map(str, contents))`: CMake.__repr__ on the document's contents. */
  function ContentsText(cs: seq<Content>, shared: SectionStyle): Option<string>
    decreases cs, 0
  {
    if cs == [] then Some("")
    else
      match (ContentText(cs[0], shared), ContentsText(cs[1..], shared))
      case (Some(a), Some(b)) => Some(a + b)
      case _ => None
  }

  /** CMake.__repr__ */
  function DocText(d: CMake, shared: SectionStyle): Option<string>
  {
    ContentsText(d.contents, shared)
  }

  lemma {:induction false} ContentsTextAppend(a: seq<Content>, b: seq<Content>, shared: SectionStyle)
    ensures ContentsText(a + b, shared) ==
      (if ContentsText(a, shared).Some? && ContentsText(b, shared).Some?
       then Some(ContentsText(a, shared).value + ContentsText(b, shared).value) else None)
  {
    if a == [] {
      assert a + b == b;
      if ContentsText(b, shared).Some? {
        assert "" + ContentsText(b, shared).value == ContentsText(b, shared).value;
      }
    } else {
      assert (a + b)[0] == a[0];
      assert (a + b)[1..] == a[1..] + b;
      ContentsTextAppend(a[1..], b, shared);
      var h := ContentText(a[0], shared);
      if h.Some? && ContentsText(a[1..], shared).Some? && ContentsText(b, shared).Some? {
        assert h.value + (ContentsText(a[1..], shared).value + ContentsText(b, shared).value)
            == (h.value + ContentsText(a[1..], shared).value) + ContentsText(b, shared).value;
      }
    }
  }
}
