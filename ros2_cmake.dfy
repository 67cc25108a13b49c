/** The CMake half of the ROS 2 conversion (magical_ros2_conversion_tool/cmake.py): passes over
    a parsed CMakeLists.txt that turn catkin idioms into ament ones. Each pass is a loop over
    `content_map[name]` that changes command objects in place, renames them or removes them. */
module Ros2CMake {
  import opened Base
  import opened Str
  import opened CMakeDoc
  import opened CMakeFile
  import opened CMakeEdit
  import opened CMakePass
  import opened InstallCheck

  /** CATKIN_CMAKE_VARS: the catkin destination variables and the install paths replacing them. */
  const CatkinCMakeVars: map<string, string> := map[
    "${CATKIN_GLOBAL_BIN_DESTINATION}" := "bin",
    "${CATKIN_GLOBAL_INCLUDE_DESTINATION}" := "include",
    "${CATKIN_GLOBAL_LIB_DESTINATION}" := "lib",
    "${CATKIN_GLOBAL_LIBEXEC_DESTINATION}" := "lib",
    "${CATKIN_GLOBAL_SHARE_DESTINATION}" := "share",
    "${CATKIN_PACKAGE_BIN_DESTINATION}" := "lib/${PROJECT_NAME}",
    "${CATKIN_PACKAGE_INCLUDE_DESTINATION}" := "include/${PROJECT_NAME}",
    "${CATKIN_PACKAGE_LIB_DESTINATION}" := "lib",
    "${CATKIN_PACKAGE_SHARE_DESTINATION}" := "share/${PROJECT_NAME}"
  ]

  /** REPLACE_PACKAGES (util.py): catkin packages and the ROS 2 packages that succeed them. */
  const ReplacePackages: map<string, string> :=
    map["tf" := "tf2_ros", "roscpp" := "rclcpp", "rostest" := "ament_cmake_gtest"]

  /** `REPLACE_PACKAGES.get(k, k)` */
  function Successor(k: string): string
  {
    if k in ReplacePackages then ReplacePackages[k] else k
  }

  // ---------------------------------------------------------------------------------------
  // update_installation_variables (cmake.py:68-74)

  /** A destination value with a catkin variable replaced by its install path. */
  function Destination(v: string): string
  {
    if v in CatkinCMakeVars then CatkinCMakeVars[v] else v
  }

  predicate IsDestination(x: SectionItem)
  {
    x.Sec? && x.section.name == "DESTINATION"
  }

  /** A DESTINATION section holding a catkin variable. */
  predicate HasCatkinVar(x: SectionItem)
  {
    IsDestination(x) && exists i :: 0 <= i < |x.section.values| && x.section.values[i] in CatkinCMakeVars
  }

  function DestinationItem(x: SectionItem): SectionItem
  {
    if IsDestination(x) then
      Sec(x.section.(values := seq(|x.section.values|, i requires 0 <= i < |x.section.values| => Destination(x.section.values[i]))))
    else x
  }

  /** One install command after the loops over its DESTINATION sections and their values: the
      command is marked changed when some value was replaced. */
  function VarsUpdated(c: Command): Command
  {
    c.(sections := seq(|c.sections|, j requires 0 <= j < |c.sections| => DestinationItem(c.sections[j])),
       changed := c.changed || exists j :: 0 <= j < |c.sections| && HasCatkinVar(c.sections[j]))
  }

  /** The loops over the DESTINATION sections of one command and over their values. */
  method UpdateDestinations(c: Command) returns (r: Command)
    ensures r == VarsUpdated(c)
  {
    var items := c.sections;
    var changed := c.changed;
    for j := 0 to |items|
      invariant |items| == |c.sections|
      invariant forall l :: 0 <= l < j ==> items[l] == DestinationItem(c.sections[l])
      invariant forall l :: j <= l < |items| ==> items[l] == c.sections[l]
      invariant changed == (c.changed || exists l :: 0 <= l < j && HasCatkinVar(c.sections[l]))
    {
      if IsDestination(items[j]) {
        var vs := items[j].section.values;
        ghost var vs0 := vs;
        ghost var before := changed;
        for i := 0 to |vs|
          invariant |vs| == |vs0|
          invariant forall m :: 0 <= m < i ==> vs[m] == Destination(vs0[m])
          invariant forall m :: i <= m < |vs| ==> vs[m] == vs0[m]
          invariant changed == (before || exists m :: 0 <= m < i && vs0[m] in CatkinCMakeVars)
        {
          if vs[i] in CatkinCMakeVars {
            vs := vs[i := CatkinCMakeVars[vs[i]]];
            changed := true;
          }
        }
        items := items[j := Sec(items[j].section.(values := vs))];
      }
    }
    r := c.(sections := items, changed := changed);
  }

  /** No DESTINATION section of the command holds a catkin variable. */
  predicate NoCatkinVars(c: Command)
  {
    forall j :: 0 <= j < |c.sections| ==> !HasCatkinVar(c.sections[j])
  }

  /** Only DESTINATION values change: each catkin variable becomes its install path, every other
      value and every other item stays, and the command is marked changed exactly when a
      variable was replaced; no variable is left behind. */
  lemma VarsUpdatedSpec(c: Command)
    ensures var r := VarsUpdated(c);
      r.id == c.id && r.name == c.name && r.original == c.original && |r.sections| == |c.sections|
      && (forall j :: 0 <= j < |c.sections| && !IsDestination(c.sections[j]) ==> r.sections[j] == c.sections[j])
      && (forall j :: 0 <= j < |c.sections| && IsDestination(c.sections[j]) ==>
            var s := c.sections[j].section;
            IsDestination(r.sections[j]) && r.sections[j].section.style == s.style
            && |r.sections[j].section.values| == |s.values|
            && forall i :: 0 <= i < |s.values| ==>
                 (s.values[i] in CatkinCMakeVars ==> r.sections[j].section.values[i] == CatkinCMakeVars[s.values[i]])
                 && (s.values[i] !in CatkinCMakeVars ==> r.sections[j].section.values[i] == s.values[i]))
      && (r.changed <==> c.changed || exists j :: 0 <= j < |c.sections| && HasCatkinVar(c.sections[j]))
      && NoCatkinVars(r)
  {
    InstallPathsPlain();
  }

  /** No install path is itself a catkin variable. */
  lemma InstallPathsPlain()
    ensures forall v :: v in CatkinCMakeVars ==> CatkinCMakeVars[v] !in CatkinCMakeVars
  {
  }

  /** Running the replacement a second time changes nothing. */
  lemma VarsUpdatedIdempotent(c: Command)
    ensures VarsUpdated(VarsUpdated(c)) == VarsUpdated(c)
  {
    var r := VarsUpdated(c);
    VarsUpdatedSpec(c);
    forall j | 0 <= j < |r.sections|
      ensures DestinationItem(r.sections[j]) == r.sections[j]
    {
      if IsDestination(r.sections[j]) {
        var vs := r.sections[j].section.values;
        assert seq(|vs|, i requires 0 <= i < |vs| => Destination(vs[i])) == vs;
      }
    }
    assert VarsUpdated(r).sections == r.sections;
  }

  function VarsStep(c: Command, u: ()): Result<(Command, ()), PyError>
  {
    Ok((VarsUpdated(c), u))
  }

  /** update_installation_variables(cmake) */
  function InstallationVariablesUpdated(d: CMake): Result<CMake, PyError>
  {
    var p :- EditEach(d, "install", Lookup(d.contentMap, "install"), (), VarsStep);
    Ok(p.0)
  }

  method UpdateInstallationVariables(d: CMake) returns (r: Result<CMake, PyError>)
    ensures r == InstallationVariablesUpdated(d)
  {
    var p := EditPass(d, "install", (), VarsStep);
    if p.Err? {
      return Err(p.error);
    }
    return Ok(p.value.0);
  }

  /** In a consistent file the pass succeeds, keeps the index, replaces every install command
      where it stands by VarsUpdated and touches no other item. */
  lemma InstallationVariablesSpec(d: CMake)
    requires Consistent(d)
    ensures InstallationVariablesUpdated(d).Ok?
    ensures var r := InstallationVariablesUpdated(d).value;
      Consistent(r) && r.contentMap == d.contentMap && |r.contents| == |d.contents|
      && forall j :: 0 <= j < |d.contents| ==>
           if d.contents[j].Cmd? && d.contents[j].cmd.name == "install"
           then r.contents[j] == Cmd(VarsUpdated(d.contents[j].cmd)) && NoCatkinVars(r.contents[j].cmd)
           else r.contents[j] == d.contents[j]
  {
    var ids := Lookup(d.contentMap, "install");
    forall c: Command, u: ()
      ensures VarsStep(c, u).Ok? && VarsStep(c, u).value.0.id == c.id && VarsStep(c, u).value.0.name == c.name
    {
    }
    FiledIds(d, "install");
    EditEachOk(d, "install", ids, (), VarsStep);
    EditEachSpec(d, "install", ids, (), VarsStep);
    var r := InstallationVariablesUpdated(d).value;
    forall j | 0 <= j < |d.contents| && d.contents[j].Cmd? && d.contents[j].cmd.name == "install"
      ensures r.contents[j] == Cmd(VarsUpdated(d.contents[j].cmd)) && NoCatkinVars(r.contents[j].cmd)
    {
      assert Visited(d.contents[j], "install", ids);
      VarsUpdatedSpec(d.contents[j].cmd);
    }
  }

  // ---------------------------------------------------------------------------------------
  // set_up_include_exports (cmake.py:97-104)

  const CatkinIncludeDirs := "${catkin_INCLUDE_DIRS}"

  /** One include_directories command: `cmd.sections[0]` raises IndexError on a command without
      sections and AttributeError when it is a plain string; the first occurrence of the catkin
      include variable is removed from it. */
  function IncludeExported(c: Command): Result<Command, PyError>
  {
    if |c.sections| == 0 then Err(IndexError)
    else if c.sections[0].Fragment? then Err(AttributeError)
    else
      var s := c.sections[0].section;
      if CatkinIncludeDirs in s.values then
        Ok(c.(sections := c.sections[0 := Sec(s.(values := RemoveFirst(s.values, CatkinIncludeDirs)))], changed := true))
      else Ok(c)
  }

  /** `xs.remove(x)` deletes the first occurrence and keeps the order of the rest. */
  lemma {:induction false} RemoveFirstAt(xs: seq<string>, x: string) returns (p: nat)
    requires x in xs
    ensures p < |xs| && xs[p] == x && x !in xs[..p]
    ensures RemoveFirst(xs, x) == xs[..p] + xs[p + 1..]
  {
    if xs[0] == x {
      p := 0;
      assert RemoveFirst(xs, x) == xs[1..];
    } else {
      var t := xs[1..];
      assert xs == [xs[0]] + t;
      var q := RemoveFirstAt(t, x);
      p := q + 1;
      assert RemoveFirst(xs, x) == [xs[0]] + RemoveFirst(t, x);
      ConsSplit(xs, q);
    }
  }

  lemma ConsSplit(xs: seq<string>, q: nat)
    requires q + 1 < |xs|
    ensures xs[..q + 1] == [xs[0]] + xs[1..][..q] && xs[q + 2..] == xs[1..][q + 1..]
  {
  }

  /** The step fails exactly when the first section is missing or a plain string; otherwise the
      first occurrence of the catkin include variable is deleted, and only then is the command
      marked changed; the other sections stay. */
  lemma IncludeExportedSpec(c: Command)
    ensures IncludeExported(c).Ok? <==> |c.sections| > 0 && c.sections[0].Sec?
    ensures IncludeExported(c).Ok? ==>
      var r := IncludeExported(c).value;
      var v := c.sections[0].section.values;
      r.id == c.id && r.name == c.name && |r.sections| == |c.sections| && r.sections[1..] == c.sections[1..]
      && r.sections[0].Sec? && r.sections[0].section.name == c.sections[0].section.name
      && (r.changed <==> c.changed || CatkinIncludeDirs in v)
      && (CatkinIncludeDirs !in v ==> r == c)
      && (CatkinIncludeDirs in v ==>
            exists p :: 0 <= p < |v| && v[p] == CatkinIncludeDirs && CatkinIncludeDirs !in v[..p]
                        && r.sections[0].section.values == v[..p] + v[p + 1..])
  {
    if IncludeExported(c).Ok? {
      var v := c.sections[0].section.values;
      if CatkinIncludeDirs in v {
        var p := RemoveFirstAt(v, CatkinIncludeDirs);
      }
    }
  }

  function IncludeStep(c: Command, u: ()): Result<(Command, ()), PyError>
  {
    Stateless(IncludeExported(c), u)
  }

  /** set_up_include_exports(package), on the package's CMake file. */
  function IncludeExportsSetUp(d: CMake): Result<CMake, PyError>
  {
    var p :- EditEach(d, "include_directories", Lookup(d.contentMap, "include_directories"), (), IncludeStep);
    Ok(p.0)
  }

  method SetUpIncludeExports(d: CMake) returns (r: Result<CMake, PyError>)
    ensures r == IncludeExportsSetUp(d)
  {
    var p := EditPass(d, "include_directories", (), IncludeStep);
    if p.Err? {
      return Err(p.error);
    }
    return Ok(p.value.0);
  }

  /** Every include_directories command has a first section that is a real section. */
  predicate IncludesWellFormed(d: CMake)
  {
    forall j :: 0 <= j < |d.contents| && d.contents[j].Cmd? && d.contents[j].cmd.name == "include_directories" ==>
      |d.contents[j].cmd.sections| > 0 && d.contents[j].cmd.sections[0].Sec?
  }

  /** In a consistent file the pass succeeds when every include_directories command has a real
      first section. */
  lemma IncludeExportsOk(d: CMake)
    requires Consistent(d) && IncludesWellFormed(d)
    ensures IncludeExportsSetUp(d).Ok?
  {
    var name := "include_directories";
    var ids := Lookup(d.contentMap, name);
    forall c: Command, u: ()
      ensures IncludeStep(c, u).Ok? ==> IncludeStep(c, u).value.0.id == c.id && IncludeStep(c, u).value.0.name == c.name
    {
    }
    FiledIds(d, name);
    forall id | id in ids && ItemUnder(d.contents, name, id).Some? && ItemUnder(d.contents, name, id).value.Cmd?
      ensures forall u: () :: IncludeStep(ItemUnder(d.contents, name, id).value.cmd, u).Ok?
    {
      var x := ItemUnder(d.contents, name, id).value;
      var q :| 0 <= q < |d.contents| && d.contents[q] == x;
    }
    EditEachOk(d, name, ids, (), IncludeStep);
  }

  /** The pass keeps the index and replaces each include_directories command, where it stands,
      by IncludeExported, touching no other item. */
  lemma IncludeExportsSpec(d: CMake)
    requires Consistent(d)
    ensures IncludeExportsSetUp(d).Ok? ==>
      var r := IncludeExportsSetUp(d).value;
      Consistent(r) && r.contentMap == d.contentMap && |r.contents| == |d.contents|
      && forall j :: 0 <= j < |d.contents| ==>
           if d.contents[j].Cmd? && d.contents[j].cmd.name == "include_directories"
           then IncludeExported(d.contents[j].cmd).Ok? && r.contents[j] == Cmd(IncludeExported(d.contents[j].cmd).value)
           else r.contents[j] == d.contents[j]
  {
    var name := "include_directories";
    var ids := Lookup(d.contentMap, name);
    forall c: Command, u: ()
      ensures IncludeStep(c, u).Ok? ==> IncludeStep(c, u).value.0.id == c.id && IncludeStep(c, u).value.0.name == c.name
    {
    }
    FiledIds(d, name);
    EditEachSpec(d, name, ids, (), IncludeStep);
  }

  // ---------------------------------------------------------------------------------------
  // rename_commands (cmake.py:107-114)

  function RenamedCmd(c: Command, target: string): Command
  {
    c.(name := target, changed := true)
  }

  /** The item after the command objects with identities in `ids` are renamed. */
  function RenameItem(x: Content, ids: seq<nat>, target: string): Content
  {
    if x.Cmd? && x.cmd.id in ids then Cmd(RenamedCmd(x.cmd, target)) else x
  }

  /** rename_commands(cmake, source, target): every command object filed under `source` is
      renamed and marked changed, then `content_map[target]` is set to the list filed under
      `source` (the empty list of a defaultdict when there is none) and `source` is deleted. */
  function Renamed(d: CMake, source: string, target: string): CMake
  {
    var ids := Lookup(d.contentMap, source);
    CMake(seq(|d.contents|, j requires 0 <= j < |d.contents| => RenameItem(d.contents[j], ids, target)),
          d.contentMap[target := ids] - {source}, d.depth)
  }

  method RenameCommands(d: CMake, source: string, target: string) returns (r: CMake)
    ensures r == Renamed(d, source, target)
  {
    var ids := Lookup(d.contentMap, source);
    var cs := d.contents;
    for i := 0 to |ids|
      invariant |cs| == |d.contents|
      invariant forall j :: 0 <= j < |cs| ==> cs[j] == RenameItem(d.contents[j], ids[..i], target)
    {
      assert ids[..i + 1] == ids[..i] + [ids[i]];
      cs := seq(|cs|, j requires 0 <= j < |cs| => RenameItem(cs[j], [ids[i]], target));
    }
    assert ids[..|ids|] == ids;
    var m := d.contentMap[target := ids];
    r := CMake(cs, m - {source}, d.depth);
  }

  /** The contents with every command named `source` renamed, position by position. */
  function ByName(cs: seq<Content>, source: string, target: string): (r: seq<Content>)
    ensures |r| == |cs|
  {
    seq(|cs|, j requires 0 <= j < |cs| =>
      if cs[j].Cmd? && cs[j].cmd.name == source then Cmd(RenamedCmd(cs[j].cmd, target)) else cs[j])
  }

  /** In a consistent file, the objects renamed are exactly the commands named `source`. */
  lemma RenamedSpec(d: CMake, source: string, target: string)
    requires Consistent(d)
    ensures Renamed(d, source, target).contents == ByName(d.contents, source, target)
  {
    var cs := d.contents;
    var ids := Lookup(d.contentMap, source);
    FiledIds(d, source);
    forall j | 0 <= j < |cs| && cs[j].Cmd? && cs[j].cmd.id in ids
      ensures cs[j].cmd.name == source
    {
      assert cs[j].cmd.id in multiset(IdsUnder(cs, source));
      var y := ItemUnder(cs, source, cs[j].cmd.id).value;
      var q :| 0 <= q < |cs| && cs[q] == y;
      SameIdSamePosition(cs, j, q);
    }
  }

  lemma {:induction false} ByNameIds(cs: seq<Content>, source: string, target: string, k: string)
    requires source != target && source != "group" && IdsUnder(cs, target) == []
    ensures Ids(ByName(cs, source, target)) == Ids(cs)
    ensures IdsUnder(ByName(cs, source, target), k) ==
      if k == target then IdsUnder(cs, source) else if k == source then [] else IdsUnder(cs, k)
  {
    if cs != [] {
      assert ByName(cs, source, target)[1..] == ByName(cs[1..], source, target);
      assert IdsUnder(cs[1..], target) == [];
      ByNameIds(cs[1..], source, target, k);
    }
  }

  /** Renaming keeps the index invariant when the two names differ, the source is a command
      name and no command had the target name yet (content_map[target] is overwritten). */
  lemma RenamedConsistent(d: CMake, source: string, target: string)
    requires Consistent(d) && source != target && source != "group" && Lookup(d.contentMap, target) == []
    ensures Consistent(Renamed(d, source, target))
  {
    RenamedSpec(d, source, target);
    var r := Renamed(d, source, target);
    assert IdsUnder(d.contents, target) == [] by {
      assert multiset(IdsUnder(d.contents, target)) == multiset{};
    }
    ByNameIds(d.contents, source, target, "");
    forall k
      ensures multiset(Lookup(r.contentMap, k)) == multiset(IdsUnder(r.contents, k))
    {
      RenamedIndexAt(d, source, target, k);
    }
  }

  lemma RenamedIndexAt(d: CMake, source: string, target: string, k: string)
    requires Consistent(d) && source != target && source != "group" && IdsUnder(d.contents, target) == []
    requires Renamed(d, source, target).contents == ByName(d.contents, source, target)
    ensures multiset(Lookup(Renamed(d, source, target).contentMap, k)) == multiset(IdsUnder(Renamed(d, source, target).contents, k))
  {
    ByNameIds(d.contents, source, target, k);
    LookupMoved(d.contentMap, source, target, k);
  }

  /** The index after `content_map[target] = content_map[source]; del content_map[source]`. */
  lemma LookupMoved(m: map<string, seq<nat>>, source: string, target: string, k: string)
    requires source != target
    ensures Lookup(m[target := Lookup(m, source)] - {source}, k) ==
      if k == target then Lookup(m, source) else if k == source then [] else Lookup(m, k)
  {
  }

  // ---------------------------------------------------------------------------------------
  // set_up_catkin_libs (cmake.py:93-94, 117-127)

  const CatkinLibraries := "${catkin_LIBRARIES}"

  /** `['"{}"'.format(s) for s in get_clean_build_dependencies(package)]`, from the package's
      build dependencies. */
  function QuotedDeps(buildDeps: seq<string>): (r: seq<string>)
    ensures |r| == |buildDeps|
  {
    seq(|buildDeps|, i requires 0 <= i < |buildDeps| => "\"" + Successor(buildDeps[i]) + "\"")
  }

  predicate LinksCatkin(x: SectionItem)
  {
    x.Sec? && CatkinLibraries in x.section.values
  }

  function LinkedItem(x: SectionItem, deps: seq<string>): SectionItem
  {
    if LinksCatkin(x) then Sec(x.section.(values := RemoveFirst(x.section.values, CatkinLibraries) + deps)) else x
  }

  /** Some real section among the first `j` names the catkin libraries. */
  predicate LinksBefore(xs: seq<SectionItem>, j: int)
  {
    exists l :: 0 <= l < j && l < |xs| && LinksCatkin(xs[l])
  }

  lemma LinksBeforeStep(xs: seq<SectionItem>, j: nat)
    requires j < |xs|
    ensures LinksBefore(xs, j + 1) == (LinksBefore(xs, j) || LinksCatkin(xs[j]))
  {
    if LinksBefore(xs, j + 1) && !LinksCatkin(xs[j]) {
      var l :| 0 <= l < j + 1 && l < |xs| && LinksCatkin(xs[l]);
      assert l < j;
    }
  }

  /** One ament_target_dependencies command after the loop over its real sections. */
  function LibsFixed(c: Command, deps: seq<string>): Command
  {
    c.(sections := seq(|c.sections|, j requires 0 <= j < |c.sections| => LinkedItem(c.sections[j], deps)),
       changed := c.changed || LinksBefore(c.sections, |c.sections|))
  }

  /** The loop over the real sections of one command. */
  method FixCatkinLibraries(c: Command, deps: seq<string>) returns (r: Command)
    ensures r == LibsFixed(c, deps)
  {
    var items := c.sections;
    var changed := c.changed;
    for j := 0 to |items|
      invariant |items| == |c.sections|
      invariant forall l :: 0 <= l < j ==> items[l] == LinkedItem(c.sections[l], deps)
      invariant forall l :: j <= l < |items| ==> items[l] == c.sections[l]
      invariant changed == (c.changed || LinksBefore(c.sections, j))
    {
      LinksBeforeStep(c.sections, j);
      if LinksCatkin(items[j]) {
        items := items[j := LinkedItem(items[j], deps)];
        changed := true;
      }
    }
    assert items == LibsFixed(c, deps).sections;
    r := c.(sections := items, changed := changed);
  }

  /** In each real section naming the catkin libraries, the first occurrence of the variable is
      deleted and the dependencies are appended after the remaining values; no other item
      changes, and the command is marked changed exactly when some section named it. */
  lemma LibsFixedSpec(c: Command, deps: seq<string>)
    ensures var r := LibsFixed(c, deps);
      r.id == c.id && r.name == c.name && |r.sections| == |c.sections|
      && (r.changed <==> c.changed || exists j :: 0 <= j < |c.sections| && LinksCatkin(c.sections[j]))
      && forall j :: 0 <= j < |c.sections| ==>
           if LinksCatkin(c.sections[j]) then
             var v := c.sections[j].section.values;
             r.sections[j].Sec? && r.sections[j].section.name == c.sections[j].section.name
             && exists p :: 0 <= p < |v| && v[p] == CatkinLibraries && CatkinLibraries !in v[..p]
                            && r.sections[j].section.values == v[..p] + v[p + 1..] + deps
           else r.sections[j] == c.sections[j]
  {
    var r := LibsFixed(c, deps);
    forall j | 0 <= j < |c.sections| && LinksCatkin(c.sections[j])
      ensures var v := c.sections[j].section.values;
        exists p :: 0 <= p < |v| && v[p] == CatkinLibraries && CatkinLibraries !in v[..p]
                    && r.sections[j].section.values == v[..p] + v[p + 1..] + deps
    {
      var p := RemoveFirstAt(c.sections[j].section.values, CatkinLibraries);
    }
  }

  function LibsStep(deps: seq<string>): Edit<()>
  {
    (c: Command, u: ()) => Ok((LibsFixed(c, deps), u))
  }

  /** set_up_catkin_libs(package): target_link_libraries becomes ament_target_dependencies,
      whose sections then trade the catkin libraries for the package's build dependencies. */
  function CatkinLibsSetUp(d: CMake, buildDeps: seq<string>): Result<CMake, PyError>
  {
    var d1 := Renamed(d, "target_link_libraries", "ament_target_dependencies");
    var p :- EditEach(d1, "ament_target_dependencies", Lookup(d1.contentMap, "ament_target_dependencies"), (),
                      LibsStep(QuotedDeps(buildDeps)));
    Ok(p.0)
  }

  method SetUpCatkinLibs(d: CMake, buildDeps: seq<string>) returns (r: Result<CMake, PyError>)
    ensures r == CatkinLibsSetUp(d, buildDeps)
  {
    var deps := QuotedDeps(buildDeps);
    var d1 := RenameCommands(d, "target_link_libraries", "ament_target_dependencies");
    var p := EditPass(d1, "ament_target_dependencies", (), LibsStep(deps));
    if p.Err? {
      return Err(p.error);
    }
    return Ok(p.value.0);
  }

  /** In a consistent file with no ament_target_dependencies command yet, the pass succeeds and
      keeps the index; each target_link_libraries command becomes, where it stands, the
      renamed command with its catkin libraries traded for the dependencies; nothing else
      changes. */
  lemma CatkinLibsSpec(d: CMake, buildDeps: seq<string>)
    requires Consistent(d) && Lookup(d.contentMap, "ament_target_dependencies") == []
    ensures CatkinLibsSetUp(d, buildDeps).Ok?
    ensures var r := CatkinLibsSetUp(d, buildDeps).value;
      Consistent(r) && |r.contents| == |d.contents|
      && forall j :: 0 <= j < |d.contents| ==>
           if d.contents[j].Cmd? && d.contents[j].cmd.name == "target_link_libraries"
           then r.contents[j] == Cmd(LibsFixed(RenamedCmd(d.contents[j].cmd, "ament_target_dependencies"), QuotedDeps(buildDeps)))
           else r.contents[j] == d.contents[j]
  {
    var source, target := "target_link_libraries", "ament_target_dependencies";
    var deps := QuotedDeps(buildDeps);
    var f := LibsStep(deps);
    var d1 := Renamed(d, source, target);
    RenamedSpec(d, source, target);
    RenamedConsistent(d, source, target);
    var ids := Lookup(d1.contentMap, target);
    forall c: Command, u: ()
      ensures f(c, u).Ok? && f(c, u).value.0.id == c.id && f(c, u).value.0.name == c.name
    {
    }
    FiledIds(d1, target);
    EditEachOk(d1, target, ids, (), f);
    EditEachSpec(d1, target, ids, (), f);
    var r := CatkinLibsSetUp(d, buildDeps).value;
    assert IdsUnder(d.contents, target) == [] by {
      assert multiset(IdsUnder(d.contents, target)) == multiset{};
    }
    forall j | 0 <= j < |d.contents|
      ensures if d.contents[j].Cmd? && d.contents[j].cmd.name == source
              then r.contents[j] == Cmd(LibsFixed(RenamedCmd(d.contents[j].cmd, target), deps))
              else r.contents[j] == d.contents[j]
    {
      if !(d.contents[j].Cmd? && d.contents[j].cmd.name == source) && d.contents[j].Cmd? {
        InIdsUnder(d.contents, j);
      }
      CatkinLibsItem(d.contents[j], d1.contents[j], r.contents[j], ids, deps);
    }
  }

  /** One item of the file through set_up_catkin_libs: the rename, then the edit of the
      commands the loop visits. */
  lemma CatkinLibsItem(x: Content, x1: Content, y: Content, ids: seq<nat>, deps: seq<string>)
    requires x1 == if x.Cmd? && x.cmd.name == "target_link_libraries"
                   then Cmd(RenamedCmd(x.cmd, "ament_target_dependencies")) else x
    requires !(x.Cmd? && x.cmd.name == "ament_target_dependencies")
    requires Visited(x1, "ament_target_dependencies", ids) <==> x1.Cmd? && x1.cmd.name == "ament_target_dependencies"
    requires EditedItem(x1, y, "ament_target_dependencies", ids, LibsStep(deps))
    ensures if x.Cmd? && x.cmd.name == "target_link_libraries"
            then y == Cmd(LibsFixed(RenamedCmd(x.cmd, "ament_target_dependencies"), deps))
            else y == x
  {
  }
  // ---------------------------------------------------------------------------------------
  // remove_command over a list of command objects

  /** `for cmd in cmds: cmake.remove_command(cmd)`, each command object reached through its
      identity under `name`; one that is no longer there is the ValueError of list.remove. */
  function RemovedAll(d: CMake, name: string, ids: seq<nat>): Result<CMake, PyError>
    decreases |ids|
  {
    if ids == [] then Ok(d)
    else
      match ItemUnder(d.contents, name, ids[0])
      case None => Err(ValueError)
      case Some(x) =>
        if !x.Cmd? then Err(AttributeError)
        else
          var d1 :- RemoveCommand(d, x.cmd);
          RemovedAll(d1, name, ids[1..])
  }

  method RemoveCommands(d: CMake, name: string, ids: seq<nat>) returns (r: Result<CMake, PyError>)
    ensures r == RemovedAll(d, name, ids)
  {
    var cur := d;
    for i := 0 to |ids|
      invariant RemovedAll(d, name, ids) == RemovedAll(cur, name, ids[i..])
    {
      assert ids[i..][1..] == ids[i + 1..];
      var x := ItemUnder(cur.contents, name, ids[i]);
      if x.None? {
        return Err(ValueError);
      }
      if !x.value.Cmd? {
        return Err(AttributeError);
      }
      var d1 := RemoveCommand(cur, x.value.cmd);
      if d1.Err? {
        return Err(d1.error);
      }
      cur := d1.value;
    }
    return Ok(cur);
  }

  /** Removing the listed commands keeps the index invariant, adds no identity, takes every
      listed identity out of the contents and leaves every other item as it was. */
  lemma {:induction false} RemovedAllSpec(d: CMake, name: string, ids: seq<nat>)
    requires Consistent(d)
    ensures var r := RemovedAll(d, name, ids);
      r.Ok? ==> Consistent(r.value) && IdsWithin(r.value, d) && OthersKept(d, r.value, ids)
                && forall id :: id in ids ==> id !in Ids(r.value.contents)
    decreases |ids|
  {
    if ids != [] {
      var x := ItemUnder(d.contents, name, ids[0]);
      if x.Some? && x.value.Cmd? {
        var c := x.value.cmd;
        DroppedKeeps(d, c);
        RemoveCommandConsistent(d, c);
        var d1 := RemoveCommand(d, c).value;
        RemovedAllSpec(d1, name, ids[1..]);
      }
    }
  }

  /** The removals succeed when the identities are distinct and each names a command filed
      under `name`. */
  lemma {:induction false} RemovedAllOk(d: CMake, name: string, ids: seq<nat>)
    requires Consistent(d) && Distinct(ids)
    requires forall id :: id in ids ==> ItemUnder(d.contents, name, id).Some? && ItemUnder(d.contents, name, id).value.Cmd?
    ensures RemovedAll(d, name, ids).Ok?
    decreases |ids|
  {
    if ids != [] {
      var c := ItemUnder(d.contents, name, ids[0]).value.cmd;
      DroppedKeeps(d, c);
      DistinctTail(ids);
      var d1 := RemoveCommand(d, c).value;
      assert RemovedAll(d, name, ids) == RemovedAll(d1, name, ids[1..]);
      forall id | id in ids[1..]
        ensures ItemUnder(d1.contents, name, id) == ItemUnder(d.contents, name, id)
      {
        assert id !in [c.id];
      }
      RemovedAllOk(d1, name, ids[1..]);
    }
  }

  // ---------------------------------------------------------------------------------------
  // remove_cpp11_flag (cmake.py:77-90)

  const Cpp11Flag := "-std=c++11"

  /** `v[1:-1]`: the value without its first and last characters. */
  function Inner(v: string): string
  {
    if |v| < 2 then "" else v[1..|v| - 1]
  }

  function NonEmpty(s: string): bool
  {
    s != ""
  }

  /** `list(filter(None, v[1:-1].split(';')))`, with the first -std=c++11 removed. */
  function FlagBits(v: string): seq<string>
  {
    RemoveFirst(Filter(Split(Inner(v), ';'), NonEmpty), Cpp11Flag)
  }

  /** `'"%s"' % ';'.join(bits)` */
  function QuotedFlags(bits: seq<string>): string
  {
    "\"" + Join(";", bits) + "\""
  }

  /** The flags of a set_directory_properties command: without a COMPILE_OPTIONS section
      `section.values` raises AttributeError, and without a value `values[0]` IndexError. */
  function CompileBits(c: Command): Result<seq<string>, PyError>
  {
    match FindSection(c.sections, "COMPILE_OPTIONS")
    case None => Err(AttributeError)
    case Some(p) =>
      var s := c.sections[p].section;
      if |s.values| == 0 then Err(IndexError) else Ok(FlagBits(s.values[0]))
  }

  /** The command with its COMPILE_OPTIONS section holding the one quoted value. */
  function FlagsSet(c: Command, bits: seq<string>): (r: Command)
    ensures r.id == c.id && r.name == c.name
  {
    match FindSection(c.sections, "COMPILE_OPTIONS")
    case None => c
    case Some(p) => c.(sections := c.sections[p := Sec(c.sections[p].section.(values := [QuotedFlags(bits)]))], changed := true)
  }

  /** One set_directory_properties command: rewritten with its remaining flags, or, when none
      is left, listed for removal after the loop. */
  function FlagStep(c: Command, toRemove: seq<nat>): Result<(Command, seq<nat>), PyError>
  {
    var bits :- CompileBits(c);
    if |bits| == 0 then Ok((c, toRemove + [c.id])) else Ok((FlagsSet(c, bits), toRemove))
  }

  /** remove_cpp11_flag(cmake) */
  function Cpp11FlagRemoved(d: CMake): Result<CMake, PyError>
  {
    var p :- EditEach(d, "set_directory_properties", Lookup(d.contentMap, "set_directory_properties"), [], FlagStep);
    RemovedAll(p.0, "set_directory_properties", p.1)
  }

  method RemoveCpp11Flag(d: CMake) returns (r: Result<CMake, PyError>)
    ensures r == Cpp11FlagRemoved(d)
  {
    var p := EditPass(d, "set_directory_properties", [], FlagStep);
    if p.Err? {
      return Err(p.error);
    }
    r := RemoveCommands(p.value.0, "set_directory_properties", p.value.1);
  }

  /** Every flag left is a non-empty piece of the value between its quotes with no `;` in it;
      the pieces lose one -std=c++11, and nothing else. */
  lemma FlagBitsSpec(v: string)
    ensures forall b :: b in FlagBits(v) ==> b != "" && ';' !in b
    ensures var parts := Filter(Split(Inner(v), ';'), NonEmpty);
      (forall b :: b in parts <==> b in Split(Inner(v), ';') && b != "")
      && (Cpp11Flag in parts ==> multiset(FlagBits(v)) == multiset(parts) - multiset{Cpp11Flag})
      && (Cpp11Flag !in parts ==> FlagBits(v) == parts)
  {
    var sp := Split(Inner(v), ';');
    var parts := Filter(sp, NonEmpty);
    var r := FlagBits(v);
    assert r == RemoveFirst(parts, Cpp11Flag);
    forall b | b in r
      ensures b != "" && ';' !in b
    {
      assert b in multiset(r);
      assert b in multiset(parts);
      assert b in parts;
      var i :| 0 <= i < |sp| && sp[i] == b;
    }
  }

  /** Splitting `x;y` at its first separator, when `x` has none. */
  lemma {:induction false} SplitCons(x: string, y: string, c: char)
    requires c !in x
    ensures Split(x + [c] + y, c) == [x] + Split(y, c)
  {
    if x == [] {
      assert x + [c] + y == [c] + y;
      assert ([c] + y)[1..] == y;
    } else {
      assert (x + [c] + y)[1..] == x[1..] + [c] + y;
      SplitCons(x[1..], y, c);
      assert [x[0]] + x[1..] == x;
    }
  }

  lemma {:induction false} SplitPlain(x: string, c: char)
    requires c !in x
    ensures Split(x, c) == [x]
  {
    if x != [] {
      SplitPlain(x[1..], c);
      assert [x[0]] + x[1..] == x;
    }
  }

  /** Splitting what was joined gives the pieces back when none holds the separator. */
  lemma {:induction false} SplitJoin(xs: seq<string>, c: char)
    requires |xs| >= 1 && forall i :: 0 <= i < |xs| ==> c !in xs[i]
    ensures Split(Join([c], xs), c) == xs
  {
    if |xs| == 1 {
      SplitPlain(xs[0], c);
    } else {
      SplitCons(xs[0], Join([c], xs[1..]), c);
      SplitJoin(xs[1..], c);
    }
  }

  /** The quoted value written back reads back as the same flags, when they are non-empty, free
      of `;` and no longer hold -std=c++11. */
  lemma FlagsRoundTrip(bits: seq<string>)
    requires |bits| >= 1 && Cpp11Flag !in bits
    requires forall i :: 0 <= i < |bits| ==> bits[i] != "" && ';' !in bits[i]
    ensures FlagBits(QuotedFlags(bits)) == bits
  {
    var q := QuotedFlags(bits);
    assert Inner(q) == Join(";", bits);
    assert ";" == [';'];
    SplitJoin(bits, ';');
    FilterAll(bits, NonEmpty);
  }

  /** After the rewrite a second run of the step finds the same flags and leaves the command as
      it is, unless the value held -std=c++11 twice. */
  lemma FlagStepStable(c: Command, st: seq<nat>)
    requires CompileBits(c).Ok? && |CompileBits(c).value| >= 1 && Cpp11Flag !in CompileBits(c).value
    ensures var c2 := FlagsSet(c, CompileBits(c).value);
      CompileBits(c2) == CompileBits(c) && FlagStep(c2, st) == Ok((c2, st))
  {
    var bits := CompileBits(c).value;
    var p := FindSection(c.sections, "COMPILE_OPTIONS").value;
    FlagBitsSpec(c.sections[p].section.values[0]);
    assert forall i :: 0 <= i < |bits| ==> bits[i] in bits;
    FlagsRoundTrip(bits);
    FlagsSetRead(c, bits);
  }

  /** Once set, the COMPILE_OPTIONS section reads back as the one quoted value, and setting the
      same flags again changes nothing. */
  lemma FlagsSetRead(c: Command, bits: seq<string>)
    requires FindSection(c.sections, "COMPILE_OPTIONS").Some?
    ensures CompileBits(FlagsSet(c, bits)) == Ok(FlagBits(QuotedFlags(bits)))
    ensures FlagsSet(FlagsSet(c, bits), bits) == FlagsSet(c, bits)
  {
    var p := FindSection(c.sections, "COMPILE_OPTIONS").value;
    var s := c.sections[p].section.(values := [QuotedFlags(bits)]);
    var c2 := c.(sections := c.sections[p := Sec(s)], changed := true);
    assert FlagsSet(c, bits) == c2;
    FindSectionSet(c.sections, "COMPILE_OPTIONS", p, s);
    assert c2.sections[p] == Sec(s);
    assert c2.sections[p := Sec(s)] == c2.sections;
  }

  /** A set_directory_properties command that loses its last flag. */
  predicate Emptied(d: CMake, id: nat)
  {
    var x := ItemUnder(d.contents, "set_directory_properties", id);
    x.Some? && x.value.Cmd? && CompileBits(x.value.cmd) == Ok([])
  }

  /** The item the loop makes of `x`: its flags rewritten when some are left, else `x`. */
  function AfterFlags(x: Content): Content
  {
    if x.Cmd? && CompileBits(x.cmd).Ok? && CompileBits(x.cmd).value != []
    then Cmd(FlagsSet(x.cmd, CompileBits(x.cmd).value)) else x
  }

  /** What the loop over `ids`, started with `st` collected, leaves: the index invariant, each
      command with flags left rewritten where it stands, every other item as it was, and the
      identities of the commands left with no flag collected after `st`. */
  ghost predicate FlagsCollected(d: CMake, ids: seq<nat>, st: seq<nat>, r: (CMake, seq<nat>))
  {
    Consistent(r.0) && Distinct(r.1) && OthersKept(d, r.0, ids)
    && (forall id :: id in r.1 <==> id in st || (id in ids && Emptied(d, id)))
    && forall id :: id in ids && ItemUnder(d.contents, "set_directory_properties", id).Some? ==>
         ItemUnder(r.0.contents, "set_directory_properties", id)
           == Some(AfterFlags(ItemUnder(d.contents, "set_directory_properties", id).value))
  }

  lemma {:induction false} FlagEachSpec(d: CMake, ids: seq<nat>, st: seq<nat>)
    requires Consistent(d) && Distinct(ids) && Distinct(st) && forall id :: id in st ==> id !in ids
    ensures var r := EditEach(d, "set_directory_properties", ids, st, FlagStep);
      r.Ok? ==> FlagsCollected(d, ids, st, r.value)
    decreases |ids|
  {
    if ids != [] {
      var name := "set_directory_properties";
      DistinctTail(ids);
      var x := ItemUnder(d.contents, name, ids[0]);
      if x.None? {
        FlagEachSpec(d, ids[1..], st);
      } else if x.value.Cmd? && CompileBits(x.value.cmd).Ok? {
        var c := x.value.cmd;
        var bits := CompileBits(c).value;
        if bits == [] {
          DistinctSnoc(st, ids[0]);
          FlagEachSpec(d, ids[1..], st + [ids[0]]);
          var r := EditEach(d, name, ids[1..], st + [ids[0]], FlagStep);
          assert FlagStep(c, st) == Ok((c, st + [ids[0]]));
          assert UpdateCmd(d, c) == d by {
            UpdateSelf(d, c);
          }
          assert EditEach(d, name, ids, st, FlagStep) == r;
          if r.Ok? {
            FlagsKeptStep(d, ids, st, c, r.value);
          }
        } else {
          var d1 := UpdateCmd(d, FlagsSet(c, bits));
          StrippedKeeps(d, c, FlagsSet(c, bits));
          FlagEachSpec(d1, ids[1..], st);
          var r := EditEach(d1, name, ids[1..], st, FlagStep);
          assert FlagStep(c, st) == Ok((FlagsSet(c, bits), st));
          assert EditEach(d, name, ids, st, FlagStep) == r;
          if r.Ok? {
            FlagsRewrittenStep(d, ids, st, c, r.value);
          }
        }
      }
    }
  }

  /** The step of FlagEachSpec for a command left with no flag. */
  lemma FlagsKeptStep(d: CMake, ids: seq<nat>, st: seq<nat>, c: Command, r: (CMake, seq<nat>))
    requires Distinct(ids) && ids != [] && ids[0] !in ids[1..] && forall id :: id in st ==> id !in ids
    requires ItemUnder(d.contents, "set_directory_properties", ids[0]) == Some(Cmd(c)) && CompileBits(c) == Ok([])
    requires FlagsCollected(d, ids[1..], st + [ids[0]], r)
    ensures FlagsCollected(d, ids, st, r)
  {
    var name := "set_directory_properties";
    assert ItemUnder(r.0.contents, name, ids[0]) == ItemUnder(d.contents, name, ids[0]);
    FlagsKeptIds(d, ids, st, c, r);
    OthersKeptMore(d, r.0, ids);
    FlagsKeptAfter(d, ids, c, r.0);
  }

  lemma OthersKeptMore(d: CMake, r: CMake, ids: seq<nat>)
    requires ids != [] && OthersKept(d, r, ids[1..])
    ensures OthersKept(d, r, ids)
  {
    forall k, id | id !in ids ensures ItemUnder(r.contents, k, id) == ItemUnder(d.contents, k, id) {
      assert id !in ids[1..];
    }
  }

  /** A command left with no flag stays as it was, which is what AfterFlags makes of it. */
  lemma FlagsKeptAfter(d: CMake, ids: seq<nat>, c: Command, r: CMake)
    requires ids != [] && CompileBits(c) == Ok([])
    requires ItemUnder(d.contents, "set_directory_properties", ids[0]) == Some(Cmd(c))
    requires ItemUnder(r.contents, "set_directory_properties", ids[0]) == Some(Cmd(c))
    requires forall id :: id in ids[1..] && ItemUnder(d.contents, "set_directory_properties", id).Some? ==>
      ItemUnder(r.contents, "set_directory_properties", id)
        == Some(AfterFlags(ItemUnder(d.contents, "set_directory_properties", id).value))
    ensures forall id :: id in ids && ItemUnder(d.contents, "set_directory_properties", id).Some? ==>
      ItemUnder(r.contents, "set_directory_properties", id)
        == Some(AfterFlags(ItemUnder(d.contents, "set_directory_properties", id).value))
  {
    forall id | id in ids && ItemUnder(d.contents, "set_directory_properties", id).Some?
      ensures ItemUnder(r.contents, "set_directory_properties", id)
        == Some(AfterFlags(ItemUnder(d.contents, "set_directory_properties", id).value))
    {
      if id != ids[0] {
        assert id in ids[1..];
      }
    }
  }

  /** The identities FlagsKeptStep collects: its command joins those collected after `st`. */
  lemma FlagsKeptIds(d: CMake, ids: seq<nat>, st: seq<nat>, c: Command, r: (CMake, seq<nat>))
    requires ids != []
    requires ItemUnder(d.contents, "set_directory_properties", ids[0]) == Some(Cmd(c)) && CompileBits(c) == Ok([])
    requires forall id :: id in r.1 <==> id in st + [ids[0]] || (id in ids[1..] && Emptied(d, id))
    ensures forall id :: id in r.1 <==> id in st || (id in ids && Emptied(d, id))
  {
    forall id
      ensures id in r.1 <==> id in st || (id in ids && Emptied(d, id))
    {
      assert id in ids <==> id == ids[0] || id in ids[1..];
    }
  }

  /** The step of FlagEachSpec for a command rewritten with the flags it keeps. */
  lemma FlagsRewrittenStep(d: CMake, ids: seq<nat>, st: seq<nat>, c: Command, r: (CMake, seq<nat>))
    requires Consistent(d) && ids != [] && ids[0] !in ids[1..] && forall id :: id in st ==> id !in ids
    requires ItemUnder(d.contents, "set_directory_properties", ids[0]) == Some(Cmd(c))
    requires CompileBits(c).Ok? && CompileBits(c).value != []
    requires var d1 := UpdateCmd(d, FlagsSet(c, CompileBits(c).value));
      Consistent(d1) && OthersKept(d, d1, [c.id]) && FlagsCollected(d1, ids[1..], st, r)
    ensures FlagsCollected(d, ids, st, r)
  {
    var name := "set_directory_properties";
    var c2 := FlagsSet(c, CompileBits(c).value);
    var d1 := UpdateCmd(d, c2);
    assert ItemUnder(d1.contents, name, ids[0]) == Some(Cmd(c2)) by {
      SameNameOf(d.contents, c, c2);
      ItemUnderReplaced(d.contents, c2, name, ids[0]);
    }
    assert ItemUnder(r.0.contents, name, ids[0]) == Some(AfterFlags(Cmd(c)));
    assert OthersKept(d, r.0, ids) by {
      forall k, id | id !in ids
        ensures ItemUnder(r.0.contents, k, id) == ItemUnder(d.contents, k, id)
      {
        assert id !in ids[1..] && id !in [c.id];
      }
    }
    forall id | id in ids[1..]
      ensures Emptied(d1, id) == Emptied(d, id)
      ensures ItemUnder(d1.contents, name, id) == ItemUnder(d.contents, name, id)
    {
      assert id !in [c.id];
    }
    forall id
      ensures id in r.1 <==> id in st || (id in ids && Emptied(d, id))
    {
      assert id in ids <==> id == ids[0] || id in ids[1..];
    }
  }

  lemma DistinctSnoc(xs: seq<nat>, x: nat)
    requires Distinct(xs) && x !in xs
    ensures Distinct(xs + [x])
  {
  }
  /** Every set_directory_properties command has a COMPILE_OPTIONS section with a value. */
  predicate FlagsWellFormed(d: CMake)
  {
    forall j :: 0 <= j < |d.contents| && d.contents[j].Cmd? && d.contents[j].cmd.name == "set_directory_properties" ==>
      CompileBits(d.contents[j].cmd).Ok?
  }

  lemma FlagStepsOk(d: CMake)
    requires FlagsWellFormed(d)
    ensures KeepsIdentity(FlagStep)
    ensures forall id ::
      (id in Lookup(d.contentMap, "set_directory_properties")
       && ItemUnder(d.contents, "set_directory_properties", id).Some?
       && ItemUnder(d.contents, "set_directory_properties", id).value.Cmd?) ==>
      forall s: seq<nat> :: FlagStep(ItemUnder(d.contents, "set_directory_properties", id).value.cmd, s).Ok?
  {
    forall c: Command, s: seq<nat>
      ensures FlagStep(c, s).Ok? ==> FlagStep(c, s).value.0.id == c.id && FlagStep(c, s).value.0.name == c.name
    {
    }
    forall id | ItemUnder(d.contents, "set_directory_properties", id).Some? && ItemUnder(d.contents, "set_directory_properties", id).value.Cmd?
      ensures forall s: seq<nat> :: FlagStep(ItemUnder(d.contents, "set_directory_properties", id).value.cmd, s).Ok?
    {
      var x := ItemUnder(d.contents, "set_directory_properties", id).value;
      var q :| 0 <= q < |d.contents| && d.contents[q] == x;
    }
  }

  /** In a consistent file the pass fails only on a set_directory_properties command without a
      COMPILE_OPTIONS value. */
  lemma Cpp11FlagOk(d: CMake)
    requires Consistent(d) && FlagsWellFormed(d)
    ensures Cpp11FlagRemoved(d).Ok?
  {
    var name := "set_directory_properties";
    var ids := Lookup(d.contentMap, name);
    FiledIds(d, name);
    FlagStepsOk(d);
    EditEachOk(d, name, ids, [], FlagStep);
    FlagEachSpec(d, ids, []);
    var p := EditEach(d, name, ids, [], FlagStep).value;
    forall id | id in p.1
      ensures ItemUnder(p.0.contents, name, id).Some? && ItemUnder(p.0.contents, name, id).value.Cmd?
    {
      assert id in ids && Emptied(d, id);
    }
    RemovedAllOk(p.0, name, p.1);
  }

  /** In a consistent file the pass keeps the index; each set_directory_properties command left
      with no flag is gone, each other one has its flags rewritten where it stands, and every
      item not filed under set_directory_properties is as it was. */
  lemma Cpp11FlagSpec(d: CMake)
    requires Consistent(d)
    ensures var r := Cpp11FlagRemoved(d);
      r.Ok? ==>
        Consistent(r.value)
        && (forall id :: ItemUnder(d.contents, "set_directory_properties", id).Some? ==>
              if Emptied(d, id) then id !in Ids(r.value.contents)
              else ItemUnder(r.value.contents, "set_directory_properties", id)
                     == Some(AfterFlags(ItemUnder(d.contents, "set_directory_properties", id).value)))
        && forall k, id :: id !in Lookup(d.contentMap, "set_directory_properties") ==>
             ItemUnder(r.value.contents, k, id) == ItemUnder(d.contents, k, id)
  {
    var name := "set_directory_properties";
    var ids := Lookup(d.contentMap, name);
    FiledIds(d, name);
    FlagEachSpec(d, ids, []);
    var p := EditEach(d, name, ids, [], FlagStep);
    if p.Ok? {
      RemovedAllSpec(p.value.0, name, p.value.1);
      var r := Cpp11FlagRemoved(d);
      if r.Ok? {
        forall id | ItemUnder(d.contents, name, id).Some?
          ensures if Emptied(d, id) then id !in Ids(r.value.contents)
                  else ItemUnder(r.value.contents, name, id) == Some(AfterFlags(ItemUnder(d.contents, name, id).value))
        {
          assert id in multiset(IdsUnder(d.contents, name));
          assert id in ids;
        }
      }
    }
  }

  // ---------------------------------------------------------------------------------------
  // split_find_package_commands (cmake.py:21-43)

  /** `tokens and tokens[0] == 'catkin'` */
  predicate FindsCatkin(c: Command)
  {
    |Tokens(c)| > 0 && Tokens(c)[0] == "catkin"
  }

  /** The components a catkin find_package contributes: its COMPONENTS, when it also has a
      REQUIRED section (a Section object is always true). */
  function ComponentsOf(c: Command): seq<string>
  {
    if GetSection(c, "REQUIRED").Some? && GetSection(c, "COMPONENTS").Some? then GetSection(c, "COMPONENTS").value.values
    else []
  }

  /** The first loop as written: it walks the live list `content_map['find_package']` by
      position while remove_command deletes from that same list, so the command just after a
      removed one is never visited. */
  function CatkinFindsRemovedAsWritten(d: CMake, i: nat, comps: seq<string>): Result<(CMake, seq<string>), PyError>
    decreases if i <= |Lookup(d.contentMap, "find_package")| then |Lookup(d.contentMap, "find_package")| - i else 0
  {
    var l := Lookup(d.contentMap, "find_package");
    if i >= |l| then Ok((d, comps))
    else
      match ItemUnder(d.contents, "find_package", l[i])
      case None => CatkinFindsRemovedAsWritten(d, i + 1, comps)
      case Some(x) =>
        if !x.Cmd? then Err(AttributeError)
        else if !FindsCatkin(x.cmd) then CatkinFindsRemovedAsWritten(d, i + 1, comps)
        else
          var d1 :- RemoveCommand(d, x.cmd);
          assert |Lookup(d1.contentMap, "find_package")| == |l| - 1 by {
            assert |multiset(Lookup(d1.contentMap, "find_package"))| == |multiset(l)| - 1;
          }
          CatkinFindsRemovedAsWritten(d1, i + 1, comps + ComponentsOf(x.cmd))
  }

  /** The first loop over a copy of the list: every find_package command filed when the loop
      starts is visited. */
  function CatkinFindsRemoved(d: CMake, ids: seq<nat>, comps: seq<string>): Result<(CMake, seq<string>), PyError>
    decreases |ids|
  {
    if ids == [] then Ok((d, comps))
    else
      match ItemUnder(d.contents, "find_package", ids[0])
      case None => CatkinFindsRemoved(d, ids[1..], comps)
      case Some(x) =>
        if !x.Cmd? then Err(AttributeError)
        else if !FindsCatkin(x.cmd) then CatkinFindsRemoved(d, ids[1..], comps)
        else
          var d1 :- RemoveCommand(d, x.cmd);
          CatkinFindsRemoved(d1, ids[1..], comps + ComponentsOf(x.cmd))
  }

  /** The packages found one at a time: message_generation is dropped and catkin packages give
      way to their successors. */
  function Wanted(comps: seq<string>): seq<string>
  {
    if comps == [] then []
    else (if comps[0] == "message_generation" then [] else [Successor(comps[0])]) + Wanted(comps[1..])
  }

  /** `find_package(<pkg> REQUIRED)`, a new command object with identity `id`. */
  function FindPackage(id: nat, pkg: string): Command
  {
    AddSection(AddSection(NewCommand(id, "find_package"), "", [pkg], Shared), "REQUIRED", [], Shared)
  }

  /** The second loop: one new find_package command per package, the k-th with identity
      `next + k`, each placed by add_command. */
  function FindPackagesAdded(d: CMake, pkgs: seq<string>, next: nat): Result<CMake, PyError>
    decreases |pkgs|
  {
    if pkgs == [] then Ok(d)
    else
      var d1 :- AddCommand(d, Cmd(FindPackage(next, pkgs[0])));
      FindPackagesAdded(d1, pkgs[1..], next + 1)
  }

  /** split_find_package_commands(cmake), with the first loop over a copy of the list. */
  function FindPackagesSplit(d: CMake, next: nat): Result<CMake, PyError>
  {
    var p :- CatkinFindsRemoved(d, Lookup(d.contentMap, "find_package"), ["ament_cmake"]);
    FindPackagesAdded(p.0, Wanted(p.1), next)
  }

  method RemoveCatkinFinds(d: CMake) returns (r: Result<(CMake, seq<string>), PyError>)
    ensures r == CatkinFindsRemoved(d, Lookup(d.contentMap, "find_package"), ["ament_cmake"])
  {
    var ids := Lookup(d.contentMap, "find_package");
    var cur := d;
    var comps := ["ament_cmake"];
    for i := 0 to |ids|
      invariant CatkinFindsRemoved(d, ids, ["ament_cmake"]) == CatkinFindsRemoved(cur, ids[i..], comps)
    {
      assert ids[i..][1..] == ids[i + 1..];
      var x := ItemUnder(cur.contents, "find_package", ids[i]);
      if x.Some? {
        if !x.value.Cmd? {
          return Err(AttributeError);
        }
        var c := x.value.cmd;
        if FindsCatkin(c) {
          comps := comps + ComponentsOf(c);
          var d1 := RemoveCommand(cur, c);
          if d1.Err? {
            return Err(d1.error);
          }
          cur := d1.value;
        }
      }
    }
    return Ok((cur, comps));
  }

  method AddFindPackages(d: CMake, comps: seq<string>, next: nat) returns (r: Result<CMake, PyError>)
    ensures r == FindPackagesAdded(d, Wanted(comps), next)
  {
    var cur := d;
    var n := next;
    for k := 0 to |comps|
      invariant FindPackagesAdded(d, Wanted(comps), next) == FindPackagesAdded(cur, Wanted(comps[k..]), n)
    {
      assert comps[k..][1..] == comps[k + 1..];
      assert comps[k] == "message_generation" ==> Wanted(comps[k..]) == Wanted(comps[k + 1..]);
      if comps[k] != "message_generation" {
        var component := Successor(comps[k]);
        assert Wanted(comps[k..]) == [component] + Wanted(comps[k + 1..]);
        var d1 := AddCommand(cur, Cmd(FindPackage(n, component)));
        if d1.Err? {
          return Err(d1.error);
        }
        cur := d1.value;
        n := n + 1;
      }
    }
    return Ok(cur);
  }

  method SplitFindPackageCommands(d: CMake, next: nat) returns (r: Result<CMake, PyError>)
    ensures r == FindPackagesSplit(d, next)
  {
    var p := RemoveCatkinFinds(d);
    if p.Err? {
      return Err(p.error);
    }
    r := AddFindPackages(p.value.0, p.value.1, next);
  }

  /** Each wanted package succeeds a listed component other than message_generation, and each
      such component's successor is wanted; message_generation itself never is, and a list
      opening with ament_cmake still does. */
  lemma {:induction false} WantedSpec(comps: seq<string>)
    ensures forall w :: w in Wanted(comps) <==>
      exists i :: 0 <= i < |comps| && comps[i] != "message_generation" && Successor(comps[i]) == w
    ensures "message_generation" !in Wanted(comps)
    ensures |Wanted(comps)| <= |comps|
    ensures comps != [] && comps[0] == "ament_cmake" ==> Wanted(comps)[0] == "ament_cmake"
  {
    if comps != [] {
      WantedSpec(comps[1..]);
      forall w
        ensures w in Wanted(comps) <==>
          exists i :: 0 <= i < |comps| && comps[i] != "message_generation" && Successor(comps[i]) == w
      {
        if w in Wanted(comps[1..]) {
          var i :| 0 <= i < |comps[1..]| && comps[1..][i] != "message_generation" && Successor(comps[1..][i]) == w;
          assert comps[i + 1] == comps[1..][i];
        }
        if exists i :: 0 <= i < |comps| && comps[i] != "message_generation" && Successor(comps[i]) == w {
          var i :| 0 <= i < |comps| && comps[i] != "message_generation" && Successor(comps[i]) == w;
          if i > 0 {
            assert comps[1..][i - 1] == comps[i];
          }
        }
      }
    }
  }
  /** `id` names a catkin find_package command of `d`. */
  predicate CatkinAt(d: CMake, id: nat)
  {
    var x := ItemUnder(d.contents, "find_package", id);
    x.Some? && x.value.Cmd? && FindsCatkin(x.value.cmd)
  }

  /** `v` is one of the components the catkin find_package command `id` of `d` lists. */
  predicate Contributes(d: CMake, id: nat, v: string)
  {
    CatkinAt(d, id) && v in ComponentsOf(ItemUnder(d.contents, "find_package", id).value.cmd)
  }

  /** What the corrected first loop leaves: a consistent index, no new identity, the listed
      catkin commands gone and everything else as it was, and the collected components — the
      given ones first, then exactly those the removed commands list. */
  ghost predicate FindsCollected(d: CMake, ids: seq<nat>, comps: seq<string>, r: (CMake, seq<string>))
  {
    Consistent(r.0) && IdsWithin(r.0, d)
    && (forall id :: id in ids && CatkinAt(d, id) ==> id !in Ids(r.0.contents))
    && (forall k, id :: !(id in ids && CatkinAt(d, id)) ==> ItemUnder(r.0.contents, k, id) == ItemUnder(d.contents, k, id))
    && |r.1| >= |comps| && r.1[..|comps|] == comps
    && (forall v :: v in r.1 <==> v in comps || exists id :: id in ids && Contributes(d, id, v))
  }

  lemma FindsSkippedStep(d: CMake, ids: seq<nat>, comps: seq<string>, r: (CMake, seq<string>))
    requires ids != [] && !CatkinAt(d, ids[0])
    requires FindsCollected(d, ids[1..], comps, r)
    ensures FindsCollected(d, ids, comps, r)
  {
    forall v | v in r.1 && v !in comps
      ensures exists id :: id in ids && Contributes(d, id, v)
    {
      var id :| id in ids[1..] && Contributes(d, id, v);
    }
  }

  lemma FindsRemovedStep(d: CMake, ids: seq<nat>, comps: seq<string>, c: Command, d1: CMake, r: (CMake, seq<string>))
    requires ids != [] && ids[0] !in ids[1..]
    requires ItemUnder(d.contents, "find_package", ids[0]) == Some(Cmd(c)) && FindsCatkin(c)
    requires Consistent(d1) && IdsWithin(d1, d) && OthersKept(d, d1, [c.id]) && c.id !in Ids(d1.contents)
    requires FindsCollected(d1, ids[1..], comps + ComponentsOf(c), r)
    ensures FindsCollected(d, ids, comps, r)
  {
    var ext := comps + ComponentsOf(c);
    forall id | id in ids[1..]
      ensures CatkinAt(d1, id) == CatkinAt(d, id)
      ensures forall v :: Contributes(d1, id, v) == Contributes(d, id, v)
    {
      assert id !in [c.id];
      assert ItemUnder(d1.contents, "find_package", id) == ItemUnder(d.contents, "find_package", id);
    }
    forall k, id | !(id in ids && CatkinAt(d, id))
      ensures ItemUnder(r.0.contents, k, id) == ItemUnder(d.contents, k, id)
    {
      assert id !in [c.id];
    }
    assert r.1[..|comps|] == r.1[..|ext|][..|comps|];
    FindsRemovedComponents(d, ids, comps, c, d1, r.1);
  }

  /** The components FindsRemovedStep collects: those of its command, then the later ones. */
  lemma FindsRemovedComponents(d: CMake, ids: seq<nat>, comps: seq<string>, c: Command, d1: CMake, found: seq<string>)
    requires ids != []
    requires ItemUnder(d.contents, "find_package", ids[0]) == Some(Cmd(c)) && FindsCatkin(c)
    requires forall id, v :: id in ids[1..] ==> Contributes(d1, id, v) == Contributes(d, id, v)
    requires forall v :: v in found <==> v in comps + ComponentsOf(c) || exists id :: id in ids[1..] && Contributes(d1, id, v)
    ensures forall v :: v in found <==> v in comps || exists id :: id in ids && Contributes(d, id, v)
  {
    forall v | v in found && v !in comps
      ensures exists id :: id in ids && Contributes(d, id, v)
    {
      ComponentFound(d, ids, comps, c, d1, v);
    }
    forall v | exists id :: id in ids && Contributes(d, id, v)
      ensures v in found
    {
      ComponentListed(d, ids, comps, c, d1, v);
    }
  }

  lemma ComponentFound(d: CMake, ids: seq<nat>, comps: seq<string>, c: Command, d1: CMake, v: string)
    requires ids != []
    requires ItemUnder(d.contents, "find_package", ids[0]) == Some(Cmd(c)) && FindsCatkin(c)
    requires forall id :: id in ids[1..] ==> Contributes(d1, id, v) == Contributes(d, id, v)
    requires v in comps + ComponentsOf(c) || exists id :: id in ids[1..] && Contributes(d1, id, v)
    requires v !in comps
    ensures exists id :: id in ids && Contributes(d, id, v)
  {
    if v in ComponentsOf(c) {
      assert Contributes(d, ids[0], v);
    } else {
      assert v !in comps + ComponentsOf(c);
      var id :| id in ids[1..] && Contributes(d1, id, v);
      assert Contributes(d, id, v);
    }
  }

  lemma ComponentListed(d: CMake, ids: seq<nat>, comps: seq<string>, c: Command, d1: CMake, v: string)
    requires ids != []
    requires ItemUnder(d.contents, "find_package", ids[0]) == Some(Cmd(c)) && FindsCatkin(c)
    requires forall id :: id in ids[1..] ==> Contributes(d1, id, v) == Contributes(d, id, v)
    requires exists id :: id in ids && Contributes(d, id, v)
    ensures v in comps + ComponentsOf(c) || exists id :: id in ids[1..] && Contributes(d1, id, v)
  {
    var id :| id in ids && Contributes(d, id, v);
    if id == ids[0] {
      assert v in ComponentsOf(c) by {
        assert Contributes(d, ids[0], v);
      }
    } else {
      ContributesLater(d, ids, d1, id, v);
    }
  }

  lemma ContributesLater(d: CMake, ids: seq<nat>, d1: CMake, id: nat, v: string)
    requires id in ids && id != ids[0] && Contributes(d, id, v)
    requires forall id :: id in ids[1..] ==> Contributes(d1, id, v) == Contributes(d, id, v)
    ensures exists id :: id in ids[1..] && Contributes(d1, id, v)
  {
    var j :| 0 <= j < |ids| && ids[j] == id;
    assert ids[1..][j - 1] == id;
  }

  /** In a consistent file the corrected first loop succeeds and leaves what FindsCollected
      describes. */
  lemma {:induction false} CatkinFindsSpec(d: CMake, ids: seq<nat>, comps: seq<string>)
    requires Consistent(d) && Distinct(ids)
    ensures CatkinFindsRemoved(d, ids, comps).Ok?
    ensures FindsCollected(d, ids, comps, CatkinFindsRemoved(d, ids, comps).value)
    decreases |ids|
  {
    if ids == [] {
      assert forall k, id :: ItemUnder(d.contents, k, id) == ItemUnder(d.contents, k, id);
    } else {
      DistinctTail(ids);
      var x := ItemUnder(d.contents, "find_package", ids[0]);
      if x.Some? && FindsCatkin(x.value.cmd) {
        var c := x.value.cmd;
        DroppedKeeps(d, c);
        RemoveCommandConsistent(d, c);
        var d1 := RemoveCommand(d, c).value;
        assert CatkinFindsRemoved(d, ids, comps) == CatkinFindsRemoved(d1, ids[1..], comps + ComponentsOf(c));
        CatkinFindsSpec(d1, ids[1..], comps + ComponentsOf(c));
        FindsRemovedStep(d, ids, comps, c, d1, CatkinFindsRemoved(d, ids, comps).value);
      } else {
        assert CatkinFindsRemoved(d, ids, comps) == CatkinFindsRemoved(d, ids[1..], comps);
        CatkinFindsSpec(d, ids[1..], comps);
        FindsSkippedStep(d, ids, comps, CatkinFindsRemoved(d, ids, comps).value);
      }
    }
  }

  /** The new command finds exactly one package, as REQUIRED, and lists no components. */
  lemma FindPackageShape(id: nat, pkg: string)
    ensures var c := FindPackage(id, pkg);
      c.id == id && c.name == "find_package" && Tokens(c) == [pkg]
      && GetSection(c, "REQUIRED").Some? && ComponentsOf(c) == []
  {
    var s1 := Section("", [pkg], Shared);
    var s2 := Section("REQUIRED", [], Shared);
    var c1 := AddSection(NewCommand(id, "find_package"), "", [pkg], Shared);
    var c := AddSection(c1, "REQUIRED", [], Shared);
    assert RealSections(c1.sections) == [s1];
    assert RealSections(c.sections) == [s1, s2];
    assert [s1, s2][1..] == [s2];
    assert AllValues([s1, s2]) == [pkg] + AllValues([s2]);
    assert AllValues([s2]) == [] + AllValues([]);
  }

  /** What adding `pkgs` from identity `next` on leaves: the k-th package found by a new
      find_package command with identity `next + k`, a consistent index, every earlier item as
      it was and no other new identity. */
  ghost predicate PackagesAdded(d: CMake, r: CMake, pkgs: seq<string>, next: nat)
  {
    Consistent(r)
    && (forall k :: 0 <= k < |pkgs| ==>
          ItemUnder(r.contents, "find_package", next + k) == Some(Cmd(FindPackage(next + k, pkgs[k]))))
    && (forall k, id: nat :: id < next ==> ItemUnder(r.contents, k, id) == ItemUnder(d.contents, k, id))
    && (forall id :: id in Ids(r.contents) ==> id in Ids(d.contents) || next <= id < next + |pkgs|)
  }

  /** `r` is `d` with the new find_package command `c` added and nothing else changed. */
  ghost predicate AddedOne(d: CMake, r: CMake, c: Command)
  {
    Consistent(r)
    && (forall id :: id in Ids(r.contents) ==> id in Ids(d.contents) || id == c.id)
    && forall k, id :: ItemUnder(r.contents, k, id) == (if id == c.id && k == c.name then Some(Cmd(c)) else ItemUnder(d.contents, k, id))
  }

  lemma AddedOneSpec(d: CMake, next: nat, pkg: string)
    requires Consistent(d) && forall id :: id in Ids(d.contents) ==> id < next
    requires AddCommand(d, Cmd(FindPackage(next, pkg))).Ok?
    ensures AddedOne(d, AddCommand(d, Cmd(FindPackage(next, pkg))).value, FindPackage(next, pkg))
  {
    var c := Cmd(FindPackage(next, pkg));
    FindPackageShape(next, pkg);
    AddCommandConsistent(d, c);
    AddedIds(d, c);
    forall k, id
      ensures ItemUnder(AddCommand(d, c).value.contents, k, id) ==
        (if id == next && k == "find_package" then Some(c) else ItemUnder(d.contents, k, id))
    {
      ItemUnderSpliced(d, InsertionIndexOf(d, c).value, c, k, id);
    }
  }

  lemma AddedFound(d: CMake, d1: CMake, r: CMake, pkgs: seq<string>, next: nat)
    requires pkgs != [] && AddedOne(d, d1, FindPackage(next, pkgs[0]))
    requires forall k :: 0 <= k < |pkgs[1..]| ==>
      ItemUnder(r.contents, "find_package", next + 1 + k) == Some(Cmd(FindPackage(next + 1 + k, pkgs[1..][k])))
    requires forall k, id: nat :: id < next + 1 ==> ItemUnder(r.contents, k, id) == ItemUnder(d1.contents, k, id)
    ensures forall k :: 0 <= k < |pkgs| ==>
      ItemUnder(r.contents, "find_package", next + k) == Some(Cmd(FindPackage(next + k, pkgs[k])))
  {
    forall k | 0 <= k < |pkgs|
      ensures ItemUnder(r.contents, "find_package", next + k) == Some(Cmd(FindPackage(next + k, pkgs[k])))
    {
      if k == 0 {
        assert ItemUnder(r.contents, "find_package", next) == ItemUnder(d1.contents, "find_package", next);
      } else {
        assert pkgs[1..][k - 1] == pkgs[k];
        assert next + 1 + (k - 1) == next + k;
      }
    }
  }

  lemma AddedStep(d: CMake, d1: CMake, r: CMake, pkgs: seq<string>, next: nat)
    requires pkgs != [] && AddedOne(d, d1, FindPackage(next, pkgs[0]))
    requires PackagesAdded(d1, r, pkgs[1..], next + 1)
    ensures PackagesAdded(d, r, pkgs, next)
  {
    AddedFound(d, d1, r, pkgs, next);
  }

  /** Adding the packages in turn leaves what PackagesAdded describes. */
  lemma {:induction false} FindPackagesAddedSpec(d: CMake, pkgs: seq<string>, next: nat)
    requires Consistent(d) && forall id :: id in Ids(d.contents) ==> id < next
    ensures FindPackagesAdded(d, pkgs, next).Ok? ==> PackagesAdded(d, FindPackagesAdded(d, pkgs, next).value, pkgs, next)
    decreases |pkgs|
  {
    if pkgs == [] {
      assert forall k, id :: ItemUnder(d.contents, k, id) == ItemUnder(d.contents, k, id);
    } else if FindPackagesAdded(d, pkgs, next).Ok? {
      AddedOneSpec(d, next, pkgs[0]);
      var d1 := AddCommand(d, Cmd(FindPackage(next, pkgs[0]))).value;
      assert FindPackagesAdded(d, pkgs, next) == FindPackagesAdded(d1, pkgs[1..], next + 1);
      FindPackagesAddedSpec(d1, pkgs[1..], next + 1);
      AddedStep(d, d1, FindPackagesAdded(d, pkgs, next).value, pkgs, next);
    }
  }
  /** What split_find_package_commands leaves, given the wanted packages `w`: a consistent
      index, the catkin find_package commands gone, every other item with an identity below
      `next` as it was, and the k-th wanted package found by a new command with identity
      `next + k`. */
  ghost predicate SplitDone(d: CMake, r: CMake, w: seq<string>, next: nat)
  {
    Consistent(r)
    && (forall id :: CatkinAt(d, id) ==> id !in Ids(r.contents))
    && (forall k, id: nat :: id < next && !CatkinAt(d, id) ==> ItemUnder(r.contents, k, id) == ItemUnder(d.contents, k, id))
    && forall k :: 0 <= k < |w| ==> ItemUnder(r.contents, "find_package", next + k) == Some(Cmd(FindPackage(next + k, w[k])))
  }

  lemma CatkinFiled(d: CMake)
    requires Consistent(d)
    ensures forall id :: CatkinAt(d, id) ==> id in Lookup(d.contentMap, "find_package") && id in Ids(d.contents)
  {
    forall id | CatkinAt(d, id)
      ensures id in Lookup(d.contentMap, "find_package") && id in Ids(d.contents)
    {
      var x := ItemUnder(d.contents, "find_package", id).value;
      var j :| 0 <= j < |d.contents| && d.contents[j] == x;
      IdInIds(d.contents, j);
      assert id in multiset(IdsUnder(d.contents, "find_package"));
    }
  }

  lemma SplitDoneStep(d: CMake, ids: seq<nat>, p: (CMake, seq<string>), next: nat)
    requires Consistent(d) && forall id :: id in Ids(d.contents) ==> id < next
    requires forall id :: CatkinAt(d, id) ==> id in ids && id in Ids(d.contents)
    requires FindsCollected(d, ids, ["ament_cmake"], p)
    requires FindPackagesAdded(p.0, Wanted(p.1), next).Ok?
    ensures SplitDone(d, FindPackagesAdded(p.0, Wanted(p.1), next).value, Wanted(p.1), next)
  {
    FindPackagesAddedSpec(p.0, Wanted(p.1), next);
    var r := FindPackagesAdded(p.0, Wanted(p.1), next).value;
    forall k, id: nat | id < next && !CatkinAt(d, id)
      ensures ItemUnder(r.contents, k, id) == ItemUnder(d.contents, k, id)
    {
      assert ItemUnder(r.contents, k, id) == ItemUnder(p.0.contents, k, id);
    }
  }

  /** split_find_package_commands in a consistent file whose identities all lie below `next`:
      the first loop succeeds, collecting ament_cmake and then exactly the components the catkin
      find_package commands list, so ament_cmake is the first package wanted; the result is
      what SplitDone describes. */
  lemma FindPackagesSplitSpec(d: CMake, next: nat)
    requires Consistent(d) && forall id :: id in Ids(d.contents) ==> id < next
    ensures var p := CatkinFindsRemoved(d, Lookup(d.contentMap, "find_package"), ["ament_cmake"]);
      p.Ok?
      && (forall v :: v in p.value.1 <==> v == "ament_cmake" || exists id :: Contributes(d, id, v))
      && |Wanted(p.value.1)| > 0 && Wanted(p.value.1)[0] == "ament_cmake"
      && (FindPackagesSplit(d, next).Ok? ==> SplitDone(d, FindPackagesSplit(d, next).value, Wanted(p.value.1), next))
  {
    var ids := Lookup(d.contentMap, "find_package");
    FiledIds(d, "find_package");
    CatkinFindsSpec(d, ids, ["ament_cmake"]);
    CatkinFiled(d);
    var p := CatkinFindsRemoved(d, ids, ["ament_cmake"]).value;
    ComponentsCollected(d, ids, p);
    assert FindPackagesSplit(d, next) == FindPackagesAdded(p.0, Wanted(p.1), next);
    if FindPackagesSplit(d, next).Ok? {
      SplitDoneStep(d, ids, p, next);
    }
  }

  lemma ComponentsCollected(d: CMake, ids: seq<nat>, p: (CMake, seq<string>))
    requires forall id :: CatkinAt(d, id) ==> id in ids && id in Ids(d.contents)
    requires FindsCollected(d, ids, ["ament_cmake"], p)
    ensures forall v :: v in p.1 <==> v == "ament_cmake" || exists id :: Contributes(d, id, v)
    ensures |Wanted(p.1)| > 0 && Wanted(p.1)[0] == "ament_cmake"
  {
    assert p.1[..1] == ["ament_cmake"];
    assert p.1[0] == "ament_cmake";
    WantedSpec(p.1);
    forall v
      ensures v in p.1 <==> v == "ament_cmake" || exists id :: Contributes(d, id, v)
    {
      if exists id :: Contributes(d, id, v) {
        var id :| Contributes(d, id, v);
        assert id in ids;
      }
    }
  }

  /** Two catkin find_package commands in a row, and the file once the first is removed. */
  const FirstCatkinFind := Command(1, "find_package", None, false, "", [Sec(Section("", ["catkin"], Shared))])
  const SecondCatkinFind := Command(2, "find_package", None, false, "", [Sec(Section("", ["catkin"], Shared))])
  const TwoCatkinFinds := CMake([Cmd(FirstCatkinFind), Cmd(SecondCatkinFind)], map["find_package" := [1, 2]], 0)
  const OneCatkinFind := CMake([Cmd(SecondCatkinFind)], map["find_package" := [2]], 0)

  lemma CatkinFindShape(c: Command)
    requires c == FirstCatkinFind || c == SecondCatkinFind
    ensures FindsCatkin(c) && ComponentsOf(c) == []
  {
    var s := Section("", ["catkin"], Shared);
    assert RealSections(c.sections) == [s];
    assert AllValues([s]) == ["catkin"] + AllValues([]);
  }

  lemma TwoCatkinFindsConsistent()
    ensures Consistent(TwoCatkinFinds)
  {
    var d := TwoCatkinFinds;
    forall k
      ensures multiset(Lookup(d.contentMap, k)) == multiset(IdsUnder(d.contents, k))
    {
      TwoCatkinFindsUnder(k);
    }
    TwoCatkinFindsIds();
  }

  lemma TwoCatkinFindsUnder(k: string)
    ensures IdsUnder(TwoCatkinFinds.contents, k) == if k == "find_package" then [1, 2] else []
  {
    var b := Cmd(SecondCatkinFind);
    assert TwoCatkinFinds.contents[1..] == [b];
    assert IdsUnder([b], k) == (if k == "find_package" then [2] else []) + IdsUnder([], k);
  }

  lemma TwoCatkinFindsIds()
    ensures Ids(TwoCatkinFinds.contents) == [1, 2]
  {
    var b := Cmd(SecondCatkinFind);
    assert TwoCatkinFinds.contents[1..] == [b];
    assert Ids([b]) == [2] + Ids([]);
  }

  lemma FirstCatkinFindFiled()
    ensures ItemUnder(TwoCatkinFinds.contents, "find_package", 1) == Some(Cmd(FirstCatkinFind))
  {
    assert TwoCatkinFinds.contents[0] == Cmd(FirstCatkinFind);
  }

  lemma SecondCatkinFindFiled()
    ensures ItemUnder(OneCatkinFind.contents, "find_package", 2) == Some(Cmd(SecondCatkinFind))
  {
    assert OneCatkinFind.contents[0] == Cmd(SecondCatkinFind);
  }

  lemma CatkinFindsRemovedInTurn()
    ensures RemoveCommand(TwoCatkinFinds, FirstCatkinFind) == Ok(OneCatkinFind)
    ensures RemoveCommand(OneCatkinFind, SecondCatkinFind) == Ok(CMake([], map["find_package" := []], 0))
  {
    var cs := TwoCatkinFinds.contents;
    assert FindItem(cs, 1) == Some(0);
    assert cs[..0] + cs[1..] == OneCatkinFind.contents;
    assert RemoveId([1, 2], 1) == Some([2]);
    assert TwoCatkinFinds.contentMap["find_package" := [2]] == OneCatkinFind.contentMap;
    var cs1 := OneCatkinFind.contents;
    assert FindItem(cs1, 2) == Some(0);
    assert cs1[..0] + cs1[1..] == [];
    assert RemoveId([2], 2) == Some([]);
    assert OneCatkinFind.contentMap["find_package" := []] == map["find_package" := []];
  }

  /** The first loop as written removes the first catkin find_package and then stops, the list
      having shrunk under its index: the second one survives. */
  lemma SecondCatkinFindKept()
    ensures Consistent(TwoCatkinFinds)
    ensures CatkinFindsRemovedAsWritten(TwoCatkinFinds, 0, ["ament_cmake"]) == Ok((OneCatkinFind, ["ament_cmake"]))
  {
    TwoCatkinFindsConsistent();
    CatkinFindShape(FirstCatkinFind);
    CatkinFindsRemovedInTurn();
    FirstCatkinFindFiled();
    var comps := ["ament_cmake"];
    assert Lookup(TwoCatkinFinds.contentMap, "find_package") == [1, 2];
    CatkinFindAsWrittenStep(TwoCatkinFinds, 0, comps, FirstCatkinFind, OneCatkinFind);
    assert Lookup(OneCatkinFind.contentMap, "find_package") == [2];
  }

  /** One step of the loop as written over a catkin find_package without components. */
  lemma CatkinFindAsWrittenStep(d: CMake, i: nat, comps: seq<string>, c: Command, d1: CMake)
    requires i < |Lookup(d.contentMap, "find_package")|
    requires ItemUnder(d.contents, "find_package", Lookup(d.contentMap, "find_package")[i]) == Some(Cmd(c))
    requires FindsCatkin(c) && ComponentsOf(c) == [] && RemoveCommand(d, c) == Ok(d1)
    ensures CatkinFindsRemovedAsWritten(d, i, comps) == CatkinFindsRemovedAsWritten(d1, i + 1, comps)
  {
    assert comps + [] == comps;
  }

  /** On the same file the corrected loop removes both commands. */
  lemma BothCatkinFindsRemoved()
    ensures CatkinFindsRemoved(TwoCatkinFinds, [1, 2], ["ament_cmake"])
      == Ok((CMake([], map["find_package" := []], 0), ["ament_cmake"]))
  {
    CatkinFindShape(FirstCatkinFind);
    CatkinFindsRemovedInTurn();
    FirstCatkinFindFiled();
    var comps := ["ament_cmake"];
    CatkinFindRemovedStep(TwoCatkinFinds, [1, 2], comps, FirstCatkinFind, OneCatkinFind);
    assert [1, 2][1..] == [2];
    SecondCatkinFindRemoved();
  }

  lemma SecondCatkinFindRemoved()
    ensures CatkinFindsRemoved(OneCatkinFind, [2], ["ament_cmake"])
      == Ok((CMake([], map["find_package" := []], 0), ["ament_cmake"]))
  {
    CatkinFindShape(SecondCatkinFind);
    CatkinFindsRemovedInTurn();
    SecondCatkinFindFiled();
    var comps := ["ament_cmake"];
    var empty := CMake([], map["find_package" := []], 0);
    CatkinFindRemovedStep(OneCatkinFind, [2], comps, SecondCatkinFind, empty);
    assert [2][1..] == [];
  }

  /** One step of the corrected loop over a catkin find_package without components. */
  lemma CatkinFindRemovedStep(d: CMake, ids: seq<nat>, comps: seq<string>, c: Command, d1: CMake)
    requires ids != [] && ItemUnder(d.contents, "find_package", ids[0]) == Some(Cmd(c))
    requires FindsCatkin(c) && ComponentsOf(c) == [] && RemoveCommand(d, c) == Ok(d1)
    ensures CatkinFindsRemoved(d, ids, comps) == CatkinFindsRemoved(d1, ids[1..], comps)
  {
    assert comps + [] == comps;
  }

  // ---------------------------------------------------------------------------------------
  // remove_all_commands (called at cmake.py:152)

  /** remove_all_commands(name): every command filed under `name` removed in turn. */
  function AllCommandsRemoved(d: CMake, name: string): Result<CMake, PyError>
  {
    RemovedAll(d, name, Lookup(d.contentMap, name))
  }

  method RemoveAllCommands(d: CMake, name: string) returns (r: Result<CMake, PyError>)
    ensures r == AllCommandsRemoved(d, name)
  {
    r := RemoveCommands(d, name, Lookup(d.contentMap, name));
  }

  /** In a consistent file the removal succeeds, keeps the index consistent, leaves no command
      called `name` and every item filed elsewhere as it was. */
  lemma AllCommandsRemovedSpec(d: CMake, name: string)
    requires Consistent(d) && name != "group"
    ensures AllCommandsRemoved(d, name).Ok?
    ensures var r := AllCommandsRemoved(d, name).value;
      Consistent(r)
      && (forall j :: 0 <= j < |r.contents| && r.contents[j].Cmd? ==> r.contents[j].cmd.name != name)
      && forall k, id :: id !in Lookup(d.contentMap, name) ==> ItemUnder(r.contents, k, id) == ItemUnder(d.contents, k, id)
  {
    var ids := Lookup(d.contentMap, name);
    FiledIds(d, name);
    forall id | id in ids
      ensures ItemUnder(d.contents, name, id).Some? && ItemUnder(d.contents, name, id).value.Cmd?
    {
      assert id in multiset(IdsUnder(d.contents, name));
    }
    RemovedAllOk(d, name, ids);
    RemovedAllSpec(d, name, ids);
    var r := AllCommandsRemoved(d, name).value;
    forall j | 0 <= j < |r.contents| && r.contents[j].Cmd?
      ensures r.contents[j].cmd.name != name
    {
      var id := r.contents[j].cmd.id;
      IdInIds(r.contents, j);
      InIdsUnder(r.contents, j);
      assert id !in ids;
      assert id !in multiset(IdsUnder(d.contents, name));
      assert ItemUnder(r.contents, name, id) == ItemUnder(d.contents, name, id);
    }
  }
}
