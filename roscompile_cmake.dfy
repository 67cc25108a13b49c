/** The CMakeLists.txt passes of roscompile/cmake.py: dependency merging into find_package,
    add_dependencies lookup, pattern removal, alphabetised sections, install formatting,
    comment stripping and blank-line collapsing. Each pass changes command objects in place;
    the model replaces the command with the same identity (CMakePass). */
module RoscompileCMake {
  import opened Base
  import opened Str
  import opened CMakeDoc
  import opened CMakeFile
  import opened CMakeQuery
  import opened CMakeEdit
  import opened CMakePass

  /** SHOULD_ALPHABETIZE (cmake.py:7) */
  const ShouldAlphabetize: seq<string> := ["COMPONENTS", "DEPENDENCIES", "FILES", "CATKIN_DEPENDS"]
  const NewlinePlus4 := "\n    "
  const NewlinePlus8 := "\n        "
  /** A newline and one space per character of `catkin_install_python(`. */
  const CatkinInstallPythonPrename := "\n                      "

  // ---------------------------------------------------------------------------------------
  // remove_empty_strings (cmake.py:327-328)

  /** `filter(lambda x: x != '', a)` on a list whose empty string is `empty` (a `Fragment("")`
      among command sections, a `Raw("")` among document contents). */
  function RemoveEmptyStrings<T(==,!new)>(xs: seq<T>, empty: T): (r: seq<T>)
    ensures empty !in r
    ensures forall x :: x in r <==> x in xs && x != empty
  {
    Filter(xs, Other(empty))
  }

  /** `lambda x: x != empty` */
  function Other<T(==)>(empty: T): T -> bool
  {
    x => x != empty
  }

  /** The filter keeps the order of what it keeps. */
  lemma RemoveEmptyStringsAppend<T(!new)>(a: seq<T>, b: seq<T>, empty: T)
    ensures RemoveEmptyStrings(a + b, empty) == RemoveEmptyStrings(a, empty) + RemoveEmptyStrings(b, empty)
  {
    FilterAppend(a, b, Other(empty));
  }

  // ---------------------------------------------------------------------------------------
  // remove_pattern (cmake.py:136-139)

  /** `[v for v in values if pattern not in v]` */
  function Without(values: seq<string>, pattern: string): seq<string>
  {
    Filter(values, v => !Contains(v, pattern))
  }

  /** remove_pattern: the section keeps exactly the values that do not contain `pattern`; the
      answer is whether any value went. */
  function RemovePattern(s: Section, pattern: string): (r: (Section, bool))
    ensures r.0 == s.(values := Without(s.values, pattern))
    ensures forall v :: v in r.0.values <==> v in s.values && !Contains(v, pattern)
    ensures r.1 <==> exists v :: v in s.values && Contains(v, pattern)
  {
    var kept := Without(s.values, pattern);
    FilterAll(s.values, v => !Contains(v, pattern));
    (s.(values := kept), |kept| != |s.values|)
  }

  /** The values kept stay in their order, and a second removal of the same pattern removes
      nothing. */
  lemma WithoutSpec(a: seq<string>, b: seq<string>, pattern: string)
    ensures Without(a + b, pattern) == Without(a, pattern) + Without(b, pattern)
    ensures Without(Without(a, pattern), pattern) == Without(a, pattern)
    ensures !RemovePattern(RemovePattern(Section("", a, Shared), pattern).0, pattern).1
  {
    FilterAppend(a, b, v => !Contains(v, pattern));
    FilterAll(Without(a, pattern), v => !Contains(v, pattern));
  }

  // ---------------------------------------------------------------------------------------
  // alphabetize_sections_helper (cmake.py:241-251)

  /** A section whose name is in SHOULD_ALPHABETIZE gets its values sorted. */
  function AlphabetizedItem(item: SectionItem): SectionItem
  {
    if item.Sec? && item.section.name in ShouldAlphabetize
    then Sec(item.section.(values := Sort(item.section.values))) else item
  }

  /** The item is such a section whose values are not in sorted order. */
  predicate Unsorted(item: SectionItem)
  {
    item.Sec? && item.section.name in ShouldAlphabetize && Sort(item.section.values) != item.section.values
  }

  /** The command after the loop over its real sections: marked changed when a section's values
      were reordered. */
  function AlphabetizedCommand(c: Command): Command
  {
    c.(sections := seq(|c.sections|, j requires 0 <= j < |c.sections| => AlphabetizedItem(c.sections[j])),
       changed := c.changed || exists j :: 0 <= j < |c.sections| && Unsorted(c.sections[j]))
  }

  function AlphabetizedContent(x: Content): Content
    decreases x, 1
  {
    match x
    case Raw(_) => x
    case Cmd(c) => Cmd(AlphabetizedCommand(c))
    case Group(id, i, sub, e) => Group(id, i, sub.(contents := AlphabetizedContents(sub.contents)), e)
  }

  /** alphabetize_sections_helper on a document's contents: every command, and the contents of
      every group body at any depth. The opening and closing commands of a group are not
      visited. */
  function AlphabetizedContents(cs: seq<Content>): seq<Content>
    decreases cs, 0
  {
    seq(|cs|, j requires 0 <= j < |cs| => AlphabetizedContent(cs[j]))
  }

  /** The loop of alphabetize_sections_helper over one command's sections. */
  method AlphabetizeCommand(c: Command) returns (c': Command)
    ensures c' == AlphabetizedCommand(c)
  {
    var items := c.sections;
    var changed := c.changed;
    var i := 0;
    while i < |items|
      invariant 0 <= i <= |items| && |items| == |c.sections|
      invariant forall j :: 0 <= j < i ==> items[j] == AlphabetizedItem(c.sections[j])
      invariant forall j :: i <= j < |items| ==> items[j] == c.sections[j]
      invariant changed == (c.changed || exists j :: 0 <= j < i && Unsorted(c.sections[j]))
    {
      var item := items[i];
      if item.Sec? && item.section.name in ShouldAlphabetize {
        var sorted := Sort(item.section.values);
        if sorted != item.section.values {
          items := items[i := Sec(item.section.(values := sorted))];
          changed := true;
        }
      }
      i := i + 1;
    }
    c' := c.(sections := items, changed := changed);
  }

  /** alphabetize_sections_helper(cmake): a pass over the contents that recurses into group
      bodies. */
  method AlphabetizeSectionsHelper(d: CMake) returns (d': CMake)
    ensures d' == d.(contents := AlphabetizedContents(d.contents))
    decreases d.contents, 0
  {
    var cs := d.contents;
    var i := 0;
    while i < |cs|
      invariant 0 <= i <= |cs| && |cs| == |d.contents|
      invariant forall j :: 0 <= j < i ==> cs[j] == AlphabetizedContent(d.contents[j])
      invariant forall j :: i <= j < |cs| ==> cs[j] == d.contents[j]
    {
      var x := AlphabetizeContent(cs[i]);
      cs := cs[i := x];
      i := i + 1;
    }
    d' := d.(contents := cs);
  }

  /** One iteration of that loop. */
  method AlphabetizeContent(x: Content) returns (y: Content)
    ensures y == AlphabetizedContent(x)
    decreases x, 1
  {
    match x {
      case Raw(_) => y := x;
      case Cmd(c) =>
        var c' := AlphabetizeCommand(c);
        y := Cmd(c');
      case Group(id, init, sub, close) =>
        var sub' := AlphabetizeSectionsHelper(sub);
        y := Group(id, init, sub', close);
    }
  }

  /** What the pass does to a command: only sections named in SHOULD_ALPHABETIZE change, and
      they come out sorted with the same values; the command is marked changed exactly when one
      of them was out of order. */
  lemma AlphabetizedCommandSpec(c: Command)
    ensures var c' := AlphabetizedCommand(c);
      c'.id == c.id && c'.name == c.name && c'.original == c.original && c'.preParen == c.preParen
      && |c'.sections| == |c.sections|
      && (forall j :: 0 <= j < |c.sections| ==>
            var x := c.sections[j];
            var y := c'.sections[j];
            if x.Sec? && x.section.name in ShouldAlphabetize
            then y.Sec? && y.section.name == x.section.name && y.section.style == x.section.style
                 && IsSorted(y.section.values) && multiset(y.section.values) == multiset(x.section.values)
            else y == x)
      && (c'.changed <==> c.changed || (exists j :: 0 <= j < |c.sections| && c.sections[j].Sec?
                                           && c.sections[j].section.name in ShouldAlphabetize
                                           && !IsSorted(c.sections[j].section.values)))
  {
    forall j | 0 <= j < |c.sections| && c.sections[j].Sec?
      ensures Unsorted(c.sections[j]) <==> c.sections[j].section.name in ShouldAlphabetize
                                           && !IsSorted(c.sections[j].section.values)
    {
      var v := c.sections[j].section.values;
      if IsSorted(v) {
        SortSorted(v);
      }
    }
  }

  /** A second pass changes nothing. */
  lemma {:induction false} AlphabetizedIdempotent(cs: seq<Content>)
    ensures AlphabetizedContents(AlphabetizedContents(cs)) == AlphabetizedContents(cs)
    decreases cs, 0
  {
    forall j | 0 <= j < |cs|
      ensures AlphabetizedContent(AlphabetizedContent(cs[j])) == AlphabetizedContent(cs[j])
    {
      AlphabetizedContentIdempotent(cs[j]);
    }
  }

  lemma {:induction false} AlphabetizedContentIdempotent(x: Content)
    ensures AlphabetizedContent(AlphabetizedContent(x)) == AlphabetizedContent(x)
    decreases x, 1
  {
    match x
    case Raw(_) =>
    case Cmd(c) => AlphabetizedCommandIdempotent(c);
    case Group(_, _, sub, _) => AlphabetizedIdempotent(sub.contents);
  }

  lemma AlphabetizedCommandIdempotent(c: Command)
    ensures AlphabetizedCommand(AlphabetizedCommand(c)) == AlphabetizedCommand(c)
  {
    var c1 := AlphabetizedCommand(c);
    forall j | 0 <= j < |c1.sections|
      ensures AlphabetizedItem(c1.sections[j]) == c1.sections[j] && !Unsorted(c1.sections[j])
    {
      if c.sections[j].Sec? && c.sections[j].section.name in ShouldAlphabetize {
        SortIdempotent(c.sections[j].section.values);
      }
    }
    assert AlphabetizedCommand(c1).sections == c1.sections;
  }

  /** The pass keeps every identity and command name, and so the index invariant. */
  lemma AlphabetizedConsistent(d: CMake)
    requires Consistent(d)
    ensures Consistent(d.(contents := AlphabetizedContents(d.contents)))
  {
    var a := AlphabetizedContents(d.contents);
    forall j | 0 <= j < |a|
      ensures a[j].Raw? == d.contents[j].Raw? && KeyOf(a[j]) == KeyOf(d.contents[j])
      ensures !a[j].Raw? ==> IdOf(a[j]) == IdOf(d.contents[j])
    {
      assert a[j] == AlphabetizedContent(d.contents[j]);
    }
    SameFiling(d.contents, a);
  }

  // ---------------------------------------------------------------------------------------
  // get_matching_add_depends (cmake.py:50-62)

  /** The targets an add_dependencies command may name: the target as written and resolved. */
  function ValidTargets(target: string, name: string): set<string>
  {
    {target, Replace(target, ProjectVar, name)}
  }

  /** Whether an add_dependencies item names one of `valid`, by its first token as written or
      resolved. first_token raises IndexError on a command without tokens. */
  function NamesTarget(c: Content, valid: set<string>, name: string): (r: Result<bool, PyError>)
  {
    if !c.Cmd? then Err(AttributeError)
    else match FirstToken(c.cmd)
      case None => Err(IndexError)
      case Some(t) => Ok(t in valid || Replace(t, ProjectVar, name) in valid)
  }

  /** No item before position `p` names a valid target, and none of them raises. */
  predicate NoneBefore(cs: seq<Content>, p: int, valid: set<string>, name: string)
    requires p <= |cs|
  {
    forall q :: 0 <= q < p ==> NamesTarget(cs[q], valid, name) == Ok(false)
  }

  /** get_matching_add_depends(cmake, target): the first add_dependencies command whose first
      token, as written or resolved, is the target or the resolved target; None when there is
      none. The first command it cannot read, and an unreadable project name, raise. */
  method GetMatchingAddDepends(d: CMake, target: string) returns (r: Result<Option<Command>, PyError>)
    ensures ProjectName(d).Err? ==> r == Err(ProjectName(d).error)
    ensures ProjectName(d).Ok? ==>
      var cs := Resolved(d, "add_dependencies");
      var name := ProjectName(d).value;
      var valid := ValidTargets(target, name);
      match r
      case Ok(None) => NoneBefore(cs, |cs|, valid, name)
      case Ok(Some(c)) =>
        exists p :: 0 <= p < |cs| && cs[p] == Cmd(c) && NamesTarget(cs[p], valid, name) == Ok(true)
                    && NoneBefore(cs, p, valid, name)
      case Err(e) =>
        exists p :: 0 <= p < |cs| && NamesTarget(cs[p], valid, name) == Err(e) && NoneBefore(cs, p, valid, name)
  {
    var project := ProjectName(d);
    if project.Err? {
      return Err(project.error);
    }
    var name := project.value;
    var valid := {target};
    var alt := Replace(target, ProjectVar, name);
    if alt != target {
      valid := valid + {alt};
    }
    assert valid == ValidTargets(target, name);
    var cs := Resolved(d, "add_dependencies");
    var i := 0;
    while i < |cs|
      invariant 0 <= i <= |cs| && NoneBefore(cs, i, valid, name)
    {
      if !cs[i].Cmd? {
        return Err(AttributeError);
      }
      var t := FirstToken(cs[i].cmd);
      if t.None? {
        return Err(IndexError);
      }
      if t.value in valid {
        return Ok(Some(cs[i].cmd));
      }
      if Replace(t.value, ProjectVar, name) in valid {
        return Ok(Some(cs[i].cmd));
      }
      i := i + 1;
    }
    return Ok(None);
  }

  // ---------------------------------------------------------------------------------------
  // check_cmake_dependencies_helper (cmake.py:13-38)

  /** `find_package(catkin REQUIRED)`, built as the helper builds it when the file has no
      find_package command. */
  function NewFindPackage(id: nat): Command
  {
    AddSection(AddSection(NewCommand(id, "find_package"), "", ["catkin"], Shared), "REQUIRED", [], Shared)
  }

  /** The command's first token is `catkin` and it has a REQUIRED section. */
  predicate CatkinRequired(c: Command)
  {
    var t := Tokens(c);
    |t| > 0 && t[0] == "catkin" && FindSection(c.sections, "REQUIRED").Some?
  }

  /** The position of the section that receives packages: COMPONENTS, else REQUIRED when it
      already lists packages. */
  function DepSection(c: Command): (r: Option<nat>)
    requires FindSection(c.sections, "REQUIRED").Some?
    ensures r.Some? ==> r.value < |c.sections| && c.sections[r.value].Sec?
  {
    match FindSection(c.sections, "COMPONENTS")
    case Some(i) => Some(i)
    case None =>
      var q := FindSection(c.sections, "REQUIRED").value;
      if |c.sections[q].section.values| > 0 then Some(q) else None
  }

  /** `dependencies - set(resolved values)` */
  function Needed(deps: set<string>, values: seq<string>, name: string): set<string>
  {
    deps - set v | v in ResolveAll(values, name)
  }

  /** The values after `section.add_values(needed_items)`. `needed_items` is a Python set, whose
      order the model fixes as sorted. */
  function WithNeeded(deps: set<string>, values: seq<string>, name: string): seq<string>
  {
    values + SortSet(Needed(deps, values, name))
  }

  /** The merged values keep the old ones as a prefix and gain, in sorted order, exactly the
      dependencies the old ones lacked after resolution; afterwards every dependency is there,
      as written or resolved. */
  lemma WithNeededSpec(deps: set<string>, values: seq<string>, name: string)
    ensures var v := WithNeeded(deps, values, name);
      v[..|values|] == values && IsSorted(v[|values|..])
      && (forall x :: x in v[|values|..] <==> x in deps && x !in ResolveAll(values, name))
      && (forall x :: x in deps ==> x in v || x in ResolveAll(v, name))
      && (v == values <==> Needed(deps, values, name) == {})
  {
    var v := WithNeeded(deps, values, name);
    var needed := Needed(deps, values, name);
    assert v[..|values|] == values && v[|values|..] == SortSet(needed);
    forall x | x in deps
      ensures x in v || x in ResolveAll(v, name)
    {
      if x !in needed {
        var k :| 0 <= k < |values| && ResolveAll(values, name)[k] == x;
        assert ResolveAll(v, name)[k] == x;
      }
    }
    WithNeededSame(deps, values, name);
  }

  lemma WithNeededSame(deps: set<string>, values: seq<string>, name: string)
    ensures WithNeeded(deps, values, name) == values <==> Needed(deps, values, name) == {}
  {
    var needed := Needed(deps, values, name);
    if needed != {} {
      var m := SetMin(needed);
      assert m in SortSet(needed);
    }
  }

  /** One iteration over a find_package command. `project` is the outcome of
      get_project_name, which resolve_variables consults. */
  function DepEdit(deps: set<string>, project: Result<string, PyError>, c: Command): Result<Command, PyError>
  {
    if !CatkinRequired(c) then Ok(c)
    else match DepSection(c)
      case None => Ok(AddSection(c, "COMPONENTS", SortSet(deps), Shared))
      case Some(i) =>
        var name :- project;
        Ok(DepMerge(deps, name, c, i))
  }

  /** The merge into the section at position `i`, marked changed only when it appends. */
  function DepMerge(deps: set<string>, name: string, c: Command, i: nat): Command
    requires i < |c.sections| && c.sections[i].Sec?
  {
    var s := c.sections[i].section;
    if Needed(deps, s.values, name) == {} then c
    else c.(sections := c.sections[i := Sec(s.(values := WithNeeded(deps, s.values, name)))], changed := true)
  }

  function DepStep(deps: set<string>, project: Result<string, PyError>): Edit<()>
  {
    (c: Command, u: ()) => Stateless(DepEdit(deps, project, c), u)
  }

  /** The edit keeps the command's identity and name, and leaves alone every command that is
      not `find_package(catkin REQUIRED ...)`. */
  lemma DepEditKeeps(deps: set<string>, project: Result<string, PyError>, c: Command)
    ensures DepEdit(deps, project, c).Ok? ==>
      DepEdit(deps, project, c).value.id == c.id && DepEdit(deps, project, c).value.name == c.name
    ensures !CatkinRequired(c) ==> DepEdit(deps, project, c) == Ok(c)
  {
  }

  /** Without a COMPONENTS section, and with a REQUIRED section that lists nothing, a new
      COMPONENTS section holds exactly the dependencies, sorted. */
  lemma DepEditAddsComponents(deps: set<string>, project: Result<string, PyError>, c: Command)
    requires CatkinRequired(c) && DepSection(c).None?
    ensures var r := DepEdit(deps, project, c);
      r.Ok? && r.value.changed
      && RealSections(r.value.sections) == RealSections(c.sections) + [Section("COMPONENTS", SortSet(deps), Shared)]
      && IsSorted(SortSet(deps)) && (forall x :: x in SortSet(deps) <==> x in deps)
  {
  }

  /** Otherwise the section found gains the missing dependencies and nothing else changes; the
      command is marked changed exactly when something was appended, and is left as it was
      otherwise. An unreadable project name raises. */
  lemma DepEditMerges(deps: set<string>, project: Result<string, PyError>, c: Command)
    requires CatkinRequired(c) && DepSection(c).Some?
    ensures DepEdit(deps, project, c).Ok? <==> project.Ok?
    ensures project.Ok? ==> DepEdit(deps, project, c) == Ok(DepMerge(deps, project.value, c, DepSection(c).value))
  {
  }

  lemma DepMergeSpec(deps: set<string>, name: string, c: Command, i: nat)
    requires i < |c.sections| && c.sections[i].Sec?
    ensures var r := DepMerge(deps, name, c, i);
      var v := WithNeeded(deps, c.sections[i].section.values, name);
      |r.sections| == |c.sections| && r.id == c.id && r.name == c.name
      && (forall j :: 0 <= j < |c.sections| && j != i ==> r.sections[j] == c.sections[j])
      && r.sections[i] == Sec(c.sections[i].section.(values := v))
      && (r == c <==> v == c.sections[i].section.values)
      && (r != c ==> r.changed)
  {
    WithNeededSame(deps, c.sections[i].section.values, name);
    var r := DepMerge(deps, name, c, i);
    if r == c {
      assert r.sections[i] == c.sections[i];
    }
  }

  /** The step keeps identities, as the loop over find_package commands needs. */
  lemma DepStepKeepsIdentity(deps: set<string>, project: Result<string, PyError>)
    ensures KeepsIdentity(DepStep(deps, project))
  {
    forall c: Command, u: ()
      ensures DepStep(deps, project)(c, u).Ok? ==>
        DepStep(deps, project)(c, u).value.0.id == c.id && DepStep(deps, project)(c, u).value.0.name == c.name
    {
      DepEditKeeps(deps, project, c);
    }
  }

  /** The document after check_cmake_dependencies_helper(cmake, dependencies, check_catkin_pkg).
      `freshId` and `freshId2` are the identities of the commands the helper and section_check
      would create. */
  function DependenciesChecked(d: CMake, deps: set<string>, checkCatkinPkg: bool, freshId: nat, freshId2: nat)
    : Result<CMake, PyError>
  {
    if |deps| == 0 then Ok(d)
    else
      var d1 :- if Lookup(d.contentMap, "find_package") == [] then AddCommand(d, Cmd(NewFindPackage(freshId))) else Ok(d);
      var p :- EditEach(d1, "find_package", Lookup(d1.contentMap, "find_package"), (), DepStep(deps, ProjectName(d1)));
      if checkCatkinPkg then SectionCheck(p.0, SortSet(deps), "catkin_package", "CATKIN_DEPENDS", false, true, freshId2)
      else Ok(p.0)
  }

  method CheckCMakeDependenciesHelper(d: CMake, deps: set<string>, checkCatkinPkg: bool, freshId: nat, freshId2: nat)
    returns (r: Result<CMake, PyError>)
    ensures r == DependenciesChecked(d, deps, checkCatkinPkg, freshId, freshId2)
  {
    if |deps| == 0 {
      return Ok(d);
    }
    var d1 := d;
    if Lookup(d.contentMap, "find_package") == [] {
      var added := AddCommand(d, Cmd(NewFindPackage(freshId)));
      if added.Err? {
        return Err(added.error);
      }
      d1 := added.value;
    }
    var p := EditPass(d1, "find_package", (), DepStep(deps, ProjectName(d1)));
    if p.Err? {
      return Err(p.error);
    }
    r := Ok(p.value.0);
    if checkCatkinPkg {
      r := SectionCheck(p.value.0, SortSet(deps), "catkin_package", "CATKIN_DEPENDS", false, true, freshId2);
    }
  }

  /** The helper does nothing for no dependencies. Otherwise, in a consistent document: the
      index stays consistent, a find_package command exists afterwards, and with
      `check_catkin_pkg` the catkin_package command lists every dependency in CATKIN_DEPENDS.
      FindPackagePass states what happens to the find_package commands. */
  lemma DependenciesCheckedSpec(d: CMake, deps: set<string>, checkCatkinPkg: bool, freshId: nat, freshId2: nat)
    requires Consistent(d) && freshId !in Ids(d.contents) && freshId2 !in Ids(d.contents) && freshId != freshId2
    ensures |deps| == 0 ==> DependenciesChecked(d, deps, checkCatkinPkg, freshId, freshId2) == Ok(d)
    ensures DependenciesChecked(d, deps, checkCatkinPkg, freshId, freshId2).Ok? ==>
      var d' := DependenciesChecked(d, deps, checkCatkinPkg, freshId, freshId2).value;
      Consistent(d') && (|deps| > 0 ==> Lookup(d'.contentMap, "find_package") != [])
      && (|deps| > 0 && checkCatkinPkg ==>
            exists vs :: FoundWith(d', "catkin_package", "CATKIN_DEPENDS", vs) && forall x :: x in deps ==> x in vs)
  {
    var r := DependenciesChecked(d, deps, checkCatkinPkg, freshId, freshId2);
    if |deps| > 0 && r.Ok? {
      var d1 := if Lookup(d.contentMap, "find_package") == [] then AddCommand(d, Cmd(NewFindPackage(freshId))).value else d;
      if Lookup(d.contentMap, "find_package") == [] {
        AddCommandConsistent(d, Cmd(NewFindPackage(freshId)));
        AddedIds(d, Cmd(NewFindPackage(freshId)));
        FileUnderLookup(d.contentMap, Cmd(NewFindPackage(freshId)), "find_package");
      }
      assert Consistent(d1) && freshId2 !in Ids(d1.contents) && Lookup(d1.contentMap, "find_package") != [];
      var ids := Lookup(d1.contentMap, "find_package");
      var f := DepStep(deps, ProjectName(d1));
      assert EditEach(d1, "find_package", ids, (), f).Ok?;
      var d2 := EditEach(d1, "find_package", ids, (), f).value.0;
      FindPackagePass(d1, deps);
      if checkCatkinPkg {
        var items := SortSet(deps);
        SectionCheckLookup(d2, items, "catkin_package", "CATKIN_DEPENDS", false, true, freshId2, "find_package");
        SectionCheckHolds(d2, items, "catkin_package", "CATKIN_DEPENDS", false, true, freshId2);
        var vs := Merged(FoundValues(CommandSection(d2, "catkin_package", "CATKIN_DEPENDS").value), items, true);
        MergedSpec(FoundValues(CommandSection(d2, "catkin_package", "CATKIN_DEPENDS").value), items, true);
        assert FoundWith(r.value, "catkin_package", "CATKIN_DEPENDS", vs);
      } else {
        assert r.value == d2;
      }
    }
  }

  /** The loop over find_package commands edits every find_package command where it stands
      and nothing else, and keeps the index, its invariant and every identity. */
  lemma FindPackagePass(d: CMake, deps: set<string>)
    requires Consistent(d)
    ensures var ids := Lookup(d.contentMap, "find_package");
      var r := EditEach(d, "find_package", ids, (), DepStep(deps, ProjectName(d)));
      r.Ok? ==>
        Consistent(r.value.0) && r.value.0.contentMap == d.contentMap && Ids(r.value.0.contents) == Ids(d.contents)
        && EditedDoc(d, r.value.0, "find_package", ids, DepStep(deps, ProjectName(d)))
        && forall j :: 0 <= j < |d.contents| && d.contents[j].Cmd? && d.contents[j].cmd.name == "find_package" ==>
             Visited(d.contents[j], "find_package", ids)
  {
    var ids := Lookup(d.contentMap, "find_package");
    var f := DepStep(deps, ProjectName(d));
    DepStepKeepsIdentity(deps, ProjectName(d));
    FiledIds(d, "find_package");
    EditEachSpec(d, "find_package", ids, (), f);
    var r := EditEach(d, "find_package", ids, (), f);
    if r.Ok? {
      EditedIds(d, r.value.0, "find_package", ids, f);
    }
  }

  // ---------------------------------------------------------------------------------------
  // prettify_installs (cmake.py:303-324)

  /** Some section at a position in 1..j-1 has no values: the loop's `zeroed` at position j. */
  predicate ZeroedBefore(ss: seq<Section>, j: int)
    requires j <= |ss|
  {
    exists k :: 1 <= k < j && |ss[k].values| == 0
  }

  /** The prename the loop gives the section at position j >= 1: NEWLINE_PLUS_8 for an empty
      section and for every section up to the first empty one, '' after it. */
  function InstallPrename(ss: seq<Section>, j: int): string
    requires 1 <= j < |ss|
  {
    if |ss[j].values| == 0 || !ZeroedBefore(ss, j) then NewlinePlus8 else ""
  }

  /** `section.style.prename = p`. A section with a style object of its own changes that
      object; a section that shares the default style object changes the shared object, and
      so every section that shares it. */
  function SetPrename(s: Section, p: string, shared: SectionStyle): (r: (Section, SectionStyle))
    ensures StyleOf(r.0.style, r.1).prename == p
    ensures r.0.name == s.name && r.0.values == s.values && r.0.style.Shared? == s.style.Shared?
    ensures s.style.Own? ==> r.1 == shared
    ensures s.style.Shared? ==> r.0 == s
  {
    match s.style
    case Shared => (s, shared.(prename := p))
    case Own(st) => (s.(style := Own(st.(prename := p))), shared)
  }

  /** The last position in 1..n-1 holding a section that shares the default style, or 0. */
  function LastShared(ss: seq<Section>, n: int): (r: nat)
    requires n <= |ss|
    ensures r < n || r == 0
    ensures r > 0 ==> ss[r].style.Shared? && forall j :: r < j < n ==> ss[j].style.Own?
    ensures r == 0 ==> forall j :: 1 <= j < n ==> ss[j].style.Own?
    decreases n
  {
    if n <= 1 then 0 else if ss[n - 1].style.Shared? then n - 1 else LastShared(ss, n - 1)
  }

  /** The shared style after the loop has reached position n: the prename the last sharing
      section was given, if any. */
  function SharedAt(ss: seq<Section>, n: int, shared: SectionStyle): SectionStyle
    requires n <= |ss|
  {
    var l := LastShared(ss, n);
    if l == 0 then shared else shared.(prename := InstallPrename(ss, l))
  }

  /** Section j of an install command after the loop. */
  function Prettified(ss: seq<Section>, j: int): Section
    requires 0 <= j < |ss|
  {
    if j == 0 then ss[0] else SetPrename(ss[j], InstallPrename(ss, j), InitialStyle).0
  }

  /** One install command after the pass: changed, its raw string sections dropped, every later
      section given its prename. */
  function InstallEdit(c: Command, shared: SectionStyle): Result<(Command, SectionStyle), PyError>
  {
    var ss := RealSections(c.sections);
    Ok((c.(sections := seq(|ss|, j requires 0 <= j < |ss| => Sec(Prettified(ss, j))), changed := true),
        SharedAt(ss, |ss|, shared)))
  }

  /** The loop of prettify_installs over one install command. */
  method PrettifyInstall(c: Command, shared: SectionStyle) returns (c': Command, shared': SectionStyle)
    ensures InstallEdit(c, shared) == Ok((c', shared'))
  {
    var ss := RealSections(c.sections);
    var out := ss;
    var sh := shared;
    var zeroed := false;
    if |ss| > 1 {
      var i := 1;
      while i < |ss|
        invariant 1 <= i <= |ss| && |out| == |ss|
        invariant zeroed == ZeroedBefore(ss, i)
        invariant sh == SharedAt(ss, i, shared)
        invariant out[0] == ss[0]
        invariant forall j :: 1 <= j < i ==> out[j] == Prettified(ss, j)
        invariant forall j :: i <= j < |ss| ==> out[j] == ss[j]
      {
        var p: string;
        if |ss[i].values| == 0 {
          p := NewlinePlus8;
          zeroed := true;
        } else if !zeroed {
          p := NewlinePlus8;
        } else {
          p := "";
        }
        PrettifyStep(ss, i, shared);
        var set_ := SetPrename(out[i], p, sh);
        out := out[i := set_.0];
        sh := set_.1;
        i := i + 1;
      }
    }
    assert sh == SharedAt(ss, |ss|, shared);
    assert forall j :: 0 <= j < |ss| ==> out[j] == Prettified(ss, j);
    var items := seq(|out|, j requires 0 <= j < |out| => Sec(out[j]));
    assert items == seq(|ss|, j requires 0 <= j < |ss| => Sec(Prettified(ss, j)));
    c' := c.(sections := items, changed := true);
    shared' := sh;
  }

  /** One iteration of that loop, against the reference definitions. */
  lemma PrettifyStep(ss: seq<Section>, i: int, shared: SectionStyle)
    requires 1 <= i < |ss|
    ensures ZeroedBefore(ss, i + 1) == (ZeroedBefore(ss, i) || |ss[i].values| == 0)
    ensures var p := SetPrename(ss[i], InstallPrename(ss, i), SharedAt(ss, i, shared));
      p.0 == Prettified(ss, i) && p.1 == SharedAt(ss, i + 1, shared)
  {
    if |ss[i].values| == 0 {
      assert ZeroedBefore(ss, i + 1) by { assert 1 <= i < i + 1 && |ss[i].values| == 0; }
    }
  }

  /** What the pass leaves in an install command: only its sections, in order, with their names
      and values; the first as it was; every later one renders with the prename the loop
      gave it when it has a style of its own, and with the prename given to the last
      style-sharing section when it shares the default style, as every section in the file
      that shares it does. */
  lemma InstallEditSpec(c: Command, shared: SectionStyle)
    ensures var ss := RealSections(c.sections);
      var r := InstallEdit(c, shared).value;
      r.0.changed && r.0.id == c.id && r.0.name == c.name && |r.0.sections| == |ss|
      && (forall j :: 0 <= j < |ss| ==>
            (r.0.sections[j].Sec? && r.0.sections[j].section.name == ss[j].name
             && r.0.sections[j].section.values == ss[j].values))
      && (|ss| > 0 ==> r.0.sections[0] == Sec(ss[0]))
      && (forall j :: 1 <= j < |ss| && ss[j].style.Own? ==>
            StyleOf(r.0.sections[j].section.style, r.1).prename == InstallPrename(ss, j))
      && (LastShared(ss, |ss|) > 0 ==>
            r.1.prename == InstallPrename(ss, LastShared(ss, |ss|))
            && forall j :: 1 <= j < |ss| && ss[j].style.Shared? ==>
                 StyleOf(r.0.sections[j].section.style, r.1) == r.1)
      && (LastShared(ss, |ss|) == 0 ==> r.1 == shared)
  {
  }

  /** The prename rule: NEWLINE_PLUS_8 on every section up to and including the first empty
      one and on every empty one, '' on a non-empty section after an empty one. */
  lemma InstallPrenameRule(ss: seq<Section>, j: int, k: int)
    requires 1 <= k < j < |ss| && |ss[k].values| == 0
    ensures InstallPrename(ss, j) == (if |ss[j].values| == 0 then NewlinePlus8 else "")
    ensures (forall m :: 1 <= m < k ==> |ss[m].values| > 0) ==>
      (InstallPrename(ss, k) == NewlinePlus8 && forall m :: 1 <= m < k ==> InstallPrename(ss, m) == NewlinePlus8)
  {
  }

  /** The catkin_install_python iteration: the second item of `sections` must be a Section
      (IndexError when there is none, AttributeError on a raw string); its prename becomes
      CATKIN_INSTALL_PYTHON_PRENAME, and the command is marked changed only when it was not. */
  function InstallPythonEdit(c: Command, shared: SectionStyle): Result<(Command, SectionStyle), PyError>
  {
    if |c.sections| < 2 then Err(IndexError)
    else if c.sections[1].Fragment? then Err(AttributeError)
    else
      var s := c.sections[1].section;
      if StyleOf(s.style, shared).prename == CatkinInstallPythonPrename then Ok((c, shared))
      else
        var p := SetPrename(s, CatkinInstallPythonPrename, shared);
        Ok((c.(sections := c.sections[1 := Sec(p.0)], changed := true), p.1))
  }

  lemma InstallPythonEditSpec(c: Command, shared: SectionStyle)
    ensures InstallPythonEdit(c, shared).Err? <==> |c.sections| < 2 || c.sections[1].Fragment?
    ensures InstallPythonEdit(c, shared).Ok? ==>
      var r := InstallPythonEdit(c, shared).value;
      var was := StyleOf(c.sections[1].section.style, shared).prename;
      r.0.id == c.id && r.0.name == c.name && |r.0.sections| == |c.sections|
      && r.0.sections[1].Sec? && StyleOf(r.0.sections[1].section.style, r.1).prename == CatkinInstallPythonPrename
      && (forall j :: 0 <= j < |c.sections| && j != 1 ==> r.0.sections[j] == c.sections[j])
      && (was == CatkinInstallPythonPrename <==> r == (c, shared))
      && (was != CatkinInstallPythonPrename ==> r.0.changed)
  {
  }

  /** prettify_installs on a file whose shared default style is `shared`. */
  function InstallsPrettified(d: CMake, shared: SectionStyle): Result<(CMake, SectionStyle), PyError>
  {
    var p :- EditEach(d, "install", Lookup(d.contentMap, "install"), shared, InstallEdit);
    EditEach(p.0, "catkin_install_python", Lookup(p.0.contentMap, "catkin_install_python"), p.1, InstallPythonEdit)
  }

  method PrettifyInstalls(d: CMake, shared: SectionStyle) returns (r: Result<(CMake, SectionStyle), PyError>)
    ensures r == InstallsPrettified(d, shared)
  {
    var p := EditPass(d, "install", shared, InstallEdit);
    if p.Err? {
      return Err(p.error);
    }
    r := EditPass(p.value.0, "catkin_install_python", p.value.1, InstallPythonEdit);
  }

  /** In a consistent file, the pass edits every install command with InstallEdit and every
      catkin_install_python command with InstallPythonEdit, where they stand, and touches nothing
      else; the index invariant is kept. */
  lemma InstallsPrettifiedSpec(d: CMake, shared: SectionStyle)
    requires Consistent(d)
    ensures var ids := Lookup(d.contentMap, "install");
      var p := EditEach(d, "install", ids, shared, InstallEdit);
      p.Ok? ==>
        EditedDoc(d, p.value.0, "install", ids, InstallEdit)
        && (forall j :: 0 <= j < |d.contents| && d.contents[j].Cmd? && d.contents[j].cmd.name == "install" ==>
              Visited(d.contents[j], "install", ids))
        && var ids2 := Lookup(p.value.0.contentMap, "catkin_install_python");
           var r := EditEach(p.value.0, "catkin_install_python", ids2, p.value.1, InstallPythonEdit);
           r.Ok? ==>
             r == InstallsPrettified(d, shared) && Consistent(r.value.0)
             && EditedDoc(p.value.0, r.value.0, "catkin_install_python", ids2, InstallPythonEdit)
             && forall j :: 0 <= j < |d.contents| && d.contents[j].Cmd? && d.contents[j].cmd.name == "catkin_install_python" ==>
                  Visited(p.value.0.contents[j], "catkin_install_python", ids2)
  {
    var ids := Lookup(d.contentMap, "install");
    forall c: Command, st: SectionStyle
      ensures InstallEdit(c, st).Ok? ==> InstallEdit(c, st).value.0.id == c.id && InstallEdit(c, st).value.0.name == c.name
    {
    }
    forall c: Command, st: SectionStyle
      ensures InstallPythonEdit(c, st).Ok? ==>
        InstallPythonEdit(c, st).value.0.id == c.id && InstallPythonEdit(c, st).value.0.name == c.name
    {
    }
    FiledIds(d, "install");
    EditEachSpec(d, "install", ids, shared, InstallEdit);
    var p := EditEach(d, "install", ids, shared, InstallEdit);
    if p.Ok? {
      var d1 := p.value.0;
      var ids2 := Lookup(d1.contentMap, "catkin_install_python");
      FiledIds(d1, "catkin_install_python");
      EditEachSpec(d1, "catkin_install_python", ids2, p.value.1, InstallPythonEdit);
      forall j | 0 <= j < |d.contents| && d.contents[j].Cmd? && d.contents[j].cmd.name == "catkin_install_python"
        ensures d1.contents[j] == d.contents[j]
      {
        assert !Visited(d.contents[j], "install", ids);
      }
    }
  }

  // ---------------------------------------------------------------------------------------
  // remove_cmake_command_comments_helper (cmake.py:331-342)

  /** The ignorables are non-empty and the replacement is shorter than each of them, so every
      `while ignorable in text` loop ends. Every caller passes '' as the replacement, for which
      this means non-empty ignorables; an empty ignorable would loop forever. */
  predicate Purgeable(igns: seq<string>, rep: string)
  {
    forall ign :: ign in igns ==> ign != [] && |rep| < |ign|
  }

  /** `while ign in t: t = t.replace(ign, rep)`: afterwards `ign` does not occur, and the text
      shrank exactly when the loop ran. */
  function Purged(t: string, ign: string, rep: string): (r: string)
    requires ign != [] && |rep| < |ign|
    ensures !Contains(r, ign)
    ensures |r| <= |t| && (|r| < |t| <==> Contains(t, ign))
    decreases |t|
  {
    if Contains(t, ign) then
      ReplaceShrinks(t, ign, rep);
      Purged(Replace(t, ign, rep), ign, rep)
    else t
  }

  /** The text after the loops over every ignorable in turn, and whether any loop body ran:
      the last ignorable no longer occurs, and a loop ran exactly when the text shrank. */
  function Swept(t: string, igns: seq<string>, rep: string): (r: (string, bool))
    requires Purgeable(igns, rep)
    ensures |igns| > 0 ==> !Contains(r.0, igns[|igns| - 1])
    ensures |r.0| <= |t| && (r.1 <==> |r.0| < |t|)
    ensures !r.1 ==> r.0 == t
    decreases |igns|
  {
    if igns == [] then (t, false)
    else
      var rest := Swept(Purged(t, igns[0], rep), igns[1..], rep);
      (rest.0, Contains(t, igns[0]) || rest.1)
  }

  method Purge(t: string, ign: string, rep: string) returns (t': string, ran: bool)
    requires ign != [] && |rep| < |ign|
    ensures t' == Purged(t, ign, rep) && ran == Contains(t, ign)
  {
    t' := t;
    ran := false;
    while Contains(t', ign)
      invariant Purged(t', ign, rep) == Purged(t, ign, rep)
      invariant ran == Contains(t, ign) || (!ran && t' == t)
      decreases |t'|
    {
      ReplaceShrinks(t', ign, rep);
      ran := true;
      t' := Replace(t', ign, rep);
    }
  }

  /** `for ignorable in ignorables:` over one raw string. */
  method Sweep(t: string, igns: seq<string>, rep: string) returns (t': string, ran: bool)
    requires Purgeable(igns, rep)
    ensures (t', ran) == Swept(t, igns, rep)
  {
    t' := t;
    ran := false;
    var k := 0;
    while k < |igns|
      invariant 0 <= k <= |igns|
      invariant Swept(t', igns[k..], rep).0 == Swept(t, igns, rep).0
      invariant (ran || Swept(t', igns[k..], rep).1) == Swept(t, igns, rep).1
    {
      assert igns[k..][1..] == igns[k + 1..];
      var r;
      t', r := Purge(t', igns[k], rep);
      ran := ran || r;
      k := k + 1;
    }
  }

  /** A raw string section after the loops, and whether they ran; a Section is left alone. */
  function SweptItem(x: SectionItem, igns: seq<string>, rep: string): (SectionItem, bool)
    requires Purgeable(igns, rep)
  {
    if x.Fragment? then var p := Swept(x.text, igns, rep); (Fragment(p.0), p.1) else (x, false)
  }

  /** Every section after the loop over `enumerate(command.sections)`. */
  function SweptItems(items: seq<SectionItem>, igns: seq<string>, rep: string): (r: seq<SectionItem>)
    requires Purgeable(igns, rep)
    ensures |r| == |items|
  {
    seq(|items|, j requires 0 <= j < |items| => SweptItem(items[j], igns, rep).0)
  }

  /** Some loop body ran on one of the first `n` sections. */
  predicate AnySwept(items: seq<SectionItem>, n: int, igns: seq<string>, rep: string)
    requires Purgeable(igns, rep) && n <= |items|
  {
    exists j :: 0 <= j < n && SweptItem(items[j], igns, rep).1
  }

  /** `if command.changed:` the empty strings go, and a lone '\n' too. */
  function Tidied(items: seq<SectionItem>): seq<SectionItem>
  {
    var kept := RemoveEmptyStrings(items, Fragment(""));
    if kept == [Fragment("\n")] then [] else kept
  }

  /** The command after remove_cmake_command_comments_helper: its raw string sections swept;
      marked changed when a loop ran; tidied when it is marked changed, now or before. */
  function SweptCommand(c: Command, igns: seq<string>, rep: string): Command
    requires Purgeable(igns, rep)
  {
    var items := SweptItems(c.sections, igns, rep);
    var changed := c.changed || AnySwept(c.sections, |c.sections|, igns, rep);
    c.(sections := if changed then Tidied(items) else items, changed := changed)
  }

  /** The loop over `enumerate(command.sections)`. */
  method SweepSections(items: seq<SectionItem>, igns: seq<string>, rep: string) returns (r: seq<SectionItem>, ran: bool)
    requires Purgeable(igns, rep)
    ensures r == SweptItems(items, igns, rep) && ran == AnySwept(items, |items|, igns, rep)
  {
    r := items;
    ran := false;
    var i := 0;
    while i < |r|
      invariant 0 <= i <= |r| && |r| == |items|
      invariant forall j :: 0 <= j < i ==> r[j] == SweptItem(items[j], igns, rep).0
      invariant forall j :: i <= j < |r| ==> r[j] == items[j]
      invariant ran == AnySwept(items, i, igns, rep)
    {
      if r[i].Fragment? {
        var t, ran1 := Sweep(r[i].text, igns, rep);
        r := r[i := Fragment(t)];
        ran := ran || ran1;
      }
      assert AnySwept(items, i + 1, igns, rep) == (AnySwept(items, i, igns, rep) || SweptItem(items[i], igns, rep).1);
      i := i + 1;
    }
  }

  method RemoveCMakeCommandCommentsHelper(c: Command, igns: seq<string>, rep: string) returns (c': Command)
    requires Purgeable(igns, rep)
    ensures c' == SweptCommand(c, igns, rep)
  {
    var items, ran := SweepSections(c.sections, igns, rep);
    var changed := c.changed || ran;
    if changed {
      items := RemoveEmptyStrings(items, Fragment(""));
      if items == [Fragment("\n")] {
        items := [];
      }
    }
    c' := c.(sections := items, changed := changed);
  }

  /** The helper keeps the command's Sections, in order; a command left unmarked is exactly as
      it was. */
  lemma SweptCommandKeeps(c: Command, igns: seq<string>, rep: string)
    requires Purgeable(igns, rep)
    ensures var r := SweptCommand(c, igns, rep);
      r.id == c.id && r.name == c.name && RealSections(r.sections) == RealSections(c.sections)
      && (!r.changed ==> r == c)
  {
    var items := SweptItems(c.sections, igns, rep);
    RealSectionsOfSwept(c.sections, items, igns, rep);
    var changed := c.changed || AnySwept(c.sections, |c.sections|, igns, rep);
    if changed {
      TidiedReal(items);
      assert SweptCommand(c, igns, rep).sections == Tidied(items);
    } else {
      UnsweptSame(c.sections, igns, rep);
      assert SweptCommand(c, igns, rep).sections == items;
    }
  }

  lemma UnsweptSame(items: seq<SectionItem>, igns: seq<string>, rep: string)
    requires Purgeable(igns, rep) && !AnySwept(items, |items|, igns, rep)
    ensures SweptItems(items, igns, rep) == items
  {
    forall j | 0 <= j < |items| ensures SweptItems(items, igns, rep)[j] == items[j] {
      assert !SweptItem(items[j], igns, rep).1;
    }
  }

  /** The helper marks the command changed exactly when it was marked before or some raw
      string section of it shrank. */
  lemma SweptCommandMarks(c: Command, igns: seq<string>, rep: string)
    requires Purgeable(igns, rep)
    ensures SweptCommand(c, igns, rep).changed
        <==> (c.changed || exists j :: 0 <= j < |c.sections| && c.sections[j].Fragment?
                                    && |SweptItems(c.sections, igns, rep)[j].text| < |c.sections[j].text|)
  {
    var items := SweptItems(c.sections, igns, rep);
    forall j | 0 <= j < |c.sections|
      ensures SweptItem(c.sections[j], igns, rep).1
          <==> c.sections[j].Fragment? && |items[j].text| < |c.sections[j].text|
    {
    }
  }

  /** A command marked changed afterwards has no empty string section and is not just a
      newline, and no raw string section of it holds the last ignorable. */
  lemma SweptCommandClean(c: Command, igns: seq<string>, rep: string)
    requires Purgeable(igns, rep)
    ensures var r := SweptCommand(c, igns, rep);
      (r.changed ==> Fragment("") !in r.sections && r.sections != [Fragment("\n")])
      && (|igns| > 0 ==> forall x :: x in r.sections && x.Fragment? ==> !Contains(x.text, igns[|igns| - 1]))
  {
    var items := SweptItems(c.sections, igns, rep);
    assert forall x :: x in Tidied(items) ==> x in items;
  }

  lemma TidiedReal(items: seq<SectionItem>)
    ensures RealSections(Tidied(items)) == RealSections(items)
  {
    RealSectionsWithoutEmpty(items);
  }

  lemma {:induction false} RealSectionsOfSwept(a: seq<SectionItem>, b: seq<SectionItem>, igns: seq<string>, rep: string)
    requires Purgeable(igns, rep)
    requires |a| == |b| && forall j :: 0 <= j < |a| ==> b[j] == SweptItem(a[j], igns, rep).0
    ensures RealSections(b) == RealSections(a)
  {
    if a != [] {
      RealSectionsOfSwept(a[1..], b[1..], igns, rep);
    }
  }

  lemma {:induction false} RealSectionsWithoutEmpty(items: seq<SectionItem>)
    ensures RealSections(RemoveEmptyStrings(items, Fragment(""))) == RealSections(items)
  {
    if items != [] {
      assert items == [items[0]] + items[1..];
      RemoveEmptyStringsAppend([items[0]], items[1..], Fragment(""));
      RealSectionsWithoutEmpty(items[1..]);
      var head := RemoveEmptyStrings([items[0]], Fragment(""));
      assert head == if items[0] == Fragment("") then [] else [items[0]];
      RealSectionsAppend(head, RemoveEmptyStrings(items[1..], Fragment("")));
      RealSectionsAppend([items[0]], items[1..]);
    }
  }

  /** Only the last ignorable is sure to be gone: removing a later one can bring an earlier one
      together again. */
  lemma SweepCanRejoin()
    ensures Contains(Swept("acb", ["ab", "c"], "").0, "ab")
  {
    assert !Contains("", "ab");
    assert !Contains("b", "ab");
    assert !Contains("cb", "ab") by { assert "cb"[1..] == "b"; assert "cb"[..2][0] != "ab"[0]; }
    assert !Contains("acb", "ab") by { assert "acb"[1..] == "cb"; assert "acb"[..2][1] != "ab"[1]; }
    assert Purged("acb", "ab", "") == "acb";
    assert Contains("acb", "c") by { assert "acb"[1..] == "cb"; assert StartsWith("cb", "c"); }
    assert Replace("acb", "c", "") == "ab" by {
      assert Replace("b", "c", "") == "b" by { assert "b"[1..] == ""; }
      assert "cb"[1..] == "b";
      assert "acb"[1..] == "cb";
    }
    assert !Contains("ab", "c") by { assert "ab"[1..] == "b"; assert "b"[1..] == ""; }
    assert Purged("acb", "c", "") == "ab";
    assert ["ab", "c"][1..] == ["c"];
    assert StartsWith("ab", "ab");
  }

  // ---------------------------------------------------------------------------------------
  // remove_cmake_comments_helper (cmake.py:345-355)

  /** One document item after the pass: a raw string swept, a command through
      remove_cmake_command_comments_helper, a group's body through the pass itself. */
  function SweptContent(x: Content, igns: seq<string>, rep: string): Content
    requires Purgeable(igns, rep)
    decreases x, 1
  {
    match x
    case Raw(t) => Raw(Swept(t, igns, rep).0)
    case Cmd(c) => Cmd(SweptCommand(c, igns, rep))
    case Group(id, i, sub, e) => Group(id, i, SweptDoc(sub, igns, rep), e)
  }

  /** The document after remove_cmake_comments_helper: every item swept, then the empty
      strings dropped. */
  function SweptDoc(d: CMake, igns: seq<string>, rep: string): CMake
    requires Purgeable(igns, rep)
    decreases d, 0
  {
    var cs := seq(|d.contents|, j requires 0 <= j < |d.contents| => SweptContent(d.contents[j], igns, rep));
    d.(contents := RemoveEmptyStrings(cs, Raw("")))
  }

  method RemoveCMakeCommentsHelper(d: CMake, igns: seq<string>, rep: string) returns (d': CMake)
    requires Purgeable(igns, rep)
    ensures d' == SweptDoc(d, igns, rep)
    decreases d, 0
  {
    var cs := d.contents;
    var i := 0;
    while i < |cs|
      invariant 0 <= i <= |cs| && |cs| == |d.contents|
      invariant forall j :: 0 <= j < i ==> cs[j] == SweptContent(d.contents[j], igns, rep)
      invariant forall j :: i <= j < |cs| ==> cs[j] == d.contents[j]
    {
      var x := SweepContent(cs[i], igns, rep);
      cs := cs[i := x];
      i := i + 1;
    }
    assert cs == seq(|d.contents|, j requires 0 <= j < |d.contents| => SweptContent(d.contents[j], igns, rep));
    d' := d.(contents := RemoveEmptyStrings(cs, Raw("")));
  }

  /** One iteration of that loop. */
  method SweepContent(x: Content, igns: seq<string>, rep: string) returns (y: Content)
    requires Purgeable(igns, rep)
    ensures y == SweptContent(x, igns, rep)
    decreases x, 1
  {
    match x {
      case Raw(t) =>
        var t', _ := Sweep(t, igns, rep);
        y := Raw(t');
      case Cmd(c) =>
        var c' := RemoveCMakeCommandCommentsHelper(c, igns, rep);
        y := Cmd(c');
      case Group(id, init, sub, close) =>
        var sub' := RemoveCMakeCommentsHelper(sub, igns, rep);
        y := Group(id, init, sub', close);
    }
  }

  /** No raw string item or raw string section holds `ign`, and no raw string item is empty,
      at any depth (the opening and closing commands of groups aside). */
  predicate CleanContents(cs: seq<Content>, ign: string)
    decreases cs, 0
  {
    Raw("") !in cs && forall j :: 0 <= j < |cs| ==> CleanItem(cs[j], ign)
  }

  predicate CleanItem(x: Content, ign: string)
    decreases x, 1
  {
    match x
    case Raw(t) => !Contains(t, ign)
    case Cmd(c) => forall s :: s in c.sections && s.Fragment? ==> !Contains(s.text, ign)
    case Group(_, _, sub, _) => CleanContents(sub.contents, ign)
  }

  /** After the pass the last ignorable is gone from every raw string at any depth, and no
      empty string item is left at any depth. */
  lemma {:induction false} SweptDocClean(d: CMake, igns: seq<string>, rep: string)
    requires Purgeable(igns, rep) && |igns| > 0
    ensures CleanContents(SweptDoc(d, igns, rep).contents, igns[|igns| - 1])
    decreases d, 0
  {
    var cs := seq(|d.contents|, j requires 0 <= j < |d.contents| => SweptContent(d.contents[j], igns, rep));
    forall j | 0 <= j < |cs| ensures CleanItem(cs[j], igns[|igns| - 1]) {
      SweptContentClean(d.contents[j], igns, rep);
    }
    var r := RemoveEmptyStrings(cs, Raw(""));
    forall j | 0 <= j < |r| ensures CleanItem(r[j], igns[|igns| - 1]) {
      assert r[j] in cs;
    }
  }

  lemma {:induction false} SweptContentClean(x: Content, igns: seq<string>, rep: string)
    requires Purgeable(igns, rep) && |igns| > 0
    ensures CleanItem(SweptContent(x, igns, rep), igns[|igns| - 1])
    decreases x, 1
  {
    match x
    case Raw(_) =>
    case Cmd(c) => SweptCommandClean(c, igns, rep);
    case Group(_, _, sub, _) => SweptDocClean(sub, igns, rep);
  }

  /** Dropping empty raw strings keeps every identity under every key. */
  lemma {:induction false} WithoutEmptyRawFiling(cs: seq<Content>)
    ensures Ids(RemoveEmptyStrings(cs, Raw(""))) == Ids(cs)
    ensures forall k :: IdsUnder(RemoveEmptyStrings(cs, Raw("")), k) == IdsUnder(cs, k)
  {
    if cs != [] {
      assert cs == [cs[0]] + cs[1..];
      RemoveEmptyStringsAppend([cs[0]], cs[1..], Raw(""));
      WithoutEmptyRawFiling(cs[1..]);
      var h := RemoveEmptyStrings([cs[0]], Raw(""));
      var t := RemoveEmptyStrings(cs[1..], Raw(""));
      assert h == if cs[0] == Raw("") then [] else [cs[0]];
      IdsAppend(h, t);
      IdsAppend([cs[0]], cs[1..]);
      forall k ensures IdsUnder(h + t, k) == IdsUnder(cs, k) {
        IdsUnderAppend(h, t, k);
        IdsUnderAppend([cs[0]], cs[1..], k);
      }
    }
  }

  /** The pass keeps every identity and command name, and so the index invariant. */
  lemma SweptDocConsistent(d: CMake, igns: seq<string>, rep: string)
    requires Purgeable(igns, rep) && Consistent(d)
    ensures Consistent(SweptDoc(d, igns, rep))
  {
    var cs := seq(|d.contents|, j requires 0 <= j < |d.contents| => SweptContent(d.contents[j], igns, rep));
    forall j | 0 <= j < |cs|
      ensures cs[j].Raw? == d.contents[j].Raw? && KeyOf(cs[j]) == KeyOf(d.contents[j])
      ensures !cs[j].Raw? ==> IdOf(cs[j]) == IdOf(d.contents[j])
    {
      if d.contents[j].Cmd? {
        SweptCommandKeeps(d.contents[j].cmd, igns, rep);
      }
    }
    SameFiling(d.contents, cs);
    WithoutEmptyRawFiling(cs);
  }

  // ---------------------------------------------------------------------------------------
  // remove_empty_cmake_lines (cmake.py:367-374)

  /** `str(content)[-1]` can be taken: the item renders, to a non-empty text. */
  predicate Rendered(x: Content, shared: SectionStyle)
  {
    var t := ContentText(x, shared);
    t.Some? && t.value != []
  }

  /** The item renders to a text ending in a newline. */
  predicate EndsLine(x: Content, shared: SectionStyle)
  {
    Rendered(x, shared) && var t := ContentText(x, shared).value; t[|t| - 1] == '\n'
  }

  /** Item `j` is a blank line that follows a line end and comes before another blank line. */
  predicate Doubled(cs: seq<Content>, j: int, shared: SectionStyle)
  {
    1 <= j && j + 1 < |cs| && EndsLine(cs[j - 1], shared) && cs[j] == Raw("\n") && cs[j + 1] == Raw("\n")
  }

  /** The contents after the loop: every doubled blank line emptied. */
  function Blanked(cs: seq<Content>, shared: SectionStyle): (r: seq<Content>)
    ensures |r| == |cs|
  {
    seq(|cs|, j requires 0 <= j < |cs| => if Doubled(cs, j, shared) then Raw("") else cs[j])
  }

  /** Every item the loop looks at (all but the last two) renders to a non-empty text. */
  predicate AllRendered(cs: seq<Content>, shared: SectionStyle)
  {
    forall i :: 0 <= i < |cs| - 2 ==> Rendered(cs[i], shared)
  }

  /** remove_empty_cmake_lines on a document: IndexError when an item it looks at renders to
      nothing; otherwise the doubled blank lines are dropped (along with any empty string
      item). */
  function EmptyLinesRemoved(d: CMake, shared: SectionStyle): Result<CMake, PyError>
  {
    if !AllRendered(d.contents, shared) then Err(IndexError)
    else Ok(d.(contents := RemoveEmptyStrings(Blanked(d.contents, shared), Raw(""))))
  }

  /** The loop reads each item from the copy `contents[:-2]` and the next two from the live
      list; the live list only changes behind the item being looked at. */
  method RemoveEmptyCMakeLines(d: CMake, shared: SectionStyle) returns (r: Result<CMake, PyError>)
    ensures r == EmptyLinesRemoved(d, shared)
  {
    var cs := d.contents;
    var i := 0;
    while i < |cs| - 2
      invariant 0 <= i <= |cs| && |cs| == |d.contents| && (|cs| >= 2 ==> i <= |cs| - 2)
      invariant forall j :: 0 <= j < i ==> Rendered(d.contents[j], shared)
      invariant BlankedUpTo(d.contents, cs, i, shared)
    {
      var t := ContentText(d.contents[i], shared);
      if t.None? || t.value == [] {
        assert !Rendered(d.contents[i], shared);
        return Err(IndexError);
      }
      BlankedStep(d.contents, cs, i, shared);
      if t.value[|t.value| - 1] == '\n' && cs[i + 1] == Raw("\n") && cs[i + 2] == Raw("\n") {
        cs := cs[i + 1 := Raw("")];
      }
      i := i + 1;
    }
    assert cs == Blanked(d.contents, shared);
    r := Ok(d.(contents := RemoveEmptyStrings(cs, Raw(""))));
  }

  /** The loop's state after looking at the items before `i`: those up to `i` are as in the
      end, the rest as at the start. */
  predicate BlankedUpTo(orig: seq<Content>, cs: seq<Content>, i: int, shared: SectionStyle)
  {
    |cs| == |orig| && 0 <= i
    && (forall j :: 0 <= j <= i && j < |cs| ==> cs[j] == Blanked(orig, shared)[j])
    && (forall j :: i < j < |cs| ==> cs[j] == orig[j])
  }

  /** One iteration of that loop. */
  lemma BlankedStep(orig: seq<Content>, cs: seq<Content>, i: int, shared: SectionStyle)
    requires BlankedUpTo(orig, cs, i, shared) && i + 2 < |orig| && Rendered(orig[i], shared)
    ensures var t := ContentText(orig[i], shared).value;
      var cs' := if t[|t| - 1] == '\n' && cs[i + 1] == Raw("\n") && cs[i + 2] == Raw("\n")
                 then cs[i + 1 := Raw("")] else cs;
      BlankedUpTo(orig, cs', i + 1, shared)
  {
    assert cs[i + 1] == orig[i + 1] && cs[i + 2] == orig[i + 2];
    assert Blanked(orig, shared)[i + 1] == if Doubled(orig, i + 1, shared) then Raw("") else orig[i + 1];
  }

  /** The pass keeps every command and group, in order, and so the index invariant. */
  lemma EmptyLinesRemovedConsistent(d: CMake, shared: SectionStyle)
    requires Consistent(d) && EmptyLinesRemoved(d, shared).Ok?
    ensures var d' := EmptyLinesRemoved(d, shared).value;
      Consistent(d') && Ids(d'.contents) == Ids(d.contents)
  {
    var b := Blanked(d.contents, shared);
    assert SameFiled(d.contents, b);
    SameFiling(d.contents, b);
    WithoutEmptyRawFiling(b);
  }

  /** Only blank lines and empty strings can go: every other item stays. */
  lemma EmptyLinesRemovedKeeps(d: CMake, shared: SectionStyle)
    requires EmptyLinesRemoved(d, shared).Ok?
    ensures var d' := EmptyLinesRemoved(d, shared).value;
      forall x :: x != Raw("\n") && x != Raw("") ==> (x in d'.contents <==> x in d.contents)
  {
    var b := Blanked(d.contents, shared);
    forall x | x != Raw("\n") && x != Raw("") ensures x in b <==> x in d.contents {
      if x in d.contents {
        var j :| 0 <= j < |d.contents| && d.contents[j] == x;
        assert b[j] == x;
      }
    }
  }

  /** A blank line is dropped exactly when it is doubled: in a document without empty string
      items, the items kept are, in order, the items at the positions that are not doubled. */
  lemma EmptyLinesRemovedExactly(d: CMake, shared: SectionStyle)
    requires EmptyLinesRemoved(d, shared).Ok? && Raw("") !in d.contents
    ensures var cs := d.contents;
      var r := EmptyLinesRemoved(d, shared).value.contents;
      var pos := KeptAt(Blanked(cs, shared), Other(Raw("")));
      |pos| == |r|
      && (forall i :: 0 <= i < |pos| ==> pos[i] < |cs| && r[i] == cs[pos[i]] && !Doubled(cs, pos[i], shared))
      && (forall i :: 0 <= i < |pos| - 1 ==> pos[i] < pos[i + 1])
      && (forall k :: 0 <= k < |cs| && !Doubled(cs, k, shared) ==> k in pos)
  {
    var cs := d.contents;
    var b := Blanked(cs, shared);
    var keep := Other(Raw(""));
    KeptAtFilter(b, keep);
    KeptAtGaps(b, keep);
    var pos := KeptAt(b, keep);
    forall i | 0 <= i < |pos| ensures !Doubled(cs, pos[i], shared) && b[pos[i]] == cs[pos[i]] {
      assert b[pos[i]] in Filter(b, keep);
      BlankedAt(cs, shared, pos[i]);
    }
    forall k | 0 <= k < |cs| && !Doubled(cs, k, shared) ensures k in pos {
      BlankedAt(cs, shared, k);
      KeptAtComplete(b, keep, k);
    }
  }

  /** Afterwards no blank line is doubled: a run of blank lines after a line end is cut down to
      one. */
  lemma EmptyLinesCollapsed(d: CMake, shared: SectionStyle)
    requires EmptyLinesRemoved(d, shared).Ok? && Raw("") !in d.contents
    ensures var r := EmptyLinesRemoved(d, shared).value.contents;
      forall j :: !Doubled(r, j, shared)
  {
    var cs := d.contents;
    var b := Blanked(cs, shared);
    var keep := Other(Raw(""));
    var r := Filter(b, keep);
    KeptAtFilter(b, keep);
    KeptAtGaps(b, keep);
    var pos := KeptAt(b, keep);
    forall j | 1 <= j && j + 1 < |r| ensures !Doubled(r, j, shared) {
      assert pos[j - 1] < pos[j] < pos[j + 1];
      NotDoubledBetween(cs, shared, pos[j - 1], pos[j], pos[j + 1]);
    }
  }

  /** Three kept positions with only dropped items between them do not hold a doubled blank
      line. */
  lemma NotDoubledBetween(cs: seq<Content>, shared: SectionStyle, a: int, m: int, c: int)
    requires Raw("") !in cs && 0 <= a < m < c < |cs|
    requires var b := Blanked(cs, shared);
      b[a] != Raw("") && b[m] != Raw("") && b[c] != Raw("")
      && NoneKept(b, Other(Raw("")), a, m) && NoneKept(b, Other(Raw("")), m, c)
    ensures var b := Blanked(cs, shared);
      !(EndsLine(b[a], shared) && b[m] == Raw("\n") && b[c] == Raw("\n"))
  {
    var b := Blanked(cs, shared);
    if EndsLine(b[a], shared) && b[m] == Raw("\n") && b[c] == Raw("\n") {
      BlankedAt(cs, shared, a);
      BlankedAt(cs, shared, m);
      BlankedAt(cs, shared, c);
      BlankedAt(cs, shared, m - 1);
      BlankedAt(cs, shared, m + 1);
      assert false;
    }
  }

  /** What the blanked contents hold at `j` for contents without empty strings. */
  lemma BlankedAt(cs: seq<Content>, shared: SectionStyle, j: int)
    requires Raw("") !in cs && 0 <= j < |cs|
    ensures Blanked(cs, shared)[j] == Raw("") ==> Doubled(cs, j, shared) && EndsLine(cs[j], shared)
    ensures Blanked(cs, shared)[j] != Raw("") ==> Blanked(cs, shared)[j] == cs[j]
  {
    if Blanked(cs, shared)[j] == Raw("") {
      assert ContentText(cs[j], shared) == Some("\n");
    }
  }
}
