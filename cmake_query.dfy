/** The queries of the `CMake` class of ros_introspection/cmake.py: the project name and
    `${PROJECT_NAME}` substitution, the build rules of library and executable targets, and the
    CATKIN_ENABLE_TESTING test section. */
module CMakeQuery {
  import opened Base
  import opened Str
  import opened CMakeDoc
  import opened CMakeFile

  // ---------------------------------------------------------------------------------------
  // Project name and variables (cmake.py:169-179)

  const ProjectVar := "${PROJECT_NAME}"

  /** get_project_name: the first token of the first `project` command in `content_map`, or ''
      when there is none; IndexError when that command has no token. */
  function ProjectName(d: CMake): (r: Result<string, PyError>)
    ensures Resolved(d, "project") == [] ==> r == Ok("")
    ensures Resolved(d, "project") != [] ==>
      var c := Resolved(d, "project")[0];
      c.Cmd? && c.cmd.name == "project"
      && (r.Ok? <==> Tokens(c.cmd) != [])
      && (r.Ok? ==> r.value == Tokens(c.cmd)[0])
  {
    var tags := Resolved(d, "project");
    if tags == [] then Ok("")
    else
      assert tags[0] in tags;
      var toks := Tokens(tags[0].cmd);
      if toks == [] then Err(IndexError) else Ok(toks[0])
  }

  /** resolve_variables: `${PROJECT_NAME}` replaced by the project name; no other variable is
      expanded. The project name is looked up first, so its IndexError surfaces whatever `s`
      holds. */
  function ResolveVariables(d: CMake, s: string): (r: Result<string, PyError>)
    ensures r.Ok? <==> ProjectName(d).Ok?
  {
    var name :- ProjectName(d);
    Ok(Replace(s, ProjectVar, name))
  }

  /** Text that mentions no `${PROJECT_NAME}` resolves to itself. */
  lemma ResolveWithoutVariable(d: CMake, s: string)
    requires ProjectName(d).Ok? && !Contains(s, ProjectVar)
    ensures ResolveVariables(d, s) == Ok(s)
  {
    ReplaceAbsent(s, ProjectVar, ProjectName(d).value);
  }

  /** The variable itself resolves to the project name, and to '' in a file without `project`. */
  lemma ResolveVariableItself(d: CMake)
    requires ProjectName(d).Ok?
    ensures ResolveVariables(d, ProjectVar) == Ok(ProjectName(d).value)
  {
    var name := ProjectName(d).value;
    assert ProjectVar[..|ProjectVar|] == ProjectVar;
    assert ProjectVar[|ProjectVar|..] == [];
    assert Replace([], ProjectVar, name) == [];
    assert name + [] == name;
  }

  // ---------------------------------------------------------------------------------------
  // Build rules (cmake.py:221-252)

  /** Every token with `${PROJECT_NAME}` resolved. */
  function ResolveAll(toks: seq<string>, name: string): (r: seq<string>)
    ensures |r| == |toks|
    ensures forall i :: 0 <= i < |toks| ==> r[i] == Replace(toks[i], ProjectVar, name)
  {
    seq(|toks|, i requires 0 <= i < |toks| => Replace(toks[i], ProjectVar, name))
  }

  /** One iteration of get_source_build_rules: the resolved first token is the target and the
      other resolved tokens its sources. A group has no get_tokens (AttributeError); a command
      without tokens has no `tokens[0]` (IndexError). `project` is the outcome of
      get_project_name, which resolve_variables consults for each token. */
  function RuleOf(project: Result<string, PyError>, c: Content): (r: Result<(string, seq<string>), PyError>)
    ensures r.Ok? ==> c.Cmd? && Tokens(c.cmd) != [] && project.Ok?
    ensures r.Ok? ==> [r.value.0] + r.value.1 == ResolveAll(Tokens(c.cmd), project.value)
  {
    if !c.Cmd? then Err(AttributeError)
    else
      var toks := Tokens(c.cmd);
      if toks == [] then Err(IndexError)
      else
        var name :- project;
        var rs := ResolveAll(toks, name);
        assert rs == [rs[0]] + rs[1..];
        Ok((rs[0], rs[1..]))
  }

  /** The rules dictionary after the commands `cs`, in order: a later command for the same
      target replaces the earlier rule. */
  function Rules(project: Result<string, PyError>, cs: seq<Content>): Result<map<string, seq<string>>, PyError>
    decreases |cs|
  {
    if cs == [] then Ok(map[])
    else
      var rules :- Rules(project, cs[..|cs| - 1]);
      var rule :- RuleOf(project, cs[|cs| - 1]);
      Ok(rules[rule.0 := rule.1])
  }

  /** get_source_build_rules(tag) */
  method SourceBuildRules(d: CMake, tag: string) returns (r: Result<map<string, seq<string>>, PyError>)
    ensures r == Rules(ProjectName(d), Resolved(d, tag))
  {
    var project := ProjectName(d);
    var cmds := Resolved(d, tag);
    var rules: map<string, seq<string>> := map[];
    var i := 0;
    while i < |cmds|
      invariant 0 <= i <= |cmds|
      invariant Rules(project, cmds[..i]) == Ok(rules)
    {
      RulesStep(project, cmds, i, rules);
      var rule := RuleOf(project, cmds[i]);
      if rule.Err? {
        return Err(rule.error);
      }
      rules := rules[rule.value.0 := rule.value.1];
      i := i + 1;
    }
    assert cmds[..i] == cmds;
    return Ok(rules);
  }

  /** One round of get_source_build_rules' loop: the rule of the next command joins the map, or
      its exception is the exception of the whole loop. */
  lemma RulesStep(project: Result<string, PyError>, cmds: seq<Content>, i: nat, rules: map<string, seq<string>>)
    requires i < |cmds| && Rules(project, cmds[..i]) == Ok(rules)
    ensures RuleOf(project, cmds[i]).Err? ==> Rules(project, cmds) == Err(RuleOf(project, cmds[i]).error)
    ensures RuleOf(project, cmds[i]).Ok? ==>
      Rules(project, cmds[..i + 1]) == Ok(rules[RuleOf(project, cmds[i]).value.0 := RuleOf(project, cmds[i]).value.1])
  {
    assert cmds[..i + 1] == cmds[..i] + [cmds[i]];
    RulesSnoc(project, cmds[..i], cmds[i]);
    if RuleOf(project, cmds[i]).Err? {
      RulesErrPrefix(project, cmds, i + 1);
    }
  }

  /** The rules exist exactly when every command yields one. */
  lemma {:induction false} RulesOk(project: Result<string, PyError>, cs: seq<Content>)
    ensures Rules(project, cs).Ok? <==> forall j :: 0 <= j < |cs| ==> RuleOf(project, cs[j]).Ok?
    decreases |cs|
  {
    if cs != [] {
      var init := cs[..|cs| - 1];
      RulesOk(project, init);
      assert forall j :: 0 <= j < |init| ==> init[j] == cs[j];
    }
  }

  /** An exception raised by a prefix of the commands is the exception of the whole loop. */
  lemma {:induction false} RulesErrPrefix(project: Result<string, PyError>, cs: seq<Content>, i: nat)
    requires i <= |cs| && Rules(project, cs[..i]).Err?
    ensures Rules(project, cs) == Rules(project, cs[..i])
    decreases |cs| - i
  {
    if i < |cs| {
      assert cs[..i + 1][..i] == cs[..i];
      RulesErrPrefix(project, cs, i + 1);
    } else {
      assert cs[..i] == cs;
    }
  }

  /** The targets the commands `cs` name, when each yields a rule. */
  function RuleTargets(project: Result<string, PyError>, cs: seq<Content>): (r: set<string>)
    requires forall j :: 0 <= j < |cs| ==> RuleOf(project, cs[j]).Ok?
    ensures forall j :: 0 <= j < |cs| ==> RuleOf(project, cs[j]).value.0 in r
    ensures forall t :: t in r ==> exists j :: 0 <= j < |cs| && RuleOf(project, cs[j]).value.0 == t
  {
    set j | 0 <= j < |cs| :: RuleOf(project, cs[j]).value.0
  }

  lemma RulesSnoc(project: Result<string, PyError>, cs: seq<Content>, c: Content)
    ensures Rules(project, cs + [c]) ==
      if Rules(project, cs).Err? then Rules(project, cs)
      else if RuleOf(project, c).Err? then Err(RuleOf(project, c).error)
      else Ok(Rules(project, cs).value[RuleOf(project, c).value.0 := RuleOf(project, c).value.1])
  {
    assert (cs + [c])[..|cs|] == cs;
  }

  lemma RuleTargetsSnoc(project: Result<string, PyError>, init: seq<Content>, c: Content)
    requires forall j :: 0 <= j < |init| ==> RuleOf(project, init[j]).Ok?
    requires RuleOf(project, c).Ok?
    ensures forall j :: 0 <= j < |init + [c]| ==> RuleOf(project, (init + [c])[j]).Ok?
    ensures RuleTargets(project, init + [c]) == RuleTargets(project, init) + {RuleOf(project, c).value.0}
  {
    var cs := init + [c];
    assert forall j :: 0 <= j < |init| ==> cs[j] == init[j];
    assert cs[|init|] == c;
  }

  /** The targets are exactly the commands' targets. */
  lemma {:induction false} RulesTargets(project: Result<string, PyError>, cs: seq<Content>)
    requires Rules(project, cs).Ok?
    ensures forall j :: 0 <= j < |cs| ==> RuleOf(project, cs[j]).Ok?
    ensures Rules(project, cs).value.Keys == RuleTargets(project, cs)
    decreases |cs|
  {
    RulesOk(project, cs);
    if cs != [] {
      var n := |cs| - 1;
      var init := cs[..n];
      assert cs == init + [cs[n]];
      RulesSnoc(project, init, cs[n]);
      RulesTargets(project, init);
      RuleTargetsSnoc(project, init, cs[n]);
    }
  }

  /** Each target maps to the sources of the last command naming it. */
  lemma {:induction false} RulesLastWins(project: Result<string, PyError>, cs: seq<Content>, j: nat)
    requires Rules(project, cs).Ok? && j < |cs|
    requires RuleOf(project, cs[j]).Ok?
    requires forall k :: j < k < |cs| ==> !(RuleOf(project, cs[k]).Ok? && RuleOf(project, cs[k]).value.0 == RuleOf(project, cs[j]).value.0)
    ensures RuleOf(project, cs[j]).value.0 in Rules(project, cs).value
    ensures Rules(project, cs).value[RuleOf(project, cs[j]).value.0] == RuleOf(project, cs[j]).value.1
    decreases |cs|
  {
    var n := |cs| - 1;
    var init := cs[..n];
    RulesOk(project, cs);
    var rule := RuleOf(project, cs[n]).value;
    assert Rules(project, cs).value == Rules(project, init).value[rule.0 := rule.1];
    if j < n {
      assert init[j] == cs[j];
      forall k | j < k < |init|
        ensures !(RuleOf(project, init[k]).Ok? && RuleOf(project, init[k]).value.0 == RuleOf(project, init[j]).value.0)
      {
        assert init[k] == cs[k];
      }
      RulesLastWins(project, init, j);
    }
  }

  /** The union of the sources of every rule. */
  function Sources(rules: map<string, seq<string>>): (r: set<string>)
    ensures forall x :: x in r <==> exists t :: t in rules && x in rules[t]
  {
    set t, x | t in rules && x in rules[t] :: x
  }

  /** Every source of the last command for a target is among the sources. */
  lemma SourcesOfLastRule(project: Result<string, PyError>, cs: seq<Content>, j: nat)
    requires Rules(project, cs).Ok? && j < |cs|
    requires RuleOf(project, cs[j]).Ok?
    requires forall k :: j < k < |cs| ==> !(RuleOf(project, cs[k]).Ok? && RuleOf(project, cs[k]).value.0 == RuleOf(project, cs[j]).value.0)
    ensures forall x :: x in RuleOf(project, cs[j]).value.1 ==> x in Sources(Rules(project, cs).value)
  {
    RulesLastWins(project, cs, j);
  }

  /** get_source_helper(tag) as a value. */
  function SourceSet(d: CMake, tag: string): Result<set<string>, PyError>
  {
    var rules :- Rules(ProjectName(d), Resolved(d, tag));
    Ok(Sources(rules))
  }

  /** get_source_helper(tag): the union of the sources of all rules. */
  method SourceHelper(d: CMake, tag: string) returns (r: Result<set<string>, PyError>)
    ensures r == SourceSet(d, tag)
  {
    var rules := SourceBuildRules(d, tag);
    if rules.Err? {
      return Err(rules.error);
    }
    var m := rules.value;
    var todo := m.Keys;
    var acc: set<string> := {};
    while todo != {}
      invariant todo <= m.Keys
      invariant forall x :: x in acc <==> exists t :: t in m && t !in todo && x in m[t]
      decreases |todo|
    {
      var t :| t in todo;
      acc := acc + set x | x in m[t];
      todo := todo - {t};
    }
    assert acc == Sources(m);
    return Ok(acc);
  }

  /** get_libraries / get_executables: the targets of the rules for `tag`. */
  method TargetNames(d: CMake, tag: string) returns (r: Result<set<string>, PyError>)
    ensures r.Ok? <==> Rules(ProjectName(d), Resolved(d, tag)).Ok?
    ensures r.Ok? ==>
      (forall j :: 0 <= j < |Resolved(d, tag)| ==> RuleOf(ProjectName(d), Resolved(d, tag)[j]).Ok?)
      && r.value == RuleTargets(ProjectName(d), Resolved(d, tag))
  {
    var rules := SourceBuildRules(d, tag);
    if rules.Err? {
      return Err(rules.error);
    }
    RulesTargets(ProjectName(d), Resolved(d, tag));
    return Ok(rules.value.Keys);
  }

  /** get_target_build_rules: the library rules updated with the executable rules. */
  method TargetBuildRules(d: CMake) returns (r: Result<map<string, seq<string>>, PyError>)
    ensures var libs := Rules(ProjectName(d), Resolved(d, "add_library"));
      var exes := Rules(ProjectName(d), Resolved(d, "add_executable"));
      (r.Ok? <==> libs.Ok? && exes.Ok?)
      && (r.Ok? ==> r.value.Keys == libs.value.Keys + exes.value.Keys
                    && (forall t :: t in exes.value ==> r.value[t] == exes.value[t])
                    && (forall t :: t in libs.value && t !in exes.value ==> r.value[t] == libs.value[t]))
  {
    var libs := SourceBuildRules(d, "add_library");
    if libs.Err? {
      return Err(libs.error);
    }
    var exes := SourceBuildRules(d, "add_executable");
    if exes.Err? {
      return Err(exes.error);
    }
    return Ok(libs.value + exes.value);
  }

  // ---------------------------------------------------------------------------------------
  // The test section (cmake.py:264-297)

  const TestingFlag := "CATKIN_ENABLE_TESTING"

  /** Whether get_test_sections keeps an item of `content_map['group']`: its opening command is
      `if` with a first section named CATKIN_ENABLE_TESTING. Reading `initial_tag` of a command,
      or the name of a string section, is an AttributeError. */
  function IsTestGroup(c: Content): Result<bool, PyError>
  {
    if !c.Group? then Err(AttributeError)
    else
      var t := c.initialTag;
      if t.name != "if" || |t.sections| == 0 then Ok(false)
      else if t.sections[0].Fragment? then Err(AttributeError)
      else Ok(t.sections[0].section.name == TestingFlag)
  }

  /** The test groups among `cs`, in order, or the first exception. */
  function TestGroups(cs: seq<Content>): (r: Result<seq<Content>, PyError>)
    ensures r.Ok? ==> forall g :: g in r.value <==> g in cs && IsTestGroup(g) == Ok(true)
    ensures r.Ok? ==> forall j :: 0 <= j < |r.value| ==> r.value[j].Group?
  {
    if cs == [] then Ok([])
    else
      var keep :- IsTestGroup(cs[0]);
      var rest :- TestGroups(cs[1..]);
      assert cs == [cs[0]] + cs[1..];
      Ok(if keep then [cs[0]] + rest else rest)
  }

  lemma {:induction false} TestGroupsAppend(a: seq<Content>, b: seq<Content>)
    ensures TestGroups(a + b) ==
      if TestGroups(a).Err? then TestGroups(a)
      else if TestGroups(b).Err? then TestGroups(b)
      else Ok(TestGroups(a).value + TestGroups(b).value)
  {
    if a == [] {
      assert a + b == b;
      if TestGroups(b).Ok? {
        assert [] + TestGroups(b).value == TestGroups(b).value;
      }
    } else {
      assert (a + b)[0] == a[0];
      assert (a + b)[1..] == a[1..] + b;
      TestGroupsAppend(a[1..], b);
      if TestGroups(a).Ok? && TestGroups(b).Ok? && IsTestGroup(a[0]) == Ok(true) {
        var ra := TestGroups(a[1..]).value;
        assert [a[0]] + (ra + TestGroups(b).value) == ([a[0]] + ra) + TestGroups(b).value;
      }
    }
  }

  lemma TestGroupsSingle(c: Content)
    ensures TestGroups([c]) ==
      if IsTestGroup(c).Err? then Err(IsTestGroup(c).error)
      else Ok(if IsTestGroup(c).value then [c] else [])
  {
    assert [c][1..] == [];
    assert TestGroups([c][1..]) == Ok([]);
    if IsTestGroup(c) == Ok(true) {
      assert [c] + [] == [c];
    }
  }

  /** One round of get_test_sections' loop: the next item joins the test groups when it is
      one, or its exception is the exception of the whole loop. */
  lemma TestStep(cs: seq<Content>, i: nat, gs: seq<Content>)
    requires i < |cs| && TestGroups(cs[..i]) == Ok(gs)
    ensures IsTestGroup(cs[i]).Err? ==> TestGroups(cs) == Err(IsTestGroup(cs[i]).error)
    ensures IsTestGroup(cs[i]).Ok? ==>
      TestGroups(cs[..i + 1]) == Ok(if IsTestGroup(cs[i]).value then gs + [cs[i]] else gs)
  {
    var c := cs[i];
    var pre := cs[..i];
    SliceSnoc(cs, i);
    TestGroupsAppend(pre, [c]);
    TestGroupsSingle(c);
    match IsTestGroup(c)
    case Err(e) =>
      assert TestGroups(pre + [c]) == Err(e);
      TestStepErr(cs, i);
    case Ok(keep) =>
      if !keep {
        assert gs + [] == gs;
      }
  }

  lemma TestStepErr(cs: seq<Content>, i: nat)
    requires i < |cs| && TestGroups(cs[..i + 1]).Err?
    ensures TestGroups(cs) == TestGroups(cs[..i + 1])
  {
    TestGroupsAppend(cs[..i + 1], cs[i + 1..]);
    assert cs[..i + 1] + cs[i + 1..] == cs;
  }

  /** get_test_sections: the bodies of the test groups, in `content_map` order. */
  method TestSections(d: CMake) returns (r: Result<seq<CMake>, PyError>)
    ensures var gs := TestGroups(Resolved(d, "group"));
      (r.Ok? <==> gs.Ok?) && (r.Err? ==> r.error == gs.error)
      && (r.Ok? ==> |r.value| == |gs.value| && forall j :: 0 <= j < |gs.value| ==> r.value[j] == gs.value[j].sub)
  {
    var cs := Resolved(d, "group");
    var subs: seq<CMake> := [];
    ghost var gs: seq<Content> := [];
    var i := 0;
    while i < |cs|
      invariant 0 <= i <= |cs|
      invariant TestGroups(cs[..i]) == Ok(gs)
      invariant |subs| == |gs| && forall j :: 0 <= j < |gs| ==> gs[j].Group? && subs[j] == gs[j].sub
    {
      TestStep(cs, i, gs);
      var keep := IsTestGroup(cs[i]);
      if keep.Err? {
        return Err(keep.error);
      }
      if keep.value {
        subs := subs + [cs[i].sub];
        gs := gs + [cs[i]];
      }
      i := i + 1;
    }
    assert cs[..i] == cs;
    return Ok(subs);
  }

  /** The bodies of groups. */
  function Subs(gs: seq<Content>): (r: seq<CMake>)
    requires forall j :: 0 <= j < |gs| ==> gs[j].Group?
    ensures |r| == |gs| && forall j :: 0 <= j < |gs| ==> r[j] == gs[j].sub
  {
    seq(|gs|, j requires 0 <= j < |gs| => gs[j].sub)
  }

  /** The library sources and then the executable sources of one test section. */
  function SubSource(sub: CMake): Result<set<string>, PyError>
  {
    var lib :- SourceSet(sub, "add_library");
    var exe :- SourceSet(sub, "add_executable");
    Ok(lib + exe)
  }

  /** The union of a sequence of outcomes, or the first exception among them. */
  function UnionAll(rs: seq<Result<set<string>, PyError>>): Result<set<string>, PyError>
  {
    if rs == [] then Ok({})
    else
      var a :- rs[0];
      var rest :- UnionAll(rs[1..]);
      Ok(a + rest)
  }

  /** The union exists when every outcome does, and holds exactly their members. */
  lemma {:induction false} UnionAllMembers(rs: seq<Result<set<string>, PyError>>)
    ensures UnionAll(rs).Ok? <==> forall j :: 0 <= j < |rs| ==> rs[j].Ok?
    ensures UnionAll(rs).Ok? ==> forall x :: x in UnionAll(rs).value <==> exists j :: 0 <= j < |rs| && x in rs[j].value
  {
    if rs != [] {
      var tail := rs[1..];
      UnionAllMembers(tail);
      assert forall j :: 1 <= j < |rs| ==> rs[j] == tail[j - 1];
      if UnionAll(rs).Ok? {
        forall x | x in UnionAll(rs).value
          ensures exists j :: 0 <= j < |rs| && x in rs[j].value
        {
          if x !in rs[0].value {
            var j :| 0 <= j < |tail| && x in tail[j].value;
            assert rs[j + 1] == tail[j];
          }
        }
        forall x | exists j :: 0 <= j < |rs| && x in rs[j].value
          ensures x in UnionAll(rs).value
        {
          var j :| 0 <= j < |rs| && x in rs[j].value;
          if j > 0 {
            assert tail[j - 1] == rs[j];
          }
        }
      }
    }
  }

  lemma {:induction false} UnionAllAppend(a: seq<Result<set<string>, PyError>>, b: seq<Result<set<string>, PyError>>)
    ensures UnionAll(a + b) ==
      if UnionAll(a).Err? then UnionAll(a)
      else if UnionAll(b).Err? then UnionAll(b)
      else Ok(UnionAll(a).value + UnionAll(b).value)
  {
    if a == [] {
      assert a + b == b;
      if UnionAll(b).Ok? {
        assert {} + UnionAll(b).value == UnionAll(b).value;
      }
    } else {
      assert (a + b)[0] == a[0];
      assert (a + b)[1..] == a[1..] + b;
      UnionAllAppend(a[1..], b);
      if UnionAll(a).Ok? && UnionAll(b).Ok? {
        var x, y, z := a[0].value, UnionAll(a[1..]).value, UnionAll(b).value;
        assert x + (y + z) == (x + y) + z;
      }
    }
  }

  function SubSources(subs: seq<CMake>): (r: seq<Result<set<string>, PyError>>)
    ensures |r| == |subs| && forall j :: 0 <= j < |subs| ==> r[j] == SubSource(subs[j])
  {
    seq(|subs|, j requires 0 <= j < |subs| => SubSource(subs[j]))
  }

  /** The loop of get_test_source over the sections `ss`. */
  method UnionSources(ss: seq<CMake>) returns (r: Result<set<string>, PyError>)
    ensures r == UnionAll(SubSources(ss))
  {
    ghost var parts := SubSources(ss);
    var acc: set<string> := {};
    var i := 0;
    while i < |ss|
      invariant 0 <= i <= |ss|
      invariant UnionAll(parts[..i]) == Ok(acc)
    {
      SliceSnoc(parts, i);
      UnionAllAppend(parts[..i], [parts[i]]);
      assert [parts[i]][1..] == [];
      assert UnionAll([parts[i]][1..]) == Ok({});
      var lib := SourceHelper(ss[i], "add_library");
      if lib.Err? {
        UnionAllAppend(parts[..i + 1], parts[i + 1..]);
        SliceSplit(parts, i + 1);
        return Err(lib.error);
      }
      var exe := SourceHelper(ss[i], "add_executable");
      if exe.Err? {
        UnionAllAppend(parts[..i + 1], parts[i + 1..]);
        SliceSplit(parts, i + 1);
        return Err(exe.error);
      }
      acc := acc + (lib.value + exe.value);
      assert lib.value + exe.value + {} == lib.value + exe.value;
      i := i + 1;
    }
    assert parts[..i] == parts;
    return Ok(acc);
  }

  /** get_test_source: the union of the library and executable sources of every test section. */
  method TestSource(d: CMake) returns (r: Result<set<string>, PyError>)
    ensures var gs := TestGroups(Resolved(d, "group"));
      r == if gs.Err? then Err(gs.error) else UnionAll(SubSources(Subs(gs.value)))
  {
    var subs := TestSections(d);
    if subs.Err? {
      return Err(subs.error);
    }
    assert subs.value == Subs(TestGroups(Resolved(d, "group")).value);
    r := UnionSources(subs.value);
  }

  /** The group get_test_section(create_if_needed=True) adds: `if(CATKIN_ENABLE_TESTING)`, a
      body holding one newline one level deeper, and `endif()`. */
  function NewTestGroup(depth: nat, gid: nat, ifId: nat, endId: nat): Content
  {
    Group(gid, AddSection(NewCommand(ifId, "if"), TestingFlag, [], Shared),
          CMake([Raw("\n")], map[], depth + 1), NewCommand(endId, "endif"))
  }

  /** get_test_section(create_if_needed): the updated document and the identity of the group
      whose body is the test section (None when there is none and none is created). `gid`,
      `ifId` and `endId` are the identities of the objects a creation makes. */
  function GetTestSection(d: CMake, create: bool, gid: nat, ifId: nat, endId: nat)
    : (r: Result<(CMake, Option<nat>), PyError>)
    ensures r.Ok? && TestGroups(Resolved(d, "group")).Ok? && TestGroups(Resolved(d, "group")).value != [] ==>
      r.value.0 == d && r.value.1 == Some(IdOf(TestGroups(Resolved(d, "group")).value[0]))
    ensures r.Ok? && !create ==> r.value.0 == d
  {
    var gs :- TestGroups(Resolved(d, "group"));
    if |gs| > 0 then Ok((d, Some(IdOf(gs[0]))))
    else if !create then Ok((d, None))
    else
      var d' :- AddCommand(d, NewTestGroup(d.depth, gid, ifId, endId));
      Ok((d', Some(gid)))
  }

  lemma NewTestGroupIsTest(depth: nat, gid: nat, ifId: nat, endId: nat)
    ensures IsTestGroup(NewTestGroup(depth, gid, ifId, endId)) == Ok(true)
  {
    var t := NewTestGroup(depth, gid, ifId, endId).initialTag;
    assert t.sections == [Sec(Section(TestingFlag, [], Shared))];
  }

  /** A created test section is the only test group of the new document, so a second call finds
      it (GetTestSection's first postcondition) instead of creating another. */
  lemma GetTestSectionCreates(d: CMake, gid: nat, ifId: nat, endId: nat)
    requires Consistent(d) && gid !in Ids(d.contents)
    requires TestGroups(Resolved(d, "group")) == Ok([])
    requires GetTestSection(d, true, gid, ifId, endId).Ok?
    ensures var (d', g) := GetTestSection(d, true, gid, ifId, endId).value;
      g == Some(gid) && Consistent(d')
      && TestGroups(Resolved(d', "group")) == Ok([NewTestGroup(d.depth, gid, ifId, endId)])
  {
    var g := NewTestGroup(d.depth, gid, ifId, endId);
    var i := InsertionIndexOf(d, g).value;
    var d' := SpliceAt(d, i, g);
    assert AddCommand(d, g) == Ok(d');
    assert GetTestSection(d, true, gid, ifId, endId).value == (d', Some(gid));
    AddCommandConsistent(d, g);
    ResolvedAfterSplice(d, i, g, "group");
    TestGroupsAppend(Resolved(d, "group"), [g]);
    NewTestGroupIsTest(d.depth, gid, ifId, endId);
    TestGroupsSingle(g);
    assert [] + [g] == [g];
  }
}
