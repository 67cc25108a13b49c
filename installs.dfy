/** The install-section logic of roscompile/installs.py: the four install types and their
    catkin destinations, multi-word section keys such as `ARCHIVE DESTINATION`, and the edits
    that keep an `install` command's destinations in line with its type. */
module Installs {
  import opened Base
  import opened Str
  import opened CMakeDoc
  import opened CMakeFile
  import opened CMakeEdit
  import opened CMakePass
  import RoscompileCMake

  // ---------------------------------------------------------------------------------------
  // INSTALL_CONFIGS (installs.py:12-21)

  /** The keys of INSTALL_CONFIGS. */
  datatype InstallType = Exec | Library | Headers | Misc

  const PackageBin := "${CATKIN_PACKAGE_BIN_DESTINATION}"
  const PackageLib := "${CATKIN_PACKAGE_LIB_DESTINATION}"
  const GlobalBin := "${CATKIN_GLOBAL_BIN_DESTINATION}"
  const PackageInclude := "${CATKIN_PACKAGE_INCLUDE_DESTINATION}"
  const PackageShare := "${CATKIN_PACKAGE_SHARE_DESTINATION}"

  /** The CMake keyword of an install type: the first element of its configuration. */
  function Keyword(t: InstallType): string
  {
    if t.Exec? || t.Library? then "TARGETS" else "FILES"
  }

  /** The destination map of an install type: catkin destinations to section names. */
  function Destinations(t: InstallType): map<string, seq<string>>
  {
    match t
    case Exec => map[PackageBin := ["RUNTIME DESTINATION"]]
    case Library => map[PackageLib := ["ARCHIVE DESTINATION", "LIBRARY DESTINATION"], GlobalBin := ["RUNTIME DESTINATION"]]
    case Headers => map[PackageInclude := ["DESTINATION"]]
    case Misc => map[PackageShare := ["DESTINATION"]]
  }

  /** An iteration order of a dictionary's keys: each key once. Python 2 leaves the order of
      `dict.items()` unspecified, so the passes below take it as a parameter. */
  ghost predicate KeyOrder<K(!new), V>(order: seq<K>, m: map<K, V>)
  {
    Distinct(order) && forall k :: k in order <==> k in m
  }

  // ---------------------------------------------------------------------------------------
  // get_install_type (installs.py:24-28)

  /** The install type whose destination map holds `dest`, looked up in the order the
      configurations are written. */
  function InstallTypeOf(dest: string): Option<InstallType>
  {
    if dest in Destinations(Exec) then Some(Exec)
    else if dest in Destinations(Library) then Some(Library)
    else if dest in Destinations(Headers) then Some(Headers)
    else if dest in Destinations(Misc) then Some(Misc)
    else None
  }

  /** The destination maps are disjoint, so a destination has at most one install type, and
      the order of the lookup does not matter. */
  lemma InstallTypeOfSpec(dest: string, t: InstallType)
    ensures InstallTypeOf(dest) == Some(t) <==> dest in Destinations(t)
  {
  }

  /** The loop over `INSTALL_CONFIGS.items()` in the dictionary's order `order`. */
  method GetInstallType(dest: string, order: seq<InstallType>) returns (r: Option<InstallType>)
    requires forall t :: t in order
    ensures r == InstallTypeOf(dest)
  {
    for i := 0 to |order|
      invariant forall j :: 0 <= j < i ==> dest !in Destinations(order[j])
    {
      if dest in Destinations(order[i]) {
        InstallTypeOfSpec(dest, order[i]);
        return Some(order[i]);
      }
    }
    forall t | true
      ensures dest !in Destinations(t)
    {
      assert t in order;
    }
    return None;
  }

  // ---------------------------------------------------------------------------------------
  // get_install_types (installs.py:31-47)

  /** The install type a DESTINATION section names. With a subfolder, only a folder that
      contains it counts, and `'/' + subfolder` is cut out of it first. */
  function FolderType(s: Section, subfolder: string): Option<InstallType>
    requires |s.values| > 0
  {
    var folder := s.values[0];
    if |subfolder| > 0 then
      if !Contains(folder, subfolder) then None else InstallTypeOf(Replace(folder, "/" + subfolder, ""))
    else InstallTypeOf(folder)
  }

  /** The types named by the DESTINATION sections `ss`; IndexError for one without a value. */
  function TypesFrom(ss: seq<Section>, subfolder: string): Result<set<InstallType>, PyError>
  {
    if ss == [] then Ok({})
    else if |ss[0].values| == 0 then Err(IndexError)
    else
      var rest :- TypesFrom(ss[1..], subfolder);
      var t := FolderType(ss[0], subfolder);
      Ok(rest + if t.Some? then {t.value} else {})
  }

  /** get_install_types(cmd, subfolder) */
  function InstallTypes(c: Command, subfolder: string): Result<set<InstallType>, PyError>
  {
    TypesFrom(GetSections(c, "DESTINATION"), subfolder)
  }

  method GetInstallTypes(c: Command, subfolder: string) returns (r: Result<set<InstallType>, PyError>)
    ensures r == InstallTypes(c, subfolder)
  {
    r := CollectTypes(GetSections(c, "DESTINATION"), subfolder);
  }

  /** The loop of get_install_types over the DESTINATION sections `ss`. */
  method CollectTypes(ss: seq<Section>, subfolder: string) returns (r: Result<set<InstallType>, PyError>)
    ensures r == TypesFrom(ss, subfolder)
  {
    var types: set<InstallType> := {};
    var i := 0;
    assert ss[0..] == ss;
    if TypesFrom(ss, subfolder).Ok? {
      assert TypesFrom(ss, subfolder).value + {} == TypesFrom(ss, subfolder).value;
    }
    while i < |ss|
      invariant 0 <= i <= |ss|
      invariant TypesFrom(ss, subfolder) == With(TypesFrom(ss[i..], subfolder), types)
    {
      if |ss[i].values| == 0 {
        TypesFromStep(ss, subfolder, i, types);
        return Err(IndexError);
      }
      TypesFromStep(ss, subfolder, i, types);
      var t := FolderType(ss[i], subfolder);
      types := types + if t.Some? then {t.value} else {};
      i := i + 1;
    }
    assert ss[i..] == [];
    return Ok(types);
  }

  /** The types of the sections still to come, joined to those collected so far. */
  function With(rest: Result<set<InstallType>, PyError>, types: set<InstallType>): Result<set<InstallType>, PyError>
  {
    if rest.Ok? then Ok(rest.value + types) else rest
  }

  lemma TypesFromStep(ss: seq<Section>, subfolder: string, i: nat, types: set<InstallType>)
    requires i < |ss|
    ensures |ss[i].values| == 0 ==> With(TypesFrom(ss[i..], subfolder), types) == Err(IndexError)
    ensures |ss[i].values| > 0 ==>
      var t := FolderType(ss[i], subfolder);
      With(TypesFrom(ss[i..], subfolder), types)
        == With(TypesFrom(ss[i + 1..], subfolder), types + if t.Some? then {t.value} else {})
  {
    assert ss[i..][1..] == ss[i + 1..];
    if |ss[i].values| > 0 {
      var t := FolderType(ss[i], subfolder);
      var here: set<InstallType> := if t.Some? then {t.value} else {};
      var rest := TypesFrom(ss[i + 1..], subfolder);
      if rest.Ok? {
        assert TypesFrom(ss[i..], subfolder) == Ok(rest.value + here);
        assert rest.value + here + types == rest.value + (types + here);
      }
    }
  }

  /** get_install_types fails exactly when some DESTINATION section has no value; otherwise it
      holds exactly the types those sections name. */
  lemma {:induction false} TypesFromSpec(ss: seq<Section>, subfolder: string)
    ensures TypesFrom(ss, subfolder).Ok? <==> forall s :: s in ss ==> |s.values| > 0
    ensures TypesFrom(ss, subfolder).Ok? ==> forall t ::
      t in TypesFrom(ss, subfolder).value <==> exists s :: s in ss && |s.values| > 0 && FolderType(s, subfolder) == Some(t)
  {
    if ss != [] {
      TypesFromSpec(ss[1..], subfolder);
      assert forall s :: s in ss <==> s == ss[0] || s in ss[1..];
    }
  }

  // ---------------------------------------------------------------------------------------
  // get_multiword_section (installs.py:50-71)

  /** The loop of get_multiword_section from item `j` of the sections, with the first `i` words
      matched. It gives the position of the section it returns; `words[0]` raises IndexError
      when there are no words and some real section is met. A section that breaks a run resets
      the count and is not tested against the first word again. */
  function MultiwordFrom(items: seq<SectionItem>, words: seq<string>, j: nat, i: nat): (r: Result<Option<nat>, PyError>)
    requires j <= |items| && (i == 0 || i < |words|)
    ensures r.Ok? && r.value.Some? ==> j <= r.value.value < |items| && items[r.value.value].Sec?
    decreases |items| - j
  {
    if j == |items| then Ok(None)
    else if items[j].Fragment? then MultiwordFrom(items, words, j + 1, i)
    else if words == [] then Err(IndexError)
    else if items[j].section.name == words[i] then
      if i < |words| - 1 then MultiwordFrom(items, words, j + 1, i + 1) else Ok(Some(j))
    else MultiwordFrom(items, words, j + 1, 0)
  }

  /** get_multiword_section(cmd, words), as the position of the section in `cmd.sections`. */
  function MultiwordSection(c: Command, words: seq<string>): Result<Option<nat>, PyError>
  {
    MultiwordFrom(c.sections, words, 0, 0)
  }

  method GetMultiwordSection(c: Command, words: seq<string>) returns (r: Result<Option<nat>, PyError>)
    ensures r == MultiwordSection(c, words)
  {
    var i := 0;
    var j := 0;
    while j < |c.sections|
      invariant 0 <= j <= |c.sections| && (i == 0 || i < |words|)
      invariant MultiwordSection(c, words) == MultiwordFrom(c.sections, words, j, i)
    {
      if c.sections[j].Sec? {
        if words == [] {
          return Err(IndexError);
        }
        if c.sections[j].section.name == words[i] {
          if i < |words| - 1 {
            i := i + 1;
          } else {
            return Ok(Some(j));
          }
        } else {
          i := 0;
        }
      }
      j := j + 1;
    }
    return Ok(None);
  }

  /** The last `i` real sections before item `j` are named by the first `i` words. */
  predicate Matched(items: seq<SectionItem>, words: seq<string>, j: nat, i: nat)
    requires j <= |items| && i <= |words|
  {
    var rs := RealSections(items[..j]);
    i <= |rs| && forall k :: 0 <= k < i ==> rs[|rs| - i + k].name == words[k]
  }

  /** A section is returned only when its name is the last word and the real sections just
      before it are named by the other words, in order; IndexError only without words. */
  lemma {:induction false} MultiwordFromSpec(items: seq<SectionItem>, words: seq<string>, j: nat, i: nat)
    requires j <= |items| && (i == 0 || i < |words|) && Matched(items, words, j, i)
    ensures var r := MultiwordFrom(items, words, j, i);
      (r.Err? ==> words == [])
      && (r.Ok? && r.value.Some? ==>
            var p := r.value.value;
            words != [] &&
            items[p].Sec? && items[p].section.name == words[|words| - 1] && Matched(items, words, p, |words| - 1))
    decreases |items| - j
  {
    if j < |items| {
      MatchedStep(items, words, j, i);
      if items[j].Fragment? {
        MultiwordFromSpec(items, words, j + 1, i);
      } else if words != [] {
        if items[j].section.name == words[i] {
          if i < |words| - 1 {
            MultiwordFromSpec(items, words, j + 1, i + 1);
          }
        } else {
          MultiwordFromSpec(items, words, j + 1, 0);
        }
      }
    }
  }

  /** How the run of matched sections grows or restarts at item `j`. */
  lemma MatchedStep(items: seq<SectionItem>, words: seq<string>, j: nat, i: nat)
    requires j < |items| && i <= |words| && Matched(items, words, j, i)
    ensures items[j].Fragment? ==> Matched(items, words, j + 1, i)
    ensures items[j].Sec? && i < |words| && items[j].section.name == words[i] ==> Matched(items, words, j + 1, i + 1)
    ensures Matched(items, words, j + 1, 0)
  {
    assert items[..j + 1] == items[..j] + [items[j]];
    RealSectionsAppend(items[..j], [items[j]]);
    var rs := RealSections(items[..j]);
    if items[j].Sec? {
      assert RealSections(items[..j + 1]) == rs + [items[j].section];
    } else {
      assert RealSections(items[..j + 1]) == rs;
    }
  }

  /** A mismatch resets the count without testing the section against the first word again:
      for ARCHIVE, ARCHIVE, DESTINATION the pair ARCHIVE DESTINATION is not found. */
  lemma MultiwordNoRetest()
    ensures var a := Sec(Section("ARCHIVE", [], Shared));
      var d := Sec(Section("DESTINATION", ["lib"], Shared));
      MultiwordFrom([a, a, d], ["ARCHIVE", "DESTINATION"], 0, 0) == Ok(None)
  {
    var a := Sec(Section("ARCHIVE", [], Shared));
    var d := Sec(Section("DESTINATION", ["lib"], Shared));
    var items := [a, a, d];
    var words := ["ARCHIVE", "DESTINATION"];
    assert MultiwordFrom(items, words, 3, 0) == Ok(None);
    assert MultiwordFrom(items, words, 2, 0) == Ok(None);
    assert MultiwordFrom(items, words, 1, 1) == Ok(None);
  }

  // ---------------------------------------------------------------------------------------
  // check_complex_section (installs.py:82-99)

  /** The style `SectionStyle(NEWLINE_PLUS_8)` of a section check_complex_section adds: the
      constructor with a prename, a version-skew extension of the SectionStyle shown, keeping
      the other defaults. */
  const NewSectionStyle := SectionStyle(RoscompileCMake.NewlinePlus8, " ", " ")

  /** Where check_complex_section finds the section for `key`: get_section for a one-word key,
      get_multiword_section otherwise. */
  function KeyedSection(c: Command, key: string): Result<Option<nat>, PyError>
  {
    var words := SplitWs(key);
    if |words| == 1 then Ok(FindSection(c.sections, key)) else MultiwordSection(c, words)
  }

  /** check_complex_section(cmd, key, value): the value appended to the keyed section when it is
      missing there (marking the command changed), or a new section `key` holding it. */
  function CheckComplex(c: Command, key: string, value: string): Result<Command, PyError>
  {
    var at :- KeyedSection(c, key);
    match at
    case Some(p) =>
      if p < |c.sections| && c.sections[p].Sec? then
        var s := c.sections[p].section;
        if value in s.values then Ok(c)
        else Ok(c.(sections := c.sections[p := Sec(s.(values := s.values + [value]))], changed := true))
      else Ok(c)
    case None => Ok(AddSection(c, key, [value], Own(NewSectionStyle)))
  }

  lemma KeyedSectionAt(c: Command, key: string)
    ensures var r := KeyedSection(c, key);
      r.Ok? && r.value.Some? ==> r.value.value < |c.sections| && c.sections[r.value.value].Sec?
    ensures KeyedSection(c, key).Err? ==> SplitWs(key) == []
  {
    var words := SplitWs(key);
    if |words| != 1 {
      MultiwordFromSpec(c.sections, words, 0, 0);
    }
  }

  /** `y` is `x` with, at most, values appended to its section. */
  predicate GrownItem(x: SectionItem, y: SectionItem)
  {
    x == y
    || (x.Sec? && y.Sec? && y.section.name == x.section.name && y.section.style == x.section.style
        && |x.section.values| <= |y.section.values| && y.section.values[..|x.section.values|] == x.section.values)
  }

  /** `r` is the command `c` with, at most, values appended to its sections and sections
      appended to it. */
  predicate Grown(c: Command, r: Command)
  {
    r.id == c.id && r.name == c.name && |c.sections| <= |r.sections|
    && forall j :: 0 <= j < |c.sections| ==> GrownItem(c.sections[j], r.sections[j])
  }

  /** Some real section for `key` holds `value`: one named `key`, or for a multi-word key one
      named by its last word. */
  predicate Holds(c: Command, key: string, value: string)
  {
    exists j :: 0 <= j < |c.sections| && c.sections[j].Sec? && value in c.sections[j].section.values
                && (c.sections[j].section.name == key
                    || (|SplitWs(key)| > 1 && c.sections[j].section.name == SplitWs(key)[|SplitWs(key)| - 1]))
  }

  /** What check_complex_section does to the keyed section: a value it holds already leaves the
      command alone; otherwise the value is appended once, marking the command changed, or a new
      section `key` holds it. It fails only for a key with no words. */
  lemma CheckComplexShape(c: Command, key: string, value: string)
    ensures CheckComplex(c, key, value).Err? ==> SplitWs(key) == []
    ensures CheckComplex(c, key, value).Ok? ==>
      var r := CheckComplex(c, key, value).value;
      match KeyedSection(c, key).value
      case Some(p) =>
        p < |c.sections| && c.sections[p].Sec?
        && var prev := c.sections[p].section.values;
           if value in prev then r == c
           else r == c.(sections := c.sections[p := Sec(c.sections[p].section.(values := prev + [value]))], changed := true)
      case None =>
        r == c.(sections := c.sections + [Sec(Section(key, [value], Own(NewSectionStyle)))], changed := true)
  {
    KeyedSectionAt(c, key);
  }

  /** check_complex_section leaves the value in a section for the key, and only ever adds: the
      command's sections are grown, and it is unchanged or marked changed. */
  lemma CheckComplexSpec(c: Command, key: string, value: string)
    ensures CheckComplex(c, key, value).Ok? ==>
      var r := CheckComplex(c, key, value).value;
      Grown(c, r) && Holds(r, key, value) && (r == c || r.changed)
  {
    CheckComplexShape(c, key, value);
    if CheckComplex(c, key, value).Ok? {
      var r := CheckComplex(c, key, value).value;
      var words := SplitWs(key);
      match KeyedSection(c, key).value
      case Some(p) =>
        if |words| != 1 {
          MultiwordFromSpec(c.sections, words, 0, 0);
        }
        HoldsAt(r, key, value, p);
        if r != c {
          GrownByAppend(c, p, value);
        }
      case None =>
        HoldsAt(r, key, value, |c.sections|);
        GrownByAdd(c, Section(key, [value], Own(NewSectionStyle)));
    }
  }

  lemma GrownByAppend(c: Command, p: nat, value: string)
    requires p < |c.sections| && c.sections[p].Sec?
    ensures var s := c.sections[p].section;
      Grown(c, c.(sections := c.sections[p := Sec(s.(values := s.values + [value]))], changed := true))
  {
  }

  lemma GrownByAdd(c: Command, s: Section)
    ensures Grown(c, c.(sections := c.sections + [Sec(s)], changed := true))
  {
  }

  lemma HoldsAt(c: Command, key: string, value: string, j: nat)
    requires j < |c.sections| && c.sections[j].Sec? && value in c.sections[j].section.values
    requires c.sections[j].section.name == key
             || (|SplitWs(key)| > 1 && c.sections[j].section.name == SplitWs(key)[|SplitWs(key)| - 1])
    ensures Holds(c, key, value)
  {
  }

  /** Growing keeps every value where it was. */
  lemma GrownHolds(c: Command, r: Command, key: string, value: string)
    requires Grown(c, r) && Holds(c, key, value)
    ensures Holds(r, key, value)
  {
    var j :| 0 <= j < |c.sections| && c.sections[j].Sec? && value in c.sections[j].section.values
             && (c.sections[j].section.name == key
                 || (|SplitWs(key)| > 1 && c.sections[j].section.name == SplitWs(key)[|SplitWs(key)| - 1]));
    assert GrownItem(c.sections[j], r.sections[j]);
    var vs := c.sections[j].section.values;
    if c.sections[j] != r.sections[j] {
      assert r.sections[j].section.values[..|vs|] == vs;
      var k :| 0 <= k < |vs| && vs[k] == value;
      assert r.sections[j].section.values[k] == value;
    }
  }

  lemma GrownTrans(a: Command, b: Command, c: Command)
    requires Grown(a, b) && Grown(b, c)
    ensures Grown(a, c)
  {
    forall j | 0 <= j < |a.sections| ensures GrownItem(a.sections[j], c.sections[j]) {
      assert GrownItem(a.sections[j], b.sections[j]) && GrownItem(b.sections[j], c.sections[j]);
      if a.sections[j] != b.sections[j] && b.sections[j] != c.sections[j] {
        var x := a.sections[j].section.values;
        var y := b.sections[j].section.values;
        var z := c.sections[j].section.values;
        assert z[..|x|] == z[..|y|][..|x|];
      }
    }
  }

  // ---------------------------------------------------------------------------------------
  // install_sections (installs.py:102-111)

  /** `os.path.join(a, b)` for POSIX paths: an absolute `b` replaces `a`. */
  function PathJoin(a: string, b: string): string
  {
    if |b| > 0 && b[0] == '/' then b
    else if a == [] || a[|a| - 1] == '/' then a + b
    else a + "/" + b
  }

  /** The destination a section for `dest` should name: joined with the subfolder, if any. */
  function Target(dest: string, subfolder: string): string
  {
    if |subfolder| > 0 then PathJoin(dest, subfolder) else dest
  }

  /** Each name paired with the value check_complex_section is asked to put under it. */
  function Pairs(names: seq<string>, value: string): (r: seq<(string, string)>)
    ensures |r| == |names| && forall k :: 0 <= k < |names| ==> r[k] == (names[k], value)
  {
    seq(|names|, k requires 0 <= k < |names| => (names[k], value))
  }

  /** The checks install_sections makes, destination by destination in the order `order`:
      every section name of a destination with that destination's target. */
  function Checks(m: map<string, seq<string>>, order: seq<string>, subfolder: string): seq<(string, string)>
  {
    if order == [] then []
    else (if order[0] in m then Pairs(m[order[0]], Target(order[0], subfolder)) else [])
         + Checks(m, order[1..], subfolder)
  }

  /** The checks of install_sections as written: `destination` is rebound to the joined path
      inside the loop over the section names, so the k-th name of a destination receives the
      subfolder joined k + 1 times. */
  function AsWrittenChecks(m: map<string, seq<string>>, order: seq<string>, subfolder: string): seq<(string, string)>
  {
    if order == [] then []
    else (if order[0] in m then AsWrittenPairs(m[order[0]], order[0], subfolder) else [])
         + AsWrittenChecks(m, order[1..], subfolder)
  }

  function AsWrittenPairs(names: seq<string>, dest: string, subfolder: string): seq<(string, string)>
  {
    if names == [] then []
    else
      var d := Target(dest, subfolder);
      [(names[0], d)] + AsWrittenPairs(names[1..], d, subfolder)
  }

  /** check_complex_section for each check in turn. */
  function CheckAll(c: Command, checks: seq<(string, string)>): Result<Command, PyError>
    decreases |checks|
  {
    if checks == [] then Ok(c)
    else
      var c1 :- CheckComplex(c, checks[0].0, checks[0].1);
      CheckAll(c1, checks[1..])
  }

  /** install_sections(cmd, destination_map, subfolder), with the destination computed afresh
      for each section name (see CheckAll and AsWrittenChecks). */
  method InstallSections(c: Command, m: map<string, seq<string>>, order: seq<string>, subfolder: string)
    returns (r: Result<Command, PyError>)
    ensures r == CheckAll(c, Checks(m, order, subfolder))
  {
    var cur := c;
    var i := 0;
    while i < |order|
      invariant 0 <= i <= |order|
      invariant CheckAll(c, Checks(m, order, subfolder)) == CheckAll(cur, Checks(m, order[i..], subfolder))
    {
      var names := if order[i] in m then m[order[i]] else [];
      var dest := Target(order[i], subfolder);
      ChecksStep(cur, m, order, i, subfolder);
      var next := CheckNames(cur, names, dest);
      if next.Err? {
        return Err(next.error);
      }
      cur := next.value;
      i := i + 1;
    }
    return Ok(cur);
  }

  /** One destination of install_sections: its section names, then the later destinations. */
  lemma ChecksStep(c: Command, m: map<string, seq<string>>, order: seq<string>, i: nat, subfolder: string)
    requires i < |order|
    ensures var r := CheckAll(c, Pairs(if order[i] in m then m[order[i]] else [], Target(order[i], subfolder)));
      CheckAll(c, Checks(m, order[i..], subfolder)) == if r.Ok? then CheckAll(r.value, Checks(m, order[i + 1..], subfolder)) else r
  {
    assert order[i..][1..] == order[i + 1..];
    CheckAllAppend(c, Pairs(if order[i] in m then m[order[i]] else [], Target(order[i], subfolder)), Checks(m, order[i + 1..], subfolder));
  }

  /** The inner loop of install_sections: each section name checked against `dest`. */
  method CheckNames(c: Command, names: seq<string>, dest: string) returns (r: Result<Command, PyError>)
    ensures r == CheckAll(c, Pairs(names, dest))
  {
    var cur := c;
    assert names[0..] == names;
    for j := 0 to |names|
      invariant CheckAll(c, Pairs(names, dest)) == CheckAll(cur, Pairs(names[j..], dest))
    {
      assert Pairs(names[j..], dest)[1..] == Pairs(names[j + 1..], dest);
      var next := CheckComplex(cur, names[j], dest);
      if next.Err? {
        return Err(next.error);
      }
      cur := next.value;
    }
    assert Pairs(names[|names|..], dest) == [];
    return Ok(cur);
  }

  /** Checking `a` then `b` is checking `a + b`. */
  lemma {:induction false} CheckAllAppend(c: Command, a: seq<(string, string)>, b: seq<(string, string)>)
    ensures CheckAll(c, a + b) == if CheckAll(c, a).Ok? then CheckAll(CheckAll(c, a).value, b) else CheckAll(c, a)
    decreases |a|
  {
    if a != [] {
      assert (a + b)[1..] == a[1..] + b;
      var c1 := CheckComplex(c, a[0].0, a[0].1);
      if c1.Ok? {
        CheckAllAppend(c1.value, a[1..], b);
      }
    } else {
      assert a + b == b;
    }
  }

  /** The checks are exactly the section names of the map, each with its destination's target. */
  lemma {:induction false} ChecksSpec(m: map<string, seq<string>>, order: seq<string>, subfolder: string, key: string, value: string)
    ensures (key, value) in Checks(m, order, subfolder) <==>
      exists d :: d in order && d in m && key in m[d] && value == Target(d, subfolder)
  {
    if order != [] {
      ChecksSpec(m, order[1..], subfolder, key, value);
      var here := if order[0] in m then Pairs(m[order[0]], Target(order[0], subfolder)) else [];
      assert (key, value) in here <==> order[0] in m && key in m[order[0]] && value == Target(order[0], subfolder) by {
        if (key, value) in here {
          var k :| 0 <= k < |here| && here[k] == (key, value);
        }
        if order[0] in m && key in m[order[0]] && value == Target(order[0], subfolder) {
          var k :| 0 <= k < |m[order[0]]| && m[order[0]][k] == key;
          assert here[k] == (key, value);
        }
      }
      assert forall d :: d in order <==> d == order[0] || d in order[1..];
    }
  }

  /** install_sections fails only on a section name with no words. */
  lemma {:induction false} CheckAllFails(c: Command, checks: seq<(string, string)>)
    ensures CheckAll(c, checks).Err? ==> exists k :: 0 <= k < |checks| && SplitWs(checks[k].0) == []
    decreases |checks|
  {
    if checks != [] {
      CheckComplexShape(c, checks[0].0, checks[0].1);
      var c1 := CheckComplex(c, checks[0].0, checks[0].1);
      if c1.Ok? {
        CheckAllFails(c1.value, checks[1..]);
        if CheckAll(c1.value, checks[1..]).Err? {
          var k :| 0 <= k < |checks[1..]| && SplitWs(checks[1..][k].0) == [];
          assert checks[k + 1] == checks[1..][k];
        }
      }
    }
  }

  /** After install_sections every check holds in the command, which has only grown; it is
      unchanged or marked changed. */
  lemma CheckAllSpec(c: Command, checks: seq<(string, string)>)
    ensures CheckAll(c, checks).Ok? ==>
      var r := CheckAll(c, checks).value;
      Grown(c, r) && (r == c || r.changed)
      && forall k :: 0 <= k < |checks| ==> Holds(r, checks[k].0, checks[k].1)
  {
    CheckAllGrown(c, checks);
    CheckAllHolds(c, checks);
  }

  lemma {:induction false} CheckAllGrown(c: Command, checks: seq<(string, string)>)
    ensures CheckAll(c, checks).Ok? ==>
      var r := CheckAll(c, checks).value;
      Grown(c, r) && (r == c || r.changed)
    decreases |checks|
  {
    if checks != [] {
      CheckComplexSpec(c, checks[0].0, checks[0].1);
      var c1 := CheckComplex(c, checks[0].0, checks[0].1);
      if c1.Ok? {
        CheckAllGrown(c1.value, checks[1..]);
        var r := CheckAll(c1.value, checks[1..]);
        if r.Ok? {
          GrownTrans(c, c1.value, r.value);
        }
      }
    } else {
      assert forall j :: 0 <= j < |c.sections| ==> GrownItem(c.sections[j], c.sections[j]);
    }
  }

  lemma {:induction false} CheckAllHolds(c: Command, checks: seq<(string, string)>)
    ensures CheckAll(c, checks).Ok? ==>
      forall k :: 0 <= k < |checks| ==> Holds(CheckAll(c, checks).value, checks[k].0, checks[k].1)
    decreases |checks|
  {
    if checks != [] {
      var c1 := CheckComplex(c, checks[0].0, checks[0].1);
      if c1.Ok? {
        var r := CheckAll(c1.value, checks[1..]);
        if r.Ok? {
          assert Holds(r.value, checks[0].0, checks[0].1) by {
            CheckComplexSpec(c, checks[0].0, checks[0].1);
            CheckAllGrown(c1.value, checks[1..]);
            GrownHolds(c1.value, r.value, checks[0].0, checks[0].1);
          }
          forall k | 1 <= k < |checks|
            ensures Holds(r.value, checks[k].0, checks[k].1)
          {
            CheckAllHolds(c1.value, checks[1..]);
            assert checks[k] == checks[1..][k - 1];
          }
        }
      }
    }
  }

  /** A name that starts with a non-blank character has a word. */
  lemma SplitWsLeading(s: string)
    requires |s| > 0 && !IsSpace(s[0])
    ensures SplitWs(s) != []
  {
  }

  /** The section names of the configurations all have words, so install_sections never
      raises for them. */
  lemma ConfigNamesWordy(t: InstallType, d: string, key: string)
    requires d in Destinations(t) && key in Destinations(t)[d]
    ensures SplitWs(key) != []
  {
    SplitWsLeading(key);
  }

  /** The finding: for a library with the subfolder "x", the second section name of the lib
      destination is given the subfolder twice, where the corrected checks give it once. */
  lemma InstallSectionsDoubleJoin()
    ensures AsWrittenChecks(Destinations(Library), [PackageLib, GlobalBin], "x")[1]
            == ("LIBRARY DESTINATION", PackageLib + "/x/x")
    ensures Checks(Destinations(Library), [PackageLib, GlobalBin], "x")[1]
            == ("LIBRARY DESTINATION", PackageLib + "/x")
  {
    var m := Destinations(Library);
    var names := m[PackageLib];
    var once := PackageLib + "/x";
    assert Target(PackageLib, "x") == once by {
      assert PackageLib[|PackageLib| - 1] == '}';
      assert PackageLib + "/" + "x" == once;
    }
    assert Target(once, "x") == PackageLib + "/x/x" by {
      assert once[|once| - 1] == 'x';
      assert once + "/" + "x" == PackageLib + "/x/x";
    }
    assert names[1..] == ["LIBRARY DESTINATION"];
    assert AsWrittenPairs(names, PackageLib, "x") == [(names[0], once)] + AsWrittenPairs(names[1..], once, "x");
    assert AsWrittenPairs(names[1..], once, "x")[0] == ("LIBRARY DESTINATION", PackageLib + "/x/x");
  }

  // ---------------------------------------------------------------------------------------
  // remove_install_section (installs.py:114-134)

  /** The names of `names` that split into two words, their first word mapped to `dest`. */
  function FirstWordsOf(acc: map<string, string>, names: seq<string>, dest: string): map<string, string>
    decreases |names|
  {
    if names == [] then acc
    else
      var parts := SplitWs(names[0]);
      FirstWordsOf(if |parts| == 2 then acc[parts[0] := dest] else acc, names[1..], dest)
  }

  /** empty_sections_to_remove, built destination by destination in the order `order`; a later
      destination overrides an earlier one with the same first word. */
  function FirstWords(acc: map<string, string>, m: map<string, seq<string>>, order: seq<string>): map<string, string>
    decreases |order|
  {
    if order == [] then acc
    else FirstWords(FirstWordsOf(acc, if order[0] in m then m[order[0]] else [], order[0]), m, order[1..])
  }

  method EmptySectionsToRemove(m: map<string, seq<string>>, order: seq<string>) returns (e: map<string, string>)
    ensures e == FirstWords(map[], m, order)
  {
    e := map[];
    for i := 0 to |order|
      invariant FirstWords(map[], m, order) == FirstWords(e, m, order[i..])
    {
      assert order[i..][1..] == order[i + 1..];
      var names := if order[i] in m then m[order[i]] else [];
      for j := 0 to |names|
        invariant FirstWords(map[], m, order) == FirstWords(FirstWordsOf(e, names[j..], order[i]), m, order[i + 1..])
      {
        assert names[j..][1..] == names[j + 1..];
        var parts := SplitWs(names[j]);
        if |parts| == 2 {
          e := e[parts[0] := order[i]];
        }
      }
    }
  }

  /** The name `n` splits into two words, the first of them `w`. */
  predicate TwoWords(n: string, w: string)
  {
    |SplitWs(n)| == 2 && SplitWs(n)[0] == w
  }

  /** Some name of `names` has `w` as the first of its two words. */
  predicate HasTwo(names: seq<string>, w: string)
  {
    exists n :: n in names && TwoWords(n, w)
  }

  /** Destination `d` of the map has a section name whose first of two words is `w`. */
  predicate NamedBy(m: map<string, seq<string>>, w: string, d: string)
  {
    d in m && HasTwo(m[d], w)
  }

  lemma {:induction false} FirstWordsOfSpec(acc: map<string, string>, names: seq<string>, dest: string, w: string)
    ensures var r := FirstWordsOf(acc, names, dest);
      (w in r <==> w in acc || HasTwo(names, w))
      && (HasTwo(names, w) ==> r[w] == dest)
      && (!HasTwo(names, w) && w in acc ==> r[w] == acc[w])
    decreases |names|
  {
    if names != [] {
      var parts := SplitWs(names[0]);
      var acc' := if |parts| == 2 then acc[parts[0] := dest] else acc;
      FirstWordsOfSpec(acc', names[1..], dest, w);
      assert forall n :: n in names <==> n == names[0] || n in names[1..];
      assert HasTwo(names, w) <==> TwoWords(names[0], w) || HasTwo(names[1..], w);
    }
  }

  /** empty_sections_to_remove maps exactly the first words of the two-word section names,
      each to a destination that has such a name. */
  lemma {:induction false} FirstWordsSpec(acc: map<string, string>, m: map<string, seq<string>>, order: seq<string>, w: string)
    requires forall x :: x in acc ==> NamedBy(m, x, acc[x])
    ensures var r := FirstWords(acc, m, order);
      (w in r <==> w in acc || exists d :: d in order && NamedBy(m, w, d))
      && (w in r ==> NamedBy(m, w, r[w]))
    decreases |order|
  {
    if order != [] {
      var names := if order[0] in m then m[order[0]] else [];
      var acc' := FirstWordsOf(acc, names, order[0]);
      forall x | x in acc'
        ensures NamedBy(m, x, acc'[x])
      {
        FirstWordsOfSpec(acc, names, order[0], x);
      }
      FirstWordsOfSpec(acc, names, order[0], w);
      FirstWordsSpec(acc', m, order[1..], w);
      assert forall d :: d in order <==> d == order[0] || d in order[1..];
    }
  }

  /** A section that opens a pair: its name is a mapped first word and it holds no value. */
  predicate Opens(s: Section, e: map<string, string>)
  {
    s.name in e && |s.values| == 0
  }

  /** A section that closes a pair: a DESTINATION whose only value is `dest`. */
  predicate Closes(s: Section, dest: string)
  {
    s.name == "DESTINATION" && s.values == [dest]
  }

  /** The real sections `i` and `i + 1` form a pair to remove. */
  predicate PairAt(rs: seq<Section>, e: map<string, string>, i: int)
  {
    0 <= i && i + 1 < |rs| && Opens(rs[i], e) && Closes(rs[i + 1], e[rs[i].name])
  }

  /** to_remove, as positions among the real sections from `i` on: each pair in order.
      `sections[i + 1]` raises IndexError when the last real section opens a pair. */
  function PairsFrom(rs: seq<Section>, e: map<string, string>, i: nat): Result<seq<nat>, PyError>
    decreases |rs| - i
  {
    if i >= |rs| then Ok([])
    else if !Opens(rs[i], e) then PairsFrom(rs, e, i + 1)
    else if i + 1 == |rs| then Err(IndexError)
    else
      var rest :- PairsFrom(rs, e, i + 1);
      Ok(if Closes(rs[i + 1], e[rs[i].name]) then [i, i + 1] + rest else rest)
  }

  /** The pairs found so far followed by those still to come. */
  function Prefixed(found: seq<nat>, rest: Result<seq<nat>, PyError>): Result<seq<nat>, PyError>
  {
    if rest.Ok? then Ok(found + rest.value) else rest
  }

  lemma PairsFromStep(rs: seq<Section>, e: map<string, string>, i: nat, found: seq<nat>)
    requires i < |rs|
    ensures !Opens(rs[i], e) ==> Prefixed(found, PairsFrom(rs, e, i)) == Prefixed(found, PairsFrom(rs, e, i + 1))
    ensures Opens(rs[i], e) && i + 1 == |rs| ==> PairsFrom(rs, e, i) == Err(IndexError)
    ensures Opens(rs[i], e) && i + 1 < |rs| ==>
      Prefixed(found, PairsFrom(rs, e, i))
        == Prefixed(found + if Closes(rs[i + 1], e[rs[i].name]) then [i, i + 1] else [], PairsFrom(rs, e, i + 1))
  {
    if Opens(rs[i], e) && i + 1 < |rs| && PairsFrom(rs, e, i + 1).Ok? {
      var rest := PairsFrom(rs, e, i + 1).value;
      assert found + ([i, i + 1] + rest) == found + [i, i + 1] + rest;
      assert found + rest == found + [] + rest;
    }
  }

  /** The items without the real sections whose position (counted from `k`) is in `drop`. */
  function DropReal(items: seq<SectionItem>, drop: set<nat>, k: nat): seq<SectionItem>
  {
    if items == [] then []
    else if items[0].Fragment? then [items[0]] + DropReal(items[1..], drop, k)
    else (if k in drop then [] else [items[0]]) + DropReal(items[1..], drop, k + 1)
  }

  lemma DropRealStep(items: seq<SectionItem>, drop: set<nat>, j: nat, k: nat)
    requires j < |items|
    ensures DropReal(items[j..], drop, k)
            == (if items[j].Fragment? || k !in drop then [items[j]] else [])
               + DropReal(items[j + 1..], drop, if items[j].Fragment? then k else k + 1)
  {
    assert items[j..][1..] == items[j + 1..];
  }

  /** The real sections whose position (counted from `k`) is not in `drop`, in order. */
  function KeepIdx(rs: seq<Section>, drop: set<nat>, k: nat): seq<Section>
  {
    if rs == [] then []
    else (if k in drop then [] else [rs[0]]) + KeepIdx(rs[1..], drop, k + 1)
  }

  /** remove_install_section(cmd, destination_map) */
  function InstallSectionRemoved(c: Command, m: map<string, seq<string>>, order: seq<string>): Result<Command, PyError>
  {
    PairsRemoved(c, FirstWords(map[], m, order))
  }

  method RemoveInstallSection(c: Command, m: map<string, seq<string>>, order: seq<string>)
    returns (r: Result<Command, PyError>)
    ensures r == InstallSectionRemoved(c, m, order)
  {
    var e := EmptySectionsToRemove(m, order);
    var rs := RealSections(c.sections);
    var toRemove: seq<nat> := [];
    var i := 0;
    if PairsFrom(rs, e, 0).Ok? {
      assert [] + PairsFrom(rs, e, 0).value == PairsFrom(rs, e, 0).value;
    }
    while i < |rs|
      invariant 0 <= i <= |rs|
      invariant PairsFrom(rs, e, 0) == Prefixed(toRemove, PairsFrom(rs, e, i))
    {
      PairsFromStep(rs, e, i, toRemove);
      if Opens(rs[i], e) {
        if i + 1 == |rs| {
          return Err(IndexError);
        }
        toRemove := toRemove + if Closes(rs[i + 1], e[rs[i].name]) then [i, i + 1] else [];
      }
      i := i + 1;
    }
    assert toRemove + [] == toRemove;
    if |toRemove| > 0 {
      var items := RemoveAll(c.sections, set p | p in toRemove);
      return Ok(c.(sections := items, changed := true));
    }
    return Ok(c);
  }

  /** `for section in to_remove: cmd.sections.remove(section)`: each listed section object
      removed by identity, which leaves every other item where it was in order. */
  method RemoveAll(items: seq<SectionItem>, drop: set<nat>) returns (r: seq<SectionItem>)
    ensures r == DropReal(items, drop, 0)
  {
    r := [];
    var k := 0;
    var j := 0;
    while j < |items|
      invariant 0 <= j <= |items|
      invariant DropReal(items, drop, 0) == r + DropReal(items[j..], drop, k)
    {
      DropRealStep(items, drop, j, k);
      var head := if items[j].Fragment? || k !in drop then [items[j]] else [];
      assert r + (head + DropReal(items[j + 1..], drop, if items[j].Fragment? then k else k + 1))
             == (r + head) + DropReal(items[j + 1..], drop, if items[j].Fragment? then k else k + 1);
      r := r + head;
      if items[j].Sec? {
        k := k + 1;
      }
      j := j + 1;
    }
    assert DropReal(items[j..], drop, k) == [];
  }

  /** The real section `k` belongs to a pair that starts at `i` or later. */
  predicate InPair(rs: seq<Section>, e: map<string, string>, i: nat, k: nat)
  {
    PairAt(rs, e, k) || (k >= i + 1 && PairAt(rs, e, k - 1))
  }

  /** The real sections in a pair, counted from `i`. */
  function Removed(rs: seq<Section>, e: map<string, string>, i: nat): set<nat>
  {
    set k | i <= k < |rs| && InPair(rs, e, i, k)
  }

  /** The scan raises exactly when the last real section opens a pair, and otherwise lists
      exactly the sections of the pairs. */
  lemma {:induction false} PairsFromSpec(rs: seq<Section>, e: map<string, string>, i: nat)
    requires i <= |rs|
    ensures PairsFrom(rs, e, i).Err? <==> i < |rs| && Opens(rs[|rs| - 1], e)
    ensures PairsFrom(rs, e, i).Ok? ==> (set p | p in PairsFrom(rs, e, i).value) == Removed(rs, e, i)
    decreases |rs| - i
  {
    if i < |rs| {
      PairsFromSpec(rs, e, i + 1);
      var rest := PairsFrom(rs, e, i + 1);
      if rest.Ok? {
        if Opens(rs[i], e) && i + 1 < |rs| && Closes(rs[i + 1], e[rs[i].name]) {
          assert Removed(rs, e, i) == {i, i + 1} + Removed(rs, e, i + 1) by {
            assert PairAt(rs, e, i);
            assert InPair(rs, e, i, i) && InPair(rs, e, i, i + 1);
          }
        } else {
          assert Removed(rs, e, i) == Removed(rs, e, i + 1) by {
            assert !PairAt(rs, e, i);
            assert !InPair(rs, e, i, i);
            forall k | i + 1 <= k < |rs| ensures InPair(rs, e, i, k) <==> InPair(rs, e, i + 1, k) {
              if k == i + 1 {
                assert k - 1 == i;
              }
            }
          }
        }
      }
    } else {
      assert Removed(rs, e, i) == {};
    }
  }

  /** The texts of the fragments among the items, in order. */
  function Fragments(items: seq<SectionItem>): seq<string>
  {
    if items == [] then []
    else (if items[0].Fragment? then [items[0].text] else []) + Fragments(items[1..])
  }

  /** Removal keeps every fragment and exactly the real sections not listed. */
  lemma {:induction false} DropRealSpec(items: seq<SectionItem>, drop: set<nat>, k: nat)
    ensures RealSections(DropReal(items, drop, k)) == KeepIdx(RealSections(items), drop, k)
    ensures Fragments(DropReal(items, drop, k)) == Fragments(items)
    ensures |DropReal(items, drop, k)| == |items| - (|RealSections(items)| - |RealSections(DropReal(items, drop, k))|)
  {
    if items != [] {
      var k' := if items[0].Fragment? then k else k + 1;
      DropRealSpec(items[1..], drop, k');
      var rest := DropReal(items[1..], drop, k');
      var head := if items[0].Fragment? || k !in drop then [items[0]] else [];
      assert DropReal(items, drop, k) == head + rest;
      RealSectionsAppend(head, rest);
      FragmentsAppend(head, rest);
      assert items == [items[0]] + items[1..];
      RealSectionsAppend([items[0]], items[1..]);
      FragmentsAppend([items[0]], items[1..]);
    }
  }

  lemma {:induction false} FragmentsAppend(a: seq<SectionItem>, b: seq<SectionItem>)
    ensures Fragments(a + b) == Fragments(a) + Fragments(b)
  {
    if a != [] {
      assert (a + b)[1..] == a[1..] + b;
      FragmentsAppend(a[1..], b);
    } else {
      assert a + b == b;
    }
  }

  /** No position from `k` to `k + n - 1` is listed. */
  predicate Untouched(drop: set<nat>, k: nat, n: nat)
  {
    forall j :: k <= j < k + n ==> j !in drop
  }

  /** What is kept is taken from the real sections, every unlisted one is kept, and something
      is dropped exactly when some position is listed. */
  lemma KeepIdxSpec(rs: seq<Section>, drop: set<nat>, k: nat)
    ensures forall s :: s in KeepIdx(rs, drop, k) ==> s in rs
    ensures forall j :: 0 <= j < |rs| && k + j !in drop ==> rs[j] in KeepIdx(rs, drop, k)
    ensures Untouched(drop, k, |rs|) ==> KeepIdx(rs, drop, k) == rs
    ensures !Untouched(drop, k, |rs|) ==> |KeepIdx(rs, drop, k)| < |rs|
  {
    KeepIdxMembers(rs, drop, k);
    KeepIdxLength(rs, drop, k);
  }

  lemma {:induction false} KeepIdxMembers(rs: seq<Section>, drop: set<nat>, k: nat)
    ensures forall s :: s in KeepIdx(rs, drop, k) ==> s in rs
    ensures forall j :: 0 <= j < |rs| && k + j !in drop ==> rs[j] in KeepIdx(rs, drop, k)
  {
    if rs != [] {
      KeepIdxMembers(rs[1..], drop, k + 1);
      forall j | 1 <= j < |rs| && k + j !in drop
        ensures rs[j] in KeepIdx(rs, drop, k)
      {
        assert rs[j] == rs[1..][j - 1];
      }
    }
  }

  lemma {:induction false} KeepIdxLength(rs: seq<Section>, drop: set<nat>, k: nat)
    ensures Untouched(drop, k, |rs|) ==> KeepIdx(rs, drop, k) == rs
    ensures !Untouched(drop, k, |rs|) ==> |KeepIdx(rs, drop, k)| < |rs|
  {
    if rs != [] {
      KeepIdxLength(rs[1..], drop, k + 1);
      assert Untouched(drop, k, |rs|) <==> k !in drop && Untouched(drop, k + 1, |rs| - 1);
      assert rs == [rs[0]] + rs[1..];
    }
  }

  lemma ListedNone(xs: seq<nat>)
    ensures xs != [] ==> (set p | p in xs) != {}
  {
    if xs != [] {
      var listed := set p | p in xs;
      assert xs[0] in listed;
    }
  }

  lemma KeepNothingDropped(rs: seq<Section>, drop: set<nat>)
    requires drop == {}
    ensures KeepIdx(rs, drop, 0) == rs
  {
    assert Untouched(drop, 0, |rs|);
    KeepIdxSpec(rs, drop, 0);
  }

  /** Some pair is there to remove. */
  predicate AnyPair(rs: seq<Section>, e: map<string, string>)
  {
    exists k :: 0 <= k < |rs| && PairAt(rs, e, k)
  }

  /** remove_install_section given its map `e` of first words to destinations. */
  function PairsRemoved(c: Command, e: map<string, string>): Result<Command, PyError>
  {
    var ps :- PairsFrom(RealSections(c.sections), e, 0);
    if ps == [] then Ok(c)
    else Ok(c.(sections := DropReal(c.sections, set p | p in ps, 0), changed := true))
  }

  /** remove_install_section raises exactly when the last real section opens a pair. */
  lemma PairsRemovedFails(c: Command, e: map<string, string>)
    ensures var rs := RealSections(c.sections);
      PairsRemoved(c, e).Err? <==> |rs| > 0 && Opens(rs[|rs| - 1], e)
  {
    PairsFromSpec(RealSections(c.sections), e, 0);
  }

  /** Otherwise it removes exactly the pairs (an empty section named by a mapped first word,
      then a DESTINATION holding just that word's destination), keeping every fragment and
      every other section in order. */
  lemma PairsRemovedSpec(c: Command, e: map<string, string>)
    ensures var rs := RealSections(c.sections);
      var r := PairsRemoved(c, e);
      r.Ok? ==>
        r.value.id == c.id && r.value.name == c.name
        && RealSections(r.value.sections) == KeepIdx(rs, Removed(rs, e, 0), 0)
        && Fragments(r.value.sections) == Fragments(c.sections)
  {
    var rs := RealSections(c.sections);
    var ps := PairsFrom(rs, e, 0);
    if ps.Ok? {
      PairsFromSpec(rs, e, 0);
      var drop := set p | p in ps.value;
      assert drop == Removed(rs, e, 0);
      if ps.value == [] {
        assert drop == {};
        KeepNothingDropped(rs, drop);
        assert PairsRemoved(c, e) == Ok(c);
      } else {
        DropRealSpec(c.sections, drop, 0);
        assert PairsRemoved(c, e) == Ok(c.(sections := DropReal(c.sections, drop, 0), changed := true));
      }
    }
  }

  /** The command is marked changed, and loses items, exactly when there was a pair to remove;
      without one it is left as it was. */
  lemma PairsRemovedChanged(c: Command, e: map<string, string>)
    ensures var rs := RealSections(c.sections);
      var r := PairsRemoved(c, e);
      r.Ok? ==>
        (AnyPair(rs, e) ==> r.value.changed && |r.value.sections| < |c.sections|)
        && (!AnyPair(rs, e) ==> r.value == c)
  {
    var rs := RealSections(c.sections);
    PairsFromSpec(rs, e, 0);
    var ps := PairsFrom(rs, e, 0);
    if ps.Ok? {
      var drop := set p | p in ps.value;
      if AnyPair(rs, e) {
        var k :| 0 <= k < |rs| && PairAt(rs, e, k);
        assert InPair(rs, e, 0, k) && k in Removed(rs, e, 0);
        assert k in drop;
        assert !Untouched(drop, 0, |rs|);
        KeepIdxSpec(rs, drop, 0);
        DropRealSpec(c.sections, drop, 0);
      } else {
        forall k | 0 <= k < |rs|
          ensures !InPair(rs, e, 0, k)
        {
          if k >= 1 {
            assert !PairAt(rs, e, k - 1);
          }
        }
        assert Removed(rs, e, 0) == {};
        ListedNone(ps.value);
      }
    }
  }

  // ---------------------------------------------------------------------------------------
  // fix_double_directory_installs (installs.py:218-234)

  /** `destination[:-len(directory) - 1]` for a non-empty directory. */
  function Trimmed(dest: string, directory: string): (r: string)
    ensures StartsWith(dest, r)
  {
    dest[..if |dest| >= |directory| + 1 then |dest| - |directory| - 1 else 0]
  }

  predicate IsDestination(x: SectionItem)
  {
    x.Sec? && x.section.name == "DESTINATION"
  }

  /** The destination section is shortened: it ends with a directory that has no final '/'. */
  predicate Shortens(x: SectionItem, directory: string, finalSlash: bool)
  {
    IsDestination(x) && |x.section.values| > 0 && !finalSlash && EndsWith(x.section.values[0], directory)
  }

  function FixedItem(x: SectionItem, directory: string, finalSlash: bool): SectionItem
  {
    if Shortens(x, directory, finalSlash)
    then Sec(x.section.(values := x.section.values[0 := Trimmed(x.section.values[0], directory)]))
    else x
  }

  /** Some DESTINATION section has no value. */
  predicate AnyEmptyDestination(items: seq<SectionItem>)
  {
    exists j :: 0 <= j < |items| && IsDestination(items[j]) && items[j].section.values == []
  }

  predicate AnyShortened(items: seq<SectionItem>, directory: string, finalSlash: bool)
  {
    exists j :: 0 <= j < |items| && Shortens(items[j], directory, finalSlash)
  }

  function FixedItems(items: seq<SectionItem>, directory: string, finalSlash: bool): (r: seq<SectionItem>)
    ensures |r| == |items| && forall j :: 0 <= j < |items| ==> r[j] == FixedItem(items[j], directory, finalSlash)
  {
    seq(|items|, j requires 0 <= j < |items| => FixedItem(items[j], directory, finalSlash))
  }

  /** The DIRECTORY value fix_double_directory_installs works with, once it has both a DIRECTORY
      and a DESTINATION section; IndexError when that value is missing or empty. */
  function DirectoryOf(c: Command): (r: Option<Result<string, PyError>>)
    ensures r.Some? && r.value.Ok? ==> r.value.value != []
  {
    match FindSection(c.sections, "DIRECTORY")
    case None => None
    case Some(p) =>
      if GetSections(c, "DESTINATION") == [] then None
      else
        var values := c.sections[p].section.values;
        if values == [] || values[0] == [] then Some(Err(IndexError)) else Some(Ok(values[0]))
  }

  /** The edit fix_double_directory_installs makes to one install command. */
  function DoubleFixed(c: Command): Result<Command, PyError>
  {
    match DirectoryOf(c)
    case None => Ok(c)
    case Some(Err(e)) => Err(e)
    case Some(Ok(directory)) =>
      if AnyEmptyDestination(c.sections) then Err(IndexError)
      else
        var finalSlash := directory[|directory| - 1] == '/';
        if AnyShortened(c.sections, directory, finalSlash)
        then Ok(c.(sections := FixedItems(c.sections, directory, finalSlash), changed := true))
        else Ok(c)
  }

  /** fix_double_directory_installs's body for one command. */
  method FixDoubleDirectory(c: Command) returns (r: Result<Command, PyError>)
    ensures r == DoubleFixed(c)
  {
    match DirectoryOf(c) {
      case None =>
        return Ok(c);
      case Some(Err(e)) =>
        return Err(e);
      case Some(Ok(directory)) =>
        var finalSlash := directory[|directory| - 1] == '/';
        var fixed := FixDestinations(c.sections, directory, finalSlash);
        if fixed.None? {
          return Err(IndexError);
        }
        if fixed.value.1 {
          return Ok(c.(sections := fixed.value.0, changed := true));
        }
        return Ok(c);
    }
  }

  /** The loop over the DESTINATION sections: each shortened where it ends with the directory,
      with whether any was; None for the IndexError of one without a value. */
  method FixDestinations(items: seq<SectionItem>, directory: string, finalSlash: bool)
    returns (r: Option<(seq<SectionItem>, bool)>)
    ensures r.None? <==> AnyEmptyDestination(items)
    ensures r.Some? ==> r.value == (FixedItems(items, directory, finalSlash), AnyShortened(items, directory, finalSlash))
  {
    var fixed: seq<SectionItem> := [];
    var shortened := false;
    for j := 0 to |items|
      invariant |fixed| == j
      invariant forall i :: 0 <= i < j ==> fixed[i] == FixedItem(items[i], directory, finalSlash)
      invariant forall i :: 0 <= i < j ==> !(IsDestination(items[i]) && items[i].section.values == [])
      invariant shortened <==> exists i :: 0 <= i < j && Shortens(items[i], directory, finalSlash)
    {
      var x := items[j];
      if IsDestination(x) {
        if x.section.values == [] {
          return None;
        }
        if !finalSlash && EndsWith(x.section.values[0], directory) {
          shortened := true;
        }
      }
      fixed := fixed + [FixedItem(x, directory, finalSlash)];
    }
    assert fixed == FixedItems(items, directory, finalSlash);
    return Some((fixed, shortened));
  }

  /** The doubled directory os.path.join put on is what the trim takes off. */
  lemma TrimmedUndoesJoin(q: string, directory: string)
    requires q != [] && q[|q| - 1] != '/' && directory != [] && directory[0] != '/'
    ensures EndsWith(PathJoin(q, directory), directory)
    ensures Trimmed(PathJoin(q, directory), directory) == q
  {
    assert PathJoin(q, directory) == q + "/" + directory;
    assert (q + "/" + directory)[|q| + 1..] == directory;
  }

  /** fix_double_directory_installs on one command only shortens first values of DESTINATION
      sections, keeping what they start with; every other item and value stays, and the
      command is marked changed when anything moved. */
  lemma DoubleFixedKeeps(c: Command)
    ensures var r := DoubleFixed(c);
      r.Ok? ==>
        r.value.id == c.id && r.value.name == c.name && |r.value.sections| == |c.sections|
        && (forall j :: 0 <= j < |c.sections| && !IsDestination(c.sections[j]) ==> r.value.sections[j] == c.sections[j])
        && (forall j :: 0 <= j < |c.sections| && IsDestination(c.sections[j]) ==>
              var v := c.sections[j].section.values;
              var w := r.value.sections[j].section.values;
              IsDestination(r.value.sections[j]) && |w| == |v|
              && (|v| > 0 ==> w[1..] == v[1..] && StartsWith(v[0], w[0])))
        && (r.value != c ==> r.value.changed)
  {
  }

  /** With a DIRECTORY value that has no final '/', a DESTINATION whose first value ends with it
      loses that ending and the separator before it, and the command is marked changed; with a
      final '/', or with no DESTINATION ending so, nothing changes. */
  lemma DoubleFixedShortens(c: Command, j: nat)
    requires DirectoryOf(c).Some? && DirectoryOf(c).value.Ok? && DoubleFixed(c).Ok?
    requires j < |c.sections| && IsDestination(c.sections[j])
    ensures var directory := DirectoryOf(c).value.value;
      var v := c.sections[j].section.values;
      var r := DoubleFixed(c).value;
      |v| > 0
      && (directory[|directory| - 1] != '/' && EndsWith(v[0], directory) ==>
            r.changed && r.sections[j].section.values[0] == Trimmed(v[0], directory)
            && |Trimmed(v[0], directory)| == if |v[0]| > |directory| then |v[0]| - |directory| - 1 else 0)
      && (directory[|directory| - 1] == '/' ==> r == c)
  {
    var directory := DirectoryOf(c).value.value;
    var finalSlash := directory[|directory| - 1] == '/';
    if !finalSlash && EndsWith(c.sections[j].section.values[0], directory) {
      assert Shortens(c.sections[j], directory, finalSlash);
    }
  }

  /** The step of the loop over install commands. */
  function FixStep(c: Command, u: ()): Result<(Command, ()), PyError>
  {
    Stateless(DoubleFixed(c), u)
  }

  /** fix_double_directory_installs(package), on the package's CMake file. */
  function DoubleDirectoryInstallsFixed(d: CMake): Result<CMake, PyError>
  {
    var p :- EditEach(d, "install", Lookup(d.contentMap, "install"), (), FixStep);
    Ok(p.0)
  }

  method FixDoubleDirectoryInstalls(d: CMake) returns (r: Result<CMake, PyError>)
    ensures r == DoubleDirectoryInstallsFixed(d)
  {
    var p := EditPass(d, "install", (), FixStep);
    if p.Err? {
      return Err(p.error);
    }
    return Ok(p.value.0);
  }

  /** In a consistent file, the pass edits every install command by DoubleFixed, where it stands,
      and touches nothing else; the index and its invariant are kept. */
  lemma DoubleDirectoryInstallsSpec(d: CMake)
    requires Consistent(d)
    ensures var ids := Lookup(d.contentMap, "install");
      var r := DoubleDirectoryInstallsFixed(d);
      r.Ok? ==>
        Consistent(r.value) && r.value.contentMap == d.contentMap
        && EditedDoc(d, r.value, "install", ids, FixStep)
        && forall j :: 0 <= j < |d.contents| && d.contents[j].Cmd? && d.contents[j].cmd.name == "install" ==>
             Visited(d.contents[j], "install", ids)
  {
    var ids := Lookup(d.contentMap, "install");
    forall c: Command, u: ()
      ensures FixStep(c, u).Ok? ==> FixStep(c, u).value.0.id == c.id && FixStep(c, u).value.0.name == c.name
    {
      DoubleFixedKeeps(c);
    }
    FiledIds(d, "install");
    EditEachSpec(d, "install", ids, (), FixStep);
  }
}
