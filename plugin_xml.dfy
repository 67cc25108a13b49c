/** A pluginlib description file (ros_introspection plugin_xml.py, and the older
    src/roscompile/plugin_xml.py, whose writer is the same): libraries in file order, each with
    its classes in order, the insertion of a class, and the text written back. Reading the XML
    file is not part of this model. */
module PluginXml {
  import opened Base
  import opened Str

  /** One class: the attribute dictionary the reader builds ('name', 'type',
      'base_class_type', 'description'), or the one insert_if_needed builds (no 'name'). */
  type ClassAttrs = map<string, string>

  /** One library: its path and its classes keyed by type, in insertion order. */
  datatype Library = Library(path: string, classes: seq<(string, ClassAttrs)>)

  const Placeholder := "INSERT_NAME_OF_LIBRARY"
  const LibPrefix := "lib/lib"
  const Open := "<class_libraries>\n"
  const Close := "</class_libraries>\n"

  // ---------------------------------------------------------------------------------------
  // Ordered dictionaries as entry lists

  /** The position of library `p`, or |libs| when absent. */
  function LibIndex(libs: seq<Library>, p: string): (j: nat)
    ensures j <= |libs| && (j < |libs| ==> libs[j].path == p)
    ensures forall k :: 0 <= k < j ==> libs[k].path != p
  {
    if libs == [] then 0 else if libs[0].path == p then 0 else 1 + LibIndex(libs[1..], p)
  }

  /** The position of class type `t`, or |cs| when absent. */
  function ClassIndex(cs: seq<(string, ClassAttrs)>, t: string): (j: nat)
    ensures j <= |cs| && (j < |cs| ==> cs[j].0 == t)
    ensures forall k :: 0 <= k < j ==> cs[k].0 != t
  {
    if cs == [] then 0 else if cs[0].0 == t then 0 else 1 + ClassIndex(cs[1..], t)
  }

  predicate DistinctPaths(libs: seq<Library>)
  {
    forall i, j :: 0 <= i < j < |libs| ==> libs[i].path != libs[j].path
  }

  predicate DistinctTypes(cs: seq<(string, ClassAttrs)>)
  {
    forall i, j :: 0 <= i < j < |cs| ==> cs[i].0 != cs[j].0
  }

  /** Both levels of the dictionary have distinct keys. */
  predicate Valid(libs: seq<Library>)
  {
    DistinctPaths(libs) && forall i :: 0 <= i < |libs| ==> DistinctTypes(libs[i].classes)
  }

  // ---------------------------------------------------------------------------------------
  // insert_if_needed (plugin_xml.py:41-58)

  /** The library a class goes into (plugin_xml.py:42-49). */
  function LibraryFor(libs: seq<Library>, library: Option<string>): string
  {
    match library
    case None => if |libs| == 0 then Placeholder else libs[0].path
    case Some(l) => if Contains(l, LibPrefix) then l else LibPrefix + l
  }

  /** `'%s::%s' % (a, b)` */
  function Qualified(a: string, b: string): string
  {
    a + "::" + b
  }

  /** The dictionary after insert_if_needed puts `entry` under type `t` of library `lib`. */
  function Inserted(libs: seq<Library>, lib: string, t: string, entry: ClassAttrs): seq<Library>
  {
    var j := LibIndex(libs, lib);
    var libs1 := if j < |libs| then libs else libs + [Library(lib, [])];
    var cs := libs1[j].classes;
    if ClassIndex(cs, t) < |cs| then libs1 else libs1[j := Library(lib, cs + [(t, entry)])]
  }

  /** The entry insert_if_needed builds for a new class. */
  function NewEntry(t: string, basePkg: string, baseName: string, description: string): ClassAttrs
  {
    map["base_class_type" := Qualified(basePkg, baseName), "type" := t, "description" := description]
  }

  /** insert_if_needed(pkg, name, base_pkg, base_name, description, library) */
  function WithClass(libs: seq<Library>, pkg: string, name: string, basePkg: string, baseName: string,
                          description: string, library: Option<string>): seq<Library>
  {
    var t := Qualified(pkg, name);
    Inserted(libs, LibraryFor(libs, library), t, NewEntry(t, basePkg, baseName, description))
  }

  /** The library chosen: the placeholder or the first library when none is named, and a named
      one always holds 'lib/lib', prefixed only when it did not already. */
  lemma LibraryForSpec(libs: seq<Library>, library: Option<string>)
    ensures library.None? && libs == [] ==> LibraryFor(libs, library) == Placeholder
    ensures library.None? && libs != [] ==> LibraryFor(libs, library) == libs[0].path
    ensures library.Some? ==>
      Contains(LibraryFor(libs, library), LibPrefix) &&
      EndsWith(LibraryFor(libs, library), library.value) &&
      (LibraryFor(libs, library) == library.value <==> Contains(library.value, LibPrefix))
  {
    if library.Some? && !Contains(library.value, LibPrefix) {
      var r := LibPrefix + library.value;
      assert r[..|LibPrefix|] == LibPrefix;
      assert r[|r| - |library.value|..] == library.value;
      assert r != library.value by {
        assert |r| > |library.value|;
      }
    }
  }

  /** The library is then present, holding type `t`; it was either already there or is
      appended last, and the class is either already there or is appended last. */
  lemma InsertedHas(libs: seq<Library>, lib: string, t: string, entry: ClassAttrs)
    ensures var r := Inserted(libs, lib, t, entry); var j := LibIndex(r, lib);
      j < |r| && ClassIndex(r[j].classes, t) < |r[j].classes|
    ensures var r := Inserted(libs, lib, t, entry); var j := LibIndex(r, lib);
      var cs := if LibIndex(libs, lib) < |libs| then libs[LibIndex(libs, lib)].classes else [];
      ClassIndex(cs, t) == |cs| ==> r[j].classes[ClassIndex(r[j].classes, t)].1 == entry
  {
    var j := LibIndex(libs, lib);
    var libs1 := if j < |libs| then libs else libs + [Library(lib, [])];
    var cs := libs1[j].classes;
    var r := Inserted(libs, lib, t, entry);
    LibIndexAt(r, j, lib);
    if ClassIndex(cs, t) == |cs| {
      ClassIndexLast(cs, t, entry);
    }
  }

  lemma {:induction false} LibIndexAt(libs: seq<Library>, j: nat, p: string)
    requires j < |libs| && libs[j].path == p && forall k :: 0 <= k < j ==> libs[k].path != p
    ensures LibIndex(libs, p) == j
  {
    if j > 0 {
      LibIndexAt(libs[1..], j - 1, p);
    }
  }

  lemma ClassIndexLast(cs: seq<(string, ClassAttrs)>, t: string, entry: ClassAttrs)
    requires ClassIndex(cs, t) == |cs|
    ensures ClassIndex(cs + [(t, entry)], t) == |cs|
  {
    ClassIndexAt(cs + [(t, entry)], |cs|, t);
  }

  lemma {:induction false} ClassIndexAt(cs: seq<(string, ClassAttrs)>, j: nat, t: string)
    requires j < |cs| && cs[j].0 == t && forall k :: 0 <= k < j ==> cs[k].0 != t
    ensures ClassIndex(cs, t) == j
  {
    if j > 0 {
      ClassIndexAt(cs[1..], j - 1, t);
    }
  }

  /** Nothing is lost, reordered or overwritten: the old libraries come first in their order,
      each one's old classes come first in their order with their entries unchanged, and at
      most one library and one class are added. */
  lemma InsertedExtends(libs: seq<Library>, lib: string, t: string, entry: ClassAttrs)
    ensures var r := Inserted(libs, lib, t, entry);
      |libs| <= |r| <= |libs| + 1 &&
      (forall i :: 0 <= i < |libs| ==>
        r[i].path == libs[i].path &&
        |libs[i].classes| <= |r[i].classes| <= |libs[i].classes| + 1 &&
        r[i].classes[..|libs[i].classes|] == libs[i].classes)
  {
  }

  /** Distinct keys stay distinct. */
  lemma InsertedValid(libs: seq<Library>, lib: string, t: string, entry: ClassAttrs)
    requires Valid(libs)
    ensures Valid(Inserted(libs, lib, t, entry))
  {
    var j := LibIndex(libs, lib);
    var libs1 := if j < |libs| then libs else libs + [Library(lib, [])];
    assert Valid(libs1);
    var cs := libs1[j].classes;
    if ClassIndex(cs, t) == |cs| {
      var r := libs1[j := Library(lib, cs + [(t, entry)])];
      assert DistinctTypes(cs + [(t, entry)]);
      assert forall i :: 0 <= i < |r| ==> r[i].path == libs1[i].path;
    }
  }

  /** Inserting the same class twice is inserting it once. */
  lemma InsertedTwice(libs: seq<Library>, lib: string, t: string, entry: ClassAttrs)
    ensures Inserted(Inserted(libs, lib, t, entry), lib, t, entry) == Inserted(libs, lib, t, entry)
  {
    var r := Inserted(libs, lib, t, entry);
    InsertedHas(libs, lib, t, entry);
    assert LibIndex(r, lib) < |r|;
  }

  /** insert_if_needed is idempotent: the second call finds the same library (the first one,
      when none is named, is the one the first call used or created) and the class in it. */
  lemma InsertIfNeededTwice(libs: seq<Library>, pkg: string, name: string, basePkg: string, baseName: string,
                            description: string, library: Option<string>)
    ensures var once := WithClass(libs, pkg, name, basePkg, baseName, description, library);
      WithClass(once, pkg, name, basePkg, baseName, description, library) == once
  {
    var t := Qualified(pkg, name);
    var e := NewEntry(t, basePkg, baseName, description);
    var lib := LibraryFor(libs, library);
    var once := Inserted(libs, lib, t, e);
    InsertedExtends(libs, lib, t, e);
    assert LibraryFor(once, library) == lib;
    InsertedTwice(libs, lib, t, e);
  }

  // ---------------------------------------------------------------------------------------
  // __repr__ and class_str (plugin_xml.py:64-91)

  function Spaces(n: nat): (r: string)
    ensures |r| == n && forall i :: 0 <= i < n ==> r[i] == ' '
  {
    if n == 0 then "" else " " + Spaces(n - 1)
  }

  /** One attribute, written only when present and non-empty. */
  function Attr(c: ClassAttrs, at: string): string
  {
    if at in c && |c[at]| > 0 then " " + at + "=\"" + c[at] + "\"" else ""
  }

  /** The attributes of the class tag, in the order name, type, base_class_type. */
  function Attrs(c: ClassAttrs): string
  {
    Attr(c, "name") + Attr(c, "type") + Attr(c, "base_class_type")
  }

  /** `lib.get('description', '')` */
  function Description(c: ClassAttrs): string
  {
    if "description" in c then c["description"] else ""
  }

  /** class_str(lib, indent): the class tag line, the description line two deeper, and the
      closing tag line, each ended by a newline. */
  function ClassStr(c: ClassAttrs, indent: nat): string
  {
    TagLine(c, indent) + "\n" + DescriptionLine(c, indent + 2) + "\n" + EndLine(indent) + "\n"
  }

  function EndLine(indent: nat): string
  {
    Spaces(indent) + "</class>"
  }

  function TagLine(c: ClassAttrs, indent: nat): string
  {
    Spaces(indent) + "<class" + Attrs(c) + ">"
  }

  function DescriptionLine(c: ClassAttrs, indent: nat): string
  {
    Spaces(indent) + "<description>" + Description(c) + "</description>"
  }

  /** The classes of a library, each written `indent` deep. */
  function ClassesStr(cs: seq<(string, ClassAttrs)>, indent: nat): string
    decreases |cs|
  {
    if cs == [] then "" else ClassesStr(cs[..|cs| - 1], indent) + ClassStr(cs[|cs| - 1].1, indent)
  }

  /** One library element, `indent` deep, its classes two deeper. */
  function LibraryStr(l: Library, indent: nat): string
  {
    LibraryLine(l, indent) + "\n" + ClassesStr(l.classes, indent + 2) + Spaces(indent) + "</library>\n"
  }

  function LibraryLine(l: Library, indent: nat): string
  {
    Spaces(indent) + "<library path=\"" + l.path + "\">"
  }

  function LibrariesStr(libs: seq<Library>, indent: nat): string
    decreases |libs|
  {
    if libs == [] then "" else LibrariesStr(libs[..|libs| - 1], indent) + LibraryStr(libs[|libs| - 1], indent)
  }

  /** Whether the output is wrapped in <class_libraries>. */
  predicate Wrapped(cl: bool, libs: seq<Library>)
  {
    |libs| > 1 || cl
  }

  /** __repr__() for the flag `cl` (the file had <class_libraries>) and the libraries. */
  function Render(cl: bool, libs: seq<Library>): string
  {
    var w := Wrapped(cl, libs);
    (if w then Open else "") + LibrariesStr(libs, if w then 2 else 0) + (if w then Close else "")
  }

  /** The output opens with <class_libraries> exactly when there is more than one library or
      the file had the tag, and then also closes with it. */
  lemma RenderWrapped(cl: bool, libs: seq<Library>)
    ensures StartsWith(Render(cl, libs), "<class_libraries>") <==> Wrapped(cl, libs)
    ensures Wrapped(cl, libs) ==> EndsWith(Render(cl, libs), Close)
    ensures !Wrapped(cl, libs) && libs == [] ==> Render(cl, libs) == ""
  {
    if Wrapped(cl, libs) {
      WrappedEnds(LibrariesStr(libs, 2));
    } else if libs != [] {
      assert libs == [libs[0]];
      LibrariesOne(libs[0], 0);
      LibraryStart(libs[0]);
    }
  }

  lemma WrappedEnds(body: string)
    ensures StartsWith(Open + body + Close, "<class_libraries>") && EndsWith(Open + body + Close, Close)
  {
    var r := Open + body + Close;
    assert r[..17] == Open[..17];
    assert r[|r| - |Close|..] == Close;
  }

  lemma LibrariesOne(l: Library, indent: nat)
    ensures LibrariesStr([l], indent) == LibraryStr(l, indent)
  {
    assert [l][..0] == [];
  }

  /** A library written at the outermost level starts `<l`, not `<c`. */
  lemma LibraryStart(l: Library)
    ensures !StartsWith(LibraryStr(l, 0), "<class_libraries>")
  {
    var a := Spaces(0) + "<library path=\"";
    assert a[1] == 'l';
    var b := a + l.path;
    SecondChar(a, l.path);
    var c := b + "\">";
    SecondChar(b, "\">");
    var d := c + "\n";
    SecondChar(c, "\n");
    var e := d + ClassesStr(l.classes, 2);
    SecondChar(d, ClassesStr(l.classes, 2));
    var f := e + Spaces(0);
    SecondChar(e, Spaces(0));
    var r := f + "</library>\n";
    SecondChar(f, "</library>\n");
    assert r == LibraryStr(l, 0);
    assert |r| < 17 || r[..17][1] == 'l';
  }

  lemma SecondChar(x: string, y: string)
    requires |x| >= 2
    ensures |x + y| >= 2 && (x + y)[1] == x[1]
  {
  }

  /** Every class is written at its depth: its tag line starts `indent` spaces in, the
      description line two more, and the closing tag at `indent` again; the description is
      written even when the class has none. */
  lemma ClassStrLines(c: ClassAttrs, indent: nat)
    requires '\n' !in Attrs(c) && '\n' !in Description(c)
    ensures Split(ClassStr(c, indent), '\n') ==
      [Spaces(indent) + "<class" + Attrs(c) + ">",
       Spaces(indent + 2) + "<description>" + Description(c) + "</description>",
       Spaces(indent) + "</class>", ""]
  {
    var l0 := TagLine(c, indent);
    var l1 := DescriptionLine(c, indent + 2);
    var l2 := EndLine(indent);
    JoinThree(l0, l1, l2);
    NoNewline(Spaces(indent) + "<class", Attrs(c));
    NoNewline(Spaces(indent) + "<class" + Attrs(c), ">");
    NoNewline(Spaces(indent + 2) + "<description>", Description(c));
    NoNewline(Spaces(indent + 2) + "<description>" + Description(c), "</description>");
    SplitJoin([l0, l1, l2, ""], '\n');
  }

  lemma NoNewline(x: string, y: string)
    requires '\n' !in x && '\n' !in y
    ensures '\n' !in x + y
  {
  }

  /** Three lines, each ended by a newline, are the join of the lines and an empty last one. */
  lemma JoinThree(l0: string, l1: string, l2: string)
    ensures Join("\n", [l0, l1, l2, ""]) == l0 + "\n" + l1 + "\n" + l2 + "\n"
  {
    assert [l2, ""][1..] == [""];
    assert [l1, l2, ""][1..] == [l2, ""];
    assert [l0, l1, l2, ""][1..] == [l1, l2, ""];
    assert Join("\n", [""]) == "";
    var j2 := Join("\n", [l2, ""]);
    assert j2 == l2 + "\n" + Join("\n", [""]);
    var j1 := Join("\n", [l1, l2, ""]);
    assert j1 == l1 + "\n" + j2;
    assert Join("\n", [l0, l1, l2, ""]) == l0 + "\n" + j1;
  }

  /** Splitting undoes joining when no part holds the separator. */
  lemma {:induction false} SplitJoin(parts: seq<string>, c: char)
    requires |parts| >= 1 && forall i :: 0 <= i < |parts| ==> c !in parts[i]
    ensures Split(Join([c], parts), c) == parts
    decreases |parts|
  {
    var s := Join([c], parts);
    var r := Split(s, c);
    SplitUnique(r, parts, c);
  }

  /** Two separator-free splittings of the same text are the same. */
  lemma {:induction false} SplitUnique(a: seq<string>, b: seq<string>, c: char)
    requires |a| >= 1 && |b| >= 1
    requires forall i :: 0 <= i < |a| ==> c !in a[i]
    requires forall i :: 0 <= i < |b| ==> c !in b[i]
    requires Join([c], a) == Join([c], b)
    ensures a == b
    decreases |a|
  {
    var s := Join([c], a);
    JoinSep(a, c);
    JoinSep(b, c);
    if |a| == 1 {
      assert |b| == 1;
    } else {
      assert |b| >= 2;
      assert s == a[0] + [c] + Join([c], a[1..]);
      assert s == b[0] + [c] + Join([c], b[1..]);
      FirstPart(a[0], b[0], Join([c], a[1..]), Join([c], b[1..]), c);
      assert Join([c], a[1..]) == Join([c], b[1..]) by {
        var n := |a[0]| + 1;
        assert Join([c], a[1..]) == s[n..];
        assert Join([c], b[1..]) == s[n..];
      }
      SplitUnique(a[1..], b[1..], c);
      assert a == [a[0]] + a[1..] && b == [b[0]] + b[1..];
    }
  }

  /** A join of separator-free parts holds the separator exactly when there are two parts or
      more. */
  lemma JoinSep(xs: seq<string>, c: char)
    requires |xs| >= 1 && forall i :: 0 <= i < |xs| ==> c !in xs[i]
    ensures c in Join([c], xs) <==> |xs| >= 2
  {
    if |xs| >= 2 {
      assert Join([c], xs) == xs[0] + [c] + Join([c], xs[1..]);
      assert Join([c], xs)[|xs[0]|] == c;
    }
  }

  lemma FirstPart(x: string, y: string, u: string, v: string, c: char)
    requires c !in x && c !in y && x + [c] + u == y + [c] + v
    ensures x == y
  {
    var s := x + [c] + u;
    FirstSep(x, u, c);
    FirstSep(y, v, c);
    assert x == s[..|x|];
    assert y == s[..|y|];
  }

  /** The first separator follows the separator-free head. */
  lemma FirstSep(x: string, u: string, c: char)
    requires c !in x
    ensures IndexOf(x + [c] + u, c) == |x|
  {
    var s := x + [c] + u;
    var i := IndexOf(s, c);
    assert s[|x|] == c;
    assert s[..|x|] == x;
  }

  /** An attribute is written exactly when it is present and non-empty, as ` at="value"`. */
  lemma AttrSpec(c: ClassAttrs, at: string)
    ensures Attr(c, at) == "" <==> !(at in c && |c[at]| > 0)
  {
  }

  /** The class tag carries the non-empty attributes among name, type and base_class_type, in
      that order; with none of them it is bare. */
  lemma AttrsSpec(c: ClassAttrs)
    ensures Attrs(c) == "" <==> (Attr(c, "name") == "" && Attr(c, "type") == "" && Attr(c, "base_class_type") == "")
    ensures StartsWith(Attrs(c), Attr(c, "name"))
    ensures EndsWith(Attrs(c), Attr(c, "base_class_type"))
    ensures Contains(Attrs(c), Attr(c, "type"))
  {
    var a, b, d := Attr(c, "name"), Attr(c, "type"), Attr(c, "base_class_type");
    var r := a + b + d;
    assert Attrs(c) == r;
    assert r[..|a|] == a;
    assert r[|r| - |d|..] == d;
    assert r[|a|..|a| + |b|] == b;
    ContainsAt(r, b, |a|);
  }

  // ---------------------------------------------------------------------------------------
  // The object

  class PluginXML {
    /** Whether the file had a <class_libraries> tag. */
    var cl: bool
    var libraries: seq<Library>

    /** PluginXML(fn) on a file that does not exist yet. */
    constructor ()
      ensures !cl && libraries == []
    {
      cl := false;
      libraries := [];
    }

    /** insert_if_needed(pkg, name, base_pkg, base_name, description, library) */
    method InsertIfNeeded(pkg: string, name: string, basePkg: string, baseName: string,
                          description: string, library: Option<string>)
      modifies this
      ensures libraries == WithClass(old(libraries), pkg, name, basePkg, baseName, description, library)
      ensures cl == old(cl)
      ensures old(Valid(libraries)) ==> Valid(libraries)
    {
      var lib: string;
      if library.None? {
        if |libraries| == 0 {
          lib := Placeholder;
        } else {
          lib := libraries[0].path;
        }
      } else {
        lib := library.value;
        if !Contains(lib, LibPrefix) {
          lib := LibPrefix + lib;
        }
      }
      var fullName := Qualified(pkg, name);
      var entry := NewEntry(fullName, basePkg, baseName, description);
      if Valid(libraries) {
        InsertedValid(libraries, lib, fullName, entry);
      }
      libraries := Inserted(libraries, lib, fullName, entry);
    }

    /** __repr__() */
    method Repr() returns (s: string)
      ensures s == Render(cl, libraries)
    {
      var libs := libraries;
      s := "";
      var indent := 0;
      var w := |libs| > 1 || cl;
      if w {
        s := s + Open;
        indent := indent + 2;
      }
      ghost var head := s;
      var body := LibrariesText(libs, indent);
      s := s + body;
      if w {
        s := s + Close;
      }
      RenderParts(cl, libs, head, s);
    }
  }

  lemma LibrariesSnoc(libs: seq<Library>, i: nat, indent: nat)
    requires i < |libs|
    ensures LibrariesStr(libs[..i + 1], indent) == LibrariesStr(libs[..i], indent) + LibraryStr(libs[i], indent)
  {
    assert libs[..i + 1][..i] == libs[..i];
  }

  lemma RenderParts(cl: bool, libs: seq<Library>, head: string, s: string)
    requires head == if Wrapped(cl, libs) then Open else ""
    requires s == head + LibrariesStr(libs, if Wrapped(cl, libs) then 2 else 0) + (if Wrapped(cl, libs) then Close else "")
    ensures s == Render(cl, libs)
  {
  }

  /** The libraries, as __repr__'s loop writes them. */
  method LibrariesText(libs: seq<Library>, indent: nat) returns (s: string)
    ensures s == LibrariesStr(libs, indent)
  {
    s := "";
    for i := 0 to |libs|
      invariant s == LibrariesStr(libs[..i], indent)
    {
      var t := LibraryText(libs[i], indent);
      LibrariesSnoc(libs, i, indent);
      s := s + t;
    }
    assert libs[..|libs|] == libs;
  }

  /** One library element, as the body of __repr__'s loop writes it. */
  method LibraryText(l: Library, indent: nat) returns (s: string)
    ensures s == LibraryStr(l, indent)
  {
    var body := "";
    for k := 0 to |l.classes|
      invariant body == ClassesStr(l.classes[..k], indent + 2)
    {
      assert l.classes[..k + 1][..k] == l.classes[..k];
      body := body + ClassStr(l.classes[k].1, indent + 2);
    }
    assert l.classes[..|l.classes|] == l.classes;
    s := LibraryLine(l, indent) + "\n" + body + Spaces(indent) + "</library>\n";
  }
}
