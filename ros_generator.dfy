/** A message, service or action definition (ros_introspection ros_generator.py): its name
    parts, derived from the relative path, and the packages its field types come from. The
    file is given as its lines. */
module RosGenerator {
  import opened Base
  import opened Str

  /** ROSGenerator's fields. */
  datatype Generator = Generator(filePath: string, baseName: string, genType: string, name: string, dependencies: set<string>)

  // ---------------------------------------------------------------------------------------
  // Name parts (ros_generator.py:10-13), by the rules of Python's posixpath

  /** The last position of `c` in `s`, or -1. */
  function LastIndex(s: string, c: char): (r: int)
    ensures -1 <= r < |s|
    ensures r >= 0 ==> s[r] == c
    ensures forall k :: r < k < |s| ==> s[k] != c
    decreases |s|
  {
    if s == [] then -1
    else if s[|s| - 1] == c then |s| - 1
    else LastIndex(s[..|s| - 1], c)
  }

  /** os.path.basename, and the tail of os.path.split */
  function BaseName(p: string): string
  {
    p[LastIndex(p, '/') + 1..]
  }

  /** os.path.splitext: the extension starts at the last '.', when that dot lies in the last
      path component and is not one of the component's leading dots. */
  function SplitExt(p: string): (r: (string, string))
    ensures r.0 + r.1 == p
  {
    var sep := LastIndex(p, '/');
    var dot := LastIndex(p, '.');
    if dot > sep && exists i :: sep + 1 <= i < dot && p[i] != '.' then
      assert p[..dot] + p[dot..] == p;
      (p[..dot], p[dot..])
    else (p, "")
  }

  function BaseNameOf(relFn: string): string { BaseName(SplitExt(relFn).0) }

  /** The extension without its dot. */
  function TypeOf(relFn: string): string
  {
    var ext := SplitExt(relFn).1;
    if ext == "" then "" else ext[1..]
  }

  /** The name is the base name and, when there is an extension, a dot and the type; none of
      the three holds a '/'. */
  lemma NameParts(relFn: string)
    ensures BaseName(relFn) == BaseNameOf(relFn) + (if SplitExt(relFn).1 == "" then "" else "." + TypeOf(relFn))
    ensures '/' !in BaseName(relFn) && '/' !in BaseNameOf(relFn) && '/' !in TypeOf(relFn)
  {
    var ext := SplitExt(relFn).1;
    if ext != "" {
      ExtensionSplit(relFn);
      assert ext == "." + ext[1..];
    }
    assert '/' !in BaseName(relFn) by {
      NoSlashAfterLast(relFn);
    }
    assert '/' !in BaseNameOf(relFn) by {
      NoSlashAfterLast(SplitExt(relFn).0);
    }
  }

  lemma NoSlashAfterLast(p: string)
    ensures '/' !in BaseName(p)
  {
    var r := LastIndex(p, '/');
    forall k | 0 <= k < |BaseName(p)| ensures BaseName(p)[k] != '/' {
      assert BaseName(p)[k] == p[r + 1 + k];
    }
  }

  /** With an extension, the base name runs from the last '/' to the extension's dot. */
  lemma ExtensionSplit(p: string)
    requires SplitExt(p).1 != ""
    ensures BaseName(p) == BaseNameOf(p) + SplitExt(p).1
    ensures SplitExt(p).1[0] == '.'
  {
    var sep := LastIndex(p, '/');
    var dot := LastIndex(p, '.');
    var root := p[..dot];
    LastIndexPrefix(p, '/', dot);
    assert LastIndex(root, '/') == sep;
    assert p[sep + 1..] == root[sep + 1..] + p[dot..];
  }

  /** Cutting the string after its last `c` keeps that position the last. */
  lemma LastIndexPrefix(s: string, c: char, n: nat)
    requires LastIndex(s, c) < n <= |s|
    ensures LastIndex(s[..n], c) == LastIndex(s, c)
    decreases |s|
  {
    if n < |s| {
      assert s[..|s| - 1][..n] == s[..n];
      LastIndexPrefix(s[..|s| - 1], c, n);
    }
  }

  // ---------------------------------------------------------------------------------------
  // One line (ros_generator.py:19-31)

  /** AT_LEAST_THREE_DASHES.match on a stripped line. */
  predicate IsRule(s: string)
  {
    |s| >= 3 && forall k :: 0 <= k < |s| ==> s[k] == '-'
  }

  /** The line up to its '#', stripped. */
  function Uncommented(line: string): string
  {
    Strip(if '#' in line then line[..IndexOf(line, '#')] else line)
  }

  /** The field type a line declares: None for a blank line or a rule, ValueError when the
      line (cut at '=' when '=' stands alone) is not exactly two words. */
  function FieldType(line: string): Result<Option<string>, PyError>
  {
    FieldTypeOf(Uncommented(line))
  }

  function FieldTypeOf(l: string): Result<Option<string>, PyError>
  {
    if IsRule(l) || l == "" then Ok(None)
    else
      var l' := if "=" in SplitWs(l) then (SplitWsChars(l, "=", '='); l[..IndexOf(l, '=')]) else l;
      var words := SplitWs(l');
      if |words| != 2 then Err(ValueError) else Ok(Some(words[0]))
  }

  /** The package a field type adds: the part of a `pkg/Type` before the slash, unless it is
      the definition's own file name; ValueError for a type with two slashes. */
  function TypeDependency(t: Option<string>, name: string): Result<Option<string>, PyError>
  {
    if t.None? || '/' !in t.value then Ok(None)
    else
      var parts := Split(t.value, '/');
      if |parts| != 2 then Err(ValueError)
      else if parts[0] != name then Ok(Some(parts[0]))
      else Ok(None)
  }

  /** The package a line adds, if any. */
  function LineDependency(line: string, name: string): Result<Option<string>, PyError>
  {
    match FieldType(line)
    case Err(e) => Err(e)
    case Ok(t) => TypeDependency(t, name)
  }

  /** Whatever follows a '#' is ignored. */
  lemma CommentIgnored(a: string, b: string, name: string)
    requires '#' !in a
    ensures LineDependency(a + "#" + b, name) == LineDependency(a, name)
  {
    var line := a + "#" + b;
    assert line[|a|] == '#';
    assert line[..|a|] == a;
    assert IndexOf(line, '#') == |a|;
    assert Uncommented(line) == Uncommented(a);
  }

  /** Blank lines, comment lines and rules of three or more dashes add nothing. */
  lemma SkippedLines(line: string, name: string)
    requires Uncommented(line) == "" || IsRule(Uncommented(line))
    ensures LineDependency(line, name) == Ok(None)
  {
  }

  /** A field of type `pkg/Type` adds `pkg`, unless `pkg` is the file name itself: a file name
      carries an extension and a package name no dot, so that never happens in practice. */
  lemma QualifiedField(line: string, name: string, pkg: string, msg: string)
    requires FieldType(line) == Ok(Some(pkg + "/" + msg))
    requires '/' !in pkg && '/' !in msg
    ensures LineDependency(line, name) == if pkg == name then Ok(None) else Ok(Some(pkg))
    ensures '.' in name && '.' !in pkg ==> LineDependency(line, name) == Ok(Some(pkg))
  {
    SplitPair(pkg, msg, '/');
    assert '/' in pkg + "/" + msg by {
      assert (pkg + "/" + msg)[|pkg|] == '/';
    }
  }

  /** A field type without a slash adds nothing. */
  lemma UnqualifiedField(line: string, name: string, t: string)
    requires FieldType(line) == Ok(Some(t)) && '/' !in t
    ensures LineDependency(line, name) == Ok(None)
  {
  }

  /** A word: non-empty, without whitespace and without '='. */
  predicate Bare(a: string)
  {
    a != [] && forall k :: 0 <= k < |a| ==> !IsSpace(a[k]) && a[k] != '='
  }

  /** A constant `TYPE NAME = VALUE...`: the standalone '=' cuts the line before it is split, so
      the type is found although the whole line has more than two words. */
  lemma ConstantCut(a: string, b: string, rest: string)
    requires Bare(a) && Bare(b) && (rest == [] || IsSpace(rest[0]))
    ensures var l := a + (" " + (b + (" " + ("=" + rest))));
      |SplitWs(l)| >= 3 && FieldTypeOf(l) == Ok(Some(a))
  {
    var cut := a + (" " + (b + " "));
    var l := a + (" " + (b + (" " + ("=" + rest))));
    SplitWsConstant(a, b, rest);
    SplitWsPair(a, b);
    CutAtEquals(a, b, rest);
    FieldTypeCut(l, SplitWs(l), |cut|, SplitWs(cut), a);
  }

  /** The line `a b =rest` cut at its first '=' is `a b `. */
  lemma CutAtEquals(a: string, b: string, rest: string)
    requires Bare(a) && Bare(b)
    ensures var l := a + (" " + (b + (" " + ("=" + rest))));
      var cut := a + (" " + (b + " "));
      '=' in l && IndexOf(l, '=') == |cut| && l[..|cut|] == cut && l[|a|] == ' '
  {
    var cut := a + (" " + (b + " "));
    var l := a + (" " + (b + (" " + ("=" + rest))));
    assert l == cut + ("=" + rest);
    assert l[..|cut|] == cut;
    assert l[|cut|] == '=';
    assert '=' !in cut by {
      assert forall k :: 0 <= k < |cut| ==> cut[k] != '=';
    }
    IndexOfFirst(l, '=', |cut|);
  }

  /** A line whose words include a standalone '=' and whose part before the first '=' has two
      words declares the first of them. */
  lemma FieldTypeCut(l: string, w: seq<string>, i: nat, v: seq<string>, a: string)
    requires w == SplitWs(l) && |w| >= 3 && w[2] == "=" && '=' in l && IndexOf(l, '=') == i
    requires v == SplitWs(l[..i]) && v == [a, w[1]] && a != []
    requires exists k :: 0 <= k < |l| && l[k] == ' '
    ensures FieldTypeOf(l) == Ok(Some(a))
  {
    assert !IsRule(l);
    assert "=" in w;
  }

  /** The words of `a b =rest`. */
  lemma SplitWsConstant(a: string, b: string, rest: string)
    requires Bare(a) && Bare(b) && (rest == [] || IsSpace(rest[0]))
    ensures var w := SplitWs(a + (" " + (b + (" " + ("=" + rest)))));
      |w| >= 3 && w[0] == a && w[1] == b && w[2] == "="
  {
    var t0 := " " + (b + (" " + ("=" + rest)));
    SplitWsAssign(b, rest);
    SplitWsFront(a, b, t0);
  }

  /** A word put in front of words `b =...` starting with whitespace. */
  lemma SplitWsFront(a: string, b: string, t0: string)
    requires Bare(a) && t0 != [] && IsSpace(t0[0])
    requires var w := SplitWs(t0); |w| >= 2 && w[0] == b && w[1] == "="
    ensures var w := SplitWs(a + t0); |w| >= 3 && w[0] == a && w[1] == b && w[2] == "="
  {
    var w := SplitWs(t0);
    SplitWsWordIs(a, t0, w);
    ThreeWords(a, b, w);
  }

  lemma SplitWsWordIs(a: string, t0: string, w: seq<string>)
    requires Bare(a) && t0 != [] && IsSpace(t0[0])
    requires SplitWs(t0) == w
    ensures SplitWs(a + t0) == [a] + w
  {
    SplitWsWord(a, t0);
  }

  lemma ThreeWords(a: string, b: string, w: seq<string>)
    requires |w| >= 2 && w[0] == b && w[1] == "="
    ensures var v := [a] + w; |v| >= 3 && v[0] == a && v[1] == b && v[2] == "="
  {
  }

  /** The words of ` b =rest`. */
  lemma SplitWsAssign(b: string, rest: string)
    requires Bare(b) && (rest == [] || IsSpace(rest[0]))
    ensures var w := SplitWs(" " + (b + (" " + ("=" + rest))));
      |w| >= 2 && w[0] == b && w[1] == "="
  {
    var t1 := b + (" " + ("=" + rest));
    SplitWsEquals(rest);
    SplitWsWord(b, " " + ("=" + rest));
    SplitWsSpace(t1);
  }

  /** The words of ` =rest`. */
  lemma SplitWsEquals(rest: string)
    requires rest == [] || IsSpace(rest[0])
    ensures var w := SplitWs(" " + ("=" + rest));
      |w| >= 1 && w[0] == "="
  {
    SplitWsWord("=", rest);
    SplitWsSpace("=" + rest);
  }

  /** The words of `a b `. */
  lemma SplitWsPair(a: string, b: string)
    requires Bare(a) && Bare(b)
    ensures SplitWs(a + (" " + (b + " "))) == [a, b]
  {
    var t := " " + (b + " ");
    SplitWsSpaced(b);
    assert t[0] == ' ';
    SplitWsWord(a, t);
  }

  /** The words of ` b `. */
  lemma SplitWsSpaced(b: string)
    requires Bare(b)
    ensures SplitWs(" " + (b + " ")) == [b]
  {
    SplitWsBlank();
    SplitWsWordIs(b, " ", []);
    SplitWsSpace(b + " ");
  }

  /** A lone space has no words. */
  lemma SplitWsBlank()
    ensures SplitWs(" ") == []
  {
    SplitWsSpace([]);
    assert " " + [] == " ";
  }

  /** A leading space is not part of any word. */
  lemma SplitWsSpace(x: string)
    ensures SplitWs(" " + x) == SplitWs(x)
  {
    assert (" " + x)[1..] == x;
  }

  /** A word followed by whitespace or nothing is the first word. */
  lemma SplitWsWord(w: string, x: string)
    requires w != [] && forall k :: 0 <= k < |w| ==> !IsSpace(w[k])
    requires x == [] || IsSpace(x[0])
    ensures SplitWs(w + x) == [w] + SplitWs(x)
  {
    WordPrefix(w, x);
    assert (w + x)[|w|..] == x;
  }

  /** The first position of a character is the one before which it does not occur. */
  lemma IndexOfFirst(s: string, c: char, i: nat)
    requires i < |s| && s[i] == c && c !in s[..i]
    ensures IndexOf(s, c) == i
  {
  }

  /** The word at the front of `a + x` is `a` when `a` has no whitespace and `x` starts with
      whitespace or is empty. */
  lemma {:induction false} WordPrefix(a: string, x: string)
    requires forall k :: 0 <= k < |a| ==> !IsSpace(a[k])
    requires x == [] || IsSpace(x[0])
    ensures Word(a + x) == a
    decreases |a|
  {
    if a != [] {
      assert (a + x)[1..] == a[1..] + x;
      WordPrefix(a[1..], x);
    }
  }

  lemma {:induction false} SplitNone(s: string, c: char)
    requires c !in s
    ensures Split(s, c) == [s]
    decreases |s|
  {
    if s != [] {
      SplitNone(s[1..], c);
      assert [s[0]] + s[1..] == s;
    }
  }

  lemma {:induction false} SplitPair(a: string, b: string, c: char)
    requires c !in a && c !in b
    ensures Split(a + [c] + b, c) == [a, b]
    decreases |a|
  {
    var s := a + [c] + b;
    if a == [] {
      assert s[1..] == b;
      SplitNone(b, c);
    } else {
      assert s[1..] == a[1..] + [c] + b;
      SplitPair(a[1..], b, c);
      assert [a[0]] + a[1..] == a;
    }
  }

  // ---------------------------------------------------------------------------------------
  // The file (ros_generator.py:15-34)

  /** The set the loop builds from the lines' results, or the first error. */
  function Collect(results: seq<Result<Option<string>, PyError>>): Result<set<string>, PyError>
    decreases |results|
  {
    if results == [] then Ok({})
    else
      match Collect(results[..|results| - 1])
      case Err(e) => Err(e)
      case Ok(prev) =>
        match results[|results| - 1]
        case Err(e) => Err(e)
        case Ok(d) => Ok(if d.Some? then prev + {d.value} else prev)
  }

  function LineResults(lines: seq<string>, name: string): (r: seq<Result<Option<string>, PyError>>)
    ensures |r| == |lines| && forall i :: 0 <= i < |lines| ==> r[i] == LineDependency(lines[i], name)
  {
    seq(|lines|, i requires 0 <= i < |lines| => LineDependency(lines[i], name))
  }

  /** The packages the lines add, or the first line's error. */
  function LinesDependencies(lines: seq<string>, name: string): Result<set<string>, PyError>
  {
    Collect(LineResults(lines, name))
  }

  /** ROSGenerator(rel_fn, file_path) on a file holding `lines`. */
  function Generated(relFn: string, filePath: string, lines: seq<string>): Result<Generator, PyError>
  {
    var name := BaseName(relFn);
    var deps :- LinesDependencies(lines, name);
    var genType := TypeOf(relFn);
    Ok(Generator(filePath, BaseNameOf(relFn), genType, name,
      if genType == "action" then deps + {"actionlib_msgs"} else deps))
  }

  /** The loop fails exactly when one line does; otherwise the packages are exactly those some
      line adds. */
  lemma {:induction false} CollectSpec(results: seq<Result<Option<string>, PyError>>)
    ensures Collect(results).Err? <==> exists i :: 0 <= i < |results| && results[i].Err?
    ensures Collect(results).Ok? ==> forall p ::
      p in Collect(results).value <==> exists i :: 0 <= i < |results| && results[i] == Ok(Some(p))
    decreases |results|
  {
    if results != [] {
      var n := |results| - 1;
      var front := results[..n];
      CollectSpec(front);
      assert forall i :: 0 <= i < n ==> front[i] == results[i];
      if Collect(results).Ok? {
        forall p | exists i :: 0 <= i < |results| && results[i] == Ok(Some(p))
          ensures p in Collect(results).value
        {
          var i :| 0 <= i < |results| && results[i] == Ok(Some(p));
          if i < n {
            assert front[i] == results[i];
          }
        }
      } else if Collect(front).Ok? {
        assert results[n].Err?;
      }
    }
  }

  /** The generator's dependencies: the packages its lines add, and actionlib_msgs for an
      action; the name parts come from the relative path. */
  lemma GeneratedSpec(relFn: string, filePath: string, lines: seq<string>)
    ensures var g := Generated(relFn, filePath, lines);
      g.Ok? ==> forall p :: p in g.value.dependencies <==>
        (p == "actionlib_msgs" && g.value.genType == "action") ||
        exists i :: 0 <= i < |lines| && LineDependency(lines[i], g.value.name) == Ok(Some(p))
    ensures Generated(relFn, filePath, lines).Err? <==>
      exists i :: 0 <= i < |lines| && LineDependency(lines[i], BaseName(relFn)).Err?
  {
    CollectSpec(LineResults(lines, BaseName(relFn)));
  }

  /** Once a line fails, the loop fails with that line's error. */
  lemma {:induction false} CollectErr(results: seq<Result<Option<string>, PyError>>, k: nat, j: nat)
    requires 0 < k <= j <= |results| && Collect(results[..k - 1]).Ok? && results[k - 1].Err?
    ensures Collect(results[..j]) == Err(results[k - 1].error)
    decreases j
  {
    assert results[..j][..j - 1] == results[..j - 1];
    if j > k {
      CollectErr(results, k, j - 1);
    }
  }

  /** The body of the loop over the lines: what one line adds, if anything. */
  method ReadLine(text: string, name: string) returns (r: Result<Option<string>, PyError>)
    ensures r == LineDependency(text, name)
  {
    var t := ReadFieldType(text);
    if t.Err? {
      return Err(t.error);
    }
    if t.value.None? || '/' !in t.value.value {
      return Ok(None);
    }
    var pkgPart := Split(t.value.value, '/');
    if |pkgPart| != 2 {
      return Err(ValueError);
    }
    if pkgPart[0] != name {
      return Ok(Some(pkgPart[0]));
    }
    return Ok(None);
  }

  /** The first half of the loop body: the line without its comment, stripped, cut at a
      standalone '=' and split into the type and the name. */
  method ReadFieldType(text: string) returns (t: Result<Option<string>, PyError>)
    ensures t == FieldType(text)
  {
    var line := text;
    if '#' in line {
      line := line[..IndexOf(line, '#')];
    }
    line := Strip(line);
    assert line == Uncommented(text);
    if IsRule(line) || line == "" {
      return Ok(None);
    }
    ghost var l := line;
    if "=" in SplitWs(line) {
      SplitWsChars(line, "=", '=');
      line := line[..IndexOf(line, '=')];
    }
    var words := SplitWs(line);
    if |words| != 2 {
      return Err(ValueError);
    }
    return Ok(Some(words[0]));
  }

  /** ROSGenerator.__init__: the loop over the lines. */
  method NewGenerator(relFn: string, filePath: string, lines: seq<string>) returns (r: Result<Generator, PyError>)
    ensures r == Generated(relFn, filePath, lines)
  {
    var parts := SplitExt(relFn);
    var baseName := BaseName(parts.0);
    var genType := if parts.1 == "" then "" else parts.1[1..];
    var name := BaseName(relFn);
    var dependencies: set<string> := {};
    ghost var results := LineResults(lines, name);
    for k := 0 to |lines|
      invariant Collect(results[..k]) == Ok(dependencies)
    {
      assert results[..k + 1][..k] == results[..k];
      var d := ReadLine(lines[k], name);
      if d.Err? {
        CollectErr(results, k + 1, |lines|);
        assert results[..|lines|] == results;
        return Err(d.error);
      }
      if d.value.Some? {
        dependencies := dependencies + {d.value.value};
      }
    }
    assert results[..|lines|] == results;
    if genType == "action" {
      dependencies := dependencies + {"actionlib_msgs"};
    }
    r := Ok(Generator(filePath, baseName, genType, name, dependencies));
  }
}
