/** The setup.py writer of ros_introspection (setup_py.py): the pretty-printer that lays a Python
    value out as source lines within a 100-column budget, the quoting helpers, and the text of
    the whole file. Reading setup.py with Python's `ast` module is not part of this model: the
    fields it fills are the state here. */
module SetupPy {
  import opened Base
  import opened Str

  /** A value as the reader rebuilds it: a non-collection is its source text (its `str`), a
      dict is its entries in order. */
  datatype PyVal =
    | Atom(text: string)
    | PyList(items: seq<PyVal>)
    | PyTuple(items: seq<PyVal>)
    | PyDict(entries: seq<(string, PyVal)>)

  const LineLength := 100
  const Tab := "    "

  /** The pretty-printer as written, or with the missing commas of multi-line dicts restored
      (see DictMissingComma below). */
  datatype Version = AsWritten | Corrected

  function Count(obj: PyVal): nat
  {
    match obj
    case Atom(_) => 0
    case PyList(items) => |items|
    case PyTuple(items) => |items|
    case PyDict(entries) => |entries|
  }

  function OpenBracket(obj: PyVal): char
  {
    match obj
    case PyList(_) => '['
    case PyTuple(_) => '('
    case _ => '{'
  }

  function CloseBracket(obj: PyVal): char
  {
    match obj
    case PyList(_) => ']'
    case PyTuple(_) => ')'
    case _ => '}'
  }

  // ---------------------------------------------------------------------------------------
  // python_to_lines and python_collection_to_lines (setup_py.py:50-128)

  /** python_to_lines(obj, initial_length, indent): never empty. */
  function ToLines(obj: PyVal, initial: nat, indent: nat, v: Version): (r: Result<seq<string>, PyError>)
    ensures r.Ok? ==> |r.value| >= 1
    ensures obj.Atom? ==> r == Ok([obj.text])
    decreases obj, 2, 0
  {
    if obj.Atom? then Ok([obj.text])
    else
      var inner :- CollectionLines(obj, indent, false, v);
      if |inner| == 1 && '\n' !in inner[0] && initial + |inner[0]| < LineLength then
        Ok([[OpenBracket(obj)] + inner[0] + [CloseBracket(obj)]])
      else
        var lines :- CollectionLines(obj, indent, true, v);
        Ok([[OpenBracket(obj)]] + Indented(lines) + [[CloseBracket(obj)]])
  }

  /** Each line four columns further in, its inner newlines too (setup_py.py:123-126). */
  function Indented(lines: seq<string>): (r: seq<string>)
    ensures |r| == |lines|
    ensures forall i :: 0 <= i < |r| ==> r[i] == Tab + Replace(lines[i], "\n", "\n" + Tab)
  {
    if lines == [] then [] else [Tab + Replace(lines[0], "\n", "\n" + Tab)] + Indented(lines[1..])
  }

  /** python_collection_to_lines(obj, indent, multi_line), without the brackets. */
  function CollectionLines(obj: PyVal, indent: nat, multi: bool, v: Version): Result<seq<string>, PyError>
    requires !obj.Atom?
    decreases obj, 1, 0
  {
    if obj.PyDict? then
      var items :- DictItems(obj, indent, 0, v);
      Finish(items, indent, multi, v == Corrected && multi)
    else if multi then MultiItems(obj, indent, 0, v)
    else
      var items :- FlatItems(obj, indent, 0, v);
      Finish(items, indent, false, false)
  }

  /** setup_py.py:85-91: one joined line when it fits and multi-line mode is off, else the items
      themselves (IndexError for none); `commas` ends each item with ','. */
  function Finish(items: seq<string>, indent: nat, multi: bool, commas: bool): Result<seq<string>, PyError>
  {
    var line := Join(", ", items);
    if multi || indent + |line| >= LineLength then
      if items == [] then Err(IndexError)
      else Ok(if commas then WithCommas(items) else items)
    else Ok([line])
  }

  function WithCommas(items: seq<string>): (r: seq<string>)
    ensures |r| == |items| && forall i :: 0 <= i < |r| ==> r[i] == items[i] + ","
  {
    if items == [] then [] else [items[0] + ","] + WithCommas(items[1..])
  }

  /** The dict branch (setup_py.py:62-69): `key: ` and the value's lines joined by a newline and
      four spaces, from the `i`th entry on. */
  function DictItems(obj: PyVal, indent: nat, i: nat, v: Version): (r: Result<seq<string>, PyError>)
    requires obj.PyDict? && i <= |obj.entries|
    ensures r.Ok? ==> |r.value| == |obj.entries| - i
    decreases obj, 0, |obj.entries| - i
  {
    if i == |obj.entries| then Ok([])
    else
      var s := obj.entries[i].0 + ": ";
      var sub :- ToLines(obj.entries[i].1, |s| + indent, indent + 4, v);
      var rest :- DictItems(obj, indent, i + 1, v);
      Ok([s + Join("\n" + Tab, sub)] + rest)
  }

  /** The multi-line list/tuple branch (setup_py.py:70-79): each item's lines joined by a
      newline and the next indent, and a ',' after it. */
  function MultiItems(obj: PyVal, indent: nat, i: nat, v: Version): (r: Result<seq<string>, PyError>)
    requires (obj.PyList? || obj.PyTuple?) && i <= |obj.items|
    ensures r.Ok? ==> |r.value| == |obj.items| - i
    decreases obj, 0, |obj.items| - i
  {
    if i == |obj.items| then Ok([])
    else
      var sub :- ToLines(obj.items[i], indent, indent + 4, v);
      var rest :- MultiItems(obj, indent, i + 1, v);
      Ok([Join("\n" + Spaces(indent + 4), sub) + ","] + rest)
  }

  /** The single-line list/tuple branch (setup_py.py:80-83): all the items' lines, in order. */
  function FlatItems(obj: PyVal, indent: nat, i: nat, v: Version): Result<seq<string>, PyError>
    requires (obj.PyList? || obj.PyTuple?) && i <= |obj.items|
    decreases obj, 0, |obj.items| - i
  {
    if i == |obj.items| then Ok([])
    else
      var sub :- ToLines(obj.items[i], indent, indent + 4, v);
      var rest :- FlatItems(obj, indent, i + 1, v);
      Ok(sub + rest)
  }

  function Spaces(n: nat): (r: string)
    ensures |r| == n && forall i :: 0 <= i < n ==> r[i] == ' '
  {
    if n == 0 then "" else " " + Spaces(n - 1)
  }

  /** The test python_to_lines makes before laying a collection out on one line. */
  predicate FitsOneLine(obj: PyVal, initial: nat, indent: nat, v: Version)
    requires !obj.Atom?
  {
    var inner := CollectionLines(obj, indent, false, v);
    inner.Ok? && |inner.value| == 1 && '\n' !in inner.value[0] && initial + |inner.value[0]| < LineLength
  }

  /** A collection comes out as one line exactly when it fits: then it is its inner text between
      its brackets. */
  lemma OneLine(obj: PyVal, initial: nat, indent: nat, v: Version)
    requires !obj.Atom? && ToLines(obj, initial, indent, v).Ok?
    ensures |ToLines(obj, initial, indent, v).value| == 1 <==> FitsOneLine(obj, initial, indent, v)
    ensures FitsOneLine(obj, initial, indent, v) ==>
      var line := ToLines(obj, initial, indent, v).value[0];
      |line| >= 2 && line[0] == OpenBracket(obj) && line[|line| - 1] == CloseBracket(obj) &&
      line[1..|line| - 1] == CollectionLines(obj, indent, false, v).value[0] &&
      initial + |line| < LineLength + 2
  {
    if FitsOneLine(obj, initial, indent, v) {
      var inner := CollectionLines(obj, indent, false, v).value[0];
      var line := [OpenBracket(obj)] + inner + [CloseBracket(obj)];
      assert line[1..|line| - 1] == inner;
    }
  }

  /** Otherwise the opening bracket and the closing bracket have lines of their own, and every
      line between them is four columns in, with each newline inside it followed by four more
      spaces. */
  lemma ManyLines(obj: PyVal, initial: nat, indent: nat, v: Version)
    requires !obj.Atom? && ToLines(obj, initial, indent, v).Ok? && !FitsOneLine(obj, initial, indent, v)
    ensures var r := ToLines(obj, initial, indent, v).value;
      |r| >= 2 && r[0] == [OpenBracket(obj)] && r[|r| - 1] == [CloseBracket(obj)] &&
      forall i :: 0 < i < |r| - 1 ==> StartsWith(r[i], Tab) && NewlinesIndented(r[i])
  {
    var lines := CollectionLines(obj, indent, true, v).value;
    var r := ToLines(obj, initial, indent, v).value;
    assert r == [[OpenBracket(obj)]] + Indented(lines) + [[CloseBracket(obj)]];
    forall i | 0 < i < |r| - 1 ensures StartsWith(r[i], Tab) && NewlinesIndented(r[i]) {
      assert r[i] == Indented(lines)[i - 1];
      ReplaceIndents(lines[i - 1]);
      TabIndents(Replace(lines[i - 1], "\n", "\n" + Tab));
    }
  }

  /** Every newline is followed by (at least) four spaces. */
  predicate NewlinesIndented(s: string)
  {
    forall j :: 0 <= j < |s| && s[j] == '\n' ==> StartsWith(s[j + 1..], Tab)
  }

  lemma {:induction false} ReplaceIndents(s: string)
    ensures NewlinesIndented(Replace(s, "\n", "\n" + Tab))
    decreases |s|
  {
    if |s| >= 1 {
      var rest := Replace(s[1..], "\n", "\n" + Tab);
      ReplaceIndents(s[1..]);
      var r := Replace(s, "\n", "\n" + Tab);
      if s[..1] == "\n" {
        assert s[1..] == s[|"\n"|..];
        assert r == "\n" + Tab + rest;
        forall j | 0 <= j < |r| && r[j] == '\n' ensures StartsWith(r[j + 1..], Tab) {
          if j == 0 {
            assert r[1..5] == Tab;
          } else {
            assert j >= 5 && r[j] == rest[j - 5];
            assert r[j + 1..] == rest[j - 4..];
          }
        }
      } else {
        assert r == [s[0]] + rest;
        forall j | 0 <= j < |r| && r[j] == '\n' ensures StartsWith(r[j + 1..], Tab) {
          assert j >= 1 && r[j] == rest[j - 1];
          assert r[j + 1..] == rest[j..];
        }
      }
    }
  }

  lemma TabIndents(s: string)
    requires NewlinesIndented(s)
    ensures StartsWith(Tab + s, Tab) && NewlinesIndented(Tab + s)
  {
    var r := Tab + s;
    assert r[..4] == Tab;
    forall j | 0 <= j < |r| && r[j] == '\n' ensures StartsWith(r[j + 1..], Tab) {
      assert j >= 4 && r[j] == s[j - 4];
      assert r[j + 1..] == s[j - 3..];
    }
  }

  /** In multi-line mode every list or tuple item becomes one entry ending in ','. */
  lemma {:induction false} MultiItemsCommas(obj: PyVal, indent: nat, i: nat, v: Version)
    requires (obj.PyList? || obj.PyTuple?) && i <= |obj.items|
    requires MultiItems(obj, indent, i, v).Ok?
    ensures forall k :: 0 <= k < |MultiItems(obj, indent, i, v).value| ==> EndsWith(MultiItems(obj, indent, i, v).value[k], ",")
    decreases |obj.items| - i
  {
    if i < |obj.items| {
      MultiItemsCommas(obj, indent, i + 1, v);
      var r := MultiItems(obj, indent, i, v).value;
      var rest := MultiItems(obj, indent, i + 1, v).value;
      assert r[1..] == rest;
      forall k | 0 <= k < |r| ensures EndsWith(r[k], ",") {
        if k > 0 {
          assert r[k] == rest[k - 1];
        }
      }
    }
  }

  /** Multi-line mode lays a collection out one entry per item; list and tuple entries, and
      with the correction dict entries too, end in ','. */
  lemma MultiLineCommas(obj: PyVal, indent: nat, v: Version)
    requires !obj.Atom? && CollectionLines(obj, indent, true, v).Ok?
    requires obj.PyDict? ==> v == Corrected
    ensures |CollectionLines(obj, indent, true, v).value| == Count(obj)
    ensures forall k :: 0 <= k < Count(obj) ==> EndsWith(CollectionLines(obj, indent, true, v).value[k], ",")
  {
    if obj.PyDict? {
      var items := DictItems(obj, indent, 0, v).value;
      assert CollectionLines(obj, indent, true, v) == Ok(WithCommas(items));
    } else {
      MultiItemsCommas(obj, indent, 0, v);
    }
  }

  /** As written, a multi-line dict's entries get no ',': a dict of two plain values too long
      for one line is written as `{`, `    'a': x`, `    'b': y`, `}`, which is not Python. With
      the correction each entry line ends in ','. */
  lemma DictMissingComma(x: string, y: string)
    requires |x| >= LineLength && '\n' !in x && '\n' !in y
    ensures var d := PyDict([("'a'", Atom(x)), ("'b'", Atom(y))]);
      ToLines(d, 0, 4, AsWritten) == Ok(["{", Tab + "'a': " + x, Tab + "'b': " + y, "}"]) &&
      ToLines(d, 0, 4, Corrected) == Ok(["{", Tab + "'a': " + x + ",", Tab + "'b': " + y + ",", "}"])
  {
    var d := PyDict([("'a'", Atom(x)), ("'b'", Atom(y))]);
    var a, b := "'a': " + x, "'b': " + y;
    var items := [a, b];
    DictItemsTwo(d, x, y, AsWritten);
    DictItemsTwo(d, x, y, Corrected);
    LongJoin(a, b, x);
    assert Finish(items, 4, false, false) == Ok(items);
    assert Finish(items, 4, true, false) == Ok(items);
    assert Finish(items, 4, true, true) == Ok(WithCommas(items));
    assert CollectionLines(d, 4, false, AsWritten) == Ok(items);
    assert CollectionLines(d, 4, true, AsWritten) == Ok(items);
    assert CollectionLines(d, 4, false, Corrected) == Ok(items);
    assert CollectionLines(d, 4, true, Corrected) == Ok(WithCommas(items));
    Layout(d, 0, 4, AsWritten);
    Layout(d, 0, 4, Corrected);
    IndentedTwo(a, b);
    assert WithCommas(items) == [a + ",", b + ","];
    IndentedTwo(a + ",", b + ",");
    assert Tab + a == Tab + "'a': " + x && Tab + b == Tab + "'b': " + y;
    assert Tab + (a + ",") == Tab + "'a': " + x + "," && Tab + (b + ",") == Tab + "'b': " + y + ",";
    assert [[OpenBracket(d)]] + [Tab + a, Tab + b] + [[CloseBracket(d)]] == ["{", Tab + a, Tab + b, "}"];
    assert [[OpenBracket(d)]] + [Tab + (a + ","), Tab + (b + ",")] + [[CloseBracket(d)]] ==
      ["{", Tab + a + ",", Tab + b + ",", "}"];
  }

  /** A collection whose single-line attempt is not one line is laid out over several. */
  lemma Layout(obj: PyVal, initial: nat, indent: nat, v: Version)
    requires !obj.Atom? && CollectionLines(obj, indent, false, v).Ok? && |CollectionLines(obj, indent, false, v).value| != 1
    requires CollectionLines(obj, indent, true, v).Ok?
    ensures ToLines(obj, initial, indent, v) ==
      Ok([[OpenBracket(obj)]] + Indented(CollectionLines(obj, indent, true, v).value) + [[CloseBracket(obj)]])
  {
  }

  /** The entries of a dict of two plain values. */
  lemma DictItemsTwo(d: PyVal, x: string, y: string, v: Version)
    requires d == PyDict([("'a'", Atom(x)), ("'b'", Atom(y))])
    ensures DictItems(d, 4, 0, v) == Ok(["'a': " + x, "'b': " + y])
  {
    assert DictItems(d, 4, 2, v) == Ok([]);
    assert d.entries[1].0 + ": " == "'b': " && d.entries[0].0 + ": " == "'a': ";
    AtomEntry(d, 4, 1, v);
    assert ["'b': " + y] + [] == ["'b': " + y];
    AtomEntry(d, 4, 0, v);
    assert ["'a': " + x] + ["'b': " + y] == ["'a': " + x, "'b': " + y];
  }

  lemma AtomEntry(d: PyVal, indent: nat, i: nat, v: Version)
    requires d.PyDict? && i < |d.entries| && d.entries[i].1.Atom?
    ensures var rest := DictItems(d, indent, i + 1, v);
      rest.Ok? ==> DictItems(d, indent, i, v) == Ok([d.entries[i].0 + ": " + d.entries[i].1.text] + rest.value)
  {
    var s := d.entries[i].0 + ": ";
    var t := d.entries[i].1.text;
    assert ToLines(d.entries[i].1, |s| + indent, indent + 4, v) == Ok([t]);
    assert Join("\n" + Tab, [t]) == t;
  }

  lemma LongJoin(a: string, b: string, x: string)
    requires a == "'a': " + x && |x| >= LineLength
    ensures 4 + |Join(", ", [a, b])| >= LineLength
  {
    assert Join(", ", [a, b]) == a + ", " + Join(", ", [b]);
  }

  lemma IndentedTwo(a: string, b: string)
    requires '\n' !in a && '\n' !in b
    ensures Indented([a, b]) == [Tab + a, Tab + b]
  {
    NoNewlineReplace(a);
    NoNewlineReplace(b);
  }

  lemma {:induction false} NoNewlineReplace(s: string)
    requires '\n' !in s
    ensures Replace(s, "\n", "\n" + Tab) == s
    decreases |s|
  {
    if |s| >= 1 {
      assert s[..1] != "\n" by { assert s[..1][0] == s[0]; }
      NoNewlineReplace(s[1..]);
    }
  }

  // ---------------------------------------------------------------------------------------
  // quote_string and contains_quoted_string (setup_py.py:131-141)

  const QuoteChars := ['"', '\'']

  /** quote_string(s, quote_char): `s` between two quote characters. */
  function QuoteString(s: string, q: char): (r: string)
    ensures |r| == |s| + 2 && r[0] == q && r[|r| - 1] == q && r[1..|r| - 1] == s
  {
    [q] + s + [q]
  }

  /** The first of the quotings of `s` by QuoteChars[i..] that the container holds. The
      container is a list of strings, so `in` is list membership; a string container, where
      Python's `in` tests for a substring, is not modelled. */
  function QuotedIn(container: seq<string>, s: string, i: nat): Option<string>
    requires i <= |QuoteChars|
    decreases |QuoteChars| - i
  {
    if i == |QuoteChars| then None
    else if QuoteString(s, QuoteChars[i]) in container then Some(QuoteString(s, QuoteChars[i]))
    else QuotedIn(container, s, i + 1)
  }

  /** contains_quoted_string finds `s` in double quotes if the container holds that, else in
      single quotes if it holds that, else nothing. */
  lemma QuotedInSpec(container: seq<string>, s: string)
    ensures var r := QuotedIn(container, s, 0);
      (r.Some? <==> QuoteString(s, '"') in container || QuoteString(s, '\'') in container) &&
      (QuoteString(s, '"') in container ==> r == Some(QuoteString(s, '"'))) &&
      (r.Some? ==> r.value in container && r.value[1..|r.value| - 1] == s)
  {
    assert QuoteChars[0] == '"' && QuoteChars[1] == '\'';
    var r := QuotedIn(container, s, 0);
    if r.Some? {
      var q := if QuoteString(s, '"') in container then '"' else '\'';
      assert r.value == QuoteString(s, q);
    }
  }

  /** contains_quoted_string(container, s) for a list `container`. */
  method ContainsQuotedString(container: seq<string>, s: string) returns (r: Option<string>)
    ensures r == QuotedIn(container, s, 0)
  {
    for i := 0 to |QuoteChars|
      invariant QuotedIn(container, s, 0) == QuotedIn(container, s, i)
    {
      var quoted := QuoteString(s, QuoteChars[i]);
      if quoted in container {
        return Some(quoted);
      }
    }
    return None;
  }

  // ---------------------------------------------------------------------------------------
  // SetupPy.__repr__ (setup_py.py:239-272)

  /** The names of one import: a single name (the defaults a new file gets) or the list the
      reader collects. */
  datatype ImportNames = Name(name: string) | Names(names: seq<string>)

  /** The fields __repr__ reads. */
  datatype Setup = Setup(
    pkgName: string,
    hashBang: bool,
    imports: seq<(string, ImportNames)>,
    declarePackageName: bool,
    helperFunction: Option<string>,
    helperVariable: Option<string>,
    args: seq<(string, PyVal)>)

  const HashBang := "#!/usr/bin/env python\n\n"

  /** HELPER_FUNCTIONS[m] */
  function HelperName(m: string): Result<string, PyError>
  {
    if m == "catkin_pkg.python_setup" then Ok("generate_distutils_setup") else Err(KeyError)
  }

  /** `'{}'.format(x)` of an optional string: `None` prints as "None". */
  function Formatted(x: Option<string>): string
  {
    match x
    case None => "None"
    case Some(s) => s
  }

  /** IMPORT_TEMPLATE.format(module, names): a list of names is sorted and joined. */
  function ImportLine(m: string, names: ImportNames): string
  {
    var ns := match names
      case Name(n) => n
      case Names(ns) => Join(", ", Sort(ns));
    "from " + m + " import " + ns + "\n"
  }

  function ImportsStr(imports: seq<(string, ImportNames)>): string
    decreases |imports|
  {
    if imports == [] then ""
    else ImportsStr(imports[..|imports| - 1]) + ImportLine(imports[|imports| - 1].0, imports[|imports| - 1].1)
  }

  /** The import of a list of names does not depend on the order the names were listed in. */
  lemma ImportLineOrder(m: string, a: seq<string>, b: seq<string>)
    requires multiset(a) == multiset(b)
    ensures ImportLine(m, Names(a)) == ImportLine(m, Names(b))
  {
    SortedUnique(Sort(a), Sort(b));
  }

  /** `if self.helper_function:` */
  predicate UsesHelper(st: Setup)
  {
    st.helperFunction.Some? && st.helperFunction.value != ""
  }

  /** What precedes the arguments. */
  function Header(st: Setup): string
  {
    (if st.hashBang then HashBang else "") + ImportsStr(st.imports) + "\n" +
    (if st.declarePackageName then "package_name = '" + st.pkgName + "'\n\n" else "")
  }

  /** The call that opens the argument list. */
  function Opening(st: Setup): Result<string, PyError>
  {
    if UsesHelper(st) then
      var f :- HelperName(st.helperFunction.value);
      Ok(Formatted(st.helperVariable) + " = " + f + "(\n")
    else Ok("setup(\n")
  }

  /** final_piece */
  function FinalPiece(st: Setup): string
  {
    if UsesHelper(st) then ")\n\nsetup(**" + Formatted(st.helperVariable) + ")\n" else ")\n"
  }

  /** One argument: `    key=` and the value's lines, joined by a newline and four spaces,
      and ",\n". */
  function ArgBlock(k: string, val: PyVal): Result<string, PyError>
  {
    var line := Tab + k + "=";
    var lines :- ToLines(val, |line|, 4, Corrected);
    Ok(line + Join("\n" + Tab, lines) + ",\n")
  }

  function ArgsStr(args: seq<(string, PyVal)>): Result<string, PyError>
    decreases |args|
  {
    if args == [] then Ok("")
    else
      var prev :- ArgsStr(args[..|args| - 1]);
      var block :- ArgBlock(args[|args| - 1].0, args[|args| - 1].1);
      Ok(prev + block)
  }

  /** str(setup_py) */
  function Render(st: Setup): Result<string, PyError>
  {
    var open :- Opening(st);
    var body :- ArgsStr(st.args);
    Ok(Header(st) + open + body + FinalPiece(st))
  }

  /** The file starts with the interpreter line exactly when hash_bang is set, and ends with
      the closing parenthesis, followed by the `setup(**var)` call when a helper is used. */
  lemma RenderFrame(st: Setup)
    requires Render(st).Ok?
    ensures StartsWith(Render(st).value, HashBang) <==> st.hashBang
    ensures UsesHelper(st) ==> EndsWith(Render(st).value, ")\n\nsetup(**" + Formatted(st.helperVariable) + ")\n")
    ensures !UsesHelper(st) ==> EndsWith(Render(st).value, ")\n")
  {
    var r := Render(st).value;
    var h, o, b, f := Header(st), Opening(st).value, ArgsStr(st.args).value, FinalPiece(st);
    assert r == h + o + b + f;
    var pre := if st.hashBang then HashBang else "";
    var imports := ImportsStr(st.imports) + "\n";
    var decl := if st.declarePackageName then "package_name = '" + st.pkgName + "'\n\n" else "";
    assert h == pre + ImportsStr(st.imports) + "\n" + decl;
    var p := if st.hashBang then HashBang else [imports[0]];
    if st.hashBang {
      StartsWithExtend(pre, ImportsStr(st.imports), p);
    } else {
      ImportsStart(st.imports);
      assert pre + ImportsStr(st.imports) == ImportsStr(st.imports);
      StartsWithExtend(ImportsStr(st.imports), "\n", p);
    }
    StartsWithExtend(pre + ImportsStr(st.imports) + "\n", decl, p);
    StartsWithExtend(h, o, p);
    StartsWithExtend(h + o, b, p);
    StartsWithExtend(h + o + b, f, p);
    if !st.hashBang {
      assert r[0] == p[0] != '#';
    }
    EndsWithConcat(h + o + b, f);
  }

  lemma StartsWithExtend(s: string, t: string, p: string)
    requires StartsWith(s, p) || (|p| == 1 && |s + t| > 0 && (s + t)[0] == p[0])
    ensures StartsWith(s + t, p)
  {
    if StartsWith(s, p) {
      assert (s + t)[..|p|] == s[..|p|];
    } else {
      assert (s + t)[..1] == [p[0]];
    }
  }

  lemma EndsWithConcat(s: string, t: string)
    ensures EndsWith(s + t, t)
  {
    assert (s + t)[|s|..] == t;
  }

  /** The imports start with `from`, so with no interpreter line the file starts with 'f' or
      with the blank line after the imports. */
  lemma {:induction false} ImportsStart(imports: seq<(string, ImportNames)>)
    ensures var s := ImportsStr(imports) + "\n"; s[0] != '#'
    decreases |imports|
  {
    if imports != [] {
      var init := imports[..|imports| - 1];
      ImportsStart(init);
      var last := ImportLine(imports[|imports| - 1].0, imports[|imports| - 1].1);
      assert last[0] == 'f';
      if init != [] {
        assert ImportsStr(init) == ImportsStr(init[..|init| - 1]) +
          ImportLine(init[|init| - 1].0, init[|init| - 1].1);
        ImportsNonEmpty(init);
      }
    }
  }

  lemma {:induction false} ImportsNonEmpty(imports: seq<(string, ImportNames)>)
    requires imports != []
    ensures |ImportsStr(imports)| > 0 && ImportsStr(imports)[0] == 'f'
    decreases |imports|
  {
    var init := imports[..|imports| - 1];
    var last := ImportLine(imports[|imports| - 1].0, imports[|imports| - 1].1);
    assert last[0] == 'f';
    if init != [] {
      ImportsNonEmpty(init);
    }
  }

  /** Each argument is written as `    key=` followed by its value and ",\n". */
  lemma ArgBlockShape(k: string, val: PyVal)
    requires ArgBlock(k, val).Ok?
    ensures StartsWith(ArgBlock(k, val).value, Tab + k + "=") && EndsWith(ArgBlock(k, val).value, ",\n")
  {
    var line := Tab + k + "=";
    var body := Join("\n" + Tab, ToLines(val, |line|, 4, Corrected).value);
    var r := line + body + ",\n";
    assert r[..|line|] == line;
    assert r[|r| - 2..] == ",\n";
  }

  // ---------------------------------------------------------------------------------------
  // The object

  class SetupPyFile {
    var pkgName: string
    var hashBang: bool
    var imports: seq<(string, ImportNames)>
    var declarePackageName: bool
    var helperFunction: Option<string>
    var helperVariable: Option<string>
    var args: seq<(string, PyVal)>
    var changed: bool

    function State(): Setup
      reads this
    {
      Setup(pkgName, hashBang, imports, declarePackageName, helperFunction, helperVariable, args)
    }

    /** SetupPy(pkg_name, file_path) for a file that does not exist yet (setup_py.py:170-179). */
    constructor (pkg: string)
      ensures changed && hashBang && !declarePackageName && pkgName == pkg
      ensures imports == [("distutils.core", Name("setup")), ("catkin_pkg.python_setup", Name("generate_distutils_setup"))]
      ensures helperFunction == Some("catkin_pkg.python_setup") && helperVariable == Some("package_info")
      ensures args == [("packages", PyList([Atom(QuoteString(pkg, '\''))])),
                       ("package_dir", PyDict([(QuoteString("", '\''), Atom(QuoteString("src", '\'')))]))]
    {
      pkgName := pkg;
      changed := true;
      hashBang := true;
      imports := [("distutils.core", Name("setup")), ("catkin_pkg.python_setup", Name("generate_distutils_setup"))];
      declarePackageName := false;
      helperFunction := Some("catkin_pkg.python_setup");
      helperVariable := Some("package_info");
      args := [("packages", PyList([Atom(QuoteString(pkg, '\''))])),
               ("package_dir", PyDict([(QuoteString("", '\''), Atom(QuoteString("src", '\'')))]))];
    }

    /** __repr__() */
    method Repr() returns (r: Result<string, PyError>)
      ensures r == Render(State())
    {
      var st := State();
      var open := Opening(st);
      if open.Err? {
        return Err(open.error);
      }
      var s := Header(st) + open.value;
      ghost var head := s;
      var body := ArgsText(args);
      if body.Err? {
        return Err(body.error);
      }
      s := s + body.value;
      s := s + FinalPiece(st);
      r := Ok(s);
    }
  }

  /** The loop over the arguments in __repr__. */
  method ArgsText(args: seq<(string, PyVal)>) returns (r: Result<string, PyError>)
    ensures r == ArgsStr(args)
  {
    var s := "";
    for i := 0 to |args|
      invariant ArgsStr(args[..i]) == Ok(s)
    {
      assert args[..i + 1][..i] == args[..i];
      var block := ArgText(args[i].0, args[i].1);
      if block.Err? {
        ArgsErrPrefix(args, i + 1);
        return Err(block.error);
      }
      s := s + block.value;
    }
    assert args[..|args|] == args;
    r := Ok(s);
  }

  /** One pass of that loop: the key, the value's first line, and each further line after a
      newline and four spaces. */
  method ArgText(k: string, val: PyVal) returns (r: Result<string, PyError>)
    ensures r == ArgBlock(k, val)
  {
    var line := Tab + k + "=";
    var lines := ToLines(val, |line|, 4, Corrected);
    if lines.Err? {
      return Err(lines.error);
    }
    var s := JoinedLines(line, lines.value);
    r := Ok(s + ",\n");
  }

  /** The inner loop of that pass: the lines after `head`, joined by a newline and four
      spaces. */
  method JoinedLines(head: string, ls: seq<string>) returns (s: string)
    requires ls != []
    ensures s == head + Join("\n" + Tab, ls)
  {
    s := head + ls[0];
    for j := 1 to |ls|
      invariant s == head + Join("\n" + Tab, ls[..j])
    {
      JoinSnoc("\n" + Tab, ls[..j], ls[j]);
      assert ls[..j + 1] == ls[..j] + [ls[j]];
      s := s + "\n" + Tab + ls[j];
    }
    assert ls[..|ls|] == ls;
  }

  lemma {:induction false} ArgsErrPrefix(args: seq<(string, PyVal)>, k: nat)
    requires k <= |args| && ArgsStr(args[..k]).Err?
    ensures ArgsStr(args) == ArgsStr(args[..k])
    decreases |args|
  {
    if k < |args| {
      var n := |args| - 1;
      assert args[..n][..k] == args[..k];
      ArgsErrPrefix(args[..n], k);
    } else {
      assert args[..k] == args;
    }
  }

  lemma {:induction false} JoinSnoc(sep: string, xs: seq<string>, x: string)
    requires xs != []
    ensures Join(sep, xs + [x]) == Join(sep, xs) + sep + x
    decreases |xs|
  {
    if |xs| == 1 {
      assert (xs + [x])[1..] == [x];
    } else {
      assert (xs + [x])[1..] == xs[1..] + [x];
      JoinSnoc(sep, xs[1..], x);
    }
  }
}
