/** The CMakeLists.txt reader of the older roscompile (src/roscompile/cmake.py): a character
    scanner that cuts the text into whitespace-and-comment items and `name(params)` commands,
    and the writer that puts them back together. The file itself is a string here. */
module LegacyCMake {
  import opened Base
  import opened Str

  /** One entry of CMake.contents: a plain string, or a (name, params) pair. */
  datatype Item = Chunk(text: string) | Call(name: string, params: string)

  /** The scanner's state 0 to 3: between commands, inside a comment, reading a command name,
      reading the parameters. */
  datatype Mode = Between | InComment | InName | InParams

  datatype Scanner = Scanner(contents: seq<Item>, mode: Mode, s: string, params: string)

  const Start := Scanner([], Between, "", "")

  /** One turn of the loop over the characters (cmake.py:10-39). */
  function Step(st: Scanner, c: char): Scanner
  {
    match st.mode
    case Between =>
      if IsSpace(c) then st.(s := st.s + [c])
      else if c == '#' then st.(mode := InComment, s := st.s + [c])
      else st.(contents := if |st.s| > 0 then st.contents + [Chunk(st.s)] else st.contents, mode := InName, s := [c])
    case InComment =>
      st.(s := st.s + [c], mode := if c == '\n' then Between else InComment)
    case InName =>
      if c == '(' then st.(mode := InParams) else st.(s := st.s + [c])
    case InParams =>
      if c == ')' then Scanner(st.contents + [Call(st.s, st.params)], Between, "", "")
      else st.(params := st.params + [c])
  }

  /** The scanner after reading `t`. */
  function Run(t: string): Scanner
    decreases |t|
  {
    if t == [] then Start else Step(Run(t[..|t| - 1]), t[|t| - 1])
  }

  /** The contents once the input is exhausted: what is left in `s` goes in as a string. */
  function Parsed(t: string): seq<Item>
  {
    Finished(Run(t))
  }

  /** cmake.py:40-41 */
  function Finished(st: Scanner): seq<Item>
  {
    if |st.s| > 0 then st.contents + [Chunk(st.s)] else st.contents
  }

  /** What output writes for the contents. */
  function Render(items: seq<Item>): string
    decreases |items|
  {
    if items == [] then ""
    else
      var x := items[|items| - 1];
      Render(items[..|items| - 1]) + (match x case Chunk(t) => t case Call(n, p) => n + "(" + p + ")")
  }

  lemma RenderSnoc(items: seq<Item>, x: Item)
    ensures Render(items + [x]) == Render(items) + Render([x])
  {
    assert (items + [x])[..|items|] == items;
    assert [x][..0] == [];
  }

  /** The text read but not yet in the contents. */
  function Pending(st: Scanner): string
  {
    if st.mode == InParams then st.s + "(" + st.params else st.s
  }

  /** One character read is one character more in the contents and the pending text. */
  lemma StepSpells(st: Scanner, c: char)
    requires st.mode != InParams ==> st.params == ""
    ensures Render(Step(st, c).contents) + Pending(Step(st, c)) == Render(st.contents) + Pending(st) + [c]
  {
    match st.mode
    case Between =>
      if !IsSpace(c) && c != '#' && |st.s| > 0 {
        RenderSnoc(st.contents, Chunk(st.s));
      }
    case InComment =>
    case InName =>
    case InParams =>
      if c == ')' {
        RenderSnoc(st.contents, Call(st.s, st.params));
      }
  }

  /** Nothing read is lost: the contents so far and the pending text spell the input. */
  lemma {:induction false} RunSpells(t: string)
    ensures Render(Run(t).contents) + Pending(Run(t)) == t
    ensures Run(t).mode != InParams ==> Run(t).params == ""
    decreases |t|
  {
    if t != [] {
      var t' := t[..|t| - 1];
      RunSpells(t');
      StepSpells(Run(t'), t[|t| - 1]);
      assert t == t' + [t[|t| - 1]];
    }
  }

  /** output reproduces the text it was read from, unless the text ends inside a command's
      parentheses; then the '(' and the parameters are dropped and the name is kept as a
      plain string. */
  lemma RoundTrip(t: string)
    ensures Run(t).mode != InParams ==> Render(Parsed(t)) == t
    ensures Run(t).mode == InParams ==> Render(Parsed(t)) + "(" + Run(t).params == t
  {
    RunSpells(t);
    FinishedSpells(Run(t));
  }

  lemma FinishedSpells(st: Scanner)
    ensures Render(Finished(st)) + (if st.mode == InParams then "(" + st.params else "") ==
      Render(st.contents) + Pending(st)
  {
    if |st.s| > 0 {
      RenderSnoc(st.contents, Chunk(st.s));
    }
  }

  // ---------------------------------------------------------------------------------------
  // The shape of the items

  /** Reading whitespace and comments: Some(false) when every comment so far is closed by its
      newline, Some(true) inside a comment, None once anything else appears. */
  function Blank(s: string): Option<bool>
    decreases |s|
  {
    if s == [] then Some(false)
    else
      var c := s[|s| - 1];
      match Blank(s[..|s| - 1])
      case None => None
      case Some(open) =>
        if open then Some(c != '\n')
        else if IsSpace(c) then Some(false)
        else if c == '#' then Some(true)
        else None
  }

  /** A command name: it starts with neither whitespace nor '#', and holds no '(' after its
      first character (a '(' where a name starts is read as the name's first character). */
  predicate NameOk(n: string)
  {
    |n| > 0 && !IsSpace(n[0]) && n[0] != '#' && '(' !in n[1..]
  }

  predicate ItemOk(x: Item)
  {
    match x
    case Chunk(t) => |t| > 0 && Blank(t) == Some(false)
    case Call(n, p) => NameOk(n) && ')' !in p
  }

  predicate ScannerOk(st: Scanner)
  {
    (forall k :: 0 <= k < |st.contents| ==> ItemOk(st.contents[k])) &&
    match st.mode
    case Between => Blank(st.s) == Some(false)
    case InComment => Blank(st.s) == Some(true)
    case InName => NameOk(st.s)
    case InParams => NameOk(st.s) && ')' !in st.params
  }

  /** The parameters are empty outside a command's parentheses. */
  predicate ParamsOk(st: Scanner)
  {
    st.mode != InParams ==> st.params == ""
  }

  lemma {:induction false} RunOk(t: string)
    ensures ScannerOk(Run(t)) && ParamsOk(Run(t))
    decreases |t|
  {
    if t != [] {
      var t' := t[..|t| - 1];
      var c := t[|t| - 1];
      RunOk(t');
      var st := Run(t');
      match st.mode
      case Between =>
        assert (st.s + [c])[..|st.s|] == st.s;
      case InComment =>
        assert (st.s + [c])[..|st.s|] == st.s;
      case InName =>
        assert (st.s + [c])[0] == st.s[0] && (st.s + [c])[1..] == st.s[1..] + [c];
      case InParams =>
    }
  }

  /** Every command read has a proper name and parameters without ')'; every string item but
      the last consists of whitespace and whole comments, each running from '#' through its
      newline. */
  lemma ParsedItems(t: string)
    ensures forall k :: 0 <= k < |Parsed(t)| && Parsed(t)[k].Call? ==> ItemOk(Parsed(t)[k])
    ensures forall k :: 0 <= k < |Parsed(t)| - 1 ==> ItemOk(Parsed(t)[k])
  {
    RunOk(t);
  }

  // ---------------------------------------------------------------------------------------
  // The class

  class LegacyCMakeFile {
    var contents: seq<Item>

    /** CMake(fn) on a file holding `original`. */
    constructor (original: string)
      ensures contents == Parsed(original)
    {
      contents := [];
      new;
      var mode := Between;
      var s := "";
      var params := "";
      for k := 0 to |original|
        invariant Run(original[..k]) == Scanner(contents, mode, s, params)
      {
        assert original[..k + 1][..k] == original[..k];
        var c := original[k];
        match mode
        case Between =>
          if IsSpace(c) {
            s := s + [c];
          } else if c == '#' {
            mode := InComment;
            s := s + [c];
          } else {
            if |s| > 0 {
              contents := contents + [Chunk(s)];
            }
            mode := InName;
            s := [c];
          }
        case InComment =>
          s := s + [c];
          if c == '\n' {
            mode := Between;
          }
        case InName =>
          if c == '(' {
            mode := InParams;
          } else {
            s := s + [c];
          }
        case InParams =>
          if c == ')' {
            contents := contents + [Call(s, params)];
            s := "";
            params := "";
            mode := Between;
          } else {
            params := params + [c];
          }
      }
      assert original[..|original|] == original;
      if |s| > 0 {
        contents := contents + [Chunk(s)];
      }
    }

    /** output(): the text written to the file. */
    method Output() returns (text: string)
      ensures text == Render(contents)
    {
      text := "";
      for k := 0 to |contents|
        invariant text == Render(contents[..k])
      {
        assert contents[..k + 1][..k] == contents[..k];
        match contents[k]
        case Chunk(t) =>
          text := text + t;
        case Call(fne, params) =>
          text := text + fne + "(" + params + ")";
      }
      assert contents[..|contents|] == contents;
    }
  }
}
