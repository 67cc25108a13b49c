/** The recursive-descent parser of ros_introspection/cmake_parser.py (`AwesomeParser`) over
    the token stream of CMakeLexer, and the entry points parse_commands and parse_command.

    The reference definitions below follow the parser's loops over the remaining tokens and
    return the tokens left over; the class methods are proved against them. */
module CMakeParser {
  import opened Base
  import opened Str
  import opened CMakeDoc
  import opened CMakeFile
  import opened CMakeLexer
  import opened CMakeGroups

  /** NOT_REAL: whitespace, newlines and comments. */
  const NotReal: set<Kind> := {Whitespace, Newline, Comment}
  /** ALL_WHITESPACE */
  const AllWhitespace: set<Kind> := {Whitespace, Newline}
  /** The next real types at which the value loop of parse_section stops. */
  const SectionEnd: set<Kind> := {LeftParen, RightParen, Caps}
  /** The next real types at which parse_command starts a section. */
  const SectionStart: set<Kind> := {Word, Caps, Quoted}

  /** `typ in kinds`, for a type that is None when no token is left. */
  predicate IsOf(typ: Option<Kind>, kinds: set<Kind>)
  {
    typ.Some? && typ.value in kinds
  }

  /** get_type */
  function TypeOf(t: seq<Token>): Option<Kind>
  {
    if t == [] then None else Some(t[0].kind)
  }

  /** next_real_type: the type of the first token that is not whitespace, a newline or a
      comment; None when there is none. */
  function NextReal(t: seq<Token>): (r: Option<Kind>)
    ensures r.Some? ==> r.value !in NotReal
  {
    if t == [] then None else if t[0].kind in NotReal then NextReal(t[1..]) else Some(t[0].kind)
  }

  /** How many tokens a `while self.get_type() in kinds: self.match()` loop takes. */
  function Run(t: seq<Token>, kinds: set<Kind>): (n: nat)
    ensures n <= |t|
    ensures forall i :: 0 <= i < n ==> t[i].kind in kinds
    ensures n < |t| ==> t[n].kind !in kinds
  {
    if t != [] && t[0].kind in kinds then 1 + Run(t[1..], kinds) else 0
  }

  /** `rest` is what is left of `t` after popping tokens from its front. */
  predicate SuffixOf(rest: seq<Token>, t: seq<Token>)
  {
    |rest| <= |t| && rest == t[|t| - |rest|..]
  }

  /** The text of the tokens popped in going from `t` to its suffix `rest`. */
  function Consumed(t: seq<Token>, rest: seq<Token>): string
    requires |rest| <= |t|
  {
    Concat(Texts(t[..|t| - |rest|]))
  }

  /** `if len(current) > 0: delims.add(current)` */
  function Flush(delims: set<string>, current: string): set<string>
  {
    if |current| > 0 then delims + {current} else delims
  }

  // ---------------------------------------------------------------------------------------
  // parse_section (cmake_parser.py:135-182)

  /** The value loop of parse_section (cmake_parser.py:156-170) from the remaining tokens `t`,
      with the values, delimiters and pending whitespace `current` gathered so far. Whitespace
      and newlines add to `current`; any other token (a comment too) flushes `current` into
      the delimiters and becomes a value. The loop stops where the next real token is a
      parenthesis or a caps word, returning the values, the delimiters, the pending run and
      the tokens left; running out of tokens first is the IndexError of popping an empty
      list. */
  function Values(t: seq<Token>, values: seq<string>, delims: set<string>, current: string)
    : (r: Result<(seq<string>, set<string>, string, seq<Token>), PyError>)
    ensures r.Ok? ==> SuffixOf(r.value.3, t) && IsOf(NextReal(r.value.3), SectionEnd)
    ensures r.Ok? && !IsOf(NextReal(t), SectionEnd) ==> |r.value.3| < |t|
    ensures r.Err? ==> r.error == IndexError
    decreases |t|
  {
    if IsOf(NextReal(t), SectionEnd) then Ok((values, delims, current, t))
    else if t == [] then Err(IndexError)
    else if t[0].kind in AllWhitespace then Values(t[1..], values, delims, current + t[0].text)
    else Values(t[1..], values + [t[0].text], Flush(delims, current), "")
  }

  /** What parse_section determines: the caps name (or ''), the values, the style's prename and
      name_val_sep, and the set of delimiters seen between values, one of which becomes the
      style's val_sep. */
  datatype SectionParse = SectionParse(name: string, values: seq<string>, prename: string,
                                       nameValSep: string, delims: set<string>)

  /** `style.name_val_sep` after the caps loop: the blanks read, or ' ' when there were none. */
  function NameValSep(blanks: string): string
  {
    if blanks == [] then " " else blanks
  }

  /** The section built from the outcome `v` of the value loop. */
  function SectionFrom(v: Result<(seq<string>, set<string>, string, seq<Token>), PyError>,
                       name: string, prename: string, nameValSep: string): Result<(SectionParse, seq<Token>), PyError>
  {
    if v.Err? then Err(v.error)
    else Ok((SectionParse(name, v.value.0, prename, nameValSep, Flush(v.value.1, v.value.2)), v.value.3))
  }

  /** parse_section on the remaining tokens `t`: the leading whitespace, newlines and comments
      form the prename; a caps word is the name, followed by the whitespace run that is the
      name_val_sep (' ' when there is none); then the value loop. Returns the tokens left. */
  function SectionSpec(t: seq<Token>): Result<(SectionParse, seq<Token>), PyError>
  {
    var n := Run(t, NotReal);
    var prename := Concat(Texts(t[..n]));
    if TypeOf(t[n..]) == Some(Caps) then
      var u := t[n + 1..];
      var m := Run(u, AllWhitespace);
      SectionFrom(Values(u[m..], [], {}, ""), t[n].text, prename, NameValSep(Concat(Texts(u[..m]))))
    else
      SectionFrom(Values(t[n..], [], {}, ""), "", prename, " ")
  }

  /** parse_section pops a suffix of the tokens, at least one token when the next real one
      starts a section, and fails only by running out of tokens. */
  lemma SectionShrinks(t: seq<Token>)
    ensures SectionSpec(t).Ok? ==> SuffixOf(SectionSpec(t).value.1, t)
    ensures SectionSpec(t).Ok? && IsOf(NextReal(t), SectionStart) ==> |SectionSpec(t).value.1| < |t|
    ensures SectionSpec(t).Err? ==> SectionSpec(t).error == IndexError
  {
    var n := Run(t, NotReal);
    if TypeOf(t[n..]) == Some(Caps) {
      SectionShrinksNamed(t, n);
    } else {
      SectionShrinksUnnamed(t, n);
    }
  }

  lemma SectionShrinksNamed(t: seq<Token>, n: nat)
    requires n == Run(t, NotReal) && TypeOf(t[n..]) == Some(Caps)
    ensures SectionSpec(t).Ok? ==> SuffixOf(SectionSpec(t).value.1, t)
    ensures SectionSpec(t).Ok? && IsOf(NextReal(t), SectionStart) ==> |SectionSpec(t).value.1| < |t|
    ensures SectionSpec(t).Err? ==> SectionSpec(t).error == IndexError
  {
    var prename := Concat(Texts(t[..n]));
    var u := t[n + 1..];
    var m := Run(u, AllWhitespace);
    var sep := NameValSep(Concat(Texts(u[..m])));
    SectionSpecFrom(t, n, prename, t[n].text, sep, u[m..]);
    NamedRest(t, n, m);
    SectionFromShrinks(t, u[m..], t[n].text, prename, sep);
  }

  /** What is left after a section name and the whitespace after it is a proper suffix. */
  lemma NamedRest(t: seq<Token>, n: nat, m: nat)
    requires n < |t| && m <= |t| - n - 1
    ensures SuffixOf(t[n + 1..][m..], t) && |t[n + 1..][m..]| < |t|
  {
    assert t[n + 1..][m..] == t[n + 1 + m..];
  }

  lemma SectionShrinksUnnamed(t: seq<Token>, n: nat)
    requires n == Run(t, NotReal) && TypeOf(t[n..]) != Some(Caps)
    ensures SectionSpec(t).Ok? ==> SuffixOf(SectionSpec(t).value.1, t)
    ensures SectionSpec(t).Ok? && IsOf(NextReal(t), SectionStart) ==> |SectionSpec(t).value.1| < |t|
    ensures SectionSpec(t).Err? ==> SectionSpec(t).error == IndexError
  {
    var prename := Concat(Texts(t[..n]));
    NextRealSkips(t, n);
    SectionSpecFrom(t, n, prename, "", " ", t[n..]);
    SectionFromShrinks(t, t[n..], "", prename, " ");
  }

  lemma SectionFromShrinks(t: seq<Token>, v0: seq<Token>, name: string, prename: string, nameValSep: string)
    requires SuffixOf(v0, t) && (|v0| < |t| || (NextReal(v0) == NextReal(t) && NextReal(t) != Some(Caps)))
    ensures var r := SectionFrom(Values(v0, [], {}, ""), name, prename, nameValSep);
      (r.Ok? ==> SuffixOf(r.value.1, t))
      && (r.Ok? && IsOf(NextReal(t), SectionStart) ==> |r.value.1| < |t|)
      && (r.Err? ==> r.error == IndexError)
  {
    var v := Values(v0, [], {}, "");
    if v.Ok? {
      SuffixTrans(t, v0, v.value.3);
    }
  }

  /** SectionSpec once the prename, the name and name_val_sep have been read, leaving `v0`. */
  lemma SectionSpecFrom(t: seq<Token>, n: nat, prename: string, cat: string, nameValSep: string, v0: seq<Token>)
    requires n == Run(t, NotReal) && prename == Concat(Texts(t[..n]))
    requires TypeOf(t[n..]) == Some(Caps) ==>
      cat == t[n].text
      && var u := t[n + 1..];
         var m := Run(u, AllWhitespace);
         v0 == u[m..] && nameValSep == NameValSep(Concat(Texts(u[..m])))
    requires TypeOf(t[n..]) != Some(Caps) ==> cat == "" && nameValSep == " " && v0 == t[n..]
    ensures SectionSpec(t) == SectionFrom(Values(v0, [], {}, ""), cat, prename, nameValSep)
  {
  }

  /** Skipping a run of non-real tokens does not change the next real type. */
  lemma {:induction false} NextRealSkips(t: seq<Token>, n: nat)
    requires n <= |t| && forall i :: 0 <= i < n ==> t[i].kind in NotReal
    ensures NextReal(t) == NextReal(t[n..])
  {
    if n > 0 {
      assert t[1..][n - 1..] == t[n..];
      NextRealSkips(t[1..], n - 1);
    }
  }

  /** A parsed Section: its name, values, prename and name_val_sep are the parsed ones, and its
      val_sep is one of the delimiters seen (`list(delims)[0]`, whichever the set yields
      first), or ' ' when there was none. */
  predicate SectionFits(s: Section, p: SectionParse)
  {
    s.name == p.name && s.values == p.values && s.style.Own?
    && s.style.style.prename == p.prename && s.style.style.nameValSep == p.nameValSep
    && (if p.delims == {} then s.style.style.valSep == " " else s.style.style.valSep in p.delims)
  }

  // ---------------------------------------------------------------------------------------
  // parse_command (cmake_parser.py:104-133)

  datatype ItemParse = FragmentP(text: string) | SectionP(section: SectionParse)

  /** The section loop of parse_command (cmake_parser.py:115-133) at parenthesis depth
      `depth`, with the items gathered so far: a section where the next real token is a word,
      a caps word or a string; otherwise the first token is taken, a ')' closing a level (the
      last one ends the command), a '(' opening one, and anything else kept as a raw string.
      Running out of tokens is a CMakeParseError. */
  function Body(t: seq<Token>, depth: nat, items: seq<ItemParse>): (r: Result<(seq<ItemParse>, seq<Token>), PyError>)
    requires depth >= 1
    decreases |t|
  {
    if t == [] then Err(ParseError)
    else if IsOf(NextReal(t), SectionStart) then
      var s :- SectionSpec(t);
      SectionShrinks(t);
      Body(s.1, depth, items + [SectionP(s.0)])
    else if t[0].kind == RightParen then
      if depth == 1 then Ok((items, t[1..])) else Body(t[1..], depth - 1, items)
    else if t[0].kind == LeftParen then Body(t[1..], depth + 1, items)
    else Body(t[1..], depth, items + [FragmentP(t[0].text)])
  }

  /** One round of the section loop that reads a section. */
  lemma BodyUnfoldSection(t: seq<Token>, depth: nat, items: seq<ItemParse>)
    requires t != [] && depth >= 1 && IsOf(NextReal(t), SectionStart)
    ensures SectionSpec(t).Err? ==> Body(t, depth, items) == Err(SectionSpec(t).error)
    ensures SectionSpec(t).Ok? ==>
      Body(t, depth, items) == Body(SectionSpec(t).value.1, depth, items + [SectionP(SectionSpec(t).value.0)])
  {
  }

  /** One round of the section loop that pops a single token. */
  lemma BodyUnfoldToken(t: seq<Token>, depth: nat, items: seq<ItemParse>)
    requires t != [] && depth >= 1 && !IsOf(NextReal(t), SectionStart)
    ensures t[0].kind == RightParen ==>
      Body(t, depth, items) == if depth == 1 then Ok((items, t[1..])) else Body(t[1..], depth - 1, items)
    ensures t[0].kind == LeftParen ==> Body(t, depth, items) == Body(t[1..], depth + 1, items)
    ensures t[0].kind != RightParen && t[0].kind != LeftParen ==>
      Body(t, depth, items) == Body(t[1..], depth, items + [FragmentP(t[0].text)])
  {
  }

  /** The section loop always pops at least the closing parenthesis. */
  lemma {:induction false} BodyShrinks(t: seq<Token>, depth: nat, items: seq<ItemParse>)
    requires depth >= 1
    ensures Body(t, depth, items).Ok? ==>
      SuffixOf(Body(t, depth, items).value.1, t) && |Body(t, depth, items).value.1| < |t|
    decreases |t|
  {
    if t == [] {
    } else if IsOf(NextReal(t), SectionStart) {
      var s := SectionSpec(t);
      SectionShrinks(t);
      if s.Ok? {
        BodyShrinks(s.value.1, depth, items + [SectionP(s.value.0)]);
        var r := Body(s.value.1, depth, items + [SectionP(s.value.0)]);
        if r.Ok? {
          SuffixTrans(t, s.value.1, r.value.1);
        }
      }
    } else if t[0].kind == RightParen && depth == 1 {
    } else {
      var d := if t[0].kind == RightParen then depth - 1 else if t[0].kind == LeftParen then depth + 1 else depth;
      var its := if t[0].kind == RightParen || t[0].kind == LeftParen then items else items + [FragmentP(t[0].text)];
      BodyShrinks(t[1..], d, its);
      var r := Body(t[1..], d, its);
      if r.Ok? {
        SuffixTrans(t, t[1..], r.value.1);
      }
    }
  }

  lemma SuffixTrans(t: seq<Token>, a: seq<Token>, b: seq<Token>)
    requires SuffixOf(a, t) && SuffixOf(b, a)
    ensures SuffixOf(b, t)
  {
  }

  /** What parse_command determines: the name, pre_paren, the sections and raw strings, and
      the original text (everything popped for the command). */
  datatype CommandParse = CommandParse(name: string, preParen: string, items: seq<ItemParse>, original: string)

  /** parse_command on the remaining tokens `t`: the first token is the name, the blanks
      after it are pre_paren, then a '(' must follow (else CMakeParseError) and the section
      loop runs from depth 1. */
  function CommandSpec(t: seq<Token>): (r: Result<(CommandParse, seq<Token>), PyError>)
    ensures r.Ok? ==> SuffixOf(r.value.1, t) && |r.value.1| < |t|
  {
    if t == [] then Err(IndexError)
    else
      var w := Run(t[1..], {Whitespace});
      if TypeOf(t[1 + w..]) != Some(LeftParen) then Err(ParseError)
      else
        var b :- Body(t[2 + w..], 1, []);
        BodyShrinks(t[2 + w..], 1, []);
        SuffixTrans(t, t[2 + w..], b.1);
        Ok((CommandParse(t[0].text, Concat(Texts(t[1..1 + w])), b.0, Consumed(t, b.1)), b.1))
  }

  /** CommandSpec once the name, pre_paren and '(' have been read. */
  lemma CommandSpecFrom(t: seq<Token>, w: nat, b: Result<(seq<ItemParse>, seq<Token>), PyError>)
    requires t != [] && w == Run(t[1..], {Whitespace}) && TypeOf(t[1 + w..]) == Some(LeftParen)
    requires b == Body(t[2 + w..], 1, [])
    ensures b.Err? ==> CommandSpec(t) == Err(b.error)
    ensures b.Ok? ==> SuffixOf(b.value.1, t)
    ensures b.Ok? ==>
      CommandSpec(t) == Ok((CommandParse(t[0].text, Concat(Texts(t[1..1 + w])), b.value.0, Consumed(t, b.value.1)), b.value.1))
  {
    BodyShrinks(t[2 + w..], 1, []);
    if b.Ok? {
      SuffixTrans(t, t[2 + w..], b.value.1);
    }
  }

  datatype ContentParse = RawP(text: string) | CommandP(command: CommandParse)

  /** The token loop of AwesomeParser.__init__ (cmake_parser.py:83-95) from the remaining
      tokens `t`, with the items parsed so far: comments, newlines and whitespace are kept as
      raw strings, a word or caps word starts a command, and any other token is an
      Exception. */
  function TopLevel(t: seq<Token>, acc: seq<ContentParse>): (r: Result<seq<ContentParse>, PyError>)
    decreases |t|
  {
    if t == [] then Ok(acc)
    else if t[0].kind in NotReal then TopLevel(t[1..], acc + [RawP(t[0].text)])
    else if t[0].kind == Word || t[0].kind == Caps then
      var c :- CommandSpec(t);
      TopLevel(c.1, acc + [CommandP(c.0)])
    else Err(GenericException)
  }

  // ---------------------------------------------------------------------------------------
  // Parsed objects

  predicate ItemFits(item: SectionItem, p: ItemParse)
  {
    match p
    case FragmentP(x) => item == Fragment(x)
    case SectionP(sp) => item.Sec? && SectionFits(item.section, sp)
  }

  predicate ItemsFit(items: seq<SectionItem>, ps: seq<ItemParse>)
  {
    |items| == |ps| && forall i :: 0 <= i < |items| ==> ItemFits(items[i], ps[i])
  }

  lemma ItemsFitSnoc(items: seq<SectionItem>, ps: seq<ItemParse>, item: SectionItem, p: ItemParse)
    requires ItemsFit(items, ps) && ItemFits(item, p)
    ensures ItemsFit(items + [item], ps + [p])
  {
  }

  /** A parsed Command: unchanged, with the parsed name, pre_paren, sections and original. */
  predicate CommandFits(c: Command, p: CommandParse)
  {
    c.name == p.name && c.preParen == p.preParen && ItemsFit(c.sections, p.items)
    && c.original == Some(p.original) && !c.changed
  }

  predicate ContentFits(c: Content, p: ContentParse)
  {
    match p
    case RawP(x) => c == Raw(x)
    case CommandP(cp) => c.Cmd? && CommandFits(c.cmd, cp)
  }

  predicate ContentsFit(cs: seq<Content>, ps: seq<ContentParse>)
  {
    |cs| == |ps| && forall i :: 0 <= i < |cs| ==> ContentFits(cs[i], ps[i])
  }

  // ---------------------------------------------------------------------------------------
  // The parsed text

  /** The text a parsed item was read from. */
  function PieceText(p: ContentParse): string
  {
    match p
    case RawP(x) => x
    case CommandP(c) => c.original
  }

  /** The texts of the parsed items, in order. */
  function ParsedText(ps: seq<ContentParse>): string
  {
    if ps == [] then "" else ParsedText(ps[..|ps| - 1]) + PieceText(ps[|ps| - 1])
  }

  /** A parsed command's original is never empty: it holds the command's name at least. */
  predicate OriginalOk(p: ContentParse)
  {
    p.CommandP? ==> p.command.original != []
  }

  /** Splitting the token list splits the text. */
  lemma TextsSplit(t: seq<Token>, k: nat)
    requires k <= |t|
    ensures Concat(Texts(t)) == Concat(Texts(t[..k])) + Concat(Texts(t[k..]))
  {
    assert t == t[..k] + t[k..];
    TextsAppend(t[..k], t[k..]);
    ConcatAppend(Texts(t[..k]), Texts(t[k..]));
  }

  /** The top-level loop reads every token: the parsed items give back the text of the
      tokens, after the text of the items gathered before. */
  lemma {:induction false} TopLevelText(t: seq<Token>, acc: seq<ContentParse>)
    requires forall tok :: tok in t ==> TokenOk(tok)
    requires forall i :: 0 <= i < |acc| ==> OriginalOk(acc[i])
    ensures TopLevel(t, acc).Ok? ==>
      ParsedText(TopLevel(t, acc).value) == ParsedText(acc) + Concat(Texts(t))
      && forall i :: 0 <= i < |TopLevel(t, acc).value| ==> OriginalOk(TopLevel(t, acc).value[i])
    decreases |t|
  {
    if t != [] && (t[0].kind in NotReal || t[0].kind == Word || t[0].kind == Caps) {
      var p, rest := TopLevelStep(t, acc);
      if TopLevel(t, acc).Ok? {
        assert forall i :: 0 <= i < |acc + [p]| ==> OriginalOk((acc + [p])[i]) by {
          forall i | 0 <= i < |acc + [p]|
            ensures OriginalOk((acc + [p])[i])
          {
            if i < |acc| {
              assert (acc + [p])[i] == acc[i];
            }
          }
        }
        TopLevelText(rest, acc + [p]);
        assert ParsedText(acc) + PieceText(p) + Concat(Texts(rest))
            == ParsedText(acc) + (PieceText(p) + Concat(Texts(rest)));
      }
    }
  }

  /** One round of the top-level loop that does not fail: the item read, its text, and the
      tokens left. */
  lemma TopLevelStep(t: seq<Token>, acc: seq<ContentParse>) returns (p: ContentParse, rest: seq<Token>)
    requires t != [] && (t[0].kind in NotReal || t[0].kind == Word || t[0].kind == Caps)
    requires forall tok :: tok in t ==> TokenOk(tok)
    requires forall i :: 0 <= i < |acc| ==> OriginalOk(acc[i])
    ensures TopLevel(t, acc).Ok? ==>
      SuffixOf(rest, t) && |rest| < |t| && TopLevel(t, acc) == TopLevel(rest, acc + [p])
      && Concat(Texts(t)) == PieceText(p) + Concat(Texts(rest))
      && ParsedText(acc + [p]) == ParsedText(acc) + PieceText(p)
      && OriginalOk(p) && forall tok :: tok in rest ==> TokenOk(tok)
  {
    if t[0].kind in NotReal {
      p, rest := RawP(t[0].text), t[1..];
      TextsSplit(t, 1);
      assert Texts(t[..1]) == [t[0].text];
    } else {
      var c := CommandSpec(t);
      if c.Err? {
        p, rest := RawP(""), t;
        return;
      }
      p, rest := CommandP(c.value.0), c.value.1;
      CommandSpecText(t);
    }
    assert (acc + [p])[..|acc + [p]| - 1] == acc;
  }

  /** A parsed command's original is the text of the tokens it took, its name first. */
  lemma CommandSpecText(t: seq<Token>)
    requires CommandSpec(t).Ok? && forall tok :: tok in t ==> TokenOk(tok)
    requires t[0].kind == Word || t[0].kind == Caps
    ensures var c := CommandSpec(t).value;
      Concat(Texts(t)) == c.0.original + Concat(Texts(c.1)) && c.0.original != []
  {
    var c := CommandSpec(t).value;
    assert c.0.original == Consumed(t, c.1);
    assert t[0] in t;
    ConsumedText(t, c.1);
  }

  /** Popping at least one token whose text is not empty pops some text, and what is popped
      and what is left give back the text of the tokens. */
  lemma ConsumedText(t: seq<Token>, rest: seq<Token>)
    requires SuffixOf(rest, t) && |rest| < |t| && |t[0].text| > 0
    ensures Concat(Texts(t)) == Consumed(t, rest) + Concat(Texts(rest)) && Consumed(t, rest) != []
  {
    var k := |t| - |rest|;
    TextsSplit(t, k);
    TextsSplit(t[..k], 1);
    assert t[..k][..1] == t[..1];
    assert Texts(t[..1]) == [t[0].text];
  }

  /** Items that fit a parse print as the parsed text, and each prints verbatim. */
  lemma {:induction false} FitText(cs: seq<Content>, ps: seq<ContentParse>, shared: SectionStyle)
    requires ContentsFit(cs, ps) && forall i :: 0 <= i < |ps| ==> OriginalOk(ps[i])
    ensures forall i :: 0 <= i < |cs| ==> Verbatim(cs[i])
    ensures ContentsText(cs, shared) == Some(ParsedText(ps))
    decreases |cs|
  {
    assert forall i :: 0 <= i < |cs| ==> Verbatim(cs[i]) by {
      forall i | 0 <= i < |cs|
        ensures Verbatim(cs[i])
      {
        assert ContentFits(cs[i], ps[i]) && OriginalOk(ps[i]);
      }
    }
    if cs != [] {
      var n := |cs| - 1;
      assert cs == cs[..n] + [cs[n]];
      FitText(cs[..n], ps[..n], shared);
      ContentsTextAppend(cs[..n], [cs[n]], shared);
      assert ContentFits(cs[n], ps[n]) && OriginalOk(ps[n]);
      assert ContentsText([cs[n]], shared) == Some(PieceText(ps[n])) by {
        assert [cs[n]][1..] == [];
        assert PieceText(ps[n]) + "" == PieceText(ps[n]);
      }
    }
  }

  /** One round of the top-level loop. */
  lemma TopLevelUnfold(t: seq<Token>, acc: seq<ContentParse>)
    requires t != []
    ensures t[0].kind in NotReal ==> TopLevel(t, acc) == TopLevel(t[1..], acc + [RawP(t[0].text)])
    ensures (t[0].kind == Word || t[0].kind == Caps) && CommandSpec(t).Err? ==>
      TopLevel(t, acc) == Err(CommandSpec(t).error)
    ensures (t[0].kind == Word || t[0].kind == Caps) && CommandSpec(t).Ok? ==>
      TopLevel(t, acc) == TopLevel(CommandSpec(t).value.1, acc + [CommandP(CommandSpec(t).value.0)])
    ensures t[0].kind !in NotReal && t[0].kind != Word && t[0].kind != Caps ==>
      TopLevel(t, acc) == Err(GenericException)
  {
  }

  lemma ContentsFitSnoc(cs: seq<Content>, ps: seq<ContentParse>, c: Content, p: ContentParse)
    requires ContentsFit(cs, ps) && ContentFits(c, p)
    ensures ContentsFit(cs + [c], ps + [p])
  {
  }

  /** Appending a raw string keeps the identities; appending a command with identity `hi`
      extends the range by one. */
  lemma IdsInSnoc(cs: seq<Content>, c: Content, lo: nat, hi: nat)
    requires lo <= hi && IdsIn(cs, lo, hi) && (c.Raw? || (c.Cmd? && c.cmd.id == hi))
    ensures IdsIn(cs + [c], lo, if c.Raw? then hi else hi + 1)
  {
    IdsAppend(cs, [c]);
    assert [c][1..] == [];
    var tail := if c.Raw? then [] else [c.cmd.id];
    assert Ids([c]) == tail + Ids([]);
    var ids := Ids(cs) + tail;
    assert Ids(cs + [c]) == ids;
  }

  // ---------------------------------------------------------------------------------------
  // Popping tokens

  lemma TextsAppend(x: seq<Token>, y: seq<Token>)
    ensures Texts(x + y) == Texts(x) + Texts(y)
  {
    assert Texts(x + y) == Texts(x) + Texts(y);
  }

  /** Popping the front token adds its text to what has been consumed. */
  lemma ConsumedStep(t: seq<Token>, rest: seq<Token>)
    requires SuffixOf(rest, t)
    ensures rest != [] ==> SuffixOf(rest[1..], t) && Consumed(t, rest[1..]) == Consumed(t, rest) + rest[0].text
  {
    if rest != [] {
      var k := |t| - |rest|;
      assert rest[0] == t[k];
      assert rest[1..] == t[k + 1..];
      assert t[..k + 1] == t[..k] + [rest[0]];
      assert |t| - |rest[1..]| == k + 1;
      TextsAppend(t[..k], [rest[0]]);
      assert Texts([rest[0]]) == [rest[0].text];
      ConcatAppend(Texts(t[..k]), [rest[0].text]);
      assert Concat([rest[0].text]) == rest[0].text + Concat([]);
    }
  }

  /** A run stops at the first token outside `kinds`. */
  lemma RunStops(t: seq<Token>, kinds: set<Kind>, rest: seq<Token>)
    requires SuffixOf(rest, t) && |t| - |rest| <= Run(t, kinds) && !IsOf(TypeOf(rest), kinds)
    ensures |t| - |rest| == Run(t, kinds)
  {
    var k := |t| - |rest|;
    if k < |t| {
      assert rest[0] == t[k];
    }
  }

  lemma ConsumedTrans(t: seq<Token>, a: seq<Token>, b: seq<Token>)
    requires SuffixOf(a, t) && SuffixOf(b, a)
    ensures SuffixOf(b, t) && Consumed(t, b) == Consumed(t, a) + Consumed(a, b)
  {
    assert t[..|t| - |b|] == t[..|t| - |a|] + a[..|a| - |b|];
    TextsAppend(t[..|t| - |a|], a[..|a| - |b|]);
    ConcatAppend(Texts(t[..|t| - |a|]), Texts(a[..|a| - |b|]));
  }

  // ---------------------------------------------------------------------------------------
  // The parser object

  /** AwesomeParser: the tokens not yet consumed, the top-level items parsed so far, and the
      identity the next Command object gets. */
  class AwesomeParser {
    var tokens: seq<Token>
    var contents: seq<Content>
    var nextId: nat

    /** The scanned tokens of the input (the scan and its ValueError are Lex). */
    constructor (toks: seq<Token>, firstId: nat)
      ensures tokens == toks && contents == [] && nextId == firstId
    {
      tokens := toks;
      contents := [];
      nextId := firstId;
    }

    /** get_type */
    function GetType(): Option<Kind>
      reads this
    {
      TypeOf(tokens)
    }

    /** next_real_type */
    method NextRealType() returns (r: Option<Kind>)
      ensures r == NextReal(tokens)
    {
      var i := 0;
      while i < |tokens|
        invariant 0 <= i <= |tokens|
        invariant NextReal(tokens[i..]) == NextReal(tokens)
      {
        assert tokens[i..][1..] == tokens[i + 1..];
        if tokens[i].kind !in NotReal {
          return Some(tokens[i].kind);
        }
        i := i + 1;
      }
      return None;
    }

    /** match(typ): pops the first token when `typ` is None or the first token's type, and
        returns its text; otherwise a CMakeParseError. Popping from no tokens is an
        IndexError. */
    method Match(typ: Option<Kind>) returns (r: Result<string, PyError>)
      modifies this
      ensures contents == old(contents) && nextId == old(nextId)
      ensures typ.Some? && TypeOf(old(tokens)) != typ ==> r == Err(ParseError) && tokens == old(tokens)
      ensures typ.None? && old(tokens) == [] ==> r == Err(IndexError)
      ensures (typ.None? || TypeOf(old(tokens)) == typ) && old(tokens) != [] ==>
        r == Ok(old(tokens)[0].text) && tokens == old(tokens)[1..]
    {
      if typ.None? || GetType() == typ {
        if |tokens| == 0 {
          return Err(IndexError);
        }
        var tok := tokens[0];
        tokens := tokens[1..];
        return Ok(tok.text);
      }
      return Err(ParseError);
    }

    /** The loop `while self.get_type() in kinds: s += self.match()`: pops the run of tokens
        whose types are in `kinds` and returns their text. */
    method SkipRun(kinds: set<Kind>) returns (s: string)
      modifies this
      ensures contents == old(contents) && nextId == old(nextId)
      ensures SuffixOf(tokens, old(tokens)) && |old(tokens)| - |tokens| == Run(old(tokens), kinds)
      ensures s == Consumed(old(tokens), tokens)
    {
      ghost var t := tokens;
      s := "";
      while IsOf(GetType(), kinds)
        invariant SuffixOf(tokens, t) && |t| - |tokens| <= Run(t, kinds)
        invariant s == Consumed(t, tokens)
        invariant contents == old(contents) && nextId == old(nextId)
        decreases |tokens|
      {
        ConsumedStep(t, tokens);
        var m := Match(None);
        s := s + m.value;
      }
      RunStops(t, kinds, tokens);
    }

    /** The value loop of parse_section: the values, the delimiters, the pending whitespace
        and the text popped. */
    method ValueLoop() returns (r: Result<(seq<string>, set<string>, string, string), PyError>)
      modifies this
      ensures contents == old(contents) && nextId == old(nextId)
      ensures Values(old(tokens), [], {}, "").Err? ==> r == Err(IndexError)
      ensures Values(old(tokens), [], {}, "").Ok? ==>
        r.Ok? && Values(old(tokens), [], {}, "").value == (r.value.0, r.value.1, r.value.2, tokens)
        && r.value.3 == Consumed(old(tokens), tokens)
    {
      ghost var t := tokens;
      var values: seq<string> := [];
      var delims: set<string> := {};
      var current := "";
      var original := "";
      var nr := NextRealType();
      while !IsOf(nr, SectionEnd)
        invariant SuffixOf(tokens, t) && nr == NextReal(tokens)
        invariant Values(tokens, values, delims, current) == Values(t, [], {}, "")
        invariant original == Consumed(t, tokens)
        invariant contents == old(contents) && nextId == old(nextId)
        decreases |tokens|
      {
        var typ := GetType();
        ConsumedStep(t, tokens);
        if IsOf(typ, AllWhitespace) {
          var m := Match(None);
          var token := m.value;
          original := original + token;
          current := current + token;
        } else {
          if |current| > 0 {
            delims := delims + {current};
          }
          current := "";
          var token :- Match(None);
          original := original + token;
          values := values + [token];
        }
        nr := NextRealType();
      }
      r := Ok((values, delims, current, original));
    }

    /** The head of parse_section (cmake_parser.py:140-154): the prename, then a caps name
        and the name_val_sep after it; returns them with the text popped. */
    method SectionHead() returns (prename: string, cat: string, nameValSep: string, original: string, ghost n: nat)
      modifies this
      ensures contents == old(contents) && nextId == old(nextId)
      ensures n == Run(old(tokens), NotReal) && prename == Concat(Texts(old(tokens)[..n]))
      ensures SuffixOf(tokens, old(tokens)) && original == Consumed(old(tokens), tokens)
      ensures TypeOf(old(tokens)[n..]) == Some(Caps) ==>
        cat == old(tokens)[n].text
        && var u := old(tokens)[n + 1..];
           var m := Run(u, AllWhitespace);
           tokens == u[m..] && nameValSep == NameValSep(Concat(Texts(u[..m])))
      ensures TypeOf(old(tokens)[n..]) != Some(Caps) ==> cat == "" && nameValSep == " " && tokens == old(tokens)[n..]
    {
      ghost var t := tokens;
      prename := SkipRun(NotReal);
      original := prename;
      n := |t| - |tokens|;
      cat := "";
      nameValSep := " ";
      if GetType() == Some(Caps) {
        ghost var a := tokens;
        ConsumedStep(t, a);
        var m := Match(Some(Caps));
        cat := m.value;
        original := original + cat;
        ghost var u := tokens;
        assert u == t[n + 1..];
        var blanks := SkipRun(AllWhitespace);
        ConsumedTrans(t, u, tokens);
        original := original + blanks;
        nameValSep := blanks;
        if |nameValSep| == 0 {
          nameValSep := " ";
        }
      }
    }

    /** parse_section: the Section and the original text it was read from. */
    method ParseSection() returns (r: Result<(Section, string), PyError>)
      modifies this
      ensures contents == old(contents) && nextId == old(nextId)
      ensures SectionSpec(old(tokens)).Err? ==> r == Err(SectionSpec(old(tokens)).error)
      ensures SectionSpec(old(tokens)).Ok? ==>
        r.Ok? && SectionFits(r.value.0, SectionSpec(old(tokens)).value.0)
        && tokens == SectionSpec(old(tokens)).value.1 && r.value.1 == Consumed(old(tokens), tokens)
    {
      ghost var t := tokens;
      var prename, cat, nameValSep, original, n := SectionHead();
      SectionSpecFrom(t, n, prename, cat, nameValSep, tokens);
      ghost var v0 := tokens;
      var tail :- SectionTail(cat, prename, nameValSep);
      ConsumedTrans(t, v0, tokens);
      r := Ok((tail.0, original + tail.1));
    }

    /** The rest of parse_section (cmake_parser.py:156-182) once the head has been read: the
        value loop, and the section it builds. */
    method SectionTail(cat: string, prename: string, nameValSep: string) returns (r: Result<(Section, string), PyError>)
      modifies this
      ensures contents == old(contents) && nextId == old(nextId)
      ensures var spec := SectionFrom(Values(old(tokens), [], {}, ""), cat, prename, nameValSep);
        (spec.Err? ==> r == Err(spec.error))
        && (spec.Ok? ==>
              r.Ok? && SectionFits(r.value.0, spec.value.0) && tokens == spec.value.1
              && SuffixOf(tokens, old(tokens)) && r.value.1 == Consumed(old(tokens), tokens))
    {
      var v :- ValueLoop();
      var values, delims, current := v.0, v.1, v.2;
      if |current| > 0 {
        delims := delims + {current};
      }
      var valSep := " ";
      if |delims| > 0 {
        valSep :| valSep in delims;
      }
      r := Ok((Section(cat, values, Own(SectionStyle(prename, nameValSep, valSep))), v.3));
    }

    /** A round of the section loop that reads a section: the section joins the items, its
        text joins the original. */
    method BodySection(ghost t: seq<Token>, ghost depth: nat, ghost items: seq<ItemParse>,
                       sections: seq<SectionItem>, original: string)
      returns (r: Result<(seq<SectionItem>, string), PyError>, ghost items': seq<ItemParse>)
      modifies this
      requires depth >= 1 && tokens != [] && IsOf(NextReal(tokens), SectionStart)
      requires SuffixOf(tokens, t) && original == Consumed(t, tokens) && ItemsFit(sections, items)
      ensures contents == old(contents) && nextId == old(nextId)
      ensures r.Err? ==> Body(old(tokens), depth, items) == Err(r.error)
      ensures r.Ok? ==>
        SuffixOf(tokens, t) && r.value.1 == Consumed(t, tokens) && ItemsFit(r.value.0, items')
        && Body(tokens, depth, items') == Body(old(tokens), depth, items) && |tokens| < |old(tokens)|
    {
      ghost var before := tokens;
      BodyUnfoldSection(tokens, depth, items);
      SectionShrinks(before);
      items' := items;
      var sec :- ParseSection();
      ConsumedTrans(t, before, tokens);
      ItemsFitSnoc(sections, items, Sec(sec.0), SectionP(SectionSpec(before).value.0));
      items' := items + [SectionP(SectionSpec(before).value.0)];
      r := Ok((sections + [Sec(sec.0)], original + sec.1));
    }

    /** A round of the section loop that pops one token: a parenthesis changes the depth and
        the closing one at depth 1 ends the loop; any other token joins the items as a string. */
    method BodyToken(ghost t: seq<Token>, depth: nat, ghost items: seq<ItemParse>,
                     sections: seq<SectionItem>, original: string)
      returns (done: bool, sections': seq<SectionItem>, original': string, depth': nat, ghost items': seq<ItemParse>)
      modifies this
      requires depth >= 1 && tokens != [] && !IsOf(NextReal(tokens), SectionStart)
      requires SuffixOf(tokens, t) && original == Consumed(t, tokens) && ItemsFit(sections, items)
      ensures contents == old(contents) && nextId == old(nextId)
      ensures SuffixOf(tokens, t) && original' == Consumed(t, tokens) && ItemsFit(sections', items')
      ensures done ==> Body(old(tokens), depth, items) == Ok((items', tokens))
      ensures !done ==>
        depth' >= 1 && Body(tokens, depth', items') == Body(old(tokens), depth, items) && |tokens| < |old(tokens)|
    {
      BodyUnfoldToken(tokens, depth, items);
      ConsumedStep(t, tokens);
      var tok := tokens[0];
      tokens := tokens[1..];
      original' := original + tok.text;
      sections', items', depth', done := sections, items, depth, false;
      if tok.kind == RightParen {
        if depth == 1 {
          done := true;
        } else {
          depth' := depth - 1;
        }
      } else if tok.kind == LeftParen {
        depth' := depth + 1;
      } else {
        ItemsFitSnoc(sections, items, Fragment(tok.text), FragmentP(tok.text));
        sections' := sections + [Fragment(tok.text)];
        items' := items + [FragmentP(tok.text)];
      }
    }

    /** The section loop of parse_command from parenthesis depth 1: the sections and raw
        strings, and the text popped up to and including the closing parenthesis. */
    method CommandBody() returns (r: Result<(seq<SectionItem>, string), PyError>)
      modifies this
      ensures contents == old(contents) && nextId == old(nextId)
      ensures Body(old(tokens), 1, []).Err? ==> r == Err(Body(old(tokens), 1, []).error)
      ensures Body(old(tokens), 1, []).Ok? ==>
        r.Ok? && ItemsFit(r.value.0, Body(old(tokens), 1, []).value.0)
        && tokens == Body(old(tokens), 1, []).value.1 && SuffixOf(tokens, old(tokens))
        && r.value.1 == Consumed(old(tokens), tokens)
    {
      ghost var t := tokens;
      var original := "";
      var sections: seq<SectionItem> := [];
      ghost var items: seq<ItemParse> := [];
      var parenDepth: nat := 1;
      while |tokens| > 0
        invariant SuffixOf(tokens, t) && original == Consumed(t, tokens)
        invariant parenDepth >= 1 && Body(tokens, parenDepth, items) == Body(t, 1, [])
        invariant ItemsFit(sections, items)
        invariant contents == old(contents) && nextId == old(nextId)
        decreases |tokens|
      {
        var typ := NextRealType();
        if IsOf(typ, SectionStart) {
          ghost var items';
          var step;
          step, items' := BodySection(t, parenDepth, items, sections, original);
          if step.Err? {
            return Err(step.error);
          }
          sections, original, items := step.value.0, step.value.1, items';
        } else {
          ghost var items';
          var done;
          done, sections, original, parenDepth, items' := BodyToken(t, parenDepth, items, sections, original);
          items := items';
          if done {
            return Ok((sections, original));
          }
        }
      }
      return Err(ParseError);
    }

    /** parse_command: the first token is the name; a new Command object (with the next
        identity) gets the blanks before '(' as pre_paren, the sections and raw strings of
        the section loop, and the text popped as its original. */
    method ParseCommand() returns (r: Result<Command, PyError>)
      modifies this
      ensures contents == old(contents)
      ensures old(tokens) != [] ==> nextId == old(nextId) + 1
      ensures CommandSpec(old(tokens)).Err? ==> r == Err(CommandSpec(old(tokens)).error)
      ensures CommandSpec(old(tokens)).Ok? ==>
        r.Ok? && CommandFits(r.value, CommandSpec(old(tokens)).value.0) && r.value.id == old(nextId)
        && tokens == CommandSpec(old(tokens)).value.1
    {
      ghost var t := tokens;
      ConsumedStep(t, tokens);
      var commandName :- Match(None);
      var original := commandName;
      var cmd := NewCommand(nextId, commandName);
      nextId := nextId + 1;
      ghost var a := tokens;
      var preParen := SkipRun({Whitespace});
      ConsumedTrans(t, a, tokens);
      original := original + preParen;
      ghost var w := |a| - |tokens|;
      assert tokens == t[1 + w..];
      ConsumedStep(t, tokens);
      var lp :- Match(Some(LeftParen));
      original := original + lp;
      ghost var b0 := tokens;
      assert b0 == t[2 + w..];
      assert a[..w] == t[1..1 + w];
      CommandSpecFrom(t, w, Body(b0, 1, []));
      var body :- CommandBody();
      ConsumedTrans(t, b0, tokens);
      original := original + body.1;
      return Ok(cmd.(preParen := preParen, sections := body.0, original := Some(original)));
    }

    /** The token loop of AwesomeParser.__init__: comments, newlines and whitespace become raw
        strings, words and caps words commands, and any other token is an Exception. */
    method ParseContents() returns (r: Result<(), PyError>)
      modifies this
      ensures old(nextId) <= nextId
      ensures TopLevel(old(tokens), []).Err? ==> r == Err(TopLevel(old(tokens), []).error)
      ensures TopLevel(old(tokens), []).Ok? ==>
        r.Ok? && tokens == [] && ContentsFit(contents, TopLevel(old(tokens), []).value)
        && nextId <= old(nextId) + |contents| && IdsIn(contents, old(nextId), nextId)
    {
      ghost var t := tokens;
      ghost var acc: seq<ContentParse> := [];
      contents := [];
      while |tokens| > 0
        invariant TopLevel(tokens, acc) == TopLevel(t, [])
        invariant ContentsFit(contents, acc)
        invariant old(nextId) <= nextId <= old(nextId) + |contents| && IdsIn(contents, old(nextId), nextId)
        decreases |tokens|
      {
        var typ := GetType();
        TopLevelUnfold(tokens, acc);
        if typ == Some(Comment) || typ == Some(Newline) || typ == Some(Whitespace) {
          var m := Match(typ);
          IdsInSnoc(contents, Raw(m.value), old(nextId), nextId);
          ContentsFitSnoc(contents, acc, Raw(m.value), RawP(m.value));
          contents := contents + [Raw(m.value)];
          acc := acc + [RawP(m.value)];
        } else if typ == Some(Word) || typ == Some(Caps) {
          ghost var before := tokens;
          var cmd :- ParseCommand();
          IdsInSnoc(contents, Cmd(cmd), old(nextId), nextId - 1);
          ContentsFitSnoc(contents, acc, Cmd(cmd), CommandP(CommandSpec(before).value.0));
          contents := contents + [Cmd(cmd)];
          acc := acc + [CommandP(CommandSpec(before).value.0)];
        } else {
          return Err(GenericException);
        }
      }
      return Ok(());
    }
  }

  // ---------------------------------------------------------------------------------------
  // Entry points (cmake_parser.py:205-215)

  /** Scanning and the top-level loop: the items read from `s`. */
  function ParseSpec(s: string): Result<seq<ContentParse>, PyError>
  {
    var toks :- Lex(s);
    TopLevel(toks, [])
  }

  /** parse_commands: the items of `s`, before grouping (`raw`) and after it (the result).
      The new Command objects get the identities from `firstId` on, in document order. */
  method ParseCommands(s: string, firstId: nat) returns (r: Result<seq<Content>, PyError>, ghost raw: seq<Content>)
    ensures ParseSpec(s).Err? ==> r == Err(ParseSpec(s).error)
    ensures ParseSpec(s).Ok? ==>
      r.Ok? && ContentsFit(raw, ParseSpec(s).value) && r.value == MatchGroups(raw, 0)
      && IdsIn(raw, firstId, firstId + |raw|) && IdsIn(r.value, firstId, firstId + |raw|)
  {
    raw := [];
    var toks :- Lex(s);
    var parser := new AwesomeParser(toks, firstId);
    var parsed := parser.ParseContents();
    if parsed.Err? {
      return Err(parsed.error), raw;
    }
    raw := parser.contents;
    parser.contents := MatchCommandGroups(parser.contents, 0);
    MatchGroupsIds(raw, 0, firstId, firstId + |raw|);
    return Ok(parser.contents), raw;
  }

  /** parse_command: the one item of `s`; anything but exactly one item after grouping fails
      the assertion. */
  method ParseOneCommand(s: string, id: nat) returns (r: Result<Content, PyError>, ghost raw: seq<Content>)
    ensures ParseSpec(s).Err? ==> r == Err(ParseSpec(s).error)
    ensures ParseSpec(s).Ok? ==>
      ContentsFit(raw, ParseSpec(s).value)
      && if |MatchGroups(raw, 0)| == 1 then r == Ok(MatchGroups(raw, 0)[0]) else r == Err(AssertionError)
  {
    var contents;
    contents, raw := ParseCommands(s, id);
    var cs :- contents;
    if |cs| != 1 {
      return Err(AssertionError), raw;
    }
    return Ok(cs[0]), raw;
  }

  /** Parsing keeps every character: the items read from `s` print back as `s`, and the
      grouped items print back as `s` exactly when every `if` and `foreach` is closed. */
  lemma ParseRoundTrip(s: string, raw: seq<Content>, shared: SectionStyle)
    requires ParseSpec(s).Ok? && ContentsFit(raw, ParseSpec(s).value)
    ensures ContentsText(raw, shared) == Some(s)
    ensures Closed(raw) <==> ContentsText(MatchGroups(raw, 0), shared) == Some(s)
  {
    var toks := Lex(s).value;
    LexTokensOk(s);
    TopLevelText(toks, []);
    assert ParsedText([]) + Concat(Texts(toks)) == s;
    FitText(raw, ParseSpec(s).value, shared);
    MatchGroupsText(raw, 0, shared);
  }
}
