/** The token scanner of ros_introspection/cmake_parser.py:7-27: a `re.Scanner` over seven
    patterns, tried in order at each position (the first that matches wins, each matching as
    much as it can), which stops where none matches. */
module CMakeLexer {
  import opened Base
  import opened Str

  /** The token types the scanner's callbacks emit: 'comment', 'string', 'left paren',
      'right paren', 'word' or 'caps' (word_cb), 'newline' and 'whitespace'. */
  datatype Kind = Comment | Quoted | LeftParen | RightParen | Word | Caps | Newline | Whitespace

  datatype Token = Token(kind: Kind, text: string)

  /** A character of `[^ \t\r\n()#"]`. */
  predicate WordChar(c: char)
  {
    c != ' ' && c != '\t' && c != '\r' && c != '\n' && c != '(' && c != ')' && c != '#' && c != '"'
  }

  /** A character of `[ \t]`. */
  predicate BlankChar(c: char) { c == ' ' || c == '\t' }

  predicate CapsChar(c: char) { ('A' <= c <= 'Z') || c == '_' }

  /** ALL_CAPS = '^[A-Z_]+$' */
  predicate AllCaps(s: string) { |s| > 0 && forall i :: 0 <= i < |s| ==> CapsChar(s[i]) }

  /** The length of the longest run of word characters that starts `s`. */
  function WordRun(s: string): (n: nat)
    ensures n <= |s|
    ensures forall i :: 0 <= i < n ==> WordChar(s[i])
    ensures n < |s| ==> !WordChar(s[n])
  {
    if s == [] || !WordChar(s[0]) then 0 else 1 + WordRun(s[1..])
  }

  /** The length of the longest run of spaces and tabs that starts `s`. */
  function BlankRun(s: string): (n: nat)
    ensures n <= |s|
    ensures forall i :: 0 <= i < n ==> BlankChar(s[i])
    ensures n < |s| ==> !BlankChar(s[n])
  {
    if s == [] || !BlankChar(s[0]) then 0 else 1 + BlankRun(s[1..])
  }

  /** The position of the first `c` in `s`. */
  function IndexOfChar(s: string, c: char): (r: Option<nat>)
    ensures r.Some? ==> r.value < |s| && s[r.value] == c && c !in s[..r.value]
    ensures r.None? <==> c !in s
  {
    if s == [] then None
    else if s[0] == c then Some(0)
    else
      match IndexOfChar(s[1..], c)
      case None => None
      case Some(j) =>
        assert s[..j + 1] == [s[0]] + s[1..][..j];
        Some(j + 1)
  }

  /** word_cb: a run of word characters is 'caps' exactly when it matches ALL_CAPS. */
  function WordToken(w: string): (t: Token)
    ensures t.text == w && (t.kind == Caps <==> AllCaps(w)) && (t.kind == Word || t.kind == Caps)
  {
    if AllCaps(w) then Token(Caps, w) else Token(Word, w)
  }

  /** No pattern matches at the start of `s`: a carriage return (which no pattern admits), a
      '#' with no newline after it, or a '"' with no closing quote. */
  predicate Stuck(s: string)
    requires s != []
  {
    s[0] == '\r' || (s[0] == '#' && '\n' !in s) || (s[0] == '"' && '"' !in s[1..])
  }

  /** What each pattern accepts, with the type its callback gives it. */
  predicate TokenOk(t: Token)
  {
    match t.kind
    case Comment =>
      |t.text| >= 2 && t.text[0] == '#' && t.text[|t.text| - 1] == '\n' && '\n' !in t.text[..|t.text| - 1]
    case Quoted =>
      |t.text| >= 2 && t.text[0] == '"' && t.text[|t.text| - 1] == '"' && '"' !in t.text[1..|t.text| - 1]
    case LeftParen => t.text == "("
    case RightParen => t.text == ")"
    case Word => |t.text| > 0 && (forall i :: 0 <= i < |t.text| ==> WordChar(t.text[i])) && !AllCaps(t.text)
    case Caps => AllCaps(t.text)
    case Newline => t.text == "\n"
    case Whitespace => |t.text| > 0 && forall i :: 0 <= i < |t.text| ==> BlankChar(t.text[i])
  }

  /** The token the scanner takes at the start of `s`: the first pattern, in the listed
      order, that matches there. */
  function NextToken(s: string): (r: Option<Token>)
    requires s != []
    ensures r.None? <==> Stuck(s)
    ensures r.Some? ==> 0 < |r.value.text| <= |s| && s[..|r.value.text|] == r.value.text
  {
    var c := s[0];
    if c == '#' then
      match IndexOfChar(s, '\n')
      case Some(j) => Some(Token(Comment, s[..j + 1]))
      case None => None
    else if c == '"' then
      match IndexOfChar(s[1..], '"')
      case Some(j) => Some(Token(Quoted, s[..j + 2]))
      case None => None
    else if c == '(' then Some(Token(LeftParen, "("))
    else if c == ')' then Some(Token(RightParen, ")"))
    else if WordChar(c) then Some(WordToken(s[..WordRun(s)]))
    else if c == '\n' then Some(Token(Newline, "\n"))
    else if BlankChar(c) then Some(Token(Whitespace, s[..BlankRun(s)]))
    else None
  }

  /** The token taken is one its pattern accepts. */
  lemma NextTokenOk(s: string)
    requires s != [] && NextToken(s).Some?
    ensures TokenOk(NextToken(s).value)
  {
    if s[0] == '#' {
      CommentOk(s, IndexOfChar(s, '\n').value);
    } else if s[0] == '"' {
      QuotedOk(s, IndexOfChar(s[1..], '"').value);
    } else if WordChar(s[0]) {
      WordOk(s);
    } else if BlankChar(s[0]) {
      BlankOk(s);
    }
  }

  /** A word or caps token is taken exactly when `s` starts with a word character and is its
      whole run, a whitespace token exactly when `s` starts with a blank and is its whole run;
      a comment runs to the first newline and a quoted string to the first closing quote. */
  lemma NextTokenShape(s: string)
    requires s != []
    ensures var r := NextToken(s);
      (r.Some? && Wordy(r.value) ==> |r.value.text| == WordRun(s))
      && (r.Some? && r.value.kind == Whitespace ==> |r.value.text| == BlankRun(s))
      && (r.Some? && r.value.kind == Comment ==> |r.value.text| == IndexOfChar(s, '\n').value + 1)
      && (r.Some? && r.value.kind == Quoted ==> |r.value.text| == IndexOfChar(s[1..], '"').value + 2)
      && (r.Some? && Wordy(r.value) <==> WordChar(s[0]))
      && (r.Some? && r.value.kind == Whitespace <==> BlankChar(s[0]))
  {
  }

  lemma CommentOk(s: string, j: nat)
    requires s != [] && s[0] == '#' && IndexOfChar(s, '\n') == Some(j)
    ensures TokenOk(Token(Comment, s[..j + 1]))
  {
    assert s[..j + 1][..j] == s[..j];
  }

  lemma QuotedOk(s: string, j: nat)
    requires s != [] && s[0] == '"' && IndexOfChar(s[1..], '"') == Some(j)
    ensures TokenOk(Token(Quoted, s[..j + 2]))
  {
    assert s[..j + 2][1..j + 1] == s[1..][..j];
  }

  lemma WordOk(s: string)
    requires s != [] && WordChar(s[0])
    ensures TokenOk(WordToken(s[..WordRun(s)]))
  {
    var w := s[..WordRun(s)];
    assert forall i :: 0 <= i < |w| ==> WordChar(w[i]);
  }

  lemma BlankOk(s: string)
    requires s != [] && BlankChar(s[0])
    ensures TokenOk(Token(Whitespace, s[..BlankRun(s)]))
  {
    var w := s[..BlankRun(s)];
    assert forall i :: 0 <= i < |w| ==> BlankChar(w[i]);
  }

  /** The texts of a token list. */
  function Texts(toks: seq<Token>): (r: seq<string>)
    ensures |r| == |toks| && forall i :: 0 <= i < |toks| ==> r[i] == toks[i].text
  {
    if toks == [] then [] else [toks[0].text] + Texts(toks[1..])
  }

  /** `scanner.scan(s)`: the tokens and the unscanned remainder. */
  function Scan(s: string): (r: (seq<Token>, string))
    ensures r.1 == [] || Stuck(r.1)
    decreases |s|
  {
    if s == [] then ([], [])
    else
      match NextToken(s)
      case None => ([], s)
      case Some(t) =>
        var rest := Scan(s[|t.text|..]);
        ([t] + rest.0, rest.1)
  }

  /** The tokens' texts, followed by the remainder, are the scanned text. */
  lemma {:induction false} ScanConcat(s: string)
    ensures Concat(Texts(Scan(s).0)) + Scan(s).1 == s
    decreases |s|
  {
    if s != [] && NextToken(s).Some? {
      var t := NextToken(s).value;
      ScanUnfold(s, t);
      ScanConcat(s[|t.text|..]);
      ScanCons(s, t, Scan(s[|t.text|..]).0, Scan(s[|t.text|..]).1);
    }
  }

  lemma ScanCons(s: string, t: Token, ts: seq<Token>, rem: string)
    requires |t.text| <= |s| && s[..|t.text|] == t.text
    requires Concat(Texts(ts)) + rem == s[|t.text|..]
    ensures Concat(Texts([t] + ts)) + rem == s
  {
    assert Texts([t] + ts) == [t.text] + Texts(ts);
    assert s == t.text + s[|t.text|..];
  }

  /** AwesomeParser.__init__'s scan: the tokens, or the ValueError a non-empty remainder
      raises. */
  function Lex(s: string): (r: Result<seq<Token>, PyError>)
    ensures r.Ok? ==> Concat(Texts(r.value)) == s
    ensures r.Err? ==> r.error == ValueError
  {
    ScanConcat(s);
    var (toks, rem) := Scan(s);
    if rem != [] then Err(ValueError) else Ok(toks)
  }

  /** Every token is one the pattern of its type accepts. */
  lemma {:induction false} ScanTokensOk(s: string)
    ensures forall t :: t in Scan(s).0 ==> TokenOk(t)
    decreases |s|
  {
    if s != [] && NextToken(s).Some? {
      var t := NextToken(s).value;
      NextTokenOk(s);
      ScanUnfold(s, t);
      ScanTokensOk(s[|t.text|..]);
    }
  }

  /** The scan succeeds exactly when it reaches the end of the text. */
  lemma LexTokensOk(s: string)
    ensures Lex(s).Ok? ==> forall t :: t in Lex(s).value ==> TokenOk(t)
    ensures Lex(s).Err? <==> Scan(s).1 != []
  {
    ScanTokensOk(s);
  }

  // ---------------------------------------------------------------------------------------
  // Properties of the scan

  /** A token is a word or caps run. */
  predicate Wordy(t: Token) { t.kind == Word || t.kind == Caps }

  /** The token after a word run is no word run, and the token after a blank run no blank
      run. */
  lemma AfterRun(s: string)
    requires s != [] && NextToken(s).Some?
    ensures var t := NextToken(s).value;
      var s' := s[|t.text|..];
      s' != [] && NextToken(s').Some? ==>
        !(Wordy(t) && Wordy(NextToken(s').value)) && !(t.kind == Whitespace && NextToken(s').value.kind == Whitespace)
  {
  }

  /** Each pattern matches as much as it can: a word run never follows a word run, nor a run
      of blanks a run of blanks. */
  lemma {:induction false} ScanMaximal(s: string)
    ensures forall i :: 0 <= i < |Scan(s).0| - 1 ==>
      !(Wordy(Scan(s).0[i]) && Wordy(Scan(s).0[i + 1]))
      && !(Scan(s).0[i].kind == Whitespace && Scan(s).0[i + 1].kind == Whitespace)
    decreases |s|
  {
    if s != [] && NextToken(s).Some? {
      var t := NextToken(s).value;
      var s' := s[|t.text|..];
      ScanMaximal(s');
      AfterRun(s);
      var ts := Scan(s').0;
      assert Scan(s).0 == [t] + ts;
      if ts != [] {
        assert NextToken(s') == Some(ts[0]);
      }
    }
  }

  /** A character that ends any word or blank run. */
  predicate Breaker(c: char) { !WordChar(c) && !BlankChar(c) }

  /** The token at the start of `s` is also the token at the start of `s + x` when `x`
      starts with a character that cannot extend it. */
  lemma NextTokenExtend(s: string, x: string)
    requires s != [] && NextToken(s).Some? && x != [] && Breaker(x[0])
    ensures NextToken(s + x) == NextToken(s)
  {
    var t := NextToken(s).value;
    var n := |t.text|;
    var sx := s + x;
    assert sx[..n] == s[..n];
    assert sx[0] == s[0];
    if Wordy(t) {
      WordRunPrefix(s, x, n);
    } else if t.kind == Whitespace {
      BlankRunPrefix(s, x, n);
    } else if t.kind == Comment {
      IndexOfCharPrefix(s, x, '\n');
    } else if t.kind == Quoted {
      assert sx[1..] == s[1..] + x;
      IndexOfCharPrefix(s[1..], x, '"');
    }
  }

  lemma ScanUnfold(s: string, t: Token)
    requires s != [] && NextToken(s) == Some(t)
    ensures Scan(s) == ([t] + Scan(s[|t.text|..]).0, Scan(s[|t.text|..]).1)
  {
  }

  /** Scanning continues past the end of a text that scans completely, when what follows
      cannot extend the last token. */
  lemma {:induction false} ScanAppend(s: string, x: string)
    requires Scan(s).1 == [] && x != [] && Breaker(x[0])
    ensures Scan(s + x) == (Scan(s).0 + Scan(x).0, Scan(x).1)
    decreases |s|
  {
    if s == [] {
      assert s + x == x;
      assert Scan(s).0 == [];
      assert Scan(s).0 + Scan(x).0 == Scan(x).0;
    } else {
      var t := NextToken(s).value;
      var n := |t.text|;
      NextTokenExtend(s, x);
      ScanUnfold(s, t);
      ScanAppend(s[n..], x);
      ScanAppendCons(s, x, t);
    }
  }

  lemma ScanAppendCons(s: string, x: string, t: Token)
    requires s != [] && NextToken(s) == Some(t) && NextToken(s + x) == Some(t)
    requires Scan(s[|t.text|..] + x) == (Scan(s[|t.text|..]).0 + Scan(x).0, Scan(x).1)
    ensures Scan(s + x) == (Scan(s).0 + Scan(x).0, Scan(x).1)
  {
    var s' := s[|t.text|..];
    ScanUnfold(s, t);
    ScanUnfoldAppend(s, x, t);
    ConsStep(t, Scan(s), Scan(s'), Scan(x), Scan(s + x), Scan(s' + x));
  }

  lemma ScanUnfoldAppend(s: string, x: string, t: Token)
    requires |t.text| <= |s| && s + x != [] && NextToken(s + x) == Some(t)
    ensures Scan(s + x) == ([t] + Scan(s[|t.text|..] + x).0, Scan(s[|t.text|..] + x).1)
  {
    assert (s + x)[|t.text|..] == s[|t.text|..] + x;
    ScanUnfold(s + x, t);
  }

  lemma ConsStep<T, U>(t: T, a: (seq<T>, U), b: (seq<T>, U), c: (seq<T>, U), d: (seq<T>, U), e: (seq<T>, U))
    requires a == ([t] + b.0, b.1) && d == ([t] + e.0, e.1) && e == (b.0 + c.0, c.1)
    ensures d == (a.0 + c.0, c.1)
  {
    assert [t] + (b.0 + c.0) == ([t] + b.0) + c.0;
  }

  lemma {:induction false} WordRunPrefix(s: string, x: string, n: nat)
    requires n == WordRun(s) && (n < |s| || (x != [] && !WordChar(x[0])))
    ensures WordRun(s + x) == n
    decreases |s|
  {
    if s != [] && WordChar(s[0]) {
      assert (s + x)[1..] == s[1..] + x;
      WordRunPrefix(s[1..], x, n - 1);
    }
  }

  lemma {:induction false} BlankRunPrefix(s: string, x: string, n: nat)
    requires n == BlankRun(s) && (n < |s| || (x != [] && !BlankChar(x[0])))
    ensures BlankRun(s + x) == n
    decreases |s|
  {
    if s != [] && BlankChar(s[0]) {
      assert (s + x)[1..] == s[1..] + x;
      BlankRunPrefix(s[1..], x, n - 1);
    }
  }

  lemma {:induction false} IndexOfCharPrefix(s: string, x: string, c: char)
    requires c in s
    ensures IndexOfChar(s + x, c) == IndexOfChar(s, c)
    decreases |s|
  {
    if s[0] != c {
      assert (s + x)[1..] == s[1..] + x;
      IndexOfCharPrefix(s[1..], x, c);
    }
  }

  /** After text that scans completely, a '#' with no newline after it is rejected. */
  lemma LexRejectsOpenComment(s: string, c: string)
    requires Lex(s).Ok? && '\n' !in c
    ensures Lex(s + "#" + c).Err?
  {
    var x := "#" + c;
    assert s + "#" + c == s + x;
    assert x[0] == '#' && '\n' !in x;
    ScanStuck(x);
    ScanAppend(s, x);
  }

  lemma ScanStuck(x: string)
    requires x != [] && Stuck(x)
    ensures Scan(x) == ([], x)
  {
  }

  /** After text that scans completely, a carriage return is rejected. */
  lemma LexRejectsCarriageReturn(s: string, x: string)
    requires Lex(s).Ok?
    ensures Lex(s + "\r" + x).Err?
  {
    var y := "\r" + x;
    assert s + "\r" + x == s + y;
    ScanStuck(y);
    ScanAppend(s, y);
  }
}
