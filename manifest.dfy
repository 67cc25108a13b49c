/** The package.xml clean-ups of roscompile/manifest.py: tag ordering, indentation, merging of
    text nodes, blank-line removal, replacing dependency tags and the default license. They work
    on the children of the `<package>` root held by PackageXmlDoc.PackageXML. */
module Manifest {
  import opened Base
  import opened Str
  import opened PackageXml
  import opened PackageXmlDoc
  import LegacyUtil

  // ---------------------------------------------------------------------------------------
  // get_sort_key (manifest.py:109-122)

  /** The key a chunk is sorted by: the ordering index, paired (with alphabetize_depends)
      with the package text of a dependency tag and None for any other node. Without
      alphabetize_depends Python's key is the bare index, which orders chunks exactly as the
      pair (index, None) does. */
  datatype SortKey = SortKey(index: nat, text: Option<string>)

  /** nodeName: the tag of an element, "#text" for a text node. */
  function NodeName(x: Node): string
  {
    if x.Element? then x.name else "#text"
  }

  /** get_sort_key(node, alphabetize_depends); the trailing text chunk has no node. */
  function SortKeyOf(node: Option<Node>, alphabetize: bool): SortKey
  {
    var index := if node.Some? then OrderingIndex(NodeName(node.value)) else |Ordering|;
    if alphabetize && node.Some? && node.value.Element? && Contains(node.value.name, "depend") then
      SortKey(index, Some(node.value.text))
    else SortKey(index, None)
  }

  /** Python 2 compares None below every string. */
  predicate OptLe(a: Option<string>, b: Option<string>)
  {
    a.None? || (b.Some? && Le(a.value, b.value))
  }

  /** Python's comparison of two keys, position by position. */
  predicate KeyLe(a: SortKey, b: SortKey)
  {
    a.index < b.index || (a.index == b.index && OptLe(a.text, b.text))
  }

  predicate Equiv(a: SortKey, b: SortKey)
  {
    KeyLe(a, b) && KeyLe(b, a)
  }

  lemma KeyLeTotal(a: SortKey, b: SortKey)
    ensures KeyLe(a, b) || KeyLe(b, a)
  {
    if a.text.Some? && b.text.Some? {
      LeTotal(a.text.value, b.text.value);
    }
  }

  lemma KeyLeTrans(a: SortKey, b: SortKey, c: SortKey)
    requires KeyLe(a, b) && KeyLe(b, c)
    ensures KeyLe(a, c)
  {
    if a.index == b.index == c.index && a.text.Some? && b.text.Some? && c.text.Some? {
      LeTrans(a.text.value, b.text.value, c.text.value);
    }
  }

  /** A tag earlier in ORDERING sorts first. */
  lemma SortKeyByIndex(a: Node, b: Node, alphabetize: bool)
    requires a.Element? && b.Element? && OrderingIndex(a.name) < OrderingIndex(b.name)
    ensures KeyLe(SortKeyOf(Some(a), alphabetize), SortKeyOf(Some(b), alphabetize))
    ensures !KeyLe(SortKeyOf(Some(b), alphabetize), SortKeyOf(Some(a), alphabetize))
  {
  }

  /** The trailing text chunk sorts after every tag that ORDERING lists. */
  lemma SortKeyTrailing(a: Node, alphabetize: bool)
    requires a.Element? && OrderingIndex(a.name) < |Ordering|
    ensures KeyLe(SortKeyOf(Some(a), alphabetize), SortKeyOf(None, alphabetize))
    ensures !KeyLe(SortKeyOf(None, alphabetize), SortKeyOf(Some(a), alphabetize))
  {
  }

  /** When alphabetizing, the elements of one dependency tag sort by package name; otherwise
      elements of one tag are tied, so they keep their order. */
  lemma SortKeyDepends(a: Node, b: Node, alphabetize: bool)
    requires a.Element? && b.Element? && a.name == b.name
    ensures alphabetize && Contains(a.name, "depend") ==>
      (KeyLe(SortKeyOf(Some(a), alphabetize), SortKeyOf(Some(b), alphabetize)) <==> Le(a.text, b.text))
    ensures !alphabetize || !Contains(a.name, "depend") ==>
      Equiv(SortKeyOf(Some(a), alphabetize), SortKeyOf(Some(b), alphabetize))
  {
  }

  // ---------------------------------------------------------------------------------------
  // get_chunks (manifest.py:125-138)

  /** An element and the text nodes before it, or (with no element) the trailing text. */
  type Chunk = (Option<Node>, seq<Node>)

  /** The loop of get_chunks: the chunks closed so far and the nodes of the open one. */
  function ChunkLoop(cs: seq<Node>): (seq<Chunk>, seq<Node>)
    decreases |cs|
  {
    if cs == [] then ([], [])
    else
      var (chunks, current) := ChunkLoop(cs[..|cs| - 1]);
      var x := cs[|cs| - 1];
      if x.Element? then (chunks + [(Some(x), current + [x])], []) else (chunks, current + [x])
  }

  /** get_chunks(children) */
  function Chunks(cs: seq<Node>): seq<Chunk>
  {
    var (chunks, current) := ChunkLoop(cs);
    if |current| > 0 then chunks + [(None, current)] else chunks
  }

  /** The nodes of the chunks, one chunk after the other. */
  function Flatten(chunks: seq<Chunk>): seq<Node>
  {
    if chunks == [] then [] else chunks[0].1 + Flatten(chunks[1..])
  }

  lemma {:induction false} FlattenSnoc(chunks: seq<Chunk>, c: Chunk)
    ensures Flatten(chunks + [c]) == Flatten(chunks) + c.1
  {
    if chunks == [] {
      assert Flatten([c]) == c.1 + Flatten([]);
    } else {
      assert (chunks + [c])[1..] == chunks[1..] + [c];
      FlattenSnoc(chunks[1..], c);
    }
  }

  lemma FlattenStep(chunks: seq<Chunk>, i: nat)
    requires i < |chunks|
    ensures Flatten(chunks[..i + 1]) == Flatten(chunks[..i]) + chunks[i].1
  {
    FlattenSnoc(chunks[..i], chunks[i]);
    assert chunks[..i + 1] == chunks[..i] + [chunks[i]];
  }

  /** A chunk is text nodes and then its element, or text only when it has no element. */
  predicate GoodChunk(c: Chunk)
  {
    |c.1| > 0 && (forall j :: 0 <= j < |c.1| - 1 ==> c.1[j].Text?) &&
    (if c.0.Some? then c.0.value.Element? && c.1[|c.1| - 1] == c.0.value else c.1[|c.1| - 1].Text?)
  }

  lemma ChunkLoopSpec(cs: seq<Node>)
    ensures var (chunks, current) := ChunkLoop(cs);
      Flatten(chunks) + current == cs &&
      (forall i :: 0 <= i < |chunks| ==> GoodChunk(chunks[i]) && chunks[i].0.Some?) &&
      forall j :: 0 <= j < |current| ==> current[j].Text?
  {
    ChunkLoopFlat(cs);
    ChunkLoopGood(cs);
  }

  /** The loop keeps every node once, in order. */
  lemma {:induction false} ChunkLoopFlat(cs: seq<Node>)
    ensures Flatten(ChunkLoop(cs).0) + ChunkLoop(cs).1 == cs
    decreases |cs|
  {
    if cs != [] {
      var prefix := cs[..|cs| - 1];
      var x := cs[|cs| - 1];
      ChunkLoopFlat(prefix);
      var (chunks, current) := ChunkLoop(prefix);
      assert cs == prefix + [x];
      if x.Element? {
        FlattenSnoc(chunks, (Some(x), current + [x]));
      }
    }
  }

  /** The loop closes only well-formed chunks with an element, and keeps text open. */
  lemma {:induction false} ChunkLoopGood(cs: seq<Node>)
    ensures GoodLoop(ChunkLoop(cs))
    decreases |cs|
  {
    if cs != [] {
      var prefix := cs[..|cs| - 1];
      ChunkLoopGood(prefix);
      var chunks, current := ChunkLoop(prefix).0, ChunkLoop(prefix).1;
      var x := cs[|cs| - 1];
      if x.Element? {
        ClosedGood(current, x);
      } else {
        assert forall j :: 0 <= j < |current| ==> (current + [x])[j] == current[j];
      }
    }
  }

  /** Closed chunks are well formed and have an element; the open one is text. */
  predicate GoodLoop(r: (seq<Chunk>, seq<Node>))
  {
    (forall i :: 0 <= i < |r.0| ==> GoodChunk(r.0[i]) && r.0[i].0.Some?) &&
    forall j :: 0 <= j < |r.1| ==> r.1[j].Text?
  }

  lemma ClosedGood(current: seq<Node>, x: Node)
    requires x.Element? && forall j :: 0 <= j < |current| ==> current[j].Text?
    ensures GoodChunk((Some(x), current + [x]))
  {
    assert forall j :: 0 <= j < |current| ==> (current + [x])[j] == current[j];
  }

  /** get_chunks partitions the children: the chunks hold every child once, in order; each
      chunk ends with its element after text nodes only, and only the last chunk may be the
      element-less trailing text. */
  lemma ChunksSpec(cs: seq<Node>)
    ensures Flatten(Chunks(cs)) == cs
    ensures forall i :: 0 <= i < |Chunks(cs)| ==> GoodChunk(Chunks(cs)[i])
    ensures forall i :: 0 <= i < |Chunks(cs)| - 1 ==> Chunks(cs)[i].0.Some?
  {
    ChunkLoopSpec(cs);
    var (chunks, current) := ChunkLoop(cs);
    if |current| > 0 {
      FlattenSnoc(chunks, (None, current));
    } else {
      assert Flatten(chunks) + current == Flatten(chunks);
    }
  }

  /** get_chunks */
  method GetChunks(children: seq<Node>) returns (chunks: seq<Chunk>)
    ensures chunks == Chunks(children)
  {
    chunks := [];
    var current: seq<Node> := [];
    for i := 0 to |children|
      invariant ChunkLoop(children[..i]) == (chunks, current)
    {
      assert children[..i + 1][..i] == children[..i];
      var child := children[i];
      current := current + [child];
      if child.Element? {
        chunks := chunks + [(Some(child), current)];
        current := [];
      }
    }
    assert children[..|children|] == children;
    if |current| > 0 {
      chunks := chunks + [(None, current)];
    }
  }

  // ---------------------------------------------------------------------------------------
  // enforce_manifest_ordering (manifest.py:141-149)

  /** The key function of enforce_manifest_ordering. */
  function ChunkKey(alphabetize: bool): Chunk -> SortKey
  {
    (c: Chunk) => SortKeyOf(c.0, alphabetize)
  }

  /** One step of a stable sort: the chunk goes before the first chunk with a greater key. */
  function InsertChunk(c: Chunk, s: seq<Chunk>, key: Chunk -> SortKey): seq<Chunk>
  {
    if s == [] then [c]
    else if !KeyLe(key(s[0]), key(c)) then [c] + s
    else [s[0]] + InsertChunk(c, s[1..], key)
  }

  /** `sorted(chunks, key=...)`: Python's sort is stable. */
  function SortChunks(chunks: seq<Chunk>, key: Chunk -> SortKey): seq<Chunk>
    decreases |chunks|
  {
    if chunks == [] then []
    else InsertChunk(chunks[|chunks| - 1], SortChunks(chunks[..|chunks| - 1], key), key)
  }

  /** The children after enforce_manifest_ordering. */
  function Ordered(cs: seq<Node>, alphabetize: bool): seq<Node>
  {
    Flatten(SortChunks(Chunks(cs), ChunkKey(alphabetize)))
  }

  predicate SortedKeys(s: seq<Chunk>, key: Chunk -> SortKey)
  {
    forall i, j :: 0 <= i < j < |s| ==> KeyLe(key(s[i]), key(s[j]))
  }

  /** The chunks whose key is equivalent to `k`. */
  function SameKey(k: SortKey, key: Chunk -> SortKey): Chunk -> bool
  {
    (c: Chunk) => Equiv(key(c), k)
  }

  lemma {:induction false} InsertChunkSorted(c: Chunk, s: seq<Chunk>, key: Chunk -> SortKey)
    requires SortedKeys(s, key)
    ensures SortedKeys(InsertChunk(c, s, key), key)
    ensures multiset(InsertChunk(c, s, key)) == multiset(s) + multiset{c}
    decreases |s|
  {
    if s != [] {
      var k0, kc := key(s[0]), key(c);
      KeyLeTotal(k0, kc);
      assert s == [s[0]] + s[1..];
      if !KeyLe(k0, kc) {
        var r := [c] + s;
        forall i, j | 0 <= i < j < |r| ensures KeyLe(key(r[i]), key(r[j])) {
          if i == 0 && j > 1 {
            KeyLeTrans(kc, k0, key(s[j - 1]));
          }
        }
      } else {
        InsertChunkSorted(c, s[1..], key);
        var rest := InsertChunk(c, s[1..], key);
        InsertHeadSorted(s[0], rest, c, s[1..], key);
      }
    }
  }

  lemma InsertHeadSorted(x: Chunk, rest: seq<Chunk>, c: Chunk, tail: seq<Chunk>, key: Chunk -> SortKey)
    requires SortedKeys(rest, key) && multiset(rest) == multiset(tail) + multiset{c}
    requires KeyLe(key(x), key(c)) && forall y :: y in tail ==> KeyLe(key(x), key(y))
    ensures SortedKeys([x] + rest, key)
  {
    var r := [x] + rest;
    forall i, j | 0 <= i < j < |r| ensures KeyLe(key(r[i]), key(r[j])) {
      if i == 0 {
        assert r[j] in multiset(rest);
      }
    }
  }

  lemma {:induction false} InsertChunkStable(c: Chunk, s: seq<Chunk>, key: Chunk -> SortKey, k: SortKey)
    requires SortedKeys(s, key)
    ensures Filter(InsertChunk(c, s, key), SameKey(k, key)) ==
      Filter(s, SameKey(k, key)) + (if SameKey(k, key)(c) then [c] else [])
    decreases |s|
  {
    var keep := SameKey(k, key);
    if s == [] {
      FilterSnoc([], c, keep);
      assert [] + [c] == [c];
    } else if !KeyLe(key(s[0]), key(c)) {
      if keep(c) {
        NoneSameAfter(c, s, key, k);
      }
      KeptFirst(c, s, keep);
    } else {
      InsertChunkStable(c, s[1..], key, k);
      KeptBehind(s[0], InsertChunk(c, s[1..], key), s[1..], c, keep);
    }
  }

  /** A chunk put in front of the others comes first or not at all among the kept ones, and
      when it is kept, none of the others is. */
  lemma KeptFirst<T(!new)>(c: T, s: seq<T>, keep: T -> bool)
    requires keep(c) ==> Filter(s, keep) == []
    ensures Filter([c] + s, keep) == Filter(s, keep) + (if keep(c) then [c] else [])
  {
    FilterCons(c, s, keep);
  }

  /** Keeping a head in front of a list whose kept part ends with `c` when `c` is kept. */
  lemma KeptBehind<T(!new)>(x: T, r: seq<T>, tail: seq<T>, c: T, keep: T -> bool)
    requires Filter(r, keep) == Filter(tail, keep) + (if keep(c) then [c] else [])
    ensures Filter([x] + r, keep) == Filter([x] + tail, keep) + (if keep(c) then [c] else [])
  {
    FilterCons(x, r, keep);
    FilterCons(x, tail, keep);
  }

  /** No chunk after a greater key has a key equivalent to a smaller one. */
  lemma NoneSameAfter(c: Chunk, s: seq<Chunk>, key: Chunk -> SortKey, k: SortKey)
    requires SortedKeys(s, key) && s != [] && !KeyLe(key(s[0]), key(c)) && SameKey(k, key)(c)
    ensures Filter(s, SameKey(k, key)) == []
  {
    var keep := SameKey(k, key);
    forall x | x in s ensures !keep(x) {
      var j :| 0 <= j < |s| && s[j] == x;
      if keep(x) {
        if j > 0 {
          assert KeyLe(key(s[0]), key(s[j]));
          KeyLeTrans(key(s[0]), key(x), k);
        }
        KeyLeTrans(key(s[0]), k, key(c));
      }
    }
    FilterNone(s, keep);
  }

  lemma {:induction false} InsertChunkFlatten(c: Chunk, s: seq<Chunk>, key: Chunk -> SortKey)
    ensures multiset(Flatten(InsertChunk(c, s, key))) == multiset(Flatten(s)) + multiset(c.1)
    decreases |s|
  {
    if s == [] {
      assert Flatten([c]) == c.1 + Flatten([]);
    } else if !KeyLe(key(s[0]), key(c)) {
      assert ([c] + s)[1..] == s;
    } else {
      var rest := InsertChunk(c, s[1..], key);
      assert ([s[0]] + rest)[1..] == rest;
      InsertChunkFlatten(c, s[1..], key);
    }
  }

  /** The sort orders the chunks by key and keeps each chunk once. */
  lemma SortChunksSorted(chunks: seq<Chunk>, key: Chunk -> SortKey)
    ensures SortedKeys(SortChunks(chunks, key), key)
    ensures multiset(SortChunks(chunks, key)) == multiset(chunks)
    ensures multiset(Flatten(SortChunks(chunks, key))) == multiset(Flatten(chunks))
  {
    SortChunksOrdered(chunks, key);
    SortChunksPermutes(chunks, key);
  }

  lemma {:induction false} SortChunksOrdered(chunks: seq<Chunk>, key: Chunk -> SortKey)
    ensures SortedKeys(SortChunks(chunks, key), key)
    decreases |chunks|
  {
    if chunks != [] {
      var n := |chunks| - 1;
      SortChunksOrdered(chunks[..n], key);
      InsertChunkSorted(chunks[n], SortChunks(chunks[..n], key), key);
    }
  }

  lemma {:induction false} SortChunksPermutes(chunks: seq<Chunk>, key: Chunk -> SortKey)
    ensures multiset(SortChunks(chunks, key)) == multiset(chunks)
    ensures multiset(Flatten(SortChunks(chunks, key))) == multiset(Flatten(chunks))
    decreases |chunks|
  {
    if chunks != [] {
      var n := |chunks| - 1;
      var prefix, c := chunks[..n], chunks[n];
      assert chunks == prefix + [c];
      SortChunksPermutes(prefix, key);
      SortChunksOrdered(prefix, key);
      var s := SortChunks(prefix, key);
      InsertChunkSorted(c, s, key);
      InsertChunkFlatten(c, s, key);
      FlattenSnoc(prefix, c);
    }
  }

  /** The sort keeps the chunks of equivalent keys in their original order. */
  lemma {:induction false} SortChunksStable(chunks: seq<Chunk>, key: Chunk -> SortKey, k: SortKey)
    ensures Filter(SortChunks(chunks, key), SameKey(k, key)) == Filter(chunks, SameKey(k, key))
    decreases |chunks|
  {
    if chunks != [] {
      var n := |chunks| - 1;
      var prefix, c := chunks[..n], chunks[n];
      assert chunks == prefix + [c];
      SortChunksStable(prefix, key, k);
      SortChunksOrdered(prefix, key);
      InsertChunkStable(c, SortChunks(prefix, key), key, k);
      FilterSnoc(prefix, c, SameKey(k, key));
    }
  }

  /** enforce_manifest_ordering rearranges the children: the same nodes, as chunks sorted by
      key, each chunk once, and the chunks of equivalent keys in document order. */
  lemma OrderedSpec(cs: seq<Node>, alphabetize: bool)
    ensures multiset(Ordered(cs, alphabetize)) == multiset(cs)
    ensures SortedKeys(SortChunks(Chunks(cs), ChunkKey(alphabetize)), ChunkKey(alphabetize))
    ensures multiset(SortChunks(Chunks(cs), ChunkKey(alphabetize))) == multiset(Chunks(cs))
    ensures forall k ::
      Filter(SortChunks(Chunks(cs), ChunkKey(alphabetize)), SameKey(k, ChunkKey(alphabetize))) ==
      Filter(Chunks(cs), SameKey(k, ChunkKey(alphabetize)))
  {
    ChunksSpec(cs);
    SortChunksSorted(Chunks(cs), ChunkKey(alphabetize));
    forall k ensures Filter(SortChunks(Chunks(cs), ChunkKey(alphabetize)), SameKey(k, ChunkKey(alphabetize))) ==
      Filter(Chunks(cs), SameKey(k, ChunkKey(alphabetize)))
    {
      SortChunksStable(Chunks(cs), ChunkKey(alphabetize), k);
    }
  }

  /** enforce_manifest_ordering(package, alphabetize) on the package's manifest. */
  method EnforceManifestOrdering(m: PackageXML, alphabetize: bool)
    modifies m
    ensures m.children == Ordered(old(m.children), alphabetize)
    ensures m.format == old(m.format) && m.tab == old(m.tab)
  {
    var chunks := GetChunks(m.children);
    m.children := [];
    var sorted := SortChunks(chunks, ChunkKey(alphabetize));
    for i := 0 to |sorted|
      invariant m.children == Flatten(sorted[..i])
      invariant m.format == old(m.format) && m.tab == old(m.tab)
    {
      FlattenStep(sorted, i);
      m.children := m.children + sorted[i].1;
    }
    assert sorted[..|sorted|] == sorted;
  }

  // ---------------------------------------------------------------------------------------
  // cleanup_text_elements (manifest.py:152-163)

  /** The loop of cleanup_text_elements: a text node following a text node is appended to it,
      an empty text node is dropped, anything else is kept. */
  function Cleaned(cs: seq<Node>): seq<Node>
    decreases |cs|
  {
    if cs == [] then []
    else
      var out := Cleaned(cs[..|cs| - 1]);
      var x := cs[|cs| - 1];
      if x.Text? && |out| > 0 && out[|out| - 1].Text? then out[..|out| - 1] + [Text(out[|out| - 1].data + x.data)]
      else if x.Text? && x.data == "" then out
      else out + [x]
  }

  predicate NoEmptyText(cs: seq<Node>)
  {
    forall i :: 0 <= i < |cs| && cs[i].Text? ==> cs[i].data != ""
  }

  predicate NoAdjacentText(cs: seq<Node>)
  {
    forall i :: 0 < i < |cs| && cs[i].Text? ==> cs[i - 1].Element?
  }

  function IsElement(x: Node): bool { x.Element? }

  /** The elements, in order. */
  function ElementsOf(cs: seq<Node>): seq<Node>
  {
    Filter(cs, IsElement)
  }

  /** All the text, in order. */
  function AllText(cs: seq<Node>): string
    decreases |cs|
  {
    if cs == [] then "" else AllText(cs[..|cs| - 1]) + (if cs[|cs| - 1].Text? then cs[|cs| - 1].data else "")
  }

  lemma AllTextSnoc(cs: seq<Node>, x: Node)
    ensures AllText(cs + [x]) == AllText(cs) + (if x.Text? then x.data else "")
  {
    assert (cs + [x])[..|cs|] == cs;
  }

  /** cleanup_text_elements leaves no empty text node and no two text nodes side by side. */
  lemma {:induction false} CleanedShape(cs: seq<Node>)
    ensures NoEmptyText(Cleaned(cs)) && NoAdjacentText(Cleaned(cs))
    decreases |cs|
  {
    if cs != [] {
      CleanedShape(cs[..|cs| - 1]);
    }
  }

  /** cleanup_text_elements keeps the elements, in order. */
  lemma {:induction false} CleanedElements(cs: seq<Node>)
    ensures ElementsOf(Cleaned(cs)) == ElementsOf(cs)
    decreases |cs|
  {
    if cs != [] {
      var prefix, x := cs[..|cs| - 1], cs[|cs| - 1];
      assert cs == prefix + [x];
      CleanedElements(prefix);
      var out := Cleaned(prefix);
      FilterAppend(prefix, [x], IsElement);
      FilterOne(x);
      if x.Text? && |out| > 0 && out[|out| - 1].Text? {
        MergeKeepsElements(out, out[|out| - 1].data + x.data);
      } else if !(x.Text? && x.data == "") {
        FilterAppend(out, [x], IsElement);
      }
    }
  }

  /** Merging a text into the text that ends the list keeps the elements. */
  lemma MergeKeepsElements(out: seq<Node>, d: string)
    requires |out| > 0 && out[|out| - 1].Text?
    ensures ElementsOf(out[..|out| - 1] + [Text(d)]) == ElementsOf(out)
  {
    var n := |out| - 1;
    assert out == out[..n] + [out[n]];
    FilterAppend(out[..n], [out[n]], IsElement);
    FilterAppend(out[..n], [Text(d)], IsElement);
    FilterOne(out[n]);
    FilterOne(Text(d));
  }

  lemma FilterOne(x: Node)
    ensures Filter([x], IsElement) == if x.Element? then [x] else []
  {
    assert Filter([x], IsElement) == (if x.Element? then [x] else []) + Filter([x][1..], IsElement);
  }

  /** cleanup_text_elements keeps all of the text, in order. */
  lemma {:induction false} CleanedText(cs: seq<Node>)
    ensures AllText(Cleaned(cs)) == AllText(cs)
    decreases |cs|
  {
    if cs != [] {
      var prefix, x := cs[..|cs| - 1], cs[|cs| - 1];
      assert cs == prefix + [x];
      CleanedText(prefix);
      var out := Cleaned(prefix);
      AllTextSnoc(prefix, x);
      if x.Text? && |out| > 0 && out[|out| - 1].Text? {
        var n := |out| - 1;
        var y := Text(out[n].data + x.data);
        assert out == out[..n] + [out[n]];
        AllTextSnoc(out[..n], out[n]);
        AllTextSnoc(out[..n], y);
      } else if !(x.Text? && x.data == "") {
        AllTextSnoc(out, x);
      }
    }
  }

  /** cleanup_text_elements(node) on the root. */
  method CleanupTextElements(m: PackageXML)
    modifies m
    ensures m.children == Cleaned(old(m.children))
    ensures m.format == old(m.format) && m.tab == old(m.tab)
  {
    var newChildren: seq<Node> := [];
    var children := m.children;
    for i := 0 to |children|
      invariant newChildren == Cleaned(children[..i])
      invariant m.format == old(m.format) && m.tab == old(m.tab)
    {
      assert children[..i + 1][..i] == children[..i];
      var child := children[i];
      if child.Text? && |newChildren| > 0 && newChildren[|newChildren| - 1].Text? {
        var last := |newChildren| - 1;
        newChildren := newChildren[..last] + [Text(newChildren[last].data + child.data)];
      } else if child.Text? && child.data == "" {
        continue;
      } else {
        newChildren := newChildren + [child];
      }
    }
    assert children[..|children|] == children;
    m.children := newChildren;
  }

  // ---------------------------------------------------------------------------------------
  // remove_empty_lines_helper (manifest.py:204-210)

  /** A node with its runs of blank lines collapsed; for an element, in the text it holds. */
  function LinesCollapsed(x: Node): Node
  {
    match x
    case Text(d) => Text(LegacyUtil.BlankLinesRemoved(d))
    case Element(n, t) => Element(n, LegacyUtil.BlankLinesRemoved(t))
  }

  function EmptyLinesRemoved(cs: seq<Node>): seq<Node>
  {
    seq(|cs|, i requires 0 <= i < |cs| => LinesCollapsed(cs[i]))
  }

  /** The text of a node: its data, or the text an element holds. */
  function Content(x: Node): string
  {
    if x.Text? then x.data else x.text
  }

  /** After remove_empty_lines_helper no text, at either depth, holds three newlines in a
      row; the nodes keep their kind and tag, and a text changes only when it held three. */
  lemma EmptyLinesRemovedSpec(cs: seq<Node>)
    ensures |EmptyLinesRemoved(cs)| == |cs|
    ensures forall i :: 0 <= i < |cs| ==>
      var y := EmptyLinesRemoved(cs)[i];
      !Contains(Content(y), LegacyUtil.ThreeNewlines) &&
      y.Text? == cs[i].Text? && (y.Element? ==> y.name == cs[i].name) &&
      (y == cs[i] <==> !Contains(Content(cs[i]), LegacyUtil.ThreeNewlines))
  {
    forall i | 0 <= i < |cs| ensures !Contains(Content(EmptyLinesRemoved(cs)[i]), LegacyUtil.ThreeNewlines) &&
      (EmptyLinesRemoved(cs)[i] == cs[i] <==> !Contains(Content(cs[i]), LegacyUtil.ThreeNewlines))
    {
      LegacyUtil.BlankLinesRemovedSpec(Content(cs[i]));
    }
  }

  /** remove_empty_lines_helper(root) */
  method RemoveEmptyLinesHelper(m: PackageXML)
    modifies m
    ensures m.children == EmptyLinesRemoved(old(m.children))
    ensures m.format == old(m.format) && m.tab == old(m.tab)
  {
    ghost var cs := m.children;
    for i := 0 to |m.children|
      invariant |m.children| == |cs|
      invariant forall j :: 0 <= j < i ==> m.children[j] == LinesCollapsed(cs[j])
      invariant forall j :: i <= j < |cs| ==> m.children[j] == cs[j]
      invariant m.format == old(m.format) && m.tab == old(m.tab)
    {
      var child := m.children[i];
      if child.Text? {
        var data := LegacyUtil.RemoveBlankLines(child.data);
        m.children := m.children[i := Text(data)];
      } else {
        var data := LegacyUtil.RemoveBlankLines(child.text);
        m.children := m.children[i := Element(child.name, data)];
      }
    }
  }

  // ---------------------------------------------------------------------------------------
  // update_license (manifest.py:227-234, with get_license and set_license of package_xml.py)

  /** The first `license` element, as `getElementsByTagName('license')[0]`. */
  function LicenseIndex(cs: seq<Node>): (r: Option<nat>)
    ensures r.Some? ==>
      r.value < |cs| && cs[r.value].Element? && cs[r.value].name == "license" &&
      forall j :: 0 <= j < r.value ==> !(cs[j].Element? && cs[j].name == "license")
    ensures r.None? ==> forall j :: 0 <= j < |cs| ==> !(cs[j].Element? && cs[j].name == "license")
    decreases |cs|
  {
    if cs == [] then None
    else if cs[0].Element? && cs[0].name == "license" then Some(0)
    else match LicenseIndex(cs[1..])
      case None => None
      case Some(j) => Some(j + 1)
  }

  /** update_license with the configured default license, if any: get_license fails on a
      manifest without a license element. */
  function LicenseUpdated(cs: seq<Node>, defaultLicense: Option<string>): Result<seq<Node>, PyError>
  {
    if defaultLicense.None? then Ok(cs)
    else match LicenseIndex(cs)
      case None => Err(AttributeError)
      case Some(j) =>
        if cs[j].text != "TODO" then Ok(cs) else Ok(cs[j := Element("license", defaultLicense.value)])
  }

  /** The license changes only when a default is configured and the license reads exactly
      "TODO"; then the first license element holds the default and nothing else changes. */
  lemma LicenseUpdatedSpec(cs: seq<Node>, defaultLicense: Option<string>)
    requires LicenseUpdated(cs, defaultLicense).Ok?
    ensures var r := LicenseUpdated(cs, defaultLicense).value;
      |r| == |cs| &&
      (r != cs ==> defaultLicense.Some? && LicenseIndex(cs).Some? && cs[LicenseIndex(cs).value].text == "TODO") &&
      (defaultLicense.Some? && cs[LicenseIndex(cs).value].text == "TODO" ==>
        LicenseIndex(r) == LicenseIndex(cs) && r[LicenseIndex(r).value].text == defaultLicense.value &&
        forall j :: 0 <= j < |cs| && j != LicenseIndex(cs).value ==> r[j] == cs[j])
  {
    if defaultLicense.Some? && cs[LicenseIndex(cs).value].text == "TODO" {
      var j := LicenseIndex(cs).value;
      var r := cs[j := Element("license", defaultLicense.value)];
      var k := LicenseIndex(r);
      assert r[j].Element? && r[j].name == "license";
      assert forall i :: 0 <= i < j ==> r[i] == cs[i];
    }
  }

  /** update_license(package, config) */
  method UpdateLicense(m: PackageXML, defaultLicense: Option<string>) returns (r: Result<(), PyError>)
    modifies m
    ensures LicenseUpdated(old(m.children), defaultLicense).Ok? ==>
      r.Ok? && m.children == LicenseUpdated(old(m.children), defaultLicense).value
    ensures LicenseUpdated(old(m.children), defaultLicense).Err? ==>
      r == Err(LicenseUpdated(old(m.children), defaultLicense).error) && m.children == old(m.children)
    ensures m.format == old(m.format) && m.tab == old(m.tab)
  {
    if defaultLicense.None? {
      return Ok(());
    }
    var el := LicenseIndex(m.children);
    if el.None? {
      return Err(AttributeError);
    }
    if m.children[el.value].text != "TODO" {
      return Ok(());
    }
    m.children := m.children[el.value := Element("license", defaultLicense.value)];
    return Ok(());
  }

  // ---------------------------------------------------------------------------------------
  // replace_package_set (manifest.py:49-63) and greedy_depend_tag (manifest.py:66-70)

  /** The packages listed under every one of `tags`, intersected in the order of the tags. */
  function Common(cs: seq<Node>, tags: seq<string>): set<string>
    requires tags != []
    decreases |tags|
  {
    var pkgs := PackagesIn(cs, [tags[|tags| - 1]]);
    if |tags| == 1 then pkgs else Common(cs, tags[..|tags| - 1]) * pkgs
  }

  /** A package is common to the tags exactly when each tag lists it. */
  lemma {:induction false} CommonSpec(cs: seq<Node>, tags: seq<string>, p: string)
    requires tags != []
    ensures p in Common(cs, tags) <==> forall t :: t in tags ==> CountOf(cs, t, p) > 0
    decreases |tags|
  {
    var last := tags[|tags| - 1];
    PackagesInByCount(cs, [last], p);
    if |tags| > 1 {
      var prefix := tags[..|tags| - 1];
      CommonSpec(cs, prefix, p);
      assert tags == prefix + [last];
    }
  }

  /** remove_dependencies(tag, pkgs) for each tag in turn. */
  function RemovedAll(cs: seq<Node>, tags: seq<string>, pkgs: set<string>): seq<Node>
    decreases |tags|
  {
    if tags == [] then cs
    else DependenciesRemoved(RemovedAll(cs, tags[..|tags| - 1], pkgs), tags[|tags| - 1], pkgs)
  }

  lemma {:induction false} RemovedAllCount(cs: seq<Node>, tags: seq<string>, pkgs: set<string>, t: string, p: string)
    ensures CountOf(RemovedAll(cs, tags, pkgs), t, p) == if t in tags && p in pkgs then 0 else CountOf(cs, t, p)
    decreases |tags|
  {
    if tags != [] {
      var prefix, last := tags[..|tags| - 1], tags[|tags| - 1];
      assert tags == prefix + [last];
      RemovedAllCount(cs, prefix, pkgs, t, p);
      DependenciesRemovedCount(RemovedAll(cs, prefix, pkgs), last, pkgs, t, p);
    }
  }

  /** replace_package_set(manifest, source_tags, new_tag); with no source tags the intersection
      stays None and insert_new_packages fails sorting it. */
  function Replaced(cs: seq<Node>, width: nat, sourceTags: seq<string>, newTag: TagName): Result<seq<Node>, PyError>
  {
    if sourceTags == [] then Err(TypeError)
    else
      var common := Common(cs, sourceTags);
      Ok(PackagesInserted(RemovedAll(cs, sourceTags, common), width, newTag, common, SourceIndex))
  }

  /** replace_package_set moves the packages listed under every source tag: afterwards no source
      tag lists them, the new tag lists each of them once more, and every other listing is
      kept. */
  lemma ReplacedCount(cs: seq<Node>, width: nat, sourceTags: seq<string>, newTag: TagName, t: string, p: string)
    requires sourceTags != []
    ensures var moved := forall s :: s in sourceTags ==> CountOf(cs, s, p) > 0;
      CountOf(Replaced(cs, width, sourceTags, newTag).value, t, p) ==
        (if t in sourceTags && moved then 0 else CountOf(cs, t, p)) + (if t == newTag && moved then 1 else 0)
  {
    var common := Common(cs, sourceTags);
    CommonSpec(cs, sourceTags, p);
    RemovedAllCount(cs, sourceTags, common, t, p);
    PackagesInsertedCount(RemovedAll(cs, sourceTags, common), width, newTag, common, SourceIndex, t, p);
  }

  /** replace_package_set on the manifest. */
  method ReplacePackageSet(m: PackageXML, sourceTags: seq<string>, newTag: TagName) returns (r: Result<(), PyError>)
    modifies m
    ensures m.format == old(m.format)
    ensures old(m.tab).Some? ==> m.tab == old(m.tab)
    ensures sourceTags != [] && old(m.tab).None? && m.tab.Some? ==>
      IsStdTab(RemovedAll(old(m.children), sourceTags, Common(old(m.children), sourceTags)), m.tab.value)
    ensures r.Err? <==> sourceTags == []
    ensures sourceTags == [] ==> r == Err(TypeError) && m.children == old(m.children) && m.tab == old(m.tab)
    ensures sourceTags != [] ==> Replaced(old(m.children), TabOr(m.tab), sourceTags, newTag) == Ok(m.children)
  {
    if sourceTags == [] {
      return Err(TypeError);
    }
    var intersection := CommonPackages(m, sourceTags);
    RemoveEach(m, sourceTags, intersection);
    m.InsertNewPackages(newTag, intersection);
    return Ok(());
  }

  /** The first loop of replace_package_set: the packages every source tag lists. */
  method CommonPackages(m: PackageXML, sourceTags: seq<string>) returns (intersection: set<string>)
    requires sourceTags != []
    ensures intersection == Common(m.children, sourceTags)
  {
    intersection := {};
    for k := 0 to |sourceTags|
      invariant k > 0 ==> intersection == Common(m.children, sourceTags[..k])
    {
      var listed := m.PackagesByTag(sourceTags[k]);
      ByTagListed(m.children, sourceTags[k], listed);
      var pkgs := set p | p in listed;
      assert sourceTags[..k + 1][..k] == sourceTags[..k];
      intersection := if k == 0 then pkgs else intersection * pkgs;
    }
    assert sourceTags[..|sourceTags|] == sourceTags;
  }

  /** The second loop of replace_package_set: the common packages removed from each tag. */
  method RemoveEach(m: PackageXML, sourceTags: seq<string>, packages: set<string>)
    modifies m
    ensures m.format == old(m.format) && m.tab == old(m.tab)
    ensures m.children == RemovedAll(old(m.children), sourceTags, packages)
  {
    ghost var cs := m.children;
    for k := 0 to |sourceTags|
      invariant m.format == old(m.format) && m.tab == old(m.tab)
      invariant m.children == RemovedAll(cs, sourceTags[..k], packages)
    {
      assert sourceTags[..k + 1][..k] == sourceTags[..k];
      m.RemoveDependencies(sourceTags[k], packages);
    }
    assert sourceTags[..|sourceTags|] == sourceTags;
  }

  /** greedy_depend_tag: in a format 2 manifest, a package that is a build, build-export and exec
      dependency becomes one `depend`. */
  method GreedyDependTag(m: PackageXML)
    modifies m
    ensures m.format == old(m.format)
    ensures old(m.format) == 1 ==> m.children == old(m.children) && m.tab == old(m.tab)
    ensures old(m.format) != 1 ==>
      Replaced(old(m.children), TabOr(m.tab), GreedyTags, "depend") == Ok(m.children)
  {
    if m.format == 1 {
      return;
    }
    var r := ReplacePackageSet(m, GreedyTags, "depend");
  }

  const GreedyTags: seq<string> := ["build_depend", "build_export_depend", "exec_depend"]

  /** After greedy_depend_tag a package listed under all three tags is a `depend` and none of
      the three lists it any more. */
  lemma GreedyDependMoves(cs: seq<Node>, width: nat, p: string)
    requires forall s :: s in GreedyTags ==> CountOf(cs, s, p) > 0
    ensures var r := Replaced(cs, width, GreedyTags, "depend").value;
      CountOf(r, "depend", p) == CountOf(cs, "depend", p) + 1 &&
      forall s :: s in GreedyTags ==> CountOf(r, s, p) == 0
  {
    ReplacedCount(cs, width, GreedyTags, "depend", "depend", p);
    forall s | s in GreedyTags ensures CountOf(Replaced(cs, width, GreedyTags, "depend").value, s, p) == 0 {
      ReplacedCount(cs, width, GreedyTags, "depend", s, p);
    }
  }

  // ---------------------------------------------------------------------------------------
  // enforce_tabbing_helper (manifest.py:73-101)

  /** Appending spaces adds to the trailing spaces. */
  lemma {:induction false} TrailingSpacesAppend(s: string, n: nat)
    ensures TrailingSpaces(s + Spaces(n)) == TrailingSpaces(s) + n
    decreases n
  {
    if n == 0 {
      assert s + Spaces(0) == s;
    } else {
      var t := s + Spaces(n);
      assert t[|t| - 1] == ' ';
      assert t[..|t| - 1] == s + Spaces(n - 1);
      TrailingSpacesAppend(s, n - 1);
    }
  }

  /** A leading newline does not change the trailing spaces. */
  lemma {:induction false} TrailingSpacesNewline(d: string)
    ensures TrailingSpaces("\n" + d) == TrailingSpaces(d)
    decreases |d|
  {
    var t := "\n" + d;
    if d != [] && d[|d| - 1] == ' ' {
      assert t[..|t| - 1] == "\n" + d[..|d| - 1];
      TrailingSpacesNewline(d[..|d| - 1]);
    }
  }

  /** One of the trailing spaces. */
  lemma TrailingSpaceAt(s: string, k: nat)
    requires |s| - TrailingSpaces(s) <= k < |s|
    ensures s[k] == ' '
  {
    TrailingSpacesSpec(s);
  }

  /** The text before the trailing spaces does not end with a space. */
  lemma {:induction false} TrailingSpacesCore(s: string)
    ensures TrailingSpaces(s[..|s| - TrailingSpaces(s)]) == 0
    decreases |s|
  {
    if s != [] && s[|s| - 1] == ' ' {
      var t := s[..|s| - 1];
      TrailingSpacesCore(t);
      assert s[..|s| - TrailingSpaces(s)] == t[..|t| - TrailingSpaces(t)];
    } else {
      assert s[..|s|] == s;
    }
  }

  /** A text is the text before its trailing spaces followed by those spaces. */
  lemma {:induction false} TrailingSplit(s: string)
    ensures s == s[..|s| - TrailingSpaces(s)] + Spaces(TrailingSpaces(s))
    decreases |s|
  {
    if s != [] && s[|s| - 1] == ' ' {
      var t := s[..|s| - 1];
      TrailingSplit(t);
      SpacesAdd(TrailingSpaces(t), 1, TrailingSpaces(s));
      assert s == t + [' '];
      assert Spaces(1) == [' '];
      assert s[..|s| - TrailingSpaces(s)] == t[..|t| - TrailingSpaces(t)];
    } else {
      assert Spaces(0) == [];
    }
  }

  lemma SpacesAdd(a: nat, b: nat, c: nat)
    requires a + b == c
    ensures Spaces(a) + Spaces(b) == Spaces(c)
  {
  }

  lemma SpacesPrefix(a: nat, b: nat)
    requires b <= a
    ensures Spaces(a)[..b] == Spaces(b)
  {
  }

  /** The text with exactly `ideal` trailing spaces. */
  function Padded(data: string, ideal: nat): string
  {
    var spaces := TrailingSpaces(data);
    if spaces > ideal then data[..|data| - (spaces - ideal)]
    else if spaces < ideal then data + Spaces(ideal - spaces)
    else data
  }

  /** The text of one non-final text child after enforce_tabbing_helper. */
  function FixText(data: string, ideal: nat): string
  {
    var d := Padded(data, ideal);
    if '\n' in d then d else "\n" + d
  }

  lemma NoNewlineInSpaces(n: nat)
    ensures '\n' !in Spaces(n)
  {
  }

  /** Padding replaces the trailing spaces by `ideal` of them. */
  lemma PaddedForm(data: string, ideal: nat)
    ensures Padded(data, ideal) == data[..|data| - TrailingSpaces(data)] + Spaces(ideal)
  {
    var sp := TrailingSpaces(data);
    var core := data[..|data| - sp];
    TrailingSplit(data);
    if sp > ideal {
      ShrinkForm(core, sp, ideal);
      assert Padded(data, ideal) == data[..|data| - (sp - ideal)];
    } else if sp < ideal {
      GrowForm(core, sp, ideal);
      assert Padded(data, ideal) == data + Spaces(ideal - sp);
    }
  }

  lemma ShrinkForm(core: string, sp: nat, ideal: nat)
    requires ideal < sp
    ensures (core + Spaces(sp))[..|core| + sp - (sp - ideal)] == core + Spaces(ideal)
  {
    calc {
      (core + Spaces(sp))[..|core| + sp - (sp - ideal)];
      (core + Spaces(sp))[..|core| + ideal];
      { TakeConcat(core, Spaces(sp), ideal); }
      core + Spaces(sp)[..ideal];
      { SpacesPrefix(sp, ideal); }
      core + Spaces(ideal);
    }
  }

  lemma GrowForm(core: string, sp: nat, ideal: nat)
    requires sp < ideal
    ensures (core + Spaces(sp)) + Spaces(ideal - sp) == core + Spaces(ideal)
  {
    calc {
      (core + Spaces(sp)) + Spaces(ideal - sp);
      core + (Spaces(sp) + Spaces(ideal - sp));
      { SpacesAdd(sp, ideal - sp, ideal); }
      core + Spaces(ideal);
    }
  }

  lemma TakeConcat(a: string, b: string, k: nat)
    requires k <= |b|
    ensures (a + b)[..|a| + k] == a + b[..k]
  {
  }

  /** Only the text before the trailing spaces can hold a newline. */
  lemma NewlineInCore(data: string)
    ensures '\n' in data <==> '\n' in data[..|data| - TrailingSpaces(data)]
  {
    var core := data[..|data| - TrailingSpaces(data)];
    if '\n' in data {
      var k :| 0 <= k < |data| && data[k] == '\n';
      if k >= |core| {
        TrailingSpaceAt(data, k);
      }
      assert core[k] == '\n';
    }
  }

  lemma NewlinePadded(data: string, ideal: nat)
    ensures '\n' in Padded(data, ideal) <==> '\n' in data
  {
    var core := data[..|data| - TrailingSpaces(data)];
    PaddedForm(data, ideal);
    NewlineInCore(data);
    NoNewlineInSpaces(ideal);
    assert '\n' in core + Spaces(ideal) <==> '\n' in core;
  }

  /** The text with its trailing spaces set to `ideal`, and a leading newline when it had none. */
  lemma FixTextForm(data: string, ideal: nat)
    ensures var core := data[..|data| - TrailingSpaces(data)];
      ('\n' in data ==> FixText(data, ideal) == core + Spaces(ideal)) &&
      ('\n' !in data ==> FixText(data, ideal) == "\n" + (core + Spaces(ideal)))
  {
    PaddedForm(data, ideal);
    NewlinePadded(data, ideal);
  }

  /** The fixed text holds a newline and ends with exactly `ideal` spaces. */
  lemma FixTextIndents(data: string, ideal: nat)
    ensures '\n' in FixText(data, ideal) && TrailingSpaces(FixText(data, ideal)) == ideal
  {
    FixTextForm(data, ideal);
    NewlinePadded(data, ideal);
    var core := data[..|data| - TrailingSpaces(data)];
    var d := core + Spaces(ideal);
    TrailingSpacesCore(data);
    TrailingSpacesAppend(core, ideal);
    if '\n' !in data {
      TrailingSpacesNewline(d);
      assert ("\n" + d)[0] == '\n';
    }
  }

  /** The text keeps what precedes its trailing spaces, ends with exactly `ideal` spaces and
      holds a newline, gaining a leading one only when it had none; a text already like that
      is left alone. */
  lemma FixTextSpec(data: string, ideal: nat)
    ensures var core := data[..|data| - TrailingSpaces(data)];
      ('\n' in data ==> FixText(data, ideal) == core + Spaces(ideal)) &&
      ('\n' !in data ==> FixText(data, ideal) == "\n" + (core + Spaces(ideal)))
    ensures '\n' in FixText(data, ideal) && TrailingSpaces(FixText(data, ideal)) == ideal
    ensures '\n' in data && TrailingSpaces(data) == ideal ==> FixText(data, ideal) == data
  {
    FixTextForm(data, ideal);
    FixTextIndents(data, ideal);
  }

  /** Child `j` after the first loop: text other than the last child is fixed. */
  function FixedAt(cs: seq<Node>, j: nat, ideal: nat): Node
    requires j < |cs|
  {
    if cs[j].Text? && j != |cs| - 1 then Text(FixText(cs[j].data, ideal)) else cs[j]
  }

  /** Whether an indentation goes in before child `j`: an element that opens the list or follows
      an element. */
  predicate NeedsIndent(cs: seq<Node>, j: nat)
    requires j < |cs|
  {
    cs[j].Element? && (j == 0 || cs[j - 1].Element?)
  }

  /** The first `i` children, fixed, each preceded by an indentation where one is needed. */
  function Indented(cs: seq<Node>, ideal: nat, i: nat): seq<Node>
    requires i <= |cs|
  {
    if i == 0 then []
    else Indented(cs, ideal, i - 1) + (if NeedsIndent(cs, i - 1) then [Indent(ideal)] else []) + [FixedAt(cs, i - 1, ideal)]
  }

  /** enforce_tabbing_helper(manifest, node, tabs) with std_tab `w`. */
  function Tabbed(cs: seq<Node>, w: nat, tabs: nat): seq<Node>
  {
    var body := Indented(cs, w * tabs, |cs|);
    if body != [] && body[|body| - 1].Element? then body + [Indent(if tabs == 0 then 0 else w * (tabs - 1))]
    else body
  }

  /** A text node that is a proper indentation: it holds a newline and ends with `ideal`
      spaces. */
  predicate IndentText(x: Node, ideal: nat)
  {
    x.Text? ==> '\n' in x.data && TrailingSpaces(x.data) == ideal
  }

  lemma IndentIsIndentText(width: nat)
    ensures IndentText(Indent(width), width)
  {
    TrailingSpacesAppend("\n", width);
    assert "\n" + Spaces(width) == "\n" + Spaces(width);
    assert Indent(width).data[0] == '\n';
  }

  lemma FixedAtKind(cs: seq<Node>, j: nat, ideal: nat)
    requires j < |cs|
    ensures FixedAt(cs, j, ideal).Element? == cs[j].Element?
    ensures cs[j].Element? ==> FixedAt(cs, j, ideal) == cs[j]
  {
  }

  lemma FixedAtIndents(cs: seq<Node>, j: nat, ideal: nat)
    requires j < |cs| - 1
    ensures IndentText(FixedAt(cs, j, ideal), ideal)
  {
    if cs[j].Text? {
      FixTextIndents(cs[j].data, ideal);
    }
  }

  /** The first `i` children end with the fixed child `i - 1`. */
  lemma IndentedLast(cs: seq<Node>, ideal: nat, i: nat)
    requires 0 < i <= |cs|
    ensures var r := Indented(cs, ideal, i); r != [] && r[|r| - 1] == FixedAt(cs, i - 1, ideal)
  {
  }

  /** Indentation keeps the elements, in order. */
  lemma {:induction false} IndentedElements(cs: seq<Node>, ideal: nat, i: nat)
    requires i <= |cs|
    ensures ElementsOf(Indented(cs, ideal, i)) == ElementsOf(cs[..i])
    decreases i
  {
    if i > 0 {
      IndentedElements(cs, ideal, i - 1);
      var ind := if NeedsIndent(cs, i - 1) then [Indent(ideal)] else [];
      FixedAtKind(cs, i - 1, ideal);
      assert cs[..i] == cs[..i - 1] + [cs[i - 1]];
      SameElementsStep(Indented(cs, ideal, i - 1), ind, FixedAt(cs, i - 1, ideal), cs[..i - 1], cs[i - 1]);
    }
  }

  /** Appending text and a node of the same kind, equal when an element, to lists with the same
      elements keeps them with the same elements. */
  lemma SameElementsStep(prev: seq<Node>, ind: seq<Node>, x: Node, before: seq<Node>, y: Node)
    requires ElementsOf(prev) == ElementsOf(before)
    requires |ind| <= 1 && (ind != [] ==> ind[0].Text?)
    requires x.Element? == y.Element? && (y.Element? ==> x == y)
    ensures ElementsOf(prev + ind + [x]) == ElementsOf(before + [y])
  {
    assert Filter([x], IsElement) == Filter([y], IsElement) by {
      FilterOne(x);
      FilterOne(y);
    }
    assert Filter(ind, IsElement) == [] by {
      FilterNone(ind, IsElement);
    }
    calc {
      ElementsOf(prev + ind + [x]);
      { FilterAppend(prev + ind, [x], IsElement); }
      Filter(prev + ind, IsElement) + Filter([x], IsElement);
      { FilterAppend(prev, ind, IsElement); }
      Filter(prev, IsElement) + Filter(ind, IsElement) + Filter([x], IsElement);
      Filter(before, IsElement) + Filter([y], IsElement);
      { FilterAppend(before, [y], IsElement); }
      ElementsOf(before + [y]);
    }
  }

  /** Every element follows a text node. */
  predicate ElementsAfterText(s: seq<Node>)
  {
    forall j :: 0 <= j < |s| && s[j].Element? ==> j > 0 && s[j - 1].Text?
  }

  lemma ElementsAfterTextSnoc(s: seq<Node>, x: Node)
    requires ElementsAfterText(s) && (x.Element? ==> s != [] && s[|s| - 1].Text?)
    ensures ElementsAfterText(s + [x])
  {
    var r := s + [x];
    forall j | 0 <= j < |r| && r[j].Element? ensures j > 0 && r[j - 1].Text? {
      if j < |s| {
        assert r[j] == s[j] && r[j - 1] == s[j - 1];
      } else {
        assert r[j - 1] == s[|s| - 1];
      }
    }
  }

  /** Every element of the first `i` children follows a text node. */
  lemma {:induction false} IndentedFollows(cs: seq<Node>, ideal: nat, i: nat)
    requires i <= |cs|
    ensures ElementsAfterText(Indented(cs, ideal, i))
    decreases i
  {
    if i > 0 {
      IndentedFollows(cs, ideal, i - 1);
      var prev := Indented(cs, ideal, i - 1);
      var x := FixedAt(cs, i - 1, ideal);
      FixedAtKind(cs, i - 1, ideal);
      if NeedsIndent(cs, i - 1) {
        FollowsIndent(prev, Indent(ideal), x);
      } else {
        if i > 1 {
          FixedAtKind(cs, i - 2, ideal);
          IndentedLast(cs, ideal, i - 1);
        }
        FollowsPlain(prev, x);
      }
    }
  }

  lemma FollowsIndent(prev: seq<Node>, t: Node, x: Node)
    requires ElementsAfterText(prev) && t.Text?
    ensures ElementsAfterText(prev + [t] + [x])
  {
    ElementsAfterTextSnoc(prev, t);
    ElementsAfterTextSnoc(prev + [t], x);
  }

  lemma FollowsPlain(prev: seq<Node>, x: Node)
    requires ElementsAfterText(prev) && (x.Element? ==> prev != [] && prev[|prev| - 1].Text?)
    ensures ElementsAfterText(prev + [] + [x])
  {
    ElementsAfterTextSnoc(prev, x);
    assert prev + [] + [x] == prev + [x];
  }

  /** Every text node is a proper indentation. */
  predicate AllIndentText(s: seq<Node>, ideal: nat)
  {
    forall j :: 0 <= j < |s| ==> IndentText(s[j], ideal)
  }

  lemma AllIndentTextSnoc(s: seq<Node>, x: Node, ideal: nat)
    requires AllIndentText(s, ideal) && IndentText(x, ideal)
    ensures AllIndentText(s + [x], ideal)
  {
    var r := s + [x];
    forall j | 0 <= j < |r| ensures IndentText(r[j], ideal) {
      if j < |s| {
        assert r[j] == s[j];
      }
    }
  }

  /** Before the last child every text node is a proper indentation. */
  lemma {:induction false} IndentedTexts(cs: seq<Node>, ideal: nat, i: nat)
    requires i < |cs|
    ensures AllIndentText(Indented(cs, ideal, i), ideal)
    decreases i
  {
    if i > 0 {
      IndentedTexts(cs, ideal, i - 1);
      IndentedTail(cs, ideal, i);
      FixedAtIndents(cs, i - 1, ideal);
      AllIndentTextSnoc(IndentedHead(cs, ideal, i), FixedAt(cs, i - 1, ideal), ideal);
    }
  }

  /** The first `i` children without the last of them. */
  function IndentedHead(cs: seq<Node>, ideal: nat, i: nat): seq<Node>
    requires 0 < i <= |cs|
  {
    Indented(cs, ideal, i - 1) + (if NeedsIndent(cs, i - 1) then [Indent(ideal)] else [])
  }

  lemma IndentedTail(cs: seq<Node>, ideal: nat, i: nat)
    requires 0 < i <= |cs| && AllIndentText(Indented(cs, ideal, i - 1), ideal)
    ensures Indented(cs, ideal, i) == IndentedHead(cs, ideal, i) + [FixedAt(cs, i - 1, ideal)]
    ensures AllIndentText(IndentedHead(cs, ideal, i), ideal)
  {
    var prev := Indented(cs, ideal, i - 1);
    if NeedsIndent(cs, i - 1) {
      IndentIsIndentText(ideal);
      AllIndentTextSnoc(prev, Indent(ideal), ideal);
    } else {
      assert prev + [] == prev;
    }
  }

  /** After enforce_tabbing_helper: the elements are kept in order, each element follows a text
      node, the last node is text, and every text node but the last holds a newline and ends
      with std_tab * tabs spaces; when the last child was an element, the closing indentation
      is one tab shallower. */
  lemma TabbedSpec(cs: seq<Node>, w: nat, tabs: nat)
    ensures var r := Tabbed(cs, w, tabs);
      ElementsOf(r) == ElementsOf(cs) &&
      (forall j :: 0 <= j < |r| && r[j].Element? ==> j > 0 && r[j - 1].Text?) &&
      (r != [] ==> r[|r| - 1].Text?) &&
      (forall j :: 0 <= j < |r| - 1 ==> IndentText(r[j], w * tabs)) &&
      (cs != [] && cs[|cs| - 1].Element? ==> r[|r| - 1] == Indent(if tabs == 0 then 0 else w * (tabs - 1)))
  {
    var ideal := w * tabs;
    var body := Indented(cs, ideal, |cs|);
    var r := Tabbed(cs, w, tabs);
    IndentedElements(cs, ideal, |cs|);
    IndentedFollows(cs, ideal, |cs|);
    assert cs[..|cs|] == cs;
    if cs != [] {
      var n := |cs|;
      IndentedTexts(cs, ideal, n - 1);
      IndentedTail(cs, ideal, n);
      IndentedLast(cs, ideal, n);
      FixedAtKind(cs, n - 1, ideal);
      var head := IndentedHead(cs, ideal, n);
      assert body[..|body| - 1] == head;
      if body[|body| - 1].Element? {
        var last := Indent(if tabs == 0 then 0 else w * (tabs - 1));
        assert r == body + [last];
        ClosedBody(body, head, last, ideal);
      } else {
        assert forall j :: 0 <= j < |r| - 1 ==> r[j] == head[j];
      }
    }
  }

  /** The closing indentation after a last element keeps the shape of the body. */
  lemma ClosedBody(body: seq<Node>, head: seq<Node>, last: Node, ideal: nat)
    requires body != [] && body[|body| - 1].Element? && head == body[..|body| - 1]
    requires ElementsAfterText(body) && AllIndentText(head, ideal) && last.Text?
    ensures ElementsOf(body + [last]) == ElementsOf(body)
    ensures ElementsAfterText(body + [last]) && AllIndentText(body, ideal)
  {
    FilterAppend(body, [last], IsElement);
    FilterOne(last);
    ElementsAfterTextSnoc(body, last);
    AllIndentTextSnoc(head, body[|body| - 1], ideal);
    assert head + [body[|body| - 1]] == body;
  }

  lemma FixedAtIdentity(r: seq<Node>, k: nat, ideal: nat)
    requires k < |r| && (k < |r| - 1 ==> IndentText(r[k], ideal))
    ensures FixedAt(r, k, ideal) == r[k]
  {
    if r[k].Text? && k != |r| - 1 {
      FixTextSpec(r[k].data, ideal);
    }
  }

  /** Children already tabbed come through the two loops unchanged. */
  lemma {:induction false} IndentedIdentity(r: seq<Node>, ideal: nat, i: nat)
    requires i <= |r| && ElementsAfterText(r)
    requires forall j :: 0 <= j < |r| - 1 ==> IndentText(r[j], ideal)
    ensures Indented(r, ideal, i) == r[..i]
    decreases i
  {
    if i > 0 {
      IndentedIdentity(r, ideal, i - 1);
      var k := i - 1;
      FixedAtIdentity(r, k, ideal);
      assert !NeedsIndent(r, k);
      assert r[..i] == r[..k] + [r[k]];
    }
  }

  /** enforce_tabbing_helper is idempotent: tabbing its result again, with the same tab width,
      changes nothing. */
  lemma TabbedIdempotent(cs: seq<Node>, w: nat, tabs: nat)
    ensures Tabbed(Tabbed(cs, w, tabs), w, tabs) == Tabbed(cs, w, tabs)
  {
    var r := Tabbed(cs, w, tabs);
    TabbedSpec(cs, w, tabs);
    IndentedIdentity(r, w * tabs, |r|);
    assert r[..|r|] == r;
  }

  /** The fix of one text child (manifest.py:82-88). */
  method FixTextData(data: string, ideal: nat) returns (r: string)
    ensures r == FixText(data, ideal)
  {
    var spaces := CountTrailingSpaces(data);
    r := data;
    if spaces > ideal {
      r := r[..|r| - (spaces - ideal)];
    } else if spaces < ideal {
      r := r + Spaces(ideal - spaces);
    }
    assert r == Padded(data, ideal);
    if '\n' !in r {
      r := "\n" + r;
    }
  }

  /** The first loop of enforce_tabbing_helper: it fixes every text child but the last and
      notes the elements an indentation goes before. */
  method FixChildTexts(m: PackageXML, ideal: nat) returns (insertBefore: seq<bool>)
    modifies m
    ensures m.format == old(m.format) && m.tab == old(m.tab)
    ensures |m.children| == |old(m.children)| == |insertBefore|
    ensures forall j :: 0 <= j < |m.children| ==> m.children[j] == FixedAt(old(m.children), j, ideal)
    ensures forall j :: 0 <= j < |insertBefore| ==> insertBefore[j] == NeedsIndent(old(m.children), j)
  {
    var cs := m.children;
    var n := |cs|;
    var prevWasNode := true;
    insertBefore := [];
    for i := 0 to n
      invariant |m.children| == n && m.format == old(m.format) && m.tab == old(m.tab)
      invariant forall j :: 0 <= j < i ==> m.children[j] == FixedAt(cs, j, ideal)
      invariant forall j :: i <= j < n ==> m.children[j] == cs[j]
      invariant |insertBefore| == i && forall j :: 0 <= j < i ==> insertBefore[j] == NeedsIndent(cs, j)
      invariant prevWasNode == (i == 0 || cs[i - 1].Element?)
    {
      var c := m.children[i];
      if c.Text? {
        prevWasNode := false;
        insertBefore := insertBefore + [false];
        if i != n - 1 {
          var data := FixTextData(c.data, ideal);
          m.children := m.children[i := Text(data)];
        }
      } else {
        insertBefore := insertBefore + [prevWasNode];
        prevWasNode := true;
      }
    }
  }

  /** The second loop of enforce_tabbing_helper: the fixed children with an indentation before
      each noted element. */
  method InsertIndents(m: PackageXML, ghost cs: seq<Node>, insertBefore: seq<bool>, tabs: nat) returns (out: seq<Node>)
    requires m.tab.Some? && |m.children| == |cs| == |insertBefore|
    requires forall j :: 0 <= j < |cs| ==> m.children[j] == FixedAt(cs, j, m.tab.value * tabs)
    requires forall j :: 0 <= j < |cs| ==> insertBefore[j] == NeedsIndent(cs, j)
    modifies m
    ensures m.children == old(m.children) && m.format == old(m.format) && m.tab == old(m.tab)
    ensures out == Indented(cs, m.tab.value * tabs, |cs|)
  {
    var fixed := m.children;
    ghost var ideal := m.tab.value * tabs;
    out := [];
    for i := 0 to |fixed|
      invariant m.children == fixed && m.format == old(m.format) && m.tab == old(m.tab)
      invariant out == Indented(cs, ideal, i)
    {
      var piece: seq<Node> := [];
      if insertBefore[i] {
        var indent := m.TabElement(tabs);
        piece := [indent];
      }
      assert piece == if NeedsIndent(cs, i) then [Indent(ideal)] else [];
      out := out + piece + [fixed[i]];
    }
  }

  /** enforce_tabbing_helper(manifest, root, tabs) */
  method EnforceTabbing(m: PackageXML, tabs: nat)
    modifies m
    ensures m.format == old(m.format)
    ensures old(m.tab).Some? ==> m.tab == old(m.tab)
    ensures old(m.tab).None? ==> m.tab.Some? && IsStdTab(old(m.children), m.tab.value)
    ensures m.tab.Some? && m.children == Tabbed(old(m.children), m.tab.value, tabs)
  {
    var w := m.StdTab();
    var ideal := w * tabs;
    ghost var cs := m.children;
    var insertBefore := FixChildTexts(m, ideal);
    var out := InsertIndents(m, cs, insertBefore, tabs);
    m.children := out;
    var closed := CloseIndent(m, out, tabs);
  }

  /** The end of enforce_tabbing_helper: after a closing element, one indentation a level
      shallower. */
  method CloseIndent(m: PackageXML, out: seq<Node>, tabs: nat) returns (closed: bool)
    requires m.tab.Some? && m.children == out
    modifies m
    ensures m.format == old(m.format) && m.tab == old(m.tab)
    ensures closed == (out != [] && out[|out| - 1].Element?)
    ensures m.children == if closed then out + [Indent(if tabs == 0 then 0 else m.tab.value * (tabs - 1))] else out
  {
    closed := false;
    if |m.children| == 0 {
      return;
    }
    if m.children[|m.children| - 1].Element? {
      var last := Indent(0);
      if tabs > 0 {
        last := m.TabElement(tabs - 1);
      }
      m.children := m.children + [last];
      closed := true;
    }
  }
}
