/** match_command_groups (ros_introspection/cmake_parser.py:30-64): folding `if`/`endif` and
    `foreach`/`endforeach` command pairs, and everything between them, into CommandGroup
    items whose interior is a nested CMake document. */
module CMakeGroups {
  import opened Base
  import opened CMakeDoc
  import opened CMakeFile

  /** `content.__class__ == Command and content.command_name == name` */
  predicate IsCommand(c: Content, name: string)
  {
    c.Cmd? && c.cmd.name == name
  }

  /** The commands that open a group. */
  predicate Opens(c: Content)
  {
    IsCommand(c, "if") || IsCommand(c, "foreach")
  }

  function Shift(o: Option<nat>, k: nat): Option<nat>
  {
    if o.Some? then Some(o.value + k) else None
  }

  /** Where, in the items `xs` that follow an opener named `name`, the group closes when
      `depth` groups of that name are open: the first `"end" + name` command that brings the
      depth to zero. Further commands named `name` open a level each. */
  function Closer(xs: seq<Content>, name: string, depth: nat): (r: Option<nat>)
    requires depth >= 1
    ensures r.Some? ==> r.value < |xs| && IsCommand(xs[r.value], "end" + name)
    decreases |xs|
  {
    if xs == [] then None
    else if IsCommand(xs[0], name) then Shift(Closer(xs[1..], name, depth + 1), 1)
    else if IsCommand(xs[0], "end" + name) then
      if depth == 1 then Some(0) else Shift(Closer(xs[1..], name, depth - 1), 1)
    else Shift(Closer(xs[1..], name, depth), 1)
  }

  /** The grouping, defined by where each group closes: an opener with a closer becomes a
      CommandGroup (with the opener's identity) whose sub-document, at depth `base + 1`, is
      the grouped interior, grouped in turn; an opener without a closer is dropped and the
      items after it are kept ungrouped. */
  function MatchGroups(cs: seq<Content>, base: nat): seq<Content>
    decreases |cs|
  {
    if cs == [] then []
    else if Opens(cs[0]) then
      match Closer(cs[1..], cs[0].cmd.name, 1)
      case None => cs[1..]
      case Some(j) =>
        var sub := MatchGroups(cs[1..1 + j], base + 1);
        [Group(cs[0].cmd.id, cs[0].cmd, CMake(sub, Index(sub), base + 1), cs[1 + j].cmd)]
          + MatchGroups(cs[2 + j..], base)
    else [cs[0]] + MatchGroups(cs[1..], base)
  }

  /** Every opener, at every level, has its closer. */
  predicate Closed(cs: seq<Content>)
    decreases |cs|
  {
    if cs == [] then true
    else if Opens(cs[0]) then
      match Closer(cs[1..], cs[0].cmd.name, 1)
      case None => false
      case Some(j) => Closed(cs[1..1 + j]) && Closed(cs[2 + j..])
    else Closed(cs[1..])
  }

  lemma MatchGroupsPlain(cs: seq<Content>, i: nat, base: nat)
    requires i < |cs| && !Opens(cs[i])
    ensures MatchGroups(cs[i..], base) == [cs[i]] + MatchGroups(cs[i + 1..], base)
  {
    assert cs[i..][1..] == cs[i + 1..];
  }

  lemma MatchGroupsClosed(cs: seq<Content>, o: nat, i: nat, base: nat)
    requires o < i < |cs| && Opens(cs[o])
    requires Closer(cs[o + 1..], cs[o].cmd.name, 1) == Some(i - (o + 1))
    ensures var sub := MatchGroups(cs[o + 1..i], base + 1);
      MatchGroups(cs[o..], base)
      == [Group(cs[o].cmd.id, cs[o].cmd, CMake(sub, Index(sub), base + 1), cs[i].cmd)]
         + MatchGroups(cs[i + 1..], base)
  {
    var j := i - (o + 1);
    assert cs[o..][1..] == cs[o + 1..];
    assert cs[o..][1..1 + j] == cs[o + 1..i];
    assert cs[o..][2 + j..] == cs[i + 1..];
  }

  lemma MatchGroupsUnclosed(cs: seq<Content>, o: nat, base: nat)
    requires o < |cs| && Opens(cs[o])
    requires Closer(cs[o + 1..], cs[o].cmd.name, 1).None?
    ensures MatchGroups(cs[o..], base) == cs[o + 1..]
  {
    SliceDrop(cs, o);
  }

  /** One step of the closer search, as the loop takes it. */
  lemma CloserStep(cs: seq<Content>, i: nat, name: string, depth: nat)
    requires i < |cs| && depth >= 1
    ensures Closer(cs[i..], name, depth) ==
      if IsCommand(cs[i], name) then Shift(Closer(cs[i + 1..], name, depth + 1), 1)
      else if IsCommand(cs[i], "end" + name) then
        (if depth == 1 then Some(0) else Shift(Closer(cs[i + 1..], name, depth - 1), 1))
      else Shift(Closer(cs[i + 1..], name, depth), 1)
  {
    SliceDrop(cs, i);
  }

  /** The loop state while a group opened at `o` is being collected up to position `i`. */
  ghost predicate Collecting(cs: seq<Content>, o: nat, i: nat, g: Command, depth: nat)
  {
    o < i <= |cs| && cs[o] == Cmd(g) && Opens(cs[o]) && depth >= 1
    && Closer(cs[o + 1..], g.name, 1) == Shift(Closer(cs[i..], g.name, depth), i - (o + 1))
  }

  lemma CollectStart(cs: seq<Content>, i: nat, g: Command)
    requires i < |cs| && cs[i] == Cmd(g) && Opens(cs[i])
    ensures Collecting(cs, i, i + 1, g, 1)
  {
  }

  /** The nesting depth after one more item inside a group opened by a command named `name`. */
  function NextDepth(c: Content, name: string, depth: nat): nat
  {
    if IsCommand(c, name) then depth + 1
    else if IsCommand(c, "end" + name) && depth > 0 then depth - 1
    else depth
  }

  lemma CollectStep(cs: seq<Content>, o: nat, i: nat, g: Command, depth: nat)
    requires Collecting(cs, o, i, g, depth) && i < |cs|
    requires !(IsCommand(cs[i], "end" + g.name) && depth == 1)
    ensures Collecting(cs, o, i + 1, g, NextDepth(cs[i], g.name, depth))
  {
    CloserStep(cs, i, g.name, depth);
    var d' := NextDepth(cs[i], g.name, depth);
    assert d' >= 1;
    assert Closer(cs[i..], g.name, depth) == Shift(Closer(cs[i + 1..], g.name, d'), 1);
    ShiftShift(Closer(cs[i + 1..], g.name, d'), 1, i - (o + 1));
  }

  lemma ShiftShift(x: Option<nat>, a: nat, b: nat)
    ensures Shift(Shift(x, a), b) == Shift(x, a + b)
  {
  }

  lemma CollectEnd(cs: seq<Content>, o: nat, i: nat, g: Command, base: nat)
    requires Collecting(cs, o, i, g, 1) && i < |cs| && IsCommand(cs[i], "end" + g.name)
    ensures var sub := MatchGroups(cs[o + 1..i], base + 1);
      MatchGroups(cs[o..], base)
      == [Group(g.id, g, CMake(sub, Index(sub), base + 1), cs[i].cmd)] + MatchGroups(cs[i + 1..], base)
  {
    CloserStep(cs, i, g.name, 1);
    MatchGroupsClosed(cs, o, i, base);
  }

  lemma CollectUnfinished(cs: seq<Content>, o: nat, g: Command, depth: nat, base: nat)
    requires Collecting(cs, o, |cs|, g, depth)
    ensures MatchGroups(cs[o..], base) == cs[o + 1..]
  {
    assert cs[|cs|..] == [];
    MatchGroupsUnclosed(cs, o, base);
  }

  lemma AppendAssoc<T>(a: seq<T>, x: T, b: seq<T>, c: seq<T>)
    requires c == [x] + b
    ensures a + c == (a + [x]) + b
  {
  }

  /** The state of the loop of match_command_groups before item `i`: either no group is open
      and `revised` followed by the grouping of the rest is the grouping of everything, or the
      group opened at `o` is being collected into `current`. */
  ghost predicate Grouping(cs: seq<Content>, base: nat, i: nat, revised: seq<Content>, current: seq<Content>,
                           group: Option<Command>, depth: nat, o: nat)
  {
    i <= |cs|
    && (group.None? ==>
          current == [] && revised + MatchGroups(cs[i..], base) == MatchGroups(cs, base))
    && (group.Some? ==>
          depth > base && Collecting(cs, o, i, group.value, depth - base) && current == cs[o + 1..i]
          && revised + MatchGroups(cs[o..], base) == MatchGroups(cs, base))
  }

  lemma GroupingOpen(cs: seq<Content>, base: nat, i: nat, revised: seq<Content>, current: seq<Content>,
                     group: Option<Command>, depth: nat, o: nat)
    requires Grouping(cs, base, i, revised, current, group, depth, o)
    requires group.None? && i < |cs| && Opens(cs[i])
    ensures Grouping(cs, base, i + 1, revised, current, Some(cs[i].cmd), base + 1, i)
  {
    CollectStart(cs, i, cs[i].cmd);
    assert cs[i + 1..i + 1] == [];
  }

  lemma GroupingPlain(cs: seq<Content>, base: nat, i: nat, revised: seq<Content>, current: seq<Content>,
                      group: Option<Command>, depth: nat, o: nat)
    requires Grouping(cs, base, i, revised, current, group, depth, o)
    requires group.None? && i < |cs| && !Opens(cs[i])
    ensures Grouping(cs, base, i + 1, revised + [cs[i]], current, group, depth, o)
  {
    MatchGroupsPlain(cs, i, base);
    AppendAssoc(revised, cs[i], MatchGroups(cs[i + 1..], base), MatchGroups(cs[i..], base));
  }

  lemma GroupingClose(cs: seq<Content>, base: nat, i: nat, revised: seq<Content>, current: seq<Content>,
                      group: Option<Command>, depth: nat, o: nat, sub: CMake)
    requires Grouping(cs, base, i, revised, current, group, depth, o)
    requires group.Some? && depth == base + 1 && i < |cs| && IsCommand(cs[i], "end" + group.value.name)
    requires sub == CMake(MatchGroups(current, base + 1), Index(MatchGroups(current, base + 1)), base + 1)
    ensures Grouping(cs, base, i + 1, revised + [Group(group.value.id, group.value, sub, cs[i].cmd)], [], None, base, o)
  {
    var g := group.value;
    CollectEnd(cs, o, i, g, base);
    AppendAssoc(revised, Group(g.id, g, sub, cs[i].cmd), MatchGroups(cs[i + 1..], base), MatchGroups(cs[o..], base));
  }

  lemma GroupingCollect(cs: seq<Content>, base: nat, i: nat, revised: seq<Content>, current: seq<Content>,
                        group: Option<Command>, depth: nat, o: nat)
    requires Grouping(cs, base, i, revised, current, group, depth, o)
    requires group.Some? && i < |cs| && !(IsCommand(cs[i], "end" + group.value.name) && depth == base + 1)
    ensures Grouping(cs, base, i + 1, revised, current + [cs[i]], group, NextDepth(cs[i], group.value.name, depth), o)
  {
    CollectStep(cs, o, i, group.value, depth - base);
    SliceSnocFrom(cs, o + 1, i);
  }

  lemma GroupingDone(cs: seq<Content>, base: nat, revised: seq<Content>, current: seq<Content>,
                     group: Option<Command>, depth: nat, o: nat)
    requires Grouping(cs, base, |cs|, revised, current, group, depth, o)
    ensures revised + current == MatchGroups(cs, base)
  {
    if group.Some? {
      CollectUnfinished(cs, o, group.value, depth - base, base);
    } else {
      assert cs[|cs|..] == [];
    }
  }

  /** The variables of the loop of match_command_groups: the items grouped so far, the items
      of the open group, the open group and the nesting depth. */
  datatype LoopState = LoopState(revised: seq<Content>, current: seq<Content>, group: Option<Command>, depth: nat)

  /** One iteration of the loop on item `c`. A closing command hands the open group's items
      to the recursive call. */
  function Step(c: Content, base: nat, st: LoopState): LoopState
  {
    if st.group.None? then
      if Opens(c) then st.(group := Some(c.cmd), depth := base + 1)
      else st.(revised := st.revised + [c])
    else if IsCommand(c, "end" + st.group.value.name) && st.depth == base + 1 then
      var sub := MatchGroups(st.current, base + 1);
      var g := st.group.value;
      LoopState(st.revised + [Group(g.id, g, CMake(sub, Index(sub), base + 1), c.cmd)], [], None, base)
    else st.(current := st.current + [c], depth := NextDepth(c, st.group.value.name, st.depth))
  }

  /** The loop from item `i` on, and what it returns. */
  function GroupLoop(cs: seq<Content>, base: nat, i: nat, st: LoopState): seq<Content>
    requires i <= |cs|
    decreases |cs| - i
  {
    if i == |cs| then st.revised + st.current else GroupLoop(cs, base, i + 1, Step(cs[i], base, st))
  }

  ghost predicate Reachable(cs: seq<Content>, base: nat, i: nat, st: LoopState, o: nat)
  {
    Grouping(cs, base, i, st.revised, st.current, st.group, st.depth, o)
  }

  /** One iteration keeps the loop state reachable; the result is where the open group starts. */
  lemma StepGrouping(cs: seq<Content>, base: nat, i: nat, st: LoopState, o: nat) returns (o': nat)
    requires i < |cs| && Reachable(cs, base, i, st, o)
    ensures Reachable(cs, base, i + 1, Step(cs[i], base, st), o')
  {
    o' := o;
    if st.group.None? {
      if Opens(cs[i]) {
        GroupingOpen(cs, base, i, st.revised, st.current, st.group, st.depth, o);
        o' := i;
      } else {
        GroupingPlain(cs, base, i, st.revised, st.current, st.group, st.depth, o);
      }
    } else if IsCommand(cs[i], "end" + st.group.value.name) && st.depth == base + 1 {
      var sub := MatchGroups(st.current, base + 1);
      GroupingClose(cs, base, i, st.revised, st.current, st.group, st.depth, o, CMake(sub, Index(sub), base + 1));
    } else {
      GroupingCollect(cs, base, i, st.revised, st.current, st.group, st.depth, o);
    }
  }

  /** From any reachable state, the loop computes the grouping. */
  lemma {:induction false} GroupLoopGroups(cs: seq<Content>, base: nat, i: nat, st: LoopState, o: nat)
    requires Reachable(cs, base, i, st, o)
    ensures GroupLoop(cs, base, i, st) == MatchGroups(cs, base)
    decreases |cs| - i
  {
    if i == |cs| {
      GroupLoopEnd(cs, base, st, o);
    } else {
      var o' := StepGrouping(cs, base, i, st, o);
      GroupLoopGroups(cs, base, i + 1, Step(cs[i], base, st), o');
      GroupLoopUnfold(cs, base, i, st);
    }
  }

  lemma GroupLoopEnd(cs: seq<Content>, base: nat, st: LoopState, o: nat)
    requires Reachable(cs, base, |cs|, st, o)
    ensures GroupLoop(cs, base, |cs|, st) == MatchGroups(cs, base)
  {
    GroupingDone(cs, base, st.revised, st.current, st.group, st.depth, o);
  }

  lemma GroupLoopUnfold(cs: seq<Content>, base: nat, i: nat, st: LoopState)
    requires i < |cs|
    ensures GroupLoop(cs, base, i, st) == GroupLoop(cs, base, i + 1, Step(cs[i], base, st))
  {
  }

  lemma GroupLoopStart(cs: seq<Content>, base: nat)
    ensures GroupLoop(cs, base, 0, LoopState([], [], None, base)) == MatchGroups(cs, base)
  {
    assert cs[0..] == cs;
    GroupLoopGroups(cs, base, 0, LoopState([], [], None, base), 0);
  }

  // ---------------------------------------------------------------------------------------
  // Printing the grouped document

  /** An item that prints as it was read: raw text, or an unchanged command whose non-empty
      original text is printed back. */
  predicate Verbatim(c: Content)
  {
    c.Raw? || (c.Cmd? && c.cmd.original.Some? && c.cmd.original.value != [] && !c.cmd.changed)
  }

  lemma ContentsTextCons(c: Content, cs: seq<Content>, shared: SectionStyle)
    ensures ContentsText([c] + cs, shared) ==
      (if ContentText(c, shared).Some? && ContentsText(cs, shared).Some?
       then Some(ContentText(c, shared).value + ContentsText(cs, shared).value) else None)
  {
    assert ([c] + cs)[0] == c;
    assert ([c] + cs)[1..] == cs;
  }

  /** What MatchGroupsText states, for one document. */
  ghost predicate TextKept(cs: seq<Content>, base: nat, shared: SectionStyle)
  {
    ContentsText(cs, shared).Some? && ContentsText(MatchGroups(cs, base), shared).Some?
    && (Closed(cs) ==> ContentsText(MatchGroups(cs, base), shared) == ContentsText(cs, shared))
    && (!Closed(cs) ==> |ContentsText(MatchGroups(cs, base), shared).value| < |ContentsText(cs, shared).value|)
  }

  /** The printed group is the opener, the grouped interior and the closer. */
  lemma GroupText(c: Content, sub: seq<Content>, e: Content, rest: seq<Content>, base: nat, shared: SectionStyle)
    requires c.Cmd? && e.Cmd? && ContentText(c, shared).Some? && ContentText(e, shared).Some?
    requires ContentsText(sub, shared).Some? && ContentsText(rest, shared).Some?
    ensures var g := Group(c.cmd.id, c.cmd, CMake(sub, Index(sub), base + 1), e.cmd);
      ContentsText([g] + rest, shared)
      == Some(ContentText(c, shared).value + ContentsText(sub, shared).value + ContentText(e, shared).value
              + ContentsText(rest, shared).value)
  {
    var g := Group(c.cmd.id, c.cmd, CMake(sub, Index(sub), base + 1), e.cmd);
    ContentsTextCons(g, rest, shared);
  }

  lemma ClosedUnfold(cs: seq<Content>, j: nat)
    requires cs != [] && Opens(cs[0]) && Closer(cs[1..], cs[0].cmd.name, 1) == Some(j)
    ensures Closed(cs) == (Closed(cs[1..1 + j]) && Closed(cs[2 + j..]))
  {
  }

  /** A document split around a closer prints as its parts. */
  lemma SplitText(cs: seq<Content>, j: nat, shared: SectionStyle)
    requires 1 + j < |cs| && ContentText(cs[0], shared).Some? && ContentText(cs[1 + j], shared).Some?
    requires ContentsText(cs[1..1 + j], shared).Some? && ContentsText(cs[2 + j..], shared).Some?
    ensures ContentsText(cs, shared) == Some(ContentText(cs[0], shared).value
      + ContentsText(cs[1..1 + j], shared).value + ContentText(cs[1 + j], shared).value
      + ContentsText(cs[2 + j..], shared).value)
  {
    var c, body, e, rest := cs[0], cs[1..1 + j], cs[1 + j], cs[2 + j..];
    SliceCons(cs, 0);
    SliceMid(cs, 1, 1 + j);
    SliceCons(cs, 1 + j);
    assert cs[0..] == cs;
    ContentsTextCons(e, rest, shared);
    ContentsTextAppend(body, cs[1 + j..], shared);
    ContentsTextCons(c, cs[1..], shared);
    FourParts(ContentText(c, shared).value, ContentsText(body, shared).value, ContentText(e, shared).value,
              ContentsText(rest, shared).value, "", "");
  }

  /** Lengths of four-part strings. */
  lemma FourParts(a: string, b: string, d: string, r: string, b': string, r': string)
    ensures |a + b' + d + r'| - |a + b + d + r| == (|b'| - |b|) + (|r'| - |r|)
    ensures b == b' && r == r' ==> a + b' + d + r' == a + b + d + r
    ensures a + (b + (d + r)) == a + b + d + r
  {
  }

  /** The interior and the remainder of a closed group print, grouped, as they did. */
  lemma ClosedGroupText(cs: seq<Content>, j: nat, base: nat, shared: SectionStyle)
    requires cs != [] && Opens(cs[0]) && Closer(cs[1..], cs[0].cmd.name, 1) == Some(j)
    requires Verbatim(cs[0]) && Verbatim(cs[1 + j])
    requires TextKept(cs[1..1 + j], base + 1, shared) && TextKept(cs[2 + j..], base, shared)
    ensures TextKept(cs, base, shared)
  {
    var c, body, e, rest := cs[0], cs[1..1 + j], cs[1 + j], cs[2 + j..];
    assert cs[0..] == cs;
    MatchGroupsClosed(cs, 0, 1 + j, base);
    ClosedUnfold(cs, j);
    SplitText(cs, j, shared);
    GroupText(c, MatchGroups(body, base + 1), e, MatchGroups(rest, base), base, shared);
    FourParts(ContentText(c, shared).value, ContentsText(body, shared).value, ContentText(e, shared).value,
              ContentsText(rest, shared).value, ContentsText(MatchGroups(body, base + 1), shared).value,
              ContentsText(MatchGroups(rest, base), shared).value);
  }

  /** Grouping keeps the printed text of a verbatim document exactly when every group closes;
      an unclosed opener is dropped, so the text gets shorter. */
  lemma {:induction false} MatchGroupsText(cs: seq<Content>, base: nat, shared: SectionStyle)
    requires forall i :: 0 <= i < |cs| ==> Verbatim(cs[i])
    ensures ContentsText(cs, shared).Some? && ContentsText(MatchGroups(cs, base), shared).Some?
    ensures Closed(cs) ==> ContentsText(MatchGroups(cs, base), shared) == ContentsText(cs, shared)
    ensures !Closed(cs) ==>
      |ContentsText(MatchGroups(cs, base), shared).value| < |ContentsText(cs, shared).value|
    decreases |cs|
  {
    if cs != [] {
      var c := cs[0];
      assert cs == [c] + cs[1..];
      ContentsTextCons(c, cs[1..], shared);
      if Opens(c) && Closer(cs[1..], c.cmd.name, 1).Some? {
        var j := Closer(cs[1..], c.cmd.name, 1).value;
        MatchGroupsText(cs[1..1 + j], base + 1, shared);
        MatchGroupsText(cs[2 + j..], base, shared);
        ClosedGroupText(cs, j, base, shared);
      } else {
        MatchGroupsText(cs[1..], base, shared);
        if !Opens(c) {
          ContentsTextCons(c, MatchGroups(cs[1..], base), shared);
        }
      }
    }
  }

  // ---------------------------------------------------------------------------------------
  // Identities

  /** The identities of the top-level items, in document order, ascend and lie in [lo, hi). */
  predicate IdsIn(cs: seq<Content>, lo: nat, hi: nat)
  {
    var ids := Ids(cs);
    (forall i, j :: 0 <= i < j < |ids| ==> ids[i] < ids[j])
    && forall i :: 0 <= i < |ids| ==> lo <= ids[i] < hi
  }

  /** Dropping a prefix keeps the identities in range; after a command or group they lie
      above its identity. */
  lemma IdsInSuffix(cs: seq<Content>, k: nat, lo: nat, hi: nat)
    requires IdsIn(cs, lo, hi) && 0 < k <= |cs|
    ensures IdsIn(cs[k..], lo, hi)
    ensures !cs[0].Raw? ==> IdsIn(cs[k..], IdOf(cs[0]) + 1, hi)
  {
    SliceSplit(cs, k);
    IdsAppend(cs[..k], cs[k..]);
    var ids, a, b := Ids(cs), Ids(cs[..k]), Ids(cs[k..]);
    assert ids == a + b;
    forall i, j | 0 <= i < j < |b|
      ensures b[i] < b[j]
    {
      assert b[i] == ids[|a| + i] && b[j] == ids[|a| + j];
    }
    if !cs[0].Raw? {
      assert cs[..k][0] == cs[0];
      assert a[0] == IdOf(cs[0]) == ids[0];
    }
    forall i | 0 <= i < |b|
      ensures lo <= b[i] < hi && (!cs[0].Raw? ==> IdOf(cs[0]) < b[i])
    {
      assert b[i] == ids[|a| + i];
    }
  }

  /** One item in front of items whose identities lie above its own. */
  lemma IdsInCons(c: Content, rest: seq<Content>, lo: nat, hi: nat)
    requires c.Raw? ==> IdsIn(rest, lo, hi)
    requires !c.Raw? ==> lo <= IdOf(c) < hi && IdsIn(rest, IdOf(c) + 1, hi)
    ensures IdsIn([c] + rest, lo, hi)
  {
    assert ([c] + rest)[0] == c;
    assert ([c] + rest)[1..] == rest;
  }

  /** Grouping keeps the top-level identities ascending: a group takes its opener's
      identity, and the items after it come later in the document. */
  lemma {:induction false} MatchGroupsIds(cs: seq<Content>, base: nat, lo: nat, hi: nat)
    requires IdsIn(cs, lo, hi)
    ensures IdsIn(MatchGroups(cs, base), lo, hi)
    decreases |cs|
  {
    if cs != [] {
      var c := cs[0];
      if Opens(c) {
        match Closer(cs[1..], c.cmd.name, 1)
        case None =>
          IdsInSuffix(cs, 1, lo, hi);
        case Some(j) =>
          var sub := MatchGroups(cs[1..1 + j], base + 1);
          var g := Group(c.cmd.id, c.cmd, CMake(sub, Index(sub), base + 1), cs[1 + j].cmd);
          IdsInSuffix(cs, 2 + j, lo, hi);
          MatchGroupsIds(cs[2 + j..], base, c.cmd.id + 1, hi);
          assert Ids(cs)[0] == c.cmd.id;
          IdsInCons(g, MatchGroups(cs[2 + j..], base), lo, hi);
      } else {
        IdsInSuffix(cs, 1, lo, hi);
        if c.Raw? {
          MatchGroupsIds(cs[1..], base, lo, hi);
        } else {
          assert Ids(cs)[0] == IdOf(c);
          MatchGroupsIds(cs[1..], base, IdOf(c) + 1, hi);
        }
        IdsInCons(c, MatchGroups(cs[1..], base), lo, hi);
      }
    }
  }

  /** match_command_groups(contents, base_depth), the loop of the source. */
  method MatchCommandGroups(contents: seq<Content>, baseDepth: nat) returns (revised: seq<Content>)
    ensures revised == MatchGroups(contents, baseDepth)
    decreases |contents|
  {
    revised := [];
    var current: seq<Content> := [];
    var group: Option<Command> := None;
    var depth: nat := baseDepth;
    for i := 0 to |contents|
      invariant |current| <= i
      invariant group.Some? ==> depth > baseDepth
      invariant GroupLoop(contents, baseDepth, i, LoopState(revised, current, group, depth))
             == GroupLoop(contents, baseDepth, 0, LoopState([], [], None, baseDepth))
    {
      var content := contents[i];
      if group.None? {
        if content.Cmd? && (content.cmd.name == "if" || content.cmd.name == "foreach") {
          group := Some(content.cmd);
          depth := baseDepth + 1;
        } else {
          revised := revised + [content];
        }
      } else if content.Cmd? && content.cmd.name == "end" + group.value.name && depth - 1 == baseDepth {
        var recursive := MatchCommandGroups(current, baseDepth + 1);
        var sub := NewCMake(recursive, baseDepth + 1);
        revised := revised + [Group(group.value.id, group.value, sub, content.cmd)];
        group := None;
        current := [];
        depth := baseDepth;
      } else {
        if content.Cmd? && content.cmd.name == group.value.name {
          depth := depth + 1;
        } else if content.Cmd? && content.cmd.name == "end" + group.value.name {
          depth := depth - 1;
        }
        current := current + [content];
      }
    }
    GroupLoopStart(contents, baseDepth);
    revised := revised + current;
  }
}
