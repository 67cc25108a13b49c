/** The shape shared by the roscompile edit passes: `for cmd in cmake.content_map[name]:` with
    each command object changed in place. In the model the loop visits the identities filed
    under `name`, follows each to its command, and replaces that command by its edited value. */
module CMakePass {
  import opened Base
  import opened CMakeDoc
  import opened CMakeFile
  import opened CMakeEdit

  /** One step of such a loop: the command's new value, or the exception the step raises. A
      pass may carry a state from one command to the next (the shared default style, say). */
  type Edit<!S> = (Command, S) -> Result<(Command, S), PyError>

  /** The loop over the identities `ids` filed under `name`. A group filed there has no command
      methods (AttributeError). */
  function EditEach<S>(d: CMake, name: string, ids: seq<nat>, st: S, f: Edit<S>): Result<(CMake, S), PyError>
    decreases |ids|
  {
    if ids == [] then Ok((d, st))
    else
      match ItemUnder(d.contents, name, ids[0])
      case None => EditEach(d, name, ids[1..], st, f)
      case Some(x) =>
        if !x.Cmd? then Err(AttributeError)
        else
          var p :- f(x.cmd, st);
          EditEach(UpdateCmd(d, p.0), name, ids[1..], p.1, f)
  }

  /** The loop itself: `for cmd in cmake.content_map[name]:` with the step applied to each
      command object in turn. */
  method EditPass<S>(d: CMake, name: string, st: S, f: Edit<S>) returns (r: Result<(CMake, S), PyError>)
    ensures r == EditEach(d, name, Lookup(d.contentMap, name), st, f)
  {
    var ids := Lookup(d.contentMap, name);
    var cur := d;
    var s := st;
    var i := 0;
    while i < |ids|
      invariant 0 <= i <= |ids|
      invariant EditEach(d, name, ids, st, f) == EditEach(cur, name, ids[i..], s, f)
    {
      assert ids[i..][1..] == ids[i + 1..];
      match ItemUnder(cur.contents, name, ids[i]) {
        case None =>
        case Some(x) =>
          if !x.Cmd? {
            return Err(AttributeError);
          }
          var p := f(x.cmd, s);
          if p.Err? {
            return Err(p.error);
          }
          cur := UpdateCmd(cur, p.value.0);
          s := p.value.1;
      }
      i := i + 1;
    }
    return Ok((cur, s));
  }

  /** A step that carries no state between commands. */
  function Stateless<S>(r: Result<Command, PyError>, st: S): (r': Result<(Command, S), PyError>)
    ensures r'.Ok? <==> r.Ok?
    ensures r.Ok? ==> r'.value == (r.value, st)
  {
    if r.Ok? then Ok((r.value, st)) else Err(r.error)
  }

  /** The step keeps the identity and the name of the command it edits. */
  ghost predicate KeepsIdentity<S(!new)>(f: Edit<S>)
  {
    forall c: Command, s: S :: f(c, s).Ok? ==> f(c, s).value.0.id == c.id && f(c, s).value.0.name == c.name
  }

  /** `c'` is what the step makes of `c` from some state. */
  ghost predicate Edited<S(!new)>(f: Edit<S>, c: Command, c': Command)
  {
    exists s: S :: f(c, s).Ok? && f(c, s).value.0 == c'
  }

  /** Whether the loop over `ids` visits the item. */
  predicate Visited(x: Content, name: string, ids: seq<nat>)
  {
    x.Cmd? && x.cmd.name == name && x.cmd.id in ids
  }

  /** The item `x` became `y`: an edit of it when the loop visits it, else `x` itself. */
  ghost predicate EditedItem<S(!new)>(x: Content, y: Content, name: string, ids: seq<nat>, f: Edit<S>)
  {
    if Visited(x, name, ids) then y.Cmd? && Edited(f, x.cmd, y.cmd) else y == x
  }

  /** `d'` is `d` after the loop: same index and depth, every item edited where it stands. */
  ghost predicate EditedDoc<S(!new)>(d: CMake, d': CMake, name: string, ids: seq<nat>, f: Edit<S>)
  {
    d'.contentMap == d.contentMap && d'.depth == d.depth && |d'.contents| == |d.contents|
    && Distinct(Ids(d'.contents))
    && (Consistent(d) ==> Consistent(d'))
    && forall j :: 0 <= j < |d.contents| ==> EditedItem(d.contents[j], d'.contents[j], name, ids, f)
  }

  /** The loop edits exactly the commands named `name` whose identities it visits, each once,
      where they stand; every other item and the index stay as they were, so the index
      invariant is kept. */
  lemma {:induction false} EditEachSpec<S(!new)>(d: CMake, name: string, ids: seq<nat>, st: S, f: Edit<S>)
    requires Distinct(Ids(d.contents)) && Distinct(ids) && KeepsIdentity(f)
    ensures EditEach(d, name, ids, st, f).Ok? ==> EditedDoc(d, EditEach(d, name, ids, st, f).value.0, name, ids, f)
    decreases |ids|
  {
    if ids != [] {
      var cs := d.contents;
      match ItemUnder(cs, name, ids[0])
      case None =>
        EditEachSpec(d, name, ids[1..], st, f);
        forall j | 0 <= j < |cs| && cs[j].Cmd? && cs[j].cmd.name == name
          ensures cs[j].cmd.id != ids[0]
        {
          InIdsUnder(cs, j);
        }
        VisitedTail(cs, name, ids);
      case Some(x) =>
        if x.Cmd? && f(x.cmd, st).Ok? {
          var p := f(x.cmd, st).value;
          var d1 := UpdateCmd(d, p.0);
          EditStep(d, name, ids, x, p.0);
          EditEachSpec(d1, name, ids[1..], p.1, f);
          var r := EditEach(d1, name, ids[1..], p.1, f);
          if r.Ok? {
            var d' := r.value.0;
            forall j | 0 <= j < |cs|
              ensures EditedItem(cs[j], d'.contents[j], name, ids, f)
            {
              JoinItem(cs[j], d1.contents[j], d'.contents[j], name, ids, f, st, x);
            }
          }
        }
    } else {
      assert EditedDoc(d, d, name, ids, f);
    }
  }

  /** With ids[0] filed under no command named `name`, the loop visits what its tail does. */
  lemma VisitedTail(cs: seq<Content>, name: string, ids: seq<nat>)
    requires ids != []
    requires forall j :: 0 <= j < |cs| && cs[j].Cmd? && cs[j].cmd.name == name ==> cs[j].cmd.id != ids[0]
    ensures forall j :: 0 <= j < |cs| ==> (Visited(cs[j], name, ids) <==> Visited(cs[j], name, ids[1..]))
  {
    assert ids == [ids[0]] + ids[1..];
  }

  /** One step of the loop: the command found is replaced where it stands, and nothing else. */
  lemma EditStep(d: CMake, name: string, ids: seq<nat>, x: Content, c: Command)
    requires Distinct(Ids(d.contents)) && ids != []
    requires ItemUnder(d.contents, name, ids[0]) == Some(x) && x.Cmd?
    requires c.id == x.cmd.id && c.name == x.cmd.name
    ensures Distinct(Ids(UpdateCmd(d, c).contents))
    ensures Consistent(d) ==> Consistent(UpdateCmd(d, c))
    ensures forall j :: 0 <= j < |d.contents| ==>
      if d.contents[j] == x then UpdateCmd(d, c).contents[j] == Cmd(c)
      else UpdateCmd(d, c).contents[j] == d.contents[j] && !(d.contents[j].Cmd? && d.contents[j].cmd.id == c.id)
  {
    var cs := d.contents;
    var p :| 0 <= p < |cs| && cs[p] == x;
    forall j | 0 <= j < |cs| && cs[j].Cmd? && cs[j].cmd.id == c.id
      ensures j == p
    {
      SameIdSamePosition(cs, j, p);
    }
    ReplaceAllIds(cs, c, name);
    if Consistent(d) {
      UpdateConsistent(d, c);
    }
  }

  /** One item, through the first step and the rest of the loop. */
  lemma JoinItem<S(!new)>(x: Content, y1: Content, y: Content, name: string, ids: seq<nat>, f: Edit<S>, st: S,
                          found: Content)
    requires ids != [] && Distinct(ids)
    requires found.Cmd? && found.cmd.name == name && found.cmd.id == ids[0] && f(found.cmd, st).Ok?
    requires x == found ==> y1 == Cmd(f(found.cmd, st).value.0)
    requires x != found ==> y1 == x && !(x.Cmd? && x.cmd.id == f(found.cmd, st).value.0.id)
    requires f(found.cmd, st).value.0.id == ids[0]
    requires EditedItem(y1, y, name, ids[1..], f)
    ensures EditedItem(x, y, name, ids, f)
  {
    assert ids == [ids[0]] + ids[1..];
    if x == found {
      assert ids[0] !in ids[1..];
    }
  }
  // ---------------------------------------------------------------------------------------
  // The identities a loop over `content_map[name]` visits

  /** In a consistent document, `content_map[name]` lists each identity once, and it lists every
      command named `name`. */
  lemma FiledIds(d: CMake, name: string)
    requires Consistent(d)
    ensures Distinct(Lookup(d.contentMap, name))
    ensures forall j :: 0 <= j < |d.contents| && d.contents[j].Cmd? && d.contents[j].cmd.name == name ==>
      Visited(d.contents[j], name, Lookup(d.contentMap, name))
  {
    IdsUnderInIds(d.contents, name);
    DistinctMultiset(Ids(d.contents), Lookup(d.contentMap, name));
    forall j | 0 <= j < |d.contents| && d.contents[j].Cmd? && d.contents[j].cmd.name == name
      ensures d.contents[j].cmd.id in Lookup(d.contentMap, name)
    {
      InIdsUnder(d.contents, j);
      assert d.contents[j].cmd.id in multiset(IdsUnder(d.contents, name));
    }
  }

  /** Item by item, `b` files the same identities under the same keys as `a`. */
  predicate SameFiled(a: seq<Content>, b: seq<Content>)
  {
    |a| == |b|
    && forall j :: 0 <= j < |a| ==>
         a[j].Raw? == b[j].Raw? && KeyOf(a[j]) == KeyOf(b[j]) && (!a[j].Raw? ==> IdOf(a[j]) == IdOf(b[j]))
  }

  /** Such contents have the same identities under every key, so a document keeps its index
      invariant when its contents are replaced by them. */
  lemma {:induction false} SameFiling(a: seq<Content>, b: seq<Content>)
    requires SameFiled(a, b)
    ensures Ids(a) == Ids(b)
    ensures forall k :: IdsUnder(a, k) == IdsUnder(b, k)
  {
    if a != [] {
      assert SameFiled(a[1..], b[1..]);
      SameFiling(a[1..], b[1..]);
    }
  }

  /** Edited contents keep every identity, so a fresh identity stays fresh. */
  lemma EditedIds<S(!new)>(d: CMake, d': CMake, name: string, ids: seq<nat>, f: Edit<S>)
    requires KeepsIdentity(f) && EditedDoc(d, d', name, ids, f)
    ensures Ids(d'.contents) == Ids(d.contents)
  {
    forall j | 0 <= j < |d.contents|
      ensures d'.contents[j].Raw? == d.contents[j].Raw? && KeyOf(d'.contents[j]) == KeyOf(d.contents[j])
      ensures !d.contents[j].Raw? ==> IdOf(d'.contents[j]) == IdOf(d.contents[j])
    {
      var x := d.contents[j];
      if Visited(x, name, ids) {
        var s: S :| f(x.cmd, s).Ok? && f(x.cmd, s).value.0 == d'.contents[j].cmd;
      }
    }
    SameFiling(d.contents, d'.contents);
  }

  /** add_command puts exactly one new identity into the contents. */
  lemma AddedIds(d: CMake, c: Content)
    requires !c.Raw? && AddCommand(d, c).Ok?
    ensures forall id :: id in Ids(AddCommand(d, c).value.contents) <==> id in Ids(d.contents) || id == IdOf(c)
  {
    var i := InsertionIndexOf(d, c).value;
    var cs := d.contents;
    var sp := Spliced(d, i, c);
    assert cs == cs[..i] + cs[i..];
    SplicedShape(d, i, c);
    IdsAppend(cs[..i] + sp, cs[i..]);
    IdsAppend(cs[..i], sp);
    IdsAppend(cs[..i], cs[i..]);
  }

  /** section_check files nothing new under any other command name. */
  lemma SectionCheckLookup(d: CMake, items: seq<string>, name: string, key: string, zeroOkay: bool, alpha: bool,
                           freshId: nat, k: string)
    requires k != name && SectionCheck(d, items, name, key, zeroOkay, alpha, freshId).Ok?
    ensures Lookup(SectionCheck(d, items, name, key, zeroOkay, alpha, freshId).value.contentMap, k) == Lookup(d.contentMap, k)
  {
    if !(|items| == 0 && !zeroOkay) && CommandSection(d, name, key).value.NotFound? {
      FileUnderLookup(d.contentMap, Cmd(NewCommand(freshId, name)), k);
    }
  }
  /** The loop fails only where a step does: with a step that succeeds on every command filed
      under `name` (never a group, which is filed under 'group'), the whole loop succeeds. */
  lemma {:induction false} EditEachOk<S(!new)>(d: CMake, name: string, ids: seq<nat>, st: S, f: Edit<S>)
    requires Distinct(Ids(d.contents)) && Distinct(ids) && KeepsIdentity(f) && name != "group"
    requires forall id :: id in ids && ItemUnder(d.contents, name, id).Some? && ItemUnder(d.contents, name, id).value.Cmd? ==>
      forall s: S :: f(ItemUnder(d.contents, name, id).value.cmd, s).Ok?
    ensures EditEach(d, name, ids, st, f).Ok?
    decreases |ids|
  {
    if ids != [] {
      DistinctTail(ids);
      match ItemUnder(d.contents, name, ids[0])
      case None =>
        EditEachOk(d, name, ids[1..], st, f);
      case Some(x) =>
        var p := f(x.cmd, st).value;
        var d1 := UpdateCmd(d, p.0);
        SameNameOf(d.contents, x.cmd, p.0);
        ReplaceAllIds(d.contents, p.0, name);
        forall id | id in ids[1..]
          ensures ItemUnder(d1.contents, name, id) == ItemUnder(d.contents, name, id)
        {
          ItemUnderReplaced(d.contents, p.0, name, id);
        }
        EditEachOk(d1, name, ids[1..], p.1, f);
    }
  }

  lemma DistinctTail<T>(xs: seq<T>)
    requires Distinct(xs) && xs != []
    ensures Distinct(xs[1..]) && xs[0] !in xs[1..]
  {
    forall m | 0 <= m < |xs[1..]|
      ensures xs[1..][m] != xs[0]
    {
      assert xs[1..][m] == xs[m + 1];
    }
  }
}
