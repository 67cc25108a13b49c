/** An RViz configuration (ros_introspection rviz_config.py): the YAML tree, the display classes
    it names, the packages those come from, and the subtraction of one configuration's settings
    from another. Reading and writing the file are not part of this model. */
module RvizConfig {
  import opened Base
  import Str

  /** A YAML value as yaml.safe_load returns it for the strings, integers, finite floats,
      booleans, nulls, lists and string-keyed mappings an RViz configuration holds. A mapping is
      its entries in the order Python iterates them; a loaded one has distinct keys. */
  datatype Yaml =
    | Text(s: string)
    | Number(n: int)
    | Float(r: real)
    | Flag(b: bool)
    | Nil
    | List(items: seq<Yaml>)
    | Dict(entries: seq<(string, Yaml)>)

  /** Python truthiness. */
  predicate Truthy(y: Yaml)
  {
    match y
    case Text(s) => s != ""
    case Number(n) => n != 0
    case Float(r) => r != 0.0
    case Flag(b) => b
    case Nil => false
    case List(items) => items != []
    case Dict(entries) => entries != []
  }

  // ---------------------------------------------------------------------------------------
  // Mappings as entry lists

  /** `d.get(k)` */
  function Lookup(es: seq<(string, Yaml)>, k: string): Option<Yaml>
  {
    if es == [] then None else if es[0].0 == k then Some(es[0].1) else Lookup(es[1..], k)
  }

  /** `del d[k]` for a key `d` holds. */
  function Without(es: seq<(string, Yaml)>, k: string): seq<(string, Yaml)>
  {
    if es == [] then [] else if es[0].0 == k then es[1..] else [es[0]] + Without(es[1..], k)
  }

  /** `d[k] = v` for a key `d` holds, in place. */
  function Replace(es: seq<(string, Yaml)>, k: string, v: Yaml): seq<(string, Yaml)>
  {
    if es == [] then [] else if es[0].0 == k then [(k, v)] + es[1..] else [es[0]] + Replace(es[1..], k, v)
  }

  predicate DistinctKeys(es: seq<(string, Yaml)>)
  {
    forall i, j :: 0 <= i < j < |es| ==> es[i].0 != es[j].0
  }

  lemma {:induction false} WithoutLookup(es: seq<(string, Yaml)>, k: string, q: string)
    requires DistinctKeys(es)
    ensures Lookup(Without(es, k), q) == if q == k then None else Lookup(es, q)
    ensures DistinctKeys(Without(es, k))
  {
    if es != [] {
      assert DistinctKeys(es[1..]) by {
        forall i, j | 0 <= i < j < |es[1..]| ensures es[1..][i].0 != es[1..][j].0 {
          assert es[1..][i] == es[i + 1] && es[1..][j] == es[j + 1];
        }
      }
      if es[0].0 == k {
        if q == k {
          LookupAbsent(es[1..], k);
        }
      } else {
        WithoutLookup(es[1..], k, q);
        WithoutKeys(es[1..], k);
        var r := [es[0]] + Without(es[1..], k);
        forall i, j | 0 <= i < j < |r| ensures r[i].0 != r[j].0 {
          if i == 0 {
            assert r[j] in Without(es[1..], k);
            assert r[j] in es[1..];
            var m :| 0 <= m < |es[1..]| && es[1..][m] == r[j];
            assert es[m + 1] == r[j];
          }
        }
      }
    }
  }

  lemma WithoutKeys(es: seq<(string, Yaml)>, k: string)
    ensures forall e :: e in Without(es, k) ==> e in es
  {
  }

  lemma {:induction false} LookupAbsent(es: seq<(string, Yaml)>, k: string)
    requires forall i :: 0 <= i < |es| ==> es[i].0 != k
    ensures Lookup(es, k) == None
  {
    if es != [] {
      LookupAbsent(es[1..], k);
    }
  }

  lemma {:induction false} ReplaceLookup(es: seq<(string, Yaml)>, k: string, v: Yaml, q: string)
    requires Lookup(es, k).Some?
    ensures Lookup(Replace(es, k, v), q) == if q == k then Some(v) else Lookup(es, q)
    ensures DistinctKeys(es) ==> DistinctKeys(Replace(es, k, v))
    ensures |Replace(es, k, v)| == |es| && forall i :: 0 <= i < |es| ==> Replace(es, k, v)[i].0 == es[i].0
  {
    if es[0].0 != k {
      ReplaceLookup(es[1..], k, v, q);
      if DistinctKeys(es) {
        assert DistinctKeys(es[1..]) by {
          forall i, j | 0 <= i < j < |es[1..]| ensures es[1..][i].0 != es[1..][j].0 {
            assert es[1..][i] == es[i + 1] && es[1..][j] == es[j + 1];
          }
        }
      }
      var r := Replace(es, k, v);
      assert r[1..] == Replace(es[1..], k, v);
    }
  }

  /** Every mapping of the tree has distinct keys, as a loaded one does. */
  predicate WellFormed(y: Yaml)
    decreases y
  {
    match y
    case List(items) => forall i :: 0 <= i < |items| ==> WellFormed(items[i])
    case Dict(entries) => DistinctKeys(entries) && forall i :: 0 <= i < |entries| ==> WellFormed(entries[i].1)
    case _ => true
  }

  lemma {:induction false} DistinctLookup(es: seq<(string, Yaml)>, j: nat)
    requires DistinctKeys(es) && j < |es|
    ensures Lookup(es, es[j].0) == Some(es[j].1)
  {
    if j > 0 {
      assert es[0].0 != es[j].0;
      assert DistinctKeys(es[1..]) by {
        forall i, l | 0 <= i < l < |es[1..]| ensures es[1..][i].0 != es[1..][l].0 {
          assert es[1..][i] == es[i + 1] && es[1..][l] == es[l + 1];
        }
      }
      DistinctLookup(es[1..], j - 1);
    }
  }

  // ---------------------------------------------------------------------------------------
  // Python's == on loaded values

  predicate IsNumeric(y: Yaml)
  {
    y.Number? || y.Flag? || y.Float?
  }

  /** The value a number stands for: Python compares bool, int and float by value. */
  function NumValue(y: Yaml): real
    requires IsNumeric(y)
  {
    if y.Number? then y.n as real else if y.Float? then y.r else if y.b then 1.0 else 0.0
  }

  /** Python's `x == y`: numbers (booleans among them) by value, strings by content, lists item
      by item, mappings of the same size whose keys each map to equal values in both, whatever
      the order of their entries; values of different kinds are unequal. */
  predicate PyEq(x: Yaml, y: Yaml)
    decreases x
  {
    if IsNumeric(x) || IsNumeric(y) then IsNumeric(x) && IsNumeric(y) && NumValue(x) == NumValue(y)
    else
      match x
      case Text(s) => y.Text? && y.s == s
      case Nil => y.Nil?
      case List(items) =>
        y.List? && |y.items| == |items| && forall i :: 0 <= i < |items| ==> PyEq(items[i], y.items[i])
      case Dict(entries) =>
        y.Dict? && |y.entries| == |entries| &&
        forall i :: 0 <= i < |entries| ==>
          Lookup(y.entries, entries[i].0).Some? && PyEq(entries[i].1, Lookup(y.entries, entries[i].0).value)
      case _ => false
  }

  /** Every loaded value equals itself. */
  lemma {:induction false} PyEqReflexive(y: Yaml)
    requires WellFormed(y)
    ensures PyEq(y, y)
    decreases y
  {
    match y
    case List(items) =>
      forall i | 0 <= i < |items| ensures PyEq(items[i], items[i]) {
        PyEqReflexive(items[i]);
      }
    case Dict(entries) =>
      forall i | 0 <= i < |entries|
        ensures Lookup(entries, entries[i].0) == Some(entries[i].1) && PyEq(entries[i].1, entries[i].1)
      {
        DistinctLookup(entries, i);
        PyEqReflexive(entries[i].1);
      }
    case _ =>
  }

  /** A mapping equals the same entries in any other order. */
  lemma PyEqReordered(es: seq<(string, Yaml)>, es': seq<(string, Yaml)>)
    requires WellFormed(Dict(es)) && DistinctKeys(es') && multiset(es) == multiset(es')
    ensures PyEq(Dict(es), Dict(es'))
  {
    assert |es| == |multiset(es)| == |multiset(es')| == |es'|;
    forall i | 0 <= i < |es|
      ensures Lookup(es', es[i].0) == Some(es[i].1) && PyEq(es[i].1, es[i].1)
    {
      assert es[i] in multiset(es');
      var j :| 0 <= j < |es'| && es'[j] == es[i];
      DistinctLookup(es', j);
      PyEqReflexive(es[i].1);
    }
  }

  // ---------------------------------------------------------------------------------------
  // get_class_dicts (rviz_config.py:13-23)

  /** A mapping whose 'Class' entry is truthy. */
  predicate IsClassDict(y: Yaml)
  {
    y.Dict? && var c := Lookup(y.entries, "Class"); c.Some? && Truthy(c.value)
  }

  /** How many values a list or mapping holds directly. */
  function Arity(y: Yaml): nat
  {
    match y
    case List(items) => |items|
    case Dict(entries) => |entries|
    case _ => 0
  }

  /** The classes found in a list's items or a mapping's values, from the `i`th on. */
  function ClassDictsFrom(y: Yaml, i: nat): seq<Yaml>
    requires i <= Arity(y)
    decreases y, Arity(y) - i
  {
    if i == Arity(y) then []
    else if y.List? then GetClassDicts(y.items[i]) + ClassDictsFrom(y, i + 1)
    else GetClassDicts(y.entries[i].1) + ClassDictsFrom(y, i + 1)
  }

  /** get_class_dicts(entry) */
  function GetClassDicts(y: Yaml): seq<Yaml>
    decreases y, Arity(y) + 1
  {
    (if IsClassDict(y) then [y] else []) + ClassDictsFrom(y, 0)
  }

  /** Every value of the tree, each before the values it holds. */
  function PreorderFrom(y: Yaml, i: nat): seq<Yaml>
    requires i <= Arity(y)
    decreases y, Arity(y) - i
  {
    if i == Arity(y) then []
    else if y.List? then Preorder(y.items[i]) + PreorderFrom(y, i + 1)
    else Preorder(y.entries[i].1) + PreorderFrom(y, i + 1)
  }

  function Preorder(y: Yaml): seq<Yaml>
    decreases y, Arity(y) + 1
  {
    [y] + PreorderFrom(y, 0)
  }

  /** get_class_dicts returns exactly the class mappings of the tree, each before the ones it
      holds. */
  lemma {:induction false} ClassDictsPreorder(y: Yaml)
    ensures GetClassDicts(y) == Filter(Preorder(y), IsClassDict)
    decreases y, Arity(y) + 1
  {
    ClassDictsFromPreorder(y, 0);
    FilterAppend([y], PreorderFrom(y, 0), IsClassDict);
    assert Filter([y], IsClassDict) == if IsClassDict(y) then [y] else [] by {
      assert [y][1..] == [];
    }
  }

  lemma {:induction false} ClassDictsFromPreorder(y: Yaml, i: nat)
    requires i <= Arity(y)
    ensures ClassDictsFrom(y, i) == Filter(PreorderFrom(y, i), IsClassDict)
    decreases y, Arity(y) - i
  {
    if i < Arity(y) {
      var child := if y.List? then y.items[i] else y.entries[i].1;
      ClassDictsPreorder(child);
      ClassDictsFromPreorder(y, i + 1);
      FilterAppend(Preorder(child), PreorderFrom(y, i + 1), IsClassDict);
    }
  }

  // ---------------------------------------------------------------------------------------
  // get_dependencies (rviz_config.py:53-58)

  /** The package of one class mapping: its 'Class' up to the first '/'; AttributeError when
      the class is not a string, KeyError when there is no class. */
  function ClassPackage(c: Yaml): Result<string, PyError>
  {
    var v := if c.Dict? then Lookup(c.entries, "Class") else None;
    if v.None? then Err(KeyError)
    else if v.value.Text? then Ok(Str.Split(v.value.s, '/')[0])
    else Err(AttributeError)
  }

  /** The packages of the class mappings, or the first failure. */
  function Packages(cs: seq<Yaml>): Result<set<string>, PyError>
    decreases |cs|
  {
    if cs == [] then Ok({})
    else
      var prev :- Packages(cs[..|cs| - 1]);
      var p :- ClassPackage(cs[|cs| - 1]);
      Ok(prev + {p})
  }

  lemma ClassDictsAreClasses(y: Yaml)
    ensures forall i :: 0 <= i < |GetClassDicts(y)| ==> IsClassDict(GetClassDicts(y)[i])
  {
    ClassDictsPreorder(y);
    assert forall x :: x in GetClassDicts(y) ==> IsClassDict(x);
  }

  /** The packages are found exactly when every class name is a string. */
  lemma {:induction false} PackagesOk(cs: seq<Yaml>)
    ensures Packages(cs).Ok? <==> forall i :: 0 <= i < |cs| ==> ClassPackage(cs[i]).Ok?
    decreases |cs|
  {
    if cs != [] {
      var n := |cs| - 1;
      PackagesOk(cs[..n]);
      assert forall i :: 0 <= i < n ==> cs[..n][i] == cs[i];
    }
  }

  /** The packages are then exactly the packages of the class mappings. */
  lemma {:induction false} PackagesSpec(cs: seq<Yaml>, p: string)
    requires Packages(cs).Ok?
    ensures p in Packages(cs).value <==> exists i :: 0 <= i < |cs| && ClassPackage(cs[i]) == Ok(p)
    decreases |cs|
  {
    if cs != [] {
      var n := |cs| - 1;
      PackagesSpec(cs[..n], p);
      if p in Packages(cs).value {
        if p in Packages(cs[..n]).value {
          var i :| 0 <= i < n && ClassPackage(cs[..n][i]) == Ok(p);
          assert cs[..n][i] == cs[i];
        }
      } else {
        forall i | 0 <= i < |cs| ensures ClassPackage(cs[i]) != Ok(p) {
          if i < n {
            assert cs[..n][i] == cs[i];
          }
        }
      }
    }
  }

  /** A package name holds no '/'. */
  lemma ClassPackageNoSlash(c: Yaml)
    ensures ClassPackage(c).Ok? ==> '/' !in ClassPackage(c).value
  {
  }

  /** A failure on a prefix is the failure of the whole. */
  lemma {:induction false} PackagesErrPrefix(cs: seq<Yaml>, k: nat)
    requires k <= |cs| && Packages(cs[..k]).Err?
    ensures Packages(cs) == Packages(cs[..k])
    decreases |cs|
  {
    if k < |cs| {
      var n := |cs| - 1;
      assert cs[..n][..k] == cs[..k];
      PackagesErrPrefix(cs[..n], k);
    } else {
      assert cs[..k] == cs;
    }
  }

  // ---------------------------------------------------------------------------------------
  // dictionary_subtract (rviz_config.py:26-40)

  /** dictionary_subtract(alpha, beta): `alpha` without the settings `beta` repeats, and
      whether anything went; AttributeError when a mapping of `alpha` meets a non-mapping of
      `beta` (or `beta` is no mapping at all). */
  function Subtract(alpha: seq<(string, Yaml)>, beta: Yaml): Result<(seq<(string, Yaml)>, bool), PyError>
    decreases beta, Arity(beta) + 3
  {
    if !beta.Dict? then Err(AttributeError) else SubtractFrom(alpha, beta, 0, false)
  }

  /** The loop over beta's keys from the `i`th on. */
  function SubtractFrom(a: seq<(string, Yaml)>, beta: Yaml, i: nat, changed: bool): Result<(seq<(string, Yaml)>, bool), PyError>
    requires beta.Dict? && i <= |beta.entries|
    decreases beta, Arity(beta) - i
  {
    if i == |beta.entries| then Ok((a, changed))
    else
      var (next, c) :- SubtractKey(a, beta.entries[i].0, beta.entries[i].1, changed);
      SubtractFrom(next, beta, i + 1, c)
  }

  /** One turn of the loop: key `k` of beta, whose value is `bv`. */
  function SubtractKey(a: seq<(string, Yaml)>, k: string, bv: Yaml, changed: bool): Result<(seq<(string, Yaml)>, bool), PyError>
    decreases bv, Arity(bv) + 4
  {
    match Lookup(a, k)
    case None => Ok((a, changed))
    case Some(v) =>
      if v.Dict? then
        var (ve, c) :- Subtract(v.entries, bv);
        if ve == [] then Ok((Without(a, k), true))
        else Ok((Replace(a, k, Dict(ve)), changed || c))
      else if PyEq(v, bv) then Ok((Without(a, k), true))
      else Ok((a, changed))
  }

  /** How many entries the nested mappings hold in all. */
  function Size(es: seq<(string, Yaml)>): nat
  {
    SizeFrom(Dict(es), 0)
  }

  /** The entries of a mapping from the `i`th on, with the entries of the mappings they hold. */
  function SizeFrom(y: Yaml, i: nat): nat
    requires y.Dict? && i <= |y.entries|
    decreases y, |y.entries| - i
  {
    if i == |y.entries| then 0
    else
      var v := y.entries[i].1;
      1 + (if v.Dict? then SizeFrom(v, 0) else 0) + SizeFrom(y, i + 1)
  }

  /** The entries a value adds to Size. */
  function Inner(v: Yaml): nat
  {
    if v.Dict? then Size(v.entries) else 0
  }

  lemma {:induction false} SizeFromShift(es: seq<(string, Yaml)>, i: nat)
    requires i <= |es|
    ensures SizeFrom(Dict(es), i) == Size(es[i..])
    decreases |es| - i
  {
    if i < |es| {
      SizeFromShift(es, i + 1);
      SizeFromShift(es[i..], 1);
      assert es[i..][1..] == es[i + 1..];
      assert es[i..][0] == es[i];
    }
  }

  lemma SizeCons(es: seq<(string, Yaml)>)
    requires es != []
    ensures Size(es) == 1 + Inner(es[0].1) + Size(es[1..])
  {
    SizeFromShift(es, 1);
  }

  lemma {:induction false} WithoutSize(es: seq<(string, Yaml)>, k: string)
    requires Lookup(es, k).Some?
    ensures Size(Without(es, k)) < Size(es)
  {
    SizeCons(es);
    if es[0].0 != k {
      WithoutSize(es[1..], k);
      SizeCons(Without(es, k));
    }
  }

  lemma {:induction false} ReplaceSize(es: seq<(string, Yaml)>, k: string, inner: seq<(string, Yaml)>)
    requires Lookup(es, k).Some? && Lookup(es, k).value.Dict?
    ensures Size(Replace(es, k, Dict(inner))) == Size(es) - Size(Lookup(es, k).value.entries) + Size(inner)
  {
    SizeCons(es);
    SizeCons(Replace(es, k, Dict(inner)));
    if es[0].0 != k {
      ReplaceSize(es[1..], k, inner);
    }
  }

  lemma {:induction false} ReplaceSame(es: seq<(string, Yaml)>, k: string, v: Yaml)
    requires Lookup(es, k) == Some(v)
    ensures Replace(es, k, v) == es
  {
    if es[0].0 != k {
      ReplaceSame(es[1..], k, v);
    }
  }

  /** dictionary_subtract reports a change exactly when it deleted something: the mapping is
      left as it was when it reports none, and is strictly smaller when it reports one. */
  lemma {:induction false} SubtractChanged(alpha: seq<(string, Yaml)>, beta: Yaml)
    ensures Subtract(alpha, beta).Ok? ==> var (r, c) := Subtract(alpha, beta).value;
      (c ==> Size(r) < Size(alpha)) && (!c ==> r == alpha)
    decreases beta, Arity(beta) + 3
  {
    if beta.Dict? {
      SubtractFromChanged(alpha, beta, 0, false);
    }
  }

  lemma {:induction false} SubtractFromChanged(a: seq<(string, Yaml)>, beta: Yaml, i: nat, changed: bool)
    requires beta.Dict? && i <= |beta.entries|
    ensures SubtractFrom(a, beta, i, changed).Ok? ==> var (r, c) := SubtractFrom(a, beta, i, changed).value;
      c == (changed || Size(r) < Size(a)) && Size(r) <= Size(a) && (!c ==> r == a)
    decreases beta, Arity(beta) - i
  {
    if i < |beta.entries| {
      var step := SubtractKey(a, beta.entries[i].0, beta.entries[i].1, changed);
      SubtractKeyChanged(a, beta.entries[i].0, beta.entries[i].1, changed);
      if step.Ok? {
        SubtractFromChanged(step.value.0, beta, i + 1, step.value.1);
      }
    }
  }

  lemma {:induction false} SubtractKeyChanged(a: seq<(string, Yaml)>, k: string, bv: Yaml, changed: bool)
    ensures SubtractKey(a, k, bv, changed).Ok? ==> var (r, c) := SubtractKey(a, k, bv, changed).value;
      c == (changed || Size(r) < Size(a)) && Size(r) <= Size(a) && (!c ==> r == a)
    decreases bv, Arity(bv) + 4
  {
    match Lookup(a, k)
    case None =>
    case Some(v) =>
      if v.Dict? {
        SubtractChanged(v.entries, bv);
        var sub := Subtract(v.entries, bv);
        if sub.Ok? {
          var (ve, c) := sub.value;
          if ve == [] {
            WithoutSize(a, k);
          } else {
            ReplaceSize(a, k, ve);
            if !c {
              ReplaceSame(a, k, v);
            }
          }
        }
      } else if PyEq(v, bv) {
        WithoutSize(a, k);
      }
  }

  /** What one turn of the loop leaves under key `q` when beta's value for it is `bv`: a plain
      value goes when `bv` repeats it; a mapping loses what `bv` repeats of it and goes once
      empty. */
  function KeyOutcome(a: seq<(string, Yaml)>, bv: Yaml, q: string): Result<Option<Yaml>, PyError>
  {
    var aq := Lookup(a, q);
    if aq.None? then Ok(None)
    else if aq.value.Dict? then
      match Subtract(aq.value.entries, bv)
      case Err(e) => Err(e)
      case Ok((ve, _)) => Ok(if ve == [] then None else Some(Dict(ve)))
    else Ok(if PyEq(aq.value, bv) then None else aq)
  }

  /** One turn touches its own key as KeyOutcome says and no other. */
  lemma SubtractKeyLookup(a: seq<(string, Yaml)>, k: string, bv: Yaml, changed: bool, q: string)
    requires DistinctKeys(a)
    ensures SubtractKey(a, k, bv, changed).Ok? <==> KeyOutcome(a, bv, k).Ok?
    ensures SubtractKey(a, k, bv, changed).Ok? ==> var r := SubtractKey(a, k, bv, changed).value.0;
      DistinctKeys(r) && Lookup(r, q) == if q == k then KeyOutcome(a, bv, k).value else Lookup(a, q)
  {
    match Lookup(a, k)
    case None =>
    case Some(v) =>
      WithoutLookup(a, k, q);
      if v.Dict? {
        var sub := Subtract(v.entries, bv);
        if sub.Ok? && sub.value.0 != [] {
          ReplaceLookup(a, k, Dict(sub.value.0), q);
        }
      }
  }

  /** Keys beta lacks from the `i`th entry on are left untouched. */
  lemma {:induction false} SubtractFromOther(a: seq<(string, Yaml)>, beta: Yaml, i: nat, changed: bool, q: string)
    requires beta.Dict? && i <= |beta.entries| && DistinctKeys(a)
    requires forall j :: i <= j < |beta.entries| ==> beta.entries[j].0 != q
    requires SubtractFrom(a, beta, i, changed).Ok?
    ensures Lookup(SubtractFrom(a, beta, i, changed).value.0, q) == Lookup(a, q)
    decreases |beta.entries| - i
  {
    if i < |beta.entries| {
      var k := beta.entries[i].0;
      var step := SubtractKey(a, k, beta.entries[i].1, changed);
      SubtractKeyLookup(a, k, beta.entries[i].1, changed, q);
      SubtractFromOther(step.value.0, beta, i + 1, step.value.1, q);
    }
  }

  /** The key of beta's `j`th entry ends as KeyOutcome says of its value. */
  lemma {:induction false} SubtractFromHit(a: seq<(string, Yaml)>, beta: Yaml, i: nat, changed: bool, j: nat)
    requires beta.Dict? && i <= j < |beta.entries| && DistinctKeys(a) && DistinctKeys(beta.entries)
    requires SubtractFrom(a, beta, i, changed).Ok?
    ensures KeyOutcome(a, beta.entries[j].1, beta.entries[j].0).Ok?
    ensures Lookup(SubtractFrom(a, beta, i, changed).value.0, beta.entries[j].0) ==
      KeyOutcome(a, beta.entries[j].1, beta.entries[j].0).value
    decreases j - i
  {
    var k := beta.entries[i].0;
    var q := beta.entries[j].0;
    var step := SubtractKey(a, k, beta.entries[i].1, changed);
    SubtractKeyLookup(a, k, beta.entries[i].1, changed, q);
    if i == j {
      SubtractFromOther(step.value.0, beta, i + 1, step.value.1, q);
    } else {
      assert Lookup(step.value.0, q) == Lookup(a, q);
      SubtractFromHit(step.value.0, beta, i + 1, step.value.1, j);
    }
  }

  /** Key by key, dictionary_subtract leaves what KeyOutcome says for a key of beta, and
      keys beta lacks untouched. */
  lemma SubtractKeys(alpha: seq<(string, Yaml)>, beta: Yaml, q: string)
    requires beta.Dict? && DistinctKeys(alpha) && DistinctKeys(beta.entries)
    requires Subtract(alpha, beta).Ok?
    ensures Lookup(beta.entries, q).None? ==> Lookup(Subtract(alpha, beta).value.0, q) == Lookup(alpha, q)
    ensures Lookup(beta.entries, q).Some? ==>
      KeyOutcome(alpha, Lookup(beta.entries, q).value, q).Ok? &&
      Lookup(Subtract(alpha, beta).value.0, q) == KeyOutcome(alpha, Lookup(beta.entries, q).value, q).value
  {
    if Lookup(beta.entries, q).Some? {
      var j := KeyIndex(beta.entries, q);
      SubtractFromHit(alpha, beta, 0, false, j);
    } else {
      forall j | 0 <= j < |beta.entries| ensures beta.entries[j].0 != q {
        LookupFound(beta.entries, j);
      }
      SubtractFromOther(alpha, beta, 0, false, q);
    }
  }

  /** One plain setting against the same key of beta: deleted exactly when the values are equal
      in Python's sense. */
  lemma SingleSettingSubtract(k: string, v: Yaml, bv: Yaml)
    requires !v.Dict?
    ensures Subtract([(k, v)], Dict([(k, bv)])) == if PyEq(v, bv) then Ok(([], true)) else Ok(([(k, v)], false))
  {
    var beta := Dict([(k, bv)]);
    assert Lookup([(k, v)], k) == Some(v);
    assert Without([(k, v)], k) == [];
    var step := SubtractKey([(k, v)], k, bv, false);
    assert SubtractFrom([(k, v)], beta, 0, false) == SubtractFrom(step.value.0, beta, 1, step.value.1);
  }

  /** A list holding a mapping is deleted when beta repeats it with the mapping's entries in
      another order: Python compares mappings by key. */
  lemma ReorderedNestedDeleted()
    ensures var inner := [("a", Number(1)), ("b", Number(2))];
      var swapped := [("b", Number(2)), ("a", Number(1))];
      Subtract([("k", List([Dict(inner)]))], Dict([("k", List([Dict(swapped)]))])) == Ok(([], true))
  {
    SwappedEntries("a", Number(1), "b", Number(2));
    var inner := Dict([("a", Number(1)), ("b", Number(2))]);
    var swapped := Dict([("b", Number(2)), ("a", Number(1))]);
    SingletonLists(inner, swapped);
    SingleSettingSubtract("k", List([inner]), List([swapped]));
  }

  /** A two-entry mapping equals its entries swapped. */
  lemma SwappedEntries(a: string, x: Yaml, b: string, y: Yaml)
    requires a != b && WellFormed(x) && WellFormed(y)
    ensures PyEq(Dict([(a, x), (b, y)]), Dict([(b, y), (a, x)]))
  {
    var es, es' := [(a, x), (b, y)], [(b, y), (a, x)];
    assert es == [(a, x)] + [(b, y)] && es' == [(b, y)] + [(a, x)];
    assert multiset(es) == multiset(es');
    assert WellFormed(Dict(es)) by {
      assert forall i :: 0 <= i < |es| ==> WellFormed(es[i].1);
    }
    PyEqReordered(es, es');
  }

  lemma SingletonLists(x: Yaml, y: Yaml)
    requires PyEq(x, y)
    ensures PyEq(List([x]), List([y]))
  {
  }

  /** The integer 1 is deleted against `true`, and a float against the integer it equals. */
  lemma NumbersDeleted()
    ensures Subtract([("Enabled", Number(1))], Dict([("Enabled", Flag(true))])) == Ok(([], true))
    ensures Subtract([("Line Width", Float(1.0))], Dict([("Line Width", Number(1))])) == Ok(([], true))
  {
    SingleSettingSubtract("Enabled", Number(1), Flag(true));
    SingleSettingSubtract("Line Width", Float(1.0), Number(1));
  }

  /** A string is kept against the number it spells. */
  lemma TextAgainstNumberKept()
    ensures Subtract([("Value", Text("1"))], Dict([("Value", Number(1))])) == Ok(([("Value", Text("1"))], false))
  {
    SingleSettingSubtract("Value", Text("1"), Number(1));
  }

  /** The position of a key a mapping holds. */
  lemma {:induction false} KeyIndex(es: seq<(string, Yaml)>, q: string) returns (j: nat)
    requires Lookup(es, q).Some?
    ensures j < |es| && es[j].0 == q && Lookup(es, q) == Some(es[j].1)
  {
    if es[0].0 == q {
      j := 0;
    } else {
      var j' := KeyIndex(es[1..], q);
      j := j' + 1;
    }
  }

  /** Every key a mapping holds is found. */
  lemma {:induction false} LookupFound(es: seq<(string, Yaml)>, j: nat)
    requires j < |es|
    ensures Lookup(es, es[j].0).Some?
  {
    if j > 0 && es[0].0 != es[j].0 {
      LookupFound(es[1..], j - 1);
    }
  }

  // ---------------------------------------------------------------------------------------
  // The configuration

  class RVizConfig {
    var contents: Yaml
    var changed: bool

    constructor (contents: Yaml)
      ensures this.contents == contents && !changed
    {
      this.contents := contents;
      changed := false;
    }

    /** get_dependencies() */
    method GetDependencies() returns (r: Result<set<string>, PyError>)
      ensures r == Packages(GetClassDicts(contents))
    {
      var configs := GetClassDicts(contents);
      ClassDictsAreClasses(contents);
      var packages: set<string> := {};
      for k := 0 to |configs|
        invariant Packages(configs[..k]) == Ok(packages)
      {
        assert configs[..k + 1][..k] == configs[..k];
        var c := Lookup(configs[k].entries, "Class").value;
        if !c.Text? {
          PackagesErrPrefix(configs, k + 1);
          return Err(AttributeError);
        }
        packages := packages + {Str.Split(c.s, '/')[0]};
      }
      assert configs[..|configs|] == configs;
      r := Ok(packages);
    }
  }

  /** dictionary_subtract(alpha, beta), the loop over beta's keys. */
  method DictionarySubtract(alpha: seq<(string, Yaml)>, beta: Yaml) returns (r: Result<(seq<(string, Yaml)>, bool), PyError>)
    ensures r == Subtract(alpha, beta)
    decreases beta, Arity(beta) + 3
  {
    if !beta.Dict? {
      return Err(AttributeError);
    }
    var a := alpha;
    var changed := false;
    for i := 0 to |beta.entries|
      invariant SubtractFrom(a, beta, i, changed) == Subtract(alpha, beta)
    {
      var (k, bv) := beta.entries[i];
      var found := Lookup(a, k);
      if found.None? {
        continue;
      }
      var v := found.value;
      if v.Dict? {
        var sub := DictionarySubtract(v.entries, bv);
        if sub.Err? {
          return Err(sub.error);
        }
        var (ve, c) := sub.value;
        changed := changed || c;
        if ve == [] {
          a := Without(a, k);
          changed := true;
        } else {
          a := Replace(a, k, Dict(ve));
        }
      } else if PyEq(v, bv) {
        a := Without(a, k);
        changed := true;
      }
    }
    r := Ok((a, changed));
  }
}
