/**
  Conditional traversal of the template tree: `DictNode.items_safe`,
  `ListNode.items_safe`, `DictNode.get` and `DictNode.get_safe`.

  The traversal enumerates the values a property may statically take. It
  expands the CloudFormation condition function `Fn::If` (a one-key mapping
  whose value is `[condition, value_if_true, value_if_false]`) into both
  branches without evaluating the condition, and drops the pseudo parameter
  reference `{Ref: AWS::NoValue}`, both as defined in the AWS CloudFormation
  User Guide ("Intrinsic function reference", "Pseudo parameters reference").
  Results are `(value, path)` pairs; a generator in the source, a sequence here.

  The type filter `type_t` admits a value when `isinstance(value, type_t)` or
  when `type_t` is falsy. It is modelled as a set of shapes: the empty set
  stands for `type_t=()`, a non-empty set for a tuple of classes. Every
  traversal function also takes `dflt`: the value the signature binds to
  `type_t` by default. The recursive calls of the source pass no filter, so
  they run with that default, and the caller's filter is applied to their
  results afterwards.
 */
module Traversal {
  import opened Results
  import opened Nodes

  /** A path element: a mapping key or a list index. */
  datatype Step = Key(name: string) | Index(i: nat)

  type Path = seq<Step>

  /** `path or []`: a missing path and an empty one both mean the root. */
  function PathOf(path: Option<Path>): (p: Path)
  {
    match path
    case None => []
    case Some(p) => p
  }

  /** The Python classes a filter may name. No parsed value is a tuple. */
  datatype Shape = StrType | DictType | ListType | TupleType | IntType | BoolType | NoneType

  type Filter = set<Shape>

  /** The classes `v` is an instance of (a Python bool is also an int). */
  function ShapesOf<M>(v: Value<M>): (s: set<Shape>)
  {
    match v
    case Str(_, _, _) => {StrType}
    case Map(_, _, _) => {DictType}
    case List(_, _, _) => {ListType}
    case Prim(Int(_)) => {IntType}
    case Prim(Bool(_)) => {BoolType, IntType}
    case Prim(Null) => {NoneType}
  }

  /** `isinstance(v, type_t) or not type_t`. */
  predicate Passes<M>(v: Value<M>, f: Filter)
  {
    f == {} || ShapesOf(v) * f != {}
  }

  /** The default the source writes for `type_t`: the class `tuple`. */
  const SourceDefault: Filter := {TupleType}

  /** The default `()`, under which nothing is filtered out. */
  const IntendedDefault: Filter := {}

  /** The class `tuple` admits no value of the tree. */
  lemma SourceDefaultAdmitsNothing<M>(v: Value<M>)
    ensures !Passes(v, SourceDefault)
  {
  }

  type Item<M> = (Value<M>, Path)

  /** The items of `xs` that pass `f`, in order. */
  function FilterBy<M>(xs: seq<Item<M>>, f: Filter): (r: seq<Item<M>>)
    ensures |r| <= |xs|
    ensures forall j :: 0 <= j < |r| ==> r[j] in xs && Passes(r[j].0, f)
    ensures forall j :: 0 <= j < |xs| && Passes(xs[j].0, f) ==> xs[j] in r
    ensures |xs| == 1 ==> r == (if Passes(xs[0].0, f) then xs else [])
  {
    if xs == [] then []
    else if Passes(xs[0].0, f) then [xs[0]] + FilterBy(xs[1..], f)
    else FilterBy(xs[1..], f)
  }

  /** The filter `()` keeps everything. */
  lemma {:induction false} FilterByEmpty<M>(xs: seq<Item<M>>)
    ensures FilterBy(xs, {}) == xs
  {
    if xs != [] {
      FilterByEmpty(xs[1..]);
    }
  }

  /**
    Filtering distributes over concatenation; with the single-item case of
    `FilterBy`, this fixes the order and multiplicity of what is kept.
   */
  lemma {:induction false} FilterByConcat<M>(xs: seq<Item<M>>, ys: seq<Item<M>>, f: Filter)
    ensures FilterBy(xs + ys, f) == FilterBy(xs, f) + FilterBy(ys, f)
  {
    if xs != [] {
      assert (xs + ys)[0] == xs[0];
      assert (xs + ys)[1..] == xs[1..] + ys;
      FilterByConcat(xs[1..], ys, f);
      if Passes(xs[0].0, f) {
        assert FilterBy(xs + ys, f) == [xs[0]] + FilterBy(xs[1..] + ys, f);
      }
    } else {
      assert xs + ys == ys;
    }
  }

  /** A single yield guarded by the filter. */
  function Yield<M>(v: Value<M>, p: Path, f: Filter): (r: seq<Item<M>>)
  {
    if Passes(v, f) then [(v, p)] else []
  }

  /** `{Ref: AWS::NoValue}`: the property is absent on this branch. */
  predicate IsNoValueRef<M>(k: string, v: Value<M>)
  {
    k == "Ref" && v.Str? && v.s == "AWS::NoValue"
  }

  /** A one-key mapping keyed by the condition function, of any shape. */
  predicate IsIf<M>(v: Value<M>)
  {
    v.Map? && |v.entries| == 1 && v.entries[0].0 == "Fn::If"
  }

  /** `Fn::If` with a three-element list: the form the traversal expands. */
  predicate IsWellFormedIf<M>(v: Value<M>)
  {
    IsIf(v) && v.entries[0].1.List? && |v.entries[0].1.items| == 3
  }

  /** A mapping the traversal yields as itself rather than expanding. */
  predicate IsPlainMap<M>(v: Value<M>)
  {
    v.Map? && (|v.entries| != 1 || (v.entries[0].0 != "Fn::If" && !IsNoValueRef(v.entries[0].0, v.entries[0].1)))
  }

  /** A value no traversal yields: a condition function or a NoValue reference. */
  predicate IsUnresolved<M>(v: Value<M>)
  {
    IsIf(v) || (v.Map? && |v.entries| == 1 && IsNoValueRef(v.entries[0].0, v.entries[0].1))
  }

  /** Every item lies below `p`. */
  predicate AllBelow<M>(r: seq<Item<M>>, p: Path)
  {
    forall j :: 0 <= j < |r| ==> p <= r[j].1
  }

  /** Every item passes `f` and is a resolved value. */
  predicate AllAdmitted<M>(r: seq<Item<M>>, f: Filter)
  {
    forall j :: 0 <= j < |r| ==> Passes(r[j].0, f) && !IsUnresolved(r[j].0)
  }

  /**
    `DictNode.items_safe(path, type_t)`. A one-key `Fn::If` whose value is a
    three-element list yields its two branches; any other `Fn::If` and
    `{Ref: AWS::NoValue}` yield nothing; every other mapping yields itself.
   */
  function MapItemsSafe<M>(m: Value<M>, path: Option<Path>, f: Filter, dflt: Filter): (r: seq<Item<M>>)
    requires m.Map?
    ensures AllBelow(r, PathOf(path))
    ensures AllAdmitted(r, f)
    ensures forall j :: 0 <= j < |r| && |r[j].1| == |PathOf(path)| ==> r[j].0 == m && IsPlainMap(m)
    decreases m, 0
  {
    var p := PathOf(path);
    if |m.entries| == 1 then
      var k := m.entries[0].0;
      var v := m.entries[0].1;
      assert m.entries[0] in m.entries;
      if k == "Fn::If" then
        if v.List? && |v.items| == 3 then
          Expand(v.items[1], p + [Key(k), Index(1)], f, dflt)
          + Expand(v.items[2], p + [Key(k), Index(2)], f, dflt)
        else []
      else if !IsNoValueRef(k, v) then Yield(m, p, f)
      else []
    else Yield(m, p, f)
  }

  /**
    What one `Fn::If` branch or one list element contributes at path `q`: a
    mapping is expanded by its own `items_safe`, called without a filter (so
    with `dflt`), and the caller's filter is applied to what it yields; any
    other value is yielded as it is when it passes the caller's filter.
   */
  function Expand<M>(v: Value<M>, q: Path, f: Filter, dflt: Filter): (r: seq<Item<M>>)
    ensures AllBelow(r, q)
    ensures AllAdmitted(r, f)
    decreases v, 1
  {
    if v.Map? then FilterBy(MapItemsSafe(v, Some(q), dflt, dflt), f) else Yield(v, q, f)
  }

  /** The list index an item was found under, just below path `p` (-1 if none). */
  function IndexUnder<M>(x: Item<M>, p: Path): (i: int)
  {
    if |p| < |x.1| && x.1[|p|].Index? then x.1[|p|].i else -1
  }

  /** The item lies strictly below `p`, under an index in `lo..hi`. */
  predicate UnderIndex<M>(x: Item<M>, p: Path, lo: nat, hi: nat)
  {
    p < x.1 && lo <= IndexUnder(x, p) < hi
  }

  /** The items of elements `i..` of `xs`, in index order. */
  function ElementsFrom<M>(xs: seq<Value<M>>, i: nat, p: Path, f: Filter, dflt: Filter): (r: seq<Item<M>>)
    requires i <= |xs|
    ensures AllAdmitted(r, f)
    ensures forall j :: 0 <= j < |r| ==> UnderIndex(r[j], p, i, |xs|)
    ensures forall j, k :: 0 <= j < k < |r| ==> IndexUnder(r[j], p) <= IndexUnder(r[k], p)
    decreases |xs| - i
  {
    if i == |xs| then []
    else
      var here := Expand(xs[i], p + [Index(i)], f, dflt);
      var rest := ElementsFrom(xs, i + 1, p, f, dflt);
      assert forall j :: 0 <= j < |here| ==> here[j].1[..|p| + 1] == p + [Index(i)];
      here + rest
  }

  /**
    `ListNode.items_safe(path, type_t)`: elements in index order, a mapping
    element expanded by its own traversal (default filter) at `path + [i]`,
    any other element yielded at `path + [i]`.
   */
  function ListItemsSafe<M>(l: Value<M>, path: Option<Path>, f: Filter, dflt: Filter): (r: seq<Item<M>>)
    requires l.List?
    ensures AllAdmitted(r, f)
    ensures forall j :: 0 <= j < |r| ==> UnderIndex(r[j], PathOf(path), 0, |l.items|)
    ensures forall j, k :: 0 <= j < k < |r| ==> IndexUnder(r[j], PathOf(path)) <= IndexUnder(r[k], PathOf(path))
  {
    ElementsFrom(l.items, 0, PathOf(path), f, dflt)
  }

  /** The traversal sees an `Fn::If` node through its three arguments only. */
  function IfNode<M>(c: Value<M>, a: Value<M>, b: Value<M>, ls: M, le: M, ms: M, me: M): (m: Value<M>)
    ensures IsWellFormedIf(m)
  {
    Map([("Fn::If", List([c, a, b], ls, le))], ms, me)
  }

  /**
    A mapping with zero or several keys, or with one key that is neither
    `Fn::If` nor a NoValue reference, yields exactly itself at the current
    path when it passes the filter and nothing otherwise; and a mapping
    yields itself at the current path only in that case.
   */
  lemma PlainMapYieldsItself<M>(m: Value<M>, path: Option<Path>, f: Filter, dflt: Filter)
    requires m.Map?
    ensures IsPlainMap(m) ==> MapItemsSafe(m, path, f, dflt) == (if Passes(m, f) then [(m, PathOf(path))] else [])
    ensures (m, PathOf(path)) in MapItemsSafe(m, path, f, dflt) <==> IsPlainMap(m) && Passes(m, f)
  {
  }

  /**
    `{Ref: AWS::NoValue}`, and an `Fn::If` whose value is not a list or is a
    list of any length but three, yield nothing (and raise nothing).
   */
  lemma AbsentOrMalformedYieldsNothing<M>(m: Value<M>, path: Option<Path>, f: Filter, dflt: Filter)
    requires m.Map? && |m.entries| == 1
    requires IsNoValueRef(m.entries[0].0, m.entries[0].1) || (IsIf(m) && !IsWellFormedIf(m))
    ensures MapItemsSafe(m, path, f, dflt) == []
  {
  }

  /**
    A well-formed `Fn::If [c, a, b]` yields what branch `a` contributes at
    `path + ['Fn::If', 1]`, followed by what `b` contributes at
    `path + ['Fn::If', 2]`; the condition `c` plays no part in the result.
   */
  lemma IfYieldsBranchesInOrder<M>(c: Value<M>, c': Value<M>, a: Value<M>, b: Value<M>, ls: M, le: M, ms: M, me: M,
                                   path: Option<Path>, f: Filter, dflt: Filter)
    ensures var p := PathOf(path);
            var ra := Expand(a, p + [Key("Fn::If"), Index(1)], f, dflt);
            var rb := Expand(b, p + [Key("Fn::If"), Index(2)], f, dflt);
            && MapItemsSafe(IfNode(c, a, b, ls, le, ms, me), path, f, dflt) == ra + rb
            && AllBelow(ra, p + [Key("Fn::If"), Index(1)])
            && AllBelow(rb, p + [Key("Fn::If"), Index(2)])
    ensures MapItemsSafe(IfNode(c, a, b, ls, le, ms, me), path, f, dflt)
         == MapItemsSafe(IfNode(c', a, b, ls, le, ms, me), path, f, dflt)
  {
    var m := IfNode(c, a, b, ls, le, ms, me);
    assert m.entries[0].1.items[1] == a && m.entries[0].1.items[2] == b;
    var m' := IfNode(c', a, b, ls, le, ms, me);
    assert m'.entries[0].1.items[1] == a && m'.entries[0].1.items[2] == b;
  }

  /** A branch or element that is not a mapping is yielded as it is, when it passes the filter. */
  lemma ScalarBranchYieldedAsIs<M>(v: Value<M>, q: Path, f: Filter, dflt: Filter)
    requires !v.Map?
    ensures Expand(v, q, f, dflt) == (if Passes(v, f) then [(v, q)] else [])
  {
  }

  /** Element `i` of a list that is not a mapping and passes the filter is yielded at `path + [i]`. */
  lemma {:induction false} ListYieldsScalarElement<M>(l: Value<M>, path: Option<Path>, f: Filter, dflt: Filter, i: nat)
    requires l.List? && i < |l.items|
    requires !l.items[i].Map? && Passes(l.items[i], f)
    ensures (l.items[i], PathOf(path) + [Index(i)]) in ListItemsSafe(l, path, f, dflt)
  {
    ElementsFromContains(l.items, 0, PathOf(path), f, dflt, i);
  }

  lemma {:induction false} ElementsFromContains<M>(xs: seq<Value<M>>, k: nat, p: Path, f: Filter, dflt: Filter, i: nat)
    requires k <= i < |xs|
    requires !xs[i].Map? && Passes(xs[i], f)
    ensures (xs[i], p + [Index(i)]) in ElementsFrom(xs, k, p, f, dflt)
    decreases i - k
  {
    var here := Expand(xs[k], p + [Index(k)], f, dflt);
    var rest := ElementsFrom(xs, k + 1, p, f, dflt);
    assert ElementsFrom(xs, k, p, f, dflt) == here + rest;
    if k < i {
      ElementsFromContains(xs, k + 1, p, f, dflt, i);
      assert (xs[i], p + [Index(i)]) in rest;
    } else {
      assert here == [(xs[i], p + [Index(i)])];
    }
  }

  /**
    Appending an element to a list appends that element's contribution, at
    `path + [n]` for the new index `n`, to what the list yielded before.
   */
  lemma ListItemsSafeAppend<M>(xs: seq<Value<M>>, x: Value<M>, s: M, e: M, path: Option<Path>, f: Filter, dflt: Filter)
    ensures ListItemsSafe(List(xs + [x], s, e), path, f, dflt)
         == ListItemsSafe(List(xs, s, e), path, f, dflt) + Expand(x, PathOf(path) + [Index(|xs|)], f, dflt)
  {
    ElementsFromAppend(xs, x, 0, PathOf(path), f, dflt);
  }

  lemma {:induction false} ElementsFromAppend<M>(xs: seq<Value<M>>, x: Value<M>, i: nat, p: Path, f: Filter, dflt: Filter)
    requires i <= |xs|
    ensures ElementsFrom(xs + [x], i, p, f, dflt) == ElementsFrom(xs, i, p, f, dflt) + Expand(x, p + [Index(|xs|)], f, dflt)
    decreases |xs| - i
  {
    var ys := xs + [x];
    if i == |xs| {
      assert ys[i] == x;
      assert ElementsFrom(ys, i + 1, p, f, dflt) == [];
    } else {
      assert ys[i] == xs[i];
      ElementsFromAppend(xs, x, i + 1, p, f, dflt);
    }
  }

  /**
    The caller's filter acts as a final pass: a filtered traversal yields
    exactly the unfiltered traversal's items that pass the filter.
   */
  lemma FilterIsFinalPass<M>(m: Value<M>, path: Option<Path>, f: Filter, dflt: Filter)
    requires m.Map?
    ensures MapItemsSafe(m, path, f, dflt) == FilterBy(MapItemsSafe(m, path, {}, dflt), f)
  {
    var p := PathOf(path);
    if IsWellFormedIf(m) {
      var v := m.entries[0].1;
      ExpandFilterIsFinalPass(v.items[1], p + [Key("Fn::If"), Index(1)], f, dflt);
      ExpandFilterIsFinalPass(v.items[2], p + [Key("Fn::If"), Index(2)], f, dflt);
      FilterByConcat(Expand(v.items[1], p + [Key("Fn::If"), Index(1)], {}, dflt),
                     Expand(v.items[2], p + [Key("Fn::If"), Index(2)], {}, dflt), f);
    }
  }

  lemma ExpandFilterIsFinalPass<M>(v: Value<M>, q: Path, f: Filter, dflt: Filter)
    ensures Expand(v, q, f, dflt) == FilterBy(Expand(v, q, {}, dflt), f)
  {
    if v.Map? {
      FilterByEmpty(MapItemsSafe(v, Some(q), dflt, dflt));
    }
  }

  /** The same holds of a list traversal. */
  lemma ListFilterIsFinalPass<M>(l: Value<M>, path: Option<Path>, f: Filter, dflt: Filter)
    requires l.List?
    ensures ListItemsSafe(l, path, f, dflt) == FilterBy(ListItemsSafe(l, path, {}, dflt), f)
  {
    ElementsFilterIsFinalPass(l.items, 0, PathOf(path), f, dflt);
  }

  lemma {:induction false} ElementsFilterIsFinalPass<M>(xs: seq<Value<M>>, i: nat, p: Path, f: Filter, dflt: Filter)
    requires i <= |xs|
    ensures ElementsFrom(xs, i, p, f, dflt) == FilterBy(ElementsFrom(xs, i, p, {}, dflt), f)
    decreases |xs| - i
  {
    if i < |xs| {
      var q := p + [Index(i)];
      var here := Expand(xs[i], q, {}, dflt);
      var rest := ElementsFrom(xs, i + 1, p, {}, dflt);
      assert ElementsFrom(xs, i, p, {}, dflt) == here + rest;
      assert ElementsFrom(xs, i, p, f, dflt) == Expand(xs[i], q, f, dflt) + ElementsFrom(xs, i + 1, p, f, dflt);
      ElementsFilterIsFinalPass(xs, i + 1, p, f, dflt);
      ExpandFilterIsFinalPass(xs[i], q, f, dflt);
      FilterByConcat(here, rest, f);
    }
  }

  /**
    As written, `items_safe()` called without `type_t` yields nothing for
    any mapping: everything it could yield must pass the `tuple` filter.
   */
  lemma SourceDefaultItemsSafeYieldsNothing<M>(m: Value<M>, path: Option<Path>, dflt: Filter)
    requires m.Map?
    ensures MapItemsSafe(m, path, SourceDefault, dflt) == []
  {
    var r := MapItemsSafe(m, path, SourceDefault, dflt);
    if r != [] {
      SourceDefaultAdmitsNothing(r[0].0);
    }
  }

  /**
    As written, with the class `tuple` as the default filter, a mapping
    branch of `Fn::If` and a mapping list element contribute nothing,
    whatever filter the caller passes: the recursive traversal admits only
    tuples, and no parsed value is one.
   */
  lemma SourceDefaultDropsNestedMappings<M>(v: Value<M>, q: Path, f: Filter)
    requires v.Map?
    ensures Expand(v, q, f, SourceDefault) == []
  {
    var inner := MapItemsSafe(v, Some(q), SourceDefault, SourceDefault);
    if inner != [] {
      SourceDefaultAdmitsNothing(inner[0].0);
    }
  }

  /**
    The smallest input that shows it: `{Fn::If: [c, {A: 1, B: 2}, "x"]}`
    traversed with `type_t=()` yields only `"x"`; the two-key mapping on the
    true branch is lost.
   */
  lemma SourceDefaultLosesMappingBranch<M>(c: Value<M>, s: M, e: M)
    ensures var a := Map([("A", Prim(Int(1))), ("B", Prim(Int(2)))], s, e);
            var x := Str("x", s, e);
            MapItemsSafe(IfNode(c, a, x, s, e, s, e), None, {}, SourceDefault)
              == [(x, [Key("Fn::If"), Index(2)])]
  {
    var a := Map([("A", Prim(Int(1))), ("B", Prim(Int(2)))], s, e);
    var x := Str("x", s, e);
    assert PathOf(None) + [Key("Fn::If"), Index(1)] == [Key("Fn::If"), Index(1)];
    assert PathOf(None) + [Key("Fn::If"), Index(2)] == [Key("Fn::If"), Index(2)];
    IfYieldsBranchesInOrder(c, c, a, x, s, e, s, e, None, {}, SourceDefault);
    SourceDefaultDropsNestedMappings(a, [Key("Fn::If"), Index(1)], {});
    ScalarBranchYieldedAsIs(x, [Key("Fn::If"), Index(2)], {}, SourceDefault);
  }

  /**
    With the default `()`, a mapping branch or element is
    traversed exactly as it would be at the top level under the caller's
    own filter, so nested conditions are expanded and nested plain mappings
    are kept.
   */
  lemma IntendedDefaultExpandsNestedMappings<M>(v: Value<M>, q: Path, f: Filter)
    requires v.Map?
    ensures Expand(v, q, f, IntendedDefault) == MapItemsSafe(v, Some(q), f, IntendedDefault)
  {
    FilterIsFinalPass(v, Some(q), f, IntendedDefault);
  }

  /** On the same input, the default `()` yields both branches. */
  lemma IntendedDefaultKeepsMappingBranch<M>(c: Value<M>, s: M, e: M)
    ensures var a := Map([("A", Prim(Int(1))), ("B", Prim(Int(2)))], s, e);
            var x := Str("x", s, e);
            MapItemsSafe(IfNode(c, a, x, s, e, s, e), None, {}, IntendedDefault)
              == [(a, [Key("Fn::If"), Index(1)]), (x, [Key("Fn::If"), Index(2)])]
  {
    var a := Map([("A", Prim(Int(1))), ("B", Prim(Int(2)))], s, e);
    var x := Str("x", s, e);
    var q := [Key("Fn::If"), Index(1)];
    assert PathOf(None) + [Key("Fn::If"), Index(1)] == [Key("Fn::If"), Index(1)];
    assert PathOf(None) + [Key("Fn::If"), Index(2)] == [Key("Fn::If"), Index(2)];
    IfYieldsBranchesInOrder(c, c, a, x, s, e, s, e, None, {}, IntendedDefault);
    IntendedDefaultExpandsNestedMappings(a, q, {});
    PlainMapYieldsItself(a, Some(q), {}, IntendedDefault);
    ScalarBranchYieldedAsIs(x, [Key("Fn::If"), Index(2)], {}, IntendedDefault);
  }

  /** The exception `get_safe` lets escape when it probes a value for `items_safe`. */
  datatype AttributeFailure =
    | TemplateAttributeError  // raised by a StrNode's attribute guard
    | AttributeError          // raised by an int, bool or None

  /**
    `DictNode.get(key, default)`: the value stored under `key`; when the key
    is missing, the default, where a mapping default is rewrapped as a node
    carrying the receiver's marks.
   */
  function Get<M>(self: Value<M>, key: string, default: Value<M>): (r: Value<M>)
    requires self.Map?
    ensures key in Keys(self.entries) ==> (key, r) in self.entries
    ensures key !in Keys(self.entries) && default.Map? ==>
              r.Map? && r.entries == default.entries && r.start == self.start && r.end == self.end
    ensures key !in Keys(self.entries) && !default.Map? ==> r == default
  {
    var d := if default.Map? then Map(default.entries, self.start, self.end) else default;
    match Find(self.entries, key)
    case Some(v) => v
    case None => d
  }

  /**
    `DictNode.get_safe(key, default, path, type_t)`. A value that is not a
    mapping and passes the filter is returned alone at `path + [key]`. A
    mapping is expanded by its `items_safe` at `path + [key]` and filtered. A
    list that fails the filter is traversed the same way. A string, int,
    bool or None that fails the filter has no `items_safe`, and the lookup
    raises.
   */
  function GetSafe<M>(self: Value<M>, key: string, default: Value<M>, path: Option<Path>,
                      f: Filter, dflt: Filter): (r: Result<seq<Item<M>>, AttributeFailure>)
    requires self.Map?
    ensures var v := Get(self, key, default);
            && (r.Err? <==> !v.Map? && !v.List? && !Passes(v, f))
            && (r.Err? ==> (r.error == TemplateAttributeError <==> v.Str?))
            && (!v.Map? && Passes(v, f) ==> r == Ok([(v, PathOf(path) + [Key(key)])]))
    ensures r.Ok? ==> AllBelow(r.value, PathOf(path) + [Key(key)])
    ensures r.Ok? ==> forall j :: 0 <= j < |r.value| ==> Passes(r.value[j].0, f)
  {
    var q := PathOf(path) + [Key(key)];
    var v := Get(self, key, default);
    if !v.Map? && Passes(v, f) then Ok([(v, q)])
    else
      match v
      case Map(_, _, _) => Ok(FilterBy(MapItemsSafe(v, Some(q), dflt, dflt), f))
      case List(_, _, _) =>
        var r := FilterBy(ListItemsSafe(v, Some(q), dflt, dflt), f);
        assert AllBelow(r, q) by {
          forall j | 0 <= j < |r| ensures q <= r[j].1 {
            assert UnderIndex(r[j], q, 0, |v.items|);
          }
        }
        Ok(r)
      case Str(_, _, _) => Err(TemplateAttributeError)
      case Prim(_) => Err(AttributeError)
  }

  /**
    A mapping value is always expanded (even one that passes the filter), and
    a list value that fails the filter is traversed; in both cases the
    nested traversal runs with the default filter and the caller's filter is
    applied to its items.
   */
  lemma GetSafeDelegates<M>(self: Value<M>, key: string, default: Value<M>, path: Option<Path>, f: Filter, dflt: Filter)
    requires self.Map?
    ensures var v := Get(self, key, default);
            var q := PathOf(path) + [Key(key)];
            && (v.Map? ==> GetSafe(self, key, default, path, f, dflt) == Ok(FilterBy(MapItemsSafe(v, Some(q), dflt, dflt), f)))
            && (v.List? && !Passes(v, f) ==>
                  GetSafe(self, key, default, path, f, dflt) == Ok(FilterBy(ListItemsSafe(v, Some(q), dflt, dflt), f)))
  {
  }

  /**
    As written, `get_safe` called without `type_t` never yields anything: a
    mapping or list value gives `[]`, and a string, int, bool or None value
    (a missing key with no default included) raises.
   */
  lemma SourceDefaultGetSafeYieldsNothing<M>(self: Value<M>, key: string, default: Value<M>, path: Option<Path>)
    requires self.Map?
    ensures var r := GetSafe(self, key, default, path, SourceDefault, SourceDefault);
            && (r.Ok? ==> r.value == [])
            && (r.Err? <==> !Get(self, key, default).Map? && !Get(self, key, default).List?)
  {
    var r := GetSafe(self, key, default, path, SourceDefault, SourceDefault);
    SourceDefaultAdmitsNothing(Get(self, key, default));
    if r.Ok? && r.value != [] {
      SourceDefaultAdmitsNothing(r.value[0].0);
    }
  }

  /** The smallest input that shows it: `{K: "v"}.get_safe("K")` raises. */
  lemma SourceDefaultGetSafeRaisesOnString<M>(s: M, e: M)
    ensures GetSafe(Map([("K", Str("v", s, e))], s, e), "K", Prim(Null), None, SourceDefault, SourceDefault)
            == Err(TemplateAttributeError)
  {
  }

  /**
    With the default `()`, `get_safe` without `type_t` never raises: a
    non-mapping value (a missing key's default included) is returned alone at
    `path + [key]`, and a mapping is expanded as at the top level.
   */
  lemma IntendedDefaultGetSafeIsTotal<M>(self: Value<M>, key: string, default: Value<M>, path: Option<Path>)
    requires self.Map?
    ensures var r := GetSafe(self, key, default, path, IntendedDefault, IntendedDefault);
            var v := Get(self, key, default);
            var q := PathOf(path) + [Key(key)];
            && r.Ok?
            && (!v.Map? ==> r.value == [(v, q)])
            && (v.Map? ==> r.value == MapItemsSafe(v, Some(q), {}, {}))
  {
    var v := Get(self, key, default);
    var q := PathOf(path) + [Key(key)];
    if v.Map? {
      FilterByEmpty(MapItemsSafe(v, Some(q), {}, {}));
    }
  }
}
