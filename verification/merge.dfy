/**
  `DictNode.deep_merge(dict1, dict2)`: a recursive merge of two mappings in
  which `dict1` takes precedence. The result starts as a copy of `dict2`'s
  entries; then each entry of `dict1`, in order, is written into it.
 */
module Merge {
  import opened Results
  import opened Nodes

  /** `d[k] = v` on an ordered mapping: overwrite in place, or append a new key. */
  function Put<M>(es: Entries<M>, k: string, v: Value<M>): (r: Entries<M>)
  {
    if es == [] then [(k, v)]
    else if es[0].0 == k then [(k, v)] + es[1..]
    else [es[0]] + Put(es[1..], k, v)
  }

  /** Assigning keeps the key order, appending a key the mapping did not hold. */
  lemma {:induction false} PutKeys<M>(es: Entries<M>, k: string, v: Value<M>)
    ensures Keys(Put(es, k, v)) == if k in Keys(es) then Keys(es) else Keys(es) + [k]
  {
    if es != [] {
      var r := Put(es, k, v);
      assert r[1..] == if es[0].0 == k then es[1..] else Put(es[1..], k, v);
      assert Keys(es) == [es[0].0] + Keys(es[1..]);
      if es[0].0 != k {
        PutKeys(es[1..], k, v);
        assert k in Keys(es) <==> k in Keys(es[1..]);
      }
    }
  }

  /** After `d[k] = v`, `d[k]` is `v` and every other key keeps its value. */
  lemma {:induction false} PutFind<M>(es: Entries<M>, k: string, v: Value<M>, k': string)
    ensures Find(Put(es, k, v), k) == Some(v)
    ensures k' != k ==> Find(Put(es, k, v), k') == Find(es, k')
  {
    if es != [] {
      var r := Put(es, k, v);
      assert r[1..] == if es[0].0 == k then es[1..] else Put(es[1..], k, v);
      if es[0].0 != k {
        PutFind(es[1..], k, v, k');
      }
    }
  }

  /** Writing a key's own value back leaves a mapping unchanged. */
  lemma {:induction false} PutOwnValue<M>(es: Entries<M>, k: string, v: Value<M>)
    requires Find(es, k) == Some(v)
    ensures Put(es, k, v) == es
  {
    if es[0].0 != k {
      PutOwnValue(es[1..], k, v);
    }
  }

  /**
    The merged value under a key both mappings hold, `v` from `dict1` and `w`
    from `dict2`; `s` and `e` are `dict1`'s marks.
   */
  function MergeValues<M>(v: Value<M>, w: Value<M>, s: M, e: M): (r: Value<M>)
    ensures v.Map? && w.Map? ==> r.Map? && r.start == v.start && r.end == v.end
    ensures v.List? && w.List? ==> r == List(w.items + v.items, s, e)
    ensures !(v.Map? && w.Map?) && !(v.List? && w.List?) ==> r == v
    decreases v, 2
  {
    if v.Map? && w.Map? then DeepMerge(v, w)
    else if v.List? && w.List? then List(DeepCopy(w).items + v.items, s, e)
    else v
  }

  /**
    `deep_merge(dict1, dict2)`: a new mapping with `dict1`'s marks holding a
    copy of each `dict2` value, into which `dict1`'s entries are then written.
   */
  function DeepMerge<M>(d1: Value<M>, d2: Value<M>): (r: Value<M>)
    requires d1.Map? && d2.Map?
    ensures r.Map? && r.start == d1.start && r.end == d1.end
    decreases d1, 1
  {
    Map(MergeFrom(d1, d2, 0, CopyEntries(d2, 0)), d1.start, d1.end)
  }

  /** What entry `i` of `dict1` writes into the result. */
  function MergedEntry<M>(d1: Value<M>, d2: Value<M>, i: nat): (r: Value<M>)
    requires d1.Map? && d2.Map? && i < |d1.entries|
    ensures d1.entries[i].0 !in Keys(d2.entries) ==> r == d1.entries[i].1
    ensures !d1.entries[i].1.Map? && !d1.entries[i].1.List? ==> r == d1.entries[i].1
    decreases d1, 0, 0
  {
    var v := d1.entries[i].1;
    assert d1.entries[i] in d1.entries;
    match Find(d2.entries, d1.entries[i].0)
    case None => v
    case Some(w) => MergeValues(v, w, d1.start, d1.end)
  }

  /** Writes entries `i..` of `dict1` into the partial result `acc`. */
  function MergeFrom<M>(d1: Value<M>, d2: Value<M>, i: nat, acc: Entries<M>): (r: Entries<M>)
    requires d1.Map? && d2.Map? && i <= |d1.entries|
    decreases d1, 0, |d1.entries| - i
  {
    if i == |d1.entries| then acc
    else MergeFrom(d1, d2, i + 1, Put(acc, d1.entries[i].0, MergedEntry(d1, d2, i)))
  }

  /** The keys of `ks` that are not in `seen`, in order. */
  function Missing(ks: seq<string>, seen: seq<string>): (r: seq<string>)
  {
    if ks == [] then []
    else if ks[0] in seen then Missing(ks[1..], seen)
    else [ks[0]] + Missing(ks[1..], seen)
  }

  /** The missing keys come from `ks`, avoid `seen`, and are unique when `ks` is. */
  lemma {:induction false} MissingUnique(ks: seq<string>, seen: seq<string>)
    ensures forall j :: 0 <= j < |Missing(ks, seen)| ==> Missing(ks, seen)[j] in ks && Missing(ks, seen)[j] !in seen
    ensures Unique(ks) ==> Unique(Missing(ks, seen))
  {
    if ks != [] {
      MissingUnique(ks[1..], seen);
    }
  }

  /** Adding a key that `ks` does not hold to `seen` changes nothing. */
  lemma {:induction false} MissingIgnoresAbsentKey(ks: seq<string>, seen: seq<string>, k: string)
    requires k !in ks
    ensures Missing(ks, seen + [k]) == Missing(ks, seen)
  {
    if ks != [] {
      MissingIgnoresAbsentKey(ks[1..], seen, k);
    }
  }

  /** One step of the key bookkeeping: writing key `k` into a mapping whose keys are `seen`. */
  lemma MissingStep(seen: seq<string>, k: string, rest: seq<string>, seen': seq<string>)
    requires k !in rest
    requires seen' == if k in seen then seen else seen + [k]
    ensures seen + Missing([k] + rest, seen) == seen' + Missing(rest, seen')
  {
    assert ([k] + rest)[0] == k && ([k] + rest)[1..] == rest;
    if k !in seen {
      MissingIgnoresAbsentKey(rest, seen, k);
      assert seen + [k] + Missing(rest, seen) == seen + ([k] + Missing(rest, seen));
    }
  }

  /** Writing `dict1`'s entries from `i` on appends the keys the partial result lacks, in `dict1`'s order. */
  lemma {:induction false} MergeFromKeys<M>(d1: Value<M>, d2: Value<M>, i: nat, acc: Entries<M>)
    requires d1.Map? && d2.Map? && i <= |d1.entries|
    requires DistinctKeys(d1.entries)
    ensures Keys(MergeFrom(d1, d2, i, acc)) == Keys(acc) + Missing(Keys(d1.entries)[i..], Keys(acc))
    decreases |d1.entries| - i
  {
    var ks := Keys(d1.entries);
    if i == |d1.entries| {
      assert ks[i..] == [];
    } else {
      var k := d1.entries[i].0;
      var acc' := Put(acc, k, MergedEntry(d1, d2, i));
      assert MergeFrom(d1, d2, i, acc) == MergeFrom(d1, d2, i + 1, acc');
      MergeFromKeys(d1, d2, i + 1, acc');
      PutKeys(acc, k, MergedEntry(d1, d2, i));
      assert ks[i..] == [k] + ks[i + 1..];
      MissingStep(Keys(acc), k, ks[i + 1..], Keys(acc'));
    }
  }

  /**
    After writing `dict1`'s entries from `i` on, a key written there holds its
    merged entry and every other key keeps its value in the partial result.
   */
  lemma {:induction false} MergeFromFind<M>(d1: Value<M>, d2: Value<M>, i: nat, acc: Entries<M>, k: string)
    requires d1.Map? && d2.Map? && i <= |d1.entries|
    requires DistinctKeys(d1.entries)
    ensures k !in Keys(d1.entries)[i..] ==> Find(MergeFrom(d1, d2, i, acc), k) == Find(acc, k)
    ensures forall j :: i <= j < |d1.entries| && d1.entries[j].0 == k ==>
              Find(MergeFrom(d1, d2, i, acc), k) == Some(MergedEntry(d1, d2, j))
    decreases |d1.entries| - i
  {
    var ks := Keys(d1.entries);
    if i < |d1.entries| {
      var ki := d1.entries[i].0;
      var acc' := Put(acc, ki, MergedEntry(d1, d2, i));
      assert MergeFrom(d1, d2, i, acc) == MergeFrom(d1, d2, i + 1, acc');
      MergeFromFind(d1, d2, i + 1, acc', k);
      assert ks[i..][0] == ki && ks[i..][1..] == ks[i + 1..];
      assert k in ks[i..] <==> k == ki || k in ks[i + 1..];
      PutFind(acc, ki, MergedEntry(d1, d2, i), k);
      if k == ki {
        assert k !in ks[i + 1..];
      }
    }
  }

  /**
    The merged mapping's keys are `dict2`'s keys in `dict2`'s order followed
    by the keys only `dict1` holds in `dict1`'s order, each exactly once.
   */
  lemma MergeKeyOrder<M>(d1: Value<M>, d2: Value<M>)
    requires d1.Map? && d2.Map?
    requires DistinctKeys(d1.entries) && DistinctKeys(d2.entries)
    ensures Keys(DeepMerge(d1, d2).entries) == Keys(d2.entries) + Missing(Keys(d1.entries), Keys(d2.entries))
    ensures DistinctKeys(DeepMerge(d1, d2).entries)
  {
    MergeFromKeys(d1, d2, 0, d2.entries);
    assert Keys(d1.entries)[0..] == Keys(d1.entries);
    var k2 := Keys(d2.entries);
    var k1 := Missing(Keys(d1.entries), k2);
    MissingUnique(Keys(d1.entries), k2);
    assert Unique(k2 + k1);
  }

  /**
    Precedence, key by key: a key only `dict2` holds keeps (a copy of)
    `dict2`'s value, a key only `dict1` holds keeps `dict1`'s value; for a
    key both hold, two mappings merge recursively, two lists become a list
    of `dict2`'s items followed by `dict1`'s carrying `dict1`'s marks, and
    in every other case `dict1`'s value wins.
   */
  lemma MergeLookup<M>(d1: Value<M>, d2: Value<M>, k: string)
    requires d1.Map? && d2.Map?
    requires DistinctKeys(d1.entries)
    ensures var r := DeepMerge(d1, d2).entries;
            match (Find(d1.entries, k), Find(d2.entries, k))
            case (None, None) => Find(r, k).None?
            case (None, Some(w)) => Find(r, k) == Some(w)
            case (Some(v), None) => Find(r, k) == Some(v)
            case (Some(v), Some(w)) =>
              && (v.Map? && w.Map? ==> Find(r, k) == Some(DeepMerge(v, w)))
              && (v.List? && w.List? ==> Find(r, k) == Some(List(w.items + v.items, d1.start, d1.end)))
              && (!(v.Map? && w.Map?) && !(v.List? && w.List?) ==> Find(r, k) == Some(v))
  {
    var r := DeepMerge(d1, d2).entries;
    assert r == MergeFrom(d1, d2, 0, d2.entries);
    MergeFromFind(d1, d2, 0, d2.entries, k);
    assert Keys(d1.entries)[0..] == Keys(d1.entries);
    match Find(d1.entries, k)
    case None =>
    case Some(v) =>
      var j :| 0 <= j < |d1.entries| && d1.entries[j] == (k, v);
      FindAt(d1.entries, j);
      assert Find(r, k) == Some(MergedEntry(d1, d2, j));
      match Find(d2.entries, k)
      case None =>
        assert MergedEntry(d1, d2, j) == v;
      case Some(w) =>
        assert MergedEntry(d1, d2, j) == MergeValues(v, w, d1.start, d1.end);
  }

  /** A mapping whose mappings all have distinct keys and that holds no list anywhere. */
  predicate ListFree<M>(v: Value<M>)
  {
    match v
    case Str(_, _, _) => true
    case Prim(_) => true
    case List(_, _, _) => false
    case Map(es, _, _) =>
      DistinctKeys(es) && forall i :: 0 <= i < |es| ==> ListFree(es[i].1)
  }

  /** Merging a list-free mapping with its own deep copy gives it back unchanged. */
  lemma {:induction false} MergeWithCopyIsIdentity<M>(x: Value<M>)
    requires x.Map? && ListFree(x)
    ensures DeepMerge(x, DeepCopy(x)) == x
    decreases x, 1
  {
    MergeFromSelf(x, 0);
  }

  lemma {:induction false} MergeFromSelf<M>(x: Value<M>, i: nat)
    requires x.Map? && ListFree(x) && i <= |x.entries|
    ensures MergeFrom(x, x, i, x.entries) == x.entries
    decreases x, 0, |x.entries| - i
  {
    if i < |x.entries| {
      var k := x.entries[i].0;
      var v := x.entries[i].1;
      assert x.entries[i] in x.entries;
      FindAt(x.entries, i);
      if v.Map? {
        MergeWithCopyIsIdentity(v);
      }
      assert MergeValues(v, v, x.start, x.end) == v;
      PutOwnValue(x.entries, k, v);
      MergeFromSelf(x, i + 1);
    }
  }

  /** With a one-key `dict1`, the merge is `dict2`'s entries with that key written in. */
  lemma MergeOneKey<M>(d1: Value<M>, d2: Value<M>)
    requires d1.Map? && d2.Map? && |d1.entries| == 1
    ensures DeepMerge(d1, d2) == Map(Put(d2.entries, d1.entries[0].0, MergedEntry(d1, d2, 0)), d1.start, d1.end)
  {
    var acc := Put(d2.entries, d1.entries[0].0, MergedEntry(d1, d2, 0));
    assert MergeFrom(d1, d2, 0, d2.entries) == MergeFrom(d1, d2, 1, acc);
  }

  /** `merge({a: 1}, {a: 2})` is `{a: 1}`. */
  lemma MergeScalarExample<M>(s1: M, e1: M, s2: M, e2: M)
    ensures DeepMerge(Map([("a", Prim(Int(1)))], s1, e1), Map([("a", Prim(Int(2)))], s2, e2))
            == Map([("a", Prim(Int(1)))], s1, e1)
  {
    var d1 := Map([("a", Prim(Int(1)))], s1, e1);
    var d2 := Map([("a", Prim(Int(2)))], s2, e2);
    MergeOneKey(d1, d2);
    assert MergedEntry(d1, d2, 0) == Prim(Int(1));
  }

  /** `merge({a: {x: 1}}, {a: {y: 2}})` is `{a: {y: 2, x: 1}}`, keys in merge order. */
  lemma MergeNestedExample<M>(s1: M, e1: M, s2: M, e2: M)
    ensures DeepMerge(Map([("a", Map([("x", Prim(Int(1)))], s1, e1))], s1, e1),
                      Map([("a", Map([("y", Prim(Int(2)))], s2, e2))], s2, e2))
            == Map([("a", Map([("y", Prim(Int(2))), ("x", Prim(Int(1)))], s1, e1))], s1, e1)
  {
    var v := Map([("x", Prim(Int(1)))], s1, e1);
    var w := Map([("y", Prim(Int(2)))], s2, e2);
    var d1 := Map([("a", v)], s1, e1);
    var d2 := Map([("a", w)], s2, e2);
    MergeOneKey(v, w);
    assert Put(w.entries, "x", Prim(Int(1))) == [("y", Prim(Int(2))), ("x", Prim(Int(1)))];
    MergeOneKey(d1, d2);
    assert MergedEntry(d1, d2, 0) == DeepMerge(v, w);
  }

  /** `merge({a: [3]}, {a: [1, 2]})` is `{a: [1, 2, 3]}`; the list carries the outer `dict1` marks. */
  lemma MergeListExample<M>(s1: M, e1: M, s2: M, e2: M, ls: M, le: M)
    ensures DeepMerge(Map([("a", List([Prim(Int(3))], ls, le))], s1, e1),
                      Map([("a", List([Prim(Int(1)), Prim(Int(2))], s2, e2))], s2, e2))
            == Map([("a", List([Prim(Int(1)), Prim(Int(2)), Prim(Int(3))], s1, e1))], s1, e1)
  {
    var v := List([Prim(Int(3))], ls, le);
    var w := List([Prim(Int(1)), Prim(Int(2))], s2, e2);
    var d1 := Map([("a", v)], s1, e1);
    var d2 := Map([("a", w)], s2, e2);
    MergeOneKey(d1, d2);
    assert w.items + v.items == [Prim(Int(1)), Prim(Int(2)), Prim(Int(3))];
    assert MergedEntry(d1, d2, 0) == List(w.items + v.items, s1, e1);
  }

  /** `merge({a: 1}, {b: 2})` is `{b: 2, a: 1}`. */
  lemma MergeDisjointExample<M>(s1: M, e1: M, s2: M, e2: M)
    ensures DeepMerge(Map([("a", Prim(Int(1)))], s1, e1), Map([("b", Prim(Int(2)))], s2, e2))
            == Map([("b", Prim(Int(2))), ("a", Prim(Int(1)))], s1, e1)
  {
    var d1 := Map([("a", Prim(Int(1)))], s1, e1);
    var d2 := Map([("b", Prim(Int(2)))], s2, e2);
    MergeOneKey(d1, d2);
    assert MergedEntry(d1, d2, 0) == Prim(Int(1));
    assert Put(d2.entries, "a", Prim(Int(1))) == [("b", Prim(Int(2))), ("a", Prim(Int(1)))];
  }
}
