/**
  The annotated template tree: the three node variants the template parser
  builds (StrNode, DictNode, ListNode), each carrying the start and end
  position marks of the text it was parsed from, plus the primitive scalars
  (ints, bools, null) that the parser leaves unwrapped.

  Every mapping is a DictNode and every list a ListNode, which is what the
  parser produces. A mapping is an ordered association list: insertion order
  drives iteration and the key order of a merge.
 */
module Nodes {
  import opened Results

  /** Scalars that are not wrapped in a node. */
  datatype Primitive = Int(i: int) | Bool(b: bool) | Null

  /** A parsed value. `M` is the decoder's position mark, kept opaque. */
  datatype Value<M> =
    | Str(s: string, start: M, end: M)
    | Map(entries: seq<(string, Value<M>)>, start: M, end: M)
    | List(items: seq<Value<M>>, start: M, end: M)
    | Prim(p: Primitive)

  type Entries<M> = seq<(string, Value<M>)>

  /** The keys of a mapping, in iteration order. */
  function Keys<M>(es: Entries<M>): (ks: seq<string>)
    ensures |ks| == |es|
    ensures forall i :: 0 <= i < |es| ==> ks[i] == es[i].0
  {
    if es == [] then [] else [es[0].0] + Keys(es[1..])
  }

  /** No key occurs twice in `ks`. */
  predicate Unique(ks: seq<string>)
  {
    forall i, j :: 0 <= i < j < |ks| ==> ks[i] != ks[j]
  }

  /** A Python dict never holds a key twice. */
  predicate DistinctKeys<M>(es: Entries<M>)
  {
    Unique(Keys(es))
  }

  /** `d.get(k)` without a default: the value stored under `k`, if any. */
  function Find<M>(es: Entries<M>, k: string): (r: Option<Value<M>>)
    ensures r.None? <==> k !in Keys(es)
    ensures r.Some? ==> (k, r.value) in es
  {
    if es == [] then None
    else if es[0].0 == k then Some(es[0].1)
    else Find(es[1..], k)
  }

  /** With distinct keys, looking up the key of entry `i` finds that entry's value. */
  lemma {:induction false} FindAt<M>(es: Entries<M>, i: nat)
    requires DistinctKeys(es) && i < |es|
    ensures Find(es, es[i].0) == Some(es[i].1)
  {
    if i > 0 {
      FindAt(es[1..], i - 1);
    }
  }

  /**
    `__deepcopy__`: rebuilds the node with the same marks and element-wise
    copied children. Scalars deep-copy to themselves. The identity memo of the
    source has no counterpart: an immutable tree has no aliasing to preserve.
   */
  function DeepCopy<M>(v: Value<M>): (r: Value<M>)
    ensures r == v
    decreases v, 1
  {
    match v
    case Str(s, a, b) => Str(s, a, b)
    case Map(es, a, b) => Map(CopyEntries(v, 0), a, b)
    case List(xs, a, b) => List(CopyItems(v, 0), a, b)
    case Prim(p) => Prim(p)
  }

  /** Copies of the entries of mapping `m` from index `i` on. */
  function CopyEntries<M>(m: Value<M>, i: nat): (r: Entries<M>)
    requires m.Map? && i <= |m.entries|
    ensures r == m.entries[i..]
    decreases m, 0, |m.entries| - i
  {
    if i == |m.entries| then []
    else
      assert m.entries[i] in m.entries;
      [(m.entries[i].0, DeepCopy(m.entries[i].1))] + CopyEntries(m, i + 1)
  }

  /** Copies of the items of list `l` from index `i` on. */
  function CopyItems<M>(l: Value<M>, i: nat): (r: seq<Value<M>>)
    requires l.List? && i <= |l.items|
    ensures r == l.items[i..]
    decreases l, 0, |l.items| - i
  {
    if i == |l.items| then []
    else [DeepCopy(l.items[i])] + CopyItems(l, i + 1)
  }

  /**
    `__copy__`: a shallow copy is the node itself, which in an immutable tree
    cannot be told apart from a deep copy.
   */
  function ShallowCopy<M>(v: Value<M>): (r: Value<M>)
    ensures r == DeepCopy(v)
  {
    v
  }

  /** A shallow copy is the node itself: same variant, marks and children. */
  lemma CopiesPreserveNode<M>(v: Value<M>)
    ensures ShallowCopy(v) == v
  {
  }
}
