/**
  `DictNode.is_function_returning_object`: recognises `Fn::Select` applied to
  `Fn::FindInMap`, a composition whose value is looked up in a template
  mapping table and so may be an object that cannot be known from the text.
 */
module Intrinsics {
  import opened Nodes

  /**
    True when the mapping has the single key `Fn::Select`, whose value is a
    two-element list whose element 1 is a one-key mapping keyed
    `Fn::FindInMap`. Element 0 and the `Fn::FindInMap` arguments are never
    looked at; every other input gives false, and nothing raises. A
    recognised mapping is therefore `SelectOfFindInMap` rebuilt from its own
    index, arguments and marks.
   */
  predicate IsFunctionReturningObject<M>(self: Value<M>): (r: bool)
    requires self.Map?
    ensures r ==> && |self.entries| == 1
                  && var sel := self.entries[0].1;
                     && sel.List? && |sel.items| == 2
                     && var fim := sel.items[1];
                        && fim.Map? && |fim.entries| == 1
                        && self == SelectOfFindInMap(sel.items[0], fim.entries[0].1, sel.start, sel.end,
                                                     fim.start, fim.end, self.start, self.end)
  {
    if |self.entries| == 1 then
      var k := self.entries[0].0;
      var v := self.entries[0].1;
      if k == "Fn::Select" && v.List? && |v.items| == 2 then
        var pv := v.items[1];
        if pv.Map? && |pv.entries| == 1 && pv.entries[0].0 == "Fn::FindInMap" then
          assert v.items == [v.items[0], pv];
          assert pv.entries == [("Fn::FindInMap", pv.entries[0].1)];
          assert self.entries == [("Fn::Select", v)];
          assert self == SelectOfFindInMap(v.items[0], pv.entries[0].1, v.start, v.end, pv.start, pv.end,
                                           self.start, self.end);
          true
        else false
      else false
    else false
  }


  /** `{Fn::Select: [index, {Fn::FindInMap: args}]}`, with the marks of its three nodes. */
  function SelectOfFindInMap<M>(index: Value<M>, args: Value<M>, ls: M, le: M, fs: M, fe: M, ms: M, me: M): (r: Value<M>)
    ensures r.Map? && |r.entries| == 1
  {
    Map([("Fn::Select", List([index, Map([("Fn::FindInMap", args)], fs, fe)], ls, le))], ms, me)
  }

  /** Every `Fn::Select` of an `Fn::FindInMap` is recognised, whatever its index and arguments. */
  lemma SelectOfFindInMapDetected<M>(index: Value<M>, args: Value<M>, ls: M, le: M, fs: M, fe: M, ms: M, me: M)
    ensures IsFunctionReturningObject(SelectOfFindInMap(index, args, ls, le, fs, fe, ms, me))
  {
  }

  /**
    Conversely, a recognised mapping is such a composition: rebuilding it
    from its index, its `Fn::FindInMap` arguments and its marks gives it back.
    This is the detector's own contract, stated on its own for callers.
   */
  lemma DetectedIsSelectOfFindInMap<M>(self: Value<M>)
    requires self.Map? && IsFunctionReturningObject(self)
    ensures var sel := self.entries[0].1;
            var fim := sel.items[1];
            self == SelectOfFindInMap(sel.items[0], fim.entries[0].1, sel.start, sel.end, fim.start, fim.end,
                                      self.start, self.end)
  {
  }

  /** `{Fn::Select: [0, [x, y]]}` is not recognised: element 1 must be a mapping. */
  lemma SelectOfListNotDetected<M>(s: M, e: M)
    ensures !IsFunctionReturningObject(
              Map([("Fn::Select", List([Prim(Int(0)), List([Str("x", s, e), Str("y", s, e)], s, e)], s, e))], s, e))
  {
  }
}
