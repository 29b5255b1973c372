# Annotated template tree of checkov, in Dafny

This project models the annotated template tree that checkov's template parsers build
(`checkov/common/parsers/node.py`). The model covers:

- the three node variants `StrNode`, `DictNode` and `ListNode`. Each carries the start and end
  mark of its source text. The primitive scalars (ints, bools, None) stay unwrapped;
- deep and shallow copying;
- the conditional traversal `items_safe` / `get` / `get_safe`. It expands the CloudFormation
  condition function `Fn::If` and drops the pseudo parameter reference `{Ref: AWS::NoValue}`.
  Both are defined in the AWS CloudFormation User Guide, "Intrinsic function reference" and
  "Pseudo parameters reference";
- the `Fn::Select`-of-`Fn::FindInMap` detector `is_function_returning_object`;
- the precedence merge `deep_merge`.

Files:

- `results.dfy`: `Option` and `Result`.
- `nodes.dfy` (module `Nodes`): the `Value<M>` datatype. `M` is the decoder's position mark,
  kept opaque. The file also holds ordered key lookup and the copy functions.
- `traversal.dfy` (module `Traversal`): shapes, type filters, `items_safe` on mappings and
  lists, `get` and `get_safe`.
- `intrinsics.dfy` (module `Intrinsics`): `is_function_returning_object`.
- `merge.dfy` (module `Merge`): `deep_merge`.

Modelling choices:

- A mapping is an ordered association list. Insertion order drives iteration and the key order
  of a merge.
- Every mapping is a `DictNode` and every list a `ListNode`, as the parser produces them.
- A generator becomes a finite sequence of `(value, path)` pairs.
- A path element is either a mapping key or a list index.
- A missing path and an empty path both mean the root (`PathOf`).
- The filter `type_t` is a set of Python classes (`Shape`). A value passes when it is an
  instance of one of them, or when the set is empty; the empty set stands for `type_t=()`,
  and a non-empty set for a tuple of classes. A Python bool is also an int.
- Every traversal function takes `dflt`, the value that the signature binds to `type_t` by
  default. The source's recursive calls (lines 113, 134, 218) pass no filter, so they run with
  `dflt`. The caller's filter is applied to their results afterwards.
- `SourceDefault` is the class `tuple`, which is what the code writes. `IntendedDefault` is
  `()`; see Findings.
- `get_safe` returns a `Result`. Probing a non-container for `items_safe` becomes
  `TemplateAttributeError` for a `StrNode` (the attribute guard). It becomes `AttributeError`
  for an int, a bool or None.

Three behaviours of `node.py` worth knowing:

- The default filter is the class `tuple`, which no parsed value is an instance of.
- A merged list carries the marks of the enclosing `dict1` mapping (line 173), not the marks
  of either list.
- Merged keys come in `dict2`'s order first. So `merge({a: {x: 1}}, {a: {y: 2}})` holds
  `{y: 2, x: 1}` in that order.

## Model

| member | source | states |
|---|---|---|
| `Nodes.DeepCopy` | checkov/common/parsers/node.py:40-43 | deep copy rebuilds the same variant with the same start/end marks and copied children, and the copy equals the original |
| `Nodes.CopyEntries` | checkov/common/parsers/node.py:61-67 | copying a DictNode copies each entry in iteration order under the same key, yielding the original entries |
| `Nodes.CopyItems` | checkov/common/parsers/node.py:199-205 | copying a ListNode appends a copy of each element in order, yielding the original items |
| `Nodes.CopiesPreserveNode` | checkov/common/parsers/node.py:45-46 | a shallow copy is the node itself, with the same variant, marks and children |
| `Nodes.ShallowCopy` | checkov/common/parsers/node.py:45-46 | `__copy__` returns the node itself, which equals its deep copy; `DictNode` (lines 69-70) and `ListNode` (lines 207-208) do the same |
| `Nodes.Find` | checkov/common/parsers/node.py:99 | dictionary lookup: a value is found exactly when the key is present, and it is one stored under that key |
| `Nodes.FindAt` | checkov/common/parsers/node.py:99 | when keys are distinct, looking up the key of any entry gives exactly that entry's value |
| `Traversal.SourceDefaultAdmitsNothing` | checkov/common/parsers/node.py:120 | the default filter, the class `tuple`, admits no value of the tree |
| `Traversal.FilterBy` | checkov/common/parsers/node.py:114-115 | `isinstance(x, type_t) or not type_t` keeps exactly the passing items, no more than there were, and a single item is kept exactly when it passes |
| `Traversal.FilterByConcat` | checkov/common/parsers/node.py:114-115 | filtering a concatenation filters each part and concatenates the results; with the single-item case this keeps the passing items in their order and multiplicity |
| `Traversal.FilterByEmpty` | checkov/common/parsers/node.py:114-115 | the filter `()` keeps every item |
| `Traversal.MapItemsSafe` | checkov/common/parsers/node.py:119-148 | every yielded pair lies at or below the input path and passes the caller's filter; it is never an `Fn::If` mapping or a NoValue reference; a pair at the input path itself is the mapping, and only a plain (non-`Fn::If`, non-NoValue) mapping is yielded there |
| `Traversal.Expand` | checkov/common/parsers/node.py:131-142 | a branch contributes only pairs below its own path that pass the caller's filter and are resolved values |
| `Traversal.PlainMapYieldsItself` | checkov/common/parsers/node.py:143-148 | a mapping with zero or several keys, or one key that is neither `Fn::If` nor a NoValue ref, yields exactly itself at the path if it passes the filter; and a mapping yields itself at its own path only in that case |
| `Traversal.AbsentOrMalformedYieldsNothing` | checkov/common/parsers/node.py:125-143 | `{Ref: AWS::NoValue}` and an `Fn::If` whose value is not a three-element list yield nothing |
| `Traversal.IfYieldsBranchesInOrder` | checkov/common/parsers/node.py:130-142 | a well-formed `Fn::If [c, a, b]` yields a's items under `path + ['Fn::If', 1]` before b's under `path + ['Fn::If', 2]`, and the result does not depend on the condition c |
| `Traversal.ScalarBranchYieldedAsIs` | checkov/common/parsers/node.py:137-142 | a non-mapping branch or element is yielded unchanged at its path exactly when it passes the filter |
| `Traversal.ListItemsSafe` | checkov/common/parsers/node.py:210-223 | every yielded pair lies strictly below the input path under an in-range list index, indices never decrease along the result, and every pair passes the filter |
| `Traversal.ListYieldsScalarElement` | checkov/common/parsers/node.py:221-223 | a non-mapping element i that passes the filter is yielded at `path + [i]` |
| `Traversal.ListItemsSafeAppend` | checkov/common/parsers/node.py:216-223 | appending an element appends its contribution at `path + [n]` after everything the shorter list yields |
| `Traversal.FilterIsFinalPass` | checkov/common/parsers/node.py:130-148 | a filtered mapping traversal equals the unfiltered traversal with the filter applied afterwards |
| `Traversal.ListFilterIsFinalPass` | checkov/common/parsers/node.py:216-223 | the same for list traversal |
| `Traversal.SourceDefaultItemsSafeYieldsNothing` | checkov/common/parsers/node.py:119-148 | as written, `items_safe()` without `type_t` yields nothing for any mapping |
| `Traversal.SourceDefaultDropsNestedMappings` | checkov/common/parsers/node.py:131-136 | as written, a mapping branch of `Fn::If` or a mapping list element contributes nothing, whatever the caller's filter |
| `Traversal.SourceDefaultLosesMappingBranch` | checkov/common/parsers/node.py:130-142 | as written, `{Fn::If: [c, {A: 1, B: 2}, "x"]}` with `type_t=()` yields only `"x"` |
| `Traversal.IntendedDefaultExpandsNestedMappings` | checkov/common/parsers/node.py:131-136 | with the default `()`, a mapping branch or element is traversed exactly as at top level under the caller's filter |
| `Traversal.IntendedDefaultKeepsMappingBranch` | checkov/common/parsers/node.py:130-142 | with the default `()`, the same input yields the mapping branch and then `"x"` |
| `Traversal.Get` | checkov/common/parsers/node.py:95-99 | a present key gives its stored value; a missing key gives the default, where a mapping default is rewrapped with the receiver's marks |
| `Traversal.GetSafe` | checkov/common/parsers/node.py:101-117 | raises exactly when the looked-up value is a string, int, bool or None that fails the filter (TemplateAttributeError exactly for a string); a non-mapping that passes gives exactly `[(value, path + [key])]`; all results lie below `path + [key]` and pass the filter |
| `Traversal.GetSafeDelegates` | checkov/common/parsers/node.py:112-117 | a mapping value is always expanded by its traversal with the default filter, then filtered; a list value that fails the filter is traversed the same way |
| `Traversal.SourceDefaultGetSafeYieldsNothing` | checkov/common/parsers/node.py:101-117 | as written, `get_safe` without `type_t` never yields a pair: containers give `[]` and everything else raises |
| `Traversal.SourceDefaultGetSafeRaisesOnString` | checkov/common/parsers/node.py:108-113 | as written, `{K: "v"}.get_safe("K")` raises TemplateAttributeError |
| `Traversal.IntendedDefaultGetSafeIsTotal` | checkov/common/parsers/node.py:106-110 | with the default `()`, `get_safe` without `type_t` never raises: a non-mapping gives `[(value, path + [key])]` and a mapping is expanded unfiltered |
| `Intrinsics.IsFunctionReturningObject` | checkov/common/parsers/node.py:72-93 | a recognised mapping has one key, a two-element list under it and a one-key mapping as element 1, and equals `{Fn::Select: [index, {Fn::FindInMap: args}]}` rebuilt from its own index, arguments and marks |
| `Intrinsics.SelectOfFindInMapDetected` | checkov/common/parsers/node.py:81-91 | every `{Fn::Select: [i, {Fn::FindInMap: args}]}` is recognised, for any index i and any arguments |
| `Intrinsics.DetectedIsSelectOfFindInMap` | checkov/common/parsers/node.py:81-93 | a recognised mapping is exactly such a composition, rebuilt from its own index, arguments and marks |
| `Intrinsics.SelectOfListNotDetected` | checkov/common/parsers/node.py:84-93 | `{Fn::Select: [0, [x, y]]}` is not recognised |
| `Merge.PutKeys` | checkov/common/parsers/node.py:162-163 | assigning `merged[key]` keeps the existing key order when the key is present and appends it as the new last key otherwise |
| `Merge.PutFind` | checkov/common/parsers/node.py:162-163 | after assigning `merged[key] = v`, looking up `key` gives `v` and every other key keeps the value it had |
| `Merge.DeepMerge` | checkov/common/parsers/node.py:158-159 | the merged mapping carries dict1's marks |
| `Merge.MergeValues` | checkov/common/parsers/node.py:166-176 | for a key both mappings hold: two mappings merge into a mapping with dict1's value's marks; two lists become dict2's items followed by dict1's under the given (dict1's) marks; otherwise dict1's value is kept |
| `Merge.MergedEntry` | checkov/common/parsers/node.py:165-179 | what dict1's entry i writes: its own value when dict2 lacks the key, and always when that value is neither a mapping nor a list |
| `Merge.MergeFromKeys` | checkov/common/parsers/node.py:165-179 | writing dict1's entries from i on appends, in dict1's order, exactly the keys the partial result does not yet hold |
| `Merge.MergeFromFind` | checkov/common/parsers/node.py:165-179 | after writing dict1's entries from i on, a key dict1 holds there maps to its merged entry and every other key keeps its value in the partial result |
| `Merge.MergeKeyOrder` | checkov/common/parsers/node.py:161-181 | the merged keys are dict2's keys in dict2's order followed by dict1-only keys in dict1's order, each once |
| `Merge.MergeLookup` | checkov/common/parsers/node.py:166-179 | per key: dict2-only keeps dict2's value; dict1-only keeps dict1's; two mappings merge recursively; two lists become dict2's items then dict1's with dict1's marks; otherwise dict1's value wins |
| `Merge.MergeWithCopyIsIdentity` | checkov/common/parsers/node.py:151-181 | merging a list-free mapping with its own deep copy returns it unchanged |
| `Merge.MergeScalarExample` | checkov/common/parsers/node.py:174-176 | `merge({a: 1}, {a: 2})` is `{a: 1}` |
| `Merge.MergeNestedExample` | checkov/common/parsers/node.py:168-170 | `merge({a: {x: 1}}, {a: {y: 2}})` is `{a: {y: 2, x: 1}}` |
| `Merge.MergeListExample` | checkov/common/parsers/node.py:171-173 | `merge({a: [3]}, {a: [1, 2]})` is `{a: [1, 2, 3]}`, carrying the outer dict1 marks |
| `Merge.MergeDisjointExample` | checkov/common/parsers/node.py:177-179 | `merge({a: 1}, {b: 2})` is `{b: 2, a: 1}` |

## Left out

- Logger setup (node.py:14-15): no behaviour to state.
- `__getattr__` attribute probing (node.py:18-19, 37-38, 183-184, 225-226): reflection is not
  expressible. It appears only as the error outcome of `GetSafe`.
- The `DictNode` and `ListNode` constructors' `TypeError` fallback to an empty container
  (node.py:53-56, 191-194): a typed model cannot receive an ill-typed payload. The node
  constructors are the datatype constructors.
- `StrNode(x, …)` holds `str(x)`, because its text is set by `__new__` (node.py:34-35). The
  `TypeError` fallback in its `__init__` (node.py:26-29) never changes the value. The model's
  `Str` takes the text itself, so the conversion `str(x)` is not modelled.
- The identity memo table of `__deepcopy__` and heap aliasing: an immutable tree has no
  identity, so both copies reduce to equality.
- `pickle_deepcopy` (a helper that is not part of this model): taken to return an equal value,
  and modelled by `DeepCopy`.
- The internals of `Mark`: kept opaque as a type parameter.
- The `condition_functions` attribute (node.py:59, 197): nothing reads it.
- The unused `_mappings` parameter of `is_function_returning_object`.
- `StrNode`'s behaviour as a Python `str`: only the comparison with `'AWS::NoValue'` matters
  here.
- Python scalars other than int, bool and None (floats, dates): they would only add shapes to
  the filter.
- A plain, non-node `str` or `list` passed as the `get`/`get_safe` default is treated as a
  node, and this differs from the source when it fails the filter:
  - a plain `str` makes the model report `TemplateAttributeError`, where the source raises a
    plain `AttributeError`;
  - a plain `list` is traversed by the model, where the source raises `AttributeError`.
- `type_t=None`: `isinstance(x, None)` raises `TypeError` before `not type_t` is evaluated
  (node.py:109, 114, 135, 138, 141, 144, 147). A filter here is a set of classes and cannot be
  `None`, so that error is not modelled.
- Laziness of the generators: the model returns the whole sequence, which is the same
  sequence of pairs.
- `Merge.MergeKeyOrder`, `Merge.MergeLookup`, `Merge.MergeWithCopyIsIdentity`: stated for
  mappings with distinct keys, which is all a Python dict can be.
- `checkov/circleci_pipelines/base_circleci_pipelines_check.py`: check registration and the
  abstract `scan_conf` are plugin plumbing with no behaviour of the tree.

## Findings

| source | as written | input that shows it | evidently intended | confidence | as-written member | corrected member |
|---|---|---|---|---|---|---|
| checkov/common/parsers/node.py:120 | `items_safe` defaults `type_t` to the class `tuple`, and its recursive calls (lines 134, 218) pass no filter, so nested traversals admit only tuples, which the parser never produces | `{Fn::If: [c, {A: 1, B: 2}, "x"]}.items_safe(type_t=())` yields only `("x", ['Fn::If', 2])` | a default `()` under which a nested mapping branch or element is traversed like a top-level one and `{A: 1, B: 2}` is yielded at `['Fn::If', 1]` | medium, not executed | `Traversal.SourceDefaultLosesMappingBranch` | `Traversal.IntendedDefaultExpandsNestedMappings` |
| checkov/common/parsers/node.py:102 | `get_safe` defaults `type_t` to the class `tuple`, so without a filter no value passes and the lookup falls through to `items_safe` | `{K: "v"}.get_safe("K")` raises TemplateAttributeError | a default `()` under which `get_safe("K")` returns `[("v", ["K"])]` and never raises | medium, not executed | `Traversal.SourceDefaultGetSafeRaisesOnString` | `Traversal.IntendedDefaultGetSafeIsTotal` |
