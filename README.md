# JSON path getter: offset-to-path resolution

This project models the core of a small browser tool that shows the path
(`$.a[1].b`) of the JSON value under the text cursor. The core is
`getPathForOffset` and its recursive helper `traverse` in `app.js`. They
take the syntax tree the JSON parser produced, in which every node carries a
half-open `[start, end)` character range, plus a cursor offset. They descend
from the root and classify the offset against each node's range and the
ranges of its children.

Files:

- `Wrappers.dfy`: `Option`, which stands for the source's `null` ("no match at this level").
- `JsonAst.dfy`: the tree the resolver reads. It has `Object`, `Array`,
  `PropertyNode` and `Literal` nodes, and `Property` records with a key, an
  optional key range and a value. Every range is optional, which keeps the
  source's guards for missing ranges. The file also defines `WellFormed`
  (the invariants assumed of the parser's output) and the nesting `Depth`.
- `PathSegments.dfy`: segments `Root` (`$`), `Key(k)` (`.k`, key inserted
  verbatim) and `Index(i)` (`[i]`, decimal), and `Render`, which joins them
  with no separator.
- `Resolver.dfy`: `Traverse` and the two loops of the source as recursive
  scans (`ScanProperties`, `ScanElements`), plus `GetPathForOffset`.
- `ResolverLemmas.dfy`: what the descent returns, case by case. For any tree,
  the first child that "claims" the offset decides. For well-formed trees,
  the answer follows from where the offset falls among the children's ranges.
- `Scenarios.dfy`: concrete documents whose ranges are the character offsets
  of each token (as assumed of the parser's output), and the paths
  at chosen offsets.

The two `for` loops in `traverse` are early-exit searches that update
nothing but the loop index. Each is modelled as a function over the
container node and the index `i`. Returning past the last child gives the
source's `return segments` after the loop.

An offset on the comma in `{"a":[1,{"b":2}]}` (offset 7) resolves to
`$.a`, not `$.a[1]`. No element covers offset 7 and element 1 starts after
it, so `app.js:89-90` returns the array's own segments.
`Scenarios.NestedDocumentCommaGoesToArray` pins this.

In an object the opposite holds: a gap before a property's value belongs
to that property. This includes the object's own opening brace. In
`{"a": 1, "b": 2}`, offset 0 resolves to `$.a` through `app.js:69-70`,
because property `a`'s key does not hold it, its value does not cover it,
and the value starts after it. In `[1, 2]`, offset 0 resolves to `$`.
`Scenarios.GapAttributionAsymmetry` pins both.

## Model

| member | source | states |
|---|---|---|
| `PathSegments.Decimal` | app.js:83 | An element index renders as a non-empty string of decimal digits. It has no leading zero unless the index is 0, and it is one digit exactly when the index is below 10. |
| `PathSegments.DecimalRoundTrip` | app.js:83 | Reading the rendered index back as a decimal number gives the index, so distinct indices render differently. |
| `PathSegments.SegmentText` | app.js:58 | A segment's text is non-empty and its first character tells its kind. The root is exactly `$` (app.js:37). A member is `.` followed by the key verbatim (app.js:58). An element is `[`, the canonical decimal of the index, and `]` (app.js:83): at least one digit, the digits' value is the index, and no leading zero unless the index is 0. |
| `PathSegments.Render` | app.js:38 | `join("")` of the segment texts: every segment contributes at least one character, and the first segment's text leads the result. |
| `PathSegments.RenderConcat` | app.js:38 | Joining the segments of `a + b` gives the join of `a` followed by the join of `b`. |
| `PathSegments.RenderExtend` | app.js:38 | Extending a path by one segment appends exactly that segment's text (`.key` or `[i]`). |
| `PathSegments.RenderRooted` | app.js:37-38 | A path that starts with the root marker renders as `$` followed by the rest, so it is non-empty and begins with `$`. |
| `Resolver.Traverse` | app.js:41-101 | No match exactly when the node has no range or the offset is below `start` or at or above `end` (half-open). Any match has the accumulated segments as a prefix, adds no root marker, and adds at most the node's nesting depth in segments. |
| `Resolver.ScanProperties` | app.js:57-74 | The property loop always answers. Its answer extends the accumulated segments without a root marker, and by at most one more segment than the deepest remaining property value. |
| `Resolver.ScanElements` | app.js:81-94 | The element loop always answers. Its answer extends the accumulated segments without a root marker, and by at most one more segment than the deepest remaining element. |
| `Resolver.Resolve` | app.js:37-38 | The resolved segments start with exactly one root marker. They number at most one plus the tree's depth, and they are just the root when there is no tree or the offset is outside the root. |
| `Resolver.GetPathForOffset` | app.js:36-39 | Total for every tree and integer offset. The result always starts with `$`, is exactly `$` with no tree or an offset outside the root, and is the rendering of the resolved segments. |
| `ResolverLemmas.LeafOrEmptyIsOwnPath` | app.js:51-99 | A literal, a bare property node, `{}` or `[]` that covers the offset returns the accumulated segments unchanged. |
| `ResolverLemmas.ScanPropertiesFirstClaim` | app.js:57-72 | From property `i` on, the scan answers with the first property that claims the offset: on its key, inside its value, or before its value. |
| `ResolverLemmas.ScanPropertiesNoClaim` | app.js:57-74 | When no remaining property claims the offset, the scan returns the accumulated segments. |
| `ResolverLemmas.ObjectFirstClaim` | app.js:52-72 | In an object covering the offset, the first claiming property decides. A key hit or a gap before the value gives `.key`. A value hit (off the key) gives the value's own resolution under `.key`. |
| `ResolverLemmas.ObjectNoClaim` | app.js:52-75 | In an object covering the offset, when no property claims it the object's own segments are returned. |
| `ResolverLemmas.ScanElementsFirstClaim` | app.js:81-92 | From element `i` on, the scan answers with the first element that covers the offset or starts after it. |
| `ResolverLemmas.ScanElementsNoClaim` | app.js:81-94 | When no remaining element claims the offset, the scan returns the accumulated segments. |
| `ResolverLemmas.ArrayFirstClaim` | app.js:76-92 | In an array covering the offset, the first claiming element `k` decides. If it covers the offset, the result is its own resolution under `[k]`. If it starts after the offset, the result is the array's own segments. |
| `ResolverLemmas.ArrayNoClaim` | app.js:76-95 | In an array covering the offset, when no element claims it the array's own segments are returned. |
| `ResolverLemmas.EarlierPropertiesPass` | app.js:57-72 | In a well-formed object, no property before `k` claims an offset at or after the end of property `k-1`'s value, so the loop passes over them. |
| `ResolverLemmas.ObjectGapGoesToNextProperty` | app.js:64-70 | In a well-formed object, an offset at or after the previous value's end and before property `k`'s value resolves to `.key` of property `k`. This covers the comma, the key, the colon and the whitespace. |
| `ResolverLemmas.ObjectKeyHit` | app.js:58-61 | In a well-formed object, an offset inside property `k`'s key range resolves to `.key` of property `k`. |
| `ResolverLemmas.ObjectValueHit` | app.js:64-67 | In a well-formed object, an offset inside property `k`'s value resolves as that value does under `.key`. |
| `ResolverLemmas.ObjectTrailingGap` | app.js:74 | In a well-formed object, an offset after the last property's value (or any offset in `{}`) resolves to the object itself. |
| `ResolverLemmas.EarlierElementsPass` | app.js:84-91 | In a well-formed array, no element before `k` claims an offset at or after the end of element `k-1`. |
| `ResolverLemmas.ArrayGapGoesToArray` | app.js:89-90 | In a well-formed array, an offset at or after element `k-1`'s end and before element `k`'s start resolves to the array itself, with no `[k]`. |
| `ResolverLemmas.ArrayElementHit` | app.js:83-87 | In a well-formed array, an offset inside element `k` resolves as that element does under `[k]`. |
| `ResolverLemmas.ArrayTrailingGap` | app.js:94 | In a well-formed array, an offset after the last element (or any offset in `[]`) resolves to the array itself. |
| `ResolverLemmas.LeafResolvesToItsPath` | app.js:41-101 | In a well-formed tree, an offset inside a leaf resolves to that leaf's path, with one segment per nesting level, and every node on the way from the root down to the leaf covers the offset. |
| `Scenarios.NestedDocumentIsWellFormed` | app.js:17 | The token offsets of `{"a":[1,{"b":2}]}`, taken as its ranges, meet the tree invariants. |
| `Scenarios.FlatDocumentsAreWellFormed` | app.js:17 | The token offsets of `{"a": 1, "b": 2}` and `[1, 2]`, taken as their ranges, meet the tree invariants, so the gap scenarios use trees of the shape assumed of the parser's output. |
| `Scenarios.NestedDocumentValuePath` | app.js:36-101 | In `{"a":[1,{"b":2}]}`, the digit `2` resolves to `$.a[1].b`. |
| `Scenarios.NestedDocumentKeyPath` | app.js:58-61 | In the same document, the key `b` resolves to `$.a[1].b`. |
| `Scenarios.NestedDocumentTrailingPath` | app.js:74 | The inner object's closing brace resolves to `$.a[1]`. |
| `Scenarios.NestedDocumentFirstElementPath` | app.js:83-87 | The literal `1` resolves to `$.a[0]`. |
| `Scenarios.NestedDocumentCommaGoesToArray` | app.js:89-90 | The comma before `{"b":2}` resolves to `$.a`, not `$.a[1]`. |
| `Scenarios.GapAttributionAsymmetry` | app.js:69-90 | In `{"a": 1, "b": 2}`, the comma resolves to `$.b`, and the colon and the opening brace to `$.a`. In `[1, 2]`, the comma and the opening bracket resolve to `$`. |
| `Scenarios.OutsideGivesRoot` | app.js:37-48 | No tree, a negative offset, and the root's end offset all give `$`. |

## Left out

- `jsonToAst` (app.js:17): the parser is an external library and is not part of this model. Its output is taken as an input `Node`. `WellFormed` states the invariants the results about well-formed trees assume. For any tree, `Traverse` and the "first claim" lemmas hold with no invariant at all. If the parser gives no root range, every offset resolves to `$`, by `Traverse`'s first postcondition.
- `parseJson` (app.js:7-25): reading the text box, the empty-input check, the try/catch around the parser, the `—` output and the localized error message are user-interface work. A failed or empty parse is modelled as the absent tree `None`.
- `updatePath`, the DOM lookups and the event listeners (app.js:1-3, app.js:27-34, app.js:103-123): cursor tracking, `setSelectionRange` and the `selectionchange` wiring are I/O. The cursor offset is a parameter.
- The global `ast` (app.js:5) is replaced by the explicit `root` parameter.
- The `!node` test (app.js:42) is modelled only for the root, as the `Option<Node>` argument. Property values and array elements are assumed present in the parser's output. For a missing property value the source would already fail when reading `property.value.range` (app.js:69), and for a missing array element when reading `child.range` (app.js:89).
- The `!node.children` test (app.js:53, app.js:77): children are always a (possibly empty) sequence.
- The `default` branch of the `switch` (app.js:98): node types other than the four modelled ones are not in the datatype. They would behave like `Literal`.
- Keys are inserted verbatim (app.js:58). No escaping is modelled. A key containing `.` or `[` renders ambiguously, so `Render` has no inverse.
- Offsets are integers. JavaScript numbers that are not integers are not modelled.
