/**
 * Concrete documents with the character offsets of each token as their
 * ranges, as assumed of the parser's output, and the paths
 * the resolver returns at chosen offsets.
 */
module Scenarios {
  import opened Wrappers
  import opened JsonAst
  import opened PathSegments
  import opened Resolver
  import opened ResolverLemmas

  function R(start: int, end: int): Option<Range>
  {
    Some(Range(start, end))
  }

  /**
   * `{"a":[1,{"b":2}]}`: the object spans 0..17, key `"a"` 1..4, the array
   * 5..16, the literal `1` 6..7, the inner object 8..15, key `"b"` 9..12 and
   * the literal `2` 13..14. The comma between `1` and `{` is offset 7.
   */
  function NestedDocument(): Node
  {
    Object(R(0, 17), [Property("a", R(1, 4), NestedArray())])
  }

  function NestedArray(): Node
  {
    Array(R(5, 16), [Literal(R(6, 7)), InnerObject()])
  }

  function InnerObject(): Node
  {
    Object(R(8, 15), [Property("b", R(9, 12), Literal(R(13, 14)))])
  }

  /** `{"a": 1, "b": 2}`: key `"a"` 1..4, `1` 6..7, the comma 7, key `"b"` 9..12, `2` 14..15. */
  function TwoProperties(): Node
  {
    Object(R(0, 16), [
      Property("a", R(1, 4), Literal(R(6, 7))),
      Property("b", R(9, 12), Literal(R(14, 15)))
    ])
  }

  /** `[1, 2]`: `1` 1..2, the comma 2, `2` 4..5. */
  function TwoElements(): Node
  {
    Array(R(0, 6), [Literal(R(1, 2)), Literal(R(4, 5))])
  }

  lemma NestedDocumentIsWellFormed()
    ensures WellFormed(NestedDocument())
  {
    assert WellFormed(InnerObject());
    assert WellFormed(NestedArray()) by {
      assert ElementsOrdered(Literal(R(6, 7)), InnerObject());
    }
  }

  lemma FlatDocumentsAreWellFormed()
    ensures WellFormed(TwoProperties()) && WellFormed(TwoElements())
  {
  }

  /** The digit `2` resolves to `$.a[1].b`. */
  lemma NestedDocumentValuePath()
    ensures GetPathForOffset(Some(NestedDocument()), 13) == "$.a[1].b"
  {
    NestedDocumentIsWellFormed();
    LeafResolvesToItsPath(NestedDocument(), [0, 1, 0], 13, [Root]);
    assert AddressPath(NestedDocument(), [0, 1, 0]) == [Key("a"), Index(1), Key("b")];
    assert Render([Root, Key("a"), Index(1), Key("b")]) == "$.a[1].b";
  }

  /** The key `b` resolves to `$.a[1].b` as well. */
  lemma NestedDocumentKeyPath()
    ensures GetPathForOffset(Some(NestedDocument()), 10) == "$.a[1].b"
  {
    NestedDocumentIsWellFormed();
    ObjectValueHit(NestedDocument(), 0, 10, [Root]);
    ArrayElementHit(NestedArray(), 1, 10, [Root, Key("a")]);
    ObjectKeyHit(InnerObject(), 0, 10, [Root, Key("a"), Index(1)]);
    assert Render([Root, Key("a"), Index(1), Key("b")]) == "$.a[1].b";
  }

  /** The inner object's closing brace resolves to the inner object, `$.a[1]`. */
  lemma NestedDocumentTrailingPath()
    ensures GetPathForOffset(Some(NestedDocument()), 14) == "$.a[1]"
  {
    NestedDocumentIsWellFormed();
    ObjectValueHit(NestedDocument(), 0, 14, [Root]);
    ArrayElementHit(NestedArray(), 1, 14, [Root, Key("a")]);
    ObjectTrailingGap(InnerObject(), 14, [Root, Key("a"), Index(1)]);
    assert Render([Root, Key("a"), Index(1)]) == "$.a[1]";
  }

  /** The literal `1` resolves to `$.a[0]`. */
  lemma NestedDocumentFirstElementPath()
    ensures GetPathForOffset(Some(NestedDocument()), 6) == "$.a[0]"
  {
    NestedDocumentIsWellFormed();
    LeafResolvesToItsPath(NestedDocument(), [0, 0], 6, [Root]);
    assert AddressPath(NestedDocument(), [0, 0]) == [Key("a"), Index(0)];
    assert Render([Root, Key("a"), Index(0)]) == "$.a[0]";
  }

  /** The comma before `{"b":2}` belongs to the array, so it resolves to `$.a` and not to `$.a[1]`. */
  lemma NestedDocumentCommaGoesToArray()
    ensures GetPathForOffset(Some(NestedDocument()), 7) == "$.a"
  {
    NestedDocumentIsWellFormed();
    ObjectValueHit(NestedDocument(), 0, 7, [Root]);
    ArrayGapGoesToArray(NestedArray(), 1, 7, [Root, Key("a")]);
    assert Render([Root, Key("a")]) == "$.a";
  }

  /**
   * In an object the comma and the opening brace resolve to the following
   * property; in an array, to the array.
   */
  lemma GapAttributionAsymmetry()
    ensures GetPathForOffset(Some(TwoProperties()), 7) == "$.b"
    ensures GetPathForOffset(Some(TwoProperties()), 0) == "$.a"
    ensures GetPathForOffset(Some(TwoElements()), 0) == "$"
    ensures GetPathForOffset(Some(TwoProperties()), 4) == "$.a"
    ensures GetPathForOffset(Some(TwoElements()), 2) == "$"
  {
    FlatDocumentsAreWellFormed();
    ObjectGapGoesToNextProperty(TwoProperties(), 1, 7, [Root]);
    ObjectGapGoesToNextProperty(TwoProperties(), 0, 4, [Root]);
    ObjectGapGoesToNextProperty(TwoProperties(), 0, 0, [Root]);
    ArrayGapGoesToArray(TwoElements(), 1, 2, [Root]);
    ArrayGapGoesToArray(TwoElements(), 0, 0, [Root]);
    assert Render([Root, Key("a")]) == "$.a";
    assert Render([Root, Key("b")]) == "$.b";
  }

  /** No tree, negative offsets and the end offset of the root all give `$`. */
  lemma OutsideGivesRoot()
    ensures GetPathForOffset(None, 5) == "$"
    ensures GetPathForOffset(Some(NestedDocument()), -1) == "$"
    ensures GetPathForOffset(Some(NestedDocument()), 17) == "$"
  {
  }
}
