/**
 * What the descent returns, stated case by case: first for any tree, as
 * "the first child that claims the offset decides", then for well-formed
 * trees, in terms of where the offset falls among the children's ranges.
 */
module ResolverLemmas {
  import opened Wrappers
  import opened JsonAst
  import opened PathSegments
  import opened Resolver

  // ---------------------------------------------------------------------
  // Leaves and empty containers

  /** A node at which the descent stops: a literal, a bare property node, or an empty container. */
  predicate IsLeaf(n: Node)
  {
    n.Literal? || n.PropertyNode? || (n.Object? && |n.props| == 0) || (n.Array? && |n.elems| == 0)
  }

  /** A leaf or an empty container that covers the offset is its own answer. */
  lemma LeafOrEmptyIsOwnPath(node: Node, offset: int, segs: Path)
    requires Covers(node, offset)
    requires IsLeaf(node)
    ensures Traverse(node, offset, segs) == Some(segs)
  {
  }

  // ---------------------------------------------------------------------
  // Objects, for any tree

  /** Property p stops the scan at the given offset: on its key, inside its value, or before its value. */
  predicate PropertyClaims(p: Property, offset: int)
  {
    OnKey(p, offset) || Covers(p.value, offset) || Before(p.value, offset)
  }

  /**
   * What a claiming property answers: the value's own resolution when the
   * offset is in the value but not on the key, and the path to the
   * property otherwise.
   */
  function PropertyAnswer(p: Property, offset: int, segs: Path): Path
  {
    if !OnKey(p, offset) && Covers(p.value, offset) then Traverse(p.value, offset, segs + [Key(p.key)]).value
    else segs + [Key(p.key)]
  }

  lemma {:induction false} ScanPropertiesFirstClaim(obj: Node, i: nat, k: nat, offset: int, segs: Path)
    requires obj.Object? && i <= k < |obj.props|
    requires forall j :: i <= j < k ==> !PropertyClaims(obj.props[j], offset)
    requires PropertyClaims(obj.props[k], offset)
    ensures ScanProperties(obj, i, offset, segs) == PropertyAnswer(obj.props[k], offset, segs)
    decreases k - i
  {
    if i < k {
      ScanPropertiesFirstClaim(obj, i + 1, k, offset, segs);
    }
  }

  lemma {:induction false} ScanPropertiesNoClaim(obj: Node, i: nat, offset: int, segs: Path)
    requires obj.Object? && i <= |obj.props|
    requires forall j :: i <= j < |obj.props| ==> !PropertyClaims(obj.props[j], offset)
    ensures ScanProperties(obj, i, offset, segs) == segs
    decreases |obj.props| - i
  {
    if i < |obj.props| {
      ScanPropertiesNoClaim(obj, i + 1, offset, segs);
    }
  }

  /**
   * In an object that covers the offset, the first property that claims it
   * decides the answer: a key hit or a gap before the value gives the path
   * to that property, a value hit gives the value's resolution.
   */
  lemma ObjectFirstClaim(obj: Node, k: nat, offset: int, segs: Path)
    requires obj.Object? && Covers(obj, offset) && k < |obj.props|
    requires forall j :: 0 <= j < k ==> !PropertyClaims(obj.props[j], offset)
    requires PropertyClaims(obj.props[k], offset)
    ensures Traverse(obj, offset, segs) == Some(PropertyAnswer(obj.props[k], offset, segs))
  {
    ScanPropertiesFirstClaim(obj, 0, k, offset, segs);
  }

  /** In an object that covers the offset, when no property claims it the object is the answer. */
  lemma ObjectNoClaim(obj: Node, offset: int, segs: Path)
    requires obj.Object? && Covers(obj, offset)
    requires forall j :: 0 <= j < |obj.props| ==> !PropertyClaims(obj.props[j], offset)
    ensures Traverse(obj, offset, segs) == Some(segs)
  {
    if |obj.props| > 0 {
      ScanPropertiesNoClaim(obj, 0, offset, segs);
    }
  }

  // ---------------------------------------------------------------------
  // Arrays, for any tree

  /** Element e stops the scan at the given offset: inside it or before it. */
  predicate ElementClaims(e: Node, offset: int)
  {
    Covers(e, offset) || Before(e, offset)
  }

  /** What a claiming element at index k answers: its own resolution when it covers the offset, the array otherwise. */
  function ElementAnswer(e: Node, k: nat, offset: int, segs: Path): Path
  {
    if Covers(e, offset) then Traverse(e, offset, segs + [Index(k)]).value else segs
  }

  lemma {:induction false} ScanElementsFirstClaim(arr: Node, i: nat, k: nat, offset: int, segs: Path)
    requires arr.Array? && i <= k < |arr.elems|
    requires forall j :: i <= j < k ==> !ElementClaims(arr.elems[j], offset)
    requires ElementClaims(arr.elems[k], offset)
    ensures ScanElements(arr, i, offset, segs) == ElementAnswer(arr.elems[k], k, offset, segs)
    decreases k - i
  {
    if i < k {
      ScanElementsFirstClaim(arr, i + 1, k, offset, segs);
    }
  }

  lemma {:induction false} ScanElementsNoClaim(arr: Node, i: nat, offset: int, segs: Path)
    requires arr.Array? && i <= |arr.elems|
    requires forall j :: i <= j < |arr.elems| ==> !ElementClaims(arr.elems[j], offset)
    ensures ScanElements(arr, i, offset, segs) == segs
    decreases |arr.elems| - i
  {
    if i < |arr.elems| {
      ScanElementsNoClaim(arr, i + 1, offset, segs);
    }
  }

  /**
   * In an array that covers the offset, the first element that claims it
   * decides the answer: an element holding the offset gives its own
   * resolution under `[k]`, an element starting after it gives the array.
   */
  lemma ArrayFirstClaim(arr: Node, k: nat, offset: int, segs: Path)
    requires arr.Array? && Covers(arr, offset) && k < |arr.elems|
    requires forall j :: 0 <= j < k ==> !ElementClaims(arr.elems[j], offset)
    requires ElementClaims(arr.elems[k], offset)
    ensures Traverse(arr, offset, segs) == Some(ElementAnswer(arr.elems[k], k, offset, segs))
  {
    ScanElementsFirstClaim(arr, 0, k, offset, segs);
  }

  /** In an array that covers the offset, when no element claims it the array is the answer. */
  lemma ArrayNoClaim(arr: Node, offset: int, segs: Path)
    requires arr.Array? && Covers(arr, offset)
    requires forall j :: 0 <= j < |arr.elems| ==> !ElementClaims(arr.elems[j], offset)
    ensures Traverse(arr, offset, segs) == Some(segs)
  {
    if |arr.elems| > 0 {
      ScanElementsNoClaim(arr, 0, offset, segs);
    }
  }

  // ---------------------------------------------------------------------
  // Objects, for well-formed trees

  /** In a well-formed object, properties before k do not claim an offset at or after the end of property k-1's value. */
  lemma EarlierPropertiesPass(obj: Node, k: nat, offset: int)
    requires obj.Object? && WellFormed(obj) && k <= |obj.props|
    requires k > 0 ==> offset >= End(obj.props[k - 1].value)
    ensures forall j :: 0 <= j < k ==> !PropertyClaims(obj.props[j], offset)
  {
    forall j | 0 <= j < k
      ensures !PropertyClaims(obj.props[j], offset)
    {
      var p := obj.props[j];
      assert PropertyWithin(p, obj.range.value) && WellFormed(p.value);
      if j < k - 1 {
        assert PropertiesOrdered(p, obj.props[k - 1]);
        assert PropertyWithin(obj.props[k - 1], obj.range.value);
      }
    }
  }

  /**
   * Object gaps and keys: an offset inside a well-formed object, at or
   * after the end of the previous property's value and before property k's
   * value starts, resolves to property k. This covers the preceding comma
   * (for k = 0, the object's opening brace), the key itself, the colon and
   * the whitespace around them.
   */
  lemma ObjectGapGoesToNextProperty(obj: Node, k: nat, offset: int, segs: Path)
    requires obj.Object? && WellFormed(obj) && Covers(obj, offset) && k < |obj.props|
    requires k > 0 ==> offset >= End(obj.props[k - 1].value)
    requires offset < Start(obj.props[k].value)
    ensures Traverse(obj, offset, segs) == Some(segs + [Key(obj.props[k].key)])
  {
    EarlierPropertiesPass(obj, k, offset);
    ObjectFirstClaim(obj, k, offset, segs);
  }

  /** Key hits: an offset inside property k's key resolves to property k. */
  lemma ObjectKeyHit(obj: Node, k: nat, offset: int, segs: Path)
    requires obj.Object? && WellFormed(obj) && k < |obj.props|
    requires OnKey(obj.props[k], offset)
    ensures Traverse(obj, offset, segs) == Some(segs + [Key(obj.props[k].key)])
  {
    assert PropertyWithin(obj.props[k], obj.range.value);
    if k > 0 {
      assert PropertiesOrdered(obj.props[k - 1], obj.props[k]);
    }
    ObjectGapGoesToNextProperty(obj, k, offset, segs);
  }

  /** Value hits: an offset inside property k's value resolves inside that value, under `.key`. */
  lemma ObjectValueHit(obj: Node, k: nat, offset: int, segs: Path)
    requires obj.Object? && WellFormed(obj) && k < |obj.props|
    requires Covers(obj.props[k].value, offset)
    ensures Traverse(obj, offset, segs) == Traverse(obj.props[k].value, offset, segs + [Key(obj.props[k].key)])
  {
    var p := obj.props[k];
    assert PropertyWithin(p, obj.range.value);
    if k > 0 {
      assert PropertiesOrdered(obj.props[k - 1], p);
    }
    EarlierPropertiesPass(obj, k, offset);
    ObjectFirstClaim(obj, k, offset, segs);
  }

  /** Trailing gap: an offset inside a well-formed object, after the last property's value, resolves to the object. */
  lemma ObjectTrailingGap(obj: Node, offset: int, segs: Path)
    requires obj.Object? && WellFormed(obj) && Covers(obj, offset)
    requires |obj.props| > 0 ==> offset >= End(obj.props[|obj.props| - 1].value)
    ensures Traverse(obj, offset, segs) == Some(segs)
  {
    EarlierPropertiesPass(obj, |obj.props|, offset);
    ObjectNoClaim(obj, offset, segs);
  }

  // ---------------------------------------------------------------------
  // Arrays, for well-formed trees

  /** In a well-formed array, elements before k do not claim an offset at or after the end of element k-1. */
  lemma EarlierElementsPass(arr: Node, k: nat, offset: int)
    requires arr.Array? && WellFormed(arr) && k <= |arr.elems|
    requires k > 0 ==> offset >= End(arr.elems[k - 1])
    ensures forall j :: 0 <= j < k ==> !ElementClaims(arr.elems[j], offset)
  {
    forall j | 0 <= j < k
      ensures !ElementClaims(arr.elems[j], offset)
    {
      assert ElementWithin(arr.elems[j], arr.range.value) && WellFormed(arr.elems[j]);
      if j < k - 1 {
        assert ElementsOrdered(arr.elems[j], arr.elems[k - 1]);
        assert WellFormed(arr.elems[k - 1]);
      }
    }
  }

  /**
   * Array gaps: an offset inside a well-formed array, at or after the end
   * of element k-1 and before element k starts, resolves to the array
   * itself, not to element k.
   */
  lemma ArrayGapGoesToArray(arr: Node, k: nat, offset: int, segs: Path)
    requires arr.Array? && WellFormed(arr) && Covers(arr, offset) && k < |arr.elems|
    requires k > 0 ==> offset >= End(arr.elems[k - 1])
    requires offset < Start(arr.elems[k])
    ensures Traverse(arr, offset, segs) == Some(segs)
  {
    assert ElementWithin(arr.elems[k], arr.range.value);
    EarlierElementsPass(arr, k, offset);
    ArrayFirstClaim(arr, k, offset, segs);
  }

  /** Element hits: an offset inside element k resolves inside that element, under `[k]`. */
  lemma ArrayElementHit(arr: Node, k: nat, offset: int, segs: Path)
    requires arr.Array? && WellFormed(arr) && k < |arr.elems|
    requires Covers(arr.elems[k], offset)
    ensures Traverse(arr, offset, segs) == Traverse(arr.elems[k], offset, segs + [Index(k)])
  {
    assert ElementWithin(arr.elems[k], arr.range.value);
    if k > 0 {
      assert ElementsOrdered(arr.elems[k - 1], arr.elems[k]);
    }
    EarlierElementsPass(arr, k, offset);
    ArrayFirstClaim(arr, k, offset, segs);
  }

  /** Trailing gap: an offset inside a well-formed array, after its last element, resolves to the array. */
  lemma ArrayTrailingGap(arr: Node, offset: int, segs: Path)
    requires arr.Array? && WellFormed(arr) && Covers(arr, offset)
    requires |arr.elems| > 0 ==> offset >= End(arr.elems[|arr.elems| - 1])
    ensures Traverse(arr, offset, segs) == Some(segs)
  {
    EarlierElementsPass(arr, |arr.elems|, offset);
    ArrayNoClaim(arr, offset, segs);
  }

  // ---------------------------------------------------------------------
  // Resolution of an offset inside a leaf, for well-formed trees

  /** The node reached by following child positions (property or element numbers) from n. */
  function Locate(n: Node, address: seq<nat>): Option<Node>
    decreases address
  {
    if |address| == 0 then Some(n)
    else
      match n
      case Object(_, props) => if address[0] < |props| then Locate(props[address[0]].value, address[1..]) else None
      case Array(_, elems) => if address[0] < |elems| then Locate(elems[address[0]], address[1..]) else None
      case PropertyNode(_) => None
      case Literal(_) => None
  }

  /** The path segments naming the node Locate reaches: `.key` for each property step, `[i]` for each element step. */
  function AddressPath(n: Node, address: seq<nat>): Path
    requires Locate(n, address).Some?
    decreases address
  {
    if |address| == 0 then []
    else
      match n
      case Object(_, props) => [Key(props[address[0]].key)] + AddressPath(props[address[0]].value, address[1..])
      case Array(_, elems) => [Index(address[0])] + AddressPath(elems[address[0]], address[1..])
  }

  /**
   * An offset inside a leaf of a well-formed tree resolves to that leaf's
   * own path, with one segment per level of nesting, and every node on the
   * way from n down to the leaf covers the offset.
   */
  lemma {:induction false} LeafResolvesToItsPath(n: Node, address: seq<nat>, offset: int, segs: Path)
    requires WellFormed(n) && Locate(n, address).Some?
    requires IsLeaf(Locate(n, address).value) && Covers(Locate(n, address).value, offset)
    ensures Covers(n, offset)
    ensures forall j :: 0 <= j <= |address| ==> Locate(n, address[..j]).Some? && Covers(Locate(n, address[..j]).value, offset)
    ensures |AddressPath(n, address)| == |address|
    ensures Traverse(n, offset, segs) == Some(segs + AddressPath(n, address))
    decreases address
  {
    if |address| == 0 {
      assert segs + [] == segs;
    } else {
      var k := address[0];
      match n
      case Object(r, props) =>
        var p := props[k];
        assert PropertyWithin(p, r.value) && WellFormed(p.value);
        var keySegs := segs + [Key(p.key)];
        LeafResolvesToItsPath(p.value, address[1..], offset, keySegs);
        AncestorsCover(n, p.value, address, offset);
        ObjectValueHit(n, k, offset, segs);
        assert keySegs + AddressPath(p.value, address[1..]) == segs + AddressPath(n, address);
      case Array(r, elems) =>
        var e := elems[k];
        assert ElementWithin(e, r.value) && WellFormed(e);
        var indexSegs := segs + [Index(k)];
        LeafResolvesToItsPath(e, address[1..], offset, indexSegs);
        AncestorsCover(n, e, address, offset);
        ArrayElementHit(n, k, offset, segs);
        assert indexSegs + AddressPath(e, address[1..]) == segs + AddressPath(n, address);
    }
  }

  /**
   * The nodes on the way from n along a non-empty address cover the offset
   * when n does and the nodes on the way from its child along the rest of
   * the address do.
   */
  lemma AncestorsCover(n: Node, child: Node, address: seq<nat>, offset: int)
    requires |address| > 0 && Covers(n, offset)
    requires (n.Object? && address[0] < |n.props| && child == n.props[address[0]].value)
          || (n.Array? && address[0] < |n.elems| && child == n.elems[address[0]])
    requires forall j :: 0 <= j <= |address| - 1 ==> Locate(child, address[1..][..j]).Some? && Covers(Locate(child, address[1..][..j]).value, offset)
    ensures forall j :: 0 <= j <= |address| ==> Locate(n, address[..j]).Some? && Covers(Locate(n, address[..j]).value, offset)
  {
    forall j | 0 <= j <= |address|
      ensures Locate(n, address[..j]).Some? && Covers(Locate(n, address[..j]).value, offset)
    {
      if j == 0 {
        assert address[..j] == [];
      } else {
        var prefix := address[..j];
        assert prefix[0] == address[0] && prefix[1..] == address[1..][..j - 1];
        assert Locate(n, prefix) == Locate(child, address[1..][..j - 1]);
      }
    }
  }
}
