/**
 * Offset-to-path resolution: a top-down descent that classifies the offset
 * against each node's range and its children's ranges and returns the path
 * segments of the node the offset belongs to, or None when the offset is
 * not inside the node (the source's `null`).
 */
module Resolver {
  import opened Wrappers
  import opened JsonAst
  import opened PathSegments

  /** Every segment of p from position k on is a member or element access, not a root marker. */
  predicate NoRootFrom(p: Path, k: nat)
  {
    forall j :: k <= j < |p| ==> !p[j].Root?
  }

  /**
   * The recursive descent. It answers None exactly when the node has no
   * range or the offset lies outside it (half-open: the end offset is
   * outside); otherwise it extends the accumulated segments by at most as
   * many member or element accesses as the node is deep.
   */
  function Traverse(node: Node, offset: int, segs: Path): (r: Option<Path>)
    ensures r.None? <==> node.range.None? || offset < node.range.value.start || offset >= node.range.value.end
    ensures r.Some? ==> segs <= r.value && NoRootFrom(r.value, |segs|)
    ensures r.Some? ==> |r.value| <= |segs| + Depth(node)
    decreases node, 1
  {
    if !Covers(node, offset) then None
    else
      match node
      case Object(_, props) =>
        if |props| == 0 then Some(segs) else Some(ScanProperties(node, 0, offset, segs))
      case Array(_, elems) =>
        if |elems| == 0 then Some(segs) else Some(ScanElements(node, 0, offset, segs))
      case PropertyNode(_) => Some(segs)
      case Literal(_) => Some(segs)
  }

  /**
   * The loop over an object's properties from property i on. The first
   * property whose key holds the offset, whose value resolves it, or whose
   * value starts after it decides the answer; when none does, the object
   * itself is the answer.
   */
  function ScanProperties(obj: Node, i: nat, offset: int, segs: Path): (r: Path)
    requires obj.Object? && i <= |obj.props|
    ensures segs <= r && NoRootFrom(r, |segs|)
    ensures |r| <= |segs| + 1 + ValuesDepth(obj, i)
    decreases obj, 0, |obj.props| - i
  {
    if i == |obj.props| then segs
    else
      var p := obj.props[i];
      var keySegs := segs + [Key(p.key)];
      if OnKey(p, offset) then keySegs
      else
        match Traverse(p.value, offset, keySegs)
        case Some(m) => m
        case None => if Before(p.value, offset) then keySegs else ScanProperties(obj, i + 1, offset, segs)
  }

  /**
   * The loop over an array's elements from element i on. The first element
   * that resolves the offset decides the answer; an element that starts
   * after the offset makes the array itself the answer, as does running
   * past the last element.
   */
  function ScanElements(arr: Node, i: nat, offset: int, segs: Path): (r: Path)
    requires arr.Array? && i <= |arr.elems|
    ensures segs <= r && NoRootFrom(r, |segs|)
    ensures |r| <= |segs| + 1 + ElementsDepth(arr, i)
    decreases arr, 0, |arr.elems| - i
  {
    if i == |arr.elems| then segs
    else
      var child := arr.elems[i];
      match Traverse(child, offset, segs + [Index(i)])
      case Some(m) => m
      case None => if Before(child, offset) then segs else ScanElements(arr, i + 1, offset, segs)
  }

  /** The depth of an optional tree; an absent tree has depth 0. */
  function TreeDepth(root: Option<Node>): nat
  {
    if root.Some? then Depth(root.value) else 0
  }

  /**
   * The segments the public entry point renders: those of the descent from
   * the root marker, or the root marker alone when the descent finds nothing.
   */
  function Resolve(root: Option<Node>, offset: int): (r: Path)
    ensures |r| >= 1 && r[0] == Root && NoRootFrom(r, 1)
    ensures |r| <= 1 + TreeDepth(root)
    ensures root.None? || !Covers(root.value, offset) ==> r == [Root]
  {
    if root.None? then [Root]
    else
      match Traverse(root.value, offset, [Root])
      case Some(s) => s
      case None => [Root]
  }

  /**
   * The entry point. It is total over every tree and every integer offset;
   * its text always starts with `$`, is exactly `$` when there is no tree or
   * the offset is outside the root, and is always the rendering of Resolve.
   */
  function GetPathForOffset(root: Option<Node>, offset: int): (r: string)
    ensures r == Render(Resolve(root, offset))
    ensures |r| >= 1 && r[0] == '$'
    ensures root.None? || !Covers(root.value, offset) ==> r == "$"
  {
    var segments := if root.Some? then Traverse(root.value, offset, [Root]) else None;
    RenderRooted(Resolve(root, offset));
    if segments.Some? then Render(segments.value) else "$"
  }
}
