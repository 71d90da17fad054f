/**
 * The syntax tree the path resolver consumes: the output shape of the JSON
 * parser, with every node carrying an optional half-open character range.
 */
module JsonAst {
  import opened Wrappers

  /** A half-open range [start, end) of character offsets. */
  datatype Range = Range(start: int, end: int)

  /** The containment test used throughout: start <= offset < end. */
  predicate Inside(offset: int, r: Range)
  {
    r.start <= offset < r.end
  }

  /**
   * A syntax-tree node. A range of None stands for a node whose `range`
   * field is undefined; all other fields of the parser's nodes (`loc`, the
   * literal's value, `raw`) play no part in path resolution.
   */
  datatype Node =
    | Object(range: Option<Range>, props: seq<Property>)
    | Array(range: Option<Range>, elems: seq<Node>)
    | PropertyNode(range: Option<Range>)
    | Literal(range: Option<Range>)

  /** A property of an object: its key string, the key token's range, and its value. */
  datatype Property = Property(key: string, keyRange: Option<Range>, value: Node)

  /** The node has a range and the offset lies inside it. */
  predicate Covers(n: Node, offset: int)
  {
    n.range.Some? && Inside(offset, n.range.value)
  }

  /** The node has a range and the offset lies strictly before its start. */
  predicate Before(n: Node, offset: int)
  {
    n.range.Some? && offset < n.range.value.start
  }

  /** The property's key has a range and the offset lies inside it. */
  predicate OnKey(p: Property, offset: int)
  {
    p.keyRange.Some? && Inside(offset, p.keyRange.value)
  }

  function Start(n: Node): int
    requires n.range.Some?
  {
    n.range.value.start
  }

  function End(n: Node): int
    requires n.range.Some?
  {
    n.range.value.end
  }

  function Max(a: nat, b: nat): nat
  {
    if a < b then b else a
  }

  /**
   * Nesting depth: the number of container levels that have to be entered
   * to reach the deepest node. Leaves and empty containers have depth 0.
   */
  function Depth(n: Node): nat
    decreases n, 1
  {
    match n
    case Object(_, props) => if |props| == 0 then 0 else 1 + ValuesDepth(n, 0)
    case Array(_, elems) => if |elems| == 0 then 0 else 1 + ElementsDepth(n, 0)
    case PropertyNode(_) => 0
    case Literal(_) => 0
  }

  /** The largest depth among the values of properties i.. of an object. */
  function ValuesDepth(obj: Node, i: nat): (d: nat)
    requires obj.Object? && i <= |obj.props|
    ensures forall j :: i <= j < |obj.props| ==> Depth(obj.props[j].value) <= d
    decreases obj, 0, |obj.props| - i
  {
    if i == |obj.props| then 0 else Max(Depth(obj.props[i].value), ValuesDepth(obj, i + 1))
  }

  /** The largest depth among the elements i.. of an array. */
  function ElementsDepth(arr: Node, i: nat): (d: nat)
    requires arr.Array? && i <= |arr.elems|
    ensures forall j :: i <= j < |arr.elems| ==> Depth(arr.elems[j]) <= d
    decreases arr, 0, |arr.elems| - i
  {
    if i == |arr.elems| then 0 else Max(Depth(arr.elems[i]), ElementsDepth(arr, i + 1))
  }

  /** A property's key and value ranges are present, in order, and within the object's range. */
  predicate PropertyWithin(p: Property, r: Range)
  {
    && p.keyRange.Some? && p.value.range.Some?
    && r.start <= p.keyRange.value.start <= p.keyRange.value.end
    && p.keyRange.value.end <= Start(p.value)
    && End(p.value) <= r.end
  }

  /** The earlier property's value ends no later than the later property's key starts. */
  predicate PropertiesOrdered(earlier: Property, later: Property)
  {
    earlier.value.range.Some? && later.keyRange.Some? && End(earlier.value) <= later.keyRange.value.start
  }

  /** An element's range is present and within the array's range. */
  predicate ElementWithin(e: Node, r: Range)
  {
    e.range.Some? && r.start <= Start(e) && End(e) <= r.end
  }

  /** The earlier element ends no later than the later element starts. */
  predicate ElementsOrdered(earlier: Node, later: Node)
  {
    earlier.range.Some? && later.range.Some? && End(earlier) <= Start(later)
  }

  /**
   * The invariants assumed of the parser's output: every range is present
   * and not reversed, children lie inside their parent, and siblings are
   * ordered by position without overlapping.
   */
  predicate WellFormed(n: Node)
    decreases n
  {
    && n.range.Some? && n.range.value.start <= n.range.value.end
    && match n
       case Object(r, props) =>
         && (forall i :: 0 <= i < |props| ==> PropertyWithin(props[i], r.value) && WellFormed(props[i].value))
         && (forall i, j :: 0 <= i < j < |props| ==> PropertiesOrdered(props[i], props[j]))
       case Array(r, elems) =>
         && (forall i :: 0 <= i < |elems| ==> ElementWithin(elems[i], r.value) && WellFormed(elems[i]))
         && (forall i, j :: 0 <= i < j < |elems| ==> ElementsOrdered(elems[i], elems[j]))
       case PropertyNode(_) => true
       case Literal(_) => true
  }
}
