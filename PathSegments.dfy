/**
 * Path segments and their rendering: the root marker `$`, member access
 * `.key` with the key inserted verbatim, and element access `[i]` with the
 * index written in decimal.
 */
module PathSegments {

  datatype Segment = Root | Key(name: string) | Index(index: nat)

  type Path = seq<Segment>

  predicate IsDigit(c: char)
  {
    '0' <= c <= '9'
  }

  predicate AllDigits(s: string)
  {
    forall k :: 0 <= k < |s| ==> IsDigit(s[k])
  }

  function DigitChar(d: nat): (c: char)
    requires d < 10
    ensures IsDigit(c) && c as int - '0' as int == d
  {
    ('0' as int + d) as char
  }

  /** The decimal text of an index, as string interpolation produces it. */
  function Decimal(n: nat): (s: string)
    ensures |s| >= 1 && AllDigits(s)
    ensures s[0] == '0' ==> n == 0
    ensures n < 10 <==> |s| == 1
  {
    if n < 10 then [DigitChar(n)] else Decimal(n / 10) + [DigitChar(n % 10)]
  }

  /** The number a string of decimal digits denotes. */
  function DecimalValue(s: string): nat
    requires AllDigits(s)
  {
    if |s| == 0 then 0 else 10 * DecimalValue(s[..|s| - 1]) + (s[|s| - 1] as int - '0' as int)
  }

  /** Reading the rendered index back gives the index: no two indices render alike. */
  lemma {:induction false} DecimalRoundTrip(n: nat)
    ensures DecimalValue(Decimal(n)) == n
  {
    if n >= 10 {
      var s := Decimal(n);
      assert s[..|s| - 1] == Decimal(n / 10);
      DecimalRoundTrip(n / 10);
    }
  }

  /**
   * The text of one segment. Its first character tells the kind apart:
   * `$` for the root, `.` for a member, `[` for an element. The root is
   * exactly `$`, a member's key follows the dot verbatim, and an element's
   * brackets enclose the decimal digits of its index.
   */
  function SegmentText(s: Segment): (r: string)
    ensures |r| >= 1
    ensures r[0] == '$' <==> s.Root?
    ensures r[0] == '.' <==> s.Key?
    ensures r[0] == '[' <==> s.Index?
    ensures s.Key? ==> r[1..] == s.name
    ensures s.Index? ==> r[|r| - 1] == ']' && AllDigits(r[1..|r| - 1])
    ensures s.Index? ==> DecimalValue(r[1..|r| - 1]) == s.index
    ensures s.Index? ==> |r| >= 3 && (r[1] == '0' ==> |r| == 3)
    ensures s.Root? ==> r == "$"
  {
    match s
    case Root => "$"
    case Key(k) => "." + k
    case Index(i) =>
      var digits := Decimal(i);
      DecimalRoundTrip(i);
      assert ("[" + digits + "]")[1..|digits| + 1] == digits;
      "[" + digits + "]"
  }

  /**
   * Joins the texts of the segments with no separator. Every segment
   * contributes at least one character, and the text of the first segment
   * leads the result.
   */
  function Render(p: Path): (r: string)
    ensures |r| >= |p|
    ensures |p| > 0 ==> SegmentText(p[0]) <= r
  {
    if |p| == 0 then "" else SegmentText(p[0]) + Render(p[1..])
  }

  /** Rendering distributes over concatenation of paths. */
  lemma {:induction false} RenderConcat(a: Path, b: Path)
    ensures Render(a + b) == Render(a) + Render(b)
  {
    if |a| > 0 {
      assert (a + b)[1..] == a[1..] + b;
      RenderConcat(a[1..], b);
    } else {
      assert a + b == b;
    }
  }

  /** Extending a path by one segment appends exactly that segment's text. */
  lemma RenderExtend(p: Path, s: Segment)
    ensures Render(p + [s]) == Render(p) + SegmentText(s)
  {
    RenderConcat(p, [s]);
  }

  /** A path that starts at the root renders as `$` followed by the rest. */
  lemma RenderRooted(p: Path)
    requires |p| >= 1 && p[0] == Root
    ensures Render(p) == "$" + Render(p[1..])
    ensures |Render(p)| >= 1 && Render(p)[0] == '$'
  {
  }
}
