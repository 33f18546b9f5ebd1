/** Dense arrays: boxes of cells, row-major order, and the reading and writing of ranges. */
module DenseArrays {

  /** An inclusive range in each dimension. */
  datatype Box = Unit | Axis(lo: int, hi: int, rest: Box)

  /** The box of a range as the SDK passes it: the bounds of each dimension, one after the other. */
  function BoxOf(r: seq<int>): Box
  {
    if |r| < 2 then Unit else Axis(r[0], r[1], BoxOf(r[2..]))
  }

  /** Every lower bound is at most the upper bound. */
  predicate Ordered(b: Box)
  {
    match b case Unit => true case Axis(lo, hi, rest) => lo <= hi && Ordered(rest)
  }

  /** The number of points of a box. */
  function Points(b: Box): int
  {
    match b case Unit => 1 case Axis(lo, hi, rest) => Times(hi - lo + 1, Points(rest))
  }

  function Times(a: int, b: int): int { a * b }

  predicate InBox(b: Box, pt: seq<int>)
  {
    match b
    case Unit => pt == []
    case Axis(lo, hi, rest) => pt != [] && lo <= pt[0] <= hi && InBox(rest, pt[1..])
  }

  /** The position of a point in row-major order. */
  function Linear(b: Box, pt: seq<int>): int
    requires InBox(b, pt)
  {
    match b
    case Unit => 0
    case Axis(lo, _, rest) => Times(pt[0] - lo, Points(rest)) + Linear(rest, pt[1..])
  }

  /** The point at a position in row-major order. */
  function Point(b: Box, i: int): seq<int>
    requires Ordered(b)
  {
    match b
    case Unit => []
    case Axis(lo, _, rest) => PointsPositive(rest); [lo + i / Points(rest)] + Point(rest, i % Points(rest))
  }

  lemma {:induction false} PointsPositive(b: Box)
    requires Ordered(b)
    ensures Points(b) >= 1
  {
    if b.Axis? {
      PointsPositive(b.rest);
      TimesMonotone(b.hi - b.lo + 1, 1, Points(b.rest));
    }
  }

  lemma TimesMonotone(x: int, y: int, n: int)
    requires n >= 0
    ensures x >= y ==> x * n >= y * n
  {
  }

  lemma DivRange(i: int, a: int, n: int)
    requires n >= 1 && 0 <= i < a * n
    ensures 0 <= i / n < a && 0 <= i % n < n && (i / n) * n + i % n == i
  {
    TimesMonotone(i / n, a, n);
  }

  lemma DivUnique(q: int, k: int, n: int)
    requires n >= 1 && 0 <= k < n
    ensures (q * n + k) / n == q && (q * n + k) % n == k
  {
    var i := q * n + k;
    assert i == (i / n) * n + i % n;
    TimesMonotone(i / n, q + 1, n);
    TimesMonotone(q, i / n + 1, n);
    assert (q + 1) * n == q * n + n && (i / n + 1) * n == (i / n) * n + n;
    assert i / n == q;
  }

  lemma Below(q: int, a: int, k: int, n: int)
    requires 0 <= q < a && 0 <= k < n
    ensures 0 <= q * n + k < a * n
  {
    assert (q + 1) * n <= a * n;
    assert 0 <= q * n;
  }

  /** Row-major positions are a bijection between the box and 0 .. Points - 1, this way round ... */
  lemma {:induction false} LinearOfPoint(b: Box, i: int)
    requires Ordered(b) && 0 <= i < Points(b)
    ensures InBox(b, Point(b, i)) && Linear(b, Point(b, i)) == i
  {
    if b.Axis? {
      var n := Points(b.rest);
      PointsPositive(b.rest);
      DivRange(i, b.hi - b.lo + 1, n);
      LinearOfPoint(b.rest, i % n);
      assert Point(b, i)[1..] == Point(b.rest, i % n);
    }
  }

  lemma PointAxis(b: Box, x: int, k: int)
    requires Ordered(b) && b.Axis? && b.lo <= x <= b.hi && 0 <= k < Points(b.rest)
    ensures var i := Times(x - b.lo, Points(b.rest)) + k; 0 <= i < Points(b) && Point(b, i) == [x] + Point(b.rest, k)
  {
    DivUnique(x - b.lo, k, Points(b.rest));
    Below(x - b.lo, b.hi - b.lo + 1, k, Points(b.rest));
  }

  /** ... and the other. */
  lemma {:induction false} PointOfLinear(b: Box, pt: seq<int>)
    requires Ordered(b) && InBox(b, pt)
    ensures 0 <= Linear(b, pt) < Points(b) && Point(b, Linear(b, pt)) == pt
  {
    if b.Axis? {
      PointOfLinear(b.rest, pt[1..]);
      PointAxis(b, pt[0], Linear(b.rest, pt[1..]));
      assert pt == [pt[0]] + pt[1..];
    }
  }

  /** The first coordinate in which two points differ decides. */
  predicate Before(p: seq<int>, q: seq<int>)
  {
    p != [] && q != [] && (p[0] < q[0] || (p[0] == q[0] && Before(p[1..], q[1..])))
  }

  lemma Carries(i: int, j: int, n: int, k: int, l: int)
    requires 0 <= k < n && 0 <= l < n && i < j
    ensures Times(i, n) + k < Times(j, n) + l
  {
    TimesMonotone(j, i + 1, n);
    assert (i + 1) * n == i * n + n;
  }

  /** Row-major order: the last coordinate varies fastest, the first slowest. */
  lemma {:induction false} RowMajor(b: Box, p: seq<int>, q: seq<int>)
    requires Ordered(b) && InBox(b, p) && InBox(b, q)
    ensures Linear(b, p) < Linear(b, q) <==> Before(p, q)
  {
    if b.Axis? {
      RowMajor(b.rest, p[1..], q[1..]);
      PointOfLinear(b.rest, p[1..]);
      PointOfLinear(b.rest, q[1..]);
      var k, l, n := Linear(b.rest, p[1..]), Linear(b.rest, q[1..]), Points(b.rest);
      if p[0] < q[0] { Carries(p[0] - b.lo, q[0] - b.lo, n, k, l); }
      if q[0] < p[0] { Carries(q[0] - b.lo, p[0] - b.lo, n, l, k); }
    }
  }

  // ------------------------------------------------------------ ranges of the SDK

  /** Coordinate `d` of the point is between the two bounds of dimension `d`. */
  predicate Between(r: seq<int>, pt: seq<int>, d: nat)
    requires d < |pt| && |r| == 2 * |pt|
  {
    r[2 * d] <= pt[d] <= r[2 * d + 1]
  }

  lemma BetweenRest(r: seq<int>, pt: seq<int>, d: nat)
    requires 0 < d < |pt| && |r| == 2 * |pt|
    ensures Between(r[2..], pt[1..], d - 1) == Between(r, pt, d)
  {
  }

  /** A point is in the box of a range exactly when each coordinate is between its bounds. */
  lemma {:induction false} InBoxExactly(r: seq<int>, pt: seq<int>)
    requires |r| % 2 == 0
    ensures InBox(BoxOf(r), pt) <==> |r| == 2 * |pt| && forall d: nat | d < |pt| :: Between(r, pt, d)
  {
    if |r| >= 2 && pt != [] {
      InBoxExactly(r[2..], pt[1..]);
      if |r| == 2 * |pt| {
        assert Between(r, pt, 0) <==> r[0] <= pt[0] <= r[1];
        forall d: nat | 0 < d < |pt| ensures Between(r[2..], pt[1..], d - 1) == Between(r, pt, d) { BetweenRest(r, pt, d); }
        assert forall d: nat | d < |pt| - 1 :: Between(r[2..], pt[1..], d) == Between(r, pt, d + 1);
      }
    }
  }

  /** A well-formed range: an even number of ordered bounds. */
  predicate IsRange(r: seq<int>) { |r| % 2 == 0 && Ordered(BoxOf(r)) }

  /** The loop of `ArrayResult.Size` for a dense result. */
  method Size(br: seq<int>) returns (size: int)
    requires |br| % 2 == 0
    ensures size == Points(BoxOf(br))
  {
    size := 1;
    var i := 0;
    while i < |br|
      invariant 0 <= i <= |br| && i % 2 == 0
      invariant size * Points(BoxOf(br[i..])) == Points(BoxOf(br))
    {
      assert br[i..][2..] == br[i + 2..];
      var extent := br[i + 1] - br[i] + 1;
      Regroup(size, extent, Points(BoxOf(br[i + 2..])));
      size := size * extent;
      i := i + 2;
    }
  }

  lemma Regroup(a: int, b: int, c: int)
    ensures a * Times(b, c) == (a * b) * c
  {
  }

  function Rows(r: seq<int>): int requires |r| >= 2 { r[1] - r[0] + 1 }

  function Cols(r: seq<int>): int requires |r| >= 4 { r[3] - r[2] + 1 }

  lemma LineBox(r: seq<int>)
    requires |r| == 2
    ensures BoxOf(r) == Axis(r[0], r[1], Unit) && Points(BoxOf(r)) == r[1] - r[0] + 1
  {
  }

  lemma PlaneBox(r: seq<int>)
    requires |r| == 4
    ensures BoxOf(r) == Axis(r[0], r[1], Axis(r[2], r[3], Unit))
  {
    assert r[2..][0] == r[2] && r[2..][1] == r[3];
    LineBox(r[2..]);
  }

  lemma LinePosition(r: seq<int>, x: int)
    requires |r| == 2 && r[0] <= x <= r[1]
    ensures InBox(BoxOf(r), [x]) && Linear(BoxOf(r), [x]) == x - r[0]
  {
    LineBox(r);
    assert [x][1..] == [];
  }

  /** On two-dimensional ranges the size is rows times columns. */
  lemma PlanePoints(r: seq<int>)
    requires |r| == 4
    ensures Points(BoxOf(r)) == Rows(r) * Cols(r)
  {
    PlaneBox(r);
    assert Points(Axis(r[2], r[3], Unit)) == Cols(r);
  }

  /** Row-major positions in two dimensions are the index arithmetic of `GetRow` and `GetColumn`. */
  lemma PlanePosition(r: seq<int>, y: int, x: int)
    requires |r| == 4 && r[0] <= y <= r[1] && r[2] <= x <= r[3]
    ensures InBox(BoxOf(r), [y, x]) && Linear(BoxOf(r), [y, x]) == (y - r[0]) * Cols(r) + (x - r[2])
  {
    PlaneBox(r);
    assert [y, x][1..] == [x];
    LinePosition(r[2..], x);
    LineBox(r[2..]);
  }

  // ------------------------------------------------------------ an ideal dense array

  /** Cells by point; what was never written holds the fill value. */
  type Cells<!T> = seq<int> -> T

  /** Writing a buffer, in row-major order, into a box. */
  function Put<T>(cells: Cells<T>, b: Box, buffer: seq<T>): Cells<T>
    requires Ordered(b) && |buffer| == Points(b)
  {
    (pt: seq<int>) => if InBox(b, pt) then PointOfLinear(b, pt); buffer[Linear(b, pt)] else cells(pt)
  }

  /** Reading a box, in row-major order. */
  function Get<T>(cells: Cells<T>, b: Box): seq<T>
    requires Ordered(b)
  {
    PointsPositive(b);
    seq(Points(b), i requires 0 <= i < Points(b) => cells(Point(b, i)))
  }

  predicate Inside(window: Box, b: Box)
  {
    match b
    case Unit => window == Unit
    case Axis(lo, hi, rest) => window.Axis? && lo <= window.lo && window.hi <= hi && Inside(window.rest, rest)
  }

  lemma {:induction false} InsideBox(window: Box, b: Box, pt: seq<int>)
    requires Inside(window, b) && InBox(window, pt)
    ensures InBox(b, pt)
  {
    if b.Axis? { InsideBox(window.rest, b.rest, pt[1..]); }
  }

  lemma {:induction false} InsideItself(b: Box)
    ensures Inside(b, b)
  {
    if b.Axis? { InsideItself(b.rest); }
  }

  /** Reading a window of what was written gives, at each position, the buffer element of the
      same point; in every number of dimensions. */
  lemma WindowOfBuffer<T>(cells: Cells<T>, b: Box, buffer: seq<T>, window: Box, i: int)
    requires Ordered(b) && |buffer| == Points(b) && Ordered(window) && Inside(window, b)
    requires 0 <= i < Points(window)
    ensures InBox(b, Point(window, i)) && 0 <= Linear(b, Point(window, i)) < |buffer|
    ensures Get(Put(cells, b, buffer), window)[i] == buffer[Linear(b, Point(window, i))]
  {
    LinearOfPoint(window, i);
    InsideBox(window, b, Point(window, i));
    PointOfLinear(b, Point(window, i));
  }

  /** Reading back the box just written returns the buffer. */
  lemma PutGet<T>(cells: Cells<T>, b: Box, buffer: seq<T>)
    requires Ordered(b) && |buffer| == Points(b)
    ensures Get(Put(cells, b, buffer), b) == buffer
  {
    forall i | 0 <= i < |buffer| ensures Get(Put(cells, b, buffer), b)[i] == buffer[i] {
      LinearOfPoint(b, i);
      InsideItself(b);
      WindowOfBuffer(cells, b, buffer, b, i);
    }
  }
}
