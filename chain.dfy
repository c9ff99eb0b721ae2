/** The chain's data: mass points and the sticks joining them, and the
    straight-line configuration the sketch starts from. */
module Chain {
  import opened Vectors

  /** A mass point. The sketch's constructor makes prevPosition the very
      same vector object as position, so a new point starts at rest. */
  datatype Point = Point(position: Vec, prevPosition: Vec, locked: bool)

  /** A stick between the points at indices p1 and p2 of the point list,
      with the target length fixed when it is built. */
  datatype Stick = Stick(p1: nat, p2: nat, length: real)

  /** new Point(position, locked). */
  function NewPoint(position: Vec, locked: bool): (p: Point)
    ensures p.position == position && p.locked == locked
    ensures p.prevPosition == p.position
  {
    Point(position, position, locked)
  }

  /** new Stick(points[i], points[j], slack): the target length is the
      distance between the two positions (p5.Vector.dist, taken as given)
      times the slack. */
  function NewStick(points: seq<Point>, i: nat, j: nat, slack: real, dist: (Vec, Vec) -> real): (s: Stick)
    requires i < |points| && j < |points|
    ensures s.p1 == i && s.p2 == j
    ensures s.length == dist(points[i].position, points[j].position) * slack
  {
    Stick(i, j, dist(points[i].position, points[j].position) * slack)
  }

  /** numPoints = width * 2; a non-positive count builds nothing. */
  function NumPoints(width: int): (n: nat)
    ensures n % 2 == 0
    ensures n > 0 <==> width > 0
    ensures width > 0 ==> n / 2 == width
  {
    if width > 0 then 2 * width else 0
  }

  /** Heights of the two anchors: the lower side (larger y, since y grows
      downwards on the canvas) is at |offset|, the other at 0. */
  function LeftHeight(offset: int): (h: real)
    ensures 0.0 <= h && (h > 0.0 <==> offset < 0)
  {
    -(if offset < 0 then offset else 0) as real
  }

  function RightHeight(offset: int): (h: real)
    ensures 0.0 <= h && (h > 0.0 <==> offset > 0)
    ensures h - LeftHeight(offset) == offset as real
  {
    (if offset > 0 then offset else 0) as real
  }

  /** p5's lerp(start, stop, amt): start at amount 0, stop at amount 1,
      and constant when the two ends agree. */
  function Lerp(start: real, stop: real, amt: real): (r: real)
    ensures amt == 0.0 ==> r == start
    ensures amt == 1.0 ==> r == stop
    ensures stop == start ==> r == start
  {
    amt * (stop - start) + start
  }

  /** The initial point i of a chain of width `width` and vertical offset
      `offset`: x = width * (i + 0.5) / numPoints, y interpolated between
      the anchor heights, locked at both ends. */
  function InitialPoint(width: int, offset: int, i: nat): (p: Point)
    requires i < NumPoints(width)
    ensures p.prevPosition == p.position
    ensures p.locked <==> i == 0 || i == NumPoints(width) - 1
  {
    var numPoints := 2 * width;
    var value := (i as real + 0.5) / (numPoints as real);
    var locked := i == 0 || i == numPoints - 1;
    var x := value * width as real;
    var y := Lerp(LeftHeight(offset), RightHeight(offset), value);
    NewPoint(Vec(x, y), locked)
  }

  /** The initial stick i joins points i and i + 1. */
  function InitialStick(points: seq<Point>, i: nat, slack: real, dist: (Vec, Vec) -> real): (s: Stick)
    requires i + 1 < |points|
    ensures s.p1 == i && s.p2 == i + 1
    ensures s.length == dist(points[i].position, points[i + 1].position) * slack
  {
    NewStick(points, i, i + 1, slack, dist)
  }

  // ---------------------------------------------------------------------------
  // Properties of the initial configuration
  // ---------------------------------------------------------------------------

  /** Since numPoints = 2 * width, point i sits at x = (2i + 1) / 4: half a
      unit apart, a quarter unit in from each end. */
  lemma InitialX(width: int, offset: int, i: nat)
    requires i < NumPoints(width)
    ensures InitialPoint(width, offset, i).position.x == (2 * i + 1) as real / 4.0
  {
    var w := width as real;
    var value := (i as real + 0.5) / (2.0 * w);
    assert value * (2.0 * w) == i as real + 0.5;
    assert value * w == (i as real + 0.5) / 2.0;
  }

  /** Initial x coordinates are strictly increasing and strictly inside
      (0, width). */
  lemma InitialXBounds(width: int, offset: int, i: nat, j: nat)
    requires i < j < NumPoints(width)
    ensures 0.0 < InitialPoint(width, offset, i).position.x < InitialPoint(width, offset, j).position.x
    ensures InitialPoint(width, offset, j).position.x < width as real
  {
    InitialX(width, offset, i);
    InitialX(width, offset, j);
  }

  /** Initial heights lie between 0 and |offset|, and every point starts at
      rest. */
  lemma InitialYBounds(width: int, offset: int, i: nat)
    requires i < NumPoints(width)
    ensures var p := InitialPoint(width, offset, i);
      0.0 <= p.position.y <= (if offset < 0 then -offset else offset) as real &&
      p.prevPosition == p.position
  {
    var value := (i as real + 0.5) / ((2 * width) as real);
    UnitInterval(i, 2 * width);
    var h := (if offset < 0 then -offset else offset) as real;
    FractionOf(value, h);
    var y := InitialPoint(width, offset, i).position.y;
    if offset < 0 {
      assert y == value * (0.0 - h) + h;
    } else {
      assert y == value * (h - 0.0) + 0.0;
    }
  }

  lemma UnitInterval(i: nat, n: nat)
    requires i < n
    ensures 0.0 < (i as real + 0.5) / (n as real) < 1.0
  {
    DivUnit(i as real + 0.5, n as real);
  }

  lemma DivUnit(a: real, b: real)
    requires 0.0 < a < b
    ensures 0.0 < a / b < 1.0
  {
    var q := a / b;
    assert q * b == a;
    if q >= 1.0 {
      ScaleAtLeast(q, b);
      assert false;
    }
    if q <= 0.0 {
      ScaleAtMost(q, b);
      assert false;
    }
  }

  lemma ScaleAtLeast(q: real, b: real)
    requires q >= 1.0 && b > 0.0
    ensures q * b >= b
  {
    assert q * b == b + (q - 1.0) * b;
  }

  lemma ScaleAtMost(q: real, b: real)
    requires q <= 0.0 && b > 0.0
    ensures q * b <= 0.0
  {
  }

  lemma FractionOf(v: real, h: real)
    requires 0.0 <= v <= 1.0 && 0.0 <= h
    ensures 0.0 <= v * h <= h
    ensures v * (0.0 - h) + h == h - v * h
  {
    assert (1.0 - v) * h >= 0.0;
  }

  /** Exactly the two end points are locked. */
  lemma InitialLocked(width: int, offset: int, i: nat)
    requires i < NumPoints(width)
    ensures InitialPoint(width, offset, i).locked <==> i == 0 || i == NumPoints(width) - 1
  {
  }
}
