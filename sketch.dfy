/** The p5 sketch's state and its three operations: initialize (build the
    chain, reset the controller), simulate (one physics step) and draw (one
    frame: select columns and markers, then simulate unless paused). The
    canvas is modelled by what it shows: the markers drawn in the last frame
    and the guide labels written since it was last cleared. */
module Sketch {
  import opened Vectors
  import opened Chain
  import opened Physics
  import opened Guides
  import opened Columns
  import opened Controller

  /** The truncated integer positions draw works on. */
  function PixelsOf(pts: seq<Point>): (px: seq<Pixel>)
    ensures |px| == |pts|
  {
    seq(|pts|, i requires 0 <= i < |pts| => Pixel(Trunc(pts[i].position.x), Trunc(pts[i].position.y)))
  }

  /** The point loop of initialize: numPoints = width * 2 points, point i
      at x = width * (i + 0.5) / numPoints on the line between the anchor
      heights, locked at both ends. */
  method BuildPoints(width: int, offset: int) returns (pts: seq<Point>)
    ensures |pts| == NumPoints(width)
    ensures forall i :: 0 <= i < |pts| ==> pts[i] == InitialPoint(width, offset, i)
  {
    pts := [];
    var leftHeight := LeftHeight(offset);
    var rightHeight := RightHeight(offset);

    var numPoints := width * 2;
    var i := 0;
    while i < numPoints
      invariant 0 <= i <= NumPoints(width)
      invariant |pts| == i
      invariant forall j :: 0 <= j < i ==> pts[j] == InitialPoint(width, offset, j)
    {
      var value := (i as real + 0.5) / (numPoints as real);
      var locked := i == 0 || i == numPoints - 1;
      var x := value * width as real;
      var y := Lerp(leftHeight, rightHeight, value);
      pts := pts + [NewPoint(Vec(x, y), locked)];
      i := i + 1;
    }
  }

  /** The stick loop of initialize: stick i joins points i and i + 1. */
  method BuildSticks(pts: seq<Point>, slack: real, dist: (Vec, Vec) -> real) returns (sts: seq<Stick>)
    ensures |sts| == if |pts| > 0 then |pts| - 1 else 0
    ensures forall i :: 0 <= i < |sts| ==> sts[i] == InitialStick(pts, i, slack, dist)
  {
    sts := [];
    var i := 0;
    while i < |pts| - 1
      invariant 0 <= i && (i <= |pts| - 1 || i == 0)
      invariant |sts| == i
      invariant forall j :: 0 <= j < i ==> sts[j] == InitialStick(pts, j, slack, dist)
    {
      sts := sts + [NewStick(pts, i, i + 1, slack, dist)];
      i := i + 1;
    }
  }

  /** The integrator loop of simulate: every unlocked point, in index order,
      takes its Verlet update. */
  method IntegratePoints(pts: seq<Point>) returns (r: seq<Point>)
    ensures r == IntegrateAll(pts)
  {
    r := pts;
    for k := 0 to |r|
      invariant |r| == |pts|
      invariant forall j :: 0 <= j < |pts| ==> r[j] == if j < k then IntegrateAll(pts)[j] else pts[j]
    {
      if !r[k].locked {
        r := r[k := Verlet(r[k])];
      }
    }
  }

  /** One relaxation pass of simulate: simStick on every stick, forwards when
      the pass number is even and backwards when it is odd. */
  method RelaxPass(pts: seq<Point>, sticks: seq<Stick>, normalize: Vec -> Vec, pass: nat) returns (r: seq<Point>)
    requires SticksWithin(sticks, |pts|)
    ensures r == ApplySticks(pts, sticks, normalize, PassOrder(pass, |sticks|))
  {
    r := pts;
    if pass % 2 == 0 {
      for j := 0 to |sticks|
        invariant r == ApplySticks(pts, sticks, normalize, Up(j))
      {
        assert Up(j + 1)[..j] == Up(j);
        r := ApplyStick(r, sticks[j], normalize);
      }
    } else {
      var j := |sticks| - 1;
      while j >= 0
        invariant -1 <= j < |sticks|
        invariant r == ApplySticks(pts, sticks, normalize, Down(|sticks|, j + 1))
      {
        assert Down(|sticks|, j)[..|sticks| - j - 1] == Down(|sticks|, j + 1);
        r := ApplyStick(r, sticks[j], normalize);
        j := j - 1;
      }
    }
  }

  /** The relaxation loop of simulate: NumIterationsPerSim passes. */
  method Relaxation(pts: seq<Point>, sticks: seq<Stick>, normalize: Vec -> Vec) returns (r: seq<Point>)
    requires SticksWithin(sticks, |pts|)
    ensures r == Relax(pts, sticks, normalize, NumIterationsPerSim)
  {
    r := pts;
    for pass := 0 to NumIterationsPerSim
      invariant r == Relax(pts, sticks, normalize, pass)
    {
      r := RelaxPass(r, sticks, normalize, pass);
    }
  }

  /** The point update of simulate: the integrator, then the relaxation. */
  method StepPoints(pts: seq<Point>, sticks: seq<Stick>, normalize: Vec -> Vec) returns (r: seq<Point>)
    requires SticksWithin(sticks, |pts|)
    ensures r == Step(pts, sticks, normalize)
  {
    r := IntegratePoints(pts);
    r := Relaxation(r, sticks, normalize);
  }

  /** pts has the points of anchors, with the same locked flags and every
      locked point where anchors has it. */
  ghost predicate Anchored(anchors: seq<Point>, pts: seq<Point>)
  {
    |anchors| == |pts| &&
    forall i :: 0 <= i < |pts| ==>
      pts[i].locked == anchors[i].locked && (anchors[i].locked ==> pts[i] == anchors[i])
  }

  /** A simulation step keeps the points anchored. */
  lemma StepAnchored(anchors: seq<Point>, pts: seq<Point>, sticks: seq<Stick>, normalize: Vec -> Vec)
    requires SticksWithin(sticks, |pts|) && Anchored(anchors, pts)
    ensures Anchored(anchors, Step(pts, sticks, normalize))
  {
    StepKeepsAnchors(pts, sticks, normalize);
  }

  class BridgeCalculator {
    var points: seq<Point>
    var sticks: seq<Stick>
    var yPixels: seq<int>
    var iterationsRun: nat
    var paused: bool
    /** Indices of the points whose grid squares the last frame drew. */
    var markers: seq<nat>
    /** The guide labels written since the canvas was last cleared. */
    var guides: seq<Guide>

    /** The points as the last initialize built them. */
    ghost var anchors: seq<Point>
    /** Runs of the guide annotator since the last initialize. */
    ghost var guideCalls: nat

    /** The sticks join points of the list; locked points sit where the last
        initialize put them; paused is set exactly once simulate has run more
        than MinIterations times, and the annotator has run once per call
        since then. */
    ghost predicate Valid()
      reads this
    {
      SticksWithin(sticks, |points|) &&
      Anchored(anchors, points) &&
      Consistent(Ctl())
    }

    ghost function Ctl(): Control
      reads this
    {
      Control(iterationsRun, paused, guideCalls)
    }

    /** The module-level state before setup runs. */
    constructor ()
      ensures Valid()
      ensures points == [] && sticks == [] && yPixels == [] && markers == [] && guides == []
      ensures Ctl() == Reset()
    {
      points, sticks, yPixels := [], [], [];
      iterationsRun, paused := 0, false;
      markers, guides := [], [];
      anchors, guideCalls := [], 0;
    }

    /** initialize: build 2 * width points on the straight line between the
        anchors and a stick between each consecutive pair, clear the canvas
        and reset the controller. The stick length uses dist, p5's Euclidean
        distance, taken as given. */
    method Initialize(width: int, offset: int, slack: real, dist: (Vec, Vec) -> real)
      modifies this
      ensures Valid()
      ensures |points| == NumPoints(width)
      ensures forall i :: 0 <= i < |points| ==> points[i] == InitialPoint(width, offset, i)
      ensures |sticks| == if |points| > 0 then |points| - 1 else 0
      ensures forall i :: 0 <= i < |sticks| ==> sticks[i] == InitialStick(points, i, slack, dist)
      ensures anchors == points
      ensures Ctl() == Reset()
      ensures yPixels == old(yPixels) && markers == [] && guides == []
    {
      var pts := BuildPoints(width, offset);
      var sts := BuildSticks(pts, slack, dist);
      points, sticks := pts, sts;
      markers, guides := [], [];
      paused := false;
      iterationsRun := 0;
      anchors, guideCalls := pts, 0;
    }

    /** simulate: count the call, move every unlocked point by the Verlet
        update, pause and add the guides to the canvas once past
        MinIterations, then run NumIterationsPerSim relaxation passes over
        the sticks, front to back on even passes and back to front on odd
        ones. */
    method Simulate(normalize: Vec -> Vec)
      requires Valid()
      modifies this
      ensures Valid()
      ensures sticks == old(sticks) && anchors == old(anchors)
      ensures yPixels == old(yPixels) && markers == old(markers)
      ensures points == Step(old(points), old(sticks), normalize)
      ensures Ctl() == Simulated(old(Ctl()))
      ensures guides == if iterationsRun > MinIterations then old(guides) + GuidesOf(yPixels) else old(guides)
    {
      SimulatedConsistent(Ctl());
      StepAnchored(anchors, points, sticks, normalize);
      var count := iterationsRun + 1;

      var pts := StepPoints(points, sticks, normalize);

      var pause, annotated, calls := paused, guides, guideCalls;
      if count > MinIterations {
        pause := true;
        var written := AddGuides(yPixels);
        annotated := annotated + written;
        calls := calls + 1;
      }
      points, iterationsRun, paused, guides, guideCalls := pts, count, pause, annotated, calls;
    }

    /** draw: unless paused, clear the canvas, record the column heights and
        draw the markers for the truncated positions, then simulate. */
    method Draw(normalize: Vec -> Vec)
      requires Valid()
      modifies this
      ensures Valid()
      ensures sticks == old(sticks) && anchors == old(anchors)
      ensures Ctl() == Drawn(old(Ctl()))
      ensures old(paused) ==>
        points == old(points) && yPixels == old(yPixels) && markers == old(markers) && guides == old(guides)
      ensures !old(paused) ==>
        yPixels == Heights(PixelsOf(old(points))) &&
        IsMarkerSelection(PixelsOf(old(points)), markers) &&
        points == Step(old(points), old(sticks), normalize) &&
        guides == if paused then GuidesOf(yPixels) else []
    {
      if !paused {
        guides := [];
        var px := PixelsOf(points);
        yPixels, markers := SelectColumns(px);
      }
      if !paused {
        Simulate(normalize);
      }
    }
  }
}
