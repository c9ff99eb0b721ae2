/** One simulation step of the chain, on values: the damped Verlet update of
    every unlocked point, then NumIterationsPerSim relaxation passes over the
    sticks in alternating direction. The direction p5's normalize() gives a
    vector is taken as a parameter: it involves a square root. */
module Physics {
  import opened Vectors
  import opened Chain

  const Gravity: Vec := Vec(0.0, 0.15)
  const GravityMultiplier: real := 0.5
  const Damping: real := 1.1
  const NumIterationsPerSim: nat := 20

  // ---------------------------------------------------------------------------
  // The integrator
  // ---------------------------------------------------------------------------

  /** The Verlet update of an unlocked point: remember the position, add the
      implicit velocity (position - prevPosition) damped by 1.1, add gravity
      times the multiplier, and make the remembered position the previous
      one. The implicit velocity after the step is the old one divided by the
      damping factor plus the gravity impulse. */
  function Verlet(p: Point): (q: Point)
    ensures q.locked == p.locked && q.prevPosition == p.position
    ensures Sub(q.position, q.prevPosition) ==
      Add(Div(Sub(p.position, p.prevPosition), Damping), Scale(Gravity, GravityMultiplier))
  {
    var lastPos := p.position;
    var moved := Add(p.position, Div(Sub(p.position, p.prevPosition), Damping));
    Point(Add(moved, Scale(Gravity, GravityMultiplier)), lastPos, p.locked)
  }

  /** The integrator pass over all points: locked points are skipped. */
  function IntegrateAll(pts: seq<Point>): (r: seq<Point>)
    ensures |r| == |pts|
    ensures forall i :: 0 <= i < |pts| ==>
      r[i].locked == pts[i].locked &&
      (pts[i].locked ==> r[i] == pts[i]) &&
      (!pts[i].locked ==> r[i].prevPosition == pts[i].position)
  {
    seq(|pts|, i requires 0 <= i < |pts| => if pts[i].locked then pts[i] else Verlet(pts[i]))
  }

  /** The integrator in coordinates: an unlocked point moves to
      pos + (pos - prev) / 1.1 + (0, 0.075) and remembers pos; a locked one
      keeps both fields. */
  lemma IntegratorStep(pts: seq<Point>, i: nat)
    requires i < |pts|
    ensures |IntegrateAll(pts)| == |pts|
    ensures var p, q := pts[i], IntegrateAll(pts)[i];
      if p.locked then q == p
      else
        q.locked == p.locked && q.prevPosition == p.position &&
        q.position.x == p.position.x + (p.position.x - p.prevPosition.x) / 1.1 &&
        q.position.y == p.position.y + (p.position.y - p.prevPosition.y) / 1.1 + 0.075
  {
  }

  /** A point at rest (prevPosition == position, as every point is right
      after construction) falls by exactly the gravity impulse 0.075. */
  lemma VerletFromRest(p: Point)
    requires p.prevPosition == p.position
    ensures Verlet(p).position == Vec(p.position.x, p.position.y + 0.075)
  {
    var a := p.position;
    assert Verlet(p).position == Vec(a.x + (a.x - a.x) / 1.1 + 0.0 * 0.5, a.y + (a.y - a.y) / 1.1 + 0.15 * 0.5);
  }

  // ---------------------------------------------------------------------------
  // The stick correction
  // ---------------------------------------------------------------------------

  /** Every stick of the list joins two points of a list of n points. */
  predicate SticksWithin(sticks: seq<Stick>, n: nat)
  {
    forall k :: 0 <= k < |sticks| ==> sticks[k].p1 < n && sticks[k].p2 < n
  }

  /** After is before with the locked flags and previous positions kept and
      each locked point untouched. */
  predicate KeepsAnchors(before: seq<Point>, after: seq<Point>)
  {
    |after| == |before| &&
    forall i :: 0 <= i < |before| ==>
      after[i].locked == before[i].locked &&
      after[i].prevPosition == before[i].prevPosition &&
      (before[i].locked ==> after[i] == before[i])
  }

  /** simStick: move each unlocked end of the stick to the centre of the two
      positions plus or minus half the target length along the normalised
      direction from p2 to p1. Both writes use the centre and direction taken
      before either end moves. */
  function ApplyStick(pts: seq<Point>, s: Stick, normalize: Vec -> Vec): (r: seq<Point>)
    requires s.p1 < |pts| && s.p2 < |pts|
    ensures KeepsAnchors(pts, r)
    ensures forall i :: 0 <= i < |pts| && i != s.p1 && i != s.p2 ==> r[i] == pts[i]
  {
    var center := Div(Add(pts[s.p1].position, pts[s.p2].position), 2.0);
    var dir := normalize(Sub(pts[s.p1].position, pts[s.p2].position));
    var afterP1 :=
      if !pts[s.p1].locked
      then pts[s.p1 := pts[s.p1].(position := Add(center, Scale(dir, s.length / 2.0)))]
      else pts;
    if !afterP1[s.p2].locked
    then afterP1[s.p2 := afterP1[s.p2].(position := Sub(center, Scale(dir, s.length / 2.0)))]
    else afterP1
  }

  /** When both ends of a stick are free, the correction keeps the stick's
      midpoint, and the difference of its ends becomes `length` times
      normalize of their old difference. */
  lemma StickCorrection(pts: seq<Point>, s: Stick, normalize: Vec -> Vec)
    requires s.p1 < |pts| && s.p2 < |pts| && s.p1 != s.p2
    requires !pts[s.p1].locked && !pts[s.p2].locked
    ensures var r := ApplyStick(pts, s, normalize);
      var a, b := pts[s.p1].position, pts[s.p2].position;
      Div(Add(r[s.p1].position, r[s.p2].position), 2.0) == Div(Add(a, b), 2.0) &&
      Sub(r[s.p1].position, r[s.p2].position) == Scale(normalize(Sub(a, b)), s.length)
  {
  }

  /** The sticks of `order`, applied one after another. */
  function ApplySticks(pts: seq<Point>, sticks: seq<Stick>, normalize: Vec -> Vec, order: seq<nat>): (r: seq<Point>)
    requires SticksWithin(sticks, |pts|)
    requires forall k :: 0 <= k < |order| ==> order[k] < |sticks|
    ensures KeepsAnchors(pts, r)
  {
    if |order| == 0 then pts
    else
      var done := ApplySticks(pts, sticks, normalize, order[..|order| - 1]);
      ApplyStick(done, sticks[order[|order| - 1]], normalize)
  }

  // ---------------------------------------------------------------------------
  // Pass order
  // ---------------------------------------------------------------------------

  /** The stick indices 0, 1, ..., n - 1. */
  function Up(n: nat): (r: seq<nat>)
    ensures |r| == n && forall k :: 0 <= k < n ==> r[k] < n
  {
    if n == 0 then [] else Up(n - 1) + [n - 1]
  }

  /** The stick indices n - 1, n - 2, ..., j. */
  function Down(n: nat, j: nat): (r: seq<nat>)
    requires j <= n
    ensures |r| == n - j && forall k :: 0 <= k < n - j ==> j <= r[k] < n
    decreases n - j
  {
    if j == n then [] else Down(n, j + 1) + [j]
  }

  /** Pass number `pass` goes front to back when it is even and back to
      front when it is odd. */
  function PassOrder(pass: nat, n: nat): (o: seq<nat>)
    ensures |o| == n && forall k :: 0 <= k < n ==> o[k] < n
  {
    if pass % 2 == 0 then Up(n) else Down(n, 0)
  }

  lemma {:induction false} UpAt(n: nat)
    ensures forall k :: 0 <= k < n ==> Up(n)[k] == k
    ensures forall s: int :: multiset(Up(n))[s] == if 0 <= s < n then 1 else 0
  {
    UpIndices(n);
    UpCounts(n);
  }

  lemma {:induction false} UpIndices(n: nat)
    ensures forall k :: 0 <= k < n ==> Up(n)[k] == k
  {
    if n > 0 {
      UpIndices(n - 1);
      assert Up(n) == Up(n - 1) + [n - 1];
    }
  }

  lemma {:induction false} UpCounts(n: nat)
    ensures forall s: int :: multiset(Up(n))[s] == if 0 <= s < n then 1 else 0
  {
    if n > 0 {
      UpCounts(n - 1);
      var last: nat := n - 1;
      assert Up(n) == Up(n - 1) + [last];
      assert multiset(Up(n)) == multiset(Up(n - 1)) + multiset{last};
    }
  }

  lemma {:induction false} DownAt(n: nat, j: nat)
    requires j <= n
    ensures forall k :: 0 <= k < n - j ==> Down(n, j)[k] == n - 1 - k
    ensures forall s: int :: multiset(Down(n, j))[s] == if j <= s < n then 1 else 0
    decreases n - j
  {
    if j < n {
      DownAt(n, j + 1);
      assert Down(n, j) == Down(n, j + 1) + [j];
      assert multiset(Down(n, j)) == multiset(Down(n, j + 1)) + multiset{j};
    }
  }

  /** Each pass visits every stick exactly once: in index order on even
      passes, in reverse index order on odd passes. */
  lemma PassVisitsEachStickOnce(pass: nat, n: nat)
    ensures |PassOrder(pass, n)| == n
    ensures forall k :: 0 <= k < n ==>
      PassOrder(pass, n)[k] == if pass % 2 == 0 then k else n - 1 - k
    ensures forall s: int :: multiset(PassOrder(pass, n))[s] == if 0 <= s < n then 1 else 0
  {
    if pass % 2 == 0 {
      assert PassOrder(pass, n) == Up(n);
      UpAt(n);
    } else {
      assert PassOrder(pass, n) == Down(n, 0);
      DownAt(n, 0);
    }
  }

  // ---------------------------------------------------------------------------
  // Relaxation and the whole step
  // ---------------------------------------------------------------------------

  /** The first `passes` relaxation passes. */
  function Relax(pts: seq<Point>, sticks: seq<Stick>, normalize: Vec -> Vec, passes: nat): (r: seq<Point>)
    requires SticksWithin(sticks, |pts|)
    ensures KeepsAnchors(pts, r)
  {
    if passes == 0 then pts
    else
      var done := Relax(pts, sticks, normalize, passes - 1);
      ApplySticks(done, sticks, normalize, PassOrder(passes - 1, |sticks|))
  }

  /** What simulate does to the points: integrate, then relax. */
  function Step(pts: seq<Point>, sticks: seq<Stick>, normalize: Vec -> Vec): (r: seq<Point>)
    requires SticksWithin(sticks, |pts|)
    ensures |r| == |pts|
    ensures forall i :: 0 <= i < |pts| ==> r[i].locked == pts[i].locked && (pts[i].locked ==> r[i] == pts[i])
  {
    Relax(IntegrateAll(pts), sticks, normalize, NumIterationsPerSim)
  }

  /** A step never moves a locked point and never unlocks or locks one; every
      unlocked point's previous position afterwards is its position before
      the step. */
  lemma StepKeepsAnchors(pts: seq<Point>, sticks: seq<Stick>, normalize: Vec -> Vec)
    requires SticksWithin(sticks, |pts|)
    ensures var r := Step(pts, sticks, normalize);
      |r| == |pts| &&
      forall i :: 0 <= i < |pts| ==>
        r[i].locked == pts[i].locked &&
        (pts[i].locked ==> r[i] == pts[i]) &&
        (!pts[i].locked ==> r[i].prevPosition == pts[i].position)
  {
    var mid := IntegrateAll(pts);
    assert KeepsAnchors(mid, Step(pts, sticks, normalize));
  }
}
