/** The per-frame selection in draw: which integer-truncated point positions
    feed the guide annotator's column heights, and which get a grid marker. */
module Columns {

  datatype Pixel = Pixel(x: int, y: int)

  /** parseInt of a coordinate: truncation toward zero, so the result has
      the sign of r and lies less than 1 from it, on the side of 0. */
  function Trunc(r: real): (t: int)
    ensures r >= 0.0 ==> 0 <= t && t as real <= r < t as real + 1.0
    ensures r < 0.0 ==> t <= 0 && t as real - 1.0 < r <= t as real
  {
    if r >= 0.0 then r.Floor else -((-r).Floor)
  }

  // ---------------------------------------------------------------------------
  // Column heights
  // ---------------------------------------------------------------------------

  /** The largest x among the first n pixels, or -1 if that is larger. */
  function MaxX(px: seq<Pixel>, n: nat): int
    requires n <= |px|
  {
    if n == 0 then -1
    else
      var m := MaxX(px, n - 1);
      if px[n - 1].x > m then px[n - 1].x else m
  }

  /** The indices, among the first n, of pixels whose x exceeds -1 and the x
      of every earlier pixel. */
  function Columns(px: seq<Pixel>, n: nat): (cs: seq<nat>)
    requires n <= |px|
    ensures |cs| <= n
    ensures forall k :: 0 <= k < |cs| ==> cs[k] < n
    ensures forall j, k :: 0 <= j < k < |cs| ==> cs[j] < cs[k]
  {
    if n == 0 then []
    else Columns(px, n - 1) + if px[n - 1].x > MaxX(px, n - 1) then [n - 1] else []
  }

  /** The column heights: the y of every pixel in Columns. */
  function Heights(px: seq<Pixel>): (ys: seq<int>)
    ensures |ys| <= |px|
    ensures forall k :: 0 <= k < |ys| ==> exists i :: 0 <= i < |px| && px[i].x > -1 && px[i].y == ys[k]
  {
    var cs := Columns(px, |px|);
    ColumnsAboveMinusOne(px, |px|);
    var ys := seq(|cs|, k requires 0 <= k < |cs| => px[cs[k]].y);
    assert forall k :: 0 <= k < |ys| ==> cs[k] < |px| && px[cs[k]].x > -1 && ys[k] == px[cs[k]].y;
    ys
  }

  /** Every selected pixel has x above -1. */
  lemma {:induction false} ColumnsAboveMinusOne(px: seq<Pixel>, n: nat)
    requires n <= |px|
    ensures forall k :: 0 <= k < |Columns(px, n)| ==> px[Columns(px, n)[k]].x > -1
  {
    if n > 0 {
      ColumnsAboveMinusOne(px, n - 1);
      MaxXAtLeast(px, n - 1);
    }
  }

  /** MaxX never goes below its start value -1. */
  lemma {:induction false} MaxXAtLeast(px: seq<Pixel>, n: nat)
    requires n <= |px|
    ensures MaxX(px, n) >= -1
  {
    if n > 0 {
      MaxXAtLeast(px, n - 1);
    }
  }

  /** MaxX(px, n) is exceeded exactly by the values above -1 and above the x
      of each of the first n pixels. */
  lemma {:induction false} MaxXExceeded(px: seq<Pixel>, n: nat, v: int)
    requires n <= |px|
    ensures v > MaxX(px, n) <==> v > -1 && forall j :: 0 <= j < n ==> px[j].x < v
  {
    if n > 0 {
      MaxXExceeded(px, n - 1, v);
    }
  }

  /** A pixel starts a new column exactly when its x is above -1 and above
      every earlier pixel's x. */
  lemma {:induction false} ColumnsMembers(px: seq<Pixel>, n: nat, i: nat)
    requires i < n <= |px|
    ensures i in Columns(px, n) <==> px[i].x > -1 && forall j :: 0 <= j < i ==> px[j].x < px[i].x
  {
    if i == n - 1 {
      MaxXExceeded(px, i, px[i].x);
      assert i !in Columns(px, n - 1);
    } else {
      ColumnsMembers(px, n - 1, i);
    }
  }

  /** The recorded columns have strictly increasing x, and there are no more
      heights than points. */
  lemma ColumnsIncreasing(px: seq<Pixel>)
    ensures |Heights(px)| <= |px|
    ensures var cs := Columns(px, |px|);
      forall j, k :: 0 <= j < k < |cs| ==> px[cs[j]].x < px[cs[k]].x
  {
    var cs := Columns(px, |px|);
    forall j, k | 0 <= j < k < |cs| ensures px[cs[j]].x < px[cs[k]].x {
      assert cs[k] in cs;
      ColumnsMembers(px, |px|, cs[k]);
    }
  }

  // ---------------------------------------------------------------------------
  // Markers
  // ---------------------------------------------------------------------------

  /** The markers drawn for px (as indices): the first and the last pixel,
      in increasing order; every other marker differs from the marker before
      it; and every pixel without a marker repeats the last marker before it. */
  ghost predicate IsMarkerSelection(px: seq<Pixel>, markers: seq<nat>)
  {
    (forall k :: 0 <= k < |markers| ==> markers[k] < |px|) &&
    (forall j, k :: 0 <= j < k < |markers| ==> markers[j] < markers[k]) &&
    (|px| > 0 ==> |markers| > 0 && markers[0] == 0 && markers[|markers| - 1] == |px| - 1) &&
    (|px| == 0 ==> markers == []) &&
    (forall k :: 0 < k < |markers| && markers[k] != |px| - 1 ==> px[markers[k]] != px[markers[k - 1]]) &&
    (forall k, i :: 0 <= k < |markers| - 1 && markers[k] < i < markers[k + 1] ==> px[i] == px[markers[k]])
  }

  /** The marker state after the first i pixels: markers holds the
      selection so far, and (lastX, lastY) is the last marker's pixel, which
      every later unmarked pixel repeats. */
  ghost predicate MarkedSoFar(px: seq<Pixel>, i: nat, markers: seq<nat>, lastX: int, lastY: int)
    requires i <= |px|
  {
    (forall k :: 0 <= k < |markers| ==> markers[k] < i) &&
    (forall j, k :: 0 <= j < k < |markers| ==> markers[j] < markers[k]) &&
    (i == 0 ==> markers == []) &&
    (i > 0 ==> |markers| > 0 && markers[0] == 0 && px[markers[|markers| - 1]] == Pixel(lastX, lastY)) &&
    (forall k :: 0 < k < |markers| && markers[k] != |px| - 1 ==> px[markers[k]] != px[markers[k - 1]]) &&
    (forall k, j :: 0 <= k < |markers| - 1 && markers[k] < j < markers[k + 1] ==> px[j] == px[markers[k]]) &&
    (i > 0 ==> forall j :: markers[|markers| - 1] < j < i ==> px[j] == Pixel(lastX, lastY)) &&
    (0 < i == |px| ==> markers[|markers| - 1] == |px| - 1)
  }

  /** One iteration of the marker test keeps MarkedSoFar. */
  lemma MarkStep(px: seq<Pixel>, i: nat, markers: seq<nat>, lastX: int, lastY: int)
    requires i < |px| && MarkedSoFar(px, i, markers, lastX, lastY)
    ensures var p := px[i];
      if p.y != lastY || p.x != lastX || i == 0 || i == |px| - 1
      then MarkedSoFar(px, i + 1, markers + [i], p.x, p.y)
      else MarkedSoFar(px, i + 1, markers, lastX, lastY)
  {
    var p := px[i];
    if p.y != lastY || p.x != lastX || i == 0 || i == |px| - 1 {
      MarkAdd(px, i, markers, lastX, lastY);
    } else {
      MarkSkip(px, i, markers, lastX, lastY);
    }
  }

  /** A drawn marker becomes the last marker. */
  lemma MarkAdd(px: seq<Pixel>, i: nat, markers: seq<nat>, lastX: int, lastY: int)
    requires i < |px| && MarkedSoFar(px, i, markers, lastX, lastY)
    requires px[i] != Pixel(lastX, lastY) || i == 0 || i == |px| - 1
    ensures MarkedSoFar(px, i + 1, markers + [i], px[i].x, px[i].y)
  {
    var m := markers + [i];
    if |markers| > 0 {
      var last := |markers| - 1;
      forall k | 0 < k < |m| && m[k] != |px| - 1 ensures px[m[k]] != px[m[k - 1]] {
        if k < |markers| {
          assert m[k] == markers[k] && m[k - 1] == markers[k - 1];
        } else {
          assert m[k - 1] == markers[last];
        }
      }
      forall k, j | 0 <= k < |m| - 1 && m[k] < j < m[k + 1] ensures px[j] == px[m[k]] {
        if k < last {
          assert m[k] == markers[k] && m[k + 1] == markers[k + 1];
        } else {
          assert m[k] == markers[last] && m[k + 1] == i;
        }
      }
    }
  }

  /** A pixel equal to the last marker and neither first nor last is
      skipped. */
  lemma MarkSkip(px: seq<Pixel>, i: nat, markers: seq<nat>, lastX: int, lastY: int)
    requires i < |px| && MarkedSoFar(px, i, markers, lastX, lastY)
    requires px[i] == Pixel(lastX, lastY) && i != 0 && i != |px| - 1
    ensures MarkedSoFar(px, i + 1, markers, lastX, lastY)
  {
  }

  /** After the last pixel MarkedSoFar is the whole selection. */
  lemma MarkDone(px: seq<Pixel>, markers: seq<nat>, lastX: int, lastY: int)
    requires MarkedSoFar(px, |px|, markers, lastX, lastY)
    ensures IsMarkerSelection(px, markers)
  {
  }

  /** The marker conditions leave no choice: two selections for the same
      pixels are equal, so IsMarkerSelection says exactly which squares are
      drawn. */
  lemma MarkerSelectionUnique(px: seq<Pixel>, m1: seq<nat>, m2: seq<nat>)
    requires IsMarkerSelection(px, m1) && IsMarkerSelection(px, m2)
    ensures m1 == m2
  {
    if |px| > 0 {
      var n := if |m1| < |m2| then |m1| else |m2|;
      MarkersAgree(px, m1, m2, n - 1);
    }
  }

  /** Two selections agree on their first k + 1 markers. */
  lemma {:induction false} MarkersAgree(px: seq<Pixel>, m1: seq<nat>, m2: seq<nat>, k: nat)
    requires IsMarkerSelection(px, m1) && IsMarkerSelection(px, m2)
    requires k < |m1| && k < |m2|
    ensures forall j :: 0 <= j <= k ==> m1[j] == m2[j]
  {
    if k > 0 {
      MarkersAgree(px, m1, m2, k - 1);
      NextMarkerAgrees(px, m1, m2, k - 1);
      NextMarkerAgrees(px, m2, m1, k - 1);
    }
  }

  /** If two selections share marker k, the next marker of m1 is not before
      the next marker of m2: a pixel strictly between marker k and m2's next
      marker repeats marker k, so m1 cannot place a (non-final) marker there. */
  lemma NextMarkerAgrees(px: seq<Pixel>, m1: seq<nat>, m2: seq<nat>, k: nat)
    requires IsMarkerSelection(px, m1) && IsMarkerSelection(px, m2)
    requires k + 1 < |m1| && k + 1 < |m2| && m1[k] == m2[k]
    ensures m1[k + 1] >= m2[k + 1]
  {
  }

  /** The column state after the first i pixels. */
  ghost predicate ColumnsSoFar(px: seq<Pixel>, i: nat, yPixels: seq<int>, lastUniqueX: int)
    requires i <= |px|
  {
    var cs := Columns(px, i);
    lastUniqueX == MaxX(px, i) &&
    |yPixels| == |cs| && forall k :: 0 <= k < |cs| ==> yPixels[k] == px[cs[k]].y
  }

  /** One iteration of the column test keeps ColumnsSoFar. */
  lemma ColumnStep(px: seq<Pixel>, i: nat, yPixels: seq<int>, lastUniqueX: int)
    requires i < |px| && ColumnsSoFar(px, i, yPixels, lastUniqueX)
    ensures var p := px[i];
      if p.x > lastUniqueX
      then ColumnsSoFar(px, i + 1, yPixels + [p.y], p.x)
      else ColumnsSoFar(px, i + 1, yPixels, lastUniqueX)
  {
  }

  /** After the last pixel ColumnsSoFar gives the column heights. */
  lemma ColumnsDone(px: seq<Pixel>, yPixels: seq<int>, lastUniqueX: int)
    requires ColumnsSoFar(px, |px|, yPixels, lastUniqueX)
    ensures yPixels == Heights(px)
  {
  }

  /** The selection loop of draw: yPixels takes y whenever x exceeds
      lastUniqueX (initially -1); a marker is drawn for the first and the last
      point and whenever (x, y) differs from the last marker's. */
  method SelectColumns(px: seq<Pixel>) returns (yPixels: seq<int>, markers: seq<nat>)
    ensures yPixels == Heights(px)
    ensures IsMarkerSelection(px, markers)
  {
    yPixels := [];
    markers := [];
    var lastUniqueX := -1;
    var lastY := -1;
    var lastX := -1;
    for i := 0 to |px|
      invariant ColumnsSoFar(px, i, yPixels, lastUniqueX)
      invariant MarkedSoFar(px, i, markers, lastX, lastY)
    {
      var x := px[i].x;
      var y := px[i].y;
      MarkStep(px, i, markers, lastX, lastY);
      ColumnStep(px, i, yPixels, lastUniqueX);
      if x > lastUniqueX {
        yPixels := yPixels + [y];
        lastUniqueX := x;
      }
      if y != lastY || x != lastX || i == 0 || i == |px| - 1 {
        lastY := y;
        lastX := x;
        markers := markers + [i];
      }
    }
    MarkDone(px, markers, lastX, lastY);
    ColumnsDone(px, yPixels, lastUniqueX);
  }
}
