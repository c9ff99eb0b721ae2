/** The guide annotator: a run-length scan over the per-column heights that
    emits a label for every run of equal heights at least MinRunToAddGuide
    long. */
module Guides {

  const MinRunToAddGuide: nat := 3

  /** A maximal run of equal consecutive heights. */
  datatype Run = Run(height: int, length: nat)

  /** An emitted label: the run's length, the index just past its last
      column, and its height. */
  datatype Guide = Guide(runLength: nat, endIndex: nat, height: int)

  // ---------------------------------------------------------------------------
  // Reference definitions
  // ---------------------------------------------------------------------------

  /** The runs of s, left to right: each new value either extends the last run
      (same height) or opens a new run of length 1. */
  function Runs(s: seq<int>): seq<Run>
  {
    if |s| == 0 then []
    else
      var rs := Runs(s[..|s| - 1]);
      var v := s[|s| - 1];
      if |rs| > 0 && rs[|rs| - 1].height == v
      then rs[..|rs| - 1] + [Run(v, rs[|rs| - 1].length + 1)]
      else rs + [Run(v, 1)]
  }

  /** Total number of columns covered by rs. */
  function Total(rs: seq<Run>): nat
  {
    if |rs| == 0 then 0 else Total(rs[..|rs| - 1]) + rs[|rs| - 1].length
  }

  /** Index of the first column of run k. */
  function RunStart(rs: seq<Run>, k: nat): nat
    requires k <= |rs|
  {
    Total(rs[..k])
  }

  /** The columns rs stands for. */
  function Expand(rs: seq<Run>): seq<int>
  {
    if |rs| == 0 then [] else Expand(rs[..|rs| - 1]) + Repeat(rs[|rs| - 1].height, rs[|rs| - 1].length)
  }

  /** n copies of h. */
  function Repeat(h: int, n: nat): (r: seq<int>)
    ensures |r| == n
  {
    if n == 0 then [] else Repeat(h, n - 1) + [h]
  }

  /** A run decomposition: no empty run, and adjacent runs differ in height
      (so every run is maximal). */
  predicate WellFormed(rs: seq<Run>)
  {
    (forall k :: 0 <= k < |rs| ==> rs[k].length > 0) &&
    (forall k :: 0 < k < |rs| ==> rs[k - 1].height != rs[k].height)
  }

  /** The guide that run k of rs yields if it is long enough. */
  function GuideFor(rs: seq<Run>, k: nat): Guide
    requires k < |rs|
  {
    Guide(rs[k].length, RunStart(rs, k + 1), rs[k].height)
  }

  /** The guides emitted for rs: one per run of length at least
      MinRunToAddGuide, in order. */
  function Emit(rs: seq<Run>): seq<Guide>
  {
    if |rs| == 0 then []
    else
      var last := rs[|rs| - 1];
      Emit(rs[..|rs| - 1]) +
      (if last.length >= MinRunToAddGuide then [Guide(last.length, Total(rs), last.height)] else [])
  }

  /** What the guide annotator emits for the column heights ys. */
  function GuidesOf(ys: seq<int>): seq<Guide>
  {
    Emit(Runs(ys))
  }

  // ---------------------------------------------------------------------------
  // The scan
  // ---------------------------------------------------------------------------

  /** The scan of addGuides: a runCounter/runHeight pair that starts at
      (0, 0), flushes the finished run on every change of value, and flushes
      the last run after the loop. */
  method AddGuides(yPixels: seq<int>) returns (guides: seq<Guide>)
    ensures guides == GuidesOf(yPixels)
  {
    var runCounter: nat := 0;
    var runHeight := 0;
    guides := [];
    for i := 0 to |yPixels|
      invariant Scanned(yPixels[..i], runHeight, runCounter, guides)
    {
      assert yPixels[..i + 1] == yPixels[..i] + [yPixels[i]];
      ScanStep(yPixels[..i], yPixels[i], runHeight, runCounter, guides);
      if yPixels[i] == runHeight {
        runCounter := runCounter + 1;
      } else {
        if runCounter >= MinRunToAddGuide {
          guides := guides + [Guide(runCounter, i, runHeight)];
        }
        runCounter := 1;
        runHeight := yPixels[i];
      }
    }
    assert yPixels[..|yPixels|] == yPixels;
    ScanFinish(yPixels, runHeight, runCounter, guides);
    if runCounter >= MinRunToAddGuide {
      guides := guides + [Guide(runCounter, |yPixels|, runHeight)];
    }
  }

  /** The scan's state after the prefix p: before any value the initial
      (0, 0) pair and no guide; afterwards the counter and height describe
      the last (still open) run of p and every earlier run has been flushed. */
  ghost predicate Scanned(p: seq<int>, runHeight: int, runCounter: nat, guides: seq<Guide>)
  {
    if |p| == 0 then runCounter == 0 && runHeight == 0 && guides == []
    else
      var rs := Runs(p);
      |rs| > 0 && rs[|rs| - 1] == Run(runHeight, runCounter) && guides == Emit(rs[..|rs| - 1])
  }

  /** One iteration of the scan keeps Scanned. */
  lemma ScanStep(p: seq<int>, v: int, runHeight: int, runCounter: nat, guides: seq<Guide>)
    requires Scanned(p, runHeight, runCounter, guides)
    ensures v == runHeight ==> Scanned(p + [v], runHeight, runCounter + 1, guides)
    ensures v != runHeight ==> Scanned(p + [v], v, 1,
      if runCounter >= MinRunToAddGuide then guides + [Guide(runCounter, |p|, runHeight)] else guides)
  {
    RunsSnoc(p, v);
    var rs := Runs(p);
    var rs' := Runs(p + [v]);
    if |p| > 0 {
      var init := rs[..|rs| - 1];
      var last := rs[|rs| - 1];
      assert init + [last] == rs;
      if v == runHeight {
        assert rs' == init + [Run(v, runCounter + 1)];
        assert rs'[..|rs'| - 1] == init;
      } else {
        assert rs' == rs + [Run(v, 1)];
        assert rs'[..|rs'| - 1] == rs;
        RunsTotal(p);
        EmitSnoc(init, last);
      }
    } else if v == runHeight {
      assert rs' == [Run(v, 1)];
    } else {
      assert rs' == [Run(v, 1)];
    }
  }

  /** The flush after the loop completes the guides. */
  lemma ScanFinish(s: seq<int>, runHeight: int, runCounter: nat, guides: seq<Guide>)
    requires Scanned(s, runHeight, runCounter, guides)
    ensures GuidesOf(s) ==
      if runCounter >= MinRunToAddGuide then guides + [Guide(runCounter, |s|, runHeight)] else guides
  {
    if |s| > 0 {
      var rs := Runs(s);
      var init := rs[..|rs| - 1];
      assert init + [rs[|rs| - 1]] == rs;
      RunsTotal(s);
      EmitSnoc(init, rs[|rs| - 1]);
    }
  }

  // ---------------------------------------------------------------------------
  // One step of each definition
  // ---------------------------------------------------------------------------

  lemma RunsSnoc(p: seq<int>, v: int)
    ensures var rs := Runs(p);
      Runs(p + [v]) ==
        if |rs| > 0 && rs[|rs| - 1].height == v
        then rs[..|rs| - 1] + [Run(v, rs[|rs| - 1].length + 1)]
        else rs + [Run(v, 1)]
  {
    assert (p + [v])[..|p|] == p;
  }

  lemma TotalSnoc(rs: seq<Run>, r: Run)
    ensures Total(rs + [r]) == Total(rs) + r.length
  {
    assert (rs + [r])[..|rs|] == rs;
  }

  lemma ExpandSnoc(rs: seq<Run>, r: Run)
    ensures Expand(rs + [r]) == Expand(rs) + Repeat(r.height, r.length)
  {
    assert (rs + [r])[..|rs|] == rs;
  }

  lemma EmitSnoc(rs: seq<Run>, r: Run)
    ensures Emit(rs + [r]) ==
      Emit(rs) + if r.length >= MinRunToAddGuide then [Guide(r.length, Total(rs) + r.length, r.height)] else []
  {
    assert (rs + [r])[..|rs|] == rs;
    TotalSnoc(rs, r);
  }

  // ---------------------------------------------------------------------------
  // Properties of the runs
  // ---------------------------------------------------------------------------

  /** The run lengths sum to the number of columns. */
  lemma {:induction false} RunsTotal(s: seq<int>)
    ensures Total(Runs(s)) == |s|
  {
    if |s| > 0 {
      var p := s[..|s| - 1];
      var v := s[|s| - 1];
      assert s == p + [v];
      var rs := Runs(p);
      RunsTotal(p);
      RunsSnoc(p, v);
      if |rs| > 0 && rs[|rs| - 1].height == v {
        var init := rs[..|rs| - 1];
        assert init + [rs[|rs| - 1]] == rs;
        TotalSnoc(init, rs[|rs| - 1]);
        TotalSnoc(init, Run(v, rs[|rs| - 1].length + 1));
      } else {
        TotalSnoc(rs, Run(v, 1));
      }
    }
  }

  /** The runs of s are well formed: none is empty and adjacent runs differ
      in height, so each is a maximal run of equal values... */
  lemma {:induction false} RunsWellFormed(s: seq<int>)
    ensures WellFormed(Runs(s))
  {
    if |s| > 0 {
      var p := s[..|s| - 1];
      var v := s[|s| - 1];
      assert s == p + [v];
      RunsWellFormed(p);
      RunsSnoc(p, v);
      WellFormedSnoc(Runs(p), v);
    }
  }

  /** Adding a value to the last run when it has that height, or starting a
      new run of length 1 otherwise, keeps a run list well formed. */
  lemma WellFormedSnoc(rs: seq<Run>, v: int)
    requires WellFormed(rs)
    ensures |rs| > 0 && rs[|rs| - 1].height == v ==> WellFormed(rs[..|rs| - 1] + [Run(v, rs[|rs| - 1].length + 1)])
    ensures !(|rs| > 0 && rs[|rs| - 1].height == v) ==> WellFormed(rs + [Run(v, 1)])
  {
    if |rs| > 0 && rs[|rs| - 1].height == v {
      var t := rs[..|rs| - 1] + [Run(v, rs[|rs| - 1].length + 1)];
      assert forall k :: 0 <= k < |t| ==> t[k].height == rs[k].height && t[k].length >= rs[k].length;
    } else {
      var t := rs + [Run(v, 1)];
      assert forall k :: 0 <= k < |rs| ==> t[k] == rs[k];
    }
  }

  /** ... they stand for exactly s... */
  lemma {:induction false} RunsExpand(s: seq<int>)
    ensures Expand(Runs(s)) == s
  {
    if |s| > 0 {
      var p := s[..|s| - 1];
      var v := s[|s| - 1];
      assert s == p + [v];
      var rs := Runs(p);
      RunsExpand(p);
      RunsSnoc(p, v);
      if |rs| > 0 && rs[|rs| - 1].height == v {
        var init := rs[..|rs| - 1];
        var last := rs[|rs| - 1];
        assert init + [last] == rs;
        ExpandSnoc(init, last);
        ExpandSnoc(init, Run(v, last.length + 1));
        assert Expand(Runs(s)) == Expand(init) + Repeat(v, last.length) + [v];
      } else {
        ExpandSnoc(rs, Run(v, 1));
        assert Repeat(v, 1) == [v];
      }
    }
  }

  /** ... and they are the only such decomposition: any well-formed runs
      standing for s are Runs(s). */
  lemma {:induction false} RunsUnique(rs: seq<Run>)
    requires WellFormed(rs)
    ensures Runs(Expand(rs)) == rs
    decreases Total(rs)
  {
    if |rs| > 0 {
      var m := |rs| - 1;
      var init := rs[..m];
      var last := rs[m];
      assert rs == init + [last];
      TotalSnoc(init, last);
      if last.length == 1 {
        assert WellFormed(init);
        RunsUnique(init);
        RunsUniqueNewRun(init, last);
      } else {
        var shorter := init + [Run(last.height, last.length - 1)];
        ShorterWellFormed(init, last);
        TotalSnoc(init, Run(last.height, last.length - 1));
        RunsUnique(shorter);
        RunsUniqueExtend(init, last);
      }
    }
  }

  lemma RunsUniqueNewRun(init: seq<Run>, last: Run)
    requires last.length == 1
    requires |init| > 0 ==> init[|init| - 1].height != last.height
    requires Runs(Expand(init)) == init
    ensures Runs(Expand(init + [last])) == init + [last]
  {
    ExpandSnoc(init, last);
    assert Repeat(last.height, 1) == [last.height];
    RunsSnoc(Expand(init), last.height);
  }

  lemma ShorterWellFormed(init: seq<Run>, last: Run)
    requires WellFormed(init + [last]) && last.length > 1
    ensures WellFormed(init + [Run(last.height, last.length - 1)])
  {
    var rs := init + [last];
    var shorter := init + [Run(last.height, last.length - 1)];
    forall k | 0 <= k < |shorter| ensures shorter[k].length > 0 {
      assert k < |init| ==> shorter[k] == rs[k];
    }
    forall k | 0 < k < |shorter| ensures shorter[k - 1].height != shorter[k].height {
      assert shorter[k].height == rs[k].height;
      assert shorter[k - 1].height == rs[k - 1].height;
    }
  }

  lemma RunsUniqueExtend(init: seq<Run>, last: Run)
    requires last.length > 1
    requires Runs(Expand(init + [Run(last.height, last.length - 1)])) == init + [Run(last.height, last.length - 1)]
    ensures Runs(Expand(init + [last])) == init + [last]
  {
    var shorter := init + [Run(last.height, last.length - 1)];
    ExpandSnoc(init, last);
    ExpandSnoc(init, Run(last.height, last.length - 1));
    assert Repeat(last.height, last.length) == Repeat(last.height, last.length - 1) + [last.height];
    assert Expand(init + [last]) == Expand(shorter) + [last.height];
    RunsSnoc(Expand(shorter), last.height);
    assert shorter[..|shorter| - 1] == init;
  }

  lemma {:induction false} ExpandLength(rs: seq<Run>)
    ensures |Expand(rs)| == Total(rs)
  {
    if |rs| > 0 {
      ExpandLength(rs[..|rs| - 1]);
    }
  }

  // ---------------------------------------------------------------------------
  // Properties of the guides
  // ---------------------------------------------------------------------------

  /** A guide is emitted exactly for each run of length at least
      MinRunToAddGuide, with the index just past that run as its end. */
  lemma {:induction false} EmitMembers(rs: seq<Run>, g: Guide)
    ensures g in Emit(rs) <==>
      exists k :: 0 <= k < |rs| && rs[k].length >= MinRunToAddGuide && g == GuideFor(rs, k)
  {
    if |rs| > 0 {
      var m := |rs| - 1;
      var init := rs[..m];
      EmitMembers(init, g);
      assert rs[..m + 1] == rs;
      forall k | 0 <= k < m
        ensures GuideFor(init, k) == GuideFor(rs, k)
      {
        assert init[..k + 1] == rs[..k + 1];
      }
      if g in Emit(rs) {
        if g !in Emit(init) {
          assert g == GuideFor(rs, m);
        } else {
          var k :| 0 <= k < m && init[k].length >= MinRunToAddGuide && g == GuideFor(init, k);
          assert g == GuideFor(rs, k);
        }
      }
      if exists k :: 0 <= k < |rs| && rs[k].length >= MinRunToAddGuide && g == GuideFor(rs, k) {
        var k :| 0 <= k < |rs| && rs[k].length >= MinRunToAddGuide && g == GuideFor(rs, k);
        if k < m {
          assert g == GuideFor(init, k);
        }
      }
    }
  }

  /** Every guide covers columns that all have its height, and does so
      maximally: the columns just before and just after it have another
      height (or do not exist). */
  lemma GuideCoversRun(ys: seq<int>, g: Guide)
    requires g in GuidesOf(ys)
    ensures g.runLength >= MinRunToAddGuide && g.runLength <= g.endIndex <= |ys|
    ensures forall j :: g.endIndex - g.runLength <= j < g.endIndex ==> ys[j] == g.height
    ensures g.endIndex < |ys| ==> ys[g.endIndex] != g.height
    ensures g.endIndex - g.runLength > 0 ==> ys[g.endIndex - g.runLength - 1] != g.height
  {
    var rs := Runs(ys);
    EmitMembers(rs, g);
    var k :| 0 <= k < |rs| && rs[k].length >= MinRunToAddGuide && g == GuideFor(rs, k);
    RunsExpand(ys);
    RunsWellFormed(ys);
    RunsTotal(ys);
    ExpandCells(rs, k);
    if k + 1 < |rs| {
      ExpandCells(rs, k + 1);
      assert rs[k + 1].length > 0;
    }
    if k > 0 {
      ExpandCells(rs, k - 1);
      assert rs[k - 1].length > 0;
    }
  }

  /** Run k of rs occupies the columns from RunStart(rs, k) up to
      RunStart(rs, k + 1) of Expand(rs). */
  lemma {:induction false} ExpandCells(rs: seq<Run>, k: nat)
    requires k < |rs|
    ensures RunStart(rs, k + 1) == RunStart(rs, k) + rs[k].length <= |Expand(rs)|
    ensures forall j :: RunStart(rs, k) <= j < RunStart(rs, k + 1) ==> Expand(rs)[j] == rs[k].height
  {
    var m := |rs| - 1;
    var init := rs[..m];
    assert rs[..k + 1][..k] == rs[..k];
    ExpandLength(rs);
    ExpandLength(init);
    if k < m {
      ExpandCells(init, k);
      assert init[..k] == rs[..k];
      assert init[..k + 1] == rs[..k + 1];
    } else {
      assert rs[..k] == init;
      assert rs[..k + 1] == rs;
      assert init + [rs[m]] == rs;
      ExpandSnoc(init, rs[m]);
      RepeatAt(rs[m].height, rs[m].length);
    }
  }

  lemma {:induction false} RepeatAt(h: int, n: nat)
    ensures forall j :: 0 <= j < n ==> Repeat(h, n)[j] == h
  {
    if n > 0 {
      RepeatAt(h, n - 1);
    }
  }

  /** The worked example [2,2,2,5,5,1,1,1,1]: the run of two 5s is too
      short, so exactly the three 2s (ending at 3) and the four 1s (ending at
      9) get guides. */
  lemma WorkedExample(ys: seq<int>)
    requires ys == [2, 2, 2, 5, 5, 1, 1, 1, 1]
    ensures GuidesOf(ys) == [Guide(3, 3, 2), Guide(4, 9, 1)]
  {
    var r1, r2, r3 := Run(2, 3), Run(5, 2), Run(1, 4);
    var rs := [r1, r2, r3];
    assert [r1] == [] + [r1] && [r1, r2] == [r1] + [r2] && rs == [r1, r2] + [r3];
    assert WellFormed(rs);

    ExpandSnoc([], r1);
    ExpandSnoc([r1], r2);
    ExpandSnoc([r1, r2], r3);
    assert Repeat(2, 3) == [2, 2, 2] && Repeat(5, 2) == [5, 5] && Repeat(1, 4) == [1, 1, 1, 1];
    assert Expand(rs) == ys;
    RunsUnique(rs);

    TotalSnoc([], r1);
    TotalSnoc([r1], r2);
    EmitSnoc([], r1);
    EmitSnoc([r1], r2);
    EmitSnoc([r1, r2], r3);
  }
}
