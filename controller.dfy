/** The frame controller's counter and flag: initialize resets them, every
    draw runs simulate while not paused, and simulate counts its calls and,
    once past MinIterations, pauses and runs the guide annotator. */
module Controller {

  const MinIterations: nat := 150

  /** iterationsRun and paused, with the number of guide-annotator runs since
      the last initialize. */
  datatype Control = Control(iterationsRun: nat, paused: bool, guideCalls: nat)

  /** The bookkeeping of initialize. */
  function Reset(): (c: Control)
    ensures Consistent(c) && c.iterationsRun == 0 && !c.paused
  {
    Control(0, false, 0)
  }

  /** The bookkeeping of simulate: count the call; once the count exceeds
      MinIterations, pause and annotate. */
  function Simulated(c: Control): (d: Control)
    ensures d.iterationsRun == c.iterationsRun + 1
    ensures d.paused <==> c.paused || d.iterationsRun > MinIterations
    ensures d.guideCalls == c.guideCalls + if d.iterationsRun > MinIterations then 1 else 0
  {
    var n := c.iterationsRun + 1;
    if n > MinIterations then Control(n, true, c.guideCalls + 1) else Control(n, c.paused, c.guideCalls)
  }

  /** The bookkeeping of draw: simulate unless paused. */
  function Drawn(c: Control): (d: Control)
    ensures c.paused ==> d == c
    ensures !c.paused ==> d.iterationsRun == c.iterationsRun + 1
    ensures Consistent(c) ==> Consistent(d)
  {
    if c.paused then c else Simulated(c)
  }

  /** The relation initialize sets up and simulate keeps: paused exactly
      once the call count exceeds MinIterations, and one annotator run per
      call since then. */
  predicate Consistent(c: Control)
  {
    c.paused == (c.iterationsRun > MinIterations) &&
    c.guideCalls == if c.paused then c.iterationsRun - MinIterations else 0
  }

  /** simulate keeps the controller consistent. */
  lemma SimulatedConsistent(c: Control)
    requires Consistent(c)
    ensures Consistent(Simulated(c))
  {
  }

  /** k draws from c. */
  function Frames(c: Control, k: nat): Control
  {
    if k == 0 then c else Drawn(Frames(c, k - 1))
  }

  /** After initialize, the first MinIterations + 1 = 151 draws each run
      simulate; the 151st pauses and runs the guide annotator, for the only
      time; every later draw changes nothing. */
  lemma {:induction false} FramesAfterReset(k: nat)
    ensures Frames(Reset(), k) ==
      if k <= MinIterations then Control(k, false, 0)
      else Control(MinIterations + 1, true, 1)
  {
    if k > 0 {
      FramesAfterReset(k - 1);
    }
  }

  /** So simulate runs exactly MinIterations + 1 times before the sketch
      pauses: paused is false after fewer draws and true from then on. */
  lemma PausedAfter(k: nat)
    ensures Frames(Reset(), k).paused <==> k >= MinIterations + 1
    ensures Frames(Reset(), k).guideCalls <= 1
  {
    FramesAfterReset(k);
  }
}
