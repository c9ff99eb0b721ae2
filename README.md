# Rope-bridge rasterizer, modelled in Dafny

The rope-bridge rasterizer is a p5 sketch. It hangs a chain of mass points between two anchors and lets it sag under gravity with a damped Verlet integrator and stick relaxation. Then it rasterizes the settled chain onto a grid and labels each long horizontal run of cells with its length. This project models the discrete core of that sketch (`src/app.js`) and proves properties of the model:

- **Chain construction** (`initialize`).
  - `2 * width` points on the straight line between the anchor heights, locked at the two ends.
  - A stick joins each consecutive pair.
  - The controller is reset.
- **One simulation step** (`simulate`).
  - The damped Verlet update of every unlocked point.
  - The pause check, which also triggers the guide annotator.
  - 20 relaxation passes over the sticks, alternating front-to-back and back-to-front.
  - Each stick correction writes only unlocked ends.
- **The guide annotator** (`addGuides`). A run-length scan over the column heights that emits a label `(runLength, endIndex, height)` for every maximal run of at least 3 equal heights.
- **The frame controller.**
  - `initialize` clears `paused` and `iterationsRun`.
  - Every `draw` runs `simulate` while not paused.
  - `simulate` counts its calls. Once the count exceeds 150, it pauses and runs the annotator.
- **Column and marker selection** in `draw`.
  - Over the truncated point positions, a point's height becomes a column height when its `x` exceeds every earlier `x` (starting from -1).
  - A grid marker is drawn for the first point, the last point, and every point whose `(x, y)` differs from the last marker drawn.

## Modules

| file | module | contents |
|---|---|---|
| `vectors.dfy` | `Vectors` | 2-D vectors over `real`, with `Add`, `Sub`, `Scale` and `Div` as in p5.Vector |
| `chain.dfy` | `Chain` | The `Point` and `Stick` datatypes, and the initial point and stick of index `i` |
| `physics.dfy` | `Physics` | The Verlet update, the stick correction, the pass order, and the whole step as functions on values |
| `guides.dfy` | `Guides` | The run decomposition of a height sequence, the guides it yields, and the scan `AddGuides` |
| `columns.dfy` | `Columns` | Truncation, the column-height selection, the marker selection, and the loop `SelectColumns` |
| `controller.dfy` | `Controller` | The counter-and-flag state machine of `initialize`, `simulate` and `draw` |
| `sketch.dfy` | `Sketch` | The class `BridgeCalculator`, holding the sketch's module-level state, with `Initialize`, `Simulate` and `Draw`, and the loops they run |

### Modelling choices

- **Points and sticks.** The source keeps arrays of `Point` and `Stick` objects and mutates positions in place. The model keeps them as `seq` fields of the class, and the methods reassign those fields.
  - A stick refers to its two points by index.
  - The constructor's aliasing of `prevPosition` and `position` (`src/app.js:7`) is modelled by equal values. The first update reads a zero implicit velocity either way.
- **Arithmetic.** Coordinates are `real`, so the rational arithmetic of construction and integration is exact.
- **Functions taken as parameters.** `p5.Vector.dist` and `normalize` are square-root computations; they are passed in as `dist` and `normalize`.
- **The canvas** is modelled by what it shows:
  - `markers` holds the indices of the points whose squares the last frame drew.
  - `guides` holds the labels written since the canvas was last cleared.
  - `background(255)` empties both.
  - Ghost fields record the anchors fixed by the last `initialize` and the number of annotator runs since then.
- **Anchor heights.** The left anchor sits at `-min(0, offset)` and the right one at `max(0, offset)`, as `src/app.js:60-61` computes them. So the lower anchor is at `|offset|` and the other at 0, since y grows downwards.
- **`addGuides` start state.** The scan starts with `runCounter = 0` and `runHeight = 0`. That phantom run never emits. Leading zeros join it, and it is counted exactly as a run of zeros would be. The model's run decomposition `Runs` makes this precise.

## Model

| member | source | states |
|---|---|---|
| Chain.NewPoint | src/app.js:4-10 | A new point has the given position and lock flag, and its previous position equals its position (it starts at rest) |
| Chain.NewStick | src/app.js:12-18 | A new stick joins the two given point indices; its length is the distance between their positions times the slack |
| Chain.NumPoints | src/app.js:63 | numPoints = width * 2 is even and positive exactly when width is; a non-positive width builds no points |
| Chain.LeftHeight | src/app.js:60 | The left anchor height is never negative, and it is positive exactly when offset < 0 |
| Chain.RightHeight | src/app.js:61 | The right anchor height is never negative, is positive exactly when offset > 0, and exceeds the left one by exactly offset |
| Chain.Lerp | src/app.js:68 | p5's lerp gives start at amount 0, stop at amount 1, and start when the two ends agree |
| Chain.InitialPoint | src/app.js:64-69 | Initial point i starts at rest (prevPosition == position) and is locked exactly when it is the first or the last point |
| Chain.InitialStick | src/app.js:72-74 | Initial stick i joins points i and i + 1, with length dist(points[i], points[i + 1]) times the slack |
| Chain.InitialX | src/app.js:63-67 | Initial point i has x = (2i + 1) / 4, because numPoints = 2 * width |
| Chain.InitialXBounds | src/app.js:63-67 | Initial x coordinates are strictly increasing in the index and lie strictly between 0 and width |
| Chain.InitialYBounds | src/app.js:60-69 | Initial heights lie in [0, \|offset\|], and every initial point has prevPosition == position |
| Chain.InitialLocked | src/app.js:66 | An initial point is locked if and only if its index is 0 or numPoints - 1 |
| Physics.Verlet | src/app.js:109-117 | An unlocked point's update keeps the lock flag and makes the old position the previous one. The new implicit velocity is the old one divided by 1.1 plus gravity times the multiplier |
| Physics.IntegratorStep | src/app.js:109-117 | In coordinates, an unlocked point moves to pos + (pos - prev) / 1.1 + (0, 0.075) and remembers pos; a locked point keeps both fields |
| Physics.VerletFromRest | src/app.js:109-114 | A point at rest falls by exactly the gravity impulse 0.075 on its first update |
| Physics.IntegrateAll | src/app.js:109-117 | The integrator pass keeps the number of points and every lock flag, leaves each locked point unchanged, and makes each unlocked point's previous position its position before the pass |
| Physics.ApplyStick | src/app.js:124-133 | simStick changes only the stick's two ends, never a locked point, never a lock flag or a previous position |
| Physics.StickCorrection | src/app.js:124-133 | With both ends free, simStick keeps the stick's midpoint, and the ends' difference becomes `length` times `normalize(a - b)` of the ends' old difference `a - b` |
| Physics.ApplySticks | src/app.js:134-143 | Any sequence of stick corrections leaves locked points, lock flags and previous positions unchanged |
| Physics.UpAt | src/app.js:135-137 | The forward order is 0, 1, ..., n - 1, each index exactly once |
| Physics.DownAt | src/app.js:140-142 | The backward order is n - 1, ..., j, each index in [j, n) exactly once |
| Physics.PassOrder | src/app.js:134-143 | A pass lists n stick indices, each below n |
| Physics.PassVisitsEachStickOnce | src/app.js:123-144 | Pass k visits the sticks in index order when k is even and in reverse order when k is odd, each stick exactly once |
| Physics.Relax | src/app.js:123-144 | Any number of relaxation passes leaves locked points, lock flags and previous positions unchanged |
| Physics.Step | src/app.js:106-145 | The point update of simulate (integrate, then 20 passes) keeps the number of points and every lock flag, and never moves a locked point |
| Physics.StepKeepsAnchors | src/app.js:106-145 | A whole step never moves a locked point or changes a lock flag, and every unlocked point's previous position becomes its position before the step |
| Guides.AddGuides | src/app.js:86-104 | The scan, including the flush after the loop, emits exactly GuidesOf(yPixels): the guides of the maximal runs of length at least 3, in order |
| Guides.RunsTotal | src/app.js:89-100 | The run lengths the scan counts sum to \|yPixels\| |
| Guides.RunsWellFormed | src/app.js:89-100 | The runs are maximal: none is empty and adjacent runs differ in height |
| Guides.RunsExpand | src/app.js:89-100 | Expanding the runs gives back the scanned sequence |
| Guides.RunsUnique | src/app.js:89-100 | A well-formed run list is the run decomposition of its expansion (the maximal runs are unique) |
| Guides.EmitMembers | src/app.js:94-103 | A guide is emitted if and only if it is the guide of some run of length at least 3 |
| Guides.GuideCoversRun | src/app.js:86-104 | Every emitted guide has run length at least 3 and end index at most \|yPixels\|. Every cell it covers has its height, and the run cannot be extended at either end |
| Guides.WorkedExample | src/app.js:86-104 | On [2,2,2,5,5,1,1,1,1] exactly the guides (3, end 3, height 2) and (4, end 9, height 1) are emitted; the run of two 5s is not |
| Columns.Trunc | src/app.js:210-211 | parseInt truncates toward zero: the result has the sign of the coordinate and lies less than 1 from it, on the side of 0 |
| Columns.Columns | src/app.js:218-221 | The selected column indices are strictly increasing and in range, so there are no more of them than points |
| Columns.MaxXExceeded | src/app.js:218-221 | lastUniqueX is exceeded exactly by values above -1 and above every earlier x |
| Columns.ColumnsMembers | src/app.js:218-221 | Point i contributes its y to yPixels if and only if its x exceeds -1 and every earlier point's x |
| Columns.Heights | src/app.js:218-221 | There are no more column heights than points, and each height is the y of a point whose x is above -1 |
| Columns.ColumnsIncreasing | src/app.js:218-221 | The recorded x's are strictly increasing, and \|yPixels\| <= \|points\| |
| Columns.SelectColumns | src/app.js:204-226 | The draw loop yields the column heights Heights(px). Its markers are in increasing order and always include the first and last points. Every other marker differs from the one before it, and every unmarked point repeats the last marker |
| Columns.MarkerSelectionUnique | src/app.js:222-226 | The marker conditions determine the markers completely: two selections for the same points are equal, so SelectColumns's contract fixes exactly which squares are drawn |
| Controller.Simulated | src/app.js:107-121 | simulate raises the count by one, sets paused once it exceeds 150, and runs the annotator exactly on those calls |
| Controller.Reset | src/app.js:79-80 | initialize leaves the controller consistent, unpaused and with count 0 |
| Controller.Drawn | src/app.js:238-239 | A paused draw leaves the controller unchanged, an unpaused one raises the count by one, and a draw keeps the controller consistent |
| Controller.SimulatedConsistent | src/app.js:118-121 | simulate keeps "paused exactly when the count exceeds 150, with one annotator run per call since then" |
| Controller.FramesAfterReset | src/app.js:118-121 | After initialize, k draws leave the count at min(k, 151). paused becomes true and the annotator runs exactly when the 151st draw's simulate runs; later draws change nothing |
| Controller.PausedAfter | src/app.js:238-239 | The sketch is paused after k draws if and only if k >= 151, and the annotator has run at most once |
| Sketch.PixelsOf | src/app.js:208-211 | One truncated pixel per point |
| Sketch.BuildPoints | src/app.js:63-70 | The point loop builds exactly NumPoints(width) points, point i being InitialPoint(width, offset, i) |
| Sketch.BuildSticks | src/app.js:72-75 | The stick loop builds numPoints - 1 sticks (none for an empty chain), stick i joining points i and i + 1 |
| Sketch.IntegratePoints | src/app.js:109-117 | The integrator loop applies the Verlet update to every unlocked point and skips locked ones |
| Sketch.RelaxPass | src/app.js:134-143 | One pass applies simStick to the sticks in PassOrder(pass) |
| Sketch.Relaxation | src/app.js:123-144 | The pass loop runs 20 passes in alternating direction |
| Sketch.StepPoints | src/app.js:106-145 | The point update of simulate is Physics.Step: integration, then relaxation |
| Sketch.StepAnchored | src/app.js:110-132 | A step keeps every locked point where initialize put it |
| Sketch.BridgeCalculator.constructor | src/app.js:33-40 | The sketch starts with no points, sticks or column heights, unpaused, with count 0 |
| Sketch.BridgeCalculator.Initialize | src/app.js:55-84 | initialize builds 2 * width points and 2 * width - 1 sticks with the initial values (none when width <= 0), clears the canvas and resets the controller |
| Sketch.BridgeCalculator.Simulate | src/app.js:106-145 | simulate performs Physics.Step on the points and the controller step, and, exactly when the count exceeds 150, adds GuidesOf(yPixels) to the labels already on the canvas. Locked points stay where initialize put them |
| Sketch.BridgeCalculator.Draw | src/app.js:195-242 | A paused draw changes nothing. Otherwise the canvas is cleared and yPixels becomes the column heights of the truncated positions. The markers satisfy the marker selection, then one simulate step runs, and any guides written are those of the new yPixels |

## Left out

- Drawing and DOM plumbing are not modelled: canvas sizing, fill colours, text size and alignment, the pixel coordinates of squares and labels, `wipePixels`, `pixDic`, `console.log`, and the slider handlers in `setup`. Each slider handler only sets a parameter and calls `initialize`, which is modelled.
- `p5.Vector.dist` and `normalize` are passed in as functions, not computed: they need square roots. So nothing is proved about the numerical behaviour of relaxation: convergence, symmetry, or the settled shape.
- Floating point is not modelled: coordinates are exact reals, so rounding is not captured.
- Sketch.PixelsOf: `parseInt` of a coordinate is modelled as truncation toward zero. The source converts the number to a string first. That differs for values that print in exponent notation, such as 1e-7, which parseInt reads as 1.
- The `change` accumulator of `simulate` is omitted because it is never read. So is the `settled` flag, which is never used.
- Sketch.BridgeCalculator.Simulate: the point update (integration, then relaxation) is computed before the pause check and the annotator run; the source runs them between integration and relaxation. The annotator reads only yPixels and writes only the labels, and the point update touches neither, so the resulting state is the same.
- Sketch.BridgeCalculator.Draw: the source fills the squares of locked points red. The model records which points got a square, but not its colour.
