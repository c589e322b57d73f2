# Random walk: walk generator and coordinate mapper

A Dafny model of the core of `main.go`, a small Go web server. Each request to `/step`
advances a 2-D discrete random walk and draws the new segments on an 850 x 850 image.
The model covers:

- the walk generator (`randomWalk`, `NewRandomWalk`, `position`, `randomStep`, `step`).
  It keeps an append-only history of integer points of a fixed dimension, starting at the origin;
- the point helpers (`newPoint`, `copyPoint`, and Go's built-in `copy`);
- the coordinate mapper `translateCoords`. It scales by `stepLength = 20` and shifts by half the image size;
- the `/step` handler's count handling and step loop, with HTTP and drawing removed.

Modules: `Wrappers` is a support module, `Lattice` holds the walk-space specification, and the other four each model one component of `main.go`:

| module | file | what |
|---|---|---|
| `Wrappers` | wrappers.dfy | `Option`, `Result` |
| `Points` | points.dfy | the `point` struct, `newPoint`, `copy`, `copyPoint` |
| `Lattice` | lattice.dfy | walk-space specification: unit moves, paths, parity and reach lemmas |
| `Walk` | walk.dfy | the `RandomWalk` class and the spec functions it is proved against |
| `Mapper` | mapper.dfy | `translateCoords` and the pixel formulas |
| `Handler` | handler.dfy | the `/step` count handling and step loop |

How the model is built:

- **Points and aliasing.** A Go `point` is a struct holding a slice. It is copied by value but
  shares its backing array. So `Point` is a datatype holding an `array<int>`: copying a `Point`
  shares the array, as in Go.
- **Position returns an alias.** `position()` returns the stored point itself. `Position`'s
  contract says its array is one of the walk's own (`p.coords in Repr`).
- **Step returns a copy.** `Step` returns a fresh copy that shares no array with the history.
- **translateCoords writes through.** It scales `p.coords[0]` and `p.coords[1]` in place, in
  the caller's array. `TranslateCoords` has `modifies p.coords` and states the new contents.
  The handler only ever passes fresh copies, so the walk's history is never touched.
- **Random source.** The generator is injected as a stream `rng: nat -> nat` of non-negative
  draws, fixed at construction (the one seed), plus a counter `drawn` of draws consumed.
  `step` uses the next draw for the axis (`draw % dim`) and the one after it for the sign
  (`((draw % 2) + 1) * 2 - 3`). Every step consumes exactly two new draws, so no draw is
  reused. Given the stream, every contract is deterministic.
- **Specification functions.** `NextPoint`, `Trajectory` and `EndPoint` give the points that
  steps append. The class keeps a ghost `history` (the coordinates of each stored point)
  and a ghost `Repr` (their arrays). `Valid()` ties them to the stored points and requires:
  the history is a path from the origin; consecutive points are one unit move apart; no two
  stored points share an array.
- **Parsing.** The outcome of `strconv.ParseInt` on the `count` value is a parameter
  `parsed: Option<int>`.
- **Globals.** The global walk and image rectangle become parameters of the handler.
- **Drawing.** The drawing calls become the reply's `moveTo` point and its `lineTo` list.

Two behaviours of the code that a reader might not expect, both kept in the model:

- **`translateCoords` is not side-effect free.** It scales the caller's coordinates in place,
  through the shared slice. The model keeps this in `Mapper.TranslateCoords`. The handler
  passes copies (main.go:45, main.go:51), so the walk is not affected.
- **`NewRandomWalk` does not reject dimension 0.** It builds a walk of dimension 0; only
  `step` then fails, on `% 0`. A negative dimension fails in `make`. So the constructor takes
  any `nat`, and `Step` requires `dim >= 1`.

Two client methods restate the program's own set-up, a 2-D walk on the 850 x 850 image,
and verify its outcome from the contracts alone:

- `Handler.RefuseMalformedExample`: a malformed count is refused with status 400 and
  leaves the walk unchanged.
- `Handler.OneStepExample`: with the draws 0 and 1, a request without a count moves the
  walk from the origin to (1, 0), drawn from (425, 425) to (445, 425). It is stated for any
  850 x 850 rectangle, which includes the program's `Rectangle(0, 0, 850, 850)`.

## Model

| member | source | states |
|---|---|---|
| `Points.Zeros` | main.go:84-89 | the coordinates of a new point: `dims` zeros |
| `Points.NewPoint` | main.go:84-89 | a fresh array of `dims` zeros, with `dim == dims` |
| `Points.Fit` | main.go:91-95 | what a zeroed slice of length n holds after `copy` from s: s's elements where s has them, zeros after |
| `Points.Copy` | main.go:93 | Go's `copy`: the first min(len(dst), len(src)) elements of src land in dst, the rest of dst is untouched, the count is returned; dst and src may be the same array |
| `Points.CopyPoint` | main.go:91-95 | a fresh point of the same dimension; for a well-formed point its coordinates equal the original's |
| `Lattice.Moved` | main.go:126 | definition: the point with coordinate k changed by d, every other coordinate kept (`next.coords[idx] += ...` on the copy) |
| `Lattice.MovedIsAdjacent` | main.go:125-126 | a ±1 change to one axis moves a point to an adjacent lattice point: exactly that coordinate changes, by exactly the displacement |
| `Lattice.AdjacentIsMoved` | main.go:125-126 | converse: every unit move is a ±1 change to a single axis |
| `Lattice.PathExtend` | main.go:121-128 | appending a unit move from the last point keeps a history a path from the origin |
| `Lattice.SumZeros` | main.go:84-89 | the origin has coordinate sum 0 and distance 0 |
| `Lattice.MovedSumNorm` | main.go:125-126 | a step changes the coordinate sum by exactly its sign and the Manhattan distance by at most 1 |
| `Lattice.PathParity` | main.go:121-128 | after i steps the coordinate sum has the parity of i |
| `Lattice.PathReach` | main.go:121-128 | after i steps the walk is at Manhattan distance at most i from the origin |
| `Walk.Displacement` | main.go:117-119 | the step sign is -1 or +1: +1 exactly for odd draws, -1 exactly for even draws |
| `Walk.NextPoint` | main.go:121-126 | the point after one step has the same dimension and is one unit move away |
| `Walk.Trajectory` | main.go:121-128 | n steps append n points, each of the walk's dimension |
| `Walk.EndPoint` | main.go:121-130 | where n steps end keeps the dimension |
| `Walk.EndPointSnoc` | main.go:121-130 | step n+1 ends one `NextPoint` further on, using draws 2n and 2n+1 |
| `Walk.TrajectorySnoc` | main.go:121-128 | one more step appends exactly one point at the end and changes nothing before it |
| `Walk.TrajectoryExtendsPath` | main.go:121-128 | any number of steps from a path's last point keep the history a path from the origin |
| `Walk.StepIsUnitMove` | main.go:125-126 | the step changes exactly coordinate `first draw % dim`, by the sign the second draw gives |
| `Walk.Successor` | main.go:122-126 | a fresh point equal to the given one with coordinate `idx` changed by `d` |
| `Walk.RandomWalk.constructor` | main.go:103-110 | a valid walk of dimension `dims` whose history is exactly the all-zero point; the stream is untouched |
| `Walk.RandomWalk.Position` | main.go:113-115 | the last point of the history, of the walk's dimension, changing nothing; it is the stored point itself (its array is one of the walk's) |
| `Walk.RandomWalk.Draw` | main.go:118 | `rng.Int()`: the next draw of the stream, advancing it by one |
| `Walk.RandomWalk.RandomStep` | main.go:117-119 | consumes one draw and returns its `Displacement` |
| `Walk.RandomWalk.Append` | main.go:128 | the history grows by exactly the new point; the walk stays valid |
| `Walk.RandomWalk.Step` | main.go:121-131 | history becomes the old history plus `NextPoint` of the old last point; nothing is truncated or reordered; two draws are consumed; the walk stays a valid path; the result equals the new position but is a fresh array not in the history |
| `Mapper.STEP_LENGTH` | main.go:18 | definition: `stepLength`, 20 pixels per walk unit |
| `Mapper.Rectangle.Dx` | main.go:74 | definition: `image.Rectangle.Dx`, the width maxX - minX |
| `Mapper.Rectangle.Dy` | main.go:75 | definition: `image.Rectangle.Dy`, the height maxY - minY |
| `Mapper.Half` | main.go:74-75 | Go's `/ 2`: truncates toward zero, within one of v/2 |
| `Mapper.PixelX` | main.go:71-74 | definition: 20·x + Dx/2, the first pixel coordinate |
| `Mapper.PixelY` | main.go:72-75 | definition: 20·y + Dy/2, the second pixel coordinate |
| `Mapper.ImagePoint` | main.go:70-77 | the result has the input's dimension: 20·x + Dx/2, then 20·y + Dy/2, then zeros |
| `Mapper.TranslateCoords` | main.go:70-77 | returns a fresh point equal to `ImagePoint` of the input, and multiplies the caller's first two coordinates by 20 in place, other coordinates untouched |
| `Mapper.OriginAtCenter` | main.go:67-77 | the walk origin maps to (Dx/2, Dy/2): the centre of an image whose rectangle starts at (0, 0) |
| `Mapper.ImagePoint2` | main.go:73-75 | in two dimensions the image point is exactly the pixel pair |
| `Mapper.Image850` | main.go:70-77 | on any image with Dx = Dy = 850, such as the program's `Rectangle(0, 0, 850, 850)`, (0,0) maps to (425,425) and (1,0) to (445,425) |
| `Mapper.PixelRoundTrip` | main.go:70-77 | the mapping is invertible: the walk point is recovered from its pixel position |
| `Mapper.PixelInjective` | main.go:70-77 | distinct 2-D walk points map to distinct pixels |
| `Mapper.UnitStepIsSegment` | main.go:70-77 | each unit step of a 2-D walk is drawn as a segment exactly 20 pixels long along one image axis |
| `Mapper.MappedWithinReach` | main.go:70-77 | after i steps the pixel position is within 20·i (Manhattan) of the centre |
| `Handler.NumSteps` | main.go:30-38 | an empty count means 1 step; a non-empty count that fails to parse is the error `malformed count <val>`; a parsed count is used as is |
| `Handler.Iterations` | main.go:49 | definition: how many times `for i := 0; i < n; i++` runs, max(n, 0) |
| `Handler.Pixel` | main.go:53-54 | definition: the `LineTo` target `(ip.coords[0], ip.coords[1])` of a walk point |
| `Handler.Pixels` | main.go:53-54 | one pixel position per walk point |
| `Handler.PixelsSnoc` | main.go:53-54 | one more point adds exactly its pixel position at the end |
| `Handler.IterationSnoc` | main.go:49-57 | one more loop iteration appends one point to the trajectory, moves its end to that point and appends that point's pixel position to the lines |
| `Handler.StepAndMap` | main.go:50-54 | one iteration: one step, and the pixel position of the new last point |
| `Handler.DrawSteps` | main.go:49-57 | runs max(n, 0) steps: history grows by exactly the `Trajectory` of those steps; 2·max(n,0) draws consumed; emits the pixel position of each new point in order; earlier history untouched |
| `Handler.HandleStep` | main.go:26-62 | malformed count → 400 with `malformed count <val>`, walk unchanged; otherwise start at the pixel of the old position and advance and draw max(n, 0) steps |

## Left out

- HTTP serving, routing, `http.Error`'s response writing and `ListenAndServe` (main.go:26, main.go:33, main.go:64): I/O. The error reply keeps only the status and message.
- The draw2d graphic-context calls and their float64 coordinates: a foreign library. They become the `moveTo`/`lineTo` points of the reply. The colours, line width, `FillStroke` and `Close` calls are not modelled.
- PNG encoding, `SubImage` and `writeImage` (main.go:60-61, main.go:133-146): a foreign library and I/O. The reply carries only what is drawn by this request, not the cumulative image.
- `math/rand` and its time-based seed: replaced by the injected stream `rng`. Its statistical properties (uniform axis choice and sign) are not modelled.
- `strconv.ParseInt` internals: modelled only by its outcome. A value outside the int64 range is a parse failure in Go; the model trusts `parsed` to reflect that.
- Concurrent requests sharing the global walk: not modelled. Each handler call runs alone.
- `Mapper.TranslateCoords`: does not model the 64-bit wrap-around of `coords * 20` and of the addition. Integers are unbounded here, and overflow would need coordinates beyond about 4.6·10^17, i.e. that many steps.
- `Walk.RandomWalk.Step`: does not model 64-bit overflow of a coordinate. That would need about 9.2·10^18 steps.
