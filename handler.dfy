/**
 * The /step request handler without HTTP and drawing: it reads the step
 * count, advances the walk that many times and emits the pixel positions
 * it would draw (the MoveTo to the current position, then one LineTo per
 * new point). The walk and the image rectangle, process-wide globals in
 * the program, are parameters here.
 */
module Handler {
  import opened Wrappers
  import opened Points
  import opened Lattice
  import opened Walk
  import opened Mapper

  /** What the handler answers: the strokes it draws, or an HTTP error. */
  datatype Reply =
    | Drawn(moveTo: (int, int), lineTo: seq<(int, int)>)
    | HttpError(status: int, message: string)

  /**
   * The number of steps a request asks for. `val` is the `count` query
   * value; `parsed` is the outcome of parsing it as a base-10 int64.
   */
  function NumSteps(val: string, parsed: Option<int>): (r: Result<int, string>)
    ensures |val| == 0 ==> r == Success(1)
    ensures |val| != 0 && parsed.None? ==> r == Failure("malformed count " + val)
    ensures |val| != 0 && parsed.Some? ==> r == Success(parsed.value)
  {
    if |val| == 0 then Success(1)
    else match parsed
      case None => Failure("malformed count " + val)
      case Some(count) => Success(count)
  }

  /** How many times the loop `for i := 0; i < n; i++` runs. */
  function Iterations(n: int): nat {
    if n < 0 then 0 else n
  }

  /** The pixel position a walk point is drawn at. */
  function Pixel(c: seq<int>, rect: Rectangle): (int, int)
    requires |c| >= 2
  {
    (PixelX(c[0], rect), PixelY(c[1], rect))
  }

  /** The pixel positions of a sequence of walk points, in order. */
  function Pixels(t: seq<seq<int>>, rect: Rectangle): (r: seq<(int, int)>)
    requires forall i :: 0 <= i < |t| ==> |t[i]| >= 2
    ensures |r| == |t|
  {
    seq(|t|, i requires 0 <= i < |t| => Pixel(t[i], rect))
  }

  lemma PixelsSnoc(t: seq<seq<int>>, x: seq<int>, rect: Rectangle)
    requires forall i :: 0 <= i < |t| ==> |t[i]| >= 2
    requires |x| >= 2
    ensures Pixels(t + [x], rect) == Pixels(t, rect) + [Pixel(x, rect)]
  {
    assert forall i :: 0 <= i < |t| ==> (t + [x])[i] == t[i];
  }

  /** What one more iteration adds: one point to the trajectory, its pixel position to the lines. */
  lemma IterationSnoc(p0: seq<int>, rng: nat -> nat, d0: nat, i: nat, rect: Rectangle)
    requires |p0| >= 2
    ensures var t, x := Trajectory(p0, rng, d0, i), NextPoint(EndPoint(p0, rng, d0, i), rng, d0 + 2 * i);
      && Trajectory(p0, rng, d0, i + 1) == t + [x]
      && EndPoint(p0, rng, d0, i + 1) == x
      && Pixels(Trajectory(p0, rng, d0, i + 1), rect) == Pixels(t, rect) + [Pixel(x, rect)]
  {
    TrajectorySnoc(p0, rng, d0, i);
    EndPointSnoc(p0, rng, d0, i);
    PixelsSnoc(Trajectory(p0, rng, d0, i), NextPoint(EndPoint(p0, rng, d0, i), rng, d0 + 2 * i), rect);
  }

  /** One iteration of the step loop: one step, then the pixel position of the new point. */
  method StepAndMap(walk: RandomWalk, rect: Rectangle) returns (px: (int, int))
    requires walk.Valid() && walk.dim >= 2
    modifies walk
    ensures walk.Valid() && fresh(walk.Repr - old(walk.Repr))
    ensures walk.drawn == old(walk.drawn) + 2
    ensures walk.history == old(walk.history) + [NextPoint(old(walk.Last()), walk.rng, old(walk.drawn))]
    ensures px == Pixel(walk.Last(), rect)
  {
    var p := walk.Step();
    var pos := CopyPoint(p);
    var ip := TranslateCoords(pos, rect);
    px := (ip.coords[0], ip.coords[1]);
  }

  /**
   * The step loop: advances the walk `numSteps` times (not at all when
   * `numSteps` is not positive) and emits the pixel position of each new
   * point, the target of one LineTo.
   */
  method DrawSteps(walk: RandomWalk, rect: Rectangle, numSteps: int) returns (lines: seq<(int, int)>)
    requires walk.Valid() && walk.dim >= 2
    modifies walk
    ensures walk.Valid() && fresh(walk.Repr - old(walk.Repr))
    ensures walk.history == old(walk.history) + Trajectory(old(walk.Last()), walk.rng, old(walk.drawn), Iterations(numSteps))
    ensures walk.drawn == old(walk.drawn) + 2 * Iterations(numSteps)
    ensures lines == Pixels(Trajectory(old(walk.Last()), walk.rng, old(walk.drawn), Iterations(numSteps)), rect)
  {
    ghost var h0, p0, d0 := walk.history, walk.Last(), walk.drawn;
    ghost var t: seq<seq<int>>, e := [], p0;
    lines := [];
    var i := 0;
    while i < numSteps
      invariant 0 <= i <= Iterations(numSteps)
      invariant t == Trajectory(p0, walk.rng, d0, i) && e == EndPoint(p0, walk.rng, d0, i)
      invariant walk.Valid() && fresh(walk.Repr - old(walk.Repr))
      invariant walk.history == h0 + t && walk.Last() == e
      invariant walk.drawn == d0 + 2 * i
      invariant lines == Pixels(t, rect)
    {
      IterationSnoc(p0, walk.rng, d0, i, rect);
      ghost var x := NextPoint(e, walk.rng, walk.drawn);
      var px := StepAndMap(walk, rect);
      lines, t, e := lines + [px], t + [x], x;
      i := i + 1;
    }
  }

  /** The /step handler: reads the count, then draws from the current position through each new point. */
  method HandleStep(walk: RandomWalk, rect: Rectangle, val: string, parsed: Option<int>) returns (reply: Reply)
    requires walk.Valid() && walk.dim >= 2
    modifies walk
    ensures walk.Valid() && fresh(walk.Repr - old(walk.Repr))
    ensures NumSteps(val, parsed).Failure? ==>
      reply == HttpError(400, NumSteps(val, parsed).error) && unchanged(walk)
    ensures NumSteps(val, parsed).Success? ==>
      var n, h0 := Iterations(NumSteps(val, parsed).value), old(walk.history);
      && walk.history == h0 + Trajectory(h0[|h0| - 1], walk.rng, old(walk.drawn), n)
      && walk.drawn == old(walk.drawn) + 2 * n
      && reply.Drawn?
      && reply.moveTo == Pixel(h0[|h0| - 1], rect)
      && reply.lineTo == Pixels(Trajectory(h0[|h0| - 1], walk.rng, old(walk.drawn), n), rect)
  {
    var count := NumSteps(val, parsed);
    if count.Failure? {
      reply := HttpError(400, count.error);
      return;
    }
    var start := CopyPoint(walk.Position());
    start := TranslateCoords(start, rect);
    var moveTo := (start.coords[0], start.coords[1]);
    var lines := DrawSteps(walk, rect, count.value);
    reply := Drawn(moveTo, lines);
  }

  /** The program's own set-up: a 2-D walk drawn on an 850 x 850 image. A malformed count is refused and leaves the walk as it was. */
  method RefuseMalformedExample() {
    var walk := new RandomWalk(2, (k: nat) => k);
    var bad := HandleStep(walk, Rectangle(0, 0, 850, 850), "abc", None);
    assert bad == HttpError(400, "malformed count abc");
    assert |walk.history| == 1;
  }

  /**
   * With the draws 0 (axis 0) and 1 (+1), one request without a count moves
   * the walk from the origin to (1, 0), drawn from (425, 425) to (445, 425)
   * on any 850 x 850 image, such as the program's Rectangle(0, 0, 850, 850).
   */
  method OneStepExample(rect: Rectangle)
    requires rect.Dx() == 850 && rect.Dy() == 850
  {
    var source: nat -> nat := (k: nat) => if k == 1 then 1 else 0;
    var walk := new RandomWalk(2, source);
    ghost var origin := walk.Last();
    assert origin == [0, 0];
    var reply := HandleStep(walk, rect, "", None);
    ghost var next := NextPoint(origin, source, 0);
    assert next == Moved(origin, 0, 1) == [1, 0];
    assert Trajectory(origin, source, 0, 1) == [next];
    assert reply.moveTo == (425, 425) by {
      Image850(rect);
      ImagePoint2(origin, rect);
    }
    assert reply.lineTo == [(445, 425)] by {
      Image850(rect);
      ImagePoint2(next, rect);
    }
  }
}
