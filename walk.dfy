/**
 * The walk generator: an append-only history of lattice points of a fixed
 * dimension, starting at the origin, advanced one unit move at a time.
 *
 * The pseudo-random generator is injected: `rng` is the stream of
 * non-negative draws the generator would produce from its one seed, and
 * `drawn` counts how many of them have been consumed. Every step consumes
 * the next two draws, so no draw is ever reused.
 */
module Walk {
  import opened Points
  import opened Lattice

  /** The sign of a step, from one draw: an even draw gives -1, an odd draw +1. */
  function Displacement(draw: nat): (d: int)
    ensures d == 1 || d == -1
    ensures d == 1 <==> draw % 2 == 1
    ensures d == -1 <==> draw % 2 == 0
  {
    ((draw % 2) + 1) * 2 - 3
  }

  /**
   * The point one step after `p` when the next two draws of `rng` are those
   * at `drawn` and `drawn + 1`: the first picks the axis, the second the sign.
   */
  function NextPoint(p: seq<int>, rng: nat -> nat, drawn: nat): (q: seq<int>)
    requires |p| >= 1
    ensures |q| == |p| && Adjacent(p, q)
  {
    MovedIsAdjacent(p, rng(drawn) % |p|, Displacement(rng(drawn + 1)));
    Moved(p, rng(drawn) % |p|, Displacement(rng(drawn + 1)))
  }

  /** The `n` points that `n` steps from `p` append, consuming the draws from `drawn` on. */
  function Trajectory(p: seq<int>, rng: nat -> nat, drawn: nat, n: nat): (t: seq<seq<int>>)
    requires |p| >= 1
    ensures |t| == n
    ensures forall i :: 0 <= i < n ==> |t[i]| == |p|
    decreases n
  {
    if n == 0 then []
    else
      var q := NextPoint(p, rng, drawn);
      [q] + Trajectory(q, rng, drawn + 2, n - 1)
  }

  /** Where `n` steps from `p` end. */
  function EndPoint(p: seq<int>, rng: nat -> nat, drawn: nat, n: nat): (e: seq<int>)
    requires |p| >= 1
    ensures |e| == |p|
    decreases n
  {
    if n == 0 then p else EndPoint(NextPoint(p, rng, drawn), rng, drawn + 2, n - 1)
  }

  /** One more step ends one NextPoint further, using the two draws after the first 2n. */
  lemma {:induction false} EndPointSnoc(p: seq<int>, rng: nat -> nat, drawn: nat, n: nat)
    requires |p| >= 1
    ensures EndPoint(p, rng, drawn, n + 1) == NextPoint(EndPoint(p, rng, drawn, n), rng, drawn + 2 * n)
    decreases n
  {
    if n > 0 {
      EndPointSnoc(NextPoint(p, rng, drawn), rng, drawn + 2, n - 1);
    }
  }

  /** One more step appends exactly one point, the next one from where the walk ended. */
  lemma {:induction false} TrajectorySnoc(p: seq<int>, rng: nat -> nat, drawn: nat, n: nat)
    requires |p| >= 1
    ensures Trajectory(p, rng, drawn, n + 1)
         == Trajectory(p, rng, drawn, n) + [NextPoint(EndPoint(p, rng, drawn, n), rng, drawn + 2 * n)]
    decreases n
  {
    if n > 0 {
      var q := NextPoint(p, rng, drawn);
      TrajectorySnoc(q, rng, drawn + 2, n - 1);
      assert Trajectory(p, rng, drawn, n + 1) == [q] + Trajectory(q, rng, drawn + 2, n);
    }
  }

  /** Steps taken from the end of a path extend it to a longer path: the walk invariant holds after any number of steps. */
  lemma {:induction false} TrajectoryExtendsPath(h: seq<seq<int>>, dim: nat, rng: nat -> nat, drawn: nat, n: nat)
    requires IsPath(h, dim) && dim >= 1
    ensures IsPath(h + Trajectory(h[|h| - 1], rng, drawn, n), dim)
    decreases n
  {
    if n > 0 {
      var q := NextPoint(h[|h| - 1], rng, drawn);
      PathExtend(h, dim, q);
      TrajectoryExtendsPath(h + [q], dim, rng, drawn + 2, n - 1);
      assert h + Trajectory(h[|h| - 1], rng, drawn, n) == (h + [q]) + Trajectory(q, rng, drawn + 2, n - 1);
    }
  }

  /** A fresh copy of `p` with coordinate `idx` changed by `d`: the new point of a step. */
  method Successor(p: Point, idx: nat, d: int) returns (next: Point)
    requires p.WellFormed() && idx < p.dim
    ensures fresh(next.coords) && next.dim == p.dim && next.WellFormed()
    ensures next.coords[..] == Moved(p.coords[..], idx, d)
  {
    next := NewPoint(p.dim);
    var _ := Copy(next.coords, p.coords);
    next.coords[idx] := next.coords[idx] + d;
  }

  class RandomWalk {
    const dim: nat
    const rng: nat -> nat
    var drawn: nat
    var walk: seq<Point>

    /** The coordinates of each stored point, in order. */
    ghost var history: seq<seq<int>>
    /** The arrays that hold the stored points. */
    ghost var Repr: set<array<int>>

    ghost predicate Valid()
      reads this`walk, this`history, this`Repr, Repr
    {
      |walk| == |history| &&
      IsPath(history, dim) &&
      (forall i :: 0 <= i < |walk| ==>
        walk[i].coords in Repr && walk[i].dim == dim && walk[i].WellFormed() &&
        walk[i].coords[..] == history[i]) &&
      (forall i, j :: 0 <= i < j < |walk| ==> walk[i].coords != walk[j].coords)
    }

    /** The most recent point of the history. */
    ghost function Last(): seq<int>
      reads this`history
      requires |history| >= 1
    {
      history[|history| - 1]
    }

    /** NewRandomWalk: a walk of dimension `dims` whose only point is the origin. */
    constructor (dims: nat, source: nat -> nat)
      ensures Valid() && fresh(Repr)
      ensures dim == dims && rng == source && drawn == 0
      ensures history == [Zeros(dims)]
    {
      var initial := NewPoint(dims);
      dim := dims;
      rng := source;
      drawn := 0;
      walk := [initial];
      history := [initial.coords[..]];
      Repr := {initial.coords};
    }

    /**
     * position: the last point of the history. It is the stored point
     * itself, not a copy: its array is one of the walk's own.
     */
    function Position(): (p: Point)
      reads this, Repr
      requires Valid()
      ensures p.coords in Repr && p.dim == dim && p.WellFormed()
      ensures p.coords[..] == history[|history| - 1]
    {
      walk[|walk| - 1]
    }

    /** One call of the generator's Int(): the next draw of the stream. */
    method Draw() returns (x: nat)
      modifies this`drawn
      ensures drawn == old(drawn) + 1
      ensures x == rng(old(drawn))
    {
      x := rng(drawn);
      drawn := drawn + 1;
    }

    /** randomStep: -1 or +1 from the next draw. */
    method RandomStep() returns (d: int)
      modifies this`drawn
      ensures drawn == old(drawn) + 1
      ensures d == Displacement(rng(old(drawn)))
    {
      var x := Draw();
      d := Displacement(x);
    }

    /** Appends a fresh point that is one unit move from the last one. */
    method Append(next: Point)
      requires Valid() && next.coords !in Repr
      requires next.dim == dim && next.WellFormed()
      requires IsPath(history + [next.coords[..]], dim)
      modifies this`walk, this`history, this`Repr
      ensures Valid() && Repr == old(Repr) + {next.coords}
      ensures history == old(history) + [next.coords[..]]
    {
      walk := walk + [next];
      history := history + [next.coords[..]];
      Repr := Repr + {next.coords};
    }

    /**
     * step: the last point moved by ±1 along axis `draw % dim` (the first
     * draw picks the axis, the second the sign) is appended to the history,
     * and a fresh copy of it is returned.
     */
    method Step() returns (r: Point)
      requires Valid() && dim >= 1
      modifies this
      ensures Valid() && fresh(Repr - old(Repr)) && old(Repr) <= Repr
      ensures drawn == old(drawn) + 2
      ensures history == old(history) + [NextPoint(old(Last()), rng, old(drawn))]
      ensures r.dim == dim && r.WellFormed() && r.coords[..] == Last()
      ensures fresh(r.coords) && r.coords !in Repr
    {
      ghost var x := NextPoint(Last(), rng, drawn);
      var draw := Draw();
      var idx := draw % dim;
      var d := RandomStep();
      var next := Successor(walk[|walk| - 1], idx, d);
      assert next.coords[..] == x;
      PathExtend(history, dim, x);
      Append(next);
      r := CopyPoint(next);
    }
  }

  /** A step moves exactly one coordinate, the one the first draw picks, by the sign the second draw picks. */
  lemma StepIsUnitMove(p: seq<int>, rng: nat -> nat, drawn: nat)
    requires |p| >= 1
    ensures var q, k := NextPoint(p, rng, drawn), rng(drawn) % |p|;
      && q[k] == p[k] + Displacement(rng(drawn + 1))
      && forall j :: 0 <= j < |p| && j != k ==> q[j] == p[j]
  {
  }
}
