/**
 * Walk-space: points of the integer lattice and the unit moves between them.
 * These are the specification functions the walk generator is proved against.
 */
module Lattice {
  import opened Points

  /** `p` moved by `d` along axis `k`, every other axis kept. */
  function Moved(p: seq<int>, k: nat, d: int): seq<int>
    requires k < |p|
  {
    p[k := p[k] + d]
  }

  predicate UnitApart(x: int, y: int) {
    y == x + 1 || y == x - 1
  }

  /** `a` and `b` differ in exactly one coordinate, and there by exactly one. */
  ghost predicate Adjacent(a: seq<int>, b: seq<int>) {
    |a| == |b| &&
    exists k :: 0 <= k < |a| && UnitApart(a[k], b[k]) &&
      forall j :: 0 <= j < |a| && j != k ==> a[j] == b[j]
  }

  /** A walk history of dimension `dim`: starts at the origin, each point one unit move from the previous one. */
  ghost predicate IsPath(h: seq<seq<int>>, dim: nat) {
    |h| >= 1 &&
    h[0] == Zeros(dim) &&
    (forall i :: 0 <= i < |h| ==> |h[i]| == dim) &&
    (forall i, j {:trigger h[i], h[j]} :: 0 <= i && j == i + 1 && j < |h| ==> Adjacent(h[i], h[j]))
  }

  function Sum(s: seq<int>): int {
    if s == [] then 0 else s[0] + Sum(s[1..])
  }

  function Abs(x: int): nat {
    if x < 0 then -x else x
  }

  /** Manhattan distance from the origin. */
  function Norm1(s: seq<int>): nat {
    if s == [] then 0 else Abs(s[0]) + Norm1(s[1..])
  }

  /** A ±1 move along any existing axis is a unit move. */
  lemma MovedIsAdjacent(p: seq<int>, k: nat, d: int)
    requires k < |p| && (d == 1 || d == -1)
    ensures Adjacent(p, Moved(p, k, d))
    ensures |Moved(p, k, d)| == |p| && Moved(p, k, d)[k] == p[k] + d
    ensures forall j :: 0 <= j < |p| && j != k ==> Moved(p, k, d)[j] == p[j]
  {
    assert UnitApart(p[k], Moved(p, k, d)[k]);
  }

  /** Conversely every unit move is a ±1 move along one axis. */
  lemma AdjacentIsMoved(a: seq<int>, b: seq<int>) returns (k: nat, d: int)
    requires Adjacent(a, b)
    ensures k < |a| && (d == 1 || d == -1) && b == Moved(a, k, d)
  {
    var i :| 0 <= i < |a| && UnitApart(a[i], b[i]) &&
      forall j :: 0 <= j < |a| && j != i ==> a[j] == b[j];
    k, d := i, b[i] - a[i];
    assert b == Moved(a, k, d);
  }

  /** Appending a unit move to a path gives a path. */
  lemma PathExtend(h: seq<seq<int>>, dim: nat, m: seq<int>)
    requires IsPath(h, dim) && Adjacent(h[|h| - 1], m)
    ensures IsPath(h + [m], dim)
  {
    var h' := h + [m];
    forall i | 0 < i < |h'|
      ensures Adjacent(h'[i - 1], h'[i])
    {
      if i < |h| {
        assert h'[i - 1] == h[i - 1] && h'[i] == h[i];
      }
    }
  }

  lemma {:induction false} SumZeros(n: nat)
    ensures Sum(Zeros(n)) == 0 && Norm1(Zeros(n)) == 0
  {
    if n > 0 {
      assert Zeros(n)[1..] == Zeros(n - 1);
      SumZeros(n - 1);
    }
  }

  /** A move of `d` along one axis changes the coordinate sum by exactly `d` and the distance by at most one unit. */
  lemma {:induction false} MovedSumNorm(p: seq<int>, k: nat, d: int)
    requires k < |p| && (d == 1 || d == -1)
    ensures Sum(Moved(p, k, d)) == Sum(p) + d
    ensures Norm1(Moved(p, k, d)) <= Norm1(p) + 1
  {
    var q := Moved(p, k, d);
    if k == 0 {
      assert q[1..] == p[1..];
    } else {
      assert q[1..] == Moved(p[1..], k - 1, d);
      MovedSumNorm(p[1..], k - 1, d);
    }
  }

  /** After `i` unit moves from the origin the coordinate sum has the parity of `i`. */
  lemma {:induction false} PathParity(h: seq<seq<int>>, dim: nat, i: nat)
    requires IsPath(h, dim) && i < |h|
    ensures (Sum(h[i]) - i) % 2 == 0
  {
    if i == 0 {
      SumZeros(dim);
    } else {
      PathParity(h, dim, i - 1);
      var k, d := AdjacentIsMoved(h[i - 1], h[i]);
      MovedSumNorm(h[i - 1], k, d);
    }
  }

  /** After `i` unit moves the walk is at most `i` away from the origin. */
  lemma {:induction false} PathReach(h: seq<seq<int>>, dim: nat, i: nat)
    requires IsPath(h, dim) && i < |h|
    ensures Norm1(h[i]) <= i
  {
    if i == 0 {
      SumZeros(dim);
    } else {
      PathReach(h, dim, i - 1);
      var k, d := AdjacentIsMoved(h[i - 1], h[i]);
      MovedSumNorm(h[i - 1], k, d);
    }
  }
}
