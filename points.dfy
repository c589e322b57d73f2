/**
 * The `point` struct of the walk: a dimension and a slice of coordinates.
 * A Go struct holding a slice is copied by value but shares the slice's
 * backing array, so a `Point` here is a value holding an array reference:
 * two `Point`s that hold the same array see each other's writes.
 */
module Points {

  datatype Point = Point(dim: nat, coords: array<int>) {
    /** Every point built by `NewPoint` has as many coordinates as its dimension. */
    predicate WellFormed() {
      coords.Length == dim
    }
  }

  /** The all-zero vector of length `n` (the zero value `make` fills a slice with). */
  function Zeros(n: nat): (z: seq<int>)
    ensures |z| == n
    ensures forall i :: 0 <= i < n ==> z[i] == 0
  {
    seq(n, _ => 0)
  }

  /** `s` cut or zero-padded to length `n`: what a zeroed slice of length `n` holds after `copy` from `s`. */
  function Fit(s: seq<int>, n: nat): (r: seq<int>)
    ensures |r| == n
    ensures forall i :: 0 <= i < n ==> r[i] == (if i < |s| then s[i] else 0)
  {
    if |s| >= n then s[..n] else s + Zeros(n - |s|)
  }

  /** newPoint: a fresh origin of dimension `dims`. */
  method NewPoint(dims: nat) returns (p: Point)
    ensures fresh(p.coords)
    ensures p.dim == dims && p.WellFormed()
    ensures p.coords[..] == Zeros(dims)
  {
    var coords := new int[dims](_ => 0);
    p := Point(dims, coords);
  }

  /**
   * Go's built-in `copy(dst, src)`: copies the first min(len(dst), len(src))
   * elements, leaves the rest of `dst` alone and returns the count.
   * `dst` and `src` may be the same array.
   */
  method Copy(dst: array<int>, src: array<int>) returns (n: nat)
    modifies dst
    ensures n == if dst.Length < src.Length then dst.Length else src.Length
    ensures dst[..] == old(src[..n]) + old(dst[n..])
  {
    n := if dst.Length < src.Length then dst.Length else src.Length;
    var i := 0;
    while i < n
      invariant 0 <= i <= n
      invariant forall k :: 0 <= k < i ==> dst[k] == old(src[k])
      invariant forall k :: i <= k < dst.Length ==> dst[k] == old(dst[k])
      invariant forall k :: i <= k < src.Length ==> src[k] == old(src[k])
    {
      dst[i] := src[i];
      i := i + 1;
    }
    assert dst[..] == old(src[..n]) + old(dst[n..]);
  }

  /** copyPoint: a deep copy, sharing no array with `p`. */
  method CopyPoint(p: Point) returns (q: Point)
    ensures fresh(q.coords)
    ensures q.dim == p.dim && q.WellFormed()
    ensures q.coords[..] == Fit(p.coords[..], p.dim)
    ensures p.WellFormed() ==> q.coords[..] == p.coords[..]
  {
    q := NewPoint(p.dim);
    var _ := Copy(q.coords, p.coords);
  }
}
