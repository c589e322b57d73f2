/**
 * The coordinate mapper: walk-space points to pixel coordinates, scaled by
 * STEP_LENGTH pixels per unit and shifted so that the origin lands at the
 * centre of the image.
 */
module Mapper {
  import opened Points
  import opened Lattice

  /** Pixels per walk unit. */
  const STEP_LENGTH: int := 20

  /** An image rectangle given by its corners, as image.Rectangle. */
  datatype Rectangle = Rectangle(minX: int, minY: int, maxX: int, maxY: int) {
    function Dx(): int { maxX - minX }
    function Dy(): int { maxY - minY }
  }

  /** Integer halving as Go's `/ 2` does it: truncating toward zero. */
  function Half(v: int): (h: int)
    ensures v >= 0 ==> 0 <= h && 2 * h <= v < 2 * h + 2
    ensures v < 0 ==> h <= 0 && 2 * h - 2 < v <= 2 * h
  {
    if v >= 0 then v / 2 else -((-v) / 2)
  }

  function PixelX(x: int, rect: Rectangle): int {
    STEP_LENGTH * x + Half(rect.Dx())
  }

  function PixelY(y: int, rect: Rectangle): int {
    STEP_LENGTH * y + Half(rect.Dy())
  }

  /** The point translateCoords builds: the two pixel coordinates, then zeros up to `dim`. */
  function ImagePoint(c: seq<int>, dim: nat, rect: Rectangle): (q: seq<int>)
    requires |c| >= 2 && dim >= 2
    ensures |q| == dim
    ensures q[0] == PixelX(c[0], rect) && q[1] == PixelY(c[1], rect)
    ensures forall i :: 2 <= i < dim ==> q[i] == 0
  {
    Zeros(dim)[0 := PixelX(c[0], rect)][1 := PixelY(c[1], rect)]
  }

  /** The walk-space point a pixel position stands for: the inverse of the mapping. */
  function FromPixel(x: int, y: int, rect: Rectangle): (int, int) {
    ((x - Half(rect.Dx())) / STEP_LENGTH, (y - Half(rect.Dy())) / STEP_LENGTH)
  }

  /**
   * translateCoords. The point struct is passed by value but its slice is
   * shared, so scaling `p.coords[0]` and `p.coords[1]` by STEP_LENGTH writes
   * through into the caller's array; the result is a fresh point.
   */
  method TranslateCoords(p: Point, rect: Rectangle) returns (q: Point)
    requires p.dim >= 2 && p.coords.Length >= 2
    modifies p.coords
    ensures fresh(q.coords) && q.dim == p.dim && q.WellFormed()
    ensures q.coords[..] == ImagePoint(old(p.coords[..]), p.dim, rect)
    ensures p.coords[..] == old(p.coords[..])[0 := STEP_LENGTH * old(p.coords[0])][1 := STEP_LENGTH * old(p.coords[1])]
  {
    p.coords[0] := p.coords[0] * STEP_LENGTH;
    p.coords[1] := p.coords[1] * STEP_LENGTH;
    q := NewPoint(p.dim);
    q.coords[0] := p.coords[0] + Half(rect.Dx());
    q.coords[1] := p.coords[1] + Half(rect.Dy());
  }

  /** The walk origin is drawn at (Dx/2, Dy/2): the centre of an image whose rectangle starts at (0, 0). */
  lemma OriginAtCenter(dim: nat, rect: Rectangle)
    requires dim >= 2
    ensures ImagePoint(Zeros(dim), dim, rect)[..2] == [Half(rect.Dx()), Half(rect.Dy())]
  {
  }

  /** In two dimensions the image point is exactly the pixel pair. */
  lemma ImagePoint2(c: seq<int>, rect: Rectangle)
    requires |c| == 2
    ensures ImagePoint(c, 2, rect) == [PixelX(c[0], rect), PixelY(c[1], rect)]
  {
    var q := ImagePoint(c, 2, rect);
    assert q == [q[0], q[1]];
  }

  /**
   * On an 850 x 850 image, such as the program's Rectangle(0, 0, 850, 850),
   * the origin is at (425, 425) and (1, 0) at (445, 425).
   */
  lemma Image850(rect: Rectangle)
    requires rect.Dx() == 850 && rect.Dy() == 850
    ensures ImagePoint([0, 0], 2, rect) == [425, 425]
    ensures ImagePoint([1, 0], 2, rect) == [445, 425]
  {
    ImagePoint2([0, 0], rect);
    ImagePoint2([1, 0], rect);
  }

  /** Mapping loses nothing: the walk point is recovered from its pixel position. */
  lemma PixelRoundTrip(x: int, y: int, rect: Rectangle)
    ensures FromPixel(PixelX(x, rect), PixelY(y, rect), rect) == (x, y)
  {
    assert (STEP_LENGTH * x) / STEP_LENGTH == x;
    assert (STEP_LENGTH * y) / STEP_LENGTH == y;
  }

  /** Distinct walk points are drawn at distinct pixels. */
  lemma PixelInjective(a: seq<int>, b: seq<int>, rect: Rectangle)
    requires |a| == 2 && |b| == 2 && a != b
    ensures ImagePoint(a, 2, rect) != ImagePoint(b, 2, rect)
  {
    PixelRoundTrip(a[0], a[1], rect);
    PixelRoundTrip(b[0], b[1], rect);
    assert a == [a[0], a[1]] && b == [b[0], b[1]];
  }

  /** Each unit step of a 2-D walk is drawn as a segment of STEP_LENGTH pixels along one image axis. */
  lemma UnitStepIsSegment(a: seq<int>, b: seq<int>, rect: Rectangle)
    requires |a| == 2 && Adjacent(a, b)
    ensures var pa, pb := ImagePoint(a, 2, rect), ImagePoint(b, 2, rect);
      (Abs(pb[0] - pa[0]) == STEP_LENGTH && pb[1] == pa[1]) ||
      (pb[0] == pa[0] && Abs(pb[1] - pa[1]) == STEP_LENGTH)
  {
    var k, d := AdjacentIsMoved(a, b);
  }

  /** After `i` steps the pixel position is within STEP_LENGTH * i (Manhattan) of the centre. */
  lemma MappedWithinReach(h: seq<seq<int>>, i: nat, rect: Rectangle)
    requires IsPath(h, 2) && i < |h|
    ensures var q := ImagePoint(h[i], 2, rect);
      Abs(q[0] - Half(rect.Dx())) + Abs(q[1] - Half(rect.Dy())) <= STEP_LENGTH * i
  {
    PathReach(h, 2, i);
    var c := h[i];
    assert Norm1(c) == Abs(c[0]) + Abs(c[1]) by {
      assert c[1..][0] == c[1] && c[1..][1..] == [];
      assert Norm1(c[1..]) == Abs(c[1]) + Norm1(c[1..][1..]);
    }
  }
}
