/**
 * Integer plane geometry behind the stop-line test of the scheduler (queuing.py) and the
 * overlap areas of lane assignment and pedestrian tracking (main.py). Coordinates are the
 * camera's pixel coordinates, so every quantity is an integer.
 */
module Geometry {

  datatype Point = Point(x: int, y: int)

  /** A line segment given by its two end points, as `[(x0, y0), (x1, y1)]` in the source. */
  datatype Segment = Segment(a: Point, b: Point)

  /** A detection box in the `[x, y, w, h]` form the source keeps in `contour`. */
  datatype Rect = Rect(x: int, y: int, w: int, h: int)

  /** Twice the signed area of the triangle a, b, c. */
  function Cross(a: Point, b: Point, c: Point): int {
    (c.y - a.y) * (b.x - a.x) - (b.y - a.y) * (c.x - a.x)
  }

  /** The strict orientation test `ccw(A, B, C)`: false for collinear points. */
  predicate Ccw(a: Point, b: Point, c: Point) {
    Cross(a, b, c) > 0
  }

  /** `line_intersects_line(l1, l2)`: the end points of each segment lie strictly on opposite
      sides of the other one. A segment shrunk to a point crosses nothing, and two segments
      that start, or end, at the same point do not cross. */
  predicate SegmentsIntersect(l1: Segment, l2: Segment): (hit: bool)
    ensures hit ==> l1.a != l1.b && l2.a != l2.b
    ensures hit ==> l1.a != l2.a && l1.b != l2.b
  {
    Ccw(l1.a, l2.a, l2.b) != Ccw(l1.b, l2.a, l2.b) && Ccw(l1.a, l1.b, l2.a) != Ccw(l1.a, l1.b, l2.b)
  }

  /** Segments that only touch, one starting where the other ends, can count as crossing: the
      strict test sees the shared point as collinear on one side and not on the other. Whether
      it does depends on the turn the two segments make at that point. */
  lemma TouchingEndToStart()
    ensures SegmentsIntersect(Segment(Point(0, 0), Point(1, 0)), Segment(Point(0, 1), Point(0, 0)))
    ensures !SegmentsIntersect(Segment(Point(0, 0), Point(0, 1)), Segment(Point(1, 0), Point(0, 0)))
  {
  }

  /** The orientation of a triangle does not depend on which vertex is named first. */
  lemma {:induction false} CrossRotates(a: Point, b: Point, c: Point)
    ensures Cross(a, b, c) == Cross(b, c, a)
    ensures Ccw(a, b, c) == Ccw(b, c, a)
  {
    assert Cross(a, b, c) == c.y * b.x - c.y * a.x - a.y * b.x - b.y * c.x + b.y * a.x + a.y * c.x by {
      assert (c.y - a.y) * (b.x - a.x) == c.y * b.x - c.y * a.x - a.y * b.x + a.y * a.x;
      assert (b.y - a.y) * (c.x - a.x) == b.y * c.x - b.y * a.x - a.y * c.x + a.y * a.x;
    }
    assert Cross(b, c, a) == c.y * b.x - c.y * a.x - a.y * b.x - b.y * c.x + b.y * a.x + a.y * c.x by {
      assert (a.y - b.y) * (c.x - b.x) == a.y * c.x - a.y * b.x - b.y * c.x + b.y * b.x;
      assert (c.y - b.y) * (a.x - b.x) == c.y * a.x - c.y * b.x - b.y * a.x + b.y * b.x;
    }
  }

  /** `line_intersects_line` is symmetric in its two segments. */
  lemma {:induction false} SegmentsIntersectSymmetric(l1: Segment, l2: Segment)
    ensures SegmentsIntersect(l1, l2) == SegmentsIntersect(l2, l1)
  {
    CrossRotates(l1.a, l2.a, l2.b);
    CrossRotates(l1.b, l2.a, l2.b);
    CrossRotates(l2.a, l1.a, l1.b);
    CrossRotates(l2.b, l1.a, l1.b);
  }

  /** Two vectors that are both parallel to a non-zero vector d are parallel to each other. */
  lemma {:induction false} ParallelToCommon(ux: int, uy: int, vx: int, vy: int, dx: int, dy: int)
    requires dx != 0 || dy != 0
    requires ux * dy == uy * dx && vx * dy == vy * dx
    ensures ux * vy == uy * vx
  {
    var c := ux * vy - uy * vx;
    CrossTimes(ux, uy, vx, vy, dx, dy);
    CrossTimes(vy, vx, uy, ux, dy, dx);
    assert dy * (vy * ux - vx * uy) == 0;
    assert vy * ux - vx * uy == c;
    if dx != 0 {
      ZeroProduct(dx, c);
    } else {
      ZeroProduct(dy, c);
    }
  }

  /** Scaling the cross product of u and v by the first coordinate of a vector d they are both
      parallel to gives 0. */
  lemma {:induction false} CrossTimes(ux: int, uy: int, vx: int, vy: int, dx: int, dy: int)
    requires ux * dy == uy * dx && vx * dy == vy * dx
    ensures dx * (ux * vy - uy * vx) == 0
  {
    calc {
      dx * (ux * vy - uy * vx);
      ux * (dx * vy) - vx * (uy * dx);
      ux * (vx * dy) - vx * (ux * dy);
      0;
    }
  }

  lemma ZeroProduct(a: int, b: int)
    requires a != 0 && a * b == 0
    ensures b == 0
  {
  }

  /** A point lies on the line through p and q. */
  predicate OnLine(p: Point, q: Point, r: Point) {
    Cross(p, q, r) == 0
  }

  /** Three points on a common line (through two distinct points) have orientation zero. */
  lemma {:induction false} CollinearTriple(p: Point, q: Point, a: Point, b: Point, c: Point)
    requires p != q
    requires OnLine(p, q, a) && OnLine(p, q, b) && OnLine(p, q, c)
    ensures Cross(a, b, c) == 0
  {
    var dx, dy := q.x - p.x, q.y - p.y;
    // each of a, b, c minus p is parallel to d
    assert (a.x - p.x) * dy == (a.y - p.y) * dx;
    assert (b.x - p.x) * dy == (b.y - p.y) * dx;
    assert (c.x - p.x) * dy == (c.y - p.y) * dx;
    // so b - a and c - a are parallel to d, hence to each other
    assert (b.x - a.x) * dy == (b.y - a.y) * dx by {
      assert (b.x - a.x) * dy == (b.x - p.x) * dy - (a.x - p.x) * dy;
      assert (b.y - a.y) * dx == (b.y - p.y) * dx - (a.y - p.y) * dx;
    }
    assert (c.x - a.x) * dy == (c.y - a.y) * dx by {
      assert (c.x - a.x) * dy == (c.x - p.x) * dy - (a.x - p.x) * dy;
      assert (c.y - a.y) * dx == (c.y - p.y) * dx - (a.y - p.y) * dx;
    }
    ParallelToCommon(c.x - a.x, c.y - a.y, b.x - a.x, b.y - a.y, dx, dy);
  }

  /** When all four end points lie on one line, `line_intersects_line` is false: the strict
      orientation test is false throughout, even for overlapping collinear segments. */
  lemma {:induction false} CollinearSegmentsDoNotIntersect(l1: Segment, l2: Segment, p: Point, q: Point)
    requires p != q
    requires OnLine(p, q, l1.a) && OnLine(p, q, l1.b) && OnLine(p, q, l2.a) && OnLine(p, q, l2.b)
    ensures !SegmentsIntersect(l1, l2)
  {
    CollinearTriple(p, q, l1.a, l1.b, l2.a);
    CollinearTriple(p, q, l1.a, l1.b, l2.b);
  }

  /** The four sides of a box, in the order `line_intersects_rect` tries them:
      top, left, right, bottom. */
  function RectSides(r: Rect): seq<Segment> {
    [ Segment(Point(r.x, r.y), Point(r.x + r.w, r.y)),
      Segment(Point(r.x, r.y), Point(r.x, r.y + r.h)),
      Segment(Point(r.x + r.w, r.y), Point(r.x + r.w, r.y + r.h)),
      Segment(Point(r.x, r.y + r.h), Point(r.x + r.w, r.y + r.h)) ]
  }

  /** First-match search over a list of segments: does `line` intersect any of them? */
  function CrossesAny(line: Segment, sides: seq<Segment>): (hit: bool)
    ensures hit <==> exists k :: 0 <= k < |sides| && SegmentsIntersect(line, sides[k])
  {
    if sides == [] then false
    else if SegmentsIntersect(line, sides[0]) then true
    else
      var rest := CrossesAny(line, sides[1..]);
      assert forall k :: 1 <= k < |sides| ==> sides[k] == sides[1..][k - 1];
      rest
  }

  /** `line_intersects_rect(line, rect)`: a point never hits a box, and nothing hits a box
      shrunk to a point. */
  predicate SegmentIntersectsRect(line: Segment, r: Rect): (hit: bool)
    ensures hit ==> line.a != line.b && (r.w != 0 || r.h != 0)
  {
    CrossesAny(line, RectSides(r))
  }

  /** `line_intersects_rect` holds exactly when the segment intersects one of the four sides. */
  lemma SegmentIntersectsRectSides(line: Segment, r: Rect)
    ensures SegmentIntersectsRect(line, r) <==>
      SegmentsIntersect(line, Segment(Point(r.x, r.y), Point(r.x + r.w, r.y))) ||
      SegmentsIntersect(line, Segment(Point(r.x, r.y), Point(r.x, r.y + r.h))) ||
      SegmentsIntersect(line, Segment(Point(r.x + r.w, r.y), Point(r.x + r.w, r.y + r.h))) ||
      SegmentsIntersect(line, Segment(Point(r.x, r.y + r.h), Point(r.x + r.w, r.y + r.h)))
  {
    var s := RectSides(r);
    if SegmentIntersectsRect(line, r) {
      var k :| 0 <= k < 4 && SegmentsIntersect(line, s[k]);
      assert k == 0 || k == 1 || k == 2 || k == 3;
    } else {
      assert !SegmentsIntersect(line, s[0]) && !SegmentsIntersect(line, s[1]);
      assert !SegmentsIntersect(line, s[2]) && !SegmentsIntersect(line, s[3]);
    }
  }

  /** `intersection_with_stop_line`: first-match search for a stop line that crosses the box. */
  function HitsStopLine(stopLines: seq<Segment>, box: Rect): (hit: bool)
    ensures hit <==> exists k :: 0 <= k < |stopLines| && SegmentIntersectsRect(stopLines[k], box)
  {
    if stopLines == [] then false
    else if SegmentIntersectsRect(stopLines[0], box) then true
    else
      var rest := HitsStopLine(stopLines[1..], box);
      assert forall k :: 1 <= k < |stopLines| ==> stopLines[k] == stopLines[1..][k - 1];
      rest
  }

  function Min(a: int, b: int): int { if a <= b then a else b }
  function Max(a: int, b: int): int { if a >= b then a else b }

  /** Length of the common x-extent of two boxes given by corners (negative when apart). */
  function XOverlap(r1Left: Point, r1Right: Point, r2Left: Point, r2Right: Point): int {
    Min(r1Right.x, r2Right.x) - Max(r1Left.x, r2Left.x)
  }

  /** Length of the common y-extent of two boxes given by corners (negative when apart). */
  function YOverlap(r1Left: Point, r1Right: Point, r2Left: Point, r2Right: Point): int {
    Min(r1Right.y, r2Right.y) - Max(r1Left.y, r2Left.y)
  }

  /** `intersectionBetweenRectangles`: area of the overlap of two axis-aligned boxes, each given
      by its top-left and bottom-right corners. */
  function OverlapArea(r1Left: Point, r1Right: Point, r2Left: Point, r2Right: Point): (area: int)
    ensures area >= 0
    ensures area == 0 <==>
      XOverlap(r1Left, r1Right, r2Left, r2Right) <= 0 || YOverlap(r1Left, r1Right, r2Left, r2Right) <= 0
  {
    var xDist := XOverlap(r1Left, r1Right, r2Left, r2Right);
    var yDist := YOverlap(r1Left, r1Right, r2Left, r2Right);
    if xDist > 0 && yDist > 0 then xDist * yDist else 0
  }

  /** The overlap area does not depend on which box comes first. */
  lemma OverlapSymmetric(r1Left: Point, r1Right: Point, r2Left: Point, r2Right: Point)
    ensures OverlapArea(r1Left, r1Right, r2Left, r2Right) == OverlapArea(r2Left, r2Right, r1Left, r1Right)
  {
  }

  lemma MulNonNegative(a: int, b: int)
    requires a >= 0 && b >= 0
    ensures a * b >= 0
  {
  }

  lemma {:induction false} MulMonotone(a: int, b: int, c: int, d: int)
    requires 0 < a <= c && 0 < b <= d
    ensures a * b <= c * d
  {
    assert (c - a) * b == c * b - a * b;
    MulNonNegative(c - a, b);
    assert c * (d - b) == c * d - c * b;
    MulNonNegative(c, d - b);
  }

  /** For a well-formed first box (left corner above and left of the right one), the overlap
      never exceeds its area. */
  lemma {:induction false} OverlapWithinFirst(r1Left: Point, r1Right: Point, r2Left: Point, r2Right: Point)
    requires r1Left.x <= r1Right.x && r1Left.y <= r1Right.y
    ensures OverlapArea(r1Left, r1Right, r2Left, r2Right) <= (r1Right.x - r1Left.x) * (r1Right.y - r1Left.y)
  {
    var xDist := XOverlap(r1Left, r1Right, r2Left, r2Right);
    var yDist := YOverlap(r1Left, r1Right, r2Left, r2Right);
    if xDist > 0 && yDist > 0 {
      MulMonotone(xDist, yDist, r1Right.x - r1Left.x, r1Right.y - r1Left.y);
    } else {
      assert (r1Right.x - r1Left.x) * (r1Right.y - r1Left.y) >= 0;
    }
  }

  /** The overlap never exceeds the area of either well-formed box. */
  lemma {:induction false} OverlapWithinBoth(r1Left: Point, r1Right: Point, r2Left: Point, r2Right: Point)
    requires r1Left.x <= r1Right.x && r1Left.y <= r1Right.y
    requires r2Left.x <= r2Right.x && r2Left.y <= r2Right.y
    ensures OverlapArea(r1Left, r1Right, r2Left, r2Right) <= (r1Right.x - r1Left.x) * (r1Right.y - r1Left.y)
    ensures OverlapArea(r1Left, r1Right, r2Left, r2Right) <= (r2Right.x - r2Left.x) * (r2Right.y - r2Left.y)
  {
    OverlapWithinFirst(r1Left, r1Right, r2Left, r2Right);
    OverlapWithinFirst(r2Left, r2Right, r1Left, r1Right);
    OverlapSymmetric(r1Left, r1Right, r2Left, r2Right);
  }
}
