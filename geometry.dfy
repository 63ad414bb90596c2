/** Box formats and the Intersection-over-Union overlap measure used to decide
    whether two detections are the same object. Coordinates are exact reals. */
module Geometry {

  /** A box given by two corners: (x1, y1) top-left and (x2, y2) bottom-right. */
  datatype Box = Box(x1: real, y1: real, x2: real, y2: real)

  /** A box given by its top-left corner, width and height, as the sensor reports it
      and as the detection payload carries it. */
  datatype Xywh = Xywh(x: real, y: real, w: real, h: real)

  /** Corner form of a sensor box: x2 = x + w, y2 = y + h. The top-left corner stays,
      the area is w * h, and the corners are ordered exactly when w and h are not negative. */
  function CornersOf(b: Xywh): (r: Box)
    ensures r.x1 == b.x && r.y1 == b.y
    ensures Area(r) == b.w * b.h
    ensures WellFormed(r) <==> b.w >= 0.0 && b.h >= 0.0
  {
    Box(b.x, b.y, b.x + b.w, b.y + b.h)
  }

  /** Payload form of a corner box: width x2 - x1 and height y2 - y1. The top-left corner
      stays, w * h is the area, and w, h are not negative exactly for ordered corners. */
  function SizeOf(b: Box): (r: Xywh)
    ensures r.x == b.x1 && r.y == b.y1
    ensures r.w * r.h == Area(b)
    ensures WellFormed(b) <==> r.w >= 0.0 && r.h >= 0.0
  {
    Xywh(b.x1, b.y1, b.x2 - b.x1, b.y2 - b.y1)
  }

  /** The payload conversion undoes the corner conversion exactly (and vice versa). */
  lemma SizeOfCornersOf(b: Xywh)
    ensures SizeOf(CornersOf(b)) == b
  {
  }

  lemma CornersOfSizeOf(b: Box)
    ensures CornersOf(SizeOf(b)) == b
  {
  }

  function Max(a: real, b: real): real { if a >= b then a else b }
  function Min(a: real, b: real): real { if a <= b then a else b }

  /** Signed area (width times height); positive for an inverted box too. */
  function Area(b: Box): real
  {
    (b.x2 - b.x1) * (b.y2 - b.y1)
  }

  /** Corners are ordered. */
  predicate WellFormed(b: Box)
  {
    b.x1 <= b.x2 && b.y1 <= b.y2
  }

  /** Width and height of the overlap, each clamped at 0. */
  function OverlapWidth(a: Box, b: Box): (r: real)
    ensures r >= 0.0
    ensures WellFormed(a) ==> r <= a.x2 - a.x1
    ensures WellFormed(b) ==> r <= b.x2 - b.x1
  {
    Max(0.0, Min(a.x2, b.x2) - Max(a.x1, b.x1))
  }

  function OverlapHeight(a: Box, b: Box): (r: real)
    ensures r >= 0.0
    ensures WellFormed(a) ==> r <= a.y2 - a.y1
    ensures WellFormed(b) ==> r <= b.y2 - b.y1
  {
    Max(0.0, Min(a.y2, b.y2) - Max(a.y1, b.y1))
  }

  /** Area of the clamped overlap rectangle. */
  function Intersection(a: Box, b: Box): real
  {
    OverlapWidth(a, b) * OverlapHeight(a, b)
  }

  /** Sum of both areas minus the overlap; IoU divides by this when it is positive. */
  function Union(a: Box, b: Box): real
  {
    Area(a) + Area(b) - Intersection(a, b)
  }

  /** Intersection-over-Union of two corner boxes; 0 when the union is not positive. */
  function Iou(a: Box, b: Box): (r: real)
    ensures r >= 0.0
    ensures Union(a, b) <= 0.0 ==> r == 0.0
  {
    ProductNonNegative(OverlapWidth(a, b), OverlapHeight(a, b));
    var inter := Intersection(a, b);
    var uni := Union(a, b);
    if uni > 0.0 then inter / uni else 0.0
  }

  lemma ProductNonNegative(p: real, q: real)
    requires p >= 0.0 && q >= 0.0
    ensures p * q >= 0.0
  {
  }

  /** 0 <= p <= P and 0 <= q <= Q give p * q <= P * Q. */
  lemma ProductMonotone(p: real, q: real, bigP: real, bigQ: real)
    requires 0.0 <= p <= bigP && 0.0 <= q <= bigQ
    ensures p * q <= bigP * bigQ
  {
  }

  /** The overlap never exceeds either box's area. */
  lemma IntersectionWithinAreas(a: Box, b: Box)
    requires WellFormed(a) && WellFormed(b)
    ensures 0.0 <= Intersection(a, b) <= Area(a)
    ensures Intersection(a, b) <= Area(b)
  {
    IntersectionWithinFirstArea(a, b);
    IntersectionWithinFirstArea(b, a);
    assert OverlapWidth(a, b) == OverlapWidth(b, a) && OverlapHeight(a, b) == OverlapHeight(b, a);
  }

  /** The overlap never exceeds the area of a box with ordered corners. */
  lemma IntersectionWithinFirstArea(a: Box, b: Box)
    requires WellFormed(a)
    ensures 0.0 <= Intersection(a, b) <= Area(a)
  {
    ProductNonNegative(OverlapWidth(a, b), OverlapHeight(a, b));
    ProductMonotone(OverlapWidth(a, b), OverlapHeight(a, b), a.x2 - a.x1, a.y2 - a.y1);
  }

  /** IoU does not depend on the order of its arguments. */
  lemma IouSymmetric(a: Box, b: Box)
    ensures Iou(a, b) == Iou(b, a)
  {
    assert OverlapWidth(a, b) == OverlapWidth(b, a);
    assert OverlapHeight(a, b) == OverlapHeight(b, a);
    assert Union(a, b) == Union(b, a);
  }

  /** IoU lies in [0, 1] for every pair of boxes: an axis with unordered corners
      clamps the overlap to 0. */
  lemma IouInUnitInterval(a: Box, b: Box)
    ensures 0.0 <= Iou(a, b) <= 1.0
  {
    if !WellFormed(a) {
      IouDegenerate(a, b);
      return;
    }
    if !WellFormed(b) {
      IouDegenerate(b, a);
      return;
    }
    IntersectionWithinAreas(a, b);
    ProductNonNegative(a.x2 - a.x1, a.y2 - a.y1);
    var inter, uni := Intersection(a, b), Union(a, b);
    assert inter <= uni;
    if uni > 0.0 {
      QuotientAtMostOne(inter, uni);
    }
  }

  /** 0 <= p <= q with q > 0 gives p / q <= 1. */
  lemma QuotientAtMostOne(p: real, q: real)
    requires 0.0 <= p <= q && q > 0.0
    ensures p / q <= 1.0
  {
  }

  /** A box with positive width and height overlaps itself completely. */
  lemma IouSelf(a: Box)
    requires a.x1 < a.x2 && a.y1 < a.y2
    ensures Iou(a, a) == 1.0
  {
    assert OverlapWidth(a, a) == a.x2 - a.x1;
    assert OverlapHeight(a, a) == a.y2 - a.y1;
    assert Intersection(a, a) == Area(a);
    ProductPositive(a.x2 - a.x1, a.y2 - a.y1);
    assert Union(a, a) == Area(a);
  }

  lemma ProductPositive(p: real, q: real)
    requires p > 0.0 && q > 0.0
    ensures p * q > 0.0
  {
  }

  /** An inverted box (both corners swapped) has positive area but self-IoU 0. */
  lemma IouSelfInverted(a: Box)
    requires a.x2 < a.x1 && a.y2 < a.y1
    ensures Area(a) > 0.0 && Iou(a, a) == 0.0
  {
    ProductPositive(a.x1 - a.x2, a.y1 - a.y2);
    assert OverlapWidth(a, a) == 0.0;
  }

  /** A box with no positive width or no positive height overlaps nothing: IoU is 0. */
  lemma IouDegenerate(a: Box, b: Box)
    requires a.x2 <= a.x1 || a.y2 <= a.y1
    ensures Iou(a, b) == 0.0 && Iou(b, a) == 0.0
  {
  }

  /** Boxes separated along either axis do not overlap: IoU is 0. */
  lemma IouDisjoint(a: Box, b: Box)
    requires a.x2 <= b.x1 || b.x2 <= a.x1 || a.y2 <= b.y1 || b.y2 <= a.y1
    ensures Iou(a, b) == 0.0
  {
  }
}
