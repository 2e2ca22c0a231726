/** Face boxes, OpenCV's rectangle operators and the calculator's IOU. */
module Geometry {
  import opened Wrappers

  /** The relative bounding box of a face detection, in normalised coordinates.
      The other fields of a detection are carried along by the host and play no
      part in any decision. */
  datatype Detection = Detection(xmin: real, ymin: real, width: real, height: real)

  /** OpenCV's cv::Rect2f. */
  datatype Rect = Rect(x: real, y: real, width: real, height: real)

  /** The default-constructed rectangle, which OpenCV returns for an empty overlap. */
  const EmptyRect := Rect(0.0, 0.0, 0.0, 0.0)

  function Min(a: real, b: real): real { if a <= b then a else b }
  function Max(a: real, b: real): real { if a >= b then a else b }

  function DetectionToRect(d: Detection): Rect
  {
    Rect(d.xmin, d.ymin, d.width, d.height)
  }

  /** Rect_::empty(). */
  predicate IsEmpty(r: Rect)
  {
    r.width <= 0.0 || r.height <= 0.0
  }

  /** Rect_::area(). */
  function Area(r: Rect): real
  {
    r.width * r.height
  }

  /** `a` lies inside `b`. */
  predicate Inside(a: Rect, b: Rect)
  {
    b.x <= a.x && a.x + a.width <= b.x + b.width &&
    b.y <= a.y && a.y + a.height <= b.y + b.height
  }

  /** OpenCV's `a & b`: the overlap of two rectangles, or the default rectangle
      when either is empty or they do not overlap. */
  function Intersect(a: Rect, b: Rect): (r: Rect)
    ensures r == EmptyRect || (!IsEmpty(r) && Inside(r, a) && Inside(r, b))
    ensures IsEmpty(a) || IsEmpty(b) ==> r == EmptyRect
  {
    if IsEmpty(a) || IsEmpty(b) then EmptyRect
    else
      var x := Max(a.x, b.x);
      var y := Max(a.y, b.y);
      var w := Min(a.x + a.width, b.x + b.width) - x;
      var h := Min(a.y + a.height, b.y + b.height) - y;
      if w <= 0.0 || h <= 0.0 then EmptyRect else Rect(x, y, w, h)
  }

  /** OpenCV's `a | b`: the smallest rectangle holding both (not their union);
      an empty operand is ignored, and with `a` empty the result is `b` as it is. */
  function Bounding(a: Rect, b: Rect): (r: Rect)
    ensures !IsEmpty(a) && !IsEmpty(b) ==> !IsEmpty(r) && Inside(a, r) && Inside(b, r)
    ensures IsEmpty(a) ==> r == b
    ensures !IsEmpty(a) && IsEmpty(b) ==> r == a
  {
    if IsEmpty(a) then b
    else if IsEmpty(b) then a
    else
      var x := Min(a.x, b.x);
      var y := Min(a.y, b.y);
      Rect(x, y, Max(a.x + a.width, b.x + b.width) - x, Max(a.y + a.height, b.y + b.height) - y)
  }

  /** GetIOU: the overlap area over the area of the bounding rectangle. There is no
      guard against a zero denominator; `None` stands for the NaN that the float
      division 0/0 then yields (no other zero-denominator case exists, see
      ZeroBoundingOnlyWithoutOverlap). */
  function GetIou(d1: Detection, d2: Detection): (r: Option<real>)
    ensures r.None? ==> Intersect(DetectionToRect(d1), DetectionToRect(d2)) == EmptyRect
  {
    var r1 := DetectionToRect(d1);
    var r2 := DetectionToRect(d2);
    var inter := Intersect(r1, r2);
    var outer := Bounding(r1, r2);
    ZeroBoundingOnlyWithoutOverlap(d1, d2);
    if Area(outer) == 0.0 then None else Some(Area(inter) / Area(outer))
  }

  /** `x < t` for a float that may be NaN: false on NaN. */
  predicate Less(x: Option<real>, t: real)
  {
    x.Some? && x.value < t
  }

  /** `x > t` for a float that may be NaN: false on NaN. */
  predicate Greater(x: Option<real>, t: real)
  {
    x.Some? && x.value > t
  }

  lemma PositiveProduct(a: real, b: real)
    requires a > 0.0 && b > 0.0
    ensures a * b > 0.0
  {
  }

  lemma QuotientOfZero(b: real)
    requires b != 0.0
    ensures 0.0 / b == 0.0
  {
  }

  lemma QuotientPositive(a: real, b: real)
    requires a > 0.0 && b > 0.0
    ensures a / b > 0.0
  {
  }

  lemma QuotientAtMostOne(a: real, b: real)
    requires 0.0 <= a <= b && b > 0.0
    ensures 0.0 <= a / b <= 1.0
  {
    assert a / b * b == a;
  }

  lemma ProductMonotone(a: real, b: real, c: real, d: real)
    requires 0.0 < a <= c && 0.0 < b <= d
    ensures a * b <= c * d
  {
    assert a * b <= c * b;
    assert c * b <= c * d;
  }

  /** A zero denominator happens only when the boxes do not overlap, so the
      division in GetIOU can yield NaN but never an infinity. */
  lemma ZeroBoundingOnlyWithoutOverlap(d1: Detection, d2: Detection)
    ensures Area(Bounding(DetectionToRect(d1), DetectionToRect(d2))) == 0.0 ==>
            Intersect(DetectionToRect(d1), DetectionToRect(d2)) == EmptyRect
  {
    var r1, r2 := DetectionToRect(d1), DetectionToRect(d2);
    if !IsEmpty(r1) && !IsEmpty(r2) {
      var o := Bounding(r1, r2);
      PositiveProduct(o.width, o.height);
    }
  }

  /** A non-empty overlap has positive area, at most that of the bounding
      rectangle. */
  lemma OverlapWithinBounding(r1: Rect, r2: Rect)
    requires Intersect(r1, r2) != EmptyRect
    ensures 0.0 < Area(Intersect(r1, r2)) <= Area(Bounding(r1, r2))
  {
    var inter, outer := Intersect(r1, r2), Bounding(r1, r2);
    assert !IsEmpty(r1) && !IsEmpty(r2);
    assert inter.width <= outer.width && inter.height <= outer.height;
    ProductMonotone(inter.width, inter.height, outer.width, outer.height);
    PositiveProduct(inter.width, inter.height);
  }

  /** With an overlap, the IOU is defined and lies in (0, 1]. */
  lemma IouOfOverlap(d1: Detection, d2: Detection)
    requires Intersect(DetectionToRect(d1), DetectionToRect(d2)) != EmptyRect
    ensures GetIou(d1, d2).Some? && 0.0 < GetIou(d1, d2).value <= 1.0
  {
    var r1, r2 := DetectionToRect(d1), DetectionToRect(d2);
    OverlapWithinBounding(r1, r2);
    QuotientAtMostOne(Area(Intersect(r1, r2)), Area(Bounding(r1, r2)));
    QuotientPositive(Area(Intersect(r1, r2)), Area(Bounding(r1, r2)));
  }

  /** Every defined IOU lies in [0, 1]. */
  lemma IouInUnitRange(d1: Detection, d2: Detection)
    ensures GetIou(d1, d2).Some? ==> 0.0 <= GetIou(d1, d2).value <= 1.0
  {
    var r1, r2 := DetectionToRect(d1), DetectionToRect(d2);
    if Intersect(r1, r2) != EmptyRect {
      IouOfOverlap(d1, d2);
    } else if Area(Bounding(r1, r2)) != 0.0 {
      IouWithoutOverlap(d1, d2);
    }
  }

  /** A non-degenerate box overlaps itself completely. */
  lemma IouOfItself(d: Detection)
    requires d.width > 0.0 && d.height > 0.0
    ensures GetIou(d, d) == Some(1.0)
  {
    var r := DetectionToRect(d);
    assert Intersect(r, r) == r;
    assert Bounding(r, r) == r;
    PositiveProduct(r.width, r.height);
    assert Area(r) / Area(r) == 1.0;
  }

  /** Two products of positive factors, each factor at most its partner, are
      equal only when the factors are. */
  lemma EqualProductForcesEqualFactors(a: real, b: real, c: real, d: real)
    requires 0.0 < a <= c && 0.0 < b <= d && a * b == c * d
    ensures a == c && b == d
  {
    ProductMonotone(a, b, c, b);
    ProductMonotone(c, b, c, d);
    if a < c {
      PositiveProduct(c - a, b);
    }
    if b < d {
      PositiveProduct(d - b, a);
    }
  }

  /** An IOU of exactly 1 between two non-degenerate boxes means they are the same
      box: the overlap fills the bounding rectangle, which holds both. */
  lemma IouOneMeansSameBox(d1: Detection, d2: Detection)
    requires d1.width > 0.0 && d1.height > 0.0 && d2.width > 0.0 && d2.height > 0.0
    requires GetIou(d1, d2) == Some(1.0)
    ensures d1 == d2
  {
    var r1, r2 := DetectionToRect(d1), DetectionToRect(d2);
    var inter, outer := Intersect(r1, r2), Bounding(r1, r2);
    BoundingAreaPositive(d1, d2);
    QuotientOne(Area(inter), Area(outer));
    assert Area(EmptyRect) == 0.0;
    FilledBoundingMeansSame(inter, r1, r2, outer);
  }

  lemma QuotientOne(a: real, b: real)
    requires b > 0.0 && a / b == 1.0
    ensures a == b
  {
    assert a == a / b * b;
  }

  /** Two rectangles that hold `inner` and lie inside `outer`, of the same area as
      `inner`, are both `outer`. */
  lemma FilledBoundingMeansSame(inner: Rect, r1: Rect, r2: Rect, outer: Rect)
    requires !IsEmpty(inner) && Inside(inner, r1) && Inside(inner, r2) && Inside(r1, outer) && Inside(r2, outer)
    requires Area(inner) == Area(outer)
    ensures r1 == r2
  {
    EqualProductForcesEqualFactors(inner.width, inner.height, outer.width, outer.height);
    SqueezedIsOuter(inner, r1, outer);
    SqueezedIsOuter(inner, r2, outer);
  }

  /** A rectangle between an inner and an outer one of the same size is the outer one. */
  lemma SqueezedIsOuter(inner: Rect, r: Rect, outer: Rect)
    requires Inside(inner, r) && Inside(r, outer)
    requires inner.width == outer.width && inner.height == outer.height
    ensures r == outer
  {
  }

  /** Boxes that are separated along one axis do not overlap. */
  lemma SeparatedDoNotOverlap(d1: Detection, d2: Detection)
    requires d1.xmin + d1.width <= d2.xmin || d2.xmin + d2.width <= d1.xmin ||
             d1.ymin + d1.height <= d2.ymin || d2.ymin + d2.height <= d1.ymin
    ensures Intersect(DetectionToRect(d1), DetectionToRect(d2)) == EmptyRect
  {
    var r1, r2 := DetectionToRect(d1), DetectionToRect(d2);
    if !IsEmpty(r1) && !IsEmpty(r2) {
      if d1.xmin + d1.width <= d2.xmin || d2.xmin + d2.width <= d1.xmin {
        assert Min(r1.x + r1.width, r2.x + r2.width) <= Max(r1.x, r2.x);
      } else {
        assert Min(r1.y + r1.height, r2.y + r2.height) <= Max(r1.y, r2.y);
      }
    }
  }

  /** Boxes that are separated along one axis have IOU 0. */
  lemma IouOfSeparated(d1: Detection, d2: Detection)
    requires d1.width > 0.0 && d1.height > 0.0 && d2.width > 0.0 && d2.height > 0.0
    requires d1.xmin + d1.width <= d2.xmin || d2.xmin + d2.width <= d1.xmin ||
             d1.ymin + d1.height <= d2.ymin || d2.ymin + d2.height <= d1.ymin
    ensures GetIou(d1, d2) == Some(0.0)
  {
    SeparatedDoNotOverlap(d1, d2);
    BoundingAreaPositive(d1, d2);
    IouWithoutOverlap(d1, d2);
  }

  /** `a & b` is the largest rectangle inside both: any non-empty rectangle
      inside both lies inside it, so it is then not the default rectangle. */
  lemma IntersectIsLargest(a: Rect, b: Rect, r: Rect)
    requires !IsEmpty(r) && Inside(r, a) && Inside(r, b)
    ensures Intersect(a, b) != EmptyRect && Inside(r, Intersect(a, b))
  {
  }

  /** `a | b` of two non-empty rectangles is the smallest rectangle holding both. */
  lemma BoundingIsSmallest(a: Rect, b: Rect, r: Rect)
    requires !IsEmpty(a) && !IsEmpty(b) && Inside(a, r) && Inside(b, r)
    ensures Inside(Bounding(a, b), r)
  {
  }

  /** The converse of IouOfSeparated: non-degenerate boxes whose extents overlap
      on both axes have a defined IOU in (0, 1]. */
  lemma IouOfCrossing(d1: Detection, d2: Detection)
    requires d1.width > 0.0 && d1.height > 0.0 && d2.width > 0.0 && d2.height > 0.0
    requires Max(d1.xmin, d2.xmin) < Min(d1.xmin + d1.width, d2.xmin + d2.width)
    requires Max(d1.ymin, d2.ymin) < Min(d1.ymin + d1.height, d2.ymin + d2.height)
    ensures Intersect(DetectionToRect(d1), DetectionToRect(d2)) != EmptyRect
    ensures GetIou(d1, d2).Some? && 0.0 < GetIou(d1, d2).value <= 1.0
  {
    IouOfOverlap(d1, d2);
  }

  /** Two non-degenerate boxes have a bounding rectangle of positive area. */
  lemma BoundingAreaPositive(d1: Detection, d2: Detection)
    requires d1.width > 0.0 && d1.height > 0.0 && d2.width > 0.0 && d2.height > 0.0
    ensures Area(Bounding(DetectionToRect(d1), DetectionToRect(d2))) > 0.0
  {
    var outer := Bounding(DetectionToRect(d1), DetectionToRect(d2));
    PositiveProduct(outer.width, outer.height);
  }

  /** Without overlap, a defined IOU is 0. */
  lemma IouWithoutOverlap(d1: Detection, d2: Detection)
    ensures (Intersect(DetectionToRect(d1), DetectionToRect(d2)) == EmptyRect &&
             Area(Bounding(DetectionToRect(d1), DetectionToRect(d2))) != 0.0) ==> GetIou(d1, d2) == Some(0.0)
  {
    var outer := Bounding(DetectionToRect(d1), DetectionToRect(d2));
    if Area(outer) != 0.0 {
      QuotientOfZero(Area(outer));
    }
  }

  /** IOU is symmetric as long as one of the boxes is not degenerate. */
  lemma IouSymmetric(d1: Detection, d2: Detection)
    requires !IsEmpty(DetectionToRect(d1)) || !IsEmpty(DetectionToRect(d2))
    ensures GetIou(d1, d2) == GetIou(d2, d1)
  {
    var r1, r2 := DetectionToRect(d1), DetectionToRect(d2);
    assert Intersect(r1, r2) == Intersect(r2, r1);
    assert Bounding(r1, r2) == Bounding(r2, r1);
  }

  /** With two degenerate boxes the `|` operator keeps its second operand, so the
      IOU depends on the order of the arguments. */
  lemma IouAsymmetricWhenDegenerate()
    ensures GetIou(Detection(0.0, 0.0, 0.0, 0.0), Detection(0.0, 0.0, -1.0, -1.0)) == Some(0.0)
    ensures GetIou(Detection(0.0, 0.0, -1.0, -1.0), Detection(0.0, 0.0, 0.0, 0.0)) == None
  {
    var a, b := Rect(0.0, 0.0, 0.0, 0.0), Rect(0.0, 0.0, -1.0, -1.0);
    assert DetectionToRect(Detection(0.0, 0.0, 0.0, 0.0)) == a;
    assert DetectionToRect(Detection(0.0, 0.0, -1.0, -1.0)) == b;
    assert IsEmpty(a) && IsEmpty(b);
    assert Intersect(a, b) == EmptyRect && Intersect(b, a) == EmptyRect;
    assert Bounding(a, b) == b && Bounding(b, a) == a;
    assert Area(b) == 1.0 && Area(a) == 0.0 && Area(EmptyRect) == 0.0;
    var d1, d2 := Detection(0.0, 0.0, 0.0, 0.0), Detection(0.0, 0.0, -1.0, -1.0);
    assert GetIou(d1, d2) == Some(Area(EmptyRect) / Area(b));
    assert Area(EmptyRect) / Area(b) == 0.0;
  }
}
