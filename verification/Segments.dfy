/** Intersection of finite segments by orientation tests, and trajectories that cross a segment. */
module Segments {
  import opened Contracts

  const TOLERANCE: real := 0.000000001

  function Abs(x: real): real { if x >= 0.0 then x else -x }

  function MinR(a: real, b: real): real { if a <= b then a else b }

  function MaxR(a: real, b: real): real { if a >= b then a else b }

  /** Twice the signed area of the triangle p, q, r. */
  function Area(p: Point, q: Point, r: Point): real {
    (q.x - p.x) * (r.y - p.y) - (q.y - p.y) * (r.x - p.x)
  }

  function Orientation(p: Point, q: Point, r: Point, tolerance: real): int {
    var value := Area(p, q, r);
    if Abs(value) <= tolerance then 0 else if value > 0.0 then 1 else -1
  }

  predicate InBox(p: Point, a: Point, b: Point, tolerance: real) {
    && MinR(a.x, b.x) - tolerance <= p.x <= MaxR(a.x, b.x) + tolerance
    && MinR(a.y, b.y) - tolerance <= p.y <= MaxR(a.y, b.y) + tolerance
  }

  predicate PointOnSegment(p: Point, a: Point, b: Point, tolerance: real) {
    Orientation(p, a, b, tolerance) == 0 && InBox(p, a, b, tolerance)
  }

  predicate SegmentsIntersect(a1: Point, a2: Point, b1: Point, b2: Point, tolerance: real) {
    var o1, o2 := Orientation(a1, a2, b1, tolerance), Orientation(a1, a2, b2, tolerance);
    var o3, o4 := Orientation(b1, b2, a1, tolerance), Orientation(b1, b2, a2, tolerance);
    || (o1 * o2 < 0 && o3 * o4 < 0)
    || (o1 == 0 && PointOnSegment(b1, a1, a2, tolerance))
    || (o2 == 0 && PointOnSegment(b2, a1, a2, tolerance))
    || (o3 == 0 && PointOnSegment(a1, b1, b2, tolerance))
    || (o4 == 0 && PointOnSegment(a2, b1, b2, tolerance))
  }

  // ---------------------------------------------------------------- segments as sets of points

  function At(a: Point, b: Point, t: real): Point {
    Point(a.x + t * (b.x - a.x), a.y + t * (b.y - a.y))
  }

  /** p lies on the closed segment from a to b. */
  ghost predicate On(p: Point, a: Point, b: Point) {
    exists t: real :: 0.0 <= t <= 1.0 && p == At(a, b, t)
  }

  /** Where on the segment a point lies; at 0 and 1 it is an end. */
  lemma WhereOn(p: Point, a: Point, b: Point) returns (t: real)
    requires On(p, a, b)
    ensures 0.0 <= t <= 1.0 && p == At(a, b, t)
    ensures t == 0.0 ==> p == a
    ensures t == 1.0 ==> p == b
  {
    t :| 0.0 <= t <= 1.0 && p == At(a, b, t);
  }

  lemma Fraction(t: real, d: real)
    requires 0.0 <= t <= 1.0
    ensures d >= 0.0 ==> 0.0 <= t * d <= d
    ensures d <= 0.0 ==> d <= t * d <= 0.0
  {
  }

  /** Part of the way between two numbers lies between them. */
  lemma Between(a: real, b: real, t: real)
    requires 0.0 <= t <= 1.0
    ensures MinR(a, b) <= a + t * (b - a) <= MaxR(a, b)
  {
    var d := b - a;
    Fraction(t, d);
    assert t * (b - a) == t * d;
    assert MinR(a, b) <= a + t * d <= MaxR(a, b);
  }

  lemma Scale(t: real, d: real)
    requires d != 0.0
    requires if d > 0.0 then 0.0 <= t * d <= d else d <= t * d <= 0.0
    ensures 0.0 <= t <= 1.0
  {
    assert (1.0 - t) * d == d - t * d;
  }

  lemma Quotient(n: real, d: real) returns (t: real)
    requires d != 0.0 && if d > 0.0 then 0.0 <= n <= d else d <= n <= 0.0
    ensures 0.0 <= t <= 1.0 && t * d == n
  {
    t := n / d;
    assert t * d == n;
    Scale(t, d);
  }

  /** How far along a number lies between two different ones. */
  lemma Along(a: real, b: real, x: real) returns (t: real)
    requires a != b && MinR(a, b) <= x <= MaxR(a, b)
    ensures 0.0 <= t <= 1.0 && x - a == t * (b - a)
  {
    var d := b - a;
    t := Quotient(x - a, d);
    assert t * (b - a) == t * d;
  }

  lemma AreaOfCombination(a: Point, b: Point, t: real)
    ensures Area(At(a, b, t), a, b) == 0.0
  {
    var ux, uy := b.x - a.x, b.y - a.y;
    var p := At(a, b, t);
    assert a.x - p.x == -(t * ux) && a.y - p.y == -(t * uy);
    assert b.x - p.x == ux - t * ux && b.y - p.y == uy - t * uy;
    assert (t * ux) * uy == (t * uy) * ux;
    assert (t * ux) * (t * uy) == (t * uy) * (t * ux);
  }

  /** Where a point on a line stands, when the line is not vertical. */
  lemma LineMeets(ux: real, uy: real, px: real, py: real, t: real)
    requires ux != 0.0 && px == t * ux && ux * py - uy * px == 0.0
    ensures py == t * uy
  {
    assert ux * py == uy * (t * ux) == ux * (t * uy);
    assert ux * (py - t * uy) == 0.0;
  }

  lemma AreaFromFirst(p: Point, a: Point, b: Point)
    ensures Area(p, a, b) == (b.x - a.x) * (p.y - a.y) - (b.y - a.y) * (p.x - a.x)
  {
  }

  lemma PassesIsOn(p: Point, a: Point, b: Point)
    requires PointOnSegment(p, a, b, 0.0)
    ensures On(p, a, b)
  {
    AreaFromFirst(p, a, b);
    if a.x != b.x {
      var t := Along(a.x, b.x, p.x);
      LineMeets(b.x - a.x, b.y - a.y, p.x - a.x, p.y - a.y, t);
      assert p == At(a, b, t);
    } else if a.y != b.y {
      var t := Along(a.y, b.y, p.y);
      assert p.x == a.x && t * (b.x - a.x) == 0.0;
      assert p == At(a, b, t);
    } else {
      assert p == At(a, b, 0.0);
    }
  }

  lemma OnPasses(p: Point, a: Point, b: Point)
    requires On(p, a, b)
    ensures PointOnSegment(p, a, b, 0.0)
  {
    hide Area, On;
    var t := WhereOn(p, a, b);
    AreaOfCombination(a, b, t);
    Between(a.x, b.x, t);
    Between(a.y, b.y, t);
  }

  /** The exact test: a point passes it exactly when it lies on the segment. */
  lemma OnSegmentIsExact(p: Point, a: Point, b: Point)
    ensures PointOnSegment(p, a, b, 0.0) <==> On(p, a, b)
  {
    if PointOnSegment(p, a, b, 0.0) {
      PassesIsOn(p, a, b);
    }
    if On(p, a, b) {
      OnPasses(p, a, b);
    }
  }

  // ---------------------------------------------------------------- vectors

  function Minus(p: Point, q: Point): Point { Point(p.x - q.x, p.y - q.y) }

  function Cross(u: Point, v: Point): real { u.x * v.y - u.y * v.x }

  lemma CrossAdds(u: Point, v: Point, w: Point)
    ensures Cross(u, Point(v.x + w.x, v.y + w.y)) == Cross(u, v) + Cross(u, w)
    ensures Cross(u, Minus(v, w)) == Cross(u, v) - Cross(u, w)
    ensures Cross(u, v) == -Cross(v, u) && Cross(u, u) == 0.0
  {
  }

  /** The four orientations, from the edge vectors u and v and the offset w between the first ends. */
  lemma AreasAre(a1: Point, a2: Point, b1: Point, b2: Point)
    ensures var u, v, w := Minus(a2, a1), Minus(b2, b1), Minus(b1, a1);
            && Area(a1, a2, b1) == Cross(u, w) && Area(a1, a2, b2) == Cross(u, w) + Cross(u, v)
            && Area(b1, b2, a1) == Cross(w, v) && Area(b1, b2, a2) == Cross(w, v) - Cross(u, v)
  {
    var u, v, w := Minus(a2, a1), Minus(b2, b1), Minus(b1, a1);
    CrossAdds(u, w, v);
    assert Minus(b2, a1) == Point(w.x + v.x, w.y + v.y);
    CrossAdds(v, u, w);
    CrossAdds(v, w, w);
    assert Minus(a2, b1) == Minus(u, w) && Minus(a1, b1) == Point(-w.x, -w.y);
    assert Cross(v, Minus(a1, b1)) == -Cross(v, w);
    assert Cross(v, w) == -Cross(w, v) && Cross(v, u) == -Cross(u, v);
  }

  /** Cramer's rule, without the division. */
  lemma Cramer(u: Point, v: Point, w: Point)
    ensures Cross(u, v) * w.x - Cross(u, w) * v.x == Cross(w, v) * u.x
    ensures Cross(u, v) * w.y - Cross(u, w) * v.y == Cross(w, v) * u.y
  {
  }

  lemma Cancel(d: real, x: real)
    requires d != 0.0 && d * x == 0.0
    ensures x == 0.0
  {
  }

  lemma SolveCoordinate(d: real, d1: real, d3: real, s: real, t: real, u: real, v: real, w: real)
    requires d != 0.0 && t * d == -d1 && s * d == d3 && d * w - d1 * v == d3 * u
    ensures w + t * v == s * u
  {
    assert d * (t * v) == (t * d) * v == -d1 * v;
    assert d * (s * u) == (s * d) * u == d3 * u;
    Cancel(d, w + t * v - s * u);
  }

  /** If each segment has its ends strictly on both sides of the other, they share a point. */
  lemma ProperCrossing(a1: Point, a2: Point, b1: Point, b2: Point) returns (p: Point)
    requires (Area(a1, a2, b1) < 0.0 < Area(a1, a2, b2)) || (Area(a1, a2, b2) < 0.0 < Area(a1, a2, b1))
    requires (Area(b1, b2, a1) < 0.0 < Area(b1, b2, a2)) || (Area(b1, b2, a2) < 0.0 < Area(b1, b2, a1))
    ensures On(p, a1, a2) && On(p, b1, b2)
  {
    var u, v, w := Minus(a2, a1), Minus(b2, b1), Minus(b1, a1);
    AreasAre(a1, a2, b1, b2);
    var d, d1, d3 := Cross(u, v), Cross(u, w), Cross(w, v);
    var t := Quotient(-d1, d);
    var s := Quotient(d3, d);
    Cramer(u, v, w);
    SolveCoordinate(d, d1, d3, s, t, u.x, v.x, w.x);
    SolveCoordinate(d, d1, d3, s, t, u.y, v.y, w.y);
    p := At(a1, a2, s);
    assert p == At(b1, b2, t);
  }

  /** The orientations of two segments that share a point, from where on each it stands. */
  lemma SharedPoint(u: Point, v: Point, w: Point, s: real, t: real, d: real)
    requires w.x == s * u.x - t * v.x && w.y == s * u.y - t * v.y && d == Cross(u, v)
    ensures Cross(u, w) == -(t * d) && Cross(w, v) == s * d
  {
    assert u.x * (s * u.y) == u.y * (s * u.x);
    assert v.y * (t * v.x) == v.x * (t * v.y);
  }

  lemma Parallel(u: Point, v: Point) returns (l: real)
    requires Cross(u, v) == 0.0 && (u.x != 0.0 || u.y != 0.0)
    ensures v.x == l * u.x && v.y == l * u.y
  {
    if u.x != 0.0 {
      l := v.x / u.x;
      assert l * u.x == v.x;
      LineMeets(u.x, u.y, v.x, v.y, l);
    } else {
      l := v.y / u.y;
      assert l * u.y == v.y;
      Cancel(u.y, v.x);
    }
  }

  /** Two parallel segments with a common point: an end of one lies on the other. */
  lemma Overlapping(a1: Point, a2: Point, b1: Point, b2: Point, s: real, t: real)
    requires Cross(Minus(a2, a1), Minus(b2, b1)) == 0.0
    requires 0.0 <= s <= 1.0 && 0.0 <= t <= 1.0 && At(a1, a2, s) == At(b1, b2, t)
    ensures On(b1, a1, a2) || On(b2, a1, a2) || On(a1, b1, b2)
  {
    if a1 == a2 {
      OnBy(a1, b1, b2, t);
    } else {
      var u, v := Minus(a2, a1), Minus(b2, b1);
      var l := Parallel(u, v);
      OverlappingBy(a1, a2, b1, b2, s, t, l);
    }
  }

  /** The same when the second segment is l times the first. */
  lemma OverlappingBy(a1: Point, a2: Point, b1: Point, b2: Point, s: real, t: real, l: real)
    requires Minus(b2, b1).x == l * Minus(a2, a1).x && Minus(b2, b1).y == l * Minus(a2, a1).y
    requires 0.0 <= s <= 1.0 && 0.0 <= t <= 1.0 && At(a1, a2, s) == At(b1, b2, t)
    ensures On(b1, a1, a2) || On(b2, a1, a2) || On(a1, b1, b2)
  {
    hide At, On, Minus;
    var first := s - t * l;
    EndsAlong(a1, a2, b1, b2, s, t, l, first);
    Fraction(t, l);
    if 0.0 <= first <= 1.0 {
      OnBy(b1, a1, a2, first);
    } else if 0.0 <= first + l <= 1.0 {
      OnBy(b2, a1, a2, first + l);
    } else {
      var back := Quotient(-first, l);
      BackAlong(a1, a2, b1, b2, l, first, back);
      OnBy(a1, b1, b2, back);
    }
  }

  lemma OnBy(p: Point, a: Point, b: Point, t: real)
    requires 0.0 <= t <= 1.0 && p == At(a, b, t)
    ensures On(p, a, b)
  {
  }

  /** Where the ends of the second segment lie along the first, which l times over is the second. */
  lemma EndsAlong(a1: Point, a2: Point, b1: Point, b2: Point, s: real, t: real, l: real, first: real)
    requires At(a1, a2, s) == At(b1, b2, t) && first == s - t * l
    requires Minus(b2, b1).x == l * Minus(a2, a1).x && Minus(b2, b1).y == l * Minus(a2, a1).y
    ensures b1 == At(a1, a2, first) && b2 == At(a1, a2, first + l)
  {
    SameCoordinates(a1, a2, b1, b2, s, t);
    var u := Minus(a2, a1);
    AlongOne(a1.x, b1.x, b2.x, u.x, s, t, l, first);
    AlongOne(a1.y, b1.y, b2.y, u.y, s, t, l, first);
  }

  lemma SameCoordinates(a1: Point, a2: Point, b1: Point, b2: Point, s: real, t: real)
    requires At(a1, a2, s) == At(b1, b2, t)
    ensures a1.x + s * Minus(a2, a1).x == b1.x + t * (b2.x - b1.x)
    ensures a1.y + s * Minus(a2, a1).y == b1.y + t * (b2.y - b1.y)
  {
  }

  lemma AlongOne(a: real, b: real, b': real, u: real, s: real, t: real, l: real, first: real)
    requires a + s * u == b + t * (b' - b) && first == s - t * l && b' - b == l * u
    ensures b == a + first * u && b' == a + (first + l) * u
  {
    assert t * (l * u) == (t * l) * u;
    assert first * u == s * u - (t * l) * u;
    assert (first + l) * u == first * u + l * u;
  }

  /** Where the start of the first lies along the second. */
  lemma BackAlong(a1: Point, a2: Point, b1: Point, b2: Point, l: real, first: real, back: real)
    requires b1 == At(a1, a2, first) && back * l == -first
    requires Minus(b2, b1).x == l * Minus(a2, a1).x && Minus(b2, b1).y == l * Minus(a2, a1).y
    ensures a1 == At(b1, b2, back)
  {
    var u := Minus(a2, a1);
    assert back * (l * u.x) == (back * l) * u.x && back * (l * u.y) == (back * l) * u.y;
  }

  lemma Turns(p: Point, q: Point, r: Point)
    ensures Area(p, q, r) == Area(r, p, q)
    ensures Orientation(p, q, r, 0.0) == 0 <==> Area(p, q, r) == 0.0
    ensures Orientation(p, q, r, 0.0) > 0 <==> Area(p, q, r) > 0.0
  {
  }

  /** With an end of one on the other, the test finds it. */
  lemma TouchingIntersects(a1: Point, a2: Point, b1: Point, b2: Point)
    requires On(b1, a1, a2) || On(b2, a1, a2) || On(a1, b1, b2) || On(a2, b1, b2)
    ensures SegmentsIntersect(a1, a2, b1, b2, 0.0)
  {
    Turns(a1, a2, b1);
    Turns(a1, a2, b2);
    Turns(b1, b2, a1);
    Turns(b1, b2, a2);
    OnSegmentIsExact(b1, a1, a2);
    OnSegmentIsExact(b2, a1, a2);
    OnSegmentIsExact(a1, b1, b2);
    OnSegmentIsExact(a2, b1, b2);
  }

  lemma SignOfProduct(x: real, y: real)
    requires x > 0.0
    ensures y > 0.0 ==> x * y > 0.0
    ensures y < 0.0 ==> x * y < 0.0
  {
  }

  lemma RestOfProduct(t: real, r: real, d: real, td: real, rd: real)
    requires r == 1.0 - t && td == t * d && rd == r * d
    ensures rd == d - td
  {
  }

  lemma FractionStrictly(t: real, d: real, td: real)
    requires 0.0 < t < 1.0 && td == t * d
    ensures d > 0.0 ==> 0.0 < td < d
    ensures d < 0.0 ==> d < td < 0.0
  {
    var r := 1.0 - t;
    var rd := r * d;
    SignOfProduct(t, d);
    SignOfProduct(r, d);
    RestOfProduct(t, r, d, td, rd);
  }

  lemma SignsCross(a1: Point, a2: Point, b1: Point, b2: Point)
    requires (Area(a1, a2, b1) < 0.0 < Area(a1, a2, b2)) || (Area(a1, a2, b2) < 0.0 < Area(a1, a2, b1))
    requires (Area(b1, b2, a1) < 0.0 < Area(b1, b2, a2)) || (Area(b1, b2, a2) < 0.0 < Area(b1, b2, a1))
    ensures SegmentsIntersect(a1, a2, b1, b2, 0.0)
  {
    Turns(a1, a2, b1);
    Turns(a1, a2, b2);
    Turns(b1, b2, a1);
    Turns(b1, b2, a2);
  }

  /** A point inside both segments, which are not parallel, makes the crossing proper. */
  lemma InteriorIntersects(a1: Point, a2: Point, b1: Point, b2: Point, s: real, t: real)
    requires 0.0 < s < 1.0 && 0.0 < t < 1.0 && At(a1, a2, s) == At(b1, b2, t)
    requires Cross(Minus(a2, a1), Minus(b2, b1)) != 0.0
    ensures SegmentsIntersect(a1, a2, b1, b2, 0.0)
  {
    var u, v, w := Minus(a2, a1), Minus(b2, b1), Minus(b1, a1);
    var d := Cross(u, v);
    AreasAre(a1, a2, b1, b2);
    SharedPoint(u, v, w, s, t, d);
    FractionStrictly(s, d, Cross(w, v));
    FractionStrictly(t, d, -Cross(u, w));
    SignsCross(a1, a2, b1, b2);
  }

  lemma SharedIntersects(a1: Point, a2: Point, b1: Point, b2: Point, p: Point)
    requires On(p, a1, a2) && On(p, b1, b2)
    ensures SegmentsIntersect(a1, a2, b1, b2, 0.0)
  {
    hide SegmentsIntersect, On, At, Cross;
    var s := WhereOn(p, a1, a2);
    var t := WhereOn(p, b1, b2);
    if Cross(Minus(a2, a1), Minus(b2, b1)) == 0.0 {
      Overlapping(a1, a2, b1, b2, s, t);
      TouchingIntersects(a1, a2, b1, b2);
    } else if 0.0 < s < 1.0 && 0.0 < t < 1.0 {
      InteriorIntersects(a1, a2, b1, b2, s, t);
    } else {
      assert p == a1 || p == a2 || p == b1 || p == b2;
      TouchingIntersects(a1, a2, b1, b2);
    }
  }

  lemma IntersectingShares(a1: Point, a2: Point, b1: Point, b2: Point) returns (p: Point)
    requires SegmentsIntersect(a1, a2, b1, b2, 0.0)
    ensures On(p, a1, a2) && On(p, b1, b2)
  {
    EndsAreOn(a1, a2);
    EndsAreOn(b1, b2);
    Turns(a1, a2, b1);
    Turns(a1, a2, b2);
    Turns(b1, b2, a1);
    Turns(b1, b2, a2);
    if PointOnSegment(b1, a1, a2, 0.0) {
      OnSegmentIsExact(b1, a1, a2);
      p := b1;
    } else if PointOnSegment(b2, a1, a2, 0.0) {
      OnSegmentIsExact(b2, a1, a2);
      p := b2;
    } else if PointOnSegment(a1, b1, b2, 0.0) {
      OnSegmentIsExact(a1, b1, b2);
      p := a1;
    } else if PointOnSegment(a2, b1, b2, 0.0) {
      OnSegmentIsExact(a2, b1, b2);
      p := a2;
    } else {
      p := ProperCrossing(a1, a2, b1, b2);
    }
  }

  lemma EndsAreOn(a: Point, b: Point)
    ensures On(a, a, b) && On(b, a, b)
  {
    assert a == At(a, b, 0.0) && b == At(a, b, 1.0);
  }

  // ---------------------------------------------------------------- main results

  /** The exact test holds exactly when the two closed segments share a point, collinear and
      degenerate segments included. */
  lemma IntersectionIsExact(a1: Point, a2: Point, b1: Point, b2: Point)
    ensures SegmentsIntersect(a1, a2, b1, b2, 0.0) <==> exists p :: On(p, a1, a2) && On(p, b1, b2)
  {
    if SegmentsIntersect(a1, a2, b1, b2, 0.0) {
      var p := IntersectingShares(a1, a2, b1, b2);
    }
    if p :| On(p, a1, a2) && On(p, b1, b2) {
      SharedIntersects(a1, a2, b1, b2, p);
    }
  }

  datatype SegmentError = NotTwoEndpoints | SameEndpoints

  function ValidateSegment(segment: seq<Point>): (r: Result<(Point, Point), SegmentError>)
    ensures r.Ok? <==> |segment| == 2 && segment[0] != segment[1]
    ensures r.Ok? ==> segment == [r.value.0, r.value.1]
  {
    if |segment| != 2 then Err(NotTwoEndpoints)
    else if segment[0].x == segment[1].x && segment[0].y == segment[1].y then Err(SameEndpoints)
    else Ok((segment[0], segment[1]))
  }

  /** Edge i of a trajectory meets the segment. */
  predicate EdgeMeets(trajectory: seq<Point>, i: nat, segment: (Point, Point))
    requires i + 1 < |trajectory|
  {
    SegmentsIntersect(trajectory[i], trajectory[i + 1], segment.0, segment.1, TOLERANCE)
  }

  predicate Crosses(trajectory: seq<Point>, segment: (Point, Point)) {
    exists i :: 0 <= i < |trajectory| - 1 && EdgeMeets(trajectory, i, segment)
  }

  /** The edges among the first n that meet the segment, in order. */
  function CrossingEdges(trajectory: seq<Point>, segment: (Point, Point), n: nat): seq<(nat, nat)>
    requires n == 0 || n < |trajectory|
  {
    if n == 0 then []
    else CrossingEdges(trajectory, segment, n - 1) + (if EdgeMeets(trajectory, n - 1, segment) then [(n - 1, n)] else [])
  }

  function EdgeCount(trajectory: seq<Point>): nat {
    if |trajectory| == 0 then 0 else |trajectory| - 1
  }

  method TrajectoryCrossesSegment(trajectory: seq<Point>, segment: seq<Point>) returns (r: Result<bool, SegmentError>)
    ensures var valid := ValidateSegment(segment);
            r == if valid.Err? then Err(valid.error) else Ok(Crosses(trajectory, valid.value))
  {
    var valid := ValidateSegment(segment);
    if valid.Err? {
      return Err(valid.error);
    }
    if |trajectory| < 2 {
      return Ok(false);
    }
    for i := 0 to |trajectory| - 1
      invariant forall k :: 0 <= k < i ==> !EdgeMeets(trajectory, k, valid.value)
    {
      if EdgeMeets(trajectory, i, valid.value) {
        return Ok(true);
      }
    }
    r := Ok(false);
  }

  method CrossingSegmentIndices(trajectory: seq<Point>, segment: seq<Point>) returns (r: Result<seq<(nat, nat)>, SegmentError>)
    ensures var valid := ValidateSegment(segment);
            r == if valid.Err? then Err(valid.error)
                 else Ok(CrossingEdges(trajectory, valid.value, EdgeCount(trajectory)))
  {
    var valid := ValidateSegment(segment);
    if valid.Err? {
      return Err(valid.error);
    }
    var result: seq<(nat, nat)> := [];
    for i := 0 to EdgeCount(trajectory)
      invariant result == CrossingEdges(trajectory, valid.value, i)
    {
      if EdgeMeets(trajectory, i, valid.value) {
        result := result + [(i, i + 1)];
      }
    }
    r := Ok(result);
  }

  /** The list holds exactly the edges that meet the segment, in increasing order. */
  lemma {:induction false} EdgesAreListed(trajectory: seq<Point>, segment: (Point, Point), n: nat)
    requires n == 0 || n < |trajectory|
    ensures forall e :: e in CrossingEdges(trajectory, segment, n) <==>
              e.1 == e.0 + 1 && e.0 < n && EdgeMeets(trajectory, e.0, segment)
    ensures forall a, b :: 0 <= a < b < |CrossingEdges(trajectory, segment, n)| ==>
              CrossingEdges(trajectory, segment, n)[a].0 < CrossingEdges(trajectory, segment, n)[b].0
  {
    if n > 0 {
      EdgesAreListed(trajectory, segment, n - 1);
      var before := CrossingEdges(trajectory, segment, n - 1);
      forall a | 0 <= a < |before| ensures before[a].0 < n - 1 {
        assert before[a] in before;
      }
    }
  }

  /** A trajectory crosses a segment exactly when some edge is listed. */
  lemma CrossesIffListed(trajectory: seq<Point>, segment: (Point, Point))
    ensures Crosses(trajectory, segment) <==> CrossingEdges(trajectory, segment, EdgeCount(trajectory)) != []
  {
    var edges := CrossingEdges(trajectory, segment, EdgeCount(trajectory));
    EdgesAreListed(trajectory, segment, EdgeCount(trajectory));
    if edges != [] {
      assert edges[0] in edges;
    }
    if i :| 0 <= i < |trajectory| - 1 && EdgeMeets(trajectory, i, segment) {
      assert (i, i + 1) in edges;
    }
  }

  // ---------------------------------------------------------------- the common point

  function Denominator(a1: Point, a2: Point, b1: Point, b2: Point): real {
    (a1.x - a2.x) * (b1.y - b2.y) - (a1.y - a2.y) * (b1.x - b2.x)
  }

  function NumeratorX(a1: Point, a2: Point, b1: Point, b2: Point): real {
    (a1.x * a2.y - a1.y * a2.x) * (b1.x - b2.x) - (a1.x - a2.x) * (b1.x * b2.y - b1.y * b2.x)
  }

  function NumeratorY(a1: Point, a2: Point, b1: Point, b2: Point): real {
    (a1.x * a2.y - a1.y * a2.x) * (b1.y - b2.y) - (a1.y - a2.y) * (b1.x * b2.y - b1.y * b2.x)
  }

  /** The common point, unless the segments are parallel or do not meet. */
  function IntersectionPoint(a1: Point, a2: Point, b1: Point, b2: Point, tolerance: real): Option<Point>
    requires tolerance >= 0.0
  {
    var denominator := Denominator(a1, a2, b1, b2);
    if !SegmentsIntersect(a1, a2, b1, b2, tolerance) || Abs(denominator) <= tolerance then None
    else Some(Point(NumeratorX(a1, a2, b1, b2) / denominator, NumeratorY(a1, a2, b1, b2) / denominator))
  }

  /** The formula's numerator is the one of Cramer's rule. */
  lemma Numerator(x1: real, y1: real, ux: real, uy: real, x3: real, y3: real, vx: real, vy: real)
    ensures (x1 * (y1 + uy) - y1 * (x1 + ux)) * -vx - -ux * (x3 * (y3 + vy) - y3 * (x3 + vx)) ==
            (ux * vy - uy * vx) * x1 + ((x3 - x1) * vy - (y3 - y1) * vx) * ux
    ensures (x1 * (y1 + uy) - y1 * (x1 + ux)) * -vy - -uy * (x3 * (y3 + vy) - y3 * (x3 + vx)) ==
            (ux * vy - uy * vx) * y1 + ((x3 - x1) * vy - (y3 - y1) * vx) * uy
  {
  }

  lemma Commutes(d: real, s: real, u: real, su: real, sd: real)
    requires su == s * u && sd == s * d
    ensures d * su == sd * u
  {
  }

  lemma OffsetAt(a: Point, b: Point, s: real)
    ensures At(a, b, s).x - a.x == s * Minus(b, a).x && At(a, b, s).y - a.y == s * Minus(b, a).y
  {
  }

  lemma OffsetsAt(a1: Point, a2: Point, b1: Point, b2: Point, s: real, t: real)
    requires At(a1, a2, s) == At(b1, b2, t)
    ensures var u, v, w := Minus(a2, a1), Minus(b2, b1), Minus(b1, a1);
            w.x == s * u.x - t * v.x && w.y == s * u.y - t * v.y
  {
    OffsetAt(a1, a2, s);
    OffsetAt(b1, b2, t);
  }

  /** Points shared by two segments solve Cramer's equations. */
  lemma SharedSolves(a1: Point, a2: Point, b1: Point, b2: Point, p: Point, d: real, d3: real)
    requires On(p, a1, a2) && On(p, b1, b2)
    requires d == Cross(Minus(a2, a1), Minus(b2, b1)) && d3 == Cross(Minus(b1, a1), Minus(b2, b1))
    ensures d * (p.x - a1.x) == d3 * Minus(a2, a1).x
    ensures d * (p.y - a1.y) == d3 * Minus(a2, a1).y
  {
    var s: real :| 0.0 <= s <= 1.0 && p == At(a1, a2, s);
    var t: real :| 0.0 <= t <= 1.0 && p == At(b1, b2, t);
    SolvesAt(a1, a2, b1, b2, s, t, d, d3);
  }

  lemma SolvesAt(a1: Point, a2: Point, b1: Point, b2: Point, s: real, t: real, d: real, d3: real)
    requires At(a1, a2, s) == At(b1, b2, t)
    requires d == Cross(Minus(a2, a1), Minus(b2, b1)) && d3 == Cross(Minus(b1, a1), Minus(b2, b1))
    ensures d * (At(a1, a2, s).x - a1.x) == d3 * Minus(a2, a1).x
    ensures d * (At(a1, a2, s).y - a1.y) == d3 * Minus(a2, a1).y
  {
    var u := Minus(a2, a1);
    OffsetsAt(a1, a2, b1, b2, s, t);
    OffsetAt(a1, a2, s);
    SharedPoint(u, Minus(b2, b1), Minus(b1, a1), s, t, d);
    Commutes(d, s, u.x, At(a1, a2, s).x - a1.x, d3);
    Commutes(d, s, u.y, At(a1, a2, s).y - a1.y, d3);
  }

  lemma OneSolution(d: real, x: real, y: real)
    requires d != 0.0 && d * x == d * y
    ensures x == y
  {
    Cancel(d, x - y);
  }

  /** Two segments that are not parallel share at most one point. */
  lemma SharedIsUnique(a1: Point, a2: Point, b1: Point, b2: Point, p: Point, q: Point)
    requires On(p, a1, a2) && On(p, b1, b2) && On(q, a1, a2) && On(q, b1, b2)
    requires Cross(Minus(a2, a1), Minus(b2, b1)) != 0.0
    ensures p == q
  {
    var d, d3 := Cross(Minus(a2, a1), Minus(b2, b1)), Cross(Minus(b1, a1), Minus(b2, b1));
    SharedSolves(a1, a2, b1, b2, p, d, d3);
    SharedSolves(a1, a2, b1, b2, q, d, d3);
    SameSolution(d, d3, Minus(a2, a1), a1, p, q);
  }

  lemma SameSolution(d: real, d3: real, u: Point, a: Point, p: Point, q: Point)
    requires d != 0.0
    requires d * (p.x - a.x) == d3 * u.x && d * (p.y - a.y) == d3 * u.y
    requires d * (q.x - a.x) == d3 * u.x && d * (q.y - a.y) == d3 * u.y
    ensures p == q
  {
    OneSolution(d, p.x - a.x, q.x - a.x);
    OneSolution(d, p.y - a.y, q.y - a.y);
  }

  lemma TimesQuotient(n: real, d: real)
    requires d != 0.0
    ensures d * (n / d) == n
  {
  }

  /** One coordinate of the formula. */
  lemma FormulaCoordinate(d: real, numerator: real, q: real, a: real, d3: real, u: real)
    requires d != 0.0 && q == numerator / d && numerator == d * a + d3 * u
    ensures d * (q - a) == d3 * u
  {
    TimesQuotient(numerator, d);
    assert d * (q - a) == d * q - d * a;
  }

  lemma DenominatorIs(a1: Point, a2: Point, b1: Point, b2: Point)
    ensures Denominator(a1, a2, b1, b2) == Cross(Minus(a2, a1), Minus(b2, b1))
  {
  }

  lemma NumeratorsAre(a1: Point, a2: Point, b1: Point, b2: Point, d: real, d3: real)
    requires d == Cross(Minus(a2, a1), Minus(b2, b1)) && d3 == Cross(Minus(b1, a1), Minus(b2, b1))
    ensures NumeratorX(a1, a2, b1, b2) == d * a1.x + d3 * Minus(a2, a1).x
    ensures NumeratorY(a1, a2, b1, b2) == d * a1.y + d3 * Minus(a2, a1).y
  {
    Numerator(a1.x, a1.y, a2.x - a1.x, a2.y - a1.y, b1.x, b1.y, b2.x - b1.x, b2.y - b1.y);
  }

  lemma FormulaSolves(a: Point, u: Point, q: Point, nx: real, ny: real, d: real, d3: real)
    requires d != 0.0 && q == Point(nx / d, ny / d)
    requires nx == d * a.x + d3 * u.x && ny == d * a.y + d3 * u.y
    ensures d * (q.x - a.x) == d3 * u.x && d * (q.y - a.y) == d3 * u.y
  {
    FormulaCoordinate(d, nx, q.x, a.x, d3, u.x);
    FormulaCoordinate(d, ny, q.y, a.y, d3, u.y);
  }

  /** The computed point is the shared one. */
  lemma FormulaIsShared(a1: Point, a2: Point, b1: Point, b2: Point, p: Point)
    requires On(p, a1, a2) && On(p, b1, b2) && Denominator(a1, a2, b1, b2) != 0.0
    ensures p == Point(NumeratorX(a1, a2, b1, b2) / Denominator(a1, a2, b1, b2),
                       NumeratorY(a1, a2, b1, b2) / Denominator(a1, a2, b1, b2))
  {
    var d, d3 := Denominator(a1, a2, b1, b2), Cross(Minus(b1, a1), Minus(b2, b1));
    var nx, ny, u := NumeratorX(a1, a2, b1, b2), NumeratorY(a1, a2, b1, b2), Minus(a2, a1);
    DenominatorIs(a1, a2, b1, b2);
    NumeratorsAre(a1, a2, b1, b2, d, d3);
    FormulaSolves(a1, u, Point(nx / d, ny / d), nx, ny, d, d3);
    SharedSolves(a1, a2, b1, b2, p, d, d3);
    SameSolution(d, d3, u, a1, p, Point(nx / d, ny / d));
  }

  /** The computed point is the one point two segments share; there is none exactly when they share
      nothing or are parallel. */
  lemma IntersectionPointIsShared(a1: Point, a2: Point, b1: Point, b2: Point, p: Point)
    ensures IntersectionPoint(a1, a2, b1, b2, 0.0) == Some(p) <==>
            On(p, a1, a2) && On(p, b1, b2) && Denominator(a1, a2, b1, b2) != 0.0
  {
    if On(p, a1, a2) && On(p, b1, b2) && Denominator(a1, a2, b1, b2) != 0.0 {
      SharedIntersects(a1, a2, b1, b2, p);
      FormulaIsShared(a1, a2, b1, b2, p);
    }
    if IntersectionPoint(a1, a2, b1, b2, 0.0) == Some(p) {
      var shared := IntersectingShares(a1, a2, b1, b2);
      FormulaIsShared(a1, a2, b1, b2, shared);
    }
  }
}
