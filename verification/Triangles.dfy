/** The ray-casting test on triangles against an independent reference: the three orientations. */
module Triangles {
  import opened Contracts
  import opened Segments
  import opened Polygons

  /** p sees the three vertices in one strict turning direction. */
  predicate StrictlyInside(p: Point, a: Point, b: Point, c: Point) {
    || (Area(p, a, b) > 0.0 && Area(p, b, c) > 0.0 && Area(p, c, a) > 0.0)
    || (Area(p, a, b) < 0.0 && Area(p, b, c) < 0.0 && Area(p, c, a) < 0.0)
  }

  predicate OnOutline(p: Point, a: Point, b: Point, c: Point) {
    PointOnSegment(p, a, b, 0.0) || PointOnSegment(p, b, c, 0.0) || PointOnSegment(p, c, a, 0.0)
  }

  // ---------------------------------------------------------------- one edge

  lemma MeetsFromArea(p: Point, a: Point, b: Point, dy: real, area: real, gap: real)
    requires a.y != b.y && dy == b.y - a.y && area == Area(p, a, b) && gap == MeetsAt(p, (a, b)) - p.x
    ensures gap * dy == area
  {
    var q, h, dx := MeetsAt(p, (a, b)), p.y - a.y, b.x - a.x;
    SolveMeets(a.x, h, dx, dy, q);
    assert gap * dy == q * dy - p.x * dy;
    Expand(p.x, p.y, a.x, a.y, b.x, b.y);
  }

  lemma Expand(px: real, py: real, ax: real, ay: real, bx: real, by': real)
    ensures ax * (by' - ay) + (py - ay) * (bx - ax) - px * (by' - ay) == (ax - px) * (by' - py) - (ay - py) * (bx - px)
  {
  }

  lemma SignOfGap(gap: real, dy: real, area: real)
    requires dy != 0.0 && gap * dy == area
    ensures dy > 0.0 ==> (gap > 0.0 <==> area > 0.0)
    ensures dy < 0.0 ==> (gap > 0.0 <==> area < 0.0)
    ensures gap == 0.0 <==> area == 0.0
  {
  }

  /** A straddling edge crosses the ray exactly when it turns the right way round the point. */
  lemma CrossesMeans(p: Point, a: Point, b: Point)
    requires Straddles(p, (a, b))
    ensures CrossesRay(p, (a, b)) <==> if Above(p, b) then Area(p, a, b) > 0.0 else Area(p, a, b) < 0.0
    ensures Area(p, a, b) == 0.0 ==> PointOnSegment(p, a, b, 0.0)
  {
    var gap := MeetsAt(p, (a, b)) - p.x;
    MeetsFromArea(p, a, b, b.y - a.y, Area(p, a, b), gap);
    SignOfGap(gap, b.y - a.y, Area(p, a, b));
    MeetsBetween(p, (a, b));
  }

  // ---------------------------------------------------------------- three edges

  lemma Plucker(ax: real, ay: real, bx: real, by': real, cx: real, cy: real)
    ensures (ax * by' - ay * bx) * cy + (bx * cy - by' * cx) * ay + (cx * ay - cy * ax) * by' == 0.0
  {
  }

  /** The heights of the vertices over the point, weighted with the opposite orientations, cancel. */
  lemma HeightsCancel(p: Point, a: Point, b: Point, c: Point, x: real, y: real, z: real, ha: real, hb: real, hc: real)
    requires x == Area(p, a, b) && y == Area(p, b, c) && z == Area(p, c, a)
    requires ha == a.y - p.y && hb == b.y - p.y && hc == c.y - p.y
    ensures x * hc + y * ha + z * hb == 0.0
  {
    Plucker(a.x - p.x, ha, b.x - p.x, hb, c.x - p.x, hc);
  }

  lemma ProductSigns(x: real, h: real)
    ensures x > 0.0 && h > 0.0 ==> x * h > 0.0
    ensures x > 0.0 && h <= 0.0 ==> x * h <= 0.0
    ensures x < 0.0 && h > 0.0 ==> x * h < 0.0
    ensures x < 0.0 && h <= 0.0 ==> x * h >= 0.0
    ensures x > 0.0 && h < 0.0 ==> x * h < 0.0
    ensures x < 0.0 && h < 0.0 ==> x * h > 0.0
    ensures x != 0.0 && x * h == 0.0 ==> h == 0.0
  {
  }

  /** With all vertices on one side, no point of that line is inside. */
  lemma SameSide(x: real, y: real, z: real, ha: real, hb: real, hc: real)
    requires x * hc + y * ha + z * hb == 0.0
    requires (ha > 0.0 && hb > 0.0 && hc > 0.0) || (ha <= 0.0 && hb <= 0.0 && hc <= 0.0)
    requires x > 0.0 && y > 0.0 && z > 0.0
    ensures ha == 0.0 && hb == 0.0 && hc == 0.0
  {
    ProductSigns(x, hc);
    ProductSigns(y, ha);
    ProductSigns(z, hb);
  }

  /** If the turns at the first vertex, which is alone on its side, agree, the third turn does too,
      unless the other two vertices are level with the point. */
  lemma ThirdAgrees(x: real, y: real, z: real, ha: real, hb: real, hc: real)
    requires x * hc + y * ha + z * hb == 0.0 && x > 0.0 && z > 0.0
    ensures ha > 0.0 && hb <= 0.0 && hc <= 0.0 ==> y >= 0.0 && (y == 0.0 ==> hb == 0.0 && hc == 0.0)
    ensures ha <= 0.0 && hb > 0.0 && hc > 0.0 ==> y > 0.0
  {
    ProductSigns(x, hc);
    ProductSigns(z, hb);
    ProductSigns(y, ha);
  }

  lemma Negated(x: real, y: real, z: real, ha: real, hb: real, hc: real)
    requires x * hc + y * ha + z * hb == 0.0
    ensures -x * hc + -y * ha + -z * hb == 0.0
  {
  }

  /** Two vertices level with the point, turned to the same side from the third, have it between them. */
  lemma LevelIsOn(p: Point, a: Point, b: Point, c: Point)
    requires a.y != p.y && b.y == p.y && c.y == p.y
    requires (Area(p, a, b) > 0.0 && Area(p, c, a) > 0.0) || (Area(p, a, b) < 0.0 && Area(p, c, a) < 0.0)
    ensures PointOnSegment(p, b, c, 0.0)
  {
    var h, u, v := a.y - p.y, b.x - p.x, c.x - p.x;
    LevelAreas(p, a, b, c, h, u, v);
    ProductSides(h, u, v);
  }

  lemma LevelAreas(p: Point, a: Point, b: Point, c: Point, h: real, u: real, v: real)
    requires b.y == p.y && c.y == p.y && h == a.y - p.y && u == b.x - p.x && v == c.x - p.x
    ensures Area(p, a, b) == -(h * u) && Area(p, c, a) == h * v && Area(p, b, c) == 0.0
  {
    assert (a.x - p.x) * (b.y - p.y) == 0.0 && (c.y - p.y) * (a.x - p.x) == 0.0;
    assert (b.x - p.x) * (c.y - p.y) == 0.0 && (b.y - p.y) * (c.x - p.x) == 0.0;
  }

  lemma ProductSides(h: real, u: real, v: real)
    requires h != 0.0
    ensures -(h * u) > 0.0 && h * v > 0.0 ==> u < 0.0 < v || v < 0.0 < u
    ensures -(h * u) < 0.0 && h * v < 0.0 ==> u < 0.0 < v || v < 0.0 < u
  {
    if h > 0.0 {
      ProductSigns(h, u);
      ProductSigns(h, v);
    } else {
      ProductSigns(h, u);
      ProductSigns(h, v);
    }
  }

  /** The third turn follows from the two at the vertex that is alone on its side. */
  lemma ThirdTurn(p: Point, a: Point, b: Point, c: Point)
    requires Above(p, a) != Above(p, b) && Above(p, b) == Above(p, c) && !OnOutline(p, a, b, c)
    ensures Area(p, a, b) > 0.0 && Area(p, c, a) > 0.0 ==> Area(p, b, c) > 0.0
    ensures Area(p, a, b) < 0.0 && Area(p, c, a) < 0.0 ==> Area(p, b, c) < 0.0
  {
    var x, y, z := Area(p, a, b), Area(p, b, c), Area(p, c, a);
    var ha, hb, hc := a.y - p.y, b.y - p.y, c.y - p.y;
    HeightsCancel(p, a, b, c, x, y, z, ha, hb, hc);
    if x > 0.0 && z > 0.0 {
      ThirdAgrees(x, y, z, ha, hb, hc);
      if y == 0.0 {
        LevelIsOn(p, a, b, c);
      }
    } else if x < 0.0 && z < 0.0 {
      Negated(x, y, z, ha, hb, hc);
      ThirdAgrees(-x, -y, -z, ha, hb, hc);
      if y == 0.0 {
        LevelIsOn(p, a, b, c);
      }
    }
  }

  function OddOf(p: Point, a: Point, b: Point, c: Point): bool {
    (CrossesRay(p, (a, b)) != CrossesRay(p, (b, c))) != CrossesRay(p, (c, a))
  }

  /** One vertex alone on its side of the ray's line. */
  lemma AloneIsExact(p: Point, a: Point, b: Point, c: Point)
    requires Above(p, a) != Above(p, b) && Above(p, b) == Above(p, c) && !OnOutline(p, a, b, c)
    ensures OddOf(p, a, b, c) <==> StrictlyInside(p, a, b, c)
  {
    CrossesMeans(p, a, b);
    CrossesMeans(p, c, a);
    ThirdTurn(p, a, b, c);
  }

  /** All three on one side. */
  lemma TogetherIsExact(p: Point, a: Point, b: Point, c: Point)
    requires Above(p, a) == Above(p, b) == Above(p, c)
    ensures !OddOf(p, a, b, c) && !StrictlyInside(p, a, b, c)
  {
    var x, y, z := Area(p, a, b), Area(p, b, c), Area(p, c, a);
    var ha, hb, hc := a.y - p.y, b.y - p.y, c.y - p.y;
    HeightsCancel(p, a, b, c, x, y, z, ha, hb, hc);
    if StrictlyInside(p, a, b, c) {
      if x > 0.0 {
        SameSide(x, y, z, ha, hb, hc);
      } else {
        Negated(x, y, z, ha, hb, hc);
        SameSide(-x, -y, -z, ha, hb, hc);
      }
      LevelArea(p, a, b);
    }
  }

  lemma LevelArea(p: Point, a: Point, b: Point)
    requires a.y == p.y && b.y == p.y
    ensures Area(p, a, b) == 0.0
  {
  }

  lemma ThreeEdges(p: Point, a: Point, b: Point, c: Point)
    ensures Edges([a, b, c]) == [(a, b), (b, c), (c, a)]
    ensures OddCrossings(p, Edges([a, b, c])) == OddOf(p, a, b, c)
  {
    var es := Edges([a, b, c]);
    assert es == [(a, b), (b, c), (c, a)];
    assert es[..0] == [] && es[..3] == es;
    CrossingsNext(p, es, 0);
    CrossingsNext(p, es, 1);
    CrossingsNext(p, es, 2);
  }

  lemma OutlineIsBoundary(p: Point, a: Point, b: Point, c: Point)
    ensures OnBoundary(p, Edges([a, b, c]), 0.0) <==> OnOutline(p, a, b, c)
  {
    ThreeEdges(p, a, b, c);
    var es := Edges([a, b, c]);
    assert es[0] == (a, b) && es[1] == (b, c) && es[2] == (c, a);
  }

  /** For a triangle of any shape and direction the exact test is right: a point on its outline follows
      the policy, any other is inside exactly when it sees the vertices in one strict turning direction. */
  lemma TriangleIsExact(p: Point, a: Point, b: Point, c: Point, policy: BoundaryPolicy)
    ensures InPolygon(p, [a, b, c], policy, 0.0) ==
            Ok(if On(p, a, b) || On(p, b, c) || On(p, c, a) then policy == Inside else StrictlyInside(p, a, b, c))
  {
    OnSegmentIsExact(p, a, b);
    OnSegmentIsExact(p, b, c);
    OnSegmentIsExact(p, c, a);
    OutlineIsBoundary(p, a, b, c);
    ThreeEdges(p, a, b, c);
    if !OnOutline(p, a, b, c) {
      if Above(p, a) == Above(p, b) == Above(p, c) {
        TogetherIsExact(p, a, b, c);
      } else if Above(p, b) == Above(p, c) {
        AloneIsExact(p, a, b, c);
      } else if Above(p, c) == Above(p, a) {
        AloneIsExact(p, b, c, a);
      } else {
        AloneIsExact(p, c, a, b);
      }
    }
  }
}
