/** The ray-casting test on convex polygons of any size against an independent reference. */
module ConvexPolygons {
  import opened Contracts
  import opened Segments
  import opened Polygons
  import Triangles

  // ---------------------------------------------------------------- the half-open side of an edge

  /** Of the two directions of an edge one owns the points on its line: the one that goes down, or to
      the right when the edge is level. */
  predicate Owned(u: Point, v: Point) {
    v.y < u.y || (v.y == u.y && u.x < v.x)
  }

  /** p lies left of the edge, or on its line when the edge owns it. */
  predicate LeftOf(u: Point, v: Point, p: Point) {
    Area(p, u, v) > 0.0 || (Area(p, u, v) == 0.0 && Owned(u, v))
  }

  lemma AreaSwaps(p: Point, u: Point, v: Point)
    ensures Area(p, v, u) == -Area(p, u, v)
    ensures Area(u, v, p) == Area(p, u, v) && Area(v, p, u) == Area(p, u, v)
  {
  }

  /** Every point is on exactly one half-open side of an edge. */
  lemma OneSide(u: Point, v: Point, p: Point)
    requires u != v
    ensures LeftOf(v, u, p) <==> !LeftOf(u, v, p)
  {
    AreaSwaps(p, u, v);
  }

  /** A straddling edge crosses the ray when the point is left of it going up, or not left of it going down. */
  lemma CrossingIsSide(p: Point, u: Point, v: Point)
    requires Straddles(p, (u, v))
    ensures CrossesRay(p, (u, v)) <==> if Above(p, v) then LeftOf(u, v, p) else !LeftOf(u, v, p)
  {
    Triangles.CrossesMeans(p, u, v);
  }

  // ---------------------------------------------------------------- triangles

  /** a, b, c turn left. */
  predicate LeftTurn(a: Point, b: Point, c: Point) { Area(a, b, c) > 0.0 }

  predicate InTriangle(p: Point, a: Point, b: Point, c: Point) {
    LeftOf(a, b, p) && LeftOf(b, c, p) && LeftOf(c, a, p)
  }

  /** The orientations of a point with the three edges add up to that of the triangle. */
  lemma AreasAdd(p: Point, a: Point, b: Point, c: Point)
    ensures Area(p, a, b) + Area(p, b, c) + Area(p, c, a) == Area(a, b, c)
  {
  }

  /** Weighted with the opposite orientations, the offsets of the vertices from the point cancel. */
  lemma WeightsCancel(ax: real, ay: real, bx: real, by': real, cx: real, cy: real, x: real, y: real, z: real)
    requires x == ax * by' - ay * bx && y == bx * cy - by' * cx && z == cx * ay - cy * ax
    ensures y * ax + z * bx + x * cx == 0.0
    ensures y * ay + z * by' + x * cy == 0.0
  {
  }

  /** How far a point is left of a directed line is linear in the point. */
  lemma AreaIsLinear(u: Point, w: Point, p: Point, a: Point, dx: real, dy: real, qx: real, qy: real)
    requires dx == w.x - u.x && dy == w.y - u.y && qx == a.x - p.x && qy == a.y - p.y
    ensures Area(a, u, w) == Area(p, u, w) + dx * qy - dy * qx
  {
  }

  lemma Spread(w: real, a: real, base: real, dx: real, dy: real, x: real, y: real)
    requires a == base + dx * y - dy * x
    ensures w * a == w * base + dx * (w * y) - dy * (w * x)
  {
  }

  lemma SumCancels(d: real, i: real, j: real, k: real)
    requires i + j + k == 0.0
    ensures d * i + d * j + d * k == 0.0
  {
    assert d * i + d * j + d * k == d * (i + j + k);
  }

  lemma OffsetsCancel(p: Point, a: Point, b: Point, c: Point, wa: real, wb: real, wc: real)
    requires wc == Area(p, a, b) && wa == Area(p, b, c) && wb == Area(p, c, a)
    ensures wa * (a.x - p.x) + wb * (b.x - p.x) + wc * (c.x - p.x) == 0.0
    ensures wa * (a.y - p.y) + wb * (b.y - p.y) + wc * (c.y - p.y) == 0.0
  {
    WeightsCancel(a.x - p.x, a.y - p.y, b.x - p.x, b.y - p.y, c.x - p.x, c.y - p.y, wc, wa, wb);
  }

  lemma Distribute(x: real, y: real, z: real, base: real)
    ensures x * base + y * base + z * base == (x + y + z) * base
  {
  }

  lemma WeightedLine(wa: real, wb: real, wc: real, a: real, b: real, c: real, base: real, dx: real, dy: real,
                     ax: real, ay: real, bx: real, by': real, cx: real, cy: real)
    requires a == base + dx * ay - dy * ax && b == base + dx * by' - dy * bx && c == base + dx * cy - dy * cx
    requires wa * ax + wb * bx + wc * cx == 0.0 && wa * ay + wb * by' + wc * cy == 0.0
    ensures wa * a + wb * b + wc * c == (wa + wb + wc) * base
  {
    Spread(wa, a, base, dx, dy, ax, ay);
    Spread(wb, b, base, dx, dy, bx, by');
    Spread(wc, c, base, dx, dy, cx, cy);
    SumCancels(dx, wa * ay, wb * by', wc * cy);
    SumCancels(dy, wa * ax, wb * bx, wc * cx);
    Distribute(wa, wb, wc, base);
  }

  /** The value of a line at a point is the weighted mean of its values at the vertices. */
  lemma Weighted(u: Point, w: Point, p: Point, a: Point, b: Point, c: Point, wa: real, wb: real, wc: real)
    requires wc == Area(p, a, b) && wa == Area(p, b, c) && wb == Area(p, c, a)
    ensures wa * Area(a, u, w) + wb * Area(b, u, w) + wc * Area(c, u, w) == (wa + wb + wc) * Area(p, u, w)
  {
    hide Area;
    var dx, dy := w.x - u.x, w.y - u.y;
    OffsetsCancel(p, a, b, c, wa, wb, wc);
    AreaIsLinear(u, w, p, a, dx, dy, a.x - p.x, a.y - p.y);
    AreaIsLinear(u, w, p, b, dx, dy, b.x - p.x, b.y - p.y);
    AreaIsLinear(u, w, p, c, dx, dy, c.x - p.x, c.y - p.y);
    WeightedLine(wa, wb, wc, Area(a, u, w), Area(b, u, w), Area(c, u, w), Area(p, u, w), dx, dy,
                 a.x - p.x, a.y - p.y, b.x - p.x, b.y - p.y, c.x - p.x, c.y - p.y);
  }

  // ---------------------------------------------------------------- directions

  /** A direction that is a sum of owned directions is owned. */
  lemma SumIsOwned(s: real, k: real, m: real, dx: real, dy: real, x1: real, y1: real, x2: real, y2: real)
    requires s > 0.0 && k >= 0.0 && m >= 0.0 && (dx != 0.0 || dy != 0.0)
    requires s * dx == k * x1 + m * x2 && s * dy == k * y1 + m * y2
    requires k > 0.0 ==> y1 < 0.0 || (y1 == 0.0 && x1 > 0.0)
    requires m > 0.0 ==> y2 < 0.0 || (y2 == 0.0 && x2 > 0.0)
    ensures dy < 0.0 || (dy == 0.0 && dx > 0.0)
  {
    NoRise(k, y1);
    NoRise(m, y2);
    Sign(s, dy);
    Sign(s, dx);
    if dy == 0.0 {
      if k > 0.0 {
        assert y1 == 0.0;
        Sign(k, x1);
      }
      if m > 0.0 {
        assert y2 == 0.0;
        Sign(m, x2);
      }
    }
  }

  lemma NoRise(k: real, y: real)
    requires k >= 0.0 && (k > 0.0 ==> y <= 0.0)
    ensures k * y <= 0.0 && (k * y == 0.0 ==> k == 0.0 || y == 0.0)
  {
  }

  lemma Sign(s: real, x: real)
    requires s > 0.0
    ensures s * x > 0.0 <==> x > 0.0
    ensures s * x < 0.0 <==> x < 0.0
  {
  }

  lemma Decompose(dx: real, dy: real, x1: real, y1: real, x2: real, y2: real, s: real, k: real, m: real)
    requires s == x1 * y2 - y1 * x2 && k == dx * y2 - dy * x2 && m == dx * y1 - dy * x1
    ensures s * dx == k * x1 + m * -x2 && s * dy == k * y1 + m * -y2
  {
  }

  /** Through a vertex a of a left-turning triangle that lies left of a line through a, the line is owned
      when the sides at a that leave the line are. */
  lemma LineIsOwned(u: Point, w: Point, a: Point, b: Point, c: Point)
    requires u != w && LeftTurn(a, b, c) && Area(a, u, w) == 0.0 && Area(b, u, w) >= 0.0 && Area(c, u, w) >= 0.0
    requires Area(c, u, w) > 0.0 ==> Owned(a, b)
    requires Area(b, u, w) > 0.0 ==> Owned(c, a)
    ensures Owned(u, w)
  {
    var dx, dy, x1, y1, x2, y2 := w.x - u.x, w.y - u.y, b.x - a.x, b.y - a.y, c.x - a.x, c.y - a.y;
    var s, k, m := Area(a, b, c), Area(c, u, w), Area(b, u, w);
    AlongLine(u, w, a, b, dx, dy, x1, y1);
    AlongLine(u, w, a, c, dx, dy, x2, y2);
    Decompose(dx, dy, x1, y1, x2, y2, s, k, m);
    SumIsOwned(s, k, m, dx, dy, x1, y1, -x2, -y2);
  }

  lemma AlongLine(u: Point, w: Point, a: Point, b: Point, dx: real, dy: real, x: real, y: real)
    requires Area(a, u, w) == 0.0 && dx == w.x - u.x && dy == w.y - u.y && x == b.x - a.x && y == b.y - a.y
    ensures Area(b, u, w) == dx * y - dy * x
  {
    AreaIsLinear(u, w, a, b, dx, dy, x, y);
  }

  lemma NotNegative(w: real, a: real)
    requires w >= 0.0 && a >= 0.0
    ensures w * a >= 0.0 && (w * a == 0.0 ==> w == 0.0 || a == 0.0)
  {
  }

  lemma PositiveFactor(s: real, x: real)
    requires s > 0.0 && s * x >= 0.0
    ensures x >= 0.0 && (x == 0.0 <==> s * x == 0.0)
  {
  }

  /** A point of the triangle is on the half-open left of every line that has the triangle on its left. */
  lemma TriangleSupports(p: Point, a: Point, b: Point, c: Point, u: Point, w: Point)
    requires LeftTurn(a, b, c) && InTriangle(p, a, b, c) && u != w
    requires Area(a, u, w) >= 0.0 && Area(b, u, w) >= 0.0 && Area(c, u, w) >= 0.0
    ensures LeftOf(u, w, p)
  {
    hide Area;
    var wa, wb, wc := Area(p, b, c), Area(p, c, a), Area(p, a, b);
    AreasAdd(p, a, b, c);
    Weighted(u, w, p, a, b, c, wa, wb, wc);
    NotNegative(wa, Area(a, u, w));
    NotNegative(wb, Area(b, u, w));
    NotNegative(wc, Area(c, u, w));
    PositiveFactor(wa + wb + wc, Area(p, u, w));
    if Area(p, u, w) == 0.0 {
      if wa > 0.0 {
        LineIsOwned(u, w, a, b, c);
      } else if wb > 0.0 {
        TurnsRound(a, b, c);
        LineIsOwned(u, w, b, c, a);
      } else {
        TurnsRound(a, b, c);
        LineIsOwned(u, w, c, a, b);
      }
    }
  }

  lemma TurnsRound(a: Point, b: Point, c: Point)
    ensures LeftTurn(a, b, c) <==> LeftTurn(b, c, a)
    ensures LeftTurn(a, b, c) <==> LeftTurn(c, a, b)
  {
  }

  // ---------------------------------------------------------------- the ray test on a triangle, boundary included

  lemma WeightedHeights(p: Point, a: Point, b: Point, c: Point, wa: real, wb: real, wc: real, ha: real, hb: real, hc: real)
    requires wc == Area(p, a, b) && wa == Area(p, b, c) && wb == Area(p, c, a)
    requires ha == a.y - p.y && hb == b.y - p.y && hc == c.y - p.y
    ensures wa * ha + wb * hb + wc * hc == 0.0
  {
    Triangles.HeightsCancel(p, a, b, c, wc, wa, wb, ha, hb, hc);
  }

  /** A level line through the point, directed to the left, has everything below on its left and owns nothing. */
  lemma LevelLine(p: Point, q: Point, a: Point)
    requires q == Point(p.x - 1.0, p.y)
    ensures Area(a, p, q) == p.y - a.y && !LeftOf(p, q, p)
  {
  }

  lemma SumIsPositive(wa: real, wb: real, wc: real, ha: real, hb: real, hc: real)
    requires wa >= 0.0 && wb >= 0.0 && wc >= 0.0 && wa + wb + wc > 0.0 && ha > 0.0 && hb > 0.0 && hc > 0.0
    ensures wa * ha + wb * hb + wc * hc > 0.0
  {
    NotNegative(wa, ha);
    NotNegative(wb, hb);
    NotNegative(wc, hc);
  }

  /** With all vertices on one side of the ray's line, the point is outside and nothing is crossed. */
  lemma TogetherIsOutside(p: Point, a: Point, b: Point, c: Point)
    requires LeftTurn(a, b, c) && Above(p, a) == Above(p, b) == Above(p, c)
    ensures !Triangles.OddOf(p, a, b, c) && !InTriangle(p, a, b, c)
  {
    if InTriangle(p, a, b, c) {
      if Above(p, a) {
        var wa, wb, wc := Area(p, b, c), Area(p, c, a), Area(p, a, b);
        AreasAdd(p, a, b, c);
        WeightedHeights(p, a, b, c, wa, wb, wc, a.y - p.y, b.y - p.y, c.y - p.y);
        SumIsPositive(wa, wb, wc, a.y - p.y, b.y - p.y, c.y - p.y);
      } else {
        var q := Point(p.x - 1.0, p.y);
        LevelLine(p, q, a);
        LevelLine(p, q, b);
        LevelLine(p, q, c);
        TriangleSupports(p, a, b, c, p, q);
      }
    }
  }

  /** The orientations at the vertex that is alone cannot both be wrong; if both are right, so is the third. */
  lemma AloneSides(p: Point, a: Point, b: Point, c: Point)
    requires LeftTurn(a, b, c) && Above(p, a) != Above(p, b) && Above(p, b) == Above(p, c)
    ensures LeftOf(a, b, p) || LeftOf(c, a, p)
    ensures LeftOf(a, b, p) && LeftOf(c, a, p) ==> LeftOf(b, c, p)
  {
    hide Area;
    var wa, wb, wc := Area(p, b, c), Area(p, c, a), Area(p, a, b);
    var ha, hb, hc := a.y - p.y, b.y - p.y, c.y - p.y;
    AreasAdd(p, a, b, c);
    WeightedHeights(p, a, b, c, wa, wb, wc, ha, hb, hc);
    ProductSide(wa, ha);
    ProductSide(wb, hb);
    ProductSide(wc, hc);
    if LeftOf(a, b, p) && LeftOf(c, a, p) && wa == 0.0 && hb == 0.0 && hc == 0.0 {
      LevelBase(a, b, c);
    }
  }

  lemma ProductSide(w: real, h: real)
    ensures w > 0.0 && h > 0.0 ==> w * h > 0.0
    ensures w < 0.0 && h > 0.0 ==> w * h < 0.0
    ensures w > 0.0 && h < 0.0 ==> w * h < 0.0
    ensures w < 0.0 && h < 0.0 ==> w * h > 0.0
    ensures w * h == 0.0 <==> w == 0.0 || h == 0.0
  {
  }

  /** The level side under the third vertex runs to the right. */
  lemma LevelBase(a: Point, b: Point, c: Point)
    requires LeftTurn(a, b, c) && b.y == c.y && a.y > b.y
    ensures Owned(b, c)
  {
    assert Area(a, b, c) == (c.x - b.x) * (a.y - b.y);
    Sign(a.y - b.y, c.x - b.x);
  }

  lemma AloneIsHalfOpen(p: Point, a: Point, b: Point, c: Point)
    requires LeftTurn(a, b, c) && Above(p, a) != Above(p, b) && Above(p, b) == Above(p, c)
    ensures Triangles.OddOf(p, a, b, c) <==> InTriangle(p, a, b, c)
  {
    hide LeftOf, MeetsAt;
    CrossingIsSide(p, a, b);
    CrossingIsSide(p, c, a);
    AloneSides(p, a, b, c);
  }

  /** The ray crosses an odd number of edges of a left-turning triangle exactly when the point is on
      the half-open left of all three, for every point. */
  lemma TriangleIsHalfOpen(p: Point, a: Point, b: Point, c: Point)
    requires LeftTurn(a, b, c)
    ensures Triangles.OddOf(p, a, b, c) <==> InTriangle(p, a, b, c)
  {
    hide LeftOf, CrossesRay;
    TurnsRound(a, b, c);
    if Above(p, a) == Above(p, b) == Above(p, c) {
      TogetherIsOutside(p, a, b, c);
    } else if Above(p, b) == Above(p, c) {
      AloneIsHalfOpen(p, a, b, c);
    } else if Above(p, c) == Above(p, a) {
      AloneIsHalfOpen(p, b, c, a);
    } else {
      AloneIsHalfOpen(p, c, a, b);
    }
  }

  // ---------------------------------------------------------------- convex polygons

  /** Any three vertices, in their order, turn left. */
  predicate LeftTurning(vs: seq<Point>) {
    forall i, j, k :: 0 <= i < j < k < |vs| ==> LeftTurn(vs[i], vs[j], vs[k])
  }

  predicate LeftOfEdges(p: Point, vs: seq<Point>) {
    forall i :: 0 <= i < |vs| ==> LeftOf(vs[i], vs[Next(i, |vs|)], p)
  }

  /** The first m edges, those that do not lead back to the start. */
  predicate LeftOfChain(p: Point, vs: seq<Point>, m: nat)
    requires m < |vs|
  {
    forall i :: 0 <= i < m ==> LeftOf(vs[i], vs[i + 1], p)
  }

  lemma EdgesAreChain(p: Point, vs: seq<Point>)
    requires |vs| > 0
    ensures LeftOfEdges(p, vs) <==> LeftOfChain(p, vs, |vs| - 1) && LeftOf(vs[|vs| - 1], vs[0], p)
  {
    hide LeftOf;
    if LeftOfEdges(p, vs) {
      forall i | 0 <= i < |vs| - 1 ensures LeftOf(vs[i], vs[i + 1], p) {
        assert Next(i, |vs|) == i + 1;
      }
      assert Next(|vs| - 1, |vs|) == 0;
    }
  }

  /** Cutting off the last vertex, in terms of edges. */
  lemma CutEdges(p: Point, vs: seq<Point>)
    requires |vs| >= 2
    ensures var n := |vs| - 1;
            && (LeftOfEdges(p, vs[..n]) <==> LeftOfChain(p, vs, n - 1) && LeftOf(vs[n - 1], vs[0], p))
            && (LeftOfEdges(p, vs) <==> LeftOfChain(p, vs, n - 1) && LeftOf(vs[n - 1], vs[n], p) && LeftOf(vs[n], vs[0], p))
  {
    hide LeftOf, LeftOfEdges;
    EdgesAreChain(p, vs);
    EdgesAreChain(p, vs[..|vs| - 1]);
    assert forall i :: 0 <= i < |vs| - 1 ==> vs[..|vs| - 1][i] == vs[i];
  }

  lemma VerticesDiffer(a: Point, b: Point, c: Point)
    requires LeftTurn(a, b, c)
    ensures a != b && b != c && c != a
  {
  }

  /** All of the polygon's vertices lie left of, or on, the line. */
  predicate OnLeft(u: Point, w: Point, vs: seq<Point>) {
    forall i :: 0 <= i < |vs| ==> Area(vs[i], u, w) >= 0.0
  }

  lemma PrefixTurns(vs: seq<Point>, n: nat)
    requires n <= |vs| && LeftTurning(vs)
    ensures LeftTurning(vs[..n])
  {
    hide LeftTurn;
    assert forall i :: 0 <= i < n ==> vs[..n][i] == vs[i];
  }

  lemma CornersOfThree(p: Point, vs: seq<Point>)
    requires |vs| == 3
    ensures vs == [vs[0], vs[1], vs[2]]
    ensures LeftOfEdges(p, vs) <==> InTriangle(p, vs[0], vs[1], vs[2])
  {
    hide LeftOf;
    EdgesAreChain(p, vs);
  }

  /** A point on the half-open left of all edges is on the half-open left of every line that has all the
      vertices on its left. */
  lemma {:induction false} PolygonSupports(p: Point, vs: seq<Point>, u: Point, w: Point)
    requires |vs| >= 3 && LeftTurning(vs) && LeftOfEdges(p, vs) && u != w && OnLeft(u, w, vs)
    ensures LeftOf(u, w, p)
  {
    hide LeftOf, LeftOfEdges, Area, LeftOfChain;
    if |vs| == 3 {
      CornersOfThree(p, vs);
      assert LeftTurn(vs[0], vs[1], vs[2]);
      TriangleSupports(p, vs[0], vs[1], vs[2], u, w);
    } else {
      var n := |vs| - 1;
      CutEdges(p, vs);
      assert LeftTurn(vs[0], vs[n - 1], vs[n]);
      VerticesDiffer(vs[0], vs[n - 1], vs[n]);
      OneSide(vs[n - 1], vs[0], p);
      if LeftOf(vs[n - 1], vs[0], p) {
        PrefixTurns(vs, n);
        PolygonSupports(p, vs[..n], u, w);
      } else {
        TriangleSupports(p, vs[0], vs[n - 1], vs[n], u, w);
      }
    }
  }

  /** An edge has every vertex on its left. */
  lemma EdgeSupports(vs: seq<Point>, i: nat)
    requires |vs| >= 3 && LeftTurning(vs) && i < |vs|
    ensures OnLeft(vs[i], vs[Next(i, |vs|)], vs) && vs[i] != vs[Next(i, |vs|)]
    ensures forall j :: 0 <= j < |vs| && j != i && j != Next(i, |vs|) ==> Area(vs[j], vs[i], vs[Next(i, |vs|)]) > 0.0
  {
    hide Area;
    var k := Next(i, |vs|);
    forall j | 0 <= j < |vs| && j != i && j != k ensures LeftTurn(vs[j], vs[i], vs[k]) && vs[i] != vs[k] {
      if k == 0 {
        TurnsRound(vs[0], vs[j], vs[i]);
        VerticesDiffer(vs[0], vs[j], vs[i]);
      } else if j < i {
        VerticesDiffer(vs[j], vs[i], vs[k]);
      } else {
        TurnsRound(vs[i], vs[k], vs[j]);
        VerticesDiffer(vs[i], vs[k], vs[j]);
      }
    }
    var other := if i != 0 && k != 0 then 0 else if i != 1 && k != 1 then 1 else 2;
    assert LeftTurn(vs[other], vs[i], vs[k]);
    OwnEnds(vs[i], vs[k]);
  }

  lemma OwnEnds(u: Point, w: Point)
    ensures Area(u, u, w) == 0.0 && Area(w, u, w) == 0.0
  {
  }

  /** A vertex chain's edges all have the last triangle on their left. */
  lemma TriangleInChain(p: Point, vs: seq<Point>)
    requires |vs| >= 4 && LeftTurning(vs)
    requires InTriangle(p, vs[0], vs[|vs| - 2], vs[|vs| - 1])
    ensures LeftOfChain(p, vs, |vs| - 2)
  {
    hide LeftOf, Area;
    var n := |vs| - 1;
    assert LeftTurn(vs[0], vs[n - 1], vs[n]);
    forall i | 0 <= i < n - 1 ensures LeftOf(vs[i], vs[i + 1], p) {
      EdgeSupports(vs, i);
      TriangleSupports(p, vs[0], vs[n - 1], vs[n], vs[i], vs[i + 1]);
    }
  }

  /** The rest of the polygon lies left of the two edges at the last vertex. */
  lemma RestInLast(p: Point, vs: seq<Point>)
    requires |vs| >= 4 && LeftTurning(vs) && LeftOfEdges(p, vs[..|vs| - 1])
    ensures LeftOf(vs[|vs| - 2], vs[|vs| - 1], p) && LeftOf(vs[|vs| - 1], vs[0], p)
  {
    hide LeftOf, LeftOfEdges, Area;
    var n := |vs| - 1;
    PrefixTurns(vs, n);
    EdgeSupports(vs, n - 1);
    EdgeSupports(vs, n);
    PolygonSupports(p, vs[..n], vs[n - 1], vs[n]);
    PolygonSupports(p, vs[..n], vs[n], vs[0]);
  }

  /** The ray crosses an odd number of edges of a convex polygon exactly when the point is on the
      half-open left of all of them, for every point. */
  lemma {:induction false} ConvexIsHalfOpen(p: Point, vs: seq<Point>)
    requires |vs| >= 3 && LeftTurning(vs)
    ensures OddCrossings(p, Edges(vs)) <==> LeftOfEdges(p, vs)
  {
    hide LeftOf, LeftOfEdges, Area, LeftOfChain, OddCrossings, CrossesRay;
    if |vs| == 3 {
      CornersOfThree(p, vs);
      assert LeftTurn(vs[0], vs[1], vs[2]);
      TriangleIsHalfOpen(p, vs[0], vs[1], vs[2]);
      Triangles.ThreeEdges(p, vs[0], vs[1], vs[2]);
    } else {
      var n := |vs| - 1;
      var a, b, c := vs[0], vs[n - 1], vs[n];
      assert LeftTurn(a, b, c);
      PrefixTurns(vs, n);
      ConvexIsHalfOpen(p, vs[..n]);
      LastTriangle(p, vs);
      CutEdges(p, vs);
      VerticesDiffer(a, b, c);
      OneSide(b, a, p);
      if LeftOfEdges(p, vs[..n]) {
        RestInLast(p, vs);
      }
      if InTriangle(p, a, b, c) {
        TriangleInChain(p, vs);
      }
    }
  }

  lemma LastTriangle(p: Point, vs: seq<Point>)
    requires |vs| >= 4 && LeftTurning(vs)
    ensures OddCrossings(p, Edges(vs)) ==
            (OddCrossings(p, Edges(vs[..|vs| - 1])) != InTriangle(p, vs[0], vs[|vs| - 2], vs[|vs| - 1]))
  {
    hide LeftOf, Area, OddCrossings, CrossesRay;
    var n := |vs| - 1;
    var a, b, c := vs[0], vs[n - 1], vs[n];
    assert LeftTurn(a, b, c);
    assert vs[n - 1..] + [vs[0]] == [b, c, a];
    DiagonalCut(p, vs, n - 1);
    Triangles.ThreeEdges(p, b, c, a);
    TurnsRound(a, b, c);
    TriangleIsHalfOpen(p, b, c, a);
  }

  // ---------------------------------------------------------------- the boundary

  /** Where on the line of an edge a point is. */
  lemma PlaceOnLine(p: Point, u: Point, w: Point) returns (t: real)
    requires u != w && Area(p, u, w) == 0.0
    ensures p == At(u, w, t)
  {
    AreaFromFirst(p, u, w);
    if u.x != w.x {
      t := (p.x - u.x) / (w.x - u.x);
      LineMeets(w.x - u.x, w.y - u.y, p.x - u.x, p.y - u.y, t);
    } else {
      t := (p.y - u.y) / (w.y - u.y);
      assert t * (w.x - u.x) == 0.0;
      LineMeets(w.y - u.y, w.x - u.x, p.y - u.y, p.x - u.x, t);
    }
  }

  /** Along an edge the orientation with a neighbouring edge grows evenly from nought at the common end. */
  lemma AreaAlong(u: Point, w: Point, x: Point, t: real)
    ensures Area(At(u, w, t), x, u) == t * Area(w, x, u)
    ensures Area(At(u, w, t), w, x) == (1.0 - t) * Area(u, w, x)
  {
    var dx, dy := w.x - u.x, w.y - u.y;
    var r := 1.0 - t;
    FromCommonEnd(u, w, x, t, t * dx, t * dy);
    FromCommonEnd(w, u, x, r, r * -dx, r * -dy);
    BothEnds(u, w, t);
  }

  lemma BothEnds(u: Point, w: Point, t: real)
    ensures At(u, w, t) == At(w, u, 1.0 - t)
  {
  }

  /** The cross product with a vector from the common end scales with it. */
  lemma FromCommonEnd(u: Point, w: Point, x: Point, t: real, tx: real, ty: real)
    requires tx == t * (w.x - u.x) && ty == t * (w.y - u.y)
    ensures Area(At(u, w, t), x, u) == t * Area(w, x, u)
    ensures Area(At(u, w, t), u, x) == t * Area(w, u, x)
  {
    CrossOfEnd(w.x - u.x, w.y - u.y, x.x - u.x, x.y - u.y, t, tx, ty);
    AreaFromEnd(w, x, u);
    AreaFromEnd(At(u, w, t), x, u);
    AreaSwaps(w, x, u);
    AreaSwaps(At(u, w, t), x, u);
    assert t * -Area(w, x, u) == -(t * Area(w, x, u));
  }

  lemma AreaFromEnd(q: Point, x: Point, u: Point)
    ensures Area(q, x, u) == (x.y - u.y) * (q.x - u.x) - (x.x - u.x) * (q.y - u.y)
  {
  }

  lemma CrossOfEnd(wx: real, wy: real, xx: real, xy: real, t: real, tx: real, ty: real)
    requires tx == t * wx && ty == t * wy
    ensures xy * tx - xx * ty == t * (xy * wx - xx * wy)
  {
  }

  lemma Between(s: real, t: real, x: real)
    requires x > 0.0 && s == t * x && s >= 0.0
    ensures t >= 0.0
  {
  }

  /** A point on the line of an edge and not beyond the neighbouring edges is on the edge. */
  lemma OnLineIsOnEdge(p: Point, vs: seq<Point>, i: nat)
    requires |vs| >= 3 && LeftTurning(vs) && i < |vs|
    requires forall j :: 0 <= j < |vs| ==> Area(p, vs[j], vs[Next(j, |vs|)]) >= 0.0
    requires Area(p, vs[i], vs[Next(i, |vs|)]) == 0.0
    ensures On(p, vs[i], vs[Next(i, |vs|)])
  {
    hide Area, At;
    var k := Next(i, |vs|);
    var before, after := if i == 0 then |vs| - 1 else i - 1, Next(k, |vs|);
    assert Next(before, |vs|) == i;
    EdgeSupports(vs, i);
    EdgeSupports(vs, before);
    EdgeSupports(vs, k);
    var t := PlaceOnLine(p, vs[i], vs[k]);
    AreaAlong(vs[i], vs[k], vs[before], t);
    AreaAlong(vs[i], vs[k], vs[after], t);
    Between(Area(p, vs[before], vs[i]), t, Area(vs[k], vs[before], vs[i]));
    Between(Area(p, vs[k], vs[after]), 1.0 - t, Area(vs[i], vs[k], vs[after]));
  }

  // ---------------------------------------------------------------- main results

  ghost predicate OnEdge(p: Point, vs: seq<Point>) {
    exists i :: 0 <= i < |vs| && On(p, vs[i], vs[Next(i, |vs|)])
  }

  /** The point sees every edge turning strictly left. */
  predicate StrictlyLeft(p: Point, vs: seq<Point>) {
    forall i :: 0 <= i < |vs| ==> Area(p, vs[i], vs[Next(i, |vs|)]) > 0.0
  }

  lemma BoundaryIsEdges(p: Point, vs: seq<Point>)
    ensures OnBoundary(p, Edges(vs), 0.0) <==> OnEdge(p, vs)
  {
    hide On, PointOnSegment;
    var es := Edges(vs);
    forall i | 0 <= i < |vs| ensures PointOnSegment(p, es[i].0, es[i].1, 0.0) <==> On(p, vs[i], vs[Next(i, |vs|)]) {
      OnSegmentIsExact(p, vs[i], vs[Next(i, |vs|)]);
    }
  }

  /** Off the edges the half-open sides are the strict ones. */
  lemma OffEdges(p: Point, vs: seq<Point>)
    requires |vs| >= 3 && LeftTurning(vs) && !OnEdge(p, vs)
    ensures LeftOfEdges(p, vs) <==> StrictlyLeft(p, vs)
  {
    hide Area, On;
    if LeftOfEdges(p, vs) {
      forall i | 0 <= i < |vs| ensures Area(p, vs[i], vs[Next(i, |vs|)]) > 0.0 {
        assert LeftOf(vs[i], vs[Next(i, |vs|)], p);
        if Area(p, vs[i], vs[Next(i, |vs|)]) == 0.0 {
          OnLineIsOnEdge(p, vs, i);
        }
      }
    }
  }

  /** For a convex polygon of any size the exact test is right: a point on an edge follows the policy,
      any other is inside exactly when it is strictly left of every edge. */
  lemma ConvexIsExact(p: Point, vs: seq<Point>, policy: BoundaryPolicy)
    requires |vs| >= 3 && LeftTurning(vs)
    ensures InPolygon(p, vs, policy, 0.0) == Ok(if OnEdge(p, vs) then policy == Inside else StrictlyLeft(p, vs))
  {
    hide OnEdge, StrictlyLeft, OnBoundary, OddCrossings, LeftTurning, LeftOfEdges;
    BoundaryIsEdges(p, vs);
    ConvexIsHalfOpen(p, vs);
    if !OnEdge(p, vs) {
      OffEdges(p, vs);
    }
  }

  /** The other way round the point must be strictly right of every edge. */
  predicate StrictlyRight(p: Point, vs: seq<Point>) {
    forall i :: 0 <= i < |vs| ==> Area(p, vs[i], vs[Next(i, |vs|)]) < 0.0
  }

  predicate RightTurning(vs: seq<Point>) {
    forall i, j, k :: 0 <= i < j < k < |vs| ==> Area(vs[i], vs[j], vs[k]) < 0.0
  }

  lemma ReversedTurns(vs: seq<Point>)
    requires RightTurning(vs)
    ensures LeftTurning(Reversed(vs))
  {
    hide Area;
    var rs, n := Reversed(vs), |vs|;
    forall i, j, k | 0 <= i < j < k < n ensures LeftTurn(rs[i], rs[j], rs[k]) {
      var a, b, c := vs[n - 1 - k], vs[n - 1 - j], vs[n - 1 - i];
      assert Area(a, b, c) < 0.0;
      AreaSwaps(a, b, c);
      AreaSwaps(c, b, a);
    }
  }

  /** The edge of the reversed polygon that is the given one the other way. */
  function Opposite(i: nat, n: nat): nat
    requires i < n
  {
    if i < n - 1 then n - 2 - i else n - 1
  }

  lemma OppositeEdge(vs: seq<Point>, i: nat)
    requires i < |vs|
    ensures var rs, j, n := Reversed(vs), Opposite(i, |vs|), |vs|;
            j < n && Opposite(j, n) == i && rs[i] == vs[Next(j, n)] && rs[Next(i, n)] == vs[j]
  {
    EdgeReverses(vs, i);
  }

  lemma ReversedSides(p: Point, vs: seq<Point>)
    ensures StrictlyLeft(p, Reversed(vs)) <==> StrictlyRight(p, vs)
    ensures OnEdge(p, Reversed(vs)) <==> OnEdge(p, vs)
  {
    hide Area, On;
    var rs, n := Reversed(vs), |vs|;
    forall i | 0 <= i < n
      ensures var j := Opposite(i, n);
              && j < n && Opposite(j, n) == i
              && Area(p, rs[i], rs[Next(i, n)]) == -Area(p, vs[j], vs[Next(j, n)])
              && (On(p, rs[i], rs[Next(i, n)]) <==> On(p, vs[j], vs[Next(j, n)]))
    {
      var j := Opposite(i, n);
      OppositeEdge(vs, i);
      AreaSwaps(p, vs[j], vs[Next(j, n)]);
      OnBothWays(p, vs[j], vs[Next(j, n)]);
    }
    forall i | 0 <= i < n ensures Opposite(Opposite(i, n), n) == i && Opposite(i, n) < n {
    }
  }

  lemma OnEitherWay(p: Point, u: Point, w: Point)
    requires On(p, u, w)
    ensures On(p, w, u)
  {
    var t := WhereOn(p, u, w);
    BothEnds(u, w, t);
    assert 0.0 <= 1.0 - t <= 1.0;
  }

  lemma OnBothWays(p: Point, u: Point, w: Point)
    ensures On(p, w, u) <==> On(p, u, w)
  {
    hide On;
    if On(p, u, w) {
      OnEitherWay(p, u, w);
    }
    if On(p, w, u) {
      OnEitherWay(p, w, u);
    }
  }

  lemma ConvexOtherWay(p: Point, vs: seq<Point>, policy: BoundaryPolicy)
    requires |vs| >= 3 && RightTurning(vs)
    ensures InPolygon(p, vs, policy, 0.0) == Ok(if OnEdge(p, vs) then policy == Inside else StrictlyRight(p, vs))
  {
    hide OnEdge, StrictlyLeft, StrictlyRight, InPolygon, RightTurning, LeftTurning;
    ReversedTurns(vs);
    ReversalInvariant(p, vs, policy, 0.0);
    ConvexIsExact(p, Reversed(vs), policy);
    ReversedSides(p, vs);
  }
}
