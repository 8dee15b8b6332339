/** Polygon validation and the ray-casting point-in-polygon test. */
module Polygons {
  import opened Contracts
  import opened Segments

  datatype BoundaryPolicy = Inside | Outside

  datatype PolygonError = TooFewVertices | Degenerate

  type Edge = (Point, Point)

  /** The position after i, going round. */
  function Next(i: nat, n: nat): nat {
    if i + 1 == n then 0 else i + 1
  }

  lemma NextIsRemainder(i: nat, n: nat)
    requires i < n
    ensures (i + 1) % n == Next(i, n)
  {
  }

  function EdgeAt(vs: seq<Point>, i: nat): Edge
    requires i < |vs|
  {
    (vs[i], vs[Next(i, |vs|)])
  }

  /** The cyclic edges, in order. */
  function Edges(vs: seq<Point>): (r: seq<Edge>)
    ensures |r| == |vs| && forall i :: 0 <= i < |vs| ==> r[i] == EdgeAt(vs, i)
  {
    seq(|vs|, i requires 0 <= i < |vs| => EdgeAt(vs, i))
  }

  predicate Straddles(p: Point, e: Edge) {
    (e.0.y > p.y) != (e.1.y > p.y)
  }

  /** Where an edge meets the horizontal line through the point. */
  function MeetsAt(p: Point, e: Edge): real
    requires e.0.y != e.1.y
  {
    e.0.x + (p.y - e.0.y) * (e.1.x - e.0.x) / (e.1.y - e.0.y)
  }

  /** The edge crosses the ray to the right. */
  predicate CrossesRay(p: Point, e: Edge) {
    Straddles(p, e) && p.x < MeetsAt(p, e)
  }

  predicate OnBoundary(p: Point, es: seq<Edge>, tolerance: real) {
    exists i :: 0 <= i < |es| && PointOnSegment(p, es[i].0, es[i].1, tolerance)
  }

  /** An odd number of crossings. */
  predicate OddCrossings(p: Point, es: seq<Edge>) {
    |es| > 0 && OddCrossings(p, es[..|es| - 1]) != CrossesRay(p, es[|es| - 1])
  }

  function InPolygon(p: Point, vs: seq<Point>, policy: BoundaryPolicy, tolerance: real): Result<bool, PolygonError> {
    if |vs| < 3 then Err(TooFewVertices)
    else if OnBoundary(p, Edges(vs), tolerance) then Ok(policy == Inside)
    else Ok(OddCrossings(p, Edges(vs)))
  }

  lemma CrossingsNext(p: Point, es: seq<Edge>, i: nat)
    requires i < |es|
    ensures OddCrossings(p, es[..i + 1]) == (OddCrossings(p, es[..i]) != CrossesRay(p, es[i]))
  {
    assert es[..i + 1][..i] == es[..i];
  }

  method PointInPolygon(p: Point, vs: seq<Point>, policy: BoundaryPolicy) returns (r: Result<bool, PolygonError>)
    ensures r == InPolygon(p, vs, policy, TOLERANCE)
  {
    if |vs| < 3 {
      return Err(TooFewVertices);
    }
    ghost var es := Edges(vs);
    for i := 0 to |vs|
      invariant forall k :: 0 <= k < i ==> !PointOnSegment(p, es[k].0, es[k].1, TOLERANCE)
    {
      NextIsRemainder(i, |vs|);
      var j := (i + 1) % |vs|;
      assert es[i] == (vs[i], vs[j]);
      if PointOnSegment(p, vs[i], vs[j], TOLERANCE) {
        return Ok(policy == Inside);
      }
    }
    var inside := CountCrossings(p, vs);
    r := Ok(inside);
  }

  /** The ray to the right, edge by edge. */
  method CountCrossings(p: Point, vs: seq<Point>) returns (inside: bool)
    ensures inside == OddCrossings(p, Edges(vs))
  {
    ghost var es := Edges(vs);
    inside := false;
    for i := 0 to |vs|
      invariant inside == OddCrossings(p, es[..i])
    {
      NextIsRemainder(i, |vs|);
      var j := (i + 1) % |vs|;
      assert es[i] == (vs[i], vs[j]);
      CrossingsNext(p, es, i);
      if CrossesRay(p, (vs[i], vs[j])) {
        inside := !inside;
      }
    }
    assert es[..|vs|] == es;
  }

  // ---------------------------------------------------------------- sums over edges

  lemma {:induction false} CrossingsAdd(p: Point, a: seq<Edge>, b: seq<Edge>)
    ensures OddCrossings(p, a + b) == (OddCrossings(p, a) != OddCrossings(p, b))
  {
    if |b| == 0 {
      assert a + b == a;
    } else {
      assert (a + b)[..|a + b| - 1] == a + b[..|b| - 1];
      CrossingsAdd(p, a, b[..|b| - 1]);
    }
  }

  lemma OneCrossing(p: Point, e: Edge)
    ensures OddCrossings(p, [e]) == CrossesRay(p, e)
  {
    assert [e][..0] == [];
  }

  // ---------------------------------------------------------------- rotating

  function Rotate<T>(s: seq<T>, k: nat): (r: seq<T>)
    requires k <= |s|
    ensures |r| == |s|
  {
    s[k..] + s[..k]
  }

  lemma EdgesRotate(vs: seq<Point>, k: nat)
    requires k <= |vs|
    ensures Edges(Rotate(vs, k)) == Rotate(Edges(vs), k)
  {
    var n := |vs|;
    forall i | 0 <= i < n ensures EdgeAt(Rotate(vs, k), i) == Rotate(Edges(vs), k)[i] {
      var from := if i + k < n then i + k else i + k - n;
      assert Rotate(Edges(vs), k)[i] == EdgeAt(vs, from) && Rotate(vs, k)[i] == vs[from];
      var to := Next(i, n);
      assert Rotate(vs, k)[to] == vs[if to + k < n then to + k else to + k - n];
    }
  }

  lemma BoundaryOfParts(p: Point, a: seq<Edge>, b: seq<Edge>, tolerance: real)
    ensures OnBoundary(p, a + b, tolerance) <==> OnBoundary(p, a, tolerance) || OnBoundary(p, b, tolerance)
  {
    if i :| 0 <= i < |a| && PointOnSegment(p, a[i].0, a[i].1, tolerance) {
      assert (a + b)[i] == a[i];
    }
    if i :| 0 <= i < |b| && PointOnSegment(p, b[i].0, b[i].1, tolerance) {
      assert (a + b)[|a| + i] == b[i];
    }
  }

  /** The answer does not depend on which vertex the list starts with. */
  lemma RotationInvariant(p: Point, vs: seq<Point>, k: nat, policy: BoundaryPolicy, tolerance: real)
    requires k <= |vs|
    ensures InPolygon(p, Rotate(vs, k), policy, tolerance) == InPolygon(p, vs, policy, tolerance)
  {
    EdgesRotate(vs, k);
    var es := Edges(vs);
    assert es[..k] + es[k..] == es;
    CrossingsAdd(p, es[..k], es[k..]);
    CrossingsAdd(p, es[k..], es[..k]);
    BoundaryOfParts(p, es[..k], es[k..], tolerance);
    BoundaryOfParts(p, es[k..], es[..k], tolerance);
  }

  // ---------------------------------------------------------------- reversing

  function Reversed(vs: seq<Point>): seq<Point> {
    seq(|vs|, i requires 0 <= i < |vs| => vs[|vs| - 1 - i])
  }

  function Flip(e: Edge): Edge { (e.1, e.0) }

  /** The edges the other way round. */
  function Flipped(es: seq<Edge>): seq<Edge> {
    seq(|es|, i requires 0 <= i < |es| => Flip(es[|es| - 1 - i]))
  }

  lemma FlippedStarts(es: seq<Edge>)
    requires |es| > 0
    ensures Flipped(es) == [Flip(es[|es| - 1])] + Flipped(es[..|es| - 1])
  {
  }

  lemma SolveMeets(x: real, h: real, dx: real, dy: real, q: real)
    requires dy != 0.0 && q == x + h * dx / dy
    ensures q * dy == x * dy + h * dx
  {
    var m := h * dx / dy;
    assert m * dy == h * dx;
    assert q * dy == x * dy + m * dy;
  }

  /** An edge meets the line at the same place in either direction. */
  lemma MeetsFlipped(p: Point, e: Edge)
    requires e.0.y != e.1.y
    ensures MeetsAt(p, Flip(e)) == MeetsAt(p, e)
  {
    var dx, dy := e.1.x - e.0.x, e.1.y - e.0.y;
    var q, r := MeetsAt(p, e), MeetsAt(p, Flip(e));
    SolveMeets(e.0.x, p.y - e.0.y, dx, dy, q);
    SolveMeets(e.1.x, p.y - e.1.y, -dx, -dy, r);
    SameLine(e.0.x, e.0.y, e.1.x, e.1.y, p.y, dx, dy, q, r);
  }

  lemma SameLine(ax: real, ay: real, bx: real, by': real, y: real, dx: real, dy: real, q: real, r: real)
    requires dx == bx - ax && dy == by' - ay && dy != 0.0
    requires q * dy == ax * dy + (y - ay) * dx
    requires r * -dy == bx * -dy + (y - by') * -dx
    ensures q == r
  {
    assert r * dy == bx * dy + (y - by') * dx;
    assert bx * dy + (y - by') * dx == ax * dy + (y - ay) * dx;
    Cancel(dy, q - r);
  }

  lemma FlipKeepsEdge(p: Point, e: Edge, tolerance: real)
    ensures CrossesRay(p, Flip(e)) == CrossesRay(p, e)
    ensures PointOnSegment(p, e.1, e.0, tolerance) == PointOnSegment(p, e.0, e.1, tolerance)
  {
    if e.0.y != e.1.y {
      MeetsFlipped(p, e);
    }
    AreaFlips(p, e.0, e.1);
  }

  lemma AreaFlips(p: Point, a: Point, b: Point)
    ensures Area(p, b, a) == -Area(p, a, b)
  {
  }

  lemma {:induction false} CrossingsFlip(p: Point, es: seq<Edge>)
    ensures OddCrossings(p, Flipped(es)) == OddCrossings(p, es)
  {
    if |es| > 0 {
      var init, last := es[..|es| - 1], es[|es| - 1];
      CrossingsFlip(p, init);
      FlippedStarts(es);
      FlipKeepsEdge(p, last, 0.0);
      OneCrossing(p, Flip(last));
      CrossingsAdd(p, [Flip(last)], Flipped(init));
    }
  }

  lemma BoundaryFlips(p: Point, es: seq<Edge>, tolerance: real)
    ensures OnBoundary(p, Flipped(es), tolerance) <==> OnBoundary(p, es, tolerance)
  {
    if i :| 0 <= i < |es| && PointOnSegment(p, es[i].0, es[i].1, tolerance) {
      FlipKeepsEdge(p, es[i], tolerance);
      assert Flipped(es)[|es| - 1 - i] == Flip(es[i]);
    }
    if i :| 0 <= i < |es| && PointOnSegment(p, Flipped(es)[i].0, Flipped(es)[i].1, tolerance) {
      FlipKeepsEdge(p, es[|es| - 1 - i], tolerance);
    }
  }

  lemma EdgeReverses(vs: seq<Point>, i: nat)
    requires i < |vs|
    ensures EdgeAt(Reversed(vs), i) == Flip(EdgeAt(vs, if i < |vs| - 1 then |vs| - 2 - i else |vs| - 1))
  {
  }

  lemma EdgesReverse(vs: seq<Point>)
    requires |vs| > 0
    ensures var n := |vs|; Edges(Reversed(vs)) == Flipped(Edges(vs)[..n - 1]) + [Flip(Edges(vs)[n - 1])]
  {
    var n := |vs|;
    var left, right := Edges(Reversed(vs)), Flipped(Edges(vs)[..n - 1]);
    forall i | 0 <= i < n ensures left[i] == (right + [Flip(Edges(vs)[n - 1])])[i] {
      EdgeReverses(vs, i);
    }
  }

  /** Nor on the direction in which it goes round. */
  lemma ReversalInvariant(p: Point, vs: seq<Point>, policy: BoundaryPolicy, tolerance: real)
    ensures InPolygon(p, Reversed(vs), policy, tolerance) == InPolygon(p, vs, policy, tolerance)
  {
    if |vs| >= 3 {
      var es := Edges(vs);
      var init, last := es[..|vs| - 1], [es[|vs| - 1]];
      EdgesReverse(vs);
      assert init + last == es;
      assert Flipped(last) == [Flip(es[|vs| - 1])];
      CrossingsAdd(p, init, last);
      CrossingsAdd(p, Flipped(init), Flipped(last));
      CrossingsFlip(p, init);
      CrossingsFlip(p, last);
      BoundaryOfParts(p, init, last, tolerance);
      BoundaryOfParts(p, Flipped(init), Flipped(last), tolerance);
      BoundaryFlips(p, init, tolerance);
      BoundaryFlips(p, last, tolerance);
    }
  }

  // ---------------------------------------------------------------- outside the bounding box

  /** A straddling edge meets the line between its ends. */
  lemma MeetsBetween(p: Point, e: Edge)
    requires Straddles(p, e)
    ensures MinR(e.0.x, e.1.x) <= MeetsAt(p, e) <= MaxR(e.0.x, e.1.x)
  {
    var dx, dy, h := e.1.x - e.0.x, e.1.y - e.0.y, p.y - e.0.y;
    var t := Quotient(h, dy);
    var m := h * dx / dy;
    Proportion(t, h, dx, dy, m);
    var td := t * dx;
    Fraction(t, dx);
    assert MeetsAt(p, e) == e.0.x + m;
    assert m == td;
  }

  lemma Proportion(t: real, h: real, dx: real, dy: real, m: real)
    requires dy != 0.0 && t * dy == h && m == h * dx / dy
    ensures m == t * dx
  {
    assert m * dy == h * dx;
    assert (t * dx) * dy == (t * dy) * dx;
    Cancel(dy, m - t * dx);
  }

  predicate Above(p: Point, v: Point) { v.y > p.y }

  predicate OddStraddles(p: Point, es: seq<Edge>) {
    |es| > 0 && OddStraddles(p, es[..|es| - 1]) != Straddles(p, es[|es| - 1])
  }

  /** Walking along the vertices, the number of straddling edges so far tells the side. */
  lemma {:induction false} StraddlesSoFar(p: Point, vs: seq<Point>, k: nat)
    requires k < |vs|
    ensures OddStraddles(p, Edges(vs)[..k]) == (Above(p, vs[0]) != Above(p, vs[k]))
  {
    if k > 0 {
      StraddlesSoFar(p, vs, k - 1);
      assert Edges(vs)[..k][..k - 1] == Edges(vs)[..k - 1];
    }
  }

  /** Going all the way round straddles an even number of times. */
  lemma EvenStraddles(p: Point, vs: seq<Point>)
    ensures !OddStraddles(p, Edges(vs))
  {
    if |vs| > 0 {
      StraddlesSoFar(p, vs, |vs| - 1);
    }
  }

  /** Every vertex lies beyond the point by more than the tolerance, on one and the same side. */
  predicate LeftOfAll(p: Point, vs: seq<Point>, tolerance: real) {
    forall i :: 0 <= i < |vs| ==> p.x + tolerance < vs[i].x
  }

  predicate RightOfAll(p: Point, vs: seq<Point>, tolerance: real) {
    forall i :: 0 <= i < |vs| ==> vs[i].x < p.x - tolerance
  }

  predicate BelowAll(p: Point, vs: seq<Point>, tolerance: real) {
    forall i :: 0 <= i < |vs| ==> p.y + tolerance < vs[i].y
  }

  predicate AboveAll(p: Point, vs: seq<Point>, tolerance: real) {
    forall i :: 0 <= i < |vs| ==> vs[i].y < p.y - tolerance
  }

  predicate OutsideBox(p: Point, vs: seq<Point>, tolerance: real) {
    LeftOfAll(p, vs, tolerance) || RightOfAll(p, vs, tolerance) || BelowAll(p, vs, tolerance) || AboveAll(p, vs, tolerance)
  }

  lemma OffBoundary(p: Point, vs: seq<Point>, tolerance: real)
    requires tolerance >= 0.0 && OutsideBox(p, vs, tolerance)
    ensures !OnBoundary(p, Edges(vs), tolerance)
  {
    forall i | 0 <= i < |vs| ensures !InBox(p, Edges(vs)[i].0, Edges(vs)[i].1, tolerance) {
      var from, to := vs[i], vs[Next(i, |vs|)];
      assert Edges(vs)[i] == (from, to);
    }
  }

  lemma EdgeFromOutside(p: Point, vs: seq<Point>, tolerance: real, i: nat)
    requires tolerance >= 0.0 && OutsideBox(p, vs, tolerance) && i < |vs|
    ensures CrossesRay(p, EdgeAt(vs, i)) == (LeftOfAll(p, vs, tolerance) && Straddles(p, EdgeAt(vs, i)))
  {
    var from, to := vs[i], vs[Next(i, |vs|)];
    if Straddles(p, EdgeAt(vs, i)) {
      MeetsBetween(p, EdgeAt(vs, i));
    }
  }

  lemma {:induction false} CrossingsFromOutside(p: Point, vs: seq<Point>, tolerance: real, k: nat)
    requires tolerance >= 0.0 && OutsideBox(p, vs, tolerance) && k <= |vs|
    ensures OddCrossings(p, Edges(vs)[..k]) == (LeftOfAll(p, vs, tolerance) && OddStraddles(p, Edges(vs)[..k]))
  {
    if k > 0 {
      var es := Edges(vs);
      CrossingsFromOutside(p, vs, tolerance, k - 1);
      EdgeFromOutside(p, vs, tolerance, k - 1);
      assert es[..k][..k - 1] == es[..k - 1];
    }
  }

  /** A point outside the bounding box by more than the tolerance is never inside, on either policy. */
  lemma OutsideBoxIsOutside(p: Point, vs: seq<Point>, policy: BoundaryPolicy, tolerance: real)
    requires tolerance >= 0.0 && |vs| >= 3 && OutsideBox(p, vs, tolerance)
    ensures InPolygon(p, vs, policy, tolerance) == Ok(false)
  {
    OffBoundary(p, vs, tolerance);
    CrossingsFromOutside(p, vs, tolerance, |vs|);
    EvenStraddles(p, vs);
    assert Edges(vs)[..|vs|] == Edges(vs);
  }

  // ---------------------------------------------------------------- cutting along a diagonal

  lemma EdgesOfFirst(vs: seq<Point>, k: nat)
    requires 0 < k < |vs| - 1
    ensures Edges(vs[..k + 1]) == Edges(vs)[..k] + [(vs[k], vs[0])]
  {
  }

  lemma EdgesOfSecond(vs: seq<Point>, k: nat)
    requires 0 < k < |vs| - 1
    ensures Edges(vs[k..] + [vs[0]]) == Edges(vs)[k..] + [(vs[0], vs[k])]
  {
    var n := |vs|;
    var part := vs[k..] + [vs[0]];
    forall i | 0 <= i < |part| ensures EdgeAt(part, i) == (Edges(vs)[k..] + [(vs[0], vs[k])])[i] {
      if i < n - k {
        assert Edges(vs)[k..][i] == EdgeAt(vs, i + k);
      }
    }
  }

  /** Cutting a polygon along a diagonal: off all boundaries, a point is inside the whole exactly when
      it is inside one of the two parts and not the other. */
  lemma DiagonalCut(p: Point, vs: seq<Point>, k: nat)
    requires 0 < k < |vs| - 1
    ensures OddCrossings(p, Edges(vs)) ==
            (OddCrossings(p, Edges(vs[..k + 1])) != OddCrossings(p, Edges(vs[k..] + [vs[0]])))
  {
    var es, cut := Edges(vs), (vs[k], vs[0]);
    EdgesOfFirst(vs, k);
    EdgesOfSecond(vs, k);
    assert es[..k] + es[k..] == es;
    CrossingsAdd(p, es[..k], es[k..]);
    CrossingsAdd(p, es[..k], [cut]);
    CrossingsAdd(p, es[k..], [Flip(cut)]);
    OneCrossing(p, cut);
    OneCrossing(p, Flip(cut));
    FlipKeepsEdge(p, cut, 0.0);
  }

  // ---------------------------------------------------------------- the area check

  function Twist(e: Edge): real {
    e.0.x * e.1.y - e.1.x * e.0.y
  }

  /** Twice the signed area. */
  function Shoelace(es: seq<Edge>): real {
    if |es| == 0 then 0.0 else Shoelace(es[..|es| - 1]) + Twist(es[|es| - 1])
  }

  lemma ShoelaceNext(es: seq<Edge>, i: nat)
    requires i < |es|
    ensures Shoelace(es[..i + 1]) == Shoelace(es[..i]) + Twist(es[i])
  {
    assert es[..i + 1][..i] == es[..i];
  }

  function Validated(vs: seq<Point>, minArea: real): Result<seq<Point>, PolygonError> {
    if |vs| < 3 then Err(TooFewVertices)
    else if Abs(Shoelace(Edges(vs))) <= 2.0 * minArea then Err(Degenerate)
    else Ok(vs)
  }

  method ValidatePolygon(vs: seq<Point>, minArea: real) returns (r: Result<seq<Point>, PolygonError>)
    ensures r == Validated(vs, minArea)
  {
    if |vs| < 3 {
      return Err(TooFewVertices);
    }
    ghost var es := Edges(vs);
    var total := 0.0;
    for i := 0 to |vs|
      invariant total == Shoelace(es[..i])
    {
      NextIsRemainder(i, |vs|);
      var j := (i + 1) % |vs|;
      assert es[i] == (vs[i], vs[j]);
      ShoelaceNext(es, i);
      total := total + (vs[i].x * vs[j].y - vs[j].x * vs[i].y);
    }
    assert es[..|vs|] == es;
    r := if Abs(total) <= 2.0 * minArea then Err(Degenerate) else Ok(vs);
  }

  lemma {:induction false} ShoelaceAdds(a: seq<Edge>, b: seq<Edge>)
    ensures Shoelace(a + b) == Shoelace(a) + Shoelace(b)
  {
    if |b| == 0 {
      assert a + b == a;
    } else {
      assert (a + b)[..|a + b| - 1] == a + b[..|b| - 1];
      ShoelaceAdds(a, b[..|b| - 1]);
    }
  }

  lemma {:induction false} ShoelaceFlips(es: seq<Edge>)
    ensures Shoelace(Flipped(es)) == -Shoelace(es)
  {
    if |es| > 0 {
      FlippedStarts(es);
      ShoelaceFlips(es[..|es| - 1]);
      ShoelaceAdds([Flip(es[|es| - 1])], Flipped(es[..|es| - 1]));
      OneShoelace(Flip(es[|es| - 1]));
    }
  }

  lemma OneShoelace(e: Edge)
    ensures Shoelace([e]) == Twist(e) && Twist(Flip(e)) == -Twist(e)
  {
    assert [e][..0] == [];
  }

  lemma ShoelaceRotates(vs: seq<Point>, k: nat)
    requires k <= |vs|
    ensures Shoelace(Edges(Rotate(vs, k))) == Shoelace(Edges(vs))
  {
    var es := Edges(vs);
    EdgesRotate(vs, k);
    assert es[..k] + es[k..] == es;
    ShoelaceAdds(es[..k], es[k..]);
    ShoelaceAdds(es[k..], es[..k]);
  }

  lemma ShoelaceReverses(vs: seq<Point>)
    requires |vs| > 0
    ensures Shoelace(Edges(Reversed(vs))) == -Shoelace(Edges(vs))
  {
    var es := Edges(vs);
    var init, last := es[..|vs| - 1], es[|vs| - 1];
    EdgesReverse(vs);
    ShoelaceFlips(init);
    ShoelaceAdds(Flipped(init), [Flip(last)]);
    OneShoelace(last);
    OneShoelace(Flip(last));
  }

  /** Whether a polygon is accepted does not depend on its first vertex or its direction. */
  lemma ValidationInvariant(vs: seq<Point>, k: nat, minArea: real)
    requires k <= |vs|
    ensures Validated(Rotate(vs, k), minArea).Ok? <==> Validated(vs, minArea).Ok?
    ensures Validated(Reversed(vs), minArea).Ok? <==> Validated(vs, minArea).Ok?
  {
    ShoelaceRotates(vs, k);
    if |vs| > 0 {
      ShoelaceReverses(vs);
    }
  }

  function Move(v: Point, d: Point): Point {
    Point(v.x + d.x, v.y + d.y)
  }

  function Moved(vs: seq<Point>, d: Point): (r: seq<Point>)
    ensures |r| == |vs| && forall i :: 0 <= i < |vs| ==> r[i] == Move(vs[i], d)
  {
    seq(|vs|, i requires 0 <= i < |vs| => Move(vs[i], d))
  }

  /** What moving adds at a vertex; it cancels along the way. */
  function Drift(v: Point, d: Point): real {
    d.x * v.y - d.y * v.x
  }

  lemma TwistMoves(a: Point, b: Point, d: Point)
    ensures Twist((Move(a, d), Move(b, d))) == Twist((a, b)) + Drift(b, d) - Drift(a, d)
  {
  }

  lemma {:induction false} ShoelaceSoFar(vs: seq<Point>, d: Point, k: nat)
    requires k < |vs|
    ensures Shoelace(Edges(Moved(vs, d))[..k]) == Shoelace(Edges(vs)[..k]) + Drift(vs[k], d) - Drift(vs[0], d)
  {
    if k > 0 {
      var es, fs := Edges(vs), Edges(Moved(vs, d));
      ShoelaceSoFar(vs, d, k - 1);
      ShoelaceNext(es, k - 1);
      ShoelaceNext(fs, k - 1);
      assert es[k - 1] == (vs[k - 1], vs[k]) && fs[k - 1] == (Move(vs[k - 1], d), Move(vs[k], d));
      TwistMoves(vs[k - 1], vs[k], d);
    }
  }

  /** The area does not depend on where the polygon lies. */
  lemma ShoelaceMoves(vs: seq<Point>, d: Point)
    ensures Shoelace(Edges(Moved(vs, d))) == Shoelace(Edges(vs))
  {
    var n := |vs|;
    if n > 0 {
      var es, fs := Edges(vs), Edges(Moved(vs, d));
      ShoelaceSoFar(vs, d, n - 1);
      ShoelaceNext(es, n - 1);
      ShoelaceNext(fs, n - 1);
      assert es[n - 1] == (vs[n - 1], vs[0]) && fs[n - 1] == (Move(vs[n - 1], d), Move(vs[0], d));
      TwistMoves(vs[n - 1], vs[0], d);
      assert es[..n] == es && fs[..n] == fs;
    }
  }
}
