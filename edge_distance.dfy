/**
 * GeometryEdge.DistanceTo, with distances squared.
 *
 * The vertex-to-edge distance is the distance to the nearest point of the
 * segment. The edge-to-edge distance as written takes, for coplanar edges,
 * the least of the four vertex-to-edge distances of the end vertices; for
 * two segments that cross at interior points that is not zero, so the
 * corrected distance, SquaredDistanceBetween, answers zero whenever the
 * edges meet.
 */
module EdgeDistance {
  import opened Vectors
  import opened BoundingBoxes
  import opened GeometryEdge
  import opened EdgeLines
  import opened EdgeIntersection
  import opened EdgeProperties

  // ---------------------------------------------------------------------
  // From a vertex to an edge
  // ---------------------------------------------------------------------

  /** The distance from a vertex to an edge is never negative, and it is zero exactly on the edge. */
  lemma DistanceToEdgeZero(v: Vertex, e: Edge)
    ensures SquaredDistanceToEdge(v, e) >= 0.0
    ensures SquaredDistanceToEdge(v, e) == 0.0 <==> OnEdge(v, e)
  {
    var c := Clamp(Param(v, e));
    SquaredDistanceZero(v, e.At(c));
    if OnEdge(v, e) {
      OnEdgeAt(v, e);
    }
    if SquaredDistanceToEdge(v, e) == 0.0 {
      AtOnEdge(e, c);
    }
  }

  /** The vector from `v` to e.At(t) is t d - w, where w leads from the start vertex to `v`. */
  lemma ToAt(v: Vertex, e: Edge, t: real)
    ensures ByTwoVertices(v, e.At(t)) == Sub(Scale(e.Direction(), t), ByTwoVertices(e.start, v))
  {
    AtCoordinates(e, t);
  }

  lemma SquareExpand(a: real, b: real, t: real)
    ensures Mul(Mul(t, a) - b, Mul(t, a) - b) == Mul(b, b) - 2.0 * Mul(t, Mul(b, a)) + Mul(Mul(t, t), Mul(a, a))
  {
  }

  /** |t d - w|^2 as a quadratic in t. */
  lemma QuadExpand(d: Vector, w: Vector, t: real)
    ensures Dot(Sub(Scale(d, t), w), Sub(Scale(d, t), w))
         == Dot(w, w) - 2.0 * Mul(t, Dot(w, d)) + Mul(Mul(t, t), Dot(d, d))
  {
    SquareExpand(d.x, w.x, t);
    SquareExpand(d.y, w.y, t);
    SquareExpand(d.z, w.z, t);
    assert Mul(t, Dot(w, d)) == Mul(t, Mul(w.x, d.x)) + Mul(t, Mul(w.y, d.y)) + Mul(t, Mul(w.z, d.z));
    assert Mul(Mul(t, t), Dot(d, d))
        == Mul(Mul(t, t), Mul(d.x, d.x)) + Mul(Mul(t, t), Mul(d.y, d.y)) + Mul(Mul(t, t), Mul(d.z, d.z));
  }

  /** The change of the quadratic between two parameters, factored. */
  lemma QuadDifference(p: real, n: real, t: real, c: real)
    ensures (-2.0 * Mul(t, Mul(p, n)) + Mul(Mul(t, t), n)) - (-2.0 * Mul(c, Mul(p, n)) + Mul(Mul(c, c), n))
         == Mul(Mul(t - c, t + c - 2.0 * p), n)
  {
  }

  /**
   * With the clamped minimiser c of the parabola whose vertex is at p, the
   * factor (t - c)(t + c - 2p) is never negative for t in [0, 1].
   */
  lemma ClampedFactor(p: real, t: real)
    requires 0.0 <= t <= 1.0
    ensures Mul(t - Clamp(p), t + Clamp(p) - 2.0 * p) >= 0.0
  {
    var c := Clamp(p);
    if p < 0.0 {
      MulNonNegative(t, t - 2.0 * p);
    } else if p > 1.0 {
      MulNonNegative(1.0 - t, 2.0 * p - t - 1.0);
      assert Mul(1.0 - t, 2.0 * p - t - 1.0) == Mul(t - 1.0, t + 1.0 - 2.0 * p);
    } else {
      Square(t - p);
      assert t + c - 2.0 * p == t - p;
    }
  }

  /**
   * GeometryVertex.DistanceTo(edge) is the distance to the nearest point of
   * the edge: no vertex on the edge is closer, and the nearest one is on it.
   */
  lemma DistanceToEdgeNearest(v: Vertex, e: Edge, t: real)
    requires 0.0 <= t <= 1.0
    ensures SquaredDistanceToEdge(v, e) <= SquaredDistance(v, e.At(t))
    ensures OnEdge(e.At(Clamp(Param(v, e))), e)
  {
    var d, w := e.Direction(), ByTwoVertices(e.start, v);
    var c := Clamp(Param(v, e));
    AtOnEdge(e, c);
    if d == Zero {
      AtDegenerate(e, t);
      AtDegenerate(e, c);
    } else {
      DotSelf(d);
      var n := Dot(d, d);
      var p := Param(v, e);
      DivMul(Dot(w, d), n);
      ToAt(v, e, t);
      ToAt(v, e, c);
      QuadExpand(d, w, t);
      QuadExpand(d, w, c);
      QuadDifference(p, n, t, c);
      ClampedFactor(p, t);
      MulNonNegative(Mul(t - c, t + c - 2.0 * p), n);
    }
  }

  /** The same, for every vertex on the edge. */
  lemma DistanceToEdgeIsLeast(v: Vertex, e: Edge, u: Vertex)
    requires OnEdge(u, e)
    ensures SquaredDistanceToEdge(v, e) <= SquaredDistance(v, u)
  {
    OnEdgeAt(u, e);
    DistanceToEdgeNearest(v, e, Param(u, e));
  }

  /**
   * GeometryEdge.DistanceTo(vertex) is never negative, is zero exactly for
   * vertices on the edge, and is no more than the distance to any vertex on
   * the edge.
   */
  lemma DistanceToVertexLeast(e: Edge, v: Vertex)
    ensures e.SquaredDistanceToVertex(v) >= 0.0
    ensures e.SquaredDistanceToVertex(v) == 0.0 <==> OnEdge(v, e)
    ensures forall u :: OnEdge(u, e) ==> e.SquaredDistanceToVertex(v) <= SquaredDistance(v, u)
  {
    DistanceToEdgeZero(v, e);
    forall u | OnEdge(u, e)
      ensures e.SquaredDistanceToVertex(v) <= SquaredDistance(v, u)
    {
      DistanceToEdgeIsLeast(v, e, u);
    }
  }

  // ---------------------------------------------------------------------
  // From an edge to an edge, as written
  // ---------------------------------------------------------------------

  /** The triple product is non-zero exactly when the edges are not coplanar, and then the skew distance is positive. */
  lemma SkewDistancePositive(e: Edge, f: Edge)
    requires !e.IsCoplanarTo(f)
    ensures e.SkewDistance(f) > 0.0
  {
    var cross := Cross(e.Direction(), f.Direction());
    var numerator := Dot(ByTwoVertices(e.start, f.start), cross);
    Square(numerator);
    assert cross != Zero by {
      assert Dot(ByTwoVertices(e.start, f.start), Zero) == 0.0;
    }
    DotSelf(cross);
  }

  /**
   * DistanceTo(edge) is never negative. For coplanar edges it is one of the
   * four end-vertex distances and no larger than any of them; otherwise it is
   * the positive distance between the two lines.
   */
  lemma DistanceToCases(e: Edge, f: Edge)
    ensures e.SquaredDistanceTo(f) >= 0.0
    ensures e.IsCoplanarTo(f) ==>
      && e.SquaredDistanceTo(f) <= SquaredDistanceToEdge(e.start, f)
      && e.SquaredDistanceTo(f) <= SquaredDistanceToEdge(e.end, f)
      && e.SquaredDistanceTo(f) <= SquaredDistanceToEdge(f.start, e)
      && e.SquaredDistanceTo(f) <= SquaredDistanceToEdge(f.end, e)
    ensures !e.IsCoplanarTo(f) ==> e.SquaredDistanceTo(f) > 0.0
  {
    if e.IsCoplanarTo(f) {
      DistanceToEdgeZero(e.start, f);
      DistanceToEdgeZero(e.end, f);
      DistanceToEdgeZero(f.start, e);
      DistanceToEdgeZero(f.end, e);
    } else {
      SkewDistancePositive(e, f);
    }
  }

  /** As written, the distance is zero exactly when an end vertex of one edge lies on the other. */
  lemma DistanceToZero(e: Edge, f: Edge)
    ensures e.SquaredDistanceTo(f) == 0.0 <==>
      OnEdge(e.start, f) || OnEdge(e.end, f) || OnEdge(f.start, e) || OnEdge(f.end, e)
  {
    DistanceToCases(e, f);
    DistanceToEdgeZero(e.start, f);
    DistanceToEdgeZero(e.end, f);
    DistanceToEdgeZero(f.start, e);
    DistanceToEdgeZero(f.end, e);
    if OnEdge(e.start, f) {
      CommonCoplanar(e, f, e.start);
    } else if OnEdge(e.end, f) {
      CommonCoplanar(e, f, e.end);
    } else if OnEdge(f.start, e) {
      CommonCoplanar(e, f, f.start);
    } else if OnEdge(f.end, e) {
      CommonCoplanar(e, f, f.end);
    }
  }

  /** The skew distance does not depend on which edge is measured from. */
  lemma SkewDistanceSymmetric(e: Edge, f: Edge)
    requires !e.IsCoplanarTo(f)
    ensures !f.IsCoplanarTo(e) && e.SkewDistance(f) == f.SkewDistance(e)
  {
    CoplanarSymmetric(e, f);
    var a, b := e.Direction(), f.Direction();
    var c := ByTwoVertices(e.start, f.start);
    CrossAntiCommutes(a, b);
    assert ByTwoVertices(f.start, e.start) == Neg(c);
    DotNeg(c, Cross(a, b));
    DotNeg(Cross(a, b), Cross(a, b));
  }

  /** DistanceTo(edge) does not depend on which edge is measured from. */
  lemma DistanceToSymmetric(e: Edge, f: Edge)
    ensures e.SquaredDistanceTo(f) == f.SquaredDistanceTo(e)
  {
    CoplanarSymmetric(e, f);
    if !e.IsCoplanarTo(f) {
      SkewDistanceSymmetric(e, f);
    }
  }

  /**
   * The skew distance is a lower bound for the distance between any point of
   * the line of `e` and any point of the line of `f`.
   */
  lemma SkewDistanceLowerBound(e: Edge, f: Edge, t: real, u: real)
    requires !e.IsCoplanarTo(f)
    ensures e.SkewDistance(f) <= SquaredDistance(e.At(t), f.At(u))
  {
    var n := Cross(e.Direction(), f.Direction());
    var g := ByTwoVertices(e.At(t), f.At(u));
    TripleProductAlongLines(e, f, t, u);
    assert n != Zero by {
      assert Dot(ByTwoVertices(e.start, f.start), Zero) == 0.0;
    }
    DotSelf(n);
    ProjectionBound(g, n);
  }

  /** Moving along either line does not change the component of the joining vector along a x b. */
  lemma TripleProductAlongLines(e: Edge, f: Edge, t: real, u: real)
    ensures Dot(ByTwoVertices(e.At(t), f.At(u)), Cross(e.Direction(), f.Direction()))
         == Dot(ByTwoVertices(e.start, f.start), Cross(e.Direction(), f.Direction()))
  {
    var a, b := e.Direction(), f.Direction();
    var n := Cross(a, b);
    var c := ByTwoVertices(e.start, f.start);
    JoinOfPoints(e, f, t, u);
    DotSub(c, Scale(a, t), n);
    DotSub(Sub(c, Scale(a, t)), Neg(Scale(b, u)), n);
    DotScaleFirst(a, n, t);
    DotScaleFirst(b, n, u);
    DotNeg(Scale(b, u), n);
    CrossPerpendicular(a, b);
    assert Mul(t, 0.0) == 0.0 && Mul(u, 0.0) == 0.0;
  }

  /** The squared component of `g` along a non-zero `n` is at most |g|^2. */
  lemma ProjectionBound(g: Vector, n: Vector)
    requires Dot(n, n) != 0.0
    ensures Mul(Dot(g, n), Dot(g, n)) / Dot(n, n) <= Dot(g, g)
  {
    DotSelf(n);
    CauchySchwarz(g, n);
    var k := Dot(g, n);
    var m := Dot(n, n);
    DivMul(Mul(k, k), m);
    MulOrder(Dot(g, g), Mul(k, k) / m, m);
  }

  /** The vector between e.At(t) and f.At(u), in terms of the vector between the start vertices. */
  lemma JoinOfPoints(e: Edge, f: Edge, t: real, u: real)
    ensures ByTwoVertices(e.At(t), f.At(u))
         == Sub(Sub(ByTwoVertices(e.start, f.start), Scale(e.Direction(), t)), Neg(Scale(f.Direction(), u)))
  {
    AtCoordinates(e, t);
    AtCoordinates(f, u);
  }

  /** Lagrange's identity: |g|^2 |n|^2 - (g . n)^2 = |g x n|^2, so (g . n)^2 <= |g|^2 |n|^2. */
  lemma CauchySchwarz(g: Vector, n: Vector)
    ensures Mul(Dot(g, n), Dot(g, n)) <= Mul(Dot(g, g), Dot(n, n))
  {
    var x := Cross(g, n);
    DotSelf(x);
    Lagrange(g, n);
  }

  lemma Lagrange(g: Vector, n: Vector)
    ensures Mul(Dot(g, g), Dot(n, n)) - Mul(Dot(g, n), Dot(g, n)) == Dot(Cross(g, n), Cross(g, n))
  {
  }

  // ---------------------------------------------------------------------
  // The corrected edge-to-edge distance
  // ---------------------------------------------------------------------

  /**
   * DistanceTo(edge), squared, answering zero when the edges meet and the
   * written formula otherwise.
   */
  function SquaredDistanceBetween(e: Edge, f: Edge): real
  {
    if e.Intersection(f) != NoGeometry then 0.0 else e.SquaredDistanceTo(f)
  }

  /**
   * The corrected distance is never negative, is zero exactly when the edges
   * share a vertex, and is never more than the distance as written.
   */
  lemma DistanceBetweenZero(e: Edge, f: Edge)
    ensures SquaredDistanceBetween(e, f) >= 0.0
    ensures SquaredDistanceBetween(e, f) == 0.0 <==> exists v :: Common(v, e, f)
    ensures SquaredDistanceBetween(e, f) <= e.SquaredDistanceTo(f)
  {
    DistanceToCases(e, f);
    IntersectionNonEmpty(e, f);
    if e.Intersection(f) == NoGeometry && e.SquaredDistanceTo(f) == 0.0 {
      DistanceToZero(e, f);
      var v := if OnEdge(e.start, f) then e.start
        else if OnEdge(e.end, f) then e.end
        else if OnEdge(f.start, e) then f.start
        else f.end;
      assert Common(v, e, f);
    }
  }

  /** The corrected distance does not depend on which edge is measured from. */
  lemma DistanceBetweenSymmetric(e: Edge, f: Edge)
    ensures SquaredDistanceBetween(e, f) == SquaredDistanceBetween(f, e)
  {
    DistanceToSymmetric(e, f);
    IntersectsSymmetric(e, f);
    IntersectsMeaning(e, f);
    IntersectsMeaning(f, e);
  }

  /** Where the edges do not meet, the corrected distance is the written one. */
  lemma DistanceBetweenAgrees(e: Edge, f: Edge)
    requires forall v :: !Common(v, e, f)
    ensures SquaredDistanceBetween(e, f) == e.SquaredDistanceTo(f)
  {
    IntersectionNonEmpty(e, f);
  }

  /**
   * Two segments of half-length h crossing at their midpoints,
   * (-h, 0, 0)-(h, 0, 0) and (0, -h, 0)-(0, h, 0): they share the origin, but
   * the written distance is not zero, because no end vertex of either lies on
   * the other.
   */
  lemma CrossingSegmentsDistance(h: real)
    requires h > 0.0
    ensures Common(Vertex(0.0, 0.0, 0.0), CrossE(h), CrossF(h))
    ensures CrossE(h).SquaredDistanceTo(CrossF(h)) > 0.0
    ensures SquaredDistanceBetween(CrossE(h), CrossF(h)) == 0.0
  {
    CrossingSegmentsMeet(h);
    EndsOffOtherSegment(h);
    DistanceToZero(CrossE(h), CrossF(h));
    DistanceToCases(CrossE(h), CrossF(h));
    DistanceBetweenZero(CrossE(h), CrossF(h));
  }

  /** The crossing segments share the origin, the midpoint of each. */
  lemma CrossingSegmentsMeet(h: real)
    ensures Common(Vertex(0.0, 0.0, 0.0), CrossE(h), CrossF(h))
  {
    var o := Vertex(0.0, 0.0, 0.0);
    assert CrossE(h).At(0.5) == o;
    assert CrossF(h).At(0.5) == o;
    AtOnEdge(CrossE(h), 0.5);
    AtOnEdge(CrossF(h), 0.5);
  }

  /** Each end vertex is off the line of the other segment. */
  lemma EndsOffOtherSegment(h: real)
    requires h > 0.0
    ensures !OnEdge(CrossE(h).start, CrossF(h)) && !OnEdge(CrossE(h).end, CrossF(h))
    ensures !OnEdge(CrossF(h).start, CrossE(h)) && !OnEdge(CrossF(h).end, CrossE(h))
  {
    var e, f := CrossE(h), CrossF(h);
    MulNonZero(h, 2.0 * h);
    MulNonZero(-h, 2.0 * h);
    OffLine(e.start, f, Vector(-h, h, 0.0), Vector(0.0, 2.0 * h, 0.0));
    OffLine(e.end, f, Vector(h, h, 0.0), Vector(0.0, 2.0 * h, 0.0));
    OffLine(f.start, e, Vector(h, -h, 0.0), Vector(2.0 * h, 0.0, 0.0));
    OffLine(f.end, e, Vector(h, h, 0.0), Vector(2.0 * h, 0.0, 0.0));
  }

  /** A vertex that is not an end vertex and whose offset from the start is not parallel to the direction is off the edge. */
  lemma OffLine(v: Vertex, e: Edge, w: Vector, d: Vector)
    requires v != e.start && v != e.end
    requires ByTwoVertices(e.start, v) == w && e.Direction() == d
    requires Cross(w, d) != Zero
    ensures !OnEdge(v, e)
  {
  }

  function CrossE(h: real): Edge
  {
    Edge(Vertex(-h, 0.0, 0.0), Vertex(h, 0.0, 0.0))
  }

  function CrossF(h: real): Edge
  {
    Edge(Vertex(0.0, -h, 0.0), Vertex(0.0, h, 0.0))
  }
}
