/**
 * What GeometryEdge.Intersection and GeometryEdge.Intersects compute.
 *
 * The main result, IntersectionExact, says that the shape Intersection returns
 * holds exactly the vertices the two edges share: nothing when they share
 * none, the one shared vertex when the edges are not parallel, and an edge
 * whose points are the shared ones when they are parallel and overlap.
 */
module EdgeIntersection {
  import opened Vectors
  import opened BoundingBoxes
  import opened VertexOrder
  import opened Counting
  import opened GeometryEdge
  import opened EdgeLines

  /** `v` lies on both edges. */
  predicate Common(v: Vertex, e: Edge, f: Edge)
  {
    OnEdge(v, e) && OnEdge(v, f)
  }

  /** The vertices a result of Intersection stands for. */
  predicate OnGeometry(v: Vertex, g: Geometry)
  {
    match g
    case NoGeometry => false
    case Point(p) => v == p
    case Segment(h) => OnEdge(v, h)
  }

  // ---------------------------------------------------------------------
  // The two fast rejects
  // ---------------------------------------------------------------------

  /** A vertex on an edge lies in the edge's bounding box. */
  lemma OnEdgeInBox(v: Vertex, e: Edge)
    requires OnEdge(v, e)
    ensures e.ComputeBoundingBox().Includes(v)
  {
    OnEdgeAt(v, e);
    var t := Param(v, e);
    AtCoordinates(e, t);
    MulBetween(t, e.end.x - e.start.x);
    MulBetween(t, e.end.y - e.start.y);
    MulBetween(t, e.end.z - e.start.z);
  }

  /** Edges that share a vertex have overlapping bounding boxes. */
  lemma CommonBoxes(e: Edge, f: Edge, v: Vertex)
    requires Common(v, e, f)
    ensures e.ComputeBoundingBox().Intersects(f.ComputeBoundingBox())
  {
    OnEdgeInBox(v, e);
    OnEdgeInBox(v, f);
    SharedVertexIntersects(e.ComputeBoundingBox(), f.ComputeBoundingBox(), v);
  }

  /** When e.At(t) is f.At(u), the vector joining the start vertices is t a - u b. */
  lemma JoinOfMeeting(e: Edge, f: Edge, t: real, u: real)
    requires e.At(t) == f.At(u)
    ensures ByTwoVertices(e.start, f.start) == Sub(Scale(e.Direction(), t), Scale(f.Direction(), u))
  {
    AtCoordinates(e, t);
    AtCoordinates(f, u);
  }

  /** Edges that share a vertex are coplanar. */
  lemma CommonCoplanar(e: Edge, f: Edge, v: Vertex)
    requires Common(v, e, f)
    ensures e.IsCoplanarTo(f)
  {
    var a, b := e.Direction(), f.Direction();
    var n := Cross(a, b);
    OnEdgeAt(v, e);
    OnEdgeAt(v, f);
    var t, u := Param(v, e), Param(v, f);
    JoinOfMeeting(e, f, t, u);
    DotSub(Scale(a, t), Scale(b, u), n);
    DotScaleFirst(a, n, t);
    DotScaleFirst(b, n, u);
    CrossPerpendicular(a, b);
    assert Mul(t, 0.0) == 0.0 && Mul(u, 0.0) == 0.0;
  }

  // ---------------------------------------------------------------------
  // Edges that are not parallel meet in at most one vertex
  // ---------------------------------------------------------------------

  /**
   * Where the lines of e and f meet, at e.At(t), the parameter t times the
   * denominator of the line-line formula is its numerator.
   */
  lemma LineMeet(e: Edge, f: Edge, t: real, u: real)
    requires e.At(t) == f.At(u)
    ensures Mul(t, e.MeetDenominator(f)) == e.MeetNumerator(f)
  {
    var a, b := e.Direction(), f.Direction();
    var n := Cross(a, b);
    JoinOfMeeting(e, f, t, u);
    CrossSubScale(a, b, t, u);
    DotScaleFirst(n, n, t);
  }

  /** The denominator of the line-line formula is positive exactly when the directions are not parallel. */
  lemma MeetDenominatorPositive(e: Edge, f: Edge)
    ensures e.MeetDenominator(f) >= 0.0
    ensures e.MeetDenominator(f) > 0.0 <==> !IsParallelTo(e.Direction(), f.Direction())
  {
    DotSelf(Cross(e.Direction(), f.Direction()));
  }

  /**
   * A vertex shared by two edges that are not parallel is start + s * direction
   * of the first, where s is the line-line parameter, and s is in [0, 1].
   */
  lemma CommonAtMeet(e: Edge, f: Edge, v: Vertex)
    requires !IsParallelTo(e.Direction(), f.Direction())
    requires Common(v, e, f)
    ensures e.MeetDenominator(f) > 0.0
    ensures v == e.At(e.MeetNumerator(f) / e.MeetDenominator(f))
    ensures 0.0 <= e.MeetNumerator(f) / e.MeetDenominator(f) <= 1.0
  {
    MeetDenominatorPositive(e, f);
    var d, n := e.MeetDenominator(f), e.MeetNumerator(f);
    OnEdgeAt(v, e);
    OnEdgeAt(v, f);
    var t := Param(v, e);
    LineMeet(e, f, t, Param(v, f));
    DivMul(n, d);
    MulOrder(n / d, t, d);
  }

  /** Two edges that are not parallel share at most one vertex. */
  lemma CommonUnique(e: Edge, f: Edge, v: Vertex, w: Vertex)
    requires !IsParallelTo(e.Direction(), f.Direction())
    requires Common(v, e, f) && Common(w, e, f)
    ensures v == w
  {
    CommonAtMeet(e, f, v);
    CommonAtMeet(e, f, w);
  }

  // ---------------------------------------------------------------------
  // Points of sub-segments
  // ---------------------------------------------------------------------

  /** An edge and its reversal hold the same vertices. */
  lemma OnReversed(v: Vertex, e: Edge)
    ensures OnEdge(v, e.Reversed()) <==> OnEdge(v, e)
  {
    if e.start != e.end {
      AtEnds(e);
      SelfSubEdge(e);
      CollinearOnEdge(e, 1.0, 0.0, v);
      CollinearOnEdge(e, 0.0, 1.0, v);
    }
  }

  /** The segment between two vertices of an edge lies within the edge. */
  lemma Convex(e: Edge, p: Vertex, q: Vertex, v: Vertex)
    requires OnEdge(p, e) && OnEdge(q, e)
    requires OnEdge(v, Edge(p, q))
    ensures OnEdge(v, e)
  {
    if e.Direction() == Zero {
      assert p == e.start && q == e.start;
    } else {
      OnEdgeAt(p, e);
      OnEdgeAt(q, e);
      var tp, tq := Param(p, e), Param(q, e);
      CollinearOnEdge(e, tp, tq, v);
      AtOnEdge(e, Param(v, e));
    }
  }

  // ---------------------------------------------------------------------
  // The branches of Intersection
  // ---------------------------------------------------------------------

  lemma EqualExact(e: Edge, f: Edge, v: Vertex)
    requires e.Equals(Segment(f))
    ensures OnEdge(v, e) <==> Common(v, e, f)
  {
    if f != e {
      assert f == e.Reversed();
      OnReversed(v, e);
    }
  }

  lemma ContainsExact(e: Edge, f: Edge, v: Vertex)
    requires OnEdge(f.start, e) && OnEdge(f.end, e)
    ensures OnEdge(v, f) <==> Common(v, e, f)
  {
    if OnEdge(v, f) {
      Convex(e, f.start, f.end, v);
    }
  }

  /** The parameter along `e` of the first end of the overlap of parallel edges. */
  function OverlapLow(e: Edge, f: Edge): real
  {
    var d := e.Direction();
    HighParam(d, LowParam(d, 0.0, 1.0), LowParam(d, Param(f.start, e), Param(f.end, e)))
  }

  /** The parameter along `e` of the second end of the overlap of parallel edges. */
  function OverlapHigh(e: Edge, f: Edge): real
  {
    var d := e.Direction();
    LowParam(d, HighParam(d, 0.0, 1.0), HighParam(d, Param(f.start, e), Param(f.end, e)))
  }

  /**
   * For parallel edges that share a vertex, sorting the four end vertices by
   * (Y, X, Z) puts the lower end of each edge before the higher end of the
   * other, so the second and third of them are the later of the two lower
   * ends and the earlier of the two higher ends.
   */
  lemma OverlapEnds(e: Edge, f: Edge, c: Vertex)
    requires e.Direction() != Zero
    requires IsParallelTo(e.Direction(), f.Direction())
    requires Common(c, e, f)
    ensures e.Overlap(f) == Edge(e.At(OverlapLow(e, f)), e.At(OverlapHigh(e, f)))
  {
    var d := e.Direction();
    ParallelOnLine(e, f, c);
    AtEnds(e);
    var t1, t2 := Param(f.start, e), Param(f.end, e);
    FirstLastAlongLine(e, 0.0, 1.0);
    FirstLastAlongLine(e, t1, t2);
    var p, q := First(e.start, e.end), Last(e.start, e.end);
    var r, s := First(f.start, f.end), Last(f.start, f.end);
    var lp, hq := LowParam(d, 0.0, 1.0), HighParam(d, 0.0, 1.0);
    var lr, hs := LowParam(d, t1, t2), HighParam(d, t1, t2);
    assert Key(d, lp) <= Key(d, hs) && Key(d, lr) <= Key(d, hq) by {
      OnEdgeAt(c, e);
      var tc := Param(c, e);
      CollinearOnEdge(e, t1, t2, c);
      BetweenKey(d, tc, 0.0, 1.0);
      BetweenKey(d, tc, t1, t2);
    }
    PrecedesAlongLine(e, lp, hs);
    PrecedesAlongLine(e, lr, hq);
    OrderedPair(e.start, e.end);
    OrderedPair(f.start, f.end);
    SortTwoPairs(p, q, r, s);
    PairsMultiset(e.start, e.end, f.start, f.end, p, q, r, s);
    OrderIndependent([e.start, e.end, f.start, f.end], [p, q, r, s]);
    FirstLastAlongLine(e, lp, lr);
    FirstLastAlongLine(e, hq, hs);
  }

  /** For parallel edges that share a vertex, the overlap edge holds exactly the shared vertices. */
  lemma OverlapExact(e: Edge, f: Edge, c: Vertex, v: Vertex)
    requires e.Direction() != Zero
    requires IsParallelTo(e.Direction(), f.Direction())
    requires Common(c, e, f)
    ensures OnEdge(v, e.Overlap(f)) <==> Common(v, e, f)
  {
    var d := e.Direction();
    OverlapEnds(e, f, c);
    ParallelOnLine(e, f, c);
    SelfSubEdge(e);
    var t1, t2 := Param(f.start, e), Param(f.end, e);
    var lo, hi := OverlapLow(e, f), OverlapHigh(e, f);
    OnEdgeAt(c, e);
    CollinearOnEdge(e, t1, t2, c);
    var tc, tv := Param(c, e), Param(v, e);
    CollinearOnEdge(e, lo, hi, v);
    CollinearOnEdge(e, 0.0, 1.0, v);
    CollinearOnEdge(e, t1, t2, v);
    KeyOfOverlap(d, tc, tv, lo, hi, t1, t2);
  }

  /**
   * The interval arithmetic behind OverlapExact: when the two parameter
   * ranges [0, 1] and [t1, t2] share `tc`, `tv` lies between the ends of the
   * overlap exactly when it lies in both ranges.
   */
  lemma KeyOfOverlap(d: Vector, tc: real, tv: real, lo: real, hi: real, t1: real, t2: real)
    requires lo == HighParam(d, LowParam(d, 0.0, 1.0), LowParam(d, t1, t2))
    requires hi == LowParam(d, HighParam(d, 0.0, 1.0), HighParam(d, t1, t2))
    requires Between(tc, 0.0, 1.0) && Between(tc, t1, t2)
    ensures Between(tv, lo, hi) <==> Between(tv, 0.0, 1.0) && Between(tv, t1, t2)
  {
    BetweenKey(d, tc, 0.0, 1.0);
    BetweenKey(d, tc, t1, t2);
    BetweenKey(d, tv, 0.0, 1.0);
    BetweenKey(d, tv, t1, t2);
    BetweenKey(d, tv, lo, hi);
  }

  /**
   * Parallel edges neither of which lies on the other, and with no end vertex
   * of the first on the second, share no vertex.
   */
  lemma ParallelNoneExact(e: Edge, f: Edge, v: Vertex)
    requires IsParallelTo(e.Direction(), f.Direction())
    requires !(OnEdge(f.start, e) && OnEdge(f.end, e))
    requires !OnEdge(e.start, f) && !OnEdge(e.end, f)
    ensures !Common(v, e, f)
  {
    // On an edge without direction the only vertex is the start, which is not on f.
    if Common(v, e, f) && e.Direction() != Zero {
      ParallelOnLine(e, f, v);
      AtEnds(e);
      var t1, t2 := Param(f.start, e), Param(f.end, e);
      OnEdgeAtParam(e, t1);
      OnEdgeAtParam(e, t2);
      ParamAt(e, 0.0);
      ParamAt(e, 1.0);
      CollinearOnEdge(e, t1, t2, e.start);
      CollinearOnEdge(e, t1, t2, e.end);
      OnEdgeAt(v, e);
      CollinearOnEdge(e, t1, t2, v);
      assert false;
    }
  }

  lemma ParallelExact(e: Edge, f: Edge, v: Vertex)
    requires IsParallelTo(e.Direction(), f.Direction())
    ensures OnGeometry(v, e.ParallelIntersection(f)) <==> Common(v, e, f)
  {
    if OnEdge(f.start, e) && OnEdge(f.end, e) {
      ContainsExact(e, f, v);
    } else if OnEdge(e.start, f) && OnEdge(e.end, f) {
      ContainsExact(f, e, v);
    } else if OnEdge(e.start, f) || OnEdge(e.end, f) {
      var c := if OnEdge(e.start, f) then e.start else e.end;
      OverlapExact(e, f, c, v);
    } else {
      ParallelNoneExact(e, f, v);
    }
  }

  /** A vertex shared by edges that are not parallel is the only one they share. */
  lemma PointExact(e: Edge, f: Edge, p: Vertex, v: Vertex)
    requires !IsParallelTo(e.Direction(), f.Direction())
    requires Common(p, e, f)
    ensures v == p <==> Common(v, e, f)
  {
    if Common(v, e, f) {
      CommonUnique(e, f, v, p);
    }
  }

  /** The general branch returns nothing, or a vertex the edges share. */
  lemma CrossingSound(e: Edge, f: Edge)
    requires !IsParallelTo(e.Direction(), f.Direction())
    ensures e.CrossingIntersection(f).Point? ==> Common(e.CrossingIntersection(f).vertex, e, f)
    ensures e.CrossingIntersection(f).NoGeometry? ==> forall v :: !Common(v, e, f)
    ensures !e.CrossingIntersection(f).Segment?
  {
    MeetDenominatorPositive(e, f);
    var s := e.MeetNumerator(f) / e.MeetDenominator(f);
    AtEnds(e);
    if 0.0 <= s <= 1.0 {
      AtOnEdge(e, s);
    }
    forall v | Common(v, e, f)
      ensures e.CrossingIntersection(f) != NoGeometry
    {
      CommonAtMeet(e, f, v);
    }
  }

  lemma CrossingExact(e: Edge, f: Edge, v: Vertex)
    requires !IsParallelTo(e.Direction(), f.Direction())
    ensures OnGeometry(v, e.CrossingIntersection(f)) <==> Common(v, e, f)
  {
    CrossingSound(e, f);
    if e.CrossingIntersection(f).Point? {
      PointExact(e, f, e.CrossingIntersection(f).vertex, v);
    }
  }

  // ---------------------------------------------------------------------
  // Intersection as a whole
  // ---------------------------------------------------------------------

  /**
   * Intersection returns exactly the vertices the two edges share: a vertex
   * is in the result if and only if it lies on both edges.
   */
  lemma IntersectionExact(e: Edge, f: Edge, v: Vertex)
    ensures OnGeometry(v, e.Intersection(f)) <==> Common(v, e, f)
  {
    if !e.ComputeBoundingBox().Intersects(f.ComputeBoundingBox()) {
      if Common(v, e, f) {
        CommonBoxes(e, f, v);
      }
    } else if !e.IsCoplanarTo(f) {
      if Common(v, e, f) {
        CommonCoplanar(e, f, v);
      }
    } else if e.Equals(Segment(f)) {
      EqualExact(e, f, v);
    } else if IsParallelTo(e.Direction(), f.Direction()) {
      ParallelExact(e, f, v);
    } else if f.Contains(e.start) {
      PointExact(e, f, e.start, v);
    } else if f.Contains(e.end) {
      PointExact(e, f, e.end, v);
    } else {
      CrossingExact(e, f, v);
    }
  }

  /** Every vertex Intersection returns lies on both edges, and so do both ends of an edge it returns. */
  lemma IntersectionSound(e: Edge, f: Edge)
    ensures e.Intersection(f).Point? ==> Common(e.Intersection(f).vertex, e, f)
    ensures e.Intersection(f).Segment? ==> Common(e.Intersection(f).edge.start, e, f)
    ensures e.Intersection(f).Segment? ==> Common(e.Intersection(f).edge.end, e, f)
  {
    match e.Intersection(f)
    case NoGeometry =>
    case Point(p) =>
      IntersectionExact(e, f, p);
    case Segment(h) =>
      IntersectionExact(e, f, h.start);
      IntersectionExact(e, f, h.end);
  }

  /** A vertex shared by both edges is never missed. */
  lemma IntersectionComplete(e: Edge, f: Edge, v: Vertex)
    requires Common(v, e, f)
    ensures e.Intersection(f) != NoGeometry
  {
    IntersectionExact(e, f, v);
  }

  /** A vertex of a result of Intersection. */
  lemma Witness(e: Edge, f: Edge) returns (v: Vertex)
    requires e.Intersection(f) != NoGeometry
    ensures Common(v, e, f)
  {
    IntersectionSound(e, f);
    v := if e.Intersection(f).Point? then e.Intersection(f).vertex else e.Intersection(f).edge.start;
  }

  /** Intersection finds something exactly when the edges share a vertex. */
  lemma IntersectionNonEmpty(e: Edge, f: Edge)
    ensures e.Intersection(f) != NoGeometry <==> exists v :: Common(v, e, f)
  {
    if e.Intersection(f) != NoGeometry {
      var v := Witness(e, f);
    }
    if v :| Common(v, e, f) {
      IntersectionComplete(e, f, v);
    }
  }

  /**
   * Intersects is Intersection found something: its parallel fast path only
   * answers true where Intersection would not have returned null anyway.
   */
  lemma IntersectsMeaning(e: Edge, f: Edge)
    ensures e.Intersects(f) <==> e.Intersection(f) != NoGeometry
  {
    if OnEdge(e.start, f) {
      IntersectionComplete(e, f, e.start);
    }
    if OnEdge(e.end, f) {
      IntersectionComplete(e, f, e.end);
    }
  }

  /** Intersects does not depend on which edge asks. */
  lemma IntersectsSymmetric(e: Edge, f: Edge)
    ensures e.Intersects(f) <==> f.Intersects(e)
  {
    IntersectsMeaning(e, f);
    IntersectsMeaning(f, e);
    if e.Intersection(f) != NoGeometry {
      var v := Witness(e, f);
      IntersectionComplete(f, e, v);
    }
    if f.Intersection(e) != NoGeometry {
      var v := Witness(f, e);
      IntersectionComplete(e, f, v);
    }
  }

  /**
   * The two edges taken in either order give results that stand for the same
   * vertices, although the shape returned may differ.
   */
  lemma IntersectionSameVertices(e: Edge, f: Edge, v: Vertex)
    ensures OnGeometry(v, e.Intersection(f)) <==> OnGeometry(v, f.Intersection(e))
  {
    IntersectionExact(e, f, v);
    IntersectionExact(f, e, v);
  }

  /** An edge meets itself, and its own reversal, in the whole edge. */
  lemma SelfIntersection(e: Edge)
    ensures e.Intersection(e) == Segment(e)
    ensures e.Intersection(e.Reversed()) == Segment(e)
  {
    var b := e.ComputeBoundingBox();
    BoxIntersectsSymmetric(b, b);
    ByMinVertexMaxVertexSwap(e.start, e.end);
    CommonCoplanar(e, e, e.start);
    OnReversed(e.start, e);
    CommonCoplanar(e, e.Reversed(), e.start);
  }

  /**
   * On parallel edges that are not equal, Intersection returns the other edge
   * when it lies on this one, and this edge when it lies on the other.
   */
  lemma IntersectionContainment(e: Edge, f: Edge)
    requires IsParallelTo(e.Direction(), f.Direction())
    requires !e.Equals(Segment(f))
    ensures OnEdge(f.start, e) && OnEdge(f.end, e) ==> e.Intersection(f) == Segment(f)
    ensures !(OnEdge(f.start, e) && OnEdge(f.end, e)) && OnEdge(e.start, f) && OnEdge(e.end, f)
      ==> e.Intersection(f) == Segment(e)
  {
    if OnEdge(f.start, e) {
      CommonBoxes(e, f, f.start);
      CommonCoplanar(e, f, f.start);
    }
    if OnEdge(e.start, f) {
      CommonBoxes(e, f, e.start);
      CommonCoplanar(e, f, e.start);
    }
  }

  /**
   * When the edges are not parallel, any vertex Intersection returns is
   * start + s * direction for the line-line parameter s, which is in [0, 1],
   * and the vertex lies on the other edge.
   */
  lemma CrossingPoint(e: Edge, f: Edge)
    requires !IsParallelTo(e.Direction(), f.Direction())
    requires e.Intersection(f).Point?
    ensures e.MeetDenominator(f) > 0.0
    ensures 0.0 <= e.MeetNumerator(f) / e.MeetDenominator(f) <= 1.0
    ensures e.Intersection(f).vertex == e.At(e.MeetNumerator(f) / e.MeetDenominator(f))
    ensures OnEdge(e.Intersection(f).vertex, f)
  {
    IntersectionSound(e, f);
    CommonAtMeet(e, f, e.Intersection(f).vertex);
  }

  /**
   * The overlap edge does not depend on the order in which the four end
   * vertices are listed: swapping the edges, reversing either of them or
   * reversing both gives the same edge.
   */
  lemma OverlapOrderIndependent(e: Edge, f: Edge)
    ensures e.Overlap(f) == f.Overlap(e)
    ensures e.Overlap(f) == e.Reversed().Overlap(f)
    ensures e.Overlap(f) == e.Overlap(f.Reversed())
    ensures e.Overlap(f) == e.Reversed().Overlap(f.Reversed())
  {
    SwapPairs(e.start, e.end, f.start, f.end);
    OrderIndependent([e.start, e.end, f.start, f.end], [f.start, f.end, e.start, e.end]);
    OverlapReversedFirst(e, f);
    OverlapReversedFirst(f, e);
    OverlapReversedFirst(e, f.Reversed());
    SwapPairs(e.start, e.end, f.end, f.start);
    OrderIndependent([e.start, e.end, f.end, f.start], [f.end, f.start, e.start, e.end]);
  }

  /** Reversing the first edge leaves the overlap edge unchanged. */
  lemma OverlapReversedFirst(e: Edge, f: Edge)
    ensures e.Overlap(f) == e.Reversed().Overlap(f)
  {
    var a, b, c, d := e.start, e.end, f.start, f.end;
    PairsOfFour(a, b, c, d);
    PairsOfFour(b, a, c, d);
    OrderIndependent([a, b, c, d], [b, a, c, d]);
  }

  /** Equal edges have parallel directions. */
  lemma EqualsParallel(e: Edge, f: Edge)
    requires e.Equals(Segment(f))
    ensures IsParallelTo(e.Direction(), f.Direction())
  {
    var a := e.Direction();
    CrossAntiCommutes(a, a);
    if f != e {
      assert f.Direction() == Neg(a);
      CrossNeg(a, a);
    }
  }

  /**
   * Edges that are not parallel and share a vertex meet in exactly that
   * vertex: Intersection returns it as a Point.
   */
  lemma NonParallelMeet(e: Edge, f: Edge, p: Vertex)
    requires !IsParallelTo(e.Direction(), f.Direction())
    requires Common(p, e, f)
    ensures e.Intersection(f) == Point(p)
  {
    if e.Equals(Segment(f)) {
      EqualsParallel(e, f);
    }
    CrossingSound(e, f);
    IntersectionExact(e, f, p);
  }

  /**
   * The crossing of (0, 0, 0)-(2a, 0, 0) and (a, -b, 0)-(a, b, 0) is the point
   * (a, 0, 0); with a = b = 5 these are the edges (0, 0)-(10, 0) and
   * (5, -5)-(5, 5), which meet at (5, 0).
   */
  lemma PerpendicularCrossing(a: real, b: real)
    requires a > 0.0 && b > 0.0
    ensures Edge(Vertex(0.0, 0.0, 0.0), Vertex(2.0 * a, 0.0, 0.0)).Intersection(Edge(Vertex(a, -b, 0.0), Vertex(a, b, 0.0)))
         == Point(Vertex(a, 0.0, 0.0))
  {
    var e := Edge(Vertex(0.0, 0.0, 0.0), Vertex(2.0 * a, 0.0, 0.0));
    var f := Edge(Vertex(a, -b, 0.0), Vertex(a, b, 0.0));
    var p := Vertex(a, 0.0, 0.0);
    assert e.At(0.5) == p;
    assert f.At(0.5) == p;
    AtOnEdge(e, 0.5);
    AtOnEdge(f, 0.5);
    MulNonZero(2.0 * a, 2.0 * b);
    assert Cross(e.Direction(), f.Direction()).z == Mul(2.0 * a, 2.0 * b);
    NonParallelMeet(e, f, p);
  }

  /**
   * Collinear edges (0, 0, 0)-(a, 0, 0) and (2a, 0, 0)-(3a, 0, 0) do not meet;
   * with a = 10 these are the edges (0, 0)-(10, 0) and (20, 0)-(30, 0).
   */
  lemma CollinearDisjoint(a: real)
    requires a > 0.0
    ensures Edge(Vertex(0.0, 0.0, 0.0), Vertex(a, 0.0, 0.0)).Intersection(Edge(Vertex(2.0 * a, 0.0, 0.0), Vertex(3.0 * a, 0.0, 0.0)))
         == NoGeometry
  {
  }

  /**
   * Parallel edges whose lines are distinct never meet: when the start vertex
   * of `f` is off the line of `e`, Intersection returns nothing, whatever the
   * bounding boxes say.
   */
  lemma ParallelDistinctLines(e: Edge, f: Edge)
    requires e.Direction() != Zero
    requires IsParallelTo(e.Direction(), f.Direction())
    requires forall t :: f.start != e.At(t)
    ensures e.Intersection(f) == NoGeometry
  {
    if e.Intersection(f) != NoGeometry {
      var v := Witness(e, f);
      ParallelOnLine(e, f, v);
    }
  }
}
