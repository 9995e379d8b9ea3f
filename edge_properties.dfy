/**
 * The smaller promises of GeometryEdge: the values derived in the
 * constructor, endpoint membership and the opposite endpoint, undirected
 * equality with its hash, the bounding box, and coplanarity.
 */
module EdgeProperties {
  import opened Vectors
  import opened BoundingBoxes
  import opened GeometryEdge
  import opened EdgeLines
  import opened EdgeIntersection

  // ---------------------------------------------------------------------
  // Constructor
  // ---------------------------------------------------------------------

  /**
   * The derived Direction leads from the start to the end vertex, and the
   * derived length is that of the direction; both only change sign or stay
   * put when the edge is walked the other way.
   */
  lemma ConstructorDerived(start: Vertex, end: Vertex)
    ensures Translate(start, Edge(start, end).Direction()) == end
    ensures Edge(start, end).SquaredLength() == Dot(Edge(start, end).Direction(), Edge(start, end).Direction())
    ensures Edge(start, end).SquaredLength() == 0.0 <==> start == end
    ensures Edge(end, start).Direction() == Neg(Edge(start, end).Direction())
    ensures Edge(end, start).SquaredLength() == Edge(start, end).SquaredLength()
  {
    var d := Edge(start, end).Direction();
    DotNeg(d, d);
  }

  // ---------------------------------------------------------------------
  // Contains and GetVertexPair
  // ---------------------------------------------------------------------

  /**
   * Contains holds exactly for the vertices that GetVertexPair maps back to
   * themselves when applied twice; every such vertex is on the edge.
   */
  lemma ContainsVertexPair(e: Edge, v: Vertex)
    ensures e.Contains(v) <==> e.GetVertexPair(e.GetVertexPair(v)) == v
    ensures e.Contains(v) ==> OnEdge(v, e)
    ensures e.Contains(v) <==> e.Reversed().Contains(v)
  {
  }

  /**
   * GetVertexPair of the start vertex is the end vertex, of anything else the
   * start vertex; its result is always an end vertex, and for an end vertex
   * it completes the pair.
   */
  lemma GetVertexPairEnds(e: Edge, v: Vertex)
    ensures e.GetVertexPair(e.start) == e.end
    ensures v != e.start ==> e.GetVertexPair(v) == e.start
    ensures e.Contains(e.GetVertexPair(v))
    ensures e.Contains(v) ==> multiset{v, e.GetVertexPair(v)} == multiset{e.start, e.end}
  {
  }

  // ---------------------------------------------------------------------
  // Equals and GetHashCode
  // ---------------------------------------------------------------------

  /** Equals compares the end vertices as an unordered pair, and is false for null and vertices. */
  lemma EqualsUnordered(e: Edge, g: Geometry)
    ensures e.Equals(g) <==> g.Segment? && multiset{e.start, e.end} == multiset{g.edge.start, g.edge.end}
    ensures e.Equals(Segment(e.Reversed()))
  {
    if g.Segment? && multiset{e.start, e.end} == multiset{g.edge.start, g.edge.end} {
      var f := g.edge;
      assert e.start in multiset{f.start, f.end};
      assert e.end in multiset{f.start, f.end};
      if e.start == f.start {
        assert multiset{e.end} == multiset{f.start, f.end} - multiset{f.start};
      } else {
        assert multiset{e.end} == multiset{f.start, f.end} - multiset{f.end};
      }
    }
  }

  /** Equals is an equivalence on edges. */
  lemma EqualsEquivalence(e: Edge, f: Edge, g: Edge)
    ensures e.Equals(Segment(e))
    ensures e.Equals(Segment(f)) <==> f.Equals(Segment(e))
    ensures e.Equals(Segment(f)) && f.Equals(Segment(g)) ==> e.Equals(Segment(g))
  {
  }

  /** Equal edges hold the same vertices. */
  lemma EqualsSameVertices(e: Edge, f: Edge, v: Vertex)
    requires e.Equals(Segment(f))
    ensures OnEdge(v, e) <==> OnEdge(v, f)
  {
    OnReversed(v, e);
  }

  /** The hash does not see the direction of the edge, so equal edges hash alike. */
  lemma HashConsistent(e: Edge, f: Edge, hash: Vertex -> bv32)
    ensures e.Reversed().GetHashCode(hash) == e.GetHashCode(hash)
    ensures e.Equals(Segment(f)) ==> e.GetHashCode(hash) == f.GetHashCode(hash)
  {
  }

  // ---------------------------------------------------------------------
  // ComputeBoundingBox
  // ---------------------------------------------------------------------

  /**
   * The bounding box is ordered on every axis, holds every vertex on the
   * edge, and is the same for the reversed edge.
   */
  lemma BoundingBoxHoldsEdge(e: Edge, v: Vertex)
    ensures e.ComputeBoundingBox().min.x <= e.ComputeBoundingBox().max.x
    ensures e.ComputeBoundingBox().min.y <= e.ComputeBoundingBox().max.y
    ensures e.ComputeBoundingBox().min.z <= e.ComputeBoundingBox().max.z
    ensures OnEdge(v, e) ==> e.ComputeBoundingBox().Includes(v)
    ensures e.Reversed().ComputeBoundingBox() == e.ComputeBoundingBox()
  {
    if OnEdge(v, e) {
      OnEdgeInBox(v, e);
    }
    ByMinVertexMaxVertexSwap(e.start, e.end);
  }

  // ---------------------------------------------------------------------
  // IsCoplanarTo
  // ---------------------------------------------------------------------

  /** Every edge is coplanar to itself: the joining vector is zero. */
  lemma CoplanarReflexive(e: Edge)
    ensures e.IsCoplanarTo(e)
  {
    assert ByTwoVertices(e.start, e.start) == Zero;
    assert Dot(Zero, Cross(e.Direction(), e.Direction())) == 0.0;
  }

  /** Swapping the two edges negates both the joining vector and a x b, which leaves the triple product. */
  lemma CoplanarSymmetric(e: Edge, f: Edge)
    ensures e.IsCoplanarTo(f) <==> f.IsCoplanarTo(e)
  {
    var a, b := e.Direction(), f.Direction();
    var c := ByTwoVertices(e.start, f.start);
    CrossAntiCommutes(a, b);
    assert ByTwoVertices(f.start, e.start) == Neg(c);
    DotNeg(c, Cross(a, b));
  }

  /** Reversing either edge negates the triple product, so coplanarity stays. */
  lemma CoplanarReversed(e: Edge, f: Edge)
    ensures e.Reversed().IsCoplanarTo(f) <==> e.IsCoplanarTo(f)
    ensures e.IsCoplanarTo(f.Reversed()) <==> e.IsCoplanarTo(f)
  {
    var a, b := e.Direction(), f.Direction();
    var c := ByTwoVertices(e.start, f.start);
    var n := Cross(a, b);
    assert e.Reversed().Direction() == Neg(a);
    assert f.Reversed().Direction() == Neg(b);
    CrossNeg(a, b);
    CrossPerpendicular(a, b);
    assert ByTwoVertices(e.end, f.start) == Sub(c, a);
    DotSub(c, a, n);
    DotNeg(Sub(c, a), n);
    assert ByTwoVertices(e.start, f.end) == Sub(c, Neg(b));
    DotSub(c, Neg(b), n);
    DotNeg(b, n);
    DotNeg(Sub(c, Neg(b)), n);
  }

  /** Edges with parallel directions are always coplanar. */
  lemma ParallelCoplanar(e: Edge, f: Edge)
    requires IsParallelTo(e.Direction(), f.Direction())
    ensures e.IsCoplanarTo(f)
  {
    var c := ByTwoVertices(e.start, f.start);
    assert Dot(c, Zero) == Mul(c.x, 0.0) + Mul(c.y, 0.0) + Mul(c.z, 0.0);
  }
}
