/**
 * GeometryEdge: a straight segment between two vertices, with the queries the
 * visibility graph asks of it (membership of an endpoint, coplanarity,
 * intersection, distance, undirected equality and its hash).
 *
 * The C# class is an immutable value whose cached Length and Direction are
 * derived from the two endpoints in the constructor; here the edge is a
 * datatype of its two endpoints and both derived values are functions.
 * Lengths and distances are kept squared, so that no square root is needed.
 */
module GeometryEdge {
  import opened Vectors
  import opened BoundingBoxes
  import opened VertexOrder

  /**
   * The result shapes of Intersection (GeometryBase in C#): null, a vertex,
   * or an edge.
   */
  datatype Geometry = NoGeometry | Point(vertex: Vertex) | Segment(edge: Edge)

  datatype Edge = Edge(start: Vertex, end: Vertex) {

    /** The cached Direction: the displacement from the start to the end vertex. */
    function Direction(): (d: Vector)
      ensures Translate(start, d) == end
      ensures d == Zero <==> start == end
    {
      TranslateByTwoVertices(start, end);
      ByTwoVerticesZero(start, end);
      ByTwoVertices(start, end)
    }

    /** The cached Length, squared. */
    function SquaredLength(): (l: real)
      ensures l >= 0.0
      ensures l == 0.0 <==> start == end
    {
      SquaredDistanceZero(start, end);
      SquaredDistance(start, end)
    }

    /** The point at parameter `t` of the line through the edge: start + t * Direction. */
    function At(t: real): Vertex
    {
      Translate(start, Scale(Direction(), t))
    }

    /** The same segment walked the other way. */
    function Reversed(): Edge
    {
      Edge(end, start)
    }

    /** Contains: `v` is one of the two end vertices. */
    predicate Contains(v: Vertex)
    {
      start == v || end == v
    }

    /** GetVertexPair: the end vertex when `v` is the start, the start vertex otherwise. */
    function GetVertexPair(v: Vertex): Vertex
    {
      if start == v then end else start
    }

    /**
     * IsCoplanarTo: the scalar triple product of the two directions and the
     * vector joining the start vertices is zero.
     */
    predicate IsCoplanarTo(other: Edge)
    {
      var a := Direction();
      var b := other.Direction();
      var c := ByTwoVertices(start, other.start);
      Dot(c, Cross(a, b)) == 0.0
    }

    /** ComputeBoundingBox: the box spanned by the two end vertices. */
    function ComputeBoundingBox(): BoundingBox
    {
      ByMinVertexMaxVertex(start, end)
    }

    /**
     * Equals(object): false for null and for anything that is not an edge;
     * otherwise true when the end vertices agree in either orientation.
     */
    predicate Equals(obj: Geometry)
    {
      match obj
      case Segment(e) =>
        (start == e.start && end == e.end) || (start == e.end && end == e.start)
      case _ => false
    }

    /** GetHashCode, given the hash code of a vertex: the two vertex hashes combined by xor. */
    function GetHashCode(hash: Vertex -> bv32): bv32
    {
      hash(start) ^ hash(end)
    }

    /**
     * Intersection: where this edge and `other` meet, as nothing, a vertex
     * or an edge, by the chain of guarded early returns of the C# method.
     */
    function Intersection(other: Edge): (r: Geometry)
      ensures r != NoGeometry ==> ComputeBoundingBox().Intersects(other.ComputeBoundingBox())
      ensures r != NoGeometry ==> IsCoplanarTo(other)
    {
      if !ComputeBoundingBox().Intersects(other.ComputeBoundingBox()) then NoGeometry
      else if !IsCoplanarTo(other) then NoGeometry
      else if Equals(Segment(other)) then Segment(this)
      else if IsParallelTo(Direction(), other.Direction()) then ParallelIntersection(other)
      else if other.Contains(start) then Point(start)
      else if other.Contains(end) then Point(end)
      else CrossingIntersection(other)
    }

    /** The parallel branch of Intersection: containment either way, partial overlap, or nothing. */
    function ParallelIntersection(other: Edge): Geometry
    {
      if OnEdge(other.start, this) && OnEdge(other.end, this) then Segment(other)
      else if OnEdge(start, other) && OnEdge(end, other) then Segment(this)
      else if OnEdge(start, other) || OnEdge(end, other) then Segment(Overlap(other))
      else NoGeometry
    }

    /**
     * The four end vertices sorted by (Y, X, Z), and the edge from the second
     * to the third of them.
     */
    function Overlap(other: Edge): Edge
    {
      var sorted := OrderByYXZ([start, end, other.start, other.end]);
      Edge(sorted[1], sorted[2])
    }

    /**
     * The line-line parameter of the meeting point along this edge, as a
     * numerator and a denominator: s = ((c x b) . (a x b)) / |a x b|^2.
     */
    function MeetNumerator(other: Edge): real
    {
      var c := ByTwoVertices(start, other.start);
      Dot(Cross(c, other.Direction()), Cross(Direction(), other.Direction()))
    }

    function MeetDenominator(other: Edge): real
    {
      var axb := Cross(Direction(), other.Direction());
      Dot(axb, axb)
    }

    /**
     * The general branch of Intersection, for edges that are neither parallel
     * nor share an end vertex of this edge. A zero denominator (the C# NaN or
     * infinite parameter) gives nothing.
     */
    function CrossingIntersection(other: Edge): Geometry
    {
      var denominator := MeetDenominator(other);
      if denominator == 0.0 then NoGeometry
      else
        var s := MeetNumerator(other) / denominator;
        if s == 0.0 then
          if OnEdge(start, other) then Point(start)
          else if OnEdge(end, other) then Point(end)
          else if OnEdge(other.start, this) then Point(other.start)
          else if OnEdge(other.end, this) then Point(other.end)
          else NoGeometry
        else if s < 0.0 || s > 1.0 then NoGeometry
        else
          var intersection := At(s);
          if intersection == other.start then Point(other.start)
          else if intersection == other.end then Point(other.end)
          else if !OnEdge(intersection, other) then NoGeometry
          else Point(intersection)
    }

    /**
     * Intersects: true at once when an end vertex of this edge lies on `edge`
     * and the directions are parallel; otherwise whether Intersection finds
     * anything.
     */
    predicate Intersects(edge: Edge)
    {
      if (OnEdge(start, edge) || OnEdge(end, edge)) && IsParallelTo(Direction(), edge.Direction()) then true
      else Intersection(edge) != NoGeometry
    }

    /** DistanceTo(vertex), squared: the distance from `v` to the nearest point of the edge. */
    function SquaredDistanceToVertex(v: Vertex): real
    {
      SquaredDistanceToEdge(v, this)
    }

    /**
     * DistanceTo(edge), squared, as written: for coplanar edges the least of
     * the four distances from an end vertex of one edge to the other edge;
     * otherwise the distance between the two carrying lines, (c . (a x b))^2 / |a x b|^2.
     */
    function SquaredDistanceTo(edge: Edge): real
    {
      if IsCoplanarTo(edge) then
        MinOfFour(SquaredDistanceToEdge(start, edge), SquaredDistanceToEdge(end, edge),
                  SquaredDistanceToEdge(edge.start, this), SquaredDistanceToEdge(edge.end, this))
      else
        SkewDistance(edge)
    }

    /** The squared distance between the lines through two edges that are not coplanar. */
    function SkewDistance(edge: Edge): real
      requires !IsCoplanarTo(edge)
    {
      var cross := Cross(Direction(), edge.Direction());
      var numerator := Dot(ByTwoVertices(start, edge.start), cross);
      DotSelf(cross);
      Mul(numerator, numerator) / Dot(cross, cross)
    }
  }

  /** Enumerable.Min over the four distances. */
  function MinOfFour(d0: real, d1: real, d2: real, d3: real): (m: real)
    ensures m <= d0 && m <= d1 && m <= d2 && m <= d3
    ensures m == d0 || m == d1 || m == d2 || m == d3
  {
    Min(Min(d0, d1), Min(d2, d3))
  }

  /**
   * GeometryVertex.OnEdge, without tolerance: `v` is an end vertex of `e`,
   * or `e` has a direction, `v` lies on the line through `e`, and the
   * projection of `v` falls between the end vertices. A zero-length edge
   * holds only its own vertex.
   */
  predicate OnEdge(v: Vertex, e: Edge)
  {
    var d := e.Direction();
    var w := ByTwoVertices(e.start, v);
    || v == e.start
    || v == e.end
    || (d != Zero && IsParallelTo(w, d) && 0.0 <= Dot(w, d) <= Dot(d, d))
  }

  /**
   * The parameter of the projection of `v` on the line through `e`
   * (zero for an edge without direction).
   */
  function Param(v: Vertex, e: Edge): real
  {
    var d := e.Direction();
    DotSelf(d);
    if d == Zero then 0.0 else Dot(ByTwoVertices(e.start, v), d) / Dot(d, d)
  }

  function Clamp(t: real): (c: real)
    ensures 0.0 <= c <= 1.0
    ensures 0.0 <= t <= 1.0 ==> c == t
  {
    if t < 0.0 then 0.0 else if t > 1.0 then 1.0 else t
  }

  /**
   * GeometryVertex.DistanceTo(edge), squared: the distance from `v` to the
   * point of `e` nearest to it, found by clamping the projection parameter
   * to the segment.
   */
  function SquaredDistanceToEdge(v: Vertex, e: Edge): real
  {
    SquaredDistance(v, e.At(Clamp(Param(v, e))))
  }
}
