/**
 * Axis-aligned bounding boxes, the fast reject that GeometryEdge.Intersection
 * tries first. GeometryBoundingBox is not part of this model: a box built from
 * two vertices is taken to span, on every axis, from the smaller to the larger
 * of their coordinates, and two boxes intersect when their closed extents
 * overlap on all three axes.
 */
module BoundingBoxes {
  import opened Vectors

  datatype BoundingBox = BoundingBox(min: Vertex, max: Vertex) {

    /** The box contains `v`, boundary included. */
    predicate Includes(v: Vertex)
    {
      && min.x <= v.x <= max.x
      && min.y <= v.y <= max.y
      && min.z <= v.z <= max.z
    }

    /** GeometryBoundingBox.Intersects: the boxes overlap on every axis. */
    predicate Intersects(other: BoundingBox)
    {
      && min.x <= other.max.x && other.min.x <= max.x
      && min.y <= other.max.y && other.min.y <= max.y
      && min.z <= other.max.z && other.min.z <= max.z
    }
  }

  function Min(a: real, b: real): real
  {
    if a <= b then a else b
  }

  function Max(a: real, b: real): real
  {
    if a <= b then b else a
  }

  /**
   * The smallest box holding the two corner vertices `p` and `q`
   * (GeometryBoundingBox.ByMinVertexMaxVertex).
   */
  function ByMinVertexMaxVertex(p: Vertex, q: Vertex): (b: BoundingBox)
    ensures b.Includes(p) && b.Includes(q)
    ensures b.min.x <= b.max.x && b.min.y <= b.max.y && b.min.z <= b.max.z
    ensures forall v :: b.Includes(v) ==> Min(p.x, q.x) <= v.x <= Max(p.x, q.x)
    ensures forall v :: b.Includes(v) ==> Min(p.y, q.y) <= v.y <= Max(p.y, q.y)
    ensures forall v :: b.Includes(v) ==> Min(p.z, q.z) <= v.z <= Max(p.z, q.z)
  {
    BoundingBox(Vertex(Min(p.x, q.x), Min(p.y, q.y), Min(p.z, q.z)),
                Vertex(Max(p.x, q.x), Max(p.y, q.y), Max(p.z, q.z)))
  }

  /** The box does not depend on which corner is given first. */
  lemma ByMinVertexMaxVertexSwap(p: Vertex, q: Vertex)
    ensures ByMinVertexMaxVertex(p, q) == ByMinVertexMaxVertex(q, p)
  {
  }

  /** Overlap is symmetric, and every box with min <= max overlaps itself. */
  lemma BoxIntersectsSymmetric(b: BoundingBox, c: BoundingBox)
    ensures b.Intersects(c) <==> c.Intersects(b)
    ensures b.min.x <= b.max.x && b.min.y <= b.max.y && b.min.z <= b.max.z ==> b.Intersects(b)
  {
  }

  /** Two boxes that both contain some vertex overlap. */
  lemma SharedVertexIntersects(b: BoundingBox, c: BoundingBox, v: Vertex)
    requires b.Includes(v) && c.Includes(v)
    ensures b.Intersects(c)
  {
  }
}
