# GeometryEdge, verified

This project models `GeometryEdge` in Dafny. In the RefineryToolkits visibility-graph
engine, `GeometryEdge` is the straight segment between two vertices. The visibility
query asks each edge whether it touches another. Intersection is the central algorithm:
it returns nothing, a vertex, or an overlapping edge. Around it sit an edge's
coplanarity test, its distance to a vertex and to another edge, undirected equality
with a matching hash, and its bounding box.

An edge is a datatype of its two end vertices. The cached `Length` and `Direction`
become functions of them. `Intersection` is written as the same chain of guarded early
returns as the C# method. Coordinates are exact reals, and lengths and distances are
kept squared.

The modules:

- `Vectors` covers vertices and vectors, products and their algebra.
- `BoundingBoxes` covers the axis-aligned box of two vertices.
- `VertexOrder` covers the sort by (Y, X, Z) that the overlap case uses.
- `Counting` holds multiset bookkeeping.
- `GeometryEdge` is the edge itself.
- `EdgeLines` covers points of the line through an edge and their parameters.
- `EdgeIntersection` and `EdgeDistance` hold what Intersection, Intersects and
  DistanceTo compute.
- `EdgeProperties` holds the smaller promises.

The main result is `EdgeIntersection.IntersectionExact`. The shape Intersection returns
stands for exactly the vertices the two edges share. This covers every branch:

- the two fast rejects;
- equal edges;
- containment;
- partial collinear overlap, which takes the middle two of the four end vertices
  sorted by (Y, X, Z);
- a shared end vertex;
- the line-line formula with its range test.

Soundness, completeness, the equivalence of Intersects with a non-null Intersection, symmetry
and the crossing example are proved from that result. Self-intersection, containment and
the collinear disjoint example follow directly from the early returns. The reference
for "lies on the edge" is `EdgeLines.OnEdgeExists`: a vertex is on an edge exactly when it
is start + t * direction for some t in [0, 1]. The distance from a vertex to an edge is
proved to be the least distance to any point of the edge.

For coplanar edges, `DistanceTo(edge)` at lines 198-206 is not zero for two segments that
cross at interior points of both. That is recorded under Findings below.

## Model

All source paths are in `src/GenerativeToolkit.Graphs/Geometry/GeometryEdge.cs`.

| member | source | states |
|---|---|---|
| GeometryEdge.Edge.Direction | src/GenerativeToolkit.Graphs/Geometry/GeometryEdge.cs:37-43 | the cached direction translates the start vertex onto the end vertex, and is zero exactly when the two vertices coincide |
| GeometryEdge.Edge.SquaredLength | src/GenerativeToolkit.Graphs/Geometry/GeometryEdge.cs:41 | the cached length (squared) is never negative and is zero exactly for a zero-length edge |
| EdgeProperties.ConstructorDerived | src/GenerativeToolkit.Graphs/Geometry/GeometryEdge.cs:37-54 | ByStartVertexEndVertex builds the edge whose direction leads from start to end and whose length is the length of that direction; walking the edge backwards negates the direction and keeps the length |
| EdgeProperties.ContainsVertexPair | src/GenerativeToolkit.Graphs/Geometry/GeometryEdge.cs:74-87 | Contains holds exactly for the vertices that GetVertexPair maps back to themselves when applied twice; a contained vertex lies on the edge; containment ignores direction |
| EdgeProperties.GetVertexPairEnds | src/GenerativeToolkit.Graphs/Geometry/GeometryEdge.cs:84-87 | GetVertexPair of the start is the end, of anything else the start; it always answers an end vertex, and for an end vertex it completes the pair |
| EdgeProperties.CoplanarReflexive | src/GenerativeToolkit.Graphs/Geometry/GeometryEdge.cs:89-97 | every edge is coplanar to itself |
| EdgeProperties.CoplanarSymmetric | src/GenerativeToolkit.Graphs/Geometry/GeometryEdge.cs:89-97 | IsCoplanarTo does not depend on the order of the two edges |
| EdgeProperties.CoplanarReversed | src/GenerativeToolkit.Graphs/Geometry/GeometryEdge.cs:89-97 | IsCoplanarTo does not depend on the direction of either edge |
| EdgeProperties.ParallelCoplanar | src/GenerativeToolkit.Graphs/Geometry/GeometryEdge.cs:89-97 | edges with parallel directions are always coplanar |
| EdgeIntersection.CommonCoplanar | src/GenerativeToolkit.Graphs/Geometry/GeometryEdge.cs:103 | edges that share a vertex are coplanar, so the coplanarity reject never discards a real intersection |
| EdgeIntersection.CommonBoxes | src/GenerativeToolkit.Graphs/Geometry/GeometryEdge.cs:102 | edges that share a vertex have intersecting bounding boxes, so the box reject never discards a real intersection |
| GeometryEdge.Edge.Intersection | src/GenerativeToolkit.Graphs/Geometry/GeometryEdge.cs:99-176 | a non-null result implies that the bounding boxes intersect and the edges are coplanar |
| EdgeIntersection.IntersectionExact | src/GenerativeToolkit.Graphs/Geometry/GeometryEdge.cs:99-176 | a vertex belongs to the returned shape (null, vertex or edge) if and only if it lies on both edges |
| EdgeIntersection.EqualExact | src/GenerativeToolkit.Graphs/Geometry/GeometryEdge.cs:104 | when the edges are equal, returning this edge returns exactly the shared vertices |
| EdgeIntersection.ContainsExact | src/GenerativeToolkit.Graphs/Geometry/GeometryEdge.cs:112-114 | when both ends of one edge lie on the other, the contained edge holds exactly the shared vertices |
| EdgeLines.OnEdgeExists | src/GenerativeToolkit.Graphs/Geometry/GeometryEdge.cs:112-116 | the OnEdge test the code calls holds exactly for the points start + t * direction with t in [0, 1], the segment as a set of points |
| EdgeIntersection.OverlapExact | src/GenerativeToolkit.Graphs/Geometry/GeometryEdge.cs:116-127 | for parallel edges that share a vertex, where this edge has a direction (line 116 is reached only when an end of this edge is off the other edge, so the two ends differ), the edge between the second and third of the four end vertices sorted by (Y, X, Z) holds exactly the shared vertices |
| EdgeIntersection.OverlapOrderIndependent | src/GenerativeToolkit.Graphs/Geometry/GeometryEdge.cs:118-126 | the overlap edge does not depend on the order of the edges, and reversing either edge or both leaves it unchanged |
| VertexOrder.OrderByYXZ | src/GenerativeToolkit.Graphs/Geometry/GeometryEdge.cs:125 | the OrderBy(Y).ThenBy(X).ThenBy(Z) result is sorted by (Y, X, Z) and is a permutation of its input |
| VertexOrder.SortedUnique | src/GenerativeToolkit.Graphs/Geometry/GeometryEdge.cs:125 | two sorted permutations of the same vertices are equal, so the sort's result is determined by the set of vertices |
| EdgeIntersection.ParallelNoneExact | src/GenerativeToolkit.Graphs/Geometry/GeometryEdge.cs:128-132 | parallel edges for which none of the three containment tests holds share no vertex, so null is correct |
| EdgeIntersection.ParallelExact | src/GenerativeToolkit.Graphs/Geometry/GeometryEdge.cs:109-133 | the parallel branch returns a shape that holds exactly the shared vertices |
| EdgeIntersection.IntersectionContainment | src/GenerativeToolkit.Graphs/Geometry/GeometryEdge.cs:109-114 | for parallel edges that are not equal, Intersection returns the other edge when it lies on this one, else this edge when it lies on the other |
| EdgeIntersection.ParallelDistinctLines | src/GenerativeToolkit.Graphs/Geometry/GeometryEdge.cs:109-133 | parallel edges on distinct lines never intersect, whatever their bounding boxes |
| EdgeIntersection.PointExact | src/GenerativeToolkit.Graphs/Geometry/GeometryEdge.cs:136-137 | for edges that are not parallel, a shared end vertex is the only shared vertex |
| EdgeIntersection.MeetDenominatorPositive | src/GenerativeToolkit.Graphs/Geometry/GeometryEdge.cs:143-149 | the denominator |a x b|^2 is never negative, and it is positive exactly when the directions are not parallel (a zero denominator is the NaN case of line 164) |
| EdgeIntersection.CommonAtMeet | src/GenerativeToolkit.Graphs/Geometry/GeometryEdge.cs:141-166 | a vertex shared by edges that are not parallel is start + s * direction for the line-line parameter s, and s lies in [0, 1] |
| EdgeIntersection.CommonUnique | src/GenerativeToolkit.Graphs/Geometry/GeometryEdge.cs:141-149 | edges that are not parallel share at most one vertex |
| EdgeIntersection.CrossingSound | src/GenerativeToolkit.Graphs/Geometry/GeometryEdge.cs:141-175 | the line-line branch returns a vertex on both edges, or null only when the edges share no vertex, and never an edge |
| EdgeIntersection.CrossingExact | src/GenerativeToolkit.Graphs/Geometry/GeometryEdge.cs:141-175 | the line-line branch returns a shape that holds exactly the shared vertices |
| EdgeIntersection.CrossingPoint | src/GenerativeToolkit.Graphs/Geometry/GeometryEdge.cs:149-175 | a vertex returned for edges that are not parallel is start + s * direction with 0 <= s <= 1, and it lies on the other edge |
| EdgeIntersection.NonParallelMeet | src/GenerativeToolkit.Graphs/Geometry/GeometryEdge.cs:135-175 | edges that are not parallel and share a vertex intersect in exactly that vertex, returned as a point |
| EdgeIntersection.EqualsParallel | src/GenerativeToolkit.Graphs/Geometry/GeometryEdge.cs:104-109 | equal edges have parallel directions, so the equality branch is a special case of the parallel one |
| EdgeIntersection.IntersectionSound | src/GenerativeToolkit.Graphs/Geometry/GeometryEdge.cs:99-176 | a returned vertex, and both ends of a returned edge, lie on both edges |
| EdgeIntersection.IntersectionComplete | src/GenerativeToolkit.Graphs/Geometry/GeometryEdge.cs:99-176 | when the edges share a vertex, Intersection is not null |
| EdgeIntersection.Witness | src/GenerativeToolkit.Graphs/Geometry/GeometryEdge.cs:99-176 | a non-null result yields a vertex on both edges |
| EdgeIntersection.IntersectionNonEmpty | src/GenerativeToolkit.Graphs/Geometry/GeometryEdge.cs:99-176 | Intersection is non-null if and only if the edges share a vertex |
| EdgeIntersection.IntersectionSameVertices | src/GenerativeToolkit.Graphs/Geometry/GeometryEdge.cs:99-176 | swapping the edges gives a result that stands for the same vertices |
| EdgeIntersection.SelfIntersection | src/GenerativeToolkit.Graphs/Geometry/GeometryEdge.cs:102-104 | an edge intersected with itself, or with its reversal, is the edge itself |
| EdgeIntersection.PerpendicularCrossing | src/GenerativeToolkit.Graphs/Geometry/GeometryEdge.cs:99-176 | (0,0,0)-(2a,0,0) and (a,-b,0)-(a,b,0) intersect in the point (a,0,0); with a = b = 5 these are the edges (0,0)-(10,0) and (5,-5)-(5,5) |
| EdgeIntersection.CollinearDisjoint | src/GenerativeToolkit.Graphs/Geometry/GeometryEdge.cs:102 | collinear edges (0,0,0)-(a,0,0) and (2a,0,0)-(3a,0,0) give null; with a = 10 these are (0,0)-(10,0) and (20,0)-(30,0) |
| EdgeIntersection.IntersectsMeaning | src/GenerativeToolkit.Graphs/Geometry/GeometryEdge.cs:178-188 | the parallel fast path never changes the answer: Intersects holds if and only if Intersection is non-null |
| EdgeIntersection.IntersectsSymmetric | src/GenerativeToolkit.Graphs/Geometry/GeometryEdge.cs:178-188 | Intersects does not depend on the order of the edges |
| EdgeDistance.DistanceToVertexLeast | src/GenerativeToolkit.Graphs/Geometry/GeometryEdge.cs:190-193 | DistanceTo(vertex) is never negative, is zero exactly for vertices on the edge, and is no more than the distance to any vertex on the edge |
| EdgeDistance.DistanceToEdgeZero | src/GenerativeToolkit.Graphs/Geometry/GeometryEdge.cs:190-193 | the vertex-to-edge distance is never negative, and it is zero exactly for vertices on the edge |
| EdgeDistance.DistanceToEdgeNearest | src/GenerativeToolkit.Graphs/Geometry/GeometryEdge.cs:190-193 | the vertex-to-edge distance is attained at a point of the edge and is no more than the distance to any point start + t * direction with t in [0, 1] |
| EdgeDistance.DistanceToEdgeIsLeast | src/GenerativeToolkit.Graphs/Geometry/GeometryEdge.cs:190-193 | the vertex-to-edge distance is no more than the distance to any vertex on the edge |
| GeometryEdge.MinOfFour | src/GenerativeToolkit.Graphs/Geometry/GeometryEdge.cs:200-206 | the minimum of the four distances is at most each of them and equal to one of them |
| EdgeDistance.DistanceToCases | src/GenerativeToolkit.Graphs/Geometry/GeometryEdge.cs:195-219 | DistanceTo(edge) is never negative; for coplanar edges it is at most each of the four end-vertex distances; for non-coplanar edges it is positive |
| EdgeDistance.DistanceToZero | src/GenerativeToolkit.Graphs/Geometry/GeometryEdge.cs:195-219 | DistanceTo(edge) is zero if and only if an end vertex of one edge lies on the other |
| EdgeDistance.DistanceToSymmetric | src/GenerativeToolkit.Graphs/Geometry/GeometryEdge.cs:195-219 | DistanceTo(edge) does not depend on the order of the edges |
| EdgeDistance.SkewDistancePositive | src/GenerativeToolkit.Graphs/Geometry/GeometryEdge.cs:207-216 | the closed-form distance between non-coplanar edges is positive |
| EdgeDistance.SkewDistanceSymmetric | src/GenerativeToolkit.Graphs/Geometry/GeometryEdge.cs:207-216 | non-coplanarity does not depend on the order of the edges, and the closed-form distance is the same measured from either edge |
| EdgeDistance.SkewDistanceLowerBound | src/GenerativeToolkit.Graphs/Geometry/GeometryEdge.cs:207-216 | the closed-form distance is at most the distance between any point of one carrying line and any point of the other |
| EdgeDistance.CrossingSegmentsDistance | src/GenerativeToolkit.Graphs/Geometry/GeometryEdge.cs:198-206 | for the crossing segments (-h,0,0)-(h,0,0) and (0,-h,0)-(0,h,0), which share the origin, DistanceTo as written is positive, while the corrected distance is zero |
| EdgeDistance.DistanceBetweenZero | src/GenerativeToolkit.Graphs/Geometry/GeometryEdge.cs:195-219 | the corrected distance is never negative, is zero if and only if the edges share a vertex, and is never more than DistanceTo as written |
| EdgeDistance.DistanceBetweenSymmetric | src/GenerativeToolkit.Graphs/Geometry/GeometryEdge.cs:195-219 | the corrected distance does not depend on the order of the edges |
| EdgeDistance.DistanceBetweenAgrees | src/GenerativeToolkit.Graphs/Geometry/GeometryEdge.cs:195-219 | for edges that share no vertex, the corrected distance equals DistanceTo as written |
| EdgeProperties.EqualsUnordered | src/GenerativeToolkit.Graphs/Geometry/GeometryEdge.cs:229-238 | Equals holds exactly for an edge with the same unordered pair of end vertices, and is false for anything that is not an edge |
| EdgeProperties.EqualsEquivalence | src/GenerativeToolkit.Graphs/Geometry/GeometryEdge.cs:229-238 | Equals is reflexive, symmetric and transitive on edges |
| EdgeProperties.EqualsSameVertices | src/GenerativeToolkit.Graphs/Geometry/GeometryEdge.cs:229-238 | equal edges hold the same vertices |
| EdgeProperties.HashConsistent | src/GenerativeToolkit.Graphs/Geometry/GeometryEdge.cs:244-247 | the hash ignores the direction of the edge, so equal edges hash alike |
| EdgeProperties.BoundingBoxHoldsEdge | src/GenerativeToolkit.Graphs/Geometry/GeometryEdge.cs:259-262 | the box is ordered on every axis, includes every vertex on the edge, and is the same for the reversed edge |

## Left out

- Floating point is left out. The C# code computes in `double`, compares with `AlmostEqualTo` and can produce NaN. The model uses exact reals:
  - `s.AlmostEqualTo(0)` is `s == 0`;
  - a zero denominator, the NaN case, returns nothing;
  - vertex equality is exact.
- Square roots are left out. `Length`, both `DistanceTo` overloads and `Math.Abs(numerator) / Math.Abs(denominator)` appear squared (`SquaredLength`, `SquaredDistanceToEdge`, `SkewDistance`). Squaring is monotone on non-negative values, so zero tests and comparisons carry over.
- The collaborator classes are not part of this model: `GeometryVertex`, `GeometryVector`, `GeometryBoundingBox` and `GeometryBase`. Their operations are modelled exactly, from their use here and the geometry they stand for:
  - `IsParallelTo` holds when the cross product is zero;
  - `OnEdge` holds for an end vertex, or for a vertex on the line whose projection falls between the ends;
  - the box is the per-axis minimum and maximum of the two vertices. `ByMinVertexMaxVertex` at line 261 takes the end vertices as they come, so this relies on the box ordering them per axis. If the box kept the corners as given, an interval-overlap test on the box of an edge from (1,0,0) to (0,0,0) could fail even against itself, and line 102 would then return null for that edge with itself. `EdgeIntersection.CommonBoxes`, the completeness half of `EdgeIntersection.IntersectionExact`, `EdgeIntersection.IntersectionComplete`, `EdgeIntersection.SelfIntersection` and `EdgeIntersection.IntersectsMeaning` depend on this;
  - `GeometryVertex.DistanceTo(edge)` is the distance to the clamped projection.
- `GetHashCode` takes the vertex hash as a parameter. The vertex hash function itself is not part of this model.
- `ToString` is left out: it only formats text.
- Object identity is left out. Intersection returns the C# objects `this` and `other`; the model returns them as values.
- `GeometryEdge.Edge.SquaredDistanceTo`, for coplanar edges, is not proved to be the least distance between points of the two segments. As written it is not, as Findings shows. What is proved is that it lies between zero and each end-vertex distance.
- `EdgeDistance.SkewDistanceLowerBound` states only a lower bound. For non-coplanar edges the C# code returns the distance between the two carrying lines, which can be smaller than the distance between the segments. The model keeps that formula as written.
- Zero-length edges are accepted by the constructor, as in the C# code; it does not reject them. Such an edge holds only its own vertex.

## Findings

| source | as written | input that shows it | evidently intended | confidence | as-written member | corrected member |
|---|---|---|---|---|---|---|
| src/GenerativeToolkit.Graphs/Geometry/GeometryEdge.cs:198-206 | for coplanar edges, DistanceTo(edge) is the least of the four distances from an end vertex of one edge to the other edge | (-1,0,0)-(1,0,0) and (0,-1,0)-(0,1,0), which cross at the origin; as written the distance is 1 | zero whenever the edges share a vertex | high (not executed) | EdgeDistance.CrossingSegmentsDistance | EdgeDistance.DistanceBetweenZero |

The corrected distance is `EdgeDistance.SquaredDistanceBetween`. It answers zero when
Intersection finds a common vertex, and the written formula otherwise.
