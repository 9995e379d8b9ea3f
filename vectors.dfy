/**
 * Points and displacement vectors of 3-D space, with exact real coordinates.
 *
 * These stand for GeometryVertex and GeometryVector, which GeometryEdge uses
 * but which are not part of this model: vertex equality is exact equality of
 * coordinates, and two vectors are parallel when their cross product is zero.
 */
module Vectors {

  datatype Vertex = Vertex(x: real, y: real, z: real)

  datatype Vector = Vector(x: real, y: real, z: real)

  const Zero: Vector := Vector(0.0, 0.0, 0.0)

  /**
   * The product of two coordinates. Products are named through this function
   * so that the solver treats each of them as one term until it needs the
   * arithmetic; squares in particular are then handled reliably.
   */
  function Mul(a: real, b: real): real
  {
    a * b
  }

  /** The displacement that leads from `p` to `q` (GeometryVector.ByTwoVertices). */
  function ByTwoVertices(p: Vertex, q: Vertex): Vector
  {
    Vector(q.x - p.x, q.y - p.y, q.z - p.z)
  }

  /** `p` moved by `d` (GeometryVertex.Translate). */
  function Translate(p: Vertex, d: Vector): Vertex
  {
    Vertex(p.x + d.x, p.y + d.y, p.z + d.z)
  }

  /** `d` stretched by the factor `k` (GeometryVector.Scale). */
  function Scale(d: Vector, k: real): Vector
  {
    Vector(Mul(k, d.x), Mul(k, d.y), Mul(k, d.z))
  }

  function Sub(u: Vector, v: Vector): Vector
  {
    Vector(u.x - v.x, u.y - v.y, u.z - v.z)
  }

  function Neg(d: Vector): Vector
  {
    Vector(-d.x, -d.y, -d.z)
  }

  function Dot(u: Vector, v: Vector): real
  {
    Mul(u.x, v.x) + Mul(u.y, v.y) + Mul(u.z, v.z)
  }

  function Cross(u: Vector, v: Vector): Vector
  {
    Vector(Mul(u.y, v.z) - Mul(u.z, v.y), Mul(u.z, v.x) - Mul(u.x, v.z), Mul(u.x, v.y) - Mul(u.y, v.x))
  }

  /** GeometryVector.IsParallelTo, without tolerance: the cross product vanishes. */
  predicate IsParallelTo(u: Vector, v: Vector)
  {
    Cross(u, v) == Zero
  }

  /** Square of the Euclidean distance between two vertices. */
  function SquaredDistance(p: Vertex, q: Vertex): real
  {
    var d := ByTwoVertices(p, q);
    Dot(d, d)
  }

  // ---------------------------------------------------------------------
  // Algebra of the operations above
  // ---------------------------------------------------------------------

  lemma MulPositive(a: real, b: real)
    requires a > 0.0 && b > 0.0
    ensures Mul(a, b) > 0.0
  {
  }

  lemma MulNonNegative(a: real, b: real)
    requires a >= 0.0 && b >= 0.0
    ensures Mul(a, b) >= 0.0
  {
    if a > 0.0 && b > 0.0 {
      MulPositive(a, b);
    } else if a == 0.0 {
      assert Mul(a, b) == Mul(0.0, b);
    } else {
      assert Mul(a, b) == Mul(a, 0.0);
    }
  }

  /** A product of two non-zero numbers is not zero. */
  lemma MulNonZero(a: real, b: real)
    requires a != 0.0 && b != 0.0
    ensures Mul(a, b) != 0.0
  {
    if a > 0.0 && b > 0.0 {
      MulPositive(a, b);
    } else if a > 0.0 {
      MulPositive(a, -b);
      assert Mul(a, -b) == -Mul(a, b);
    } else if b > 0.0 {
      MulPositive(-a, b);
      assert Mul(-a, b) == -Mul(a, b);
    } else {
      MulPositive(-a, -b);
      assert Mul(-a, -b) == Mul(a, b);
    }
  }

  /** Multiplying by a factor keeps the order of two numbers, reverses it, or collapses it. */
  lemma MulOrder(x: real, y: real, k: real)
    ensures k > 0.0 ==> (Mul(x, k) < Mul(y, k) <==> x < y)
    ensures k < 0.0 ==> (Mul(x, k) < Mul(y, k) <==> y < x)
    ensures k != 0.0 ==> (Mul(x, k) == Mul(y, k) <==> x == y)
    ensures k == 0.0 ==> Mul(x, k) == 0.0 && Mul(y, k) == 0.0
  {
    assert Mul(y, k) - Mul(x, k) == Mul(y - x, k);
    if x != y && k != 0.0 {
      MulNonZero(y - x, k);
    }
    if x < y && k > 0.0 {
      MulPositive(y - x, k);
    }
    if y < x && k > 0.0 {
      MulPositive(x - y, k);
      assert Mul(x, k) - Mul(y, k) == Mul(x - y, k);
    }
    if x < y && k < 0.0 {
      MulPositive(y - x, -k);
      assert Mul(y - x, -k) == -Mul(y - x, k);
    }
    if y < x && k < 0.0 {
      MulPositive(x - y, -k);
      assert Mul(x - y, -k) == Mul(y - x, k);
    }
  }

  /** A quotient of a number between zero and a positive bound by that bound lies in [0, 1]. */
  lemma DivBounds(x: real, n: real)
    requires n > 0.0 && 0.0 <= x <= n
    ensures 0.0 <= x / n <= 1.0
    ensures Mul(x / n, n) == x
  {
    var k := x / n;
    assert Mul(k, n) == x;
    MulOrder(k, 0.0, n);
    MulOrder(1.0, k, n);
    assert Mul(1.0, n) == n;
    assert Mul(0.0, n) == 0.0;
  }

  /** Dividing by a non-zero number and multiplying back gives the number again. */
  lemma DivMul(x: real, n: real)
    requires n != 0.0
    ensures Mul(x / n, n) == x
  {
  }

  /** A square is never negative, and it is positive unless the number is zero. */
  lemma Square(a: real)
    ensures Mul(a, a) >= 0.0
    ensures a != 0.0 ==> Mul(a, a) > 0.0
  {
    if a > 0.0 {
      MulPositive(a, a);
    } else if a < 0.0 {
      MulPositive(-a, -a);
      assert Mul(a, a) == Mul(-a, -a);
    } else {
      assert Mul(a, a) == Mul(0.0, 0.0);
    }
  }

  /** A squared length is never negative, and it is zero only for the zero vector. */
  lemma DotSelf(u: Vector)
    ensures Dot(u, u) >= 0.0
    ensures u != Zero ==> Dot(u, u) > 0.0
    ensures Dot(u, u) == 0.0 <==> u == Zero
  {
    Square(u.x);
    Square(u.y);
    Square(u.z);
  }

  /** The squared distance between two vertices is zero exactly when they coincide. */
  lemma SquaredDistanceZero(p: Vertex, q: Vertex)
    ensures SquaredDistance(p, q) >= 0.0
    ensures SquaredDistance(p, q) == 0.0 <==> p == q
  {
    DotSelf(ByTwoVertices(p, q));
    ByTwoVerticesZero(p, q);
  }

  /** The displacement between two vertices is zero exactly when they coincide. */
  lemma ByTwoVerticesZero(p: Vertex, q: Vertex)
    ensures ByTwoVertices(p, q) == Zero <==> p == q
  {
  }

  /** Moving `p` by the displacement from `p` to `q` lands on `q`. */
  lemma TranslateByTwoVertices(p: Vertex, q: Vertex)
    ensures Translate(p, ByTwoVertices(p, q)) == q
  {
  }

  /** The cross product is anti-commutative; in particular u x u = 0. */
  lemma CrossAntiCommutes(u: Vector, v: Vector)
    ensures Cross(v, u) == Neg(Cross(u, v))
    ensures Cross(u, u) == Zero
  {
  }

  /** Negating either factor of a dot product negates it, and negating both keeps it. */
  lemma DotNeg(u: Vector, v: Vector)
    ensures Dot(Neg(u), v) == -Dot(u, v)
    ensures Dot(u, Neg(v)) == -Dot(u, v)
    ensures Dot(Neg(u), Neg(v)) == Dot(u, v)
  {
    assert Mul(-u.x, v.x) == -Mul(u.x, v.x) && Mul(u.x, -v.x) == -Mul(u.x, v.x);
    assert Mul(-u.y, v.y) == -Mul(u.y, v.y) && Mul(u.y, -v.y) == -Mul(u.y, v.y);
    assert Mul(-u.z, v.z) == -Mul(u.z, v.z) && Mul(u.z, -v.z) == -Mul(u.z, v.z);
  }

  /** Negating either factor of a cross product negates it. */
  lemma CrossNeg(u: Vector, v: Vector)
    ensures Cross(Neg(u), v) == Neg(Cross(u, v))
    ensures Cross(u, Neg(v)) == Neg(Cross(u, v))
  {
    assert Mul(-u.y, v.z) == -Mul(u.y, v.z) && Mul(-u.z, v.y) == -Mul(u.z, v.y);
    assert Mul(-u.z, v.x) == -Mul(u.z, v.x) && Mul(-u.x, v.z) == -Mul(u.x, v.z);
    assert Mul(-u.x, v.y) == -Mul(u.x, v.y) && Mul(-u.y, v.x) == -Mul(u.y, v.x);
    assert Mul(u.y, -v.z) == -Mul(u.y, v.z) && Mul(u.z, -v.y) == -Mul(u.z, v.y);
    assert Mul(u.z, -v.x) == -Mul(u.z, v.x) && Mul(u.x, -v.z) == -Mul(u.x, v.z);
    assert Mul(u.x, -v.y) == -Mul(u.x, v.y) && Mul(u.y, -v.x) == -Mul(u.y, v.x);
  }

  /** u x v is perpendicular to both u and v. */
  lemma CrossPerpendicular(u: Vector, v: Vector)
    ensures Dot(u, Cross(u, v)) == 0.0
    ensures Dot(v, Cross(u, v)) == 0.0
  {
  }

  /** Scaling the factors of a cross product scales the product. */
  lemma CrossScale(u: Vector, v: Vector, k: real, m: real)
    ensures Cross(Scale(u, k), Scale(v, m)) == Scale(Cross(u, v), Mul(k, m))
  {
  }

  /** Scaling the factors of a dot product scales the product. */
  lemma DotScale(u: Vector, v: Vector, k: real, m: real)
    ensures Dot(Scale(u, k), Scale(v, m)) == Mul(Mul(k, m), Dot(u, v))
  {
  }

  /** A multiple of a vector is parallel to it. */
  lemma ScaleParallel(d: Vector, t: real)
    ensures IsParallelTo(Scale(d, t), d)
  {
    CrossScale(d, d, t, 1.0);
    CrossAntiCommutes(d, d);
    assert Scale(d, 1.0) == d;
    assert Scale(Zero, Mul(t, 1.0)) == Zero;
  }

  /** Scaling the first factor of a dot product scales the product. */
  lemma DotScaleFirst(u: Vector, v: Vector, t: real)
    ensures Dot(Scale(u, t), v) == Mul(t, Dot(u, v))
  {
    DotScale(u, v, t, 1.0);
    assert Scale(v, 1.0) == v;
    assert Mul(t, 1.0) == t;
  }

  /** The dot product distributes over a difference in its first factor. */
  lemma DotSub(u: Vector, v: Vector, n: Vector)
    ensures Dot(Sub(u, v), n) == Dot(u, n) - Dot(v, n)
  {
  }

  /** (t a - u b) x b = t (a x b): the b part drops out. */
  lemma CrossSubScale(a: Vector, b: Vector, t: real, u: real)
    ensures Cross(Sub(Scale(a, t), Scale(b, u)), b) == Scale(Cross(a, b), t)
  {
  }

  /**
   * A vector parallel to a non-zero vector `a` is a multiple of `a`, and the
   * factor is its projection on `a`.
   */
  lemma ParallelIsMultiple(u: Vector, a: Vector)
    requires a != Zero
    requires IsParallelTo(u, a)
    ensures Dot(a, a) > 0.0
    ensures u == Scale(a, Dot(u, a) / Dot(a, a))
  {
    DotSelf(a);
    var n := Dot(a, a);
    var k := Dot(u, a);
    assert Mul(u.x, n) == Mul(k, a.x);
    assert Mul(u.y, n) == Mul(k, a.y);
    assert Mul(u.z, n) == Mul(k, a.z);
  }

  /** A vector parallel to a non-zero vector `a` is some multiple of `a`. */
  lemma ParallelFactor(a: Vector, b: Vector) returns (k: real)
    requires a != Zero
    requires IsParallelTo(a, b)
    ensures b == Scale(a, k)
  {
    CrossAntiCommutes(a, b);
    assert Neg(Zero) == Zero;
    ParallelIsMultiple(b, a);
    k := Dot(b, a) / Dot(a, a);
  }
}
