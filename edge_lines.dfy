/**
 * The line through an edge, walked by a real parameter: e.At(t) is
 * start + t * Direction, so the segment itself is the part with t in [0, 1].
 * OnEdge, the (Y, X, Z) vertex order and sub-segments of a line are all
 * translated here into statements about parameters, which is the form in
 * which the intersection proofs use them.
 */
module EdgeLines {
  import opened Vectors
  import opened VertexOrder
  import opened GeometryEdge

  /** `t` lies between `x` and `y`, whichever of them is larger. */
  predicate Between(t: real, x: real, y: real)
  {
    (x <= t <= y) || (y <= t <= x)
  }

  lemma AtCoordinates(e: Edge, t: real)
    ensures e.At(t).x == e.start.x + Mul(t, e.end.x - e.start.x)
    ensures e.At(t).y == e.start.y + Mul(t, e.end.y - e.start.y)
    ensures e.At(t).z == e.start.z + Mul(t, e.end.z - e.start.z)
  {
  }

  /** Parameter 0 is the start vertex and parameter 1 the end vertex. */
  lemma AtEnds(e: Edge)
    ensures e.At(0.0) == e.start && e.At(1.0) == e.end
  {
    AtCoordinates(e, 0.0);
    AtCoordinates(e, 1.0);
  }

  /** Every parameter of a zero-length edge gives its one vertex. */
  lemma AtDegenerate(e: Edge, t: real)
    requires e.start == e.end
    ensures e.At(t) == e.start
  {
    AtCoordinates(e, t);
  }

  /** The displacement from the start vertex to e.At(t) is t times the direction. */
  lemma StartToAt(e: Edge, t: real)
    ensures ByTwoVertices(e.start, e.At(t)) == Scale(e.Direction(), t)
  {
  }

  /** The projection parameter of e.At(t) is t. */
  lemma ParamAt(e: Edge, t: real)
    requires e.Direction() != Zero
    ensures Param(e.At(t), e) == t
  {
    var d := e.Direction();
    DotSelf(d);
    StartToAt(e, t);
    DotScale(d, d, t, 1.0);
    assert Scale(d, 1.0) == d;
    var n := Dot(d, d);
    var k := Param(e.At(t), e);
    assert Mul(k, n) == Mul(t, n);
    MulOrder(k, t, n);
  }

  /** A vertex on an edge is the point of its projection parameter, which lies in [0, 1]. */
  lemma OnEdgeAt(v: Vertex, e: Edge)
    requires OnEdge(v, e)
    ensures 0.0 <= Param(v, e) <= 1.0
    ensures v == e.At(Param(v, e))
  {
    var d := e.Direction();
    AtEnds(e);
    if d == Zero {
      assert v == e.start;
    } else if v == e.start {
      ParamAt(e, 0.0);
    } else if v == e.end {
      ParamAt(e, 1.0);
    } else {
      var w := ByTwoVertices(e.start, v);
      ParallelIsMultiple(w, d);
      DivBounds(Dot(w, d), Dot(d, d));
      TranslateByTwoVertices(e.start, v);
    }
  }

  /** Every parameter in [0, 1] gives a vertex on the edge. */
  lemma AtOnEdge(e: Edge, t: real)
    requires 0.0 <= t <= 1.0
    ensures OnEdge(e.At(t), e)
  {
    var d := e.Direction();
    if d == Zero {
      AtDegenerate(e, t);
    } else {
      StartToAt(e, t);
      ScaleParallel(d, t);
      DotScaleFirst(d, d, t);
      DotSelf(d);
      ProductBelow(t, Dot(d, d));
    }
  }

  lemma ProductBelow(t: real, n: real)
    requires 0.0 <= t <= 1.0 && n >= 0.0
    ensures 0.0 <= Mul(t, n) <= n
  {
    MulNonNegative(t, n);
    MulNonNegative(1.0 - t, n);
    assert Mul(1.0 - t, n) == n - Mul(t, n);
  }

  /**
   * OnEdge in terms of the parameter: a vertex is on the edge exactly when it
   * is the point of its projection parameter and that parameter is in [0, 1].
   */
  lemma OnEdgeParam(v: Vertex, e: Edge)
    ensures OnEdge(v, e) <==> 0.0 <= Param(v, e) <= 1.0 && v == e.At(Param(v, e))
  {
    if OnEdge(v, e) {
      OnEdgeAt(v, e);
    }
    if 0.0 <= Param(v, e) <= 1.0 && v == e.At(Param(v, e)) {
      AtOnEdge(e, Param(v, e));
    }
  }

  /** OnEdge agrees with the segment as a set of points: start + t * Direction for t in [0, 1]. */
  lemma OnEdgeExists(v: Vertex, e: Edge)
    ensures OnEdge(v, e) <==> exists t :: 0.0 <= t <= 1.0 && v == e.At(t)
  {
    if OnEdge(v, e) {
      OnEdgeAt(v, e);
    }
    if t :| 0.0 <= t <= 1.0 && v == e.At(t) {
      AtOnEdge(e, t);
    }
  }

  /** On an edge with a direction, e.At(t) is on the edge exactly when t is in [0, 1]. */
  lemma OnEdgeAtParam(e: Edge, t: real)
    requires e.Direction() != Zero
    ensures OnEdge(e.At(t), e) <==> 0.0 <= t <= 1.0
  {
    ParamAt(e, t);
    OnEdgeParam(e.At(t), e);
  }

  lemma AffineStep(s: real, k: real, x: real, y: real, l: real)
    ensures (s + Mul(x, k)) + Mul(l, (s + Mul(y, k)) - (s + Mul(x, k))) == s + Mul(x + Mul(l, y - x), k)
  {
  }

  /** Walking the sub-segment between e.At(x) and e.At(y) walks the line of `e`. */
  lemma SubEdgeAt(e: Edge, x: real, y: real, l: real)
    ensures Edge(e.At(x), e.At(y)).At(l) == e.At(x + Mul(l, y - x))
  {
    var g := Edge(e.At(x), e.At(y));
    AtCoordinates(e, x);
    AtCoordinates(e, y);
    AtCoordinates(g, l);
    AtCoordinates(e, x + Mul(l, y - x));
    AffineStep(e.start.x, e.end.x - e.start.x, x, y, l);
    AffineStep(e.start.y, e.end.y - e.start.y, x, y, l);
    AffineStep(e.start.z, e.end.z - e.start.z, x, y, l);
  }

  lemma MulBetween(l: real, delta: real)
    requires 0.0 <= l <= 1.0
    ensures Between(Mul(l, delta), 0.0, delta)
  {
    assert Mul(1.0 - l, delta) == delta - Mul(l, delta);
    if delta >= 0.0 {
      MulNonNegative(l, delta);
      MulNonNegative(1.0 - l, delta);
    } else {
      MulNonNegative(l, -delta);
      MulNonNegative(1.0 - l, -delta);
      MulNegRight(l, delta);
      MulNegRight(1.0 - l, delta);
    }
  }

  lemma MulNegRight(a: real, b: real)
    ensures Mul(a, -b) == -Mul(a, b)
  {
  }

  /**
   * A vertex is on the sub-segment between e.At(x) and e.At(y) exactly when
   * it is on the line of `e` with its parameter between x and y.
   */
  lemma CollinearOnEdge(e: Edge, x: real, y: real, v: Vertex)
    requires e.Direction() != Zero
    ensures OnEdge(v, Edge(e.At(x), e.At(y))) <==> v == e.At(Param(v, e)) && Between(Param(v, e), x, y)
  {
    var g := Edge(e.At(x), e.At(y));
    if OnEdge(v, g) {
      OnEdgeAt(v, g);
      var l := Param(v, g);
      SubEdgeAt(e, x, y, l);
      var t := x + Mul(l, y - x);
      ParamAt(e, t);
      MulBetween(l, y - x);
    }
    var t := Param(v, e);
    if v == e.At(t) && Between(t, x, y) {
      if x == y {
        assert v == g.start;
      } else {
        var l: real;
        if x < y {
          DivBounds(t - x, y - x);
          l := (t - x) / (y - x);
        } else {
          DivBounds(x - t, x - y);
          l := (x - t) / (x - y);
          assert Mul(l, y - x) == -Mul(l, x - y);
        }
        SubEdgeAt(e, x, y, l);
        AtOnEdge(g, l);
      }
    }
  }

  /** An edge is the sub-segment of its own line between parameters 0 and 1. */
  lemma SelfSubEdge(e: Edge)
    ensures Edge(e.At(0.0), e.At(1.0)) == e
  {
    AtEnds(e);
  }

  /**
   * An edge parallel to `e` that shares a vertex with it lies on the line of
   * `e`: both its end vertices are points of that line.
   */
  lemma ParallelOnLine(e: Edge, f: Edge, p: Vertex)
    requires e.Direction() != Zero
    requires IsParallelTo(e.Direction(), f.Direction())
    requires OnEdge(p, e) && OnEdge(p, f)
    ensures f.start == e.At(Param(f.start, e))
    ensures f.end == e.At(Param(f.end, e))
  {
    OnEdgeAt(p, e);
    OnEdgeAt(p, f);
    var k := ParallelFactor(e.Direction(), f.Direction());
    var t1 := Param(p, e) - Mul(Param(p, f), k);
    ShiftedEnds(e, f, Param(p, e), Param(p, f), k);
    ParamAt(e, t1);
    ParamAt(e, t1 + k);
  }

  /**
   * If the direction of `f` is k times that of `e`, and e.At(tp) is f.At(l),
   * then the end vertices of `f` are points of the line of `e`.
   */
  lemma ShiftedEnds(e: Edge, f: Edge, tp: real, l: real, k: real)
    requires f.Direction() == Scale(e.Direction(), k)
    requires e.At(tp) == f.At(l)
    ensures f.start == e.At(tp - Mul(l, k))
    ensures f.end == e.At(tp - Mul(l, k) + k)
  {
    var a, b := e.Direction(), f.Direction();
    AtCoordinates(e, tp);
    AtCoordinates(f, l);
    AtCoordinates(e, tp - Mul(l, k));
    AtCoordinates(e, tp - Mul(l, k) + k);
    LineShift(e.start.x, a.x, f.start.x, b.x, tp, l, k);
    LineShift(e.start.y, a.y, f.start.y, b.y, tp, l, k);
    LineShift(e.start.z, a.z, f.start.z, b.z, tp, l, k);
  }

  lemma LineShift(s: real, a: real, fs: real, b: real, tp: real, l: real, k: real)
    requires b == Mul(k, a)
    requires s + Mul(tp, a) == fs + Mul(l, b)
    ensures fs == s + Mul(tp - Mul(l, k), a)
    ensures fs + b == s + Mul(tp - Mul(l, k) + k, a)
  {
  }

  /** The sign the (Y, X, Z) order gives to a direction: positive when it points up that order. */
  predicate LexPositive(d: Vector)
  {
    d.y > 0.0 || (d.y == 0.0 && (d.x > 0.0 || (d.x == 0.0 && d.z > 0.0)))
  }

  /** The parameter as the (Y, X, Z) order sees it along a direction. */
  function Key(d: Vector, t: real): real
  {
    if LexPositive(d) then t else -t
  }

  /**
   * Along an edge with a direction, the (Y, X, Z) order of two points is the
   * order of their keys.
   */
  lemma PrecedesAlongLine(e: Edge, x: real, y: real)
    requires e.Direction() != Zero
    ensures Precedes(e.At(x), e.At(y)) <==> Key(e.Direction(), x) <= Key(e.Direction(), y)
  {
    var d := e.Direction();
    AtCoordinates(e, x);
    AtCoordinates(e, y);
    MulOrder(x, y, d.x);
    MulOrder(x, y, d.y);
    MulOrder(x, y, d.z);
  }

  /** The parameter of the earlier of e.At(x) and e.At(y) in the (Y, X, Z) order. */
  function LowParam(d: Vector, x: real, y: real): real
  {
    if Key(d, x) <= Key(d, y) then x else y
  }

  /** The parameter of the later of e.At(x) and e.At(y) in the (Y, X, Z) order. */
  function HighParam(d: Vector, x: real, y: real): real
  {
    if Key(d, x) <= Key(d, y) then y else x
  }

  /** First and Last of two points of a line are the points of the lower and higher key. */
  lemma FirstLastAlongLine(e: Edge, x: real, y: real)
    requires e.Direction() != Zero
    ensures First(e.At(x), e.At(y)) == e.At(LowParam(e.Direction(), x, y))
    ensures Last(e.At(x), e.At(y)) == e.At(HighParam(e.Direction(), x, y))
  {
    PrecedesAlongLine(e, x, y);
    PrecedesAlongLine(e, y, x);
  }

  /** Between is the same statement about keys. */
  lemma BetweenKey(d: Vector, t: real, x: real, y: real)
    ensures Between(t, x, y) <==> Between(Key(d, t), Key(d, x), Key(d, y))
  {
  }
}
