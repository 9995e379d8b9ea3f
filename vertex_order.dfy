/**
 * Multisets of four values, kept apart from the vertex order so that the
 * solver sees only the facts about sequences and multisets.
 */
module Counting {

  /** Two pairs that hold the same values as two others make the same multiset of four. */
  lemma FourMultiset<T>(a: T, b: T, c: T, d: T, p: T, q: T, r: T, s: T)
    requires multiset{a, b} == multiset{p, r} && multiset{c, d} == multiset{q, s}
    ensures multiset([a, b, c, d]) == multiset([p, q, r, s])
  {
    PairsOfFour(a, b, c, d);
    PairsOfFour(p, r, q, s);
    SwapMiddle(p, q, r, s);
  }

  /** Two pairs that hold the same values as two others, pair by pair, make the same multiset of four. */
  lemma PairsMultiset<T>(a: T, b: T, c: T, d: T, p: T, q: T, r: T, s: T)
    requires multiset{a, b} == multiset{p, q} && multiset{c, d} == multiset{r, s}
    ensures multiset([a, b, c, d]) == multiset([p, q, r, s])
  {
    PairsOfFour(a, b, c, d);
    PairsOfFour(p, q, r, s);
  }

  /** Listing the second pair first keeps the multiset. */
  lemma SwapPairs<T>(a: T, b: T, c: T, d: T)
    ensures multiset([a, b, c, d]) == multiset([c, d, a, b])
  {
    PairsOfFour(a, b, c, d);
    PairsOfFour(c, d, a, b);
  }

  /** Reversing each pair keeps the multiset. */
  lemma ReversePairs<T>(a: T, b: T, c: T, d: T)
    ensures multiset([a, b, c, d]) == multiset([b, a, d, c])
  {
    PairsOfFour(a, b, c, d);
    PairsOfFour(b, a, d, c);
  }

  /** Four values in a row are the union of their first and their second pair. */
  lemma PairsOfFour<T>(a: T, b: T, c: T, d: T)
    ensures multiset([a, b, c, d]) == multiset{a, b} + multiset{c, d}
  {
    assert [a, b, c, d] == [a, b] + [c, d];
    assert multiset([a, b] + [c, d]) == multiset([a, b]) + multiset([c, d]);
    assert multiset([a, b]) == multiset{a, b};
    assert multiset([c, d]) == multiset{c, d};
  }

  /** Swapping the middle two of four values keeps the multiset. */
  lemma SwapMiddle<T>(p: T, q: T, r: T, s: T)
    ensures multiset([p, r, q, s]) == multiset([p, q, r, s])
  {
    assert [p, r, q, s] == [p] + [r, q] + [s];
    assert [p, q, r, s] == [p] + [q, r] + [s];
    assert multiset([r, q]) == multiset([q, r]);
  }
}

/**
 * The order GeometryEdge.Intersection sorts vertices by: Y first, then X,
 * then Z, and the sort itself. With exact coordinates this is a total order in which only
 * equal vertices tie, so the sorted list depends only on the multiset of
 * vertices given, not on the order in which they are listed.
 */
module VertexOrder {
  import opened Vectors
  import opened Counting

  /** `p` comes no later than `q` when sorting by (Y, X, Z). */
  predicate Precedes(p: Vertex, q: Vertex)
  {
    p.y < q.y || (p.y == q.y && (p.x < q.x || (p.x == q.x && p.z <= q.z)))
  }

  predicate Sorted(s: seq<Vertex>)
  {
    forall i, j :: 0 <= i < j < |s| ==> Precedes(s[i], s[j])
  }

  /** The (Y, X, Z) order is total, antisymmetric and transitive. */
  lemma PrecedesTotalOrder(p: Vertex, q: Vertex, r: Vertex)
    ensures Precedes(p, p)
    ensures Precedes(p, q) || Precedes(q, p)
    ensures Precedes(p, q) && Precedes(q, p) ==> p == q
    ensures Precedes(p, q) && Precedes(q, r) ==> Precedes(p, r)
  {
  }

  /** `v` put into its place in the sequence `s`, in front of the first element it precedes. */
  function Insert(v: Vertex, s: seq<Vertex>): (r: seq<Vertex>)
    ensures multiset(r) == multiset(s) + multiset{v}
    ensures |r| == |s| + 1
  {
    if s == [] then [v]
    else if Precedes(v, s[0]) then [v] + s
    else
      assert s == [s[0]] + s[1..];
      [s[0]] + Insert(v, s[1..])
  }

  /** Inserting into a sorted sequence keeps it sorted. */
  lemma {:induction false} InsertSorted(v: Vertex, s: seq<Vertex>)
    requires Sorted(s)
    ensures Sorted(Insert(v, s))
  {
    if s == [] {
    } else if Precedes(v, s[0]) {
      var r := [v] + s;
      forall i, j | 0 <= i < j < |r|
        ensures Precedes(r[i], r[j])
      {
        if i == 0 {
          PrecedesTotalOrder(v, s[0], s[j - 1]);
        }
      }
    } else {
      var rest := Insert(v, s[1..]);
      InsertSorted(v, s[1..]);
      var r := [s[0]] + rest;
      PrecedesTotalOrder(s[0], v, v);
      forall k | 0 <= k < |rest|
        ensures Precedes(s[0], rest[k])
      {
        assert rest[k] in multiset(rest);
        if rest[k] != v {
          assert rest[k] in multiset(s[1..]);
          var m :| 0 <= m < |s[1..]| && s[1..][m] == rest[k];
          assert Precedes(s[0], s[m + 1]);
        }
      }
      forall i, j | 0 <= i < j < |r|
        ensures Precedes(r[i], r[j])
      {
        if i == 0 {
          assert r[j] == rest[j - 1];
        } else {
          assert r[i] == rest[i - 1] && r[j] == rest[j - 1];
        }
      }
    }
  }

  /**
   * The vertices of `s` ordered by (Y, X, Z), as the LINQ chain
   * OrderBy(Y).ThenBy(X).ThenBy(Z) orders them.
   */
  function OrderByYXZ(s: seq<Vertex>): (r: seq<Vertex>)
    ensures Sorted(r)
    ensures multiset(r) == multiset(s)
    ensures |r| == |s|
  {
    if s == [] then []
    else
      assert s == [s[0]] + s[1..];
      var rest := OrderByYXZ(s[1..]);
      InsertSorted(s[0], rest);
      Insert(s[0], rest)
  }

  /** A sorted sequence is determined by its multiset of elements. */
  lemma {:induction false} SortedUnique(r: seq<Vertex>, t: seq<Vertex>)
    requires Sorted(r) && Sorted(t)
    requires multiset(r) == multiset(t)
    ensures r == t
  {
    if r != [] {
      assert |t| == |r| by {
        assert |multiset(t)| == |multiset(r)|;
      }
      assert r[0] in multiset(t);
      assert t[0] in multiset(r);
      var i :| 0 <= i < |t| && t[i] == r[0];
      var j :| 0 <= j < |r| && r[j] == t[0];
      assert Precedes(t[0], r[0]) by {
        if i > 0 {
          assert Precedes(t[0], t[i]);
        } else {
          PrecedesTotalOrder(t[0], t[0], t[0]);
        }
      }
      assert Precedes(r[0], t[0]) by {
        if j > 0 {
          assert Precedes(r[0], r[j]);
        } else {
          PrecedesTotalOrder(r[0], r[0], r[0]);
        }
      }
      PrecedesTotalOrder(r[0], t[0], r[0]);
      assert r == [r[0]] + r[1..];
      assert t == [t[0]] + t[1..];
      assert multiset(r) == multiset{r[0]} + multiset(r[1..]);
      assert multiset(t) == multiset{t[0]} + multiset(t[1..]);
      assert r[0] == t[0];
      assert multiset(r[1..]) == multiset(r) - multiset{r[0]};
      assert multiset(t[1..]) == multiset(t) - multiset{t[0]};
      SortedTail(r);
      SortedTail(t);
      SortedUnique(r[1..], t[1..]);
    }
  }

  lemma SortedTail(s: seq<Vertex>)
    requires Sorted(s) && s != []
    ensures Sorted(s[1..])
  {
    forall i, j | 0 <= i < j < |s[1..]|
      ensures Precedes(s[1..][i], s[1..][j])
    {
      assert s[1..][i] == s[i + 1] && s[1..][j] == s[j + 1];
    }
  }

  /** Sorting does not depend on the order in which the vertices are listed. */
  lemma OrderIndependent(s: seq<Vertex>, t: seq<Vertex>)
    requires multiset(s) == multiset(t)
    ensures OrderByYXZ(s) == OrderByYXZ(t)
  {
    SortedUnique(OrderByYXZ(s), OrderByYXZ(t));
  }

  /** The earlier of two vertices in the (Y, X, Z) order. */
  function First(p: Vertex, q: Vertex): Vertex
  {
    if Precedes(p, q) then p else q
  }

  /** The later of two vertices in the (Y, X, Z) order. */
  function Last(p: Vertex, q: Vertex): Vertex
  {
    if Precedes(p, q) then q else p
  }

  /**
   * If each of p and r comes no later than each of q and s, then sorting
   * the four gives the earlier pair, sorted, followed by the later pair, sorted.
   */
  lemma SortTwoPairs(p: Vertex, q: Vertex, r: Vertex, s: Vertex)
    requires Precedes(p, q) && Precedes(p, s) && Precedes(r, q) && Precedes(r, s)
    ensures OrderByYXZ([p, q, r, s]) == [First(p, r), Last(p, r), First(q, s), Last(q, s)]
  {
    OrderedPair(p, r);
    OrderedPair(q, s);
    var a, b, c, d := First(p, r), Last(p, r), First(q, s), Last(q, s);
    FourSorted(a, b, c, d);
    FourMultiset(a, b, c, d, p, q, r, s);
    SortedUnique(OrderByYXZ([p, q, r, s]), [a, b, c, d]);
  }

  lemma FourSorted(a: Vertex, b: Vertex, c: Vertex, d: Vertex)
    requires Precedes(a, b) && Precedes(c, d)
    requires Precedes(a, c) && Precedes(a, d) && Precedes(b, c) && Precedes(b, d)
    ensures Sorted([a, b, c, d])
  {
    var t := [a, b, c, d];
    forall i, j | 0 <= i < j < 4
      ensures Precedes(t[i], t[j])
    {
    }
  }

  /** First and Last of a pair are the pair itself, in order. */
  lemma OrderedPair(p: Vertex, q: Vertex)
    ensures Precedes(First(p, q), Last(p, q))
    ensures First(p, q) == p || First(p, q) == q
    ensures Last(p, q) == p || Last(p, q) == q
    ensures multiset{First(p, q), Last(p, q)} == multiset{p, q}
  {
    PrecedesTotalOrder(p, q, p);
  }
}
