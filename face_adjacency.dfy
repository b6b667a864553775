/**
  The adjacency table of a flattened triangle mesh: for face `f` and its
  edge `e` (from corner `e` to corner `(e+1) % 3`), the lowest-numbered
  other face that has a vertex at the position of each endpoint, or `f`
  itself when there is none. Positions are compared with the engine's
  tolerant vector equality, which stays an uninterpreted relation here.
 */
module FaceAdjacency {
  import opened MeshSnapshot

  /** The vector equality `a.equals(b)`. */
  type PosEq = (Vec3, Vec3) -> bool

  /** A triangle list: whole triangles, each index naming a vertex. */
  predicate Indexed(V: seq<Vec3>, I: seq<nat>) {
    |I| % 3 == 0 && forall k :: 0 <= k < |I| ==> I[k] < |V|
  }

  function FaceCount(I: seq<nat>): nat {
    |I| / 3
  }

  /** Corner `c` of face `f`. */
  function Corner(V: seq<Vec3>, I: seq<nat>, f: nat, c: nat): Vec3
    requires Indexed(V, I) && f < FaceCount(I) && c < 3
  {
    V[I[3 * f + c]]
  }

  /** Some corner of face `g` is equal to `p`. */
  predicate FaceHas(V: seq<Vec3>, I: seq<nat>, posEq: PosEq, g: nat, p: Vec3)
    requires Indexed(V, I) && g < FaceCount(I)
  {
    exists c :: 0 <= c < 3 && posEq(p, Corner(V, I, g, c))
  }

  /** Face `g` is another face than `f` and has both endpoints of edge `e` of face `f`. */
  predicate SharesEdge(V: seq<Vec3>, I: seq<nat>, posEq: PosEq, f: nat, e: nat, g: nat)
    requires Indexed(V, I) && f < FaceCount(I) && e < 3 && g < FaceCount(I)
  {
    && g != f
    && FaceHas(V, I, posEq, g, Corner(V, I, f, e))
    && FaceHas(V, I, posEq, g, Corner(V, I, f, (e + 1) % 3))
  }

  /** The first face at or after `from` that shares edge `e` of face `f`, or
      the face count when no face does. */
  function FirstNeighbour(V: seq<Vec3>, I: seq<nat>, posEq: PosEq, f: nat, e: nat, from: nat): (g: nat)
    requires Indexed(V, I) && f < FaceCount(I) && e < 3 && from <= FaceCount(I)
    ensures from <= g <= FaceCount(I)
    ensures g < FaceCount(I) ==> SharesEdge(V, I, posEq, f, e, g)
    ensures forall h :: from <= h < g ==> !SharesEdge(V, I, posEq, f, e, h)
    decreases FaceCount(I) - from
  {
    if from == FaceCount(I) then from
    else if SharesEdge(V, I, posEq, f, e, from) then from
    else FirstNeighbour(V, I, posEq, f, e, from + 1)
  }

  /** The adjacency entry of edge `e` of face `f`. */
  function Entry(V: seq<Vec3>, I: seq<nat>, posEq: PosEq, f: nat, e: nat): (r: nat)
    requires Indexed(V, I) && f < FaceCount(I) && e < 3
    ensures r < FaceCount(I)
    ensures r != f ==> SharesEdge(V, I, posEq, f, e, r)
    ensures r != f ==> forall g :: 0 <= g < r ==> !SharesEdge(V, I, posEq, f, e, g)
    ensures r == f <==> forall g :: 0 <= g < FaceCount(I) ==> !SharesEdge(V, I, posEq, f, e, g)
  {
    var g := FirstNeighbour(V, I, posEq, f, e, 0);
    if g < FaceCount(I) then g else f
  }

  /** The first `n` entries of the table, in index order. */
  function AdjacencyPrefix(V: seq<Vec3>, I: seq<nat>, posEq: PosEq, n: nat): (r: seq<nat>)
    requires Indexed(V, I) && n <= |I|
    ensures |r| == n
    ensures forall k :: 0 <= k < n ==> r[k] < FaceCount(I)
  {
    if n == 0 then []
    else
      var k := n - 1;
      assert k / 3 < FaceCount(I) by {
        assert 3 * FaceCount(I) == |I|;
      }
      AdjacencyPrefix(V, I, posEq, k) + [Entry(V, I, posEq, k / 3, k % 3)]
  }

  /** The whole table: one entry per index, entry `3f+e` for edge `e` of face `f`. */
  function AdjacencyTable(V: seq<Vec3>, I: seq<nat>, posEq: PosEq): (r: seq<nat>)
    requires Indexed(V, I)
    ensures |r| == |I|
    ensures forall k :: 0 <= k < |r| ==> r[k] < FaceCount(I)
  {
    AdjacencyPrefix(V, I, posEq, |I|)
  }

  /** Entry `k` of every prefix that holds it is the entry of edge `k % 3` of face `k / 3`. */
  lemma {:induction false} AdjacencyPrefixAt(V: seq<Vec3>, I: seq<nat>, posEq: PosEq, n: nat, k: nat)
    requires Indexed(V, I) && k < n <= |I|
    ensures k / 3 < FaceCount(I)
    ensures AdjacencyPrefix(V, I, posEq, n)[k] == Entry(V, I, posEq, k / 3, k % 3)
  {
    assert 3 * FaceCount(I) == |I|;
    if k < n - 1 {
      AdjacencyPrefixAt(V, I, posEq, n - 1, k);
    }
  }

  /** The table's entry for edge `e` of face `f` is the lowest other face
      sharing that edge, and `f` itself exactly when there is no such face. */
  lemma AdjacencyTableEntry(V: seq<Vec3>, I: seq<nat>, posEq: PosEq, f: nat, e: nat)
    requires Indexed(V, I) && f < FaceCount(I) && e < 3
    ensures 3 * f + e < |I|
    ensures var r := AdjacencyTable(V, I, posEq)[3 * f + e];
            && r < FaceCount(I)
            && (r != f ==> SharesEdge(V, I, posEq, f, e, r)
                           && forall g :: 0 <= g < r ==> !SharesEdge(V, I, posEq, f, e, g))
            && (r == f <==> forall g :: 0 <= g < FaceCount(I) ==> !SharesEdge(V, I, posEq, f, e, g))
  {
    assert (3 * f + e) / 3 == f && (3 * f + e) % 3 == e;
    AdjacencyPrefixAt(V, I, posEq, |I|, 3 * f + e);
  }

  /** A lone triangle has no neighbours: every entry is the triangle itself. */
  lemma SingleTriangleAdjacency(V: seq<Vec3>, I: seq<nat>, posEq: PosEq)
    requires Indexed(V, I) && |I| == 3
    ensures AdjacencyTable(V, I, posEq) == [0, 0, 0]
  {
    var t := AdjacencyTable(V, I, posEq);
    assert FaceCount(I) == 1;
    assert t[0] == 0 && t[1] == 0 && t[2] == 0;
  }

  /** Whatever search finds the first sharing face, or proves there is none,
      has found the table's entry. */
  lemma EntryOfSearch(V: seq<Vec3>, I: seq<nat>, posEq: PosEq, f: nat, e: nat, g: nat)
    requires Indexed(V, I) && f < FaceCount(I) && e < 3 && g <= FaceCount(I)
    requires g < FaceCount(I) ==> SharesEdge(V, I, posEq, f, e, g)
    requires forall h :: 0 <= h < g ==> !SharesEdge(V, I, posEq, f, e, h)
    ensures 3 * f + e < |I|
    ensures AdjacencyTable(V, I, posEq)[3 * f + e] == if g < FaceCount(I) then g else f
  {
    var first := FirstNeighbour(V, I, posEq, f, e, 0);
    AdjacencyTableEntry(V, I, posEq, f, e);
  }
}
