/**
  What one light's shadow volume is made of, as functions of the flattened
  mesh, the adjacency table and the light:

  - each face is front-facing or not (an oracle for the plane test);
  - with the zfail method, every front-facing face contributes a front cap
    and an extruded back cap, six points;
  - every front-facing face contributes those of its edges, in the order
    (v0,v1), (v1,v2), (v2,v0), whose adjacency entry is the face itself or
    names a face that is not front-facing: the silhouette edges;
  - every silhouette edge contributes a quad of six points joining it to its
    extrusion away from the light.
 */
module Silhouette {
  import opened MeshSnapshot
  import opened FaceAdjacency

  /** `triangle3df(v0, v1, v2).isFrontFacing(light)`. */
  type Facing = (Vec3, Vec3, Vec3, Vec3) -> bool

  /** `v + (v - light).normalize() * infinity`. */
  type Extrude = (Vec3, Vec3, real) -> Vec3

  /** The floating-point geometry the construction consults. */
  datatype Oracles = Oracles(posEq: PosEq, facing: Facing, extrude: Extrude)

  /** A directed edge, as the two vertex indices it joins. */
  datatype Edge = Edge(from: nat, to: nat)

  /** One entry per face, each below the face count. */
  predicate AdjacencyFits(adj: seq<nat>, I: seq<nat>) {
    |adj| == |I| && forall k :: 0 <= k < |adj| ==> adj[k] < FaceCount(I)
  }

  /** The adjacency table, stored in 16-bit elements, still fits its mesh. */
  lemma StoredTableFits(V: seq<Vec3>, I: seq<nat>, posEq: PosEq)
    requires Indexed(V, I)
    ensures AdjacencyFits(Truncate16(AdjacencyTable(V, I, posEq)), I)
  {
    Truncate16Below(AdjacencyTable(V, I, posEq), FaceCount(I));
  }

  function FacingFlags(V: seq<Vec3>, I: seq<nat>, facing: Facing, light: Vec3): (r: seq<bool>)
    requires Indexed(V, I)
    ensures |r| == FaceCount(I)
    ensures forall i :: 0 <= i < |r| ==>
              r[i] == facing(Corner(V, I, i, 0), Corner(V, I, i, 1), Corner(V, I, i, 2), light)
  {
    seq(FaceCount(I), i requires 0 <= i < FaceCount(I) =>
      facing(Corner(V, I, i, 0), Corner(V, I, i, 1), Corner(V, I, i, 2), light))
  }

  /** The corner after corner `e` of a triangle: 0 to 1, 1 to 2, 2 to 0. */
  function NextCorner(e: nat): (c: nat)
    requires e < 3
    ensures c < 3 && c == (e + 1) % 3
  {
    if e < 2 then e + 1 else 0
  }

  /** Edge `e` of face `i`: from corner `e` to the next corner. */
  function EdgeAt(I: seq<nat>, i: nat, e: nat): Edge
    requires 3 * i + 2 < |I| && e < 3
  {
    Edge(I[3 * i + e], I[3 * i + NextCorner(e)])
  }

  /** Edge `e` of face `i` borders no face or a face that is not front-facing. */
  predicate IsSilhouette(flags: seq<bool>, adj: seq<nat>, i: nat, e: nat)
    requires 3 * i + e < |adj| && e < 3
  {
    var a := adj[3 * i + e];
    a == i || (a < |flags| && !flags[a])
  }

  /** The shape every edge-selection function needs. */
  predicate Selectable(I: seq<nat>, flags: seq<bool>, adj: seq<nat>) {
    |I| == 3 * |flags| && |adj| == |I| && forall k :: 0 <= k < |adj| ==> adj[k] < |flags|
  }

  /** Edge `e` of face `i` when it is a silhouette edge, else nothing. */
  function EdgeIf(I: seq<nat>, flags: seq<bool>, adj: seq<nat>, i: nat, e: nat): (r: seq<Edge>)
    requires Selectable(I, flags, adj) && i < |flags| && e < 3
    ensures |r| <= 1
  {
    if IsSilhouette(flags, adj, i, e) then [EdgeAt(I, i, e)] else []
  }

  /** The silhouette edges among the first `c` edges of face `i`, in test order. */
  function EdgesUpTo(I: seq<nat>, flags: seq<bool>, adj: seq<nat>, i: nat, c: nat): seq<Edge>
    requires Selectable(I, flags, adj) && i < |flags| && c <= 3
  {
    if c == 0 then [] else EdgesUpTo(I, flags, adj, i, c - 1) + EdgeIf(I, flags, adj, i, c - 1)
  }

  /** The silhouette edges of face `i`, in the order the edges are examined. */
  function FaceEdges(I: seq<nat>, flags: seq<bool>, adj: seq<nat>, i: nat): seq<Edge>
    requires Selectable(I, flags, adj) && i < |flags|
  {
    if !flags[i] then [] else EdgesUpTo(I, flags, adj, i, 3)
  }

  /** A front-facing face contributes its three edge tests in order, a back-facing one nothing. */
  lemma FaceEdgesSplit(I: seq<nat>, flags: seq<bool>, adj: seq<nat>, i: nat)
    requires Selectable(I, flags, adj) && i < |flags|
    ensures FaceEdges(I, flags, adj, i) ==
              if flags[i]
              then EdgeIf(I, flags, adj, i, 0) + EdgeIf(I, flags, adj, i, 1) + EdgeIf(I, flags, adj, i, 2)
              else []
  {
    var e0, e1, e2 := EdgeIf(I, flags, adj, i, 0), EdgeIf(I, flags, adj, i, 1), EdgeIf(I, flags, adj, i, 2);
    assert EdgesUpTo(I, flags, adj, i, 1) == [] + e0 == e0;
    assert EdgesUpTo(I, flags, adj, i, 2) == e0 + e1;
    assert EdgesUpTo(I, flags, adj, i, 3) == e0 + e1 + e2;
  }

  /** The silhouette edges of faces `0..n`, face by face. */
  function EdgeList(I: seq<nat>, flags: seq<bool>, adj: seq<nat>, n: nat): seq<Edge>
    requires Selectable(I, flags, adj) && n <= |flags|
  {
    if n == 0 then [] else EdgeList(I, flags, adj, n - 1) + FaceEdges(I, flags, adj, n - 1)
  }

  /** One more face: its three edge tests, in order, when it is front-facing. */
  lemma EdgeListStep(I: seq<nat>, flags: seq<bool>, adj: seq<nat>, i: nat)
    requires Selectable(I, flags, adj) && i < |flags|
    ensures EdgeList(I, flags, adj, i + 1) ==
              if flags[i]
              then EdgeList(I, flags, adj, i) + EdgeIf(I, flags, adj, i, 0) + EdgeIf(I, flags, adj, i, 1)
                   + EdgeIf(I, flags, adj, i, 2)
              else EdgeList(I, flags, adj, i)
  {
    var es := EdgeList(I, flags, adj, i);
    FaceEdgesSplit(I, flags, adj, i);
    if flags[i] {
      var e0, e1, e2 := EdgeIf(I, flags, adj, i, 0), EdgeIf(I, flags, adj, i, 1), EdgeIf(I, flags, adj, i, 2);
      assert es + (e0 + e1 + e2) == es + e0 + e1 + e2;
    } else {
      assert es + [] == es;
    }
  }

  /** The number of front-facing faces among `0..n`. */
  function FrontCount(flags: seq<bool>, n: nat): (r: nat)
    requires n <= |flags|
    ensures r <= n
  {
    if n == 0 then 0 else FrontCount(flags, n - 1) + (if flags[n - 1] then 1 else 0)
  }

  /** `E` begins with the endpoints of `es`, edge by edge: edge `k` at `2k` and `2k+1`. */
  predicate Stored(E: seq<nat>, es: seq<Edge>) {
    2 * |es| <= |E| && forall k :: 0 <= k < |es| ==> E[2 * k] == es[k].from && E[2 * k + 1] == es[k].to
  }

  /** A front-facing face contributes at most its three edges, a back-facing one none. */
  lemma FaceEdgesBound(I: seq<nat>, flags: seq<bool>, adj: seq<nat>, i: nat)
    requires Selectable(I, flags, adj) && i < |flags|
    ensures |FaceEdges(I, flags, adj, i)| <= if flags[i] then 3 else 0
  {
    FaceEdgesSplit(I, flags, adj, i);
  }

  /** At most three edges per front-facing face are selected. */
  lemma {:induction false} EdgeListBound(I: seq<nat>, flags: seq<bool>, adj: seq<nat>, n: nat)
    requires Selectable(I, flags, adj) && n <= |flags|
    ensures |EdgeList(I, flags, adj, n)| <= 3 * FrontCount(flags, n)
  {
    if n > 0 {
      var pre, fe := EdgeList(I, flags, adj, n - 1), FaceEdges(I, flags, adj, n - 1);
      var front := if flags[n - 1] then 1 else 0;
      assert |pre| <= 3 * FrontCount(flags, n - 1) by {
        EdgeListBound(I, flags, adj, n - 1);
      }
      assert |fe| <= 3 * front by {
        FaceEdgesBound(I, flags, adj, n - 1);
      }
      assert |EdgeList(I, flags, adj, n)| == |pre| + |fe|;
      assert FrontCount(flags, n) == FrontCount(flags, n - 1) + front;
    }
  }

  /** Edge `e` of face `i` is a silhouette edge of a front-facing face and equals `x`. */
  predicate SelectedAs(I: seq<nat>, flags: seq<bool>, adj: seq<nat>, i: nat, e: nat, x: Edge)
  {
    && i < |flags| && e < 3 && 3 * i + 2 < |I| && 3 * i + 2 < |adj|
    && flags[i] && IsSilhouette(flags, adj, i, e) && x == EdgeAt(I, i, e)
  }

  /** An edge in face `i`'s list was selected by one of its three edge tests. */
  lemma FaceEdgeSelected(I: seq<nat>, flags: seq<bool>, adj: seq<nat>, i: nat, x: Edge) returns (e: nat)
    requires Selectable(I, flags, adj) && i < |flags|
    requires x in FaceEdges(I, flags, adj, i)
    ensures SelectedAs(I, flags, adj, i, e, x)
  {
    var e0, e1, e2 := EdgeIf(I, flags, adj, i, 0), EdgeIf(I, flags, adj, i, 1), EdgeIf(I, flags, adj, i, 2);
    FaceEdgesSplit(I, flags, adj, i);
    e := if x in e0 then 0 else if x in e1 then 1 else 2;
  }

  /** Each edge selected from face `i` is in its list. */
  lemma SelectedInFaceEdges(I: seq<nat>, flags: seq<bool>, adj: seq<nat>, i: nat, e: nat, x: Edge)
    requires Selectable(I, flags, adj) && SelectedAs(I, flags, adj, i, e, x)
    ensures x in FaceEdges(I, flags, adj, i)
  {
    var e0, e1, e2 := EdgeIf(I, flags, adj, i, 0), EdgeIf(I, flags, adj, i, 1), EdgeIf(I, flags, adj, i, 2);
    FaceEdgesSplit(I, flags, adj, i);
    assert x in EdgeIf(I, flags, adj, i, e);
  }

  /** An edge is in the list of faces `0..n` exactly when it is a silhouette
      edge of one of those faces that is front-facing. */
  lemma EdgeListMembers(I: seq<nat>, flags: seq<bool>, adj: seq<nat>, n: nat, x: Edge)
    requires Selectable(I, flags, adj) && n <= |flags|
    ensures x in EdgeList(I, flags, adj, n) <==> exists i: nat, e: nat :: i < n && SelectedAs(I, flags, adj, i, e, x)
  {
    if x in EdgeList(I, flags, adj, n) {
      var i, e := EdgeListSelected(I, flags, adj, n, x);
    }
    if exists i: nat, e: nat :: i < n && SelectedAs(I, flags, adj, i, e, x) {
      var i: nat, e: nat :| i < n && SelectedAs(I, flags, adj, i, e, x);
      SelectedInEdgeList(I, flags, adj, n, i, e, x);
    }
  }

  /** Every edge in the list was selected from one of the faces `0..n`. */
  lemma {:induction false} EdgeListSelected(I: seq<nat>, flags: seq<bool>, adj: seq<nat>, n: nat, x: Edge)
    returns (i: nat, e: nat)
    requires Selectable(I, flags, adj) && n <= |flags|
    requires x in EdgeList(I, flags, adj, n)
    ensures i < n && SelectedAs(I, flags, adj, i, e, x)
  {
    var pre, fe := EdgeList(I, flags, adj, n - 1), FaceEdges(I, flags, adj, n - 1);
    assert EdgeList(I, flags, adj, n) == pre + fe;
    if x in pre {
      i, e := EdgeListSelected(I, flags, adj, n - 1, x);
    } else {
      i := n - 1;
      e := FaceEdgeSelected(I, flags, adj, n - 1, x);
    }
  }

  /** Every edge selected from one of the faces `0..n` is in the list. */
  lemma {:induction false} SelectedInEdgeList(I: seq<nat>, flags: seq<bool>, adj: seq<nat>, n: nat,
                                              i: nat, e: nat, x: Edge)
    requires Selectable(I, flags, adj) && n <= |flags|
    requires i < n && SelectedAs(I, flags, adj, i, e, x)
    ensures x in EdgeList(I, flags, adj, n)
  {
    var pre, fe := EdgeList(I, flags, adj, n - 1), FaceEdges(I, flags, adj, n - 1);
    assert EdgeList(I, flags, adj, n) == pre + fe;
    if i < n - 1 {
      SelectedInEdgeList(I, flags, adj, n - 1, i, e, x);
    } else {
      SelectedInFaceEdges(I, flags, adj, i, e, x);
    }
  }

  /** Every selected edge joins two vertices of the mesh. */
  lemma EdgeListInRange(V: seq<Vec3>, I: seq<nat>, flags: seq<bool>, adj: seq<nat>, n: nat)
    requires Indexed(V, I) && Selectable(I, flags, adj) && n <= |flags|
    ensures EdgesInRange(V, EdgeList(I, flags, adj, n))
  {
    var es := EdgeList(I, flags, adj, n);
    forall k | 0 <= k < |es|
      ensures es[k].from < |V| && es[k].to < |V|
    {
      var i, e := EdgeListSelected(I, flags, adj, n, es[k]);
      assert I[3 * i + e] < |V| && I[3 * i + NextCorner(e)] < |V|;
    }
  }

  // ---------------------------------------------------------------------
  // Emitted points

  /** The caps of face `i`: front cap v2, v1, v0, then the back cap of the
      three extruded corners v0, v1, v2; nothing without zfail or for a
      face that is not front-facing. */
  function FaceCaps(V: seq<Vec3>, I: seq<nat>, flags: seq<bool>, i: nat, light: Vec3,
                    geo: Oracles, infinity: real, zfail: bool): seq<Vec3>
    requires Indexed(V, I) && |I| == 3 * |flags| && i < |flags|
  {
    if zfail && flags[i] then
      var v0, v1, v2 := Corner(V, I, i, 0), Corner(V, I, i, 1), Corner(V, I, i, 2);
      [v2, v1, v0,
       geo.extrude(v0, light, infinity), geo.extrude(v1, light, infinity), geo.extrude(v2, light, infinity)]
    else []
  }

  function Caps(V: seq<Vec3>, I: seq<nat>, flags: seq<bool>, n: nat, light: Vec3,
                geo: Oracles, infinity: real, zfail: bool): seq<Vec3>
    requires Indexed(V, I) && |I| == 3 * |flags| && n <= |flags|
  {
    if n == 0 then []
    else Caps(V, I, flags, n - 1, light, geo, infinity, zfail)
         + FaceCaps(V, I, flags, n - 1, light, geo, infinity, zfail)
  }

  /** The quad of an edge (v1, v2) with far points v3 and v4: triangles
      (v1, v2, v3) and (v2, v4, v3). */
  function Quad(V: seq<Vec3>, x: Edge, light: Vec3, geo: Oracles, infinity: real): seq<Vec3>
    requires x.from < |V| && x.to < |V|
  {
    var v1, v2 := V[x.from], V[x.to];
    var v3, v4 := geo.extrude(v1, light, infinity), geo.extrude(v2, light, infinity);
    [v1, v2, v3, v2, v4, v3]
  }

  predicate EdgesInRange(V: seq<Vec3>, es: seq<Edge>) {
    forall k :: 0 <= k < |es| ==> es[k].from < |V| && es[k].to < |V|
  }

  function Quads(V: seq<Vec3>, es: seq<Edge>, light: Vec3, geo: Oracles, infinity: real): seq<Vec3>
    requires EdgesInRange(V, es)
  {
    if es == [] then []
    else Quads(V, es[..|es| - 1], light, geo, infinity) + Quad(V, es[|es| - 1], light, geo, infinity)
  }

  /** The shadow volume of one light: all caps, then all quads. */
  function Volume(V: seq<Vec3>, I: seq<nat>, adj: seq<nat>, light: Vec3,
                  geo: Oracles, infinity: real, zfail: bool): seq<Vec3>
    requires Indexed(V, I) && AdjacencyFits(adj, I)
  {
    var flags := FacingFlags(V, I, geo.facing, light);
    var es := EdgeList(I, flags, adj, FaceCount(I));
    EdgeListInRange(V, I, flags, adj, FaceCount(I));
    Caps(V, I, flags, FaceCount(I), light, geo, infinity, zfail) + Quads(V, es, light, geo, infinity)
  }

  /** The two parts of a volume, for flags and an edge list already at hand. */
  lemma VolumeParts(V: seq<Vec3>, I: seq<nat>, adj: seq<nat>, light: Vec3, geo: Oracles, infinity: real, zfail: bool,
                    flags: seq<bool>, es: seq<Edge>)
    requires Indexed(V, I) && AdjacencyFits(adj, I)
    requires flags == FacingFlags(V, I, geo.facing, light)
    requires es == EdgeList(I, flags, adj, FaceCount(I)) && EdgesInRange(V, es)
    ensures Volume(V, I, adj, light, geo, infinity, zfail)
            == Caps(V, I, flags, FaceCount(I), light, geo, infinity, zfail) + Quads(V, es, light, geo, infinity)
  {
  }

  lemma {:induction false} CapsLength(V: seq<Vec3>, I: seq<nat>, flags: seq<bool>, n: nat, light: Vec3,
                                      geo: Oracles, infinity: real, zfail: bool)
    requires Indexed(V, I) && |I| == 3 * |flags| && n <= |flags|
    ensures |Caps(V, I, flags, n, light, geo, infinity, zfail)| == if zfail then 6 * FrontCount(flags, n) else 0
  {
    if n > 0 {
      CapsLength(V, I, flags, n - 1, light, geo, infinity, zfail);
    }
  }

  lemma {:induction false} QuadsLength(V: seq<Vec3>, es: seq<Edge>, light: Vec3, geo: Oracles, infinity: real)
    requires EdgesInRange(V, es)
    ensures |Quads(V, es, light, geo, infinity)| == 6 * |es|
  {
    if es != [] {
      QuadsLength(V, es[..|es| - 1], light, geo, infinity);
    }
  }

  /** A volume holds 6 points per front face under zfail (none otherwise)
      plus 6 per silhouette edge: whole triangles, at most 3 edges per face. */
  lemma VolumeLength(V: seq<Vec3>, I: seq<nat>, adj: seq<nat>, light: Vec3,
                     geo: Oracles, infinity: real, zfail: bool)
    requires Indexed(V, I) && AdjacencyFits(adj, I)
    ensures var flags := FacingFlags(V, I, geo.facing, light);
            var front := FrontCount(flags, FaceCount(I));
            var edges := |EdgeList(I, flags, adj, FaceCount(I))|;
            && |Volume(V, I, adj, light, geo, infinity, zfail)| == (if zfail then 6 * front else 0) + 6 * edges
            && edges <= 3 * front <= |I|
  {
    var flags := FacingFlags(V, I, geo.facing, light);
    var es := EdgeList(I, flags, adj, FaceCount(I));
    EdgeListInRange(V, I, flags, adj, FaceCount(I));
    CapsLength(V, I, flags, FaceCount(I), light, geo, infinity, zfail);
    QuadsLength(V, es, light, geo, infinity);
    EdgeListBound(I, flags, adj, FaceCount(I));
  }

  /** A lone front-facing triangle: three boundary edges, and under zfail
      2 cap triangles and 6 quad triangles, 24 points in all. */
  lemma SingleTriangleVolume(a: Vec3, b: Vec3, c: Vec3, light: Vec3, geo: Oracles, infinity: real)
    requires geo.facing(a, b, c, light)
    ensures var V, I := [a, b, c], [0, 1, 2];
            var flags := FacingFlags(V, I, geo.facing, light);
            && Indexed(V, I) && AdjacencyTable(V, I, geo.posEq) == [0, 0, 0]
            && EdgeList(I, flags, [0, 0, 0], 1) == [Edge(0, 1), Edge(1, 2), Edge(2, 0)]
            && |Volume(V, I, [0, 0, 0], light, geo, infinity, true)| == 24
  {
    var V, I := [a, b, c], [0, 1, 2];
    assert Indexed(V, I);
    SingleTriangleAdjacency(V, I, geo.posEq);
    var flags := FacingFlags(V, I, geo.facing, light);
    assert flags == [true];
    assert FrontCount(flags, 1) == 1;
    FaceEdgesSplit(I, flags, [0, 0, 0], 0);
    assert EdgeList(I, flags, [0, 0, 0], 1) == [] + FaceEdges(I, flags, [0, 0, 0], 0);
    assert EdgeList(I, flags, [0, 0, 0], 1) == [Edge(0, 1), Edge(1, 2), Edge(2, 0)];
    VolumeLength(V, I, [0, 0, 0], light, geo, infinity, true);
  }
}
