/**
  The shadow volume scene node. It holds a reference to a mesh, takes a
  flattened snapshot of it (positions, 16-bit triangle indices, the
  adjacency table), and builds one stencil shadow volume per light that
  casts shadows and is in range, reusing the volumes of earlier frames as a
  pool. Rendering hands the volumes in use to the driver.

  The scene manager, the driver and the parent node are not objects here:
  the list of dynamic lights, the range test of a light against the parent's
  position, the parent's inverse transform and the presence of a driver are
  parameters of the operations that consult them.
 */
module ShadowVolumeNode {
  import opened MeshSnapshot
  import opened FaceAdjacency
  import opened Silhouette

  datatype Option<T> = None | Some(value: T)

  /** The parts of a dynamic light the node reads. */
  datatype Light = Light(position: Vec3, castShadows: bool, radius: real)

  /** A driver call made while rendering. */
  datatype Call = SetWorldTransform | DrawStencilShadowVolume(volume: seq<Vec3>, zfail: bool)

  /** core::array::set_used: the first `n` elements are kept; the cells it
      adds are unspecified in the engine and hold `fill` here. */
  function SetUsed<T>(s: seq<T>, n: nat, fill: T): (r: seq<T>)
    ensures |r| == n
    ensures forall k :: 0 <= k < n && k < |s| ==> r[k] == s[k]
  {
    if n <= |s| then s[..n] else s + seq(n - |s|, _ => fill)
  }

  function Max(a: nat, b: nat): nat {
    if a < b then b else a
  }

  /** The lights a volume is built for, in light order: those that cast
      shadows and pass the range test. */
  function ShadowLights(lights: seq<Light>, inRange: Light -> bool): seq<Light>
  {
    if lights == [] then []
    else
      var last := lights[|lights| - 1];
      ShadowLights(lights[..|lights| - 1], inRange) + (if last.castShadows && inRange(last) then [last] else [])
  }

  /** A light gets a volume exactly when it casts shadows and is in range. */
  lemma {:induction false} ShadowLightsMembers(lights: seq<Light>, inRange: Light -> bool, l: Light)
    ensures l in ShadowLights(lights, inRange) <==> l in lights && l.castShadows && inRange(l)
    ensures |ShadowLights(lights, inRange)| <= |lights|
  {
    if lights != [] {
      var pre := lights[..|lights| - 1];
      ShadowLightsMembers(pre, inRange, l);
      assert lights == pre + [lights[|lights| - 1]];
    }
  }

  /** The volume of one light, in the snapshot's object space. */
  ghost function VolumeOf(V: seq<Vec3>, I: seq<nat>, adj: seq<nat>, light: Light, toLocal: Vec3 -> Vec3,
                         geo: Oracles, infinity: real, zfail: bool): seq<Vec3>
    requires Indexed(V, I) && AdjacencyFits(adj, I)
  {
    Volume(V, I, adj, toLocal(light.position), geo, infinity, zfail)
  }

  class ShadowVolumeNode {
    var ShadowMesh: Mesh?
    /** The references to meshes the node holds. */
    ghost var MeshRefs: multiset<Mesh>
    /** The bounding box; None until a mesh has been set (the default box). */
    var Box: Option<Box3>
    var Vertices: seq<Vec3>
    var Indices: seq<nat>
    var Adjacency: seq<nat>
    var FaceData: seq<bool>
    var Edges: seq<nat>
    var ShadowVolumes: seq<seq<Vec3>>
    var ShadowVolumesUsed: nat
    var IndexCount: nat
    var VertexCount: nat
    const Infinity: real
    const UseZFailMethod: bool
    /** The vector and triangle maths of the engine. */
    const Geo: Oracles

    ghost predicate Valid()
      reads this
    {
      && ShadowVolumesUsed <= |ShadowVolumes|
      && |Vertices| == VertexCount && |Indices| == IndexCount
      && Indexed(Vertices, Indices)
      && AdjacencyFits(Adjacency, Indices)
      && |FaceData| == IndexCount / 3
      && MeshRefs == (if ShadowMesh == null then multiset{} else multiset{ShadowMesh})
      && (ShadowMesh != null ==> Box == Some(ShadowMesh.box))
    }

    constructor (mesh: Mesh?, zfail: bool, infinity: real, geo: Oracles)
      ensures Valid()
      ensures ShadowMesh == mesh && UseZFailMethod == zfail && Infinity == infinity && Geo == geo
      ensures Box == if mesh == null then None else Some(mesh.box)
      ensures IndexCount == 0 && VertexCount == 0 && ShadowVolumesUsed == 0
      ensures Vertices == [] && Indices == [] && Adjacency == [] && ShadowVolumes == []
    {
      ShadowMesh := null;
      MeshRefs := multiset{};
      Box := None;
      Vertices, Indices, Adjacency, FaceData, Edges := [], [], [], [], [];
      ShadowVolumes := [];
      ShadowVolumesUsed, IndexCount, VertexCount := 0, 0, 0;
      Infinity, UseZFailMethod, Geo := infinity, zfail, geo;
      new;
      SetShadowMesh(mesh);
    }

    /** The destructor: releases the mesh reference. */
    method Destroy()
      requires Valid()
      modifies this`MeshRefs
      ensures MeshRefs == multiset{}
    {
      if ShadowMesh != null {
        MeshRefs := MeshRefs - multiset{ShadowMesh};
      }
    }

    /** Replace the mesh: setting the current one again changes nothing;
        otherwise the old one is released, the new one grabbed, and the box
        taken from the new one when there is one. */
    method SetShadowMesh(mesh: Mesh?)
      requires Valid()
      modifies this`ShadowMesh, this`MeshRefs, this`Box
      ensures Valid()
      ensures ShadowMesh == mesh
      ensures old(ShadowMesh) == mesh ==> MeshRefs == old(MeshRefs) && Box == old(Box)
      ensures old(ShadowMesh) != mesh && old(ShadowMesh) != null ==> old(ShadowMesh) !in MeshRefs
      ensures mesh == null ==> Box == old(Box)
    {
      if ShadowMesh == mesh {
        return;
      }
      if ShadowMesh != null {
        MeshRefs := MeshRefs - multiset{ShadowMesh};
      }
      ShadowMesh := mesh;
      if ShadowMesh != null {
        MeshRefs := MeshRefs + multiset{ShadowMesh};
        Box := Some(ShadowMesh.box);
      }
    }

    /** getBoundingBox. */
    function GetBoundingBox(): (b: Option<Box3>)
      requires Valid()
      reads this
      ensures ShadowMesh != null ==> b == Some(ShadowMesh.box)
      ensures b == Box
    {
      Box
    }

    /** getDynamicLightCount lights; a light casts a volume when it casts
        shadows and `inRange` holds of it (its squared distance to the
        parent is at most four times its squared radius); `toLocal` is the
        parent's inverse transform. */
    method UpdateShadowVolumes(lights: seq<Light>, inRange: Light -> bool, toLocal: Vec3 -> Vec3)
      requires Valid()
      requires ShadowMesh != null ==> WellFormed(ShadowMesh)
      modifies this`Vertices, this`Indices, this`Adjacency, this`FaceData, this`Edges,
               this`ShadowVolumes, this`ShadowVolumesUsed, this`IndexCount, this`VertexCount
      ensures Valid()
      ensures ShadowMesh == null || lights == [] ==> unchanged(this)
      ensures ShadowMesh != null && lights != [] ==>
                && Vertices == FlatVertices(ShadowMesh.buffers)
                && Indices == SnapshotIndices(ShadowMesh.buffers)
                && Adjacency == (if old(IndexCount) != IndexCount || old(VertexCount) != VertexCount
                                 then Truncate16(AdjacencyTable(Vertices, Indices, Geo.posEq))
                                 else old(Adjacency))
                && ShadowVolumesUsed == |ShadowLights(lights, inRange)|
                && |ShadowVolumes| == Max(old(|ShadowVolumes|), ShadowVolumesUsed)
                && (forall k :: 0 <= k < ShadowVolumesUsed ==>
                      ShadowVolumes[k] == VolumeOf(Vertices, Indices, Adjacency, ShadowLights(lights, inRange)[k],
                                                   toLocal, Geo, Infinity, UseZFailMethod))
                && (forall k :: ShadowVolumesUsed <= k < |ShadowVolumes| ==> ShadowVolumes[k] == old(ShadowVolumes[k]))
    {
      var oldIndexCount, oldVertexCount := IndexCount, VertexCount;
      var mesh := ShadowMesh;
      if mesh == null || |lights| == 0 {
        return;
      }
      ShadowVolumesUsed := 0;
      Resnapshot(mesh);
      BuildVolumes(lights, inRange, toLocal);
    }

    /** CShadowVolumeSceneNode.cpp, lines 215-254: take a new snapshot of the mesh, and recompute the
        adjacency only when the vertex or index count changed. */
    method Resnapshot(mesh: Mesh)
      requires Valid() && mesh == ShadowMesh && WellFormed(mesh)
      modifies this`Vertices, this`Indices, this`Adjacency, this`FaceData, this`IndexCount, this`VertexCount
      ensures Valid()
      ensures Vertices == FlatVertices(mesh.buffers) && Indices == SnapshotIndices(mesh.buffers)
      ensures Adjacency == (if old(IndexCount) != IndexCount || old(VertexCount) != VertexCount
                            then Truncate16(AdjacencyTable(Vertices, Indices, Geo.posEq))
                            else old(Adjacency))
    {
      var oldIndexCount, oldVertexCount := IndexCount, VertexCount;
      ghost var oldIndices := Indices;
      SnapshotMesh(mesh);
      var changed := oldVertexCount != VertexCount || oldIndexCount != IndexCount;
      assert !changed ==> FaceCount(Indices) == FaceCount(oldIndices);
      RefreshAdjacency(changed);
    }

    /** CShadowVolumeSceneNode.cpp, lines 252-253: recompute the adjacency when the counts changed, else keep it. */
    method RefreshAdjacency(changed: bool)
      requires Indexed(Vertices, Indices) && IndexCount == |Indices|
      requires !changed ==> AdjacencyFits(Adjacency, Indices)
      modifies this`Adjacency
      ensures AdjacencyFits(Adjacency, Indices)
      ensures Adjacency == if changed then Truncate16(AdjacencyTable(Vertices, Indices, Geo.posEq)) else old(Adjacency)
    {
      if changed {
        CalculateAdjacency();
      }
    }

    /** CShadowVolumeSceneNode.cpp, lines 261-271: one volume per light that casts shadows and is in
        range, in light order, from the first pool slot on. */
    method BuildVolumes(lights: seq<Light>, inRange: Light -> bool, toLocal: Vec3 -> Vec3)
      requires Valid() && ShadowVolumesUsed == 0
      modifies this`ShadowVolumes, this`ShadowVolumesUsed, this`FaceData, this`Edges
      ensures Valid()
      ensures ShadowVolumesUsed == |ShadowLights(lights, inRange)|
      ensures |ShadowVolumes| == Max(old(|ShadowVolumes|), ShadowVolumesUsed)
      ensures forall k :: 0 <= k < ShadowVolumesUsed ==>
                ShadowVolumes[k] == VolumeOf(Vertices, Indices, Adjacency, ShadowLights(lights, inRange)[k],
                                             toLocal, Geo, Infinity, UseZFailMethod)
      ensures forall k :: ShadowVolumesUsed <= k < |ShadowVolumes| ==> ShadowVolumes[k] == old(ShadowVolumes[k])
    {
      for i := 0 to |lights|
        invariant Valid()
        invariant ShadowVolumesUsed == |ShadowLights(lights[..i], inRange)|
        invariant |ShadowVolumes| == Max(old(|ShadowVolumes|), ShadowVolumesUsed)
        invariant forall k :: 0 <= k < ShadowVolumesUsed ==>
                    ShadowVolumes[k] == VolumeOf(Vertices, Indices, Adjacency, ShadowLights(lights[..i], inRange)[k],
                                                 toLocal, Geo, Infinity, UseZFailMethod)
        invariant forall k :: ShadowVolumesUsed <= k < |ShadowVolumes| ==> ShadowVolumes[k] == old(ShadowVolumes[k])
      {
        assert lights[..i + 1][..i] == lights[..i];
        var dl := lights[i];
        if dl.castShadows && inRange(dl) {
          CreateShadowVolume(toLocal(dl.position));
        }
      }
      assert lights[..|lights|] == lights;
    }

    /** CShadowVolumeSceneNode.cpp, lines 215-250: reset the counts, size the arrays to the mesh totals
        and copy every buffer's indices, rebased, and positions. */
    method SnapshotMesh(mesh: Mesh)
      requires WellFormed(mesh)
      modifies this`Vertices, this`Indices, this`FaceData, this`IndexCount, this`VertexCount
      ensures Vertices == FlatVertices(mesh.buffers) && Indices == SnapshotIndices(mesh.buffers)
      ensures VertexCount == |Vertices| && IndexCount == |Indices| && |FaceData| == IndexCount / 3
      ensures Indexed(Vertices, Indices)
    {
      var bufs := mesh.buffers;
      VertexCount, IndexCount := 0, 0;
      var totalVertices, totalIndices := CountTotals(bufs);
      Vertices := SetUsed(Vertices, totalVertices, Vec3(0.0, 0.0, 0.0));
      Indices := SetUsed(Indices, totalIndices, 0);
      FaceData := SetUsed(FaceData, totalIndices / 3, false);
      CopyBuffers(bufs);
      SnapshotIndicesInRange(bufs);
    }

    /** CShadowVolumeSceneNode.cpp, lines 224-229: the vertex and index totals over all buffers. */
    static method CountTotals(bufs: seq<MeshBuffer>) returns (totalVertices: nat, totalIndices: nat)
      ensures totalVertices == TotalVertices(bufs) && totalIndices == TotalIndices(bufs)
    {
      totalVertices, totalIndices := 0, 0;
      for i := 0 to |bufs|
        invariant totalVertices == TotalVertices(bufs[..i]) && totalIndices == TotalIndices(bufs[..i])
      {
        assert bufs[..i + 1][..i] == bufs[..i];
        totalIndices := totalIndices + |bufs[i].indices|;
        totalVertices := totalVertices + |bufs[i].positions|;
      }
      assert bufs[..|bufs|] == bufs;
    }

    /** CShadowVolumeSceneNode.cpp, lines 238-250: copy every buffer, in order, into the sized arrays. */
    method CopyBuffers(bufs: seq<MeshBuffer>)
      requires VertexCount == 0 && IndexCount == 0
      requires |Vertices| == TotalVertices(bufs) && |Indices| == TotalIndices(bufs)
      modifies this`Vertices, this`Indices, this`IndexCount, this`VertexCount
      ensures Vertices == FlatVertices(bufs) && Indices == SnapshotIndices(bufs)
      ensures VertexCount == |Vertices| && IndexCount == |Indices|
    {
      ghost var totalVertices, totalIndices := |Vertices|, |Indices|;
      ghost var flatV, flatI := FlatVertices(bufs), SnapshotIndices(bufs);
      assert bufs[..0] == [];
      for i := 0 to |bufs|
        invariant |Vertices| == totalVertices && |Indices| == totalIndices
        invariant VertexCount == TotalVertices(bufs[..i]) && IndexCount == TotalIndices(bufs[..i])
        invariant VertexCount <= totalVertices && IndexCount <= totalIndices
        invariant forall k :: 0 <= k < VertexCount ==> Vertices[k] == flatV[k]
        invariant forall k :: 0 <= k < IndexCount ==> Indices[k] == flatI[k]
      {
        assert bufs[..i + 1][..i] == bufs[..i];
        TotalsPrefix(bufs, i + 1);
        CopyBuffer(bufs, i);
      }
      assert bufs[..|bufs|] == bufs;
      assert Vertices == flatV;
      assert Indices == flatI;
    }

    /** Copy buffer `b` into the snapshot behind the buffers before it. */
    method CopyBuffer(bufs: seq<MeshBuffer>, b: nat)
      requires b < |bufs|
      requires |Vertices| == TotalVertices(bufs) && |Indices| == TotalIndices(bufs)
      requires VertexCount == TotalVertices(bufs[..b]) && IndexCount == TotalIndices(bufs[..b])
      requires VertexCount + |bufs[b].positions| <= |Vertices| && IndexCount + |bufs[b].indices| <= |Indices|
      modifies this`Vertices, this`Indices, this`IndexCount, this`VertexCount
      ensures |Vertices| == old(|Vertices|) && |Indices| == old(|Indices|)
      ensures VertexCount == old(VertexCount) + |bufs[b].positions| && IndexCount == old(IndexCount) + |bufs[b].indices|
      ensures forall k :: 0 <= k < old(VertexCount) ==> Vertices[k] == old(Vertices[k])
      ensures forall k :: 0 <= k < old(IndexCount) ==> Indices[k] == old(Indices[k])
      ensures forall k :: old(VertexCount) <= k < VertexCount ==> Vertices[k] == FlatVertices(bufs)[k]
      ensures forall k :: old(IndexCount) <= k < IndexCount ==> Indices[k] == SnapshotIndices(bufs)[k]
    {
      CopyIndices(bufs, b);
      CopyVertices(bufs, b);
    }

    /** `Indices[IndexCount++] = *idxp + VertexCount` over buffer `b`'s indices. */
    method CopyIndices(bufs: seq<MeshBuffer>, b: nat)
      requires b < |bufs| && |Indices| == TotalIndices(bufs)
      requires VertexCount == TotalVertices(bufs[..b]) && IndexCount == TotalIndices(bufs[..b])
      requires IndexCount + |bufs[b].indices| <= |Indices|
      modifies this`Indices, this`IndexCount
      ensures |Indices| == old(|Indices|)
      ensures IndexCount == old(IndexCount) + |bufs[b].indices|
      ensures forall k :: 0 <= k < old(IndexCount) ==> Indices[k] == old(Indices[k])
      ensures forall k :: old(IndexCount) <= k < IndexCount ==> Indices[k] == SnapshotIndices(bufs)[k]
    {
      var buf := bufs[b];
      var base := IndexCount;
      ghost var snap := SnapshotIndices(bufs);
      for j := 0 to |buf.indices|
        invariant IndexCount == base + j && |Indices| == |snap|
        invariant forall k :: 0 <= k < base ==> Indices[k] == old(Indices[k])
        invariant forall k :: base <= k < IndexCount ==> Indices[k] == snap[k]
      {
        SnapshotIndicesAt(bufs, b, j);
        Indices := Indices[IndexCount := (buf.indices[j] + VertexCount) % U16Modulus];
        IndexCount := IndexCount + 1;
      }
    }

    /** `Vertices[VertexCount++] = buf->getPosition(j)` over buffer `b`'s positions. */
    method CopyVertices(bufs: seq<MeshBuffer>, b: nat)
      requires b < |bufs| && |Vertices| == TotalVertices(bufs)
      requires VertexCount == TotalVertices(bufs[..b])
      requires VertexCount + |bufs[b].positions| <= |Vertices|
      modifies this`Vertices, this`VertexCount
      ensures |Vertices| == old(|Vertices|)
      ensures VertexCount == old(VertexCount) + |bufs[b].positions|
      ensures forall k :: 0 <= k < old(VertexCount) ==> Vertices[k] == old(Vertices[k])
      ensures forall k :: old(VertexCount) <= k < VertexCount ==> Vertices[k] == FlatVertices(bufs)[k]
    {
      var buf := bufs[b];
      var vbase := VertexCount;
      for j := 0 to |buf.positions|
        invariant VertexCount == vbase + j && |Vertices| == TotalVertices(bufs)
        invariant forall k :: 0 <= k < vbase ==> Vertices[k] == old(Vertices[k])
        invariant forall k :: vbase <= k < VertexCount ==> Vertices[k] == FlatVertices(bufs)[k]
      {
        FlatVerticesAt(bufs, b, j);
        Vertices := Vertices[VertexCount := buf.positions[j]];
        VertexCount := VertexCount + 1;
      }
    }

    /** For every face and edge, the first other face with a vertex equal to
        each endpoint, or the face itself; stored as 16-bit face numbers. */
    method CalculateAdjacency()
      requires Indexed(Vertices, Indices) && IndexCount == |Indices|
      modifies this`Adjacency
      ensures Adjacency == Truncate16(AdjacencyTable(Vertices, Indices, Geo.posEq))
      ensures AdjacencyFits(Adjacency, Indices)
    {
      ghost var table := Truncate16(AdjacencyTable(Vertices, Indices, Geo.posEq));
      Adjacency := SetUsed(Adjacency, IndexCount, 0);
      var f := 0;
      while f < IndexCount
        invariant f % 3 == 0 && f <= IndexCount && |Adjacency| == IndexCount
        invariant forall k :: 0 <= k < f ==> Adjacency[k] == table[k]
      {
        AdjacencyOfFace(f, table);
        f := f + 3;
      }
      StoredTableFits(Vertices, Indices, Geo.posEq);
    }

    /** The three entries of the face at offset `f`. */
    method AdjacencyOfFace(f: nat, ghost table: seq<nat>)
      requires Indexed(Vertices, Indices) && IndexCount == |Indices|
      requires table == Truncate16(AdjacencyTable(Vertices, Indices, Geo.posEq))
      requires f % 3 == 0 && f < IndexCount && |Adjacency| == IndexCount
      requires forall k :: 0 <= k < f ==> Adjacency[k] == table[k]
      modifies this`Adjacency
      ensures |Adjacency| == IndexCount && f + 3 <= IndexCount
      ensures forall k :: 0 <= k < f + 3 ==> Adjacency[k] == table[k]
    {
      for edge := 0 to 3
        invariant |Adjacency| == IndexCount
        invariant forall k :: 0 <= k < f + edge ==> Adjacency[k] == table[k]
      {
        var a := NeighbourOf(f, edge, table);
        Adjacency := Adjacency[f + edge := a];
      }
    }

    /** The value stored at `Adjacency[f + edge]`: the other face found, or
        the face itself when the search runs off the end. */
    method NeighbourOf(f: nat, edge: nat, ghost table: seq<nat>) returns (a: nat)
      requires Indexed(Vertices, Indices) && IndexCount == |Indices|
      requires table == Truncate16(AdjacencyTable(Vertices, Indices, Geo.posEq))
      requires f % 3 == 0 && f < IndexCount && edge < 3
      ensures f + edge < |table| && a == table[f + edge]
    {
      var of := FindOtherFace(f, edge);
      ghost var face, other := f / 3, of / 3;
      assert f == 3 * face && of == 3 * other;
      if of >= IndexCount {
        a := (f / 3) % U16Modulus;
      } else {
        a := (of / 3) % U16Modulus;
      }
      EntryOfSearch(Vertices, Indices, Geo.posEq, face, edge, other);
    }

    /** The scan for another face sharing edge `edge` of the face at offset
        `f`: the offset of the first one, or the index count. */
    method FindOtherFace(f: nat, edge: nat) returns (of: nat)
      requires Indexed(Vertices, Indices) && IndexCount == |Indices|
      requires f % 3 == 0 && f < IndexCount && edge < 3
      ensures of % 3 == 0 && of <= IndexCount
      ensures of < IndexCount ==> SharesEdge(Vertices, Indices, Geo.posEq, f / 3, edge, of / 3)
      ensures forall h :: 0 <= h < of / 3 ==> !SharesEdge(Vertices, Indices, Geo.posEq, f / 3, edge, h)
    {
      var v1 := Vertices[Indices[f + edge]];
      var v2 := Vertices[Indices[f + (edge + 1) % 3]];
      ghost var face := f / 3;
      assert v1 == Corner(Vertices, Indices, face, edge);
      assert v2 == Corner(Vertices, Indices, face, (edge + 1) % 3);
      of := 0;
      ghost var g := 0;
      while of < IndexCount
        invariant of == 3 * g && of <= IndexCount
        invariant forall h :: 0 <= h < g ==> !SharesEdge(Vertices, Indices, Geo.posEq, face, edge, h)
      {
        if of != f {
          var cnt1, cnt2 := FaceMatches(of, v1, v2);
          assert cnt1 && cnt2 <==> SharesEdge(Vertices, Indices, Geo.posEq, face, edge, g);
          if cnt1 && cnt2 {
            break;
          }
        }
        of, g := of + 3, g + 1;
      }
      assert of / 3 == g;
    }

    /** Whether the face at offset `of` has a vertex equal to `v1`, and one equal to `v2`. */
    method FaceMatches(of: nat, v1: Vec3, v2: Vec3) returns (cnt1: bool, cnt2: bool)
      requires Indexed(Vertices, Indices) && of % 3 == 0 && of < |Indices|
      ensures of / 3 < FaceCount(Indices)
      ensures cnt1 == FaceHas(Vertices, Indices, Geo.posEq, of / 3, v1)
      ensures cnt2 == FaceHas(Vertices, Indices, Geo.posEq, of / 3, v2)
    {
      cnt1, cnt2 := false, false;
      for e := 0 to 3
        invariant cnt1 <==> exists c :: 0 <= c < e && Geo.posEq(v1, Corner(Vertices, Indices, of / 3, c))
        invariant cnt2 <==> exists c :: 0 <= c < e && Geo.posEq(v2, Corner(Vertices, Indices, of / 3, c))
      {
        assert Vertices[Indices[of + e]] == Corner(Vertices, Indices, of / 3, e);
        if Geo.posEq(v1, Vertices[Indices[of + e]]) {
          cnt1 := true;
        }
        if Geo.posEq(v2, Vertices[Indices[of + e]]) {
          cnt2 := true;
        }
      }
    }

    /** Build the volume for a light (in object space) in the next pool slot,
        or in a new one when every slot is in use. */
    method CreateShadowVolume(light: Vec3)
      requires Valid()
      modifies this`ShadowVolumes, this`ShadowVolumesUsed, this`FaceData, this`Edges
      ensures Valid()
      ensures ShadowVolumesUsed == old(ShadowVolumesUsed) + 1
      ensures |ShadowVolumes| == Max(old(|ShadowVolumes|), ShadowVolumesUsed)
      ensures ShadowVolumes[old(ShadowVolumesUsed)] ==
                Volume(Vertices, Indices, Adjacency, light, Geo, Infinity, UseZFailMethod)
      ensures forall k :: 0 <= k < |ShadowVolumes| && k != old(ShadowVolumesUsed) ==>
                ShadowVolumes[k] == old(ShadowVolumes)[k]
    {
      var slot := TakeSlot();
      var svp := BuildVolume(light);
      assert |FaceData| == IndexCount / 3;
      ShadowVolumes := ShadowVolumes[slot := svp];
    }

    /** CShadowVolumeSceneNode.cpp, lines 48-60: reuse the next pool slot, cleared, or append a new one. */
    method TakeSlot() returns (slot: nat)
      requires ShadowVolumesUsed <= |ShadowVolumes|
      modifies this`ShadowVolumes, this`ShadowVolumesUsed
      ensures slot == old(ShadowVolumesUsed) && ShadowVolumesUsed == slot + 1
      ensures |ShadowVolumes| == Max(old(|ShadowVolumes|), ShadowVolumesUsed)
      ensures ShadowVolumes[slot] == []
      ensures forall k :: 0 <= k < |ShadowVolumes| && k != slot ==> ShadowVolumes[k] == old(ShadowVolumes)[k]
    {
      slot := ShadowVolumesUsed;
      if |ShadowVolumes| > ShadowVolumesUsed {
        ShadowVolumes := ShadowVolumes[slot := []];
      } else {
        ShadowVolumes := ShadowVolumes + [[]];
      }
      ShadowVolumesUsed := ShadowVolumesUsed + 1;
    }

    /** CShadowVolumeSceneNode.cpp, lines 63-88: size Edges for the worst case, emit the caps and store
        the silhouette edges, then add a quad per edge. */
    method BuildVolume(light: Vec3) returns (svp: seq<Vec3>)
      requires Indexed(Vertices, Indices) && |Indices| == IndexCount
      requires AdjacencyFits(Adjacency, Indices) && |FaceData| == IndexCount / 3
      modifies this`FaceData, this`Edges
      ensures svp == Volume(Vertices, Indices, Adjacency, light, Geo, Infinity, UseZFailMethod)
      ensures FaceData == FacingFlags(Vertices, Indices, Geo.facing, light)
      ensures |Edges| == 2 * IndexCount && SilhouetteStored()
    {
      Edges := SetUsed(Edges, IndexCount * 2, 0);
      var numEdges;
      numEdges, svp := CreateEdgesAndCaps(light, []);
      ghost var es := EdgeList(Indices, FaceData, Adjacency, FaceCount(Indices));
      EdgeListInRange(Vertices, Indices, FaceData, Adjacency, FaceCount(Indices));
      svp := AddQuads(light, numEdges, es, svp);
      VolumeParts(Vertices, Indices, Adjacency, light, Geo, Infinity, UseZFailMethod, FaceData, es);
      ghost var caps := Caps(Vertices, Indices, FaceData, FaceCount(Indices), light, Geo, Infinity, UseZFailMethod);
      assert [] + caps == caps;
    }

    /** Edges begins with the silhouette edges of the current facing flags. */
    ghost predicate SilhouetteStored()
      reads this
    {
      && Selectable(Indices, FaceData, Adjacency)
      && var es := EdgeList(Indices, FaceData, Adjacency, |FaceData|);
         Stored(Edges, es)
    }

    /** The near-to-far quads of the first `numEdges` stored edges `es`, behind `svp0`. */
    method AddQuads(light: Vec3, numEdges: nat, ghost es: seq<Edge>, svp0: seq<Vec3>) returns (svp: seq<Vec3>)
      requires numEdges == |es| && Stored(Edges, es)
      requires EdgesInRange(Vertices, es)
      ensures svp == svp0 + Quads(Vertices, es, light, Geo, Infinity)
    {
      svp := svp0;
      for i := 0 to numEdges
        invariant svp == svp0 + Quads(Vertices, es[..i], light, Geo, Infinity)
      {
        var v1 := Vertices[Edges[2 * i + 0]];
        var v2 := Vertices[Edges[2 * i + 1]];
        var v3 := Geo.extrude(v1, light, Infinity);
        var v4 := Geo.extrude(v2, light, Infinity);
        svp := svp + [v1, v2, v3];
        svp := svp + [v2, v4, v3];
        assert es[..i + 1][..i] == es[..i];
      }
      assert es[..numEdges] == es;
    }

    /** Mark every face front- or back-facing, emit the caps of the
        front-facing ones under zfail, and store the silhouette edges in
        Edges; returns the number of edges. */
    method CreateEdgesAndCaps(light: Vec3, svp0: seq<Vec3>) returns (numEdges: nat, svp: seq<Vec3>)
      requires Indexed(Vertices, Indices) && |Indices| == IndexCount
      requires AdjacencyFits(Adjacency, Indices) && |FaceData| == IndexCount / 3
      requires |Edges| == 2 * IndexCount
      modifies this`FaceData, this`Edges
      ensures FaceData == FacingFlags(Vertices, Indices, Geo.facing, light)
      ensures svp == svp0 + Caps(Vertices, Indices, FaceData, FaceCount(Indices), light, Geo, Infinity, UseZFailMethod)
      ensures var es := EdgeList(Indices, FaceData, Adjacency, FaceCount(Indices));
              numEdges == |es| && numEdges <= IndexCount && |Edges| == 2 * IndexCount
              && Stored(Edges, es)
    {
      svp := MarkFaces(light, svp0);
      assert Selectable(Indices, FaceData, Adjacency);
      numEdges := StoreEdges();
    }

    /** The first pass of createEdgesAndCaps: the facing flag of every face,
        and the caps of the front-facing ones under zfail. */
    method MarkFaces(light: Vec3, svp0: seq<Vec3>) returns (svp: seq<Vec3>)
      requires Indexed(Vertices, Indices) && |Indices| == IndexCount && |FaceData| == IndexCount / 3
      modifies this`FaceData
      ensures FaceData == FacingFlags(Vertices, Indices, Geo.facing, light)
      ensures svp == svp0 + Caps(Vertices, Indices, FaceData, FaceCount(Indices), light, Geo, Infinity, UseZFailMethod)
    {
      var faceCount := IndexCount / 3;
      ghost var flags := FacingFlags(Vertices, Indices, Geo.facing, light);
      svp := svp0;
      for i := 0 to faceCount
        invariant |FaceData| == faceCount
        invariant forall k :: 0 <= k < i ==> FaceData[k] == flags[k]
        invariant svp == svp0 + Caps(Vertices, Indices, flags, i, light, Geo, Infinity, UseZFailMethod)
      {
        ghost var caps := svp;
        var v0 := Vertices[Indices[3 * i + 0]];
        var v1 := Vertices[Indices[3 * i + 1]];
        var v2 := Vertices[Indices[3 * i + 2]];
        FaceData := FaceData[i := Geo.facing(v0, v1, v2, light)];
        if UseZFailMethod && FaceData[i] {
          svp := svp + [v2, v1, v0];
          svp := svp + [Geo.extrude(v0, light, Infinity), Geo.extrude(v1, light, Infinity), Geo.extrude(v2, light, Infinity)];
        }
        assert svp == caps + FaceCaps(Vertices, Indices, flags, i, light, Geo, Infinity, UseZFailMethod);
      }
      assert FaceData == flags;
    }

    /** The second pass of createEdgesAndCaps: the silhouette edges of every
        face, stored in Edges; returns their number. */
    method StoreEdges() returns (numEdges: nat)
      requires Selectable(Indices, FaceData, Adjacency) && |Indices| == IndexCount
      requires |Edges| == 2 * IndexCount
      modifies this`Edges
      ensures var es := EdgeList(Indices, FaceData, Adjacency, |FaceData|);
              numEdges == |es| && numEdges <= IndexCount && |Edges| == 2 * IndexCount
              && Stored(Edges, es)
    {
      var faceCount := IndexCount / 3;
      assert faceCount == |FaceData| by {
        assert IndexCount == 3 * |FaceData|;
      }
      numEdges := 0;
      for i := 0 to faceCount
        invariant |Edges| == 2 * IndexCount && numEdges <= 3 * i
        invariant numEdges == |EdgeList(Indices, FaceData, Adjacency, i)|
        invariant Stored(Edges, EdgeList(Indices, FaceData, Adjacency, i))
      {
        numEdges := AddFaceEdges(i, numEdges);
      }
    }

    /** The edge pass over face `i`: its silhouette edges, when it is front-facing. */
    method AddFaceEdges(i: nat, n0: nat) returns (n: nat)
      requires Selectable(Indices, FaceData, Adjacency) && i < |FaceData|
      requires |Edges| == 2 * |Indices|
      requires n0 == |EdgeList(Indices, FaceData, Adjacency, i)| && n0 <= 3 * i
      requires Stored(Edges, EdgeList(Indices, FaceData, Adjacency, i))
      modifies this`Edges
      ensures |Edges| == 2 * |Indices|
      ensures n == |EdgeList(Indices, FaceData, Adjacency, i + 1)| && n <= 3 * (i + 1)
      ensures Stored(Edges, EdgeList(Indices, FaceData, Adjacency, i + 1))
    {
      ghost var es := EdgeList(Indices, FaceData, Adjacency, i);
      EdgeListStep(Indices, FaceData, Adjacency, i);
      n := n0;
      if FaceData[i] == true {
        ghost var es1 := es + EdgeIf(Indices, FaceData, Adjacency, i, 0);
        ghost var es2 := es1 + EdgeIf(Indices, FaceData, Adjacency, i, 1);
        n := AddEdgeIf(i, 0, n, es);
        n := AddEdgeIf(i, 1, n, es1);
        n := AddEdgeIf(i, 2, n, es2);
      }
    }

    /** One of the three edge tests of face `i` (edge `e`, from `wFace<e>`
        to the next corner, with neighbour `adj<e>`): store the edge behind
        the stored list `es` when the neighbour is the face itself or faces
        away from the light. */
    method AddEdgeIf(i: nat, e: nat, n0: nat, ghost es: seq<Edge>) returns (n: nat)
      requires Selectable(Indices, FaceData, Adjacency) && i < |FaceData| && e < 3
      requires |Edges| == 2 * |Indices|
      requires n0 == |es| && n0 <= 3 * i + e && Stored(Edges, es)
      modifies this`Edges
      ensures |Edges| == 2 * |Indices|
      ensures n == n0 + |EdgeIf(Indices, FaceData, Adjacency, i, e)| && n <= 3 * i + e + 1
      ensures Stored(Edges, es + EdgeIf(Indices, FaceData, Adjacency, i, e))
    {
      var from, to := Indices[3 * i + e], Indices[3 * i + NextCorner(e)];
      var adj := Adjacency[3 * i + e];
      n := n0;
      if adj == i || FaceData[adj] == false {
        PushEdge(n, es, Edge(from, to));
        n := n + 1;
      } else {
        assert es + [] == es;
      }
    }

    /** `Edges[2*numEdges+0] = from; Edges[2*numEdges+1] = to;` behind the stored list `es`. */
    method PushEdge(k: nat, ghost es: seq<Edge>, x: Edge)
      requires k == |es| && 2 * k + 1 < |Edges| && Stored(Edges, es)
      modifies this`Edges
      ensures |Edges| == old(|Edges|)
      ensures Stored(Edges, es + [x])
    {
      Edges := Edges[2 * k + 0 := x.from];
      Edges := Edges[2 * k + 1 := x.to];
      assert forall j :: 0 <= j < |es| ==> (es + [x])[j] == es[j];
    }

    /** render: nothing without volumes in use or without a driver; otherwise
        the world transform, then one stencil draw per volume in use, in
        pool order. */
    method Render(driverPresent: bool) returns (trace: seq<Call>)
      requires Valid()
      ensures ShadowVolumesUsed == 0 || !driverPresent ==> trace == []
      ensures ShadowVolumesUsed > 0 && driverPresent ==>
                |trace| == ShadowVolumesUsed + 1 && trace[0] == SetWorldTransform
                && forall i :: 0 <= i < ShadowVolumesUsed ==>
                     trace[i + 1] == DrawStencilShadowVolume(ShadowVolumes[i], UseZFailMethod)
    {
      if ShadowVolumesUsed == 0 || !driverPresent {
        return [];
      }
      trace := [SetWorldTransform];
      for i := 0 to ShadowVolumesUsed
        invariant |trace| == i + 1 && trace[0] == SetWorldTransform
        invariant forall k :: 0 <= k < i ==> trace[k + 1] == DrawStencilShadowVolume(ShadowVolumes[k], UseZFailMethod)
      {
        trace := trace + [DrawStencilShadowVolume(ShadowVolumes[i], UseZFailMethod)];
      }
    }
  }
}
