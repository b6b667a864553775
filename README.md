# Irrlicht shadow volumes, integer scanners and texture stage cache in Dafny

This project models three pieces of sequential logic of the Irrlicht engine and proves what they compute.

- **The stencil shadow volume scene node** (`CShadowVolumeSceneNode`):
  - It holds a reference to a mesh.
  - Each update, it takes a flattened snapshot of the mesh: the positions of all buffers in one vertex list, and all buffers' triangle indices rebased into one 16-bit index list.
  - It recomputes the 16-bit face adjacency table whenever the vertex or index count changed. The table is built by the quadratic search for another face that has both endpoints of an edge.
  - It builds one shadow volume per dynamic light that casts shadows and is in range, and keeps the volumes in a pool that is reused from frame to frame.
  - A volume consists of:
    - under the zfail method, the front and back caps of every front-facing face;
    - then one near-to-far quad for every silhouette edge, that is, every edge of a front-facing face whose neighbour is the face itself or is not front-facing.
  - Rendering submits the volumes in use to the driver.
- **The integer scanners** of `fast_atof.h`:
  - `strtoul10`, with 32-bit accumulation and saturation;
  - `strtol10`, with an optional sign and saturation to the s32 range;
  - `strtoul16`.
  - Each consumes the maximal digit run and reports where it ended through `*out`.
- **The OpenGL driver's texture stage cache** (`STextureStageCache`): a fixed array of eight texture slots. Binding a texture grabs a reference to it, and unbinding drops one.

Modules:

- `MeshSnapshot` (mesh_snapshot.dfy): the mesh, its buffers, and the flattened snapshot as functions.
- `FaceAdjacency` (face_adjacency.dfy): the adjacency table as a function: first-match search, entry by entry.
- `Silhouette` (silhouette.dfy):
  - facing flags;
  - the silhouette edge list, face by face and in test order;
  - caps, quads and the whole volume of one light.
- `ShadowVolumeNode` (shadow_volume_node.dfy): the node as a class whose fields are the engine's arrays (as sequences). Its methods, with their loops, are proved to produce exactly the functions above, and to keep the pool invariant `ShadowVolumesUsed <= |ShadowVolumes|`.
- `FastAtof` (fast_atof.dfy):
  - the scanning loops as methods, proved equal to folds of their loop bodies;
  - lemmas that relate those folds to the unbounded value of the digits.
- `TextureStageCache` (texture_stage_cache.dfy): the cache as a class over an array. The references it holds are a ghost multiset.

Floating-point geometry is not computed. The node receives it as oracles:

- `posEq` is `vector3df::equals`;
- `facing(v0, v1, v2, light)` is `triangle3df(v0, v1, v2).isFrontFacing(light)`. `IRR_USE_REVERSE_EXTRUDED` is defined, so this is the order the code uses.
- `extrude(v, light, infinity)` is `v + (v - light).normalize() * infinity`.

The light range test and the parent's inverse transform are parameters of the update.

The adjacency table is recomputed only when a count changes. The model reproduces this: a new mesh with the same counts keeps the old table.

## Model

All paths are relative to the repository root. Lines of the node are in `source/Irrlicht/CShadowVolumeSceneNode.cpp`.

| member | source | states |
|---|---|---|
| ShadowVolumeNode.SetUsed | source/Irrlicht/CShadowVolumeSceneNode.cpp:233-235 | `set_used(n)` leaves exactly `n` elements and keeps every old element below `n` |
| ShadowVolumeNode.ShadowLightsMembers | source/Irrlicht/CShadowVolumeSceneNode.cpp:261-271 | a light gets a volume iff it is one of the dynamic lights, casts shadows and is in range; there are at most as many volumes as lights |
| ShadowVolumeNode.ShadowVolumeNode.constructor | source/Irrlicht/CShadowVolumeSceneNode.cpp:20-31 | all counts zero, all arrays empty; the given mesh is set (and grabbed) and the box is the mesh's box, or the default when there is no mesh |
| ShadowVolumeNode.ShadowVolumeNode.Destroy | source/Irrlicht/CShadowVolumeSceneNode.cpp:35-39 | the node releases its mesh reference and holds none |
| ShadowVolumeNode.ShadowVolumeNode.SetShadowMesh | source/Irrlicht/CShadowVolumeSceneNode.cpp:183-195 | setting the current mesh changes neither references nor box; otherwise the old mesh is released and the new one held once; the box changes only for a non-null mesh, to its box |
| ShadowVolumeNode.ShadowVolumeNode.GetBoundingBox | source/Irrlicht/CShadowVolumeSceneNode.cpp:316-319 | the box, which is the mesh's box whenever there is a mesh |
| ShadowVolumeNode.ShadowVolumeNode.UpdateShadowVolumes | source/Irrlicht/CShadowVolumeSceneNode.cpp:198-272 | no mesh or no lights: nothing changes (not even ShadowVolumesUsed). Otherwise the vertices and indices are the mesh's flattened snapshot, the adjacency is recomputed iff a count changed, ShadowVolumesUsed is the number of shadow-casting in-range lights, pool slot k holds the volume of the k-th such light, and later slots are untouched |
| ShadowVolumeNode.ShadowVolumeNode.Resnapshot | source/Irrlicht/CShadowVolumeSceneNode.cpp:200-254 | the snapshot equals the flattened mesh; the adjacency is the 16-bit table of the new snapshot iff the vertex or index count changed, else the old table |
| ShadowVolumeNode.ShadowVolumeNode.RefreshAdjacency | source/Irrlicht/CShadowVolumeSceneNode.cpp:252-254 | the adjacency is recomputed exactly when asked, and every entry is a face number of the mesh |
| ShadowVolumeNode.ShadowVolumeNode.BuildVolumes | source/Irrlicht/CShadowVolumeSceneNode.cpp:261-271 | one volume per shadow-casting in-range light, in light order, from slot 0; the pool grows only as far as needed and slots past the used ones are unchanged |
| ShadowVolumeNode.ShadowVolumeNode.SnapshotMesh | source/Irrlicht/CShadowVolumeSceneNode.cpp:215-250 | Vertices is the concatenation of the buffers' positions, Indices the rebased 16-bit indices, the counts are their lengths, FaceData has one flag per face, and every index names a vertex |
| ShadowVolumeNode.ShadowVolumeNode.CountTotals | source/Irrlicht/CShadowVolumeSceneNode.cpp:219-229 | the sums of the buffers' vertex and index counts |
| ShadowVolumeNode.ShadowVolumeNode.CopyBuffers | source/Irrlicht/CShadowVolumeSceneNode.cpp:238-250 | copying all buffers in order fills the sized arrays with exactly the flattened snapshot, and the running counts end at the totals |
| ShadowVolumeNode.ShadowVolumeNode.CopyBuffer | source/Irrlicht/CShadowVolumeSceneNode.cpp:240-249 | one buffer lands at its offset in the snapshot; the part already copied is unchanged |
| ShadowVolumeNode.ShadowVolumeNode.CopyIndices | source/Irrlicht/CShadowVolumeSceneNode.cpp:242-245 | each index of the buffer is written, plus the vertex count so far and truncated to 16 bits, at the next index slot; the earlier ones are unchanged |
| ShadowVolumeNode.ShadowVolumeNode.CopyVertices | source/Irrlicht/CShadowVolumeSceneNode.cpp:247-249 | each position of the buffer is written at the next vertex slot; the earlier ones are unchanged |
| ShadowVolumeNode.ShadowVolumeNode.CalculateAdjacency | source/Irrlicht/CShadowVolumeSceneNode.cpp:323-368 | Adjacency has IndexCount entries and equals the adjacency table stored in 16 bits; every entry is below the face count |
| ShadowVolumeNode.ShadowVolumeNode.AdjacencyOfFace | source/Irrlicht/CShadowVolumeSceneNode.cpp:330-366 | the three entries of one face are written and the entries before it are kept |
| ShadowVolumeNode.ShadowVolumeNode.NeighbourOf | source/Irrlicht/CShadowVolumeSceneNode.cpp:332-365 | the value stored for an edge is the table's entry: the found face, or the face itself when the search runs off the end |
| ShadowVolumeNode.ShadowVolumeNode.FindOtherFace | source/Irrlicht/CShadowVolumeSceneNode.cpp:337-359 | the search stops at the first other face sharing both endpoints, or at IndexCount when no face does; no face before it shares the edge |
| ShadowVolumeNode.ShadowVolumeNode.FaceMatches | source/Irrlicht/CShadowVolumeSceneNode.cpp:344-354 | `cnt1` (resp. `cnt2`) holds iff some corner of the other face equals `v1` (resp. `v2`) |
| ShadowVolumeNode.ShadowVolumeNode.CreateShadowVolume | source/Irrlicht/CShadowVolumeSceneNode.cpp:42-89 | ShadowVolumesUsed grows by one, the slot at its old value holds exactly this light's volume whatever it held before, the pool grows only when every slot was in use, and every other slot is unchanged |
| ShadowVolumeNode.ShadowVolumeNode.TakeSlot | source/Irrlicht/CShadowVolumeSceneNode.cpp:48-60 | the slot is the old ShadowVolumesUsed, now empty; an existing one is reused when there is one, else one is appended; no other slot changes |
| ShadowVolumeNode.ShadowVolumeNode.BuildVolume | source/Irrlicht/CShadowVolumeSceneNode.cpp:62-88 | the buffer is the volume (caps, then one quad per stored edge), FaceData holds the facing flags, and Edges, of size 2·IndexCount, begins with the silhouette edges |
| ShadowVolumeNode.ShadowVolumeNode.AddQuads | source/Irrlicht/CShadowVolumeSceneNode.cpp:68-88 | each stored edge (v1, v2) appends v1, v2, v3, v2, v4, v3 with v3, v4 their extrusions, in edge order |
| ShadowVolumeNode.ShadowVolumeNode.CreateEdgesAndCaps | source/Irrlicht/CShadowVolumeSceneNode.cpp:95-180 | FaceData is the facing flags, the buffer gets the caps, and Edges begins with the silhouette edge list; the returned count is its length and at most IndexCount, so every write stays inside Edges |
| ShadowVolumeNode.ShadowVolumeNode.MarkFaces | source/Irrlicht/CShadowVolumeSceneNode.cpp:101-130 | every face's flag is its facing oracle; under zfail each front-facing face appends v2, v1, v0 and the extrusions of v0, v1, v2, in face order |
| ShadowVolumeNode.ShadowVolumeNode.StoreEdges | source/Irrlicht/CShadowVolumeSceneNode.cpp:132-179 | Edges begins with the endpoint pairs of the silhouette edge list; the returned count is its length and at most IndexCount |
| ShadowVolumeNode.ShadowVolumeNode.AddFaceEdges | source/Irrlicht/CShadowVolumeSceneNode.cpp:135-177 | after face i the stored edges are the edge list of faces 0..i, and their count is at most 3(i+1) |
| ShadowVolumeNode.ShadowVolumeNode.AddEdgeIf | source/Irrlicht/CShadowVolumeSceneNode.cpp:146-176 | one edge test: the edge is appended exactly when its neighbour is the face itself or not front-facing |
| ShadowVolumeNode.ShadowVolumeNode.PushEdge | source/Irrlicht/CShadowVolumeSceneNode.cpp:153-155 | the edge's endpoints are stored at 2k and 2k+1 behind the edges already stored, which stay |
| ShadowVolumeNode.ShadowVolumeNode.Render | source/Irrlicht/CShadowVolumeSceneNode.cpp:286-312 | nothing without volumes in use or without a driver; otherwise the world transform, then exactly the volumes 0..ShadowVolumesUsed-1 in order |
| FaceAdjacency.FirstNeighbour | source/Irrlicht/CShadowVolumeSceneNode.cpp:339-359 | the first face from `from` on that shares the edge, or the face count; no face in between shares it |
| FaceAdjacency.Entry | source/Irrlicht/CShadowVolumeSceneNode.cpp:361-365 | below the face count; either the lowest other face sharing both endpoints of the edge, or the face itself exactly when no face shares the edge |
| FaceAdjacency.AdjacencyTable | source/Irrlicht/CShadowVolumeSceneNode.cpp:325-367 | one entry per index, each a face number of the mesh |
| FaceAdjacency.AdjacencyPrefixAt | source/Irrlicht/CShadowVolumeSceneNode.cpp:328-330 | entry k belongs to face k/3 and edge k%3, whichever prefix holds it |
| FaceAdjacency.AdjacencyTableEntry | source/Irrlicht/CShadowVolumeSceneNode.cpp:323-368 | entry 3f+e is the lowest other face over which both endpoints of edge e match, and f iff there is none |
| FaceAdjacency.EntryOfSearch | source/Irrlicht/CShadowVolumeSceneNode.cpp:339-365 | any search result that is the first sharing face, or proves there is none, is the table's entry |
| FaceAdjacency.SingleTriangleAdjacency | source/Irrlicht/CShadowVolumeSceneNode.cpp:361-363 | a lone triangle's entries are all 0, the triangle itself |
| MeshSnapshot.Truncate16Below | source/Irrlicht/CShadowVolumeSceneNode.cpp:363-365 | storing entries in 16 bits never raises them, so a bound on the entries survives |
| MeshSnapshot.FlatIndicesRebased | source/Irrlicht/CShadowVolumeSceneNode.cpp:244-245 | index j of buffer k is at offset (indices before buffer k) + j, increased by the number of vertices before buffer k |
| MeshSnapshot.SnapshotIndicesAt | source/Irrlicht/CShadowVolumeSceneNode.cpp:245 | the same, truncated to 16 bits |
| MeshSnapshot.FlatVerticesAt | source/Irrlicht/CShadowVolumeSceneNode.cpp:248-249 | position j of buffer k is at offset (vertices before buffer k) + j |
| MeshSnapshot.FlatIndicesInRange | source/Irrlicht/CShadowVolumeSceneNode.cpp:238-250 | when each buffer indexes its own vertices, every rebased index names a vertex of the snapshot |
| MeshSnapshot.SnapshotIndicesInRange | source/Irrlicht/CShadowVolumeSceneNode.cpp:238-250 | the stored 16-bit indices also name snapshot vertices, wrapped or not |
| MeshSnapshot.SnapshotIndicesExact | source/Irrlicht/CShadowVolumeSceneNode.cpp:245 | with at most 2^16 vertices no stored index wraps |
| Silhouette.StoredTableFits | source/Irrlicht/CShadowVolumeSceneNode.cpp:361-365 | the 16-bit adjacency table has one entry per index, each below the face count, so `FaceData[adj]` stays in bounds |
| Silhouette.FaceEdgesSplit | source/Irrlicht/CShadowVolumeSceneNode.cpp:136-177 | a front-facing face contributes its tests of (v0,v1), (v1,v2), (v2,v0) in that order, a back-facing face nothing |
| Silhouette.EdgeListStep | source/Irrlicht/CShadowVolumeSceneNode.cpp:133-178 | faces are visited in ascending order, each appending its three tests when front-facing |
| Silhouette.EdgeListBound | source/Irrlicht/CShadowVolumeSceneNode.cpp:133-178 | at most three edges per front-facing face |
| Silhouette.FaceEdgeSelected | source/Irrlicht/CShadowVolumeSceneNode.cpp:146-176 | an edge of a face's list comes from one of its three edge checks that held |
| Silhouette.SelectedInFaceEdges | source/Irrlicht/CShadowVolumeSceneNode.cpp:146-176 | every edge check that holds on a front-facing face puts its edge in the face's list |
| Silhouette.EdgeListMembers | source/Irrlicht/CShadowVolumeSceneNode.cpp:133-178 | an edge is recorded iff it is edge e of a front-facing face whose entry e is the face itself or a face that is not front-facing |
| Silhouette.EdgeListSelected | source/Irrlicht/CShadowVolumeSceneNode.cpp:133-178 | every recorded edge has such a witness face and edge |
| Silhouette.SelectedInEdgeList | source/Irrlicht/CShadowVolumeSceneNode.cpp:133-178 | every such edge is recorded |
| Silhouette.EdgeListInRange | source/Irrlicht/CShadowVolumeSceneNode.cpp:69-72 | both endpoints of every recorded edge name vertices, so the quad loop reads inside Vertices |
| Silhouette.CapsLength | source/Irrlicht/CShadowVolumeSceneNode.cpp:114-129 | caps are 6 points per front-facing face under zfail and none otherwise |
| Silhouette.QuadsLength | source/Irrlicht/CShadowVolumeSceneNode.cpp:69-88 | quads are 6 points per edge |
| Silhouette.VolumeLength | source/Irrlicht/CShadowVolumeSceneNode.cpp:62-180 | a volume has 6·(front faces) points under zfail (else 0) plus 6·numEdges, and numEdges <= 3·(front faces) <= IndexCount |
| Silhouette.SingleTriangleVolume | source/Irrlicht/CShadowVolumeSceneNode.cpp:95-180 | a lone front-facing triangle has adjacency [0,0,0], its three edges in order as silhouette, and a zfail volume of 24 points |
| FastAtof.DecimalEnd | include/fast_atof.h:55-66 | the end of the maximal run of '0'-'9' from the start: all of it digits, the character after it (or the NUL) not |
| FastAtof.Fold10 | include/fast_atof.h:53-66 | the accumulator stays within u32, and once overflow is flagged it is 0xffffffff |
| FastAtof.ShiftIn10 | include/fast_atof.h:57-64 | one loop body with 32-bit wrap-around: one step of the fold |
| FastAtof.StrToUl10 | include/fast_atof.h:44-72 | a null input gives 0 and a null `*out`; otherwise `*out` is the end of the maximal digit run (also after overflow) and the value is the fold of that run |
| FastAtof.Fold10Fits | include/fast_atof.h:57-64 | when the digits' value fits in u32 the result is that value and no overflow is flagged |
| FastAtof.Fold10OverflowIsReal | include/fast_atof.h:58-62 | the overflow flag is raised only for digits whose value exceeds u32 |
| FastAtof.Fold10Saturates | include/fast_atof.h:58-64 | once the test has fired the result stays 0xffffffff for all later digits |
| FastAtof.StrToUl10Value | include/fast_atof.h:44-72 | on a digit run whose value fits in u32, strtoul10 returns that value and ends after the run |
| FastAtof.AfterSign | include/fast_atof.h:93-95 | at most one leading '-' or '+' is skipped, exactly when there is one |
| FastAtof.StrToL10 | include/fast_atof.h:84-112 | the result is in the s32 range; a null input gives 0 and null; `*out` is strtoul10's end on the text after the sign |
| FastAtof.StrToL10LoneSign | include/fast_atof.h:93-97 | a lone sign gives 0 with `*out` just past it |
| FastAtof.StrToL10InRange | include/fast_atof.h:105-111 | a magnitude up to INT_MAX is returned with its sign |
| FastAtof.StrToL10Saturates | include/fast_atof.h:98-104 | a magnitude above INT_MAX, as strtoul10 sees it, gives INT_MIN when negative and INT_MAX otherwise |
| FastAtof.HexDigitCaseInsensitive | include/fast_atof.h:139-142 | A-F and a-f are digits with the same values 10-15 |
| FastAtof.HexEnd | include/fast_atof.h:134-153 | the end of the maximal run of 0-9, A-F, a-f: all of it digits, the character after it not |
| FastAtof.ReadHexDigit | include/fast_atof.h:136-144 | the three digit tests in order: a digit exactly for 0-9, A-F, a-f, with its value |
| FastAtof.ShiftIn16 | include/fast_atof.h:137-151 | one loop body with the 32-bit shift and add: one step of the fold |
| FastAtof.Fold16 | include/fast_atof.h:132-153 | the accumulator stays within u32 and the overflow flag is never left set |
| FastAtof.StrToUl16 | include/fast_atof.h:123-159 | a null input gives 0 and null; otherwise `*out` is the end of the maximal hex run and the value is the fold of that run read as s32 |
| FastAtof.ToS32 | include/fast_atof.h:158 | the s32 whose two's-complement pattern is the u32 returned |
| FastAtof.Fold16Wraps | include/fast_atof.h:145-151 | as written the result is the hex value modulo 2^32: the INT_MAX reset never survives |
| FastAtof.StrToUl16Value | include/fast_atof.h:123-159 | for a hex run whose value fits in 32 bits, the returned bit pattern is that value and `*out` is the run's end |
| FastAtof.Fold10MissesWrap | include/fast_atof.h:57-58 | "5000000000" wraps to 705032704 without the overflow test firing |
| FastAtof.CheckedFold10Saturates | include/fast_atof.h:41-42 | with an exact test, overflow is flagged iff the value exceeds u32, and the result is the value or 0xffffffff |
| FastAtof.Fold16Wraps9Digits | include/fast_atof.h:145-151 | "100000000" (2^32) yields 0 as written, INT_MAX with the corrected test |
| FastAtof.CheckedFold16Saturates | include/fast_atof.h:120-121 | with the flag kept, overflow is flagged iff the value exceeds u32, and the result is the value or INT_MAX |
| TextureStageCache.OccupantsUpdate | source/Irrlicht/COpenGLDriver.h:529-536 | rebinding a slot gains one reference to the new texture and loses one to the old |
| TextureStageCache.OccupantsWithout | source/Irrlicht/COpenGLDriver.h:547-557 | emptying every slot that holds a texture removes exactly all of its references and no other |
| TextureStageCache.OccupantsAllNull | source/Irrlicht/COpenGLDriver.h:559-570 | slots that are all null hold no references |
| TextureStageCache.StageCache.constructor | source/Irrlicht/COpenGLDriver.h:513-519 | every slot is null and no reference is held |
| TextureStageCache.StageCache.Set | source/Irrlicht/COpenGLDriver.h:526-537 | a stage at or past MATERIAL_MAX_TEXTURES changes nothing; otherwise the slot becomes `tex`, `tex` gains one reference and the old occupant loses one, and setting the same texture again leaves the references unchanged |
| TextureStageCache.StageCache.Bind | source/Irrlicht/COpenGLDriver.h:528-536 | grab, store, then drop: the slot is `tex` and the references change by +tex, -old |
| TextureStageCache.StageCache.Get | source/Irrlicht/COpenGLDriver.h:539-545 | the slot of a stage in 0..7, and null for every other stage, negative ones included through the u32 cast |
| TextureStageCache.StageCache.DropSlot | source/Irrlicht/COpenGLDriver.h:553-554 | the slot becomes null and one reference to its texture is dropped |
| TextureStageCache.StageCache.Remove | source/Irrlicht/COpenGLDriver.h:547-557 | every slot that holds `tex` becomes null, the other slots are unchanged, and `tex` is dropped once per such slot |
| TextureStageCache.StageCache.Clear | source/Irrlicht/COpenGLDriver.h:559-570 | every slot is null and every held reference was dropped |
| TextureStageCache.StageCache.Destroy | source/Irrlicht/COpenGLDriver.h:521-524 | the destructor clears: all slots null, no reference held |

## Left out

- Floating-point geometry is not computed. `vector3df::equals`, `triangle3df::isFrontFacing` and the extrusion `v + (v - light).normalize() * Infinity` are oracles of the node (`Geo`). The light range test (`fabs(...) <= Radius*Radius*4`) and the parent's inverse transform are parameters of UpdateShadowVolumes. The equality oracle is not assumed to be an equivalence, because no lemma needs that.
- The scene manager, the video driver and the parent node are not objects. UpdateShadowVolumes takes the dynamic lights (position, CastShadows, radius) as a sequence. Render takes the presence of a driver as a flag and returns the driver calls as a trace.
- Render: the `DebugDataVisible` argument of `drawStencilShadowVolume` is not part of the trace. `OnRegisterSceneNode` and `setAutomaticCulling` are scene-manager bookkeeping and are not modelled.
- CreateShadowVolume: the `isDirectional` parameter is unused by the body and is omitted. `reallocate(IndexCount*5)` is only a capacity hint and is not modelled. The debug-only "Allocation too small" logs are not modelled either.
- SetUsed: the cells that `core::array::set_used` adds have unspecified contents in the engine. The model fills them with a fixed value, and no contract depends on that value.
- The element types of the node's arrays are declared in CShadowVolumeSceneNode.h, which is not part of this model. Indices and adjacency entries are taken as 16-bit, as the reads at lines 138-144 show. The model stores them reduced modulo 2^16 and proves what holds with or without wrap-around.
- UpdateShadowVolumes: WellFormed(mesh) is demanded. Each buffer must index its own vertices, the index total must be a multiple of 3 (otherwise line 332 reads past the end of Indices) and the 32-bit totals must not wrap. The engine demands these implicitly; the model does not cover meshes that break them.
- Box: before any mesh is set, the node's box is the engine's default `aabbox3d`. The model represents that box as `None`.
- Reference counts are ghost multisets: MeshRefs for the node and Held for the cache. They hold the references the object itself has grabbed. Other holders of the same mesh or texture, and their deletion at count zero, are outside the model.
- MATERIAL_MAX_TEXTURES is defined in a header that is not part of this model. It is the constant 8.
- TextureStageCache.StageCache.Remove: `tex` is a non-null texture. Line 553 dereferences it, and a null `tex` would match the empty slots.
- The float parsers `strtof10`, `fast_atof_move` and `fast_atof`, and the table they use, are not modelled, because their results are floating point.
- StrToUl10: the source's documentation says an oversized number returns INT_MAX, but line 60 returns 0xffffffff. The model follows the code.
- StrToL10: the documentation promises -INT_MAX for a large negative number, but line 101 returns INT_MIN. The model follows the code.
- StrToUl10, StrToL10 and StrToUl16 model the code as written, which is what every caller sees. The corrected folds of the Findings stand beside them.

## Findings

| source | as written | input that shows it | evidently intended | confidence | as-written member | corrected member |
|---|---|---|---|---|---|---|
| include/fast_atof.h:57-58 | overflow is detected by `tmp < unsignedValue` after a 32-bit `unsignedValue * 10 + digit`, which misses wraps that land above the old value | "5000000000": 500000000·10 wraps to 705032704, which is larger than 500000000, so the flag stays clear and strtoul10 returns 705032704 | saturate to 0xffffffff exactly when the value exceeds u32 | not executed | FastAtof.Fold10MissesWrap | FastAtof.CheckedFold10Saturates |
| include/fast_atof.h:145-151 | on a detected wrap, `unsignedValue` is set to INT_MAX but `overflow` is set to false, so line 151 overwrites it with the wrapped `tmp` at once; the result is always the value modulo 2^32 | "100000000" (nine hex digits, 2^32) returns 0 | return INT_MAX for every value beyond u32, as the documentation at lines 120-121 says | not executed | FastAtof.Fold16Wraps9Digits | FastAtof.CheckedFold16Saturates |
