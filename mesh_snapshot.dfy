/**
  The mesh a shadow volume node casts from, and the snapshot it takes of it:
  every mesh buffer's positions concatenated into one vertex list and every
  buffer's triangle indices into one index list, each index rebased by the
  number of vertices of the buffers before its own.

  Positions are opaque points: nothing here computes with coordinates.
 */
module MeshSnapshot {

  /** A point of object space. */
  datatype Vec3 = Vec3(x: real, y: real, z: real)

  /** An axis-aligned bounding box. */
  datatype Box3 = Box3(minEdge: Vec3, maxEdge: Vec3)

  /** One mesh buffer: its 16-bit triangle indices and its vertex positions. */
  datatype MeshBuffer = MeshBuffer(indices: seq<nat>, positions: seq<Vec3>)

  /** A mesh, shared by reference with other users; the node never changes it. */
  class Mesh {
    const buffers: seq<MeshBuffer>
    const box: Box3

    constructor (buffers: seq<MeshBuffer>, box: Box3)
      ensures this.buffers == buffers && this.box == box
    {
      this.buffers := buffers;
      this.box := box;
    }
  }

  /** Index values are stored as unsigned 16-bit numbers, counts as unsigned 32-bit ones. */
  const U16Modulus: nat := 0x1_0000
  const U32Modulus: nat := 0x1_0000_0000

  function TotalVertices(bufs: seq<MeshBuffer>): nat {
    if bufs == [] then 0
    else TotalVertices(bufs[..|bufs| - 1]) + |bufs[|bufs| - 1].positions|
  }

  function TotalIndices(bufs: seq<MeshBuffer>): nat {
    if bufs == [] then 0
    else TotalIndices(bufs[..|bufs| - 1]) + |bufs[|bufs| - 1].indices|
  }

  /** The indices `idx`, each increased by `base`. */
  function Rebase(idx: seq<nat>, base: nat): (r: seq<nat>)
    ensures |r| == |idx|
    ensures forall j :: 0 <= j < |idx| ==> r[j] == idx[j] + base
  {
    seq(|idx|, j requires 0 <= j < |idx| => idx[j] + base)
  }

  /** The snapshot's index list. */
  function FlatIndices(bufs: seq<MeshBuffer>): (r: seq<nat>)
    ensures |r| == TotalIndices(bufs)
  {
    if bufs == [] then []
    else
      var pre := bufs[..|bufs| - 1];
      FlatIndices(pre) + Rebase(bufs[|bufs| - 1].indices, TotalVertices(pre))
  }

  /** The snapshot's vertex list. */
  function FlatVertices(bufs: seq<MeshBuffer>): (r: seq<Vec3>)
    ensures |r| == TotalVertices(bufs)
  {
    if bufs == [] then []
    else FlatVertices(bufs[..|bufs| - 1]) + bufs[|bufs| - 1].positions
  }

  /** Each buffer indexes only its own vertices. */
  predicate BuffersIndexed(bufs: seq<MeshBuffer>) {
    forall b, j :: 0 <= b < |bufs| && 0 <= j < |bufs[b].indices| ==>
      bufs[b].indices[j] < |bufs[b].positions|
  }

  /** What the node demands of a mesh: triangle lists, buffers that index
      their own vertices, and totals whose 32-bit sums and doubled index
      count do not wrap. */
  predicate WellFormed(m: Mesh) {
    && BuffersIndexed(m.buffers)
    && TotalIndices(m.buffers) % 3 == 0
    && 2 * TotalIndices(m.buffers) < U32Modulus
    && TotalVertices(m.buffers) < U32Modulus
  }

  /** Each index as the 16-bit element it is stored in. */
  function Truncate16(s: seq<nat>): (r: seq<nat>)
    ensures |r| == |s|
    ensures forall k :: 0 <= k < |s| ==> r[k] == s[k] % U16Modulus
  {
    seq(|s|, k requires 0 <= k < |s| => s[k] % U16Modulus)
  }

  /** Truncation never raises an entry, so a bound on the entries survives it. */
  lemma Truncate16Below(s: seq<nat>, bound: nat)
    requires forall k :: 0 <= k < |s| ==> s[k] < bound
    ensures forall k :: 0 <= k < |s| ==> Truncate16(s)[k] < bound
  {
    forall k | 0 <= k < |s|
      ensures Truncate16(s)[k] < bound
    {
      if s[k] >= U16Modulus {
        assert s[k] % U16Modulus < U16Modulus;
      }
    }
  }

  /** The node's index list: the rebased indices, stored in 16 bits. */
  function SnapshotIndices(bufs: seq<MeshBuffer>): (r: seq<nat>)
    ensures |r| == TotalIndices(bufs)
  {
    Truncate16(FlatIndices(bufs))
  }

  lemma {:induction false} TotalsPrefix(bufs: seq<MeshBuffer>, k: nat)
    requires k <= |bufs|
    ensures TotalVertices(bufs[..k]) <= TotalVertices(bufs)
    ensures TotalIndices(bufs[..k]) <= TotalIndices(bufs)
    decreases |bufs|
  {
    if k < |bufs| {
      var pre := bufs[..|bufs| - 1];
      assert pre[..k] == bufs[..k];
      TotalsPrefix(pre, k);
    } else {
      assert bufs[..k] == bufs;
    }
  }

  /** Index `j` of buffer `k` lands at its buffer's offset in the snapshot,
      increased by the vertex count of the buffers before it. */
  lemma {:induction false} FlatIndicesRebased(bufs: seq<MeshBuffer>, k: nat, j: nat)
    requires k < |bufs| && j < |bufs[k].indices|
    ensures TotalIndices(bufs[..k]) + j < TotalIndices(bufs)
    ensures FlatIndices(bufs)[TotalIndices(bufs[..k]) + j] == bufs[k].indices[j] + TotalVertices(bufs[..k])
    decreases |bufs|
  {
    var pre := bufs[..|bufs| - 1];
    if k < |bufs| - 1 {
      assert pre[..k] == bufs[..k];
      FlatIndicesRebased(pre, k, j);
    } else {
      assert pre == bufs[..k];
    }
  }

  /** Index `j` of buffer `k`, rebased and truncated to 16 bits, in the node's index list. */
  lemma SnapshotIndicesAt(bufs: seq<MeshBuffer>, k: nat, j: nat)
    requires k < |bufs| && j < |bufs[k].indices|
    ensures TotalIndices(bufs[..k]) + j < TotalIndices(bufs)
    ensures SnapshotIndices(bufs)[TotalIndices(bufs[..k]) + j]
            == (bufs[k].indices[j] + TotalVertices(bufs[..k])) % U16Modulus
  {
    FlatIndicesRebased(bufs, k, j);
  }

  /** Position `j` of buffer `k` lands at its buffer's vertex offset in the snapshot. */
  lemma {:induction false} FlatVerticesAt(bufs: seq<MeshBuffer>, k: nat, j: nat)
    requires k < |bufs| && j < |bufs[k].positions|
    ensures TotalVertices(bufs[..k]) + j < TotalVertices(bufs)
    ensures FlatVertices(bufs)[TotalVertices(bufs[..k]) + j] == bufs[k].positions[j]
    decreases |bufs|
  {
    var pre := bufs[..|bufs| - 1];
    if k < |bufs| - 1 {
      assert pre[..k] == bufs[..k];
      FlatVerticesAt(pre, k, j);
    } else {
      assert pre == bufs[..k];
    }
  }

  /** Every snapshot index names a snapshot vertex. */
  lemma {:induction false} FlatIndicesInRange(bufs: seq<MeshBuffer>)
    requires BuffersIndexed(bufs)
    ensures forall i :: 0 <= i < |FlatIndices(bufs)| ==> FlatIndices(bufs)[i] < TotalVertices(bufs)
  {
    if bufs != [] {
      var pre := bufs[..|bufs| - 1];
      assert BuffersIndexed(pre) by {
        forall b, j | 0 <= b < |pre| && 0 <= j < |pre[b].indices|
          ensures pre[b].indices[j] < |pre[b].positions|
        {
          assert pre[b] == bufs[b];
        }
      }
      FlatIndicesInRange(pre);
    }
  }

  /** Wrapped or not, every stored index names a snapshot vertex: an index
      only wraps when there are more than 2^16 vertices. */
  lemma SnapshotIndicesInRange(bufs: seq<MeshBuffer>)
    requires BuffersIndexed(bufs)
    ensures forall i :: 0 <= i < |SnapshotIndices(bufs)| ==> SnapshotIndices(bufs)[i] < TotalVertices(bufs)
  {
    FlatIndicesInRange(bufs);
  }

  /** With at most 2^16 vertices, no index wraps. */
  lemma SnapshotIndicesExact(bufs: seq<MeshBuffer>)
    requires BuffersIndexed(bufs) && TotalVertices(bufs) <= U16Modulus
    ensures SnapshotIndices(bufs) == FlatIndices(bufs)
  {
    FlatIndicesInRange(bufs);
  }
}
