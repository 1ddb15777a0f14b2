/**
 * The client's chunk mesher (mp3d-client/src/render/meshing.rs): every full
 * block of a palette chunk gets one quad per axis direction whose neighbour is
 * unknown or not full. A neighbour inside the chunk is read from the chunk;
 * any other is looked up in the world, where a chunk that is not resident
 * yields no block. Positions are integer world coordinates: the source only
 * adds 0 or 1 to block coordinates converted to `f32`.
 */
module ClientMesh {
  import opened Wrappers
  import opened Coords
  import opened PaletteChunk
  import opened Meshes
  import CoreWorld
  import FlatChunk

  /** `ChunkVertex`: position, face normal and block colour. */
  datatype ChunkVertex = ChunkVertex(position: Vec3i, normal: Vec3i, color: Color)

  /** `should_occlude`: a face of `a` is hidden by `b` when both fill their cells. */
  predicate ShouldOcclude(a: CoreBlock, b: CoreBlock) {
    a.full && b.full
  }

  // ---------------------------------------------------------------------------
  // Directions
  // ---------------------------------------------------------------------------

  function Abs(v: int): nat {
    if v < 0 then -v else v
  }

  /** A step along exactly one axis. */
  predicate IsUnitStep(d: Vec3i) {
    Abs(d.x) + Abs(d.y) + Abs(d.z) == 1
  }

  /** Where the three nested loops over -1..=1 (dx outermost, dz innermost) visit the triple d. */
  function LoopIndex(d: Vec3i): int {
    (d.x + 1) * 9 + (d.y + 1) * 3 + (d.z + 1)
  }

  /** The six axis directions, in the order -X, -Y, -Z, +Z, +Y, +X. */
  const Axes: seq<Vec3i> := [Vec3i(-1, 0, 0), Vec3i(0, -1, 0), Vec3i(0, 0, -1), Vec3i(0, 0, 1), Vec3i(0, 1, 0), Vec3i(1, 0, 0)]

  /**
   * The directions are listed in the order the loops visit them, so
   * together with `UnitStepsAreAxes` they are exactly what the loops yield
   * after the `!= 1` filter, in order.
   */
  lemma AxesInLoopOrder()
    ensures forall i, j :: 0 <= i < j < |Axes| ==> LoopIndex(Axes[i]) < LoopIndex(Axes[j])
  {
    assert LoopIndex(Axes[0]) == 4 && LoopIndex(Axes[1]) == 10 && LoopIndex(Axes[2]) == 12;
    assert LoopIndex(Axes[3]) == 14 && LoopIndex(Axes[4]) == 16 && LoopIndex(Axes[5]) == 22;
  }

  /** A member of the six axis directions. */
  predicate IsAxis(d: Vec3i) {
    d in Axes
  }

  /** The unit steps among the triples in -1..=1 are exactly the six axis directions. */
  lemma UnitStepsAreAxes(d: Vec3i)
    requires -1 <= d.x <= 1 && -1 <= d.y <= 1 && -1 <= d.z <= 1
    ensures IsUnitStep(d) <==> IsAxis(d)
  {
  }

  // ---------------------------------------------------------------------------
  // Faces
  // ---------------------------------------------------------------------------

  /** The corners (offsets from the block's minimum corner) of the face facing `d`, in push order. */
  function Corners(d: Vec3i): (cs: seq<Vec3i>)
    ensures IsAxis(d) ==> |cs| == 4
  {
    if d == Vec3i(1, 0, 0) then [Vec3i(1, 0, 0), Vec3i(1, 1, 0), Vec3i(1, 1, 1), Vec3i(1, 0, 1)]
    else if d == Vec3i(-1, 0, 0) then [Vec3i(0, 0, 1), Vec3i(0, 1, 1), Vec3i(0, 1, 0), Vec3i(0, 0, 0)]
    else if d == Vec3i(0, 1, 0) then [Vec3i(0, 1, 0), Vec3i(0, 1, 1), Vec3i(1, 1, 1), Vec3i(1, 1, 0)]
    else if d == Vec3i(0, -1, 0) then [Vec3i(1, 0, 0), Vec3i(1, 0, 1), Vec3i(0, 0, 1), Vec3i(0, 0, 0)]
    else if d == Vec3i(0, 0, 1) then [Vec3i(1, 0, 1), Vec3i(1, 1, 1), Vec3i(0, 1, 1), Vec3i(0, 0, 1)]
    else if d == Vec3i(0, 0, -1) then [Vec3i(0, 0, 0), Vec3i(0, 1, 0), Vec3i(1, 1, 0), Vec3i(1, 0, 0)]
    else []
  }

  function Sub(a: Vec3i, b: Vec3i): Vec3i {
    Vec3i(a.x - b.x, a.y - b.y, a.z - b.z)
  }

  /** The four vertices of the face of the block at world position wp facing d. */
  function FaceVertices(wp: Vec3i, d: Vec3i, color: Color): (vs: seq<ChunkVertex>)
    requires IsAxis(d)
    ensures |vs| == 4
    ensures forall k :: 0 <= k < 4 ==> vs[k].normal == d && vs[k].color == color
    ensures forall k :: 0 <= k < 4 ==> Sub(vs[k].position, wp) == Corners(d)[k]
  {
    var cs := Corners(d);
    [ChunkVertex(wp.Add(cs[0]), d, color), ChunkVertex(wp.Add(cs[1]), d, color),
     ChunkVertex(wp.Add(cs[2]), d, color), ChunkVertex(wp.Add(cs[3]), d, color)]
  }

  // ---------------------------------------------------------------------------
  // Neighbours
  // ---------------------------------------------------------------------------

  /** The world position of local cell l of chunk cp. */
  function WorldPos(cp: Vec3i, l: Vec3i): Vec3i {
    cp.Scale(ChunkSize).Add(l)
  }

  /**
   * The local `get_block` of `mesh_chunk`: a position whose offset from the
   * chunk's origin lies in [0, 16) on every axis is read from the chunk being
   * meshed; any other position from the world.
   */
  function NeighbourAt(c: Chunk, cp: Vec3i, w: CoreWorld.World, q: Vec3i): (r: Option<CoreBlock>)
    requires Valid(c) && CoreWorld.WorldValid(w)
    ensures InChunk(Sub(q, cp.Scale(ChunkSize))) ==> r.Some?
  {
    var l := Sub(q, cp.Scale(ChunkSize));
    if InChunk(l) then Some(GetBlock(c, l)) else CoreWorld.GetBlockAt(w, q)
  }

  /** When the chunk meshed is the world's own chunk there, the split lookup is the world lookup. */
  lemma NeighbourIsWorldLookup(c: Chunk, cp: Vec3i, w: CoreWorld.World, q: Vec3i)
    requires Valid(c) && CoreWorld.WorldValid(w)
    requires cp in w.chunks && w.chunks[cp] == c
    ensures NeighbourAt(c, cp, w, q) == CoreWorld.GetBlockAt(w, q)
  {
    var l := Sub(q, cp.Scale(ChunkSize));
    if InChunk(l) {
      assert q == cp.Scale(ChunkSize).Add(l);
      DecomposeUnique(q, cp, l);
    }
  }

  /** A face of b toward the neighbour is drawn when the neighbour is unknown or does not occlude it. */
  predicate Shown(b: CoreBlock, n: Option<CoreBlock>) {
    n.None? || !ShouldOcclude(b, n.value)
  }

  /** The faces of a block of colour `color` at wp toward the directions `ds`, skipping occluded ones. */
  function FacesToward(c: Chunk, cp: Vec3i, w: CoreWorld.World, b: CoreBlock, wp: Vec3i, ds: seq<Vec3i>): (qs: seq<seq<ChunkVertex>>)
    requires Valid(c) && CoreWorld.WorldValid(w)
    requires forall k :: 0 <= k < |ds| ==> IsAxis(ds[k])
    ensures AllQuads(qs) && |qs| <= |ds|
  {
    if |ds| == 0 then []
    else
      (if Shown(b, NeighbourAt(c, cp, w, wp.Add(ds[0]))) then [FaceVertices(wp, ds[0], b.color)] else [])
      + FacesToward(c, cp, w, b, wp, ds[1..])
  }

  /** The quads of local cell l: none for a block that is not full, else one per shown direction. */
  function BlockQuads(c: Chunk, cp: Vec3i, w: CoreWorld.World, l: Vec3i): (qs: seq<seq<ChunkVertex>>)
    requires Valid(c) && CoreWorld.WorldValid(w) && InChunk(l)
    ensures AllQuads(qs) && |qs| <= 6
  {
    var b := GetBlock(c, l);
    if !b.full then [] else FacesToward(c, cp, w, b, WorldPos(cp, l), Axes)
  }

  /** The quads of every cell, in the loops' order: x outermost, z innermost. */
  function CellQuads(c: Chunk, cp: Vec3i, w: CoreWorld.World): (cells: seq<seq<seq<ChunkVertex>>>)
    requires Valid(c) && CoreWorld.WorldValid(w)
    ensures |cells| == Volume
    ensures forall i :: 0 <= i < Volume ==> cells[i] == BlockQuads(c, cp, w, FlatChunk.PosOf(i))
  {
    seq(Volume, i requires 0 <= i < Volume => BlockQuads(c, cp, w, FlatChunk.PosOf(i)))
  }

  /** All the chunk's quads, cell after cell. */
  function MeshQuads(c: Chunk, cp: Vec3i, w: CoreWorld.World): (qs: seq<seq<ChunkVertex>>)
    requires Valid(c) && CoreWorld.WorldValid(w)
    ensures AllQuads(qs)
  {
    var cells := CellQuads(c, cp, w);
    var qs := Flatten(cells);
    forall k | 0 <= k < |qs|
      ensures |qs[k]| == 4
    {
      FlattenMember(cells, qs[k]);
    }
    qs
  }

  /**
   * `mesh_chunk`: the faces of every cell in loop order, each pushing four
   * vertices and six indices from the running vertex count.
   */
  function MeshChunk(c: Chunk, cp: Vec3i, w: CoreWorld.World): (m: Mesh<ChunkVertex>)
    requires Valid(c) && CoreWorld.WorldValid(w)
    ensures WellFormed(m)
    ensures forall k :: 0 <= k < |m.indices| ==> 0 <= m.indices[k] < |m.vertices|
    ensures 2 * |m.indices| == 3 * |m.vertices|
    ensures m.vertices == Flatten(MeshQuads(c, cp, w))
  {
    var m := BuildMesh(MeshQuads(c, cp, w));
    IndicesInRange(m);
    m
  }

  // ---------------------------------------------------------------------------
  // Properties
  // ---------------------------------------------------------------------------

  /** Faces toward distinct directions differ: their normals do. */
  lemma FacesDiffer(wp: Vec3i, d: Vec3i, e: Vec3i, color: Color, color': Color)
    requires IsAxis(d) && IsAxis(e) && d != e
    ensures FaceVertices(wp, d, color) != FaceVertices(wp, e, color')
  {
    assert FaceVertices(wp, d, color)[0].normal != FaceVertices(wp, e, color')[0].normal;
  }

  /** The faces toward `ds` are exactly the faces toward its shown directions. */
  lemma {:induction false} FacesTowardSpec(c: Chunk, cp: Vec3i, w: CoreWorld.World, b: CoreBlock, wp: Vec3i, ds: seq<Vec3i>, d: Vec3i)
    requires Valid(c) && CoreWorld.WorldValid(w)
    requires forall k :: 0 <= k < |ds| ==> IsAxis(ds[k])
    requires IsAxis(d)
    ensures FaceVertices(wp, d, b.color) in FacesToward(c, cp, w, b, wp, ds) <==>
      d in ds && Shown(b, NeighbourAt(c, cp, w, wp.Add(d)))
    decreases |ds|
  {
    if |ds| > 0 {
      FacesTowardSpec(c, cp, w, b, wp, ds[1..], d);
      if d != ds[0] {
        FacesDiffer(wp, d, ds[0], b.color, b.color);
      }
      assert d in ds <==> d == ds[0] || d in ds[1..];
    }
  }

  /** Every quad of the faces toward `ds` is the face toward one of its shown directions. */
  lemma {:induction false} FacesTowardOnly(c: Chunk, cp: Vec3i, w: CoreWorld.World, b: CoreBlock, wp: Vec3i, ds: seq<Vec3i>, q: seq<ChunkVertex>)
    requires Valid(c) && CoreWorld.WorldValid(w)
    requires forall k :: 0 <= k < |ds| ==> IsAxis(ds[k])
    requires q in FacesToward(c, cp, w, b, wp, ds)
    ensures exists k :: 0 <= k < |ds| && q == FaceVertices(wp, ds[k], b.color)
    decreases |ds|
  {
    var rest := FacesToward(c, cp, w, b, wp, ds[1..]);
    if q !in rest {
      assert q == FaceVertices(wp, ds[0], b.color);
    } else {
      FacesTowardOnly(c, cp, w, b, wp, ds[1..], q);
      var k :| 0 <= k < |ds[1..]| && q == FaceVertices(wp, ds[1..][k], b.color);
      assert ds[1..][k] == ds[k + 1];
    }
  }

  /** A block that does not fill its cell contributes no geometry. */
  lemma NonFullDrawsNothing(c: Chunk, cp: Vec3i, w: CoreWorld.World, l: Vec3i)
    requires Valid(c) && CoreWorld.WorldValid(w) && InChunk(l)
    requires !GetBlock(c, l).full
    ensures BlockQuads(c, cp, w, l) == []
  {
  }

  /**
   * A full block draws its face toward axis direction d exactly when the
   * neighbour across it is unknown or not full; every quad it draws is such
   * a face, with d as the normal and the block's colour on all four vertices.
   */
  lemma BlockFaceShown(c: Chunk, cp: Vec3i, w: CoreWorld.World, l: Vec3i, d: Vec3i)
    requires Valid(c) && CoreWorld.WorldValid(w) && InChunk(l) && IsAxis(d)
    ensures var b := GetBlock(c, l); var wp := WorldPos(cp, l);
      var n := NeighbourAt(c, cp, w, wp.Add(d));
      FaceVertices(wp, d, b.color) in BlockQuads(c, cp, w, l) <==> b.full && (n.None? || !n.value.full)
  {
    var b := GetBlock(c, l);
    if b.full {
      FacesTowardSpec(c, cp, w, b, WorldPos(cp, l), Axes, d);
    }
  }

  /** Every quad of a cell is the face of its full block toward some axis direction. */
  lemma BlockQuadsAreFaces(c: Chunk, cp: Vec3i, w: CoreWorld.World, l: Vec3i, q: seq<ChunkVertex>)
    requires Valid(c) && CoreWorld.WorldValid(w) && InChunk(l)
    requires q in BlockQuads(c, cp, w, l)
    ensures GetBlock(c, l).full
    ensures exists d :: IsAxis(d) && q == FaceVertices(WorldPos(cp, l), d, GetBlock(c, l).color)
  {
    var b := GetBlock(c, l);
    FacesTowardOnly(c, cp, w, b, WorldPos(cp, l), Axes, q);
  }

  /** A full block with no known full neighbour draws all six faces. */
  lemma IsolatedDrawsSix(c: Chunk, cp: Vec3i, w: CoreWorld.World, l: Vec3i)
    requires Valid(c) && CoreWorld.WorldValid(w) && InChunk(l) && GetBlock(c, l).full
    requires forall d :: IsAxis(d) ==> var n := NeighbourAt(c, cp, w, WorldPos(cp, l).Add(d)); n.None? || !n.value.full
    ensures |BlockQuads(c, cp, w, l)| == 6
  {
    AllShown(c, cp, w, GetBlock(c, l), WorldPos(cp, l), Axes);
  }

  /** A full block whose six neighbours are all known and full draws nothing. */
  lemma EnclosedDrawsNothing(c: Chunk, cp: Vec3i, w: CoreWorld.World, l: Vec3i)
    requires Valid(c) && CoreWorld.WorldValid(w) && InChunk(l)
    requires forall d :: IsAxis(d) ==> var n := NeighbourAt(c, cp, w, WorldPos(cp, l).Add(d)); n.Some? && n.value.full
    ensures BlockQuads(c, cp, w, l) == []
  {
    if GetBlock(c, l).full {
      NoneShown(c, cp, w, GetBlock(c, l), WorldPos(cp, l), Axes);
    }
  }

  lemma {:induction false} AllShown(c: Chunk, cp: Vec3i, w: CoreWorld.World, b: CoreBlock, wp: Vec3i, ds: seq<Vec3i>)
    requires Valid(c) && CoreWorld.WorldValid(w)
    requires forall k :: 0 <= k < |ds| ==> IsAxis(ds[k]) && Shown(b, NeighbourAt(c, cp, w, wp.Add(ds[k])))
    ensures |FacesToward(c, cp, w, b, wp, ds)| == |ds|
    decreases |ds|
  {
    if |ds| > 0 {
      AllShown(c, cp, w, b, wp, ds[1..]);
    }
  }

  lemma {:induction false} NoneShown(c: Chunk, cp: Vec3i, w: CoreWorld.World, b: CoreBlock, wp: Vec3i, ds: seq<Vec3i>)
    requires Valid(c) && CoreWorld.WorldValid(w)
    requires forall k :: 0 <= k < |ds| ==> IsAxis(ds[k]) && !Shown(b, NeighbourAt(c, cp, w, wp.Add(ds[k])))
    ensures FacesToward(c, cp, w, b, wp, ds) == []
    decreases |ds|
  {
    if |ds| > 0 {
      NoneShown(c, cp, w, b, wp, ds[1..]);
    }
  }

  /**
   * The mesh of a chunk holds the face of the block at local cell l toward
   * axis direction d exactly when that block is full and its neighbour is
   * unknown or not full.
   */
  lemma MeshChunkFaces(c: Chunk, cp: Vec3i, w: CoreWorld.World, l: Vec3i, d: Vec3i)
    requires Valid(c) && CoreWorld.WorldValid(w) && InChunk(l) && IsAxis(d)
    ensures var b := GetBlock(c, l); var wp := WorldPos(cp, l);
      var n := NeighbourAt(c, cp, w, wp.Add(d));
      FaceVertices(wp, d, b.color) in MeshQuads(c, cp, w) <==> b.full && (n.None? || !n.value.full)
  {
    var face := FaceVertices(WorldPos(cp, l), d, GetBlock(c, l).color);
    BlockFaceShown(c, cp, w, l, d);
    if face in BlockQuads(c, cp, w, l) {
      CellFaceInMesh(c, cp, w, l, face);
    }
    if face in MeshQuads(c, cp, w) {
      MeshFaceFromCell(c, cp, w, l, d);
    }
  }

  /** A quad of a cell is a quad of the mesh. */
  lemma CellFaceInMesh(c: Chunk, cp: Vec3i, w: CoreWorld.World, l: Vec3i, q: seq<ChunkVertex>)
    requires Valid(c) && CoreWorld.WorldValid(w) && InChunk(l)
    requires q in BlockQuads(c, cp, w, l)
    ensures q in MeshQuads(c, cp, w)
  {
    var cells := CellQuads(c, cp, w);
    var i := FlatChunk.Index(l);
    FlatChunk.PosOfIndex(l);
    assert cells[i] == BlockQuads(c, cp, w, l);
    FlattenHas(cells, i, q);
  }

  /** A face of cell l in the mesh comes from cell l's own quads. */
  lemma MeshFaceFromCell(c: Chunk, cp: Vec3i, w: CoreWorld.World, l: Vec3i, d: Vec3i)
    requires Valid(c) && CoreWorld.WorldValid(w) && InChunk(l) && IsAxis(d)
    requires FaceVertices(WorldPos(cp, l), d, GetBlock(c, l).color) in MeshQuads(c, cp, w)
    ensures FaceVertices(WorldPos(cp, l), d, GetBlock(c, l).color) in BlockQuads(c, cp, w, l)
  {
    var face := FaceVertices(WorldPos(cp, l), d, GetBlock(c, l).color);
    var cells := CellQuads(c, cp, w);
    FlattenMember(cells, face);
    var j :| 0 <= j < |cells| && face in cells[j];
    FaceInCell(c, cp, w, FlatChunk.PosOf(j), l, d);
  }

  /** A cell's quads hold a face of cell l only if it is cell l. */
  lemma FaceInCell(c: Chunk, cp: Vec3i, w: CoreWorld.World, l': Vec3i, l: Vec3i, d: Vec3i)
    requires Valid(c) && CoreWorld.WorldValid(w) && InChunk(l') && InChunk(l) && IsAxis(d)
    requires FaceVertices(WorldPos(cp, l), d, GetBlock(c, l).color) in BlockQuads(c, cp, w, l')
    ensures l' == l
  {
    var face := FaceVertices(WorldPos(cp, l), d, GetBlock(c, l).color);
    BlockQuadsAreFaces(c, cp, w, l', face);
    var d' :| IsAxis(d') && face == FaceVertices(WorldPos(cp, l'), d', GetBlock(c, l').color);
    SameFace(cp, l, l', d, d', GetBlock(c, l).color, GetBlock(c, l').color);
  }

  /** Equal faces come from the same cell, the same direction and the same colour. */
  lemma SameFace(cp: Vec3i, l: Vec3i, l': Vec3i, d: Vec3i, d': Vec3i, color: Color, color': Color)
    requires IsAxis(d) && IsAxis(d')
    requires FaceVertices(WorldPos(cp, l), d, color) == FaceVertices(WorldPos(cp, l'), d', color')
    ensures l == l' && d == d' && color == color'
  {
    var f := FaceVertices(WorldPos(cp, l), d, color);
    var f' := FaceVertices(WorldPos(cp, l'), d', color');
    assert f[0].normal == d && f'[0].normal == d';
    assert f[0].color == color && f'[0].color == color';
    assert Sub(f[0].position, WorldPos(cp, l)) == Corners(d)[0];
    assert Sub(f'[0].position, WorldPos(cp, l')) == Corners(d)[0];
  }
}
