/**
 * `Chunk::generate_chunk_mesh` of the split revision: every non-Air block
 * contributes, for each of its cuboids and each of the six template faces,
 * one quad unless the block across that face occludes it. The block across a
 * chunk boundary is read from the facing layer of the neighbour chunk, and a
 * neighbour that is not resident counts as Air.
 */
module ChunkMesh {
  import opened Wrappers
  import opened Coords
  import opened Packing
  import opened Assets
  import opened Blocks
  import opened Faces
  import opened FlatChunk
  import opened Meshes

  /** A cell at most one step outside the chunk, on at most one axis: where a face of an inside block looks. */
  predicate Adjacent(p: Vec3i) {
    && -1 <= p.x <= 16 && -1 <= p.y <= 16 && -1 <= p.z <= 16
    && ((0 <= p.x < 16 && 0 <= p.y < 16) || (0 <= p.x < 16 && 0 <= p.z < 16) || (0 <= p.y < 16 && 0 <= p.z < 16))
  }

  /** Every resident neighbour is a full-sized chunk. */
  predicate NeighboursValid(nb: Neighbours) {
    forall i :: 0 <= i < 6 && nb.Slot(i).Some? ==> Valid(nb.Slot(i).value)
  }

  /** The class of a neighbour's block, or Air when the neighbour is not resident. */
  function TypeIn(o: Option<Chunk>, p: Vec3i): BlockType
    requires InChunk(p) && (o.Some? ==> Valid(o.value))
  {
    if o.None? then AirType else TypeOf(GetBlock(o.value, p))
  }

  /**
   * `neighbour_block_at`: inside the chunk the chunk's own block; otherwise,
   * checked in the order -X, +X, -Y, +Y, -Z, +Z, the facing layer of the
   * neighbour on that side.
   */
  function NeighbourTypeAt(c: Chunk, nb: Neighbours, p: Vec3i): BlockType
    requires Valid(c) && NeighboursValid(nb) && Adjacent(p)
  {
    assert nb.Slot(0) == nb.n && nb.Slot(1) == nb.s && nb.Slot(2) == nb.e;
    assert nb.Slot(3) == nb.w && nb.Slot(4) == nb.u && nb.Slot(5) == nb.d;
    if InChunk(p) then TypeOf(GetBlock(c, p))
    else if p.x < 0 then TypeIn(nb.w, Vec3i(15, p.y, p.z))
    else if p.x >= 16 then TypeIn(nb.e, Vec3i(0, p.y, p.z))
    else if p.y < 0 then TypeIn(nb.d, Vec3i(p.x, 15, p.z))
    else if p.y >= 16 then TypeIn(nb.u, Vec3i(p.x, 0, p.z))
    else if p.z < 0 then TypeIn(nb.n, Vec3i(p.x, p.y, 15))
    else TypeIn(nb.s, Vec3i(p.x, p.y, 0))
  }

  /**
   * Read across the boundary, the neighbour lookup is the world lookup: the
   * chunk in slot i sits at offset `SlotOffset(i)` = `ChunkOf(p)`, and the
   * block read from it is the one at `LocalOf(p)`.
   */
  lemma NeighbourReadsAcross(c: Chunk, nb: Neighbours, p: Vec3i, i: nat)
    requires Valid(c) && NeighboursValid(nb) && Adjacent(p) && !InChunk(p)
    requires i < 6 && ChunkOf(p) == SlotOffset(i)
    ensures InChunk(LocalOf(p))
    ensures NeighbourTypeAt(c, nb, p) == TypeIn(nb.Slot(i), LocalOf(p))
  {
    EdgeWrap(p.x);
    EdgeWrap(p.y);
    EdgeWrap(p.z);
  }

  /** Every cell one step outside lies in exactly one of the six neighbour slots. */
  lemma AdjacentHasSlot(p: Vec3i) returns (i: nat)
    requires Adjacent(p) && !InChunk(p)
    ensures i < 6 && ChunkOf(p) == SlotOffset(i)
  {
    EdgeWrap(p.x);
    EdgeWrap(p.y);
    EdgeWrap(p.z);
    if p.z < 0 { i := 0; }
    else if p.z >= 16 { i := 1; }
    else if p.x >= 16 { i := 2; }
    else if p.x < 0 { i := 3; }
    else if p.y >= 16 { i := 4; }
    else { i := 5; }
  }

  /** The cell across face i of a block. */
  function Across(p: Vec3i, i: nat): (q: Vec3i)
    requires InChunk(p) && i < 6
    ensures Adjacent(q)
  {
    TemplatesWellFormed(i);
    p.Add(Normal(i))
  }

  /** The arguments `generate_chunk_mesh` passes to `BlockVertex::new` for one corner of a face. */
  datatype ChunkVertex = ChunkVertex(block: Vec3i, position: Vec3r, face: nat, uv: Uv, material: bv32, foliage: Color)

  /** The six uv rectangles of every cuboid of every shape model: `uvs` holds `[[UVec2; 2]; 6]` per cuboid. */
  predicate SixFacesEach(defs: map<string, ModelDef>)
    requires HasShapeModels(defs)
  {
    forall i, k :: 0 <= i < |ShapeModels| && 0 <= k < |defs[ShapeModels[i]].uvs| ==> |defs[ShapeModels[i]].uvs[k]| == 6
  }

  /** The precondition of meshing: full-sized chunks and complete shape models. */
  predicate Meshable(c: Chunk, nb: Neighbours, defs: map<string, ModelDef>) {
    Valid(c) && NeighboursValid(nb) && HasShapeModels(defs) && SixFacesEach(defs)
  }

  function AddReal(a: Vec3r, b: Vec3r): Vec3r {
    Vec3r(a.x + b.x, a.y + b.y, a.z + b.z)
  }

  /** Face i of a cuboid of the block at p: the stretched template moved to p, with the face's uv corners. */
  function FaceQuad(c: Chunk, p: Vec3i, b: Block, cube: Cube, uvs: seq<Uv>, i: nat): (q: seq<ChunkVertex>)
    requires Valid(c) && InChunk(p) && i < 6 && |uvs| == 4
    ensures |q| == 4
    ensures forall j :: 0 <= j < 4 ==> q[j].block == p && q[j].face == i && q[j].material == Material(b)
    ensures forall j :: 0 <= j < 4 ==> q[j].uv == uvs[j] && q[j].foliage == c.foliage[ColumnIndex(p.x, p.z)]
  {
    var corners := UseTemplate(Template(i), cube.from, cube.to);
    seq(4, j requires 0 <= j < 4 =>
      ChunkVertex(p, AddReal(corners[j], ToReal(p)), i, uvs[j], Material(b), c.foliage[ColumnIndex(p.x, p.z)]))
  }

  /** Face i of the block at p is drawn: the block across it does not occlude it. */
  predicate Visible(c: Chunk, nb: Neighbours, p: Vec3i, i: nat)
    requires Valid(c) && NeighboursValid(nb) && InChunk(p) && i < 6
  {
    !ShouldOcclude(TypeOf(GetBlock(c, p)), NeighbourTypeAt(c, nb, Across(p, i)))
  }

  /** The quads of one cuboid, faces i to 5 in template order. */
  function CubeQuads(c: Chunk, nb: Neighbours, p: Vec3i, cube: Cube, uvs: seq<seq<Uv>>, i: nat): (qs: seq<seq<ChunkVertex>>)
    requires Valid(c) && NeighboursValid(nb) && InChunk(p) && i <= 6
    requires |uvs| == 6 && forall f :: 0 <= f < 6 ==> |uvs[f]| == 4
    ensures |qs| <= 6 - i
    ensures AllQuads(qs)
    decreases 6 - i
  {
    if i == 6 then []
    else
      var rest := CubeQuads(c, nb, p, cube, uvs, i + 1);
      if Visible(c, nb, p, i) then [FaceQuad(c, p, GetBlock(c, p), cube, uvs[i], i)] + rest else rest
  }

  /** `cubes.iter().zip(uvs.iter())`, from the k-th pair on. */
  function BlockQuadsFrom(c: Chunk, nb: Neighbours, p: Vec3i, cubes: seq<Cube>, uvs: seq<seq<seq<Uv>>>, k: nat): (qs: seq<seq<ChunkVertex>>)
    requires Valid(c) && NeighboursValid(nb) && InChunk(p)
    requires forall m :: 0 <= m < |uvs| ==> |uvs[m]| == 6 && forall f :: 0 <= f < 6 ==> |uvs[m][f]| == 4
    ensures AllQuads(qs)
    decreases |cubes| - k
  {
    if k >= |cubes| || k >= |uvs| then []
    else CubeQuads(c, nb, p, cubes[k], uvs[k], 0) + BlockQuadsFrom(c, nb, p, cubes, uvs, k + 1)
  }

  /** The uv corner lists of every cuboid hold six faces of four corners. */
  lemma UvsShaped(b: Block, defs: map<string, ModelDef>)
    requires HasShapeModels(defs) && SixFacesEach(defs)
    ensures var u := Uvs(b, defs);
      forall m :: 0 <= m < |u| ==> |u[m]| == 6 && forall f :: 0 <= f < 6 ==> |u[m][f]| == 4
  {
    var raw := defs[ShapeModel(b)].uvs;
    var u := Uvs(b, defs);
    forall m | 0 <= m < |u|
      ensures |u[m]| == 6 && forall f :: 0 <= f < 6 ==> |u[m][f]| == 4
    {
      assert u[m] == CubeUvCorners(raw[m]);
      assert ShapeModel(b) == ShapeModels[Shape(b) as int];
    }
  }

  /** `uvs` of a block under complete shape models: six faces of four corners per cuboid. */
  function BlockUvs(b: Block, defs: map<string, ModelDef>): (u: seq<seq<seq<Uv>>>)
    requires HasShapeModels(defs) && SixFacesEach(defs)
    ensures u == Uvs(b, defs)
    ensures forall m :: 0 <= m < |u| ==> |u[m]| == 6 && forall f :: 0 <= f < 6 ==> |u[m][f]| == 4
  {
    UvsShaped(b, defs);
    Uvs(b, defs)
  }

  /** All quads of the block at p: none for Air, otherwise those of every cuboid paired with its uvs. */
  function BlockQuads(c: Chunk, nb: Neighbours, defs: map<string, ModelDef>, p: Vec3i): (qs: seq<seq<ChunkVertex>>)
    requires Meshable(c, nb, defs) && InChunk(p)
    ensures AllQuads(qs)
  {
    var b := GetBlock(c, p);
    if b == Air then [] else BlockQuadsFrom(c, nb, p, Cubes(b, defs), BlockUvs(b, defs), 0)
  }

  /** The quads of slots idx to 4095, visited in x, then y, then z order, which is slot order. */
  function ChunkQuadsFrom(c: Chunk, nb: Neighbours, defs: map<string, ModelDef>, idx: nat): (qs: seq<seq<ChunkVertex>>)
    requires Meshable(c, nb, defs) && idx <= Volume
    ensures AllQuads(qs)
    decreases Volume - idx
  {
    if idx == Volume then []
    else BlockQuads(c, nb, defs, PosOf(idx)) + ChunkQuadsFrom(c, nb, defs, idx + 1)
  }

  /** `generate_chunk_mesh`: every quad pushed in slot order. */
  function GenerateChunkMesh(c: Chunk, nb: Neighbours, defs: map<string, ModelDef>): Mesh<ChunkVertex>
    requires Meshable(c, nb, defs)
  {
    BuildMesh(ChunkQuadsFrom(c, nb, defs, 0))
  }

  /**
   * The chunk mesh is well formed: four vertices and six indices per quad in
   * the o, o+1, o+2, o, o+2, o+3 pattern, so every index names one of the
   * vertices and there are 1.5 indices per vertex.
   */
  lemma ChunkMeshWellFormed(c: Chunk, nb: Neighbours, defs: map<string, ModelDef>)
    requires Meshable(c, nb, defs)
    ensures var m := GenerateChunkMesh(c, nb, defs);
      && WellFormed(m)
      && (forall k :: 0 <= k < |m.indices| ==> 0 <= m.indices[k] < |m.vertices|)
      && 2 * |m.indices| == 3 * |m.vertices|
  {
    var m := GenerateChunkMesh(c, nb, defs);
    IndicesInRange(m);
  }

  // ---------------------------------------------------------------------------
  // What the mesher draws
  // ---------------------------------------------------------------------------

  /** q is a drawn face of the block at p, with a face index of at least lo: visible, and all four vertices carry it. */
  predicate DrawnFace(c: Chunk, nb: Neighbours, p: Vec3i, q: seq<ChunkVertex>, lo: nat)
    requires Valid(c) && NeighboursValid(nb) && InChunk(p)
  {
    && |q| == 4
    && lo <= q[0].face < 6
    && Visible(c, nb, p, q[0].face)
    && forall j :: 0 <= j < 4 ==> q[j].block == p && q[j].face == q[0].face && q[j].material == Material(GetBlock(c, p))
  }

  /** A visible face yields a drawn quad. */
  lemma FaceQuadDrawn(c: Chunk, nb: Neighbours, p: Vec3i, cube: Cube, uvs: seq<Uv>, i: nat)
    requires Valid(c) && NeighboursValid(nb) && InChunk(p) && i < 6 && |uvs| == 4 && Visible(c, nb, p, i)
    ensures DrawnFace(c, nb, p, FaceQuad(c, p, GetBlock(c, p), cube, uvs, i), i)
  {
  }

  /** The quads of faces i to 5 are those of face i, when drawn, followed by those of faces i + 1 to 5. */
  lemma CubeQuadsUnfold(c: Chunk, nb: Neighbours, p: Vec3i, cube: Cube, uvs: seq<seq<Uv>>, i: nat)
    requires Valid(c) && NeighboursValid(nb) && InChunk(p) && i < 6
    requires |uvs| == 6 && forall f :: 0 <= f < 6 ==> |uvs[f]| == 4
    ensures var qs := CubeQuads(c, nb, p, cube, uvs, i);
      var rest := CubeQuads(c, nb, p, cube, uvs, i + 1);
      if Visible(c, nb, p, i) then qs == [FaceQuad(c, p, GetBlock(c, p), cube, uvs[i], i)] + rest else qs == rest
  {
  }

  /** Every quad of a cuboid is a visible face of the block, and its four vertices carry that face. */
  lemma {:induction false} CubeQuadsAreVisible(c: Chunk, nb: Neighbours, p: Vec3i, cube: Cube, uvs: seq<seq<Uv>>, i: nat)
    requires Valid(c) && NeighboursValid(nb) && InChunk(p) && i <= 6
    requires |uvs| == 6 && forall f :: 0 <= f < 6 ==> |uvs[f]| == 4
    ensures var qs := CubeQuads(c, nb, p, cube, uvs, i);
      forall k :: 0 <= k < |qs| ==> DrawnFace(c, nb, p, qs[k], i)
    decreases 6 - i
  {
    if i < 6 {
      CubeQuadsAreVisible(c, nb, p, cube, uvs, i + 1);
      CubeQuadsUnfold(c, nb, p, cube, uvs, i);
      var rest := CubeQuads(c, nb, p, cube, uvs, i + 1);
      var qs := CubeQuads(c, nb, p, cube, uvs, i);
      var skip := if Visible(c, nb, p, i) then 1 else 0;
      if skip == 1 {
        FaceQuadDrawn(c, nb, p, cube, uvs[i], i);
      }
      forall k | 0 <= k < |qs|
        ensures DrawnFace(c, nb, p, qs[k], i)
      {
        if k >= skip {
          assert qs[k] == rest[k - skip];
        }
      }
    }
  }

  /**
   * Face f of a cuboid is among its quads exactly when it is visible: the
   * mesher emits a face unless the block across it occludes it.
   */
  lemma {:induction false} CubeQuadsHasFace(c: Chunk, nb: Neighbours, p: Vec3i, cube: Cube, uvs: seq<seq<Uv>>, i: nat, f: nat)
    requires Valid(c) && NeighboursValid(nb) && InChunk(p) && i <= f < 6
    requires |uvs| == 6 && forall g :: 0 <= g < 6 ==> |uvs[g]| == 4
    ensures FaceQuad(c, p, GetBlock(c, p), cube, uvs[f], f) in CubeQuads(c, nb, p, cube, uvs, i) <==> Visible(c, nb, p, f)
    decreases 6 - i
  {
    var q := FaceQuad(c, p, GetBlock(c, p), cube, uvs[f], f);
    var qs := CubeQuads(c, nb, p, cube, uvs, i);
    CubeQuadsUnfold(c, nb, p, cube, uvs, i);
    if q in qs {
      CubeQuadsAreVisible(c, nb, p, cube, uvs, i);
      var k :| 0 <= k < |qs| && qs[k] == q;
      assert DrawnFace(c, nb, p, qs[k], i);
      assert q[0].face == f;
    }
    if Visible(c, nb, p, f) && i < f {
      CubeQuadsHasFace(c, nb, p, cube, uvs, i + 1, f);
      assert q in CubeQuads(c, nb, p, cube, uvs, i + 1);
    }
  }

  /** When no face of the block is occluded, every cuboid yields all six faces. */
  lemma {:induction false} CubeQuadsAllVisible(c: Chunk, nb: Neighbours, p: Vec3i, cube: Cube, uvs: seq<seq<Uv>>, i: nat)
    requires Valid(c) && NeighboursValid(nb) && InChunk(p) && i <= 6
    requires |uvs| == 6 && forall f :: 0 <= f < 6 ==> |uvs[f]| == 4
    requires forall f :: i <= f < 6 ==> Visible(c, nb, p, f)
    ensures |CubeQuads(c, nb, p, cube, uvs, i)| == 6 - i
    decreases 6 - i
  {
    if i < 6 {
      CubeQuadsAllVisible(c, nb, p, cube, uvs, i + 1);
    }
  }

  /** When every face is occluded, a cuboid yields nothing. */
  lemma {:induction false} CubeQuadsNoneVisible(c: Chunk, nb: Neighbours, p: Vec3i, cube: Cube, uvs: seq<seq<Uv>>, i: nat)
    requires Valid(c) && NeighboursValid(nb) && InChunk(p) && i <= 6
    requires |uvs| == 6 && forall f :: 0 <= f < 6 ==> |uvs[f]| == 4
    requires forall f :: i <= f < 6 ==> !Visible(c, nb, p, f)
    ensures CubeQuads(c, nb, p, cube, uvs, i) == []
    decreases 6 - i
  {
    if i < 6 {
      CubeQuadsNoneVisible(c, nb, p, cube, uvs, i + 1);
    }
  }

  /** An Air block draws nothing. */
  lemma AirDrawsNothing(c: Chunk, nb: Neighbours, defs: map<string, ModelDef>, p: Vec3i)
    requires Meshable(c, nb, defs) && InChunk(p) && GetBlock(c, p) == Air
    ensures BlockQuads(c, nb, defs, p) == []
  {
  }

  /** Cuboids of a block all of whose faces are occluded yield nothing, from the k-th on. */
  lemma {:induction false} EnclosedCubesDrawNothing(c: Chunk, nb: Neighbours, p: Vec3i, cubes: seq<Cube>, uvs: seq<seq<seq<Uv>>>, k: nat)
    requires Valid(c) && NeighboursValid(nb) && InChunk(p)
    requires forall m :: 0 <= m < |uvs| ==> |uvs[m]| == 6 && forall f :: 0 <= f < 6 ==> |uvs[m][f]| == 4
    requires forall f :: 0 <= f < 6 ==> !Visible(c, nb, p, f)
    ensures BlockQuadsFrom(c, nb, p, cubes, uvs, k) == []
    decreases |cubes| - k
  {
    if k < |cubes| && k < |uvs| {
      CubeQuadsNoneVisible(c, nb, p, cubes[k], uvs[k], 0);
      EnclosedCubesDrawNothing(c, nb, p, cubes, uvs, k + 1);
    }
  }

  /** A block all of whose faces are occluded, such as a FullOpaque block inside FullOpaque ones, draws nothing. */
  lemma EnclosedDrawsNothing(c: Chunk, nb: Neighbours, defs: map<string, ModelDef>, p: Vec3i)
    requires Meshable(c, nb, defs) && InChunk(p)
    requires forall f :: 0 <= f < 6 ==> !Visible(c, nb, p, f)
    ensures BlockQuads(c, nb, defs, p) == []
  {
    var b := GetBlock(c, p);
    if b != Air {
      EnclosedCubesDrawNothing(c, nb, p, Cubes(b, defs), BlockUvs(b, defs), 0);
    }
  }

  /** A FullOpaque block whose six neighbouring cells are FullOpaque has every face occluded. */
  lemma FullOpaqueEnclosed(c: Chunk, nb: Neighbours, p: Vec3i)
    requires Valid(c) && NeighboursValid(nb) && InChunk(p)
    requires TypeOf(GetBlock(c, p)) == FullOpaque
    requires forall f :: 0 <= f < 6 ==> NeighbourTypeAt(c, nb, Across(p, f)) == FullOpaque
    ensures forall f :: 0 <= f < 6 ==> !Visible(c, nb, p, f)
  {
  }

  /** Cuboids of a block with every face visible yield six quads each, from the k-th pair of the zip on. */
  lemma {:induction false} IsolatedCubesDrawAll(c: Chunk, nb: Neighbours, p: Vec3i, cubes: seq<Cube>, uvs: seq<seq<seq<Uv>>>, k: nat)
    requires Valid(c) && NeighboursValid(nb) && InChunk(p)
    requires forall m :: 0 <= m < |uvs| ==> |uvs[m]| == 6 && forall f :: 0 <= f < 6 ==> |uvs[m][f]| == 4
    requires forall f :: 0 <= f < 6 ==> Visible(c, nb, p, f)
    ensures var n := if |cubes| < |uvs| then |cubes| else |uvs|;
      |BlockQuadsFrom(c, nb, p, cubes, uvs, k)| == 6 * (if k <= n then n - k else 0)
    decreases |cubes| - k
  {
    if k < |cubes| && k < |uvs| {
      CubeQuadsAllVisible(c, nb, p, cubes[k], uvs[k], 0);
      IsolatedCubesDrawAll(c, nb, p, cubes, uvs, k + 1);
    }
  }

  /** With nothing but Air around it, a block other than Air draws all six faces of each of its cuboids. */
  lemma IsolatedDrawsAll(c: Chunk, nb: Neighbours, defs: map<string, ModelDef>, p: Vec3i)
    requires Meshable(c, nb, defs) && InChunk(p)
    requires forall f :: 0 <= f < 6 ==> NeighbourTypeAt(c, nb, Across(p, f)) == AirType
    requires GetBlock(c, p) != Air
    ensures var b := GetBlock(c, p);
      var n := if |Cubes(b, defs)| < |Uvs(b, defs)| then |Cubes(b, defs)| else |Uvs(b, defs)|;
      |BlockQuads(c, nb, defs, p)| == 6 * n
  {
    var b := GetBlock(c, p);
    IsolatedCubesDrawAll(c, nb, p, Cubes(b, defs), BlockUvs(b, defs), 0);
  }

  /** A chunk of nothing but Air has an empty mesh, whatever its neighbours. */
  lemma AirChunkMeshEmpty(c: Chunk, nb: Neighbours, defs: map<string, ModelDef>)
    requires Meshable(c, nb, defs)
    requires forall i :: 0 <= i < Volume ==> c.blocks[i] == Air
    ensures var m := GenerateChunkMesh(c, nb, defs);
      m.vertices == [] && m.indices == []
  {
    AirSlotsDrawNothing(c, nb, defs, 0);
  }

  lemma {:induction false} AirSlotsDrawNothing(c: Chunk, nb: Neighbours, defs: map<string, ModelDef>, idx: nat)
    requires Meshable(c, nb, defs) && idx <= Volume
    requires forall i :: 0 <= i < Volume ==> c.blocks[i] == Air
    ensures ChunkQuadsFrom(c, nb, defs, idx) == []
    decreases Volume - idx
  {
    if idx < Volume {
      IndexBijection(PosOf(idx), idx);
      AirSlotsDrawNothing(c, nb, defs, idx + 1);
    }
  }
}
