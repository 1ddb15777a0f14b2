/**
 * The world of the early single-file engine (src/game.rs). Its blocks,
 * classification, chunk layout and mesher are those of the split revision
 * (`Blocks`, `FlatChunk`, `ChunkMesh`); what differs is the world around
 * them: a chunk caches its last mesh, `get_chunk` drops the overspill of a
 * chunk it generates, `set_block` marks all six neighbouring chunks dirty,
 * and `add_chunk` writes the overspill of an arriving chunk straight into
 * its target chunks instead of keeping a table of it.
 */
module Monolith {
  import opened Wrappers
  import opened Coords
  import opened Blocks
  import opened FlatChunk
  import opened Meshes
  import opened ChunkMesh
  import opened Generation
  import GameWorld

  type MeshData = Mesh<ChunkVertex>

  /** `Chunk`: its cells and dirty flag, and the mesh cached the last time it was meshed dirty. */
  datatype Cached = Cached(cells: Chunk, cache: Option<MeshData>)

  datatype World = World(
    chunks: map<Vec3i, Cached>,
    changes: map<(Vec3i, Vec3i), Block>,
    meshes: map<Vec3i, MeshData>)

  ghost predicate WorldValid(w: World) {
    forall cp :: cp in w.chunks ==> Valid(w.chunks[cp].cells)
  }

  /** The block at a global position when its chunk is resident. */
  function BlockAt(w: World, p: Vec3i): Option<Block>
    requires WorldValid(w)
  {
    var (cp, l) := ChunkAndLocal(p);
    if cp in w.chunks then Some(GetBlock(w.chunks[cp].cells, l)) else None
  }

  /** Every resident chunk stays resident with the same cells. */
  ghost predicate KeepsBlocks(a: World, b: World) {
    forall cp :: cp in a.chunks ==> cp in b.chunks && b.chunks[cp].cells.blocks == a.chunks[cp].cells.blocks
  }

  /**
   * `get_chunk`: a resident chunk as it is; a missing one is generated and
   * inserted with no cached mesh, and the overspill generated with it is
   * dropped.
   */
  function GetChunk(w: World, cp: Vec3i, gen: GameWorld.Generator): (r: World)
    requires WorldValid(w) && GameWorld.GeneratorValid(gen)
    ensures WorldValid(r) && cp in r.chunks && KeepsBlocks(w, r)
    ensures cp in w.chunks ==> r == w
    ensures cp !in w.chunks ==> r.chunks == w.chunks[cp := Cached(gen(cp).0, None)]
    ensures cp !in w.chunks ==> r.chunks[cp].cells.isDirty
    ensures r.changes == w.changes && r.meshes == w.meshes
  {
    if cp in w.chunks then w else w.(chunks := w.chunks[cp := Cached(gen(cp).0, None)])
  }

  /** Write local cell l of chunk cp, generating the chunk on a miss; the chunk becomes dirty. */
  function WriteLocal(w: World, cp: Vec3i, l: Vec3i, b: Block, gen: GameWorld.Generator): (r: World)
    requires WorldValid(w) && GameWorld.GeneratorValid(gen) && InChunk(l)
    ensures WorldValid(r) && cp in r.chunks && r.chunks[cp].cells.isDirty
    ensures GetBlock(r.chunks[cp].cells, l) == b
    ensures forall q :: InChunk(q) && q != l ==>
      GetBlock(r.chunks[cp].cells, q) == GetBlock(GetChunk(w, cp, gen).chunks[cp].cells, q)
    ensures forall k :: k in r.chunks && k != cp ==> k in w.chunks && r.chunks[k] == w.chunks[k]
    ensures r.changes == w.changes && r.meshes == w.meshes
  {
    var w1 := GetChunk(w, cp, gen);
    var c := w1.chunks[cp];
    w1.(chunks := w1.chunks[cp := c.(cells := FlatChunk.SetBlock(c.cells, l, b))])
  }

  /** `get_chunk(..).is_dirty = true`. */
  function MarkDirty(w: World, cp: Vec3i, gen: GameWorld.Generator): (r: World)
    requires WorldValid(w) && GameWorld.GeneratorValid(gen)
    ensures WorldValid(r) && KeepsBlocks(w, r) && cp in r.chunks && r.chunks[cp].cells.isDirty
    ensures r.changes == w.changes && r.meshes == w.meshes
    ensures forall k :: k in r.chunks && k != cp ==> k in w.chunks && r.chunks[k] == w.chunks[k]
  {
    var w1 := GetChunk(w, cp, gen);
    var c := w1.chunks[cp];
    w1.(chunks := w1.chunks[cp := c.(cells := c.cells.(isDirty := true))])
  }

  /** Mark each listed chunk dirty in order, generating the missing ones. */
  function MarkEach(w: World, ks: seq<Vec3i>, gen: GameWorld.Generator): (r: World)
    requires WorldValid(w) && GameWorld.GeneratorValid(gen)
    ensures WorldValid(r)
    decreases |ks|
  {
    if |ks| == 0 then w else MarkEach(MarkDirty(w, ks[0], gen), ks[1..], gen)
  }

  /** Every listed chunk ends resident and dirty, and no other chunk changes. */
  lemma {:induction false} MarkEachSpec(w: World, ks: seq<Vec3i>, gen: GameWorld.Generator)
    requires WorldValid(w) && GameWorld.GeneratorValid(gen)
    ensures var r := MarkEach(w, ks, gen);
      && KeepsBlocks(w, r) && r.changes == w.changes && r.meshes == w.meshes
      && (forall k :: k in ks ==> k in r.chunks && r.chunks[k].cells.isDirty)
      && (forall k :: k in r.chunks && k !in ks ==> k in w.chunks && r.chunks[k] == w.chunks[k])
    decreases |ks|
  {
    if |ks| > 0 {
      var w1 := MarkDirty(w, ks[0], gen);
      MarkEachSpec(w1, ks[1..], gen);
      var r := MarkEach(w1, ks[1..], gen);
      forall k | k in ks
        ensures k in r.chunks && r.chunks[k].cells.isDirty
      {
        if k !in ks[1..] {
          assert k == ks[0];
        }
      }
      forall k | k in r.chunks && k !in ks
        ensures k in w.chunks && r.chunks[k] == w.chunks[k]
      {
        assert k !in ks[1..] && k != ks[0];
      }
    }
  }

  /** The six face-adjacent chunks in the order the loops visit them (dx, then dy, then dz from -1 to 1). */
  function Six(cp: Vec3i): (ks: seq<Vec3i>)
    ensures |ks| == 6
  {
    [cp.Add(Vec3i(-1, 0, 0)), cp.Add(Vec3i(0, -1, 0)), cp.Add(Vec3i(0, 0, -1)),
     cp.Add(Vec3i(0, 0, 1)), cp.Add(Vec3i(0, 1, 0)), cp.Add(Vec3i(1, 0, 0))]
  }

  /** The offsets the loops keep are exactly those with |dx| + |dy| + |dz| = 1. */
  lemma SixAreFaceAdjacent(cp: Vec3i, k: Vec3i)
    ensures k in Six(cp) <==> Abs(k.x - cp.x) + Abs(k.y - cp.y) + Abs(k.z - cp.z) == 1
  {
  }

  /**
   * `set_block`: write the cell (generating its chunk), log the edit under
   * its (chunk, local) key, then mark all six neighbouring chunks dirty,
   * generating those that are missing.
   */
  function SetBlock(w: World, p: Vec3i, b: Block, gen: GameWorld.Generator): (r: World)
    requires WorldValid(w) && GameWorld.GeneratorValid(gen)
    ensures WorldValid(r)
  {
    var (cp, l) := ChunkAndLocal(p);
    var w1 := WriteLocal(w, cp, l, b, gen);
    MarkEach(w1.(changes := w1.changes[(cp, l) := b]), Six(cp), gen)
  }

  /**
   * After `set_block` the cell holds the block and the edit is logged; the
   * chunk and all six neighbours are resident and dirty, wherever in its
   * chunk the cell lies; no other chunk changes.
   */
  lemma SetBlockSpec(w: World, p: Vec3i, b: Block, gen: GameWorld.Generator)
    requires WorldValid(w) && GameWorld.GeneratorValid(gen)
    ensures var (cp, l) := ChunkAndLocal(p);
      var r := SetBlock(w, p, b, gen);
      && BlockAt(r, p) == Some(b)
      && r.changes == w.changes[(cp, l) := b]
      && r.chunks[cp].cells.isDirty
      && (forall k :: k in Six(cp) ==> k in r.chunks && r.chunks[k].cells.isDirty)
      && (forall k :: k in r.chunks && k != cp && k !in Six(cp) ==> k in w.chunks && r.chunks[k] == w.chunks[k])
  {
    var (cp, l) := ChunkAndLocal(p);
    var w1 := WriteLocal(w, cp, l, b, gen);
    var w2 := w1.(changes := w1.changes[(cp, l) := b]);
    MarkEachSpec(w2, Six(cp), gen);
    SixAreFaceAdjacent(cp, cp);
  }

  /**
   * The split revision marks only the neighbours across the sides the cell
   * lies on; each of those is among the six the early revision marks.
   */
  lemma SixCoverBorderMarks(cp: Vec3i, l: Vec3i, k: Vec3i)
    requires GameWorld.DirtiedBy(cp, l, k)
    ensures k in Six(cp)
  {
    var i :| 0 <= i < 6 && OnSide(i, l) && k == cp.Add(SlotOffset(i));
    if i == 0 { } else if i == 1 { } else if i == 2 { } else if i == 3 { } else if i == 4 { } else { }
  }

  // ---------------------------------------------------------------------------
  // add_chunk
  // ---------------------------------------------------------------------------

  /** The overspill loop of `add_chunk`, over its keys in the map's iteration order. */
  function Spill(w: World, order: seq<(Vec3i, Vec3i)>, spill: Overspill, gen: GameWorld.Generator): (r: World)
    requires WorldValid(w) && GameWorld.GeneratorValid(gen)
    requires forall j :: 0 <= j < |order| ==> order[j] in spill
    ensures WorldValid(r) && KeepsChanges(w, r)
    decreases |order|
  {
    if |order| == 0 then w
    else
      var (tcp, pos) := order[0];
      Spill(WriteLocal(w, tcp, LocalOf(pos), spill[order[0]], gen), order[1..], spill, gen)
  }

  predicate KeepsChanges(a: World, b: World) {
    b.changes == a.changes && b.meshes == a.meshes
  }

  /** The overspill key writes local cell l of chunk cp. */
  predicate SameCell(key: (Vec3i, Vec3i), cp: Vec3i, l: Vec3i) {
    key.0 == cp && LocalOf(key.1) == l
  }

  /** The keys after index j do not write the cell key j writes. */
  predicate LastFor(order: seq<(Vec3i, Vec3i)>, j: int)
    requires 0 <= j < |order|
  {
    forall i :: j < i < |order| ==> !SameCell(order[i], order[j].0, LocalOf(order[j].1))
  }

  /**
   * Each key writes its block into its target chunk, generating the chunk
   * when it is missing; the last write to a cell wins, and every target
   * chunk ends resident and dirty.
   */
  lemma {:induction false} SpillSpec(w: World, order: seq<(Vec3i, Vec3i)>, spill: Overspill, gen: GameWorld.Generator, j: nat)
    requires WorldValid(w) && GameWorld.GeneratorValid(gen)
    requires forall j :: 0 <= j < |order| ==> order[j] in spill
    requires j < |order|
    ensures var r := Spill(w, order, spill, gen);
      && order[j].0 in r.chunks && r.chunks[order[j].0].cells.isDirty
      && (LastFor(order, j) ==> GetBlock(r.chunks[order[j].0].cells, LocalOf(order[j].1)) == spill[order[j]])
    decreases |order|
  {
    var tcp := order[0].0;
    var tl := LocalOf(order[0].1);
    var w1 := WriteLocal(w, tcp, tl, spill[order[0]], gen);
    var rest := order[1..];
    assert Spill(w, order, spill, gen) == Spill(w1, rest, spill, gen);
    if j > 0 {
      assert rest[j - 1] == order[j];
      SpillSpec(w1, rest, spill, gen, j - 1);
      if LastFor(order, j) {
        assert LastFor(rest, j - 1) by {
          forall i | j - 1 < i < |rest| ensures !SameCell(rest[i], order[j].0, LocalOf(order[j].1)) {
            assert rest[i] == order[i + 1];
          }
        }
      }
    } else {
      SpillHead(w, order, spill, gen);
    }
  }

  /** The first key's target is resident and dirty, and holds its block unless a later key writes the cell. */
  lemma SpillHead(w: World, order: seq<(Vec3i, Vec3i)>, spill: Overspill, gen: GameWorld.Generator)
    requires WorldValid(w) && GameWorld.GeneratorValid(gen)
    requires forall j :: 0 <= j < |order| ==> order[j] in spill
    requires 0 < |order|
    ensures var r := Spill(w, order, spill, gen);
      && order[0].0 in r.chunks && r.chunks[order[0].0].cells.isDirty
      && (LastFor(order, 0) ==> GetBlock(r.chunks[order[0].0].cells, LocalOf(order[0].1)) == spill[order[0]])
  {
    var tcp := order[0].0;
    var tl := LocalOf(order[0].1);
    var w1 := WriteLocal(w, tcp, tl, spill[order[0]], gen);
    var rest := order[1..];
    assert Spill(w, order, spill, gen) == Spill(w1, rest, spill, gen);
    SpillFrame(w1, rest, spill, gen, tcp, tl);
    if LastFor(order, 0) {
      assert Untouched(rest, tcp, tl) by {
        forall i | 0 <= i < |rest| ensures !SameCell(rest[i], tcp, tl) {
          assert rest[i] == order[i + 1];
        }
      }
    }
  }

  /** No key of the order writes cell l of chunk cp. */
  predicate Untouched(order: seq<(Vec3i, Vec3i)>, cp: Vec3i, l: Vec3i) {
    forall i :: 0 <= i < |order| ==> !SameCell(order[i], cp, l)
  }

  /** One write leaves a resident chunk resident, a dirty one dirty, and every other cell as it was. */
  lemma WriteLocalFrame(w: World, tcp: Vec3i, tl: Vec3i, b: Block, gen: GameWorld.Generator, cp: Vec3i, l: Vec3i)
    requires WorldValid(w) && GameWorld.GeneratorValid(gen) && InChunk(tl) && InChunk(l)
    requires cp in w.chunks
    ensures var r := WriteLocal(w, tcp, tl, b, gen);
      && cp in r.chunks
      && (w.chunks[cp].cells.isDirty ==> r.chunks[cp].cells.isDirty)
      && ((tcp, tl) != (cp, l) ==> GetBlock(r.chunks[cp].cells, l) == GetBlock(w.chunks[cp].cells, l))
  {
  }

  /**
   * A chunk already resident and dirty stays so, and a cell no later key
   * writes keeps its block.
   */
  lemma {:induction false} SpillFrame(w: World, order: seq<(Vec3i, Vec3i)>, spill: Overspill, gen: GameWorld.Generator, cp: Vec3i, l: Vec3i)
    requires WorldValid(w) && GameWorld.GeneratorValid(gen) && InChunk(l)
    requires forall j :: 0 <= j < |order| ==> order[j] in spill
    requires cp in w.chunks
    ensures var r := Spill(w, order, spill, gen);
      && cp in r.chunks
      && (w.chunks[cp].cells.isDirty ==> r.chunks[cp].cells.isDirty)
      && (Untouched(order, cp, l) ==> GetBlock(r.chunks[cp].cells, l) == GetBlock(w.chunks[cp].cells, l))
    decreases |order|
  {
    if |order| > 0 {
      var tcp := order[0].0;
      var tl := LocalOf(order[0].1);
      var w1 := WriteLocal(w, tcp, tl, spill[order[0]], gen);
      assert Spill(w, order, spill, gen) == Spill(w1, order[1..], spill, gen);
      WriteLocalFrame(w, tcp, tl, spill[order[0]], gen, cp, l);
      SpillFrame(w1, order[1..], spill, gen, cp, l);
      if Untouched(order, cp, l) {
        assert !SameCell(order[0], cp, l);
        assert Untouched(order[1..], cp, l) by {
          forall i | 0 <= i < |order[1..]| ensures !SameCell(order[1..][i], cp, l) {
            assert order[1..][i] == order[i + 1];
          }
        }
      }
    }
  }

  /**
   * `add_chunk`: apply the logged edits of the chunk to it slot by slot,
   * write its overspill into the target chunks, then insert it, replacing
   * whatever is resident at its position.
   */
  function AddChunk(w: World, cp: Vec3i, c: Chunk, spill: Overspill, order: seq<(Vec3i, Vec3i)>, gen: GameWorld.Generator)
    : (r: World)
    requires WorldValid(w) && GameWorld.GeneratorValid(gen) && Valid(c)
    requires forall j :: 0 <= j < |order| ==> order[j] in spill
    ensures WorldValid(r) && cp in r.chunks && r.changes == w.changes
  {
    var merged := GameWorld.MergeSlots(cp, c, map[], w.changes, Volume).0;
    var w1 := Spill(w, order, spill, gen);
    w1.(chunks := w1.chunks[cp := Cached(merged, None)])
  }

  /**
   * After `add_chunk` each cell of the chunk holds its logged edit, else the
   * generated block. What was resident at that position before, including
   * overspill written into it by earlier arrivals, is gone.
   */
  lemma AddChunkBlocks(w: World, cp: Vec3i, c: Chunk, spill: Overspill, order: seq<(Vec3i, Vec3i)>, gen: GameWorld.Generator)
    requires WorldValid(w) && GameWorld.GeneratorValid(gen) && Valid(c)
    requires forall j :: 0 <= j < |order| ==> order[j] in spill
    ensures var r := AddChunk(w, cp, c, spill, order, gen);
      forall l :: InChunk(l) ==>
        GetBlock(r.chunks[cp].cells, l) == if (cp, l) in w.changes then w.changes[(cp, l)] else GetBlock(c, l)
  {
    GameWorld.MergeSlotsBlocks(cp, c, map[], w.changes, Volume);
    var merged := GameWorld.MergeSlots(cp, c, map[], w.changes, Volume).0;
    forall l | InChunk(l)
      ensures GetBlock(merged, l) == if (cp, l) in w.changes then w.changes[(cp, l)] else GetBlock(c, l)
    {
      PosOfIndex(l);
    }
  }

  /**
   * Overspill aimed at another chunk lands in it at once: the target is
   * resident and dirty afterwards and, for the last key naming a cell, the
   * cell holds the overspill block.
   */
  lemma AddChunkSpills(w: World, cp: Vec3i, c: Chunk, spill: Overspill, order: seq<(Vec3i, Vec3i)>, gen: GameWorld.Generator, j: int)
    requires WorldValid(w) && GameWorld.GeneratorValid(gen) && Valid(c)
    requires forall j :: 0 <= j < |order| ==> order[j] in spill
    requires 0 <= j < |order| && order[j].0 != cp
    ensures var r := AddChunk(w, cp, c, spill, order, gen);
      && order[j].0 in r.chunks && r.chunks[order[j].0].cells.isDirty
      && (LastFor(order, j) ==> GetBlock(r.chunks[order[j].0].cells, LocalOf(order[j].1)) == spill[order[j]])
  {
    SpillSpec(w, order, spill, gen, j);
  }

  // ---------------------------------------------------------------------------
  // The mesh cache and generate_meshes
  // ---------------------------------------------------------------------------

  /** `generate_chunk_mesh`: a clean chunk with a cache returns the cache, anything else is meshed afresh. */
  function MeshFor(c: Cached, mesher: MeshData): (m: MeshData)
    ensures !c.cells.isDirty && c.cache.Some? ==> m == c.cache.value
    ensures c.cells.isDirty || c.cache.None? ==> m == mesher
  {
    if !c.cells.isDirty && c.cache.Some? then c.cache.value else mesher
  }

  /** A mesh is drawn only when it has vertices and indices. */
  predicate Drawable(m: MeshData) {
    |m.vertices| > 0 && |m.indices| > 0
  }

  /** What a chunk becomes after meshing: clean, and caching its mesh when it was dirty. */
  function AfterMeshing(c: Cached, m: MeshData): Cached {
    Cached(c.cells.(isDirty := false), if c.cells.isDirty then Some(m) else c.cache)
  }

  /**
   * `generate_meshes`: every resident chunk is meshed from the chunks as they
   * were at the start (`mesher`, the mesher over the chunk and its six
   * neighbours); dirty chunks cache the mesh, every chunk becomes clean, and
   * only the drawable meshes whose box is in the frustum are kept.
   */
  function GenerateMeshes(w: World, mesher: Vec3i -> MeshData, inFrustum: Vec3i -> bool): (r: World)
    ensures r.changes == w.changes && r.chunks.Keys == w.chunks.Keys
    ensures forall k :: k in r.chunks ==>
      !r.chunks[k].cells.isDirty && r.chunks[k].cells.blocks == w.chunks[k].cells.blocks
    ensures forall k :: k in r.meshes <==>
      k in w.chunks && Drawable(MeshFor(w.chunks[k], mesher(k))) && inFrustum(k)
    ensures forall k :: k in r.meshes ==> r.meshes[k] == MeshFor(w.chunks[k], mesher(k))
  {
    var chunks := map k | k in w.chunks :: AfterMeshing(w.chunks[k], MeshFor(w.chunks[k], mesher(k)));
    var meshes := map k | k in w.chunks && Drawable(MeshFor(w.chunks[k], mesher(k))) && inFrustum(k)
      :: MeshFor(w.chunks[k], mesher(k));
    World(chunks, w.changes, meshes)
  }

  /**
   * A dirty chunk is drawn with a mesher mesh and caches it; a clean chunk
   * with a cache is drawn with the cache, whatever the mesher would give now.
   */
  lemma CacheUse(w: World, mesher: Vec3i -> MeshData, inFrustum: Vec3i -> bool, k: Vec3i)
    requires k in w.chunks
    ensures var r := GenerateMeshes(w, mesher, inFrustum);
      && (w.chunks[k].cells.isDirty ==> r.chunks[k].cache == Some(mesher(k)))
      && (!w.chunks[k].cells.isDirty && w.chunks[k].cache.Some? ==>
            r.chunks[k].cache == w.chunks[k].cache && (k in r.meshes ==> r.meshes[k] == w.chunks[k].cache.value))
  {
  }

  /**
   * A chunk that `get_chunk` has just generated is dirty, so the next meshing
   * pass meshes it afresh and caches that mesh, leaving the chunk clean.
   */
  lemma FreshChunkMeshed(w: World, cp: Vec3i, gen: GameWorld.Generator, mesher: Vec3i -> MeshData, inFrustum: Vec3i -> bool)
    requires WorldValid(w) && GameWorld.GeneratorValid(gen) && cp !in w.chunks
    ensures var r := GenerateMeshes(GetChunk(w, cp, gen), mesher, inFrustum);
      && cp in r.chunks && r.chunks[cp].cache == Some(mesher(cp)) && !r.chunks[cp].cells.isDirty
      && r.chunks[cp].cells.blocks == gen(cp).0.blocks
  {
    CacheUse(GetChunk(w, cp, gen), mesher, inFrustum, cp);
  }

  /**
   * Meshing twice with the same mesher and frustum changes nothing more: the
   * second pass finds every chunk clean and draws the same meshes.
   */
  lemma GenerateMeshesIdempotent(w: World, mesher: Vec3i -> MeshData, inFrustum: Vec3i -> bool)
    ensures var r := GenerateMeshes(w, mesher, inFrustum);
      GenerateMeshes(r, mesher, inFrustum) == r
  {
    var r := GenerateMeshes(w, mesher, inFrustum);
    var r2 := GenerateMeshes(r, mesher, inFrustum);
    forall k | k in r.chunks
      ensures MeshFor(r.chunks[k], mesher(k)) == MeshFor(w.chunks[k], mesher(k))
      ensures r2.chunks[k] == r.chunks[k]
    {
    }
    assert r2.chunks == r.chunks;
    assert r2.meshes == r.meshes;
  }
}
