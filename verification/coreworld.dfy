/**
 * The world of the client/server revision (mp3d-core/src/world/mod.rs):
 * palette chunks keyed by chunk position, and entities keyed by the least
 * free positive id. The only entity kind is the player.
 */
module CoreWorld {
  import opened Wrappers
  import opened Coords
  import opened Maps
  import opened PaletteChunk
  import opened PlayerPayload

  /** `PRELOAD_RADIUS`. */
  const PreloadRadius: int := 8

  datatype World = World(chunks: map<Vec3i, Chunk>, entities: map<nat, Player>)

  /** Every resident chunk is well formed and its slots fit the `u16` they are stored in. */
  ghost predicate WorldValid(w: World) {
    forall cp :: cp in w.chunks ==> Valid(w.chunks[cp]) && FitsU16(w.chunks[cp])
  }

  /** The chunk positions `new` generates: x and z in [-8, 8), y in [-1, 1). */
  predicate Preloaded(cp: Vec3i) {
    -PreloadRadius <= cp.x < PreloadRadius && -1 <= cp.y < 1 && -PreloadRadius <= cp.z < PreloadRadius
  }

  /** `World::new`: the preloaded chunks, no entities. */
  function NewWorld(t: Terrain): (w: World)
    ensures WorldValid(w) && w.entities == map[]
    ensures forall cp :: cp in w.chunks <==> Preloaded(cp)
    ensures forall cp :: cp in w.chunks ==> w.chunks[cp] == NewChunk(cp, t)
  {
    var cps := set x, y, z | -PreloadRadius <= x < PreloadRadius && -1 <= y < 1 && -PreloadRadius <= z < PreloadRadius
      :: Vec3i(x, y, z);
    assert forall cp :: Preloaded(cp) ==> cp in cps by {
      forall cp | Preloaded(cp)
        ensures cp in cps
      {
        assert cp == Vec3i(cp.x, cp.y, cp.z);
      }
    }
    World(map cp | cp in cps :: NewChunk(cp, t), map[])
  }

  // ---------------------------------------------------------------------------
  // Blocks
  // ---------------------------------------------------------------------------

  /** `get_block_at`: the block if its chunk is resident. */
  function GetBlockAt(w: World, p: Vec3i): (r: Option<CoreBlock>)
    requires WorldValid(w)
    ensures r.None? <==> ChunkOf(p) !in w.chunks
  {
    var cp := ChunkOf(p);
    if cp in w.chunks then Some(GetBlock(w.chunks[cp], LocalOf(p))) else None
  }

  /** The chunk `set_block_at` writes into: the resident one, or a freshly generated one. */
  function WriteTarget(w: World, p: Vec3i, t: Terrain): (c: Chunk)
    requires WorldValid(w)
    ensures Valid(c) && FitsU16(c)
    ensures ChunkOf(p) !in w.chunks ==> c.palette == InitialPalette
  {
    var cp := ChunkOf(p);
    if cp in w.chunks then w.chunks[cp] else NewChunk(cp, t)
  }

  /**
   * `set_block_at`: write into the resident chunk, or into a new chunk that
   * is then inserted. The write is the core chunk's, with its `u16` cast.
   */
  function SetBlockAt(w: World, p: Vec3i, b: CoreBlock, t: Terrain): (r: World)
    requires WorldValid(w)
    ensures WorldValid(r) && r.entities == w.entities
    ensures r.chunks.Keys == w.chunks.Keys + {ChunkOf(p)}
  {
    var cp := ChunkOf(p);
    w.(chunks := w.chunks[cp := SetBlockAsWritten(WriteTarget(w, p, t), LocalOf(p), b)])
  }

  /** Two positions in the same chunk differ in their local coordinates. */
  lemma LocalsDiffer(p: Vec3i, q: Vec3i)
    requires p != q && ChunkOf(p) == ChunkOf(q)
    ensures LocalOf(p) != LocalOf(q)
  {
    Decompose(p);
    Decompose(q);
  }

  /**
   * After `set_block_at` the position's chunk is resident, and the position
   * reads as the block exactly when the block's palette index survives the
   * `u16` cast: always for a chunk generated by the write or one whose palette
   * has fewer than 65536 entries. Any other position of a chunk that was
   * resident reads as before.
   */
  lemma SetBlockAtSpec(w: World, p: Vec3i, b: CoreBlock, t: Terrain, q: Vec3i)
    requires WorldValid(w)
    ensures GetBlockAt(SetBlockAt(w, p, b, t), p).Some?
    ensures GetBlockAt(SetBlockAt(w, p, b, t), p) == Some(b)
      <==> TargetIndex(WriteTarget(w, p, t).palette, b) < U16Limit
    ensures ChunkOf(p) !in w.chunks || |w.chunks[ChunkOf(p)].palette| < U16Limit
      ==> GetBlockAt(SetBlockAt(w, p, b, t), p) == Some(b)
    ensures q != p && ChunkOf(q) in w.chunks ==> GetBlockAt(SetBlockAt(w, p, b, t), q) == GetBlockAt(w, q)
  {
    var cp := ChunkOf(p);
    var c := WriteTarget(w, p, t);
    AsWrittenGetSet(c, LocalOf(p), b, LocalOf(p));
    if q != p && ChunkOf(q) == cp {
      LocalsDiffer(p, q);
      AsWrittenGetSet(c, LocalOf(p), b, LocalOf(q));
    }
  }

  // ---------------------------------------------------------------------------
  // Entities
  // ---------------------------------------------------------------------------

  /** `next_entity_id`. */
  function NextEntityId(w: World): (id: nat)
    ensures id >= 1 && id !in w.entities
    ensures forall k :: 1 <= k < id ==> k in w.entities
  {
    LeastFreeId(w.entities)
  }

  /** `add_entity`: store the entity under a fresh id, tell it the id, and return the id. */
  function AddEntity(w: World, e: Player): (r: (World, nat))
  {
    var id := NextEntityId(w);
    (w.(entities := w.entities[id := e.(entityId := id)]), id)
  }

  /**
   * The new id is the least positive integer not in use; the entity is stored
   * under it knowing its id, and no other entity changes.
   */
  lemma AddEntitySpec(w: World, e: Player)
    ensures var (r, id) := AddEntity(w, e);
      && id >= 1 && id !in w.entities && (forall k :: 1 <= k < id ==> k in w.entities)
      && r.entities.Keys == w.entities.Keys + {id}
      && r.entities[id] == e.(entityId := id)
      && (forall k :: k in w.entities ==> r.entities[k] == w.entities[k])
      && r.chunks == w.chunks
  {
  }

  /** `remove_entity`. */
  function RemoveEntity(w: World, id: nat): (r: World)
    ensures id !in w.entities ==> r == w
    ensures r.entities.Keys == w.entities.Keys - {id} && r.chunks == w.chunks
  {
    w.(entities := w.entities - {id})
  }

  /**
   * One entity's turn of `tick`: take it out of the map, run its tick, and put
   * it back under the same id unless it now requests removal. The player's
   * tick reads nothing of the world, so it is a function of the entity alone.
   */
  function TickEntity(w: World, id: nat, step: Player -> Player, removes: Player -> bool): (r: World)
    ensures r.chunks == w.chunks
  {
    if id !in w.entities then w
    else
      var e := step(w.entities[id]);
      var rest := w.entities - {id};
      w.(entities := if removes(e) then rest else rest[id := e])
  }

  /** `tick` over the ids in the order the snapshot of the keys lists them. */
  function TickAll(w: World, ids: seq<nat>, step: Player -> Player, removes: Player -> bool): (r: World)
    ensures r.chunks == w.chunks
    decreases |ids|
  {
    if |ids| == 0 then w else TickAll(TickEntity(w, ids[0], step, removes), ids[1..], step, removes)
  }

  predicate DistinctIds(ids: seq<nat>) {
    forall i, j :: 0 <= i < j < |ids| ==> ids[i] != ids[j]
  }

  /**
   * Ticking a list of distinct ids ticks each listed entity once: it stays,
   * under the same id and ticked, exactly when it does not then request
   * removal. Entities not listed are untouched.
   */
  lemma {:induction false} TickAllSpec(w: World, ids: seq<nat>, step: Player -> Player, removes: Player -> bool)
    requires DistinctIds(ids)
    ensures var r := TickAll(w, ids, step, removes);
      && (forall k :: k in ids ==>
            && (k in r.entities <==> k in w.entities && !removes(step(w.entities[k])))
            && (k in r.entities ==> r.entities[k] == step(w.entities[k])))
      && (forall k :: k !in ids ==>
            && (k in r.entities <==> k in w.entities)
            && (k in r.entities ==> r.entities[k] == w.entities[k]))
    decreases |ids|
  {
    if |ids| > 0 {
      var w1 := TickEntity(w, ids[0], step, removes);
      var rest := ids[1..];
      assert DistinctIds(rest) by {
        forall i, j | 0 <= i < j < |rest|
          ensures rest[i] != rest[j]
        {
          assert rest[i] == ids[i + 1] && rest[j] == ids[j + 1];
        }
      }
      assert ids[0] !in rest by {
        forall i | 0 <= i < |rest|
          ensures rest[i] != ids[0]
        {
          assert rest[i] == ids[i + 1];
        }
      }
      TickAllSpec(w1, rest, step, removes);
      forall k | k in ids
        ensures k == ids[0] || k in rest
      {
        InTail(ids, k);
      }
      forall k | k in rest
        ensures k in ids
      {
        var i :| 0 <= i < |rest| && rest[i] == k;
        assert ids[i + 1] == k;
      }
    }
  }

  /**
   * `tick`: with the ids snapshotted from the keys, the entities afterwards
   * are exactly the ticked entities that do not request removal, under their
   * old ids.
   */
  lemma TickSpec(w: World, ids: seq<nat>, step: Player -> Player, removes: Player -> bool)
    requires Enumerates(ids, w.entities)
    ensures var r := TickAll(w, ids, step, removes);
      && (forall k :: k in r.entities <==> k in w.entities && !removes(step(w.entities[k])))
      && (forall k :: k in r.entities ==> r.entities[k] == step(w.entities[k]))
  {
    TickAllSpec(w, ids, step, removes);
  }
}
