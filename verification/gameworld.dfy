/**
 * The world container of the split revision (`World` in src/game/world.rs):
 * resident chunks keyed by chunk position, the log of player edits and the
 * overspill table, both keyed by (chunk, local position), the entities, and
 * the bookkeeping of which chunks have meshes and which are drawn.
 *
 * Chunk generation is the parameter `gen`, a generator oracle returning the
 * chunk and its overspill; GPU meshes are abstract buffers, and the reuse
 * pool is a count of spare buffers.
 */
module GameWorld {
  import opened Wrappers
  import opened Coords
  import opened Assets
  import opened Blocks
  import opened FlatChunk
  import opened Meshes
  import opened ChunkMesh
  import opened Generation

  /** `Chunk::new` as the world calls it: the generated chunk at a chunk position and its overspill. */
  type Generator = Vec3i -> (Chunk, Overspill)

  /** A generated chunk is well formed and, as `Chunk::new` builds it, dirty. */
  ghost predicate GeneratorValid(gen: Generator) {
    forall cp :: Valid(gen(cp).0) && gen(cp).0.isDirty
  }

  /** An entity as the world stores it; only what the world itself looks at. */
  datatype EntityId = EntityId(id: nat, name: string)

  datatype Entity =
    | PlayerEntity(position: Vec3r)
    | BillboardEntity(position: Vec3r, life: nat)

  /** `requests_removal`: a billboard whose life has run out. */
  predicate RequestsRemoval(e: Entity) {
    e.BillboardEntity? && e.life == 0
  }

  datatype World = World(
    chunks: map<Vec3i, Chunk>,
    changes: map<(Vec3i, Vec3i), Block>,
    outside: Overspill,
    entities: map<EntityId, Entity>,
    meshes: map<Vec3i, Mesh<ChunkVertex>>,
    meshVisible: set<Vec3i>,
    spareMeshes: nat,
    previousVp: Option<seq<real>>,
    rolls: nat)

  /** Every resident chunk is full-sized. */
  ghost predicate WorldValid(w: World) {
    forall cp :: cp in w.chunks ==> Valid(w.chunks[cp])
  }

  /** The block at a global position when its chunk is resident. */
  function BlockAt(w: World, p: Vec3i): Option<Block>
    requires WorldValid(w)
  {
    var (cp, l) := ChunkAndLocal(p);
    if cp in w.chunks then Some(GetBlock(w.chunks[cp], l)) else None
  }

  /** The world only grew: chunks may be added, and every resident chunk keeps its blocks. */
  ghost predicate KeepsBlocks(a: World, b: World) {
    forall cp :: cp in a.chunks ==> cp in b.chunks && b.chunks[cp].blocks == a.chunks[cp].blocks
  }

  // ---------------------------------------------------------------------------
  // get_chunk, get_block, set_block
  // ---------------------------------------------------------------------------

  /**
   * `get_chunk`: a resident chunk is returned as it is; a missing one is
   * generated, its overspill is merged into the table, and it is inserted
   * without applying the overspill or the change log that name it.
   */
  function GetChunk(w: World, cp: Vec3i, gen: Generator): (r: World)
    requires WorldValid(w) && GeneratorValid(gen)
    ensures WorldValid(r) && cp in r.chunks
    ensures cp in w.chunks ==> r == w
    ensures cp !in w.chunks ==> r.chunks == w.chunks[cp := gen(cp).0] && r.outside == w.outside + gen(cp).1
    ensures r.changes == w.changes && r.entities == w.entities && r.meshes == w.meshes
    ensures KeepsBlocks(w, r)
  {
    if cp in w.chunks then w
    else
      var (c, spill) := gen(cp);
      w.(chunks := w.chunks[cp := c], outside := w.outside + spill)
  }

  /** `get_block`: the block at a global position, generating its chunk on a miss. */
  function GetBlockGen(w: World, p: Vec3i, gen: Generator): (r: (World, Block))
    requires WorldValid(w) && GeneratorValid(gen)
    ensures WorldValid(r.0) && KeepsBlocks(w, r.0) && BlockAt(r.0, p) == Some(r.1)
    ensures BlockAt(w, p).Some? ==> r.0 == w && r.1 == BlockAt(w, p).value
  {
    var (cp, l) := ChunkAndLocal(p);
    var w1 := GetChunk(w, cp, gen);
    (w1, GetBlock(w1.chunks[cp], l))
  }

  /** `get_chunk(..).is_dirty = true`. */
  function MarkDirty(w: World, cp: Vec3i, gen: Generator): (r: World)
    requires WorldValid(w) && GeneratorValid(gen)
    ensures WorldValid(r) && KeepsBlocks(w, r) && cp in r.chunks && r.chunks[cp].isDirty
    ensures r.changes == w.changes && r.entities == w.entities && r.meshes == w.meshes
    ensures forall k :: k in r.chunks && k != cp ==> k in w.chunks && r.chunks[k] == w.chunks[k]
  {
    var w1 := GetChunk(w, cp, gen);
    w1.(chunks := w1.chunks[cp := w1.chunks[cp].(isDirty := true)])
  }

  function MarkDirtyIf(w: World, cond: bool, cp: Vec3i, gen: Generator): (r: World)
    requires WorldValid(w) && GeneratorValid(gen)
    ensures WorldValid(r) && KeepsBlocks(w, r)
    ensures r.changes == w.changes && r.entities == w.entities && r.meshes == w.meshes
    ensures cond ==> cp in r.chunks && r.chunks[cp].isDirty
    ensures forall k :: k in r.chunks && (k != cp || !cond) ==> k in w.chunks && r.chunks[k] == w.chunks[k]
  {
    if cond then MarkDirty(w, cp, gen) else w
  }

  /** Chunk k is one that `set_block` at local l of chunk cp marks dirty: the neighbour across a side l lies on. */
  predicate DirtiedBy(cp: Vec3i, l: Vec3i, k: Vec3i) {
    exists i :: 0 <= i < 6 && OnSide(i, l) && k == cp.Add(SlotOffset(i))
  }

  /** The writes of `set_block`: the slot and the change log, before any neighbour is marked. */
  function WriteCell(w: World, p: Vec3i, b: Block, gen: Generator): (r: World)
    requires WorldValid(w) && GeneratorValid(gen)
    ensures WorldValid(r)
  {
    var (cp, l) := ChunkAndLocal(p);
    var w1 := GetChunk(w, cp, gen);
    w1.(chunks := w1.chunks[cp := FlatChunk.SetBlock(w1.chunks[cp], l, b)], changes := w1.changes[(cp, l) := b])
  }

  /** The slot holds the block, the edit is logged, the chunk is dirty, and no other chunk changes. */
  lemma WriteCellSpec(w: World, p: Vec3i, b: Block, gen: Generator)
    requires WorldValid(w) && GeneratorValid(gen)
    ensures var (cp, l) := ChunkAndLocal(p);
      var r := WriteCell(w, p, b, gen);
      && BlockAt(r, p) == Some(b)
      && r.changes == w.changes[(cp, l) := b]
      && cp in r.chunks && r.chunks[cp].isDirty
      && (forall k :: k in r.chunks && k != cp ==> k in w.chunks && r.chunks[k] == w.chunks[k])
  {
    var (cp, l) := ChunkAndLocal(p);
    var w1 := GetChunk(w, cp, gen);
    assert Valid(w1.chunks[cp]);
  }

  /** No side offset is zero, so the marking never names the edited chunk itself. */
  lemma NotSelfDirtied(cp: Vec3i, l: Vec3i)
    ensures !DirtiedBy(cp, l, cp)
  {
    forall i | 0 <= i < 6
      ensures cp.Add(SlotOffset(i)) != cp
    {
      if i == 0 { } else if i == 1 { } else if i == 2 { } else if i == 3 { } else if i == 4 { } else { }
    }
  }

  /** Mark dirty, in order, every chunk of the list whose condition holds. */
  function MarkAll(w: World, marks: seq<(bool, Vec3i)>, gen: Generator): (r: World)
    requires WorldValid(w) && GeneratorValid(gen)
    ensures WorldValid(r)
    decreases |marks|
  {
    if |marks| == 0 then w else MarkAll(MarkDirtyIf(w, marks[0].0, marks[0].1, gen), marks[1..], gen)
  }

  /** Some mark of the list names chunk k and its condition holds. */
  predicate Marked(marks: seq<(bool, Vec3i)>, k: Vec3i) {
    exists j :: 0 <= j < |marks| && marks[j].0 && marks[j].1 == k
  }

  /** Every chunk whose mark holds ends dirty, and every other chunk is untouched. */
  lemma {:induction false} MarkAllSpec(w: World, marks: seq<(bool, Vec3i)>, gen: Generator)
    requires WorldValid(w) && GeneratorValid(gen)
    ensures var r := MarkAll(w, marks, gen);
      && KeepsBlocks(w, r) && r.changes == w.changes && r.entities == w.entities && r.meshes == w.meshes
      && (forall j :: 0 <= j < |marks| && marks[j].0 ==> marks[j].1 in r.chunks && r.chunks[marks[j].1].isDirty)
      && (forall k :: k in r.chunks && !Marked(marks, k) ==> k in w.chunks && r.chunks[k] == w.chunks[k])
    decreases |marks|
  {
    if |marks| > 0 {
      var w1 := MarkDirtyIf(w, marks[0].0, marks[0].1, gen);
      var rest := marks[1..];
      MarkAllSpec(w1, rest, gen);
      var r := MarkAll(w1, rest, gen);
      forall j | 0 <= j < |marks| && marks[j].0
        ensures marks[j].1 in r.chunks && r.chunks[marks[j].1].isDirty
      {
        if j > 0 {
          assert rest[j - 1] == marks[j];
        } else if Marked(rest, marks[0].1) {
        } else {
          assert marks[0].1 in w1.chunks && w1.chunks[marks[0].1].isDirty;
        }
      }
      forall k | k in r.chunks && !Marked(marks, k)
        ensures k in w.chunks && r.chunks[k] == w.chunks[k]
      {
        assert !(marks[0].0 && marks[0].1 == k);
      }
    }
  }

  /** The marks of `set_block` at local l of chunk cp: -Z, +Z, -X, +X, -Y, +Y, each when l lies on that side. */
  function SixMarks(cp: Vec3i, l: Vec3i): (ms: seq<(bool, Vec3i)>)
    ensures |ms| == 6
  {
    [(l.z == 0, cp.Add(Vec3i(0, 0, -1))), (l.z == 15, cp.Add(Vec3i(0, 0, 1))),
     (l.x == 0, cp.Add(Vec3i(-1, 0, 0))), (l.x == 15, cp.Add(Vec3i(1, 0, 0))),
     (l.y == 0, cp.Add(Vec3i(0, -1, 0))), (l.y == 15, cp.Add(Vec3i(0, 1, 0)))]
  }

  /** Mark j of the source order is side perm[j] of the chunk numbering. */
  lemma MarkIsSide(cp: Vec3i, l: Vec3i, j: int)
    requires 0 <= j < 6
    ensures var i := [0, 1, 3, 2, 5, 4][j];
      SixMarks(cp, l)[j] == (OnSide(i, l), cp.Add(SlotOffset(i)))
  {
  }

  /** The six marks in source order name exactly the chunks across the sides l lies on. */
  lemma SideMarksDirtied(cp: Vec3i, l: Vec3i, k: Vec3i)
    ensures Marked(SixMarks(cp, l), k) <==> DirtiedBy(cp, l, k)
  {
    var ms := SixMarks(cp, l);
    var perm := [0, 1, 3, 2, 5, 4];
    var inv := [0, 1, 3, 2, 5, 4];
    if Marked(ms, k) {
      var j :| 0 <= j < 6 && ms[j].0 && ms[j].1 == k;
      MarkIsSide(cp, l, j);
      assert OnSide(perm[j], l) && k == cp.Add(SlotOffset(perm[j]));
    }
    if DirtiedBy(cp, l, k) {
      var i :| 0 <= i < 6 && OnSide(i, l) && k == cp.Add(SlotOffset(i));
      MarkIsSide(cp, l, inv[i]);
      assert ms[inv[i]].0 && ms[inv[i]].1 == k;
    }
  }

  /**
   * `set_block`: write the slot, record the edit in the change log, then mark
   * dirty the neighbour across each side the cell lies on.
   */
  function SetBlockGen(w: World, p: Vec3i, b: Block, gen: Generator): (r: World)
    requires WorldValid(w) && GeneratorValid(gen)
    ensures WorldValid(r)
  {
    var (cp, l) := ChunkAndLocal(p);
    MarkAll(WriteCell(w, p, b, gen), SixMarks(cp, l), gen)
  }

  /**
   * After `set_block` the cell holds the block and the change log records
   * it under its (chunk, local) key, overwriting an earlier edit; the chunk
   * is dirty, and so is the neighbour across every side the cell lies on.
   * No other chunk changes, so an interior cell marks no neighbour.
   */
  lemma SetBlockSpec(w: World, p: Vec3i, b: Block, gen: Generator)
    requires WorldValid(w) && GeneratorValid(gen)
    ensures var (cp, l) := ChunkAndLocal(p);
      var r := SetBlockGen(w, p, b, gen);
      && BlockAt(r, p) == Some(b)
      && r.changes == w.changes[(cp, l) := b]
      && r.chunks[cp].isDirty
      && (forall i :: 0 <= i < 6 && OnSide(i, l) ==> cp.Add(SlotOffset(i)) in r.chunks && r.chunks[cp.Add(SlotOffset(i))].isDirty)
      && (forall k :: k in r.chunks && k != cp && !DirtiedBy(cp, l, k) ==> k in w.chunks && r.chunks[k] == w.chunks[k])
  {
    var (cp, l) := ChunkAndLocal(p);
    var w1 := WriteCell(w, p, b, gen);
    WriteCellSpec(w, p, b, gen);
    var ms := SixMarks(cp, l);
    MarkAllSpec(w1, ms, gen);
    NotSelfDirtied(cp, l);
    SideMarksDirtied(cp, l, cp);
    var r := MarkAll(w1, ms, gen);
    forall i | 0 <= i < 6 && OnSide(i, l)
      ensures cp.Add(SlotOffset(i)) in r.chunks && r.chunks[cp.Add(SlotOffset(i))].isDirty
    {
      SideMarksDirtied(cp, l, cp.Add(SlotOffset(i)));
      assert DirtiedBy(cp, l, cp.Add(SlotOffset(i)));
      var j :| 0 <= j < |ms| && ms[j].0 && ms[j].1 == cp.Add(SlotOffset(i));
    }
    forall k | k in r.chunks && k != cp && !DirtiedBy(cp, l, k)
      ensures k in w.chunks && r.chunks[k] == w.chunks[k]
    {
      SideMarksDirtied(cp, l, k);
    }
  }

  /** A cell with no coordinate on the chunk border dirties no chunk but its own. */
  lemma InteriorDirtiesNoNeighbour(cp: Vec3i, l: Vec3i, k: Vec3i)
    requires 0 < l.x < 15 && 0 < l.y < 15 && 0 < l.z < 15
    ensures !DirtiedBy(cp, l, k)
  {
  }

  // ---------------------------------------------------------------------------
  // add_chunk
  // ---------------------------------------------------------------------------

  /** Write slot i of a chunk (its position is PosOf(i)); the chunk becomes dirty. */
  function SetSlot(c: Chunk, i: int, b: Block): (r: Chunk)
    requires Valid(c) && 0 <= i < Volume
    ensures Valid(r) && r.isDirty && r.foliage == c.foliage
    ensures r.blocks[i] == b && forall j :: 0 <= j < Volume && j != i ==> r.blocks[j] == c.blocks[j]
  {
    c.(blocks := c.blocks[i := b], isDirty := true)
  }

  /** Writing slot i is `set_block` at the local position of slot i. */
  lemma SetSlotIsSetBlock(c: Chunk, i: int, b: Block)
    requires Valid(c) && 0 <= i < Volume
    ensures SetSlot(c, i, b) == FlatChunk.SetBlock(c, PosOf(i), b)
  {
    IndexOfPos(i);
  }

  /** The overspill or change-log key of slot i of chunk cp. */
  function SlotKey(cp: Vec3i, i: int): (Vec3i, Vec3i)
    requires 0 <= i < Volume
  {
    (cp, PosOf(i))
  }

  /**
   * The loop of `add_chunk` over the first n slots (x outer, then y, then z,
   * which is slot order): an overspill entry for the slot is written and
   * removed from the table, then a change-log entry for the slot is written
   * over it.
   */
  function MergeSlots(cp: Vec3i, c: Chunk, outside: Overspill, changes: map<(Vec3i, Vec3i), Block>, n: int): (r: (Chunk, Overspill))
    requires Valid(c) && 0 <= n <= Volume
    ensures Valid(r.0)
    decreases n
  {
    if n == 0 then (c, outside)
    else
      var (c1, o1) := MergeSlots(cp, c, outside, changes, n - 1);
      var key := SlotKey(cp, n - 1);
      var c2 := if key in o1 then SetSlot(c1, n - 1, o1[key]) else c1;
      var o2 := if key in o1 then o1 - {key} else o1;
      var c3 := if key in changes then SetSlot(c2, n - 1, changes[key]) else c2;
      (c3, o2)
  }

  /** What slot i holds after the merge: the player's edit if there is one, else the overspill, else the generated block. */
  function MergedSlot(cp: Vec3i, c: Chunk, outside: Overspill, changes: map<(Vec3i, Vec3i), Block>, i: int): Block
    requires Valid(c) && 0 <= i < Volume
  {
    var key := SlotKey(cp, i);
    if key in changes then changes[key] else if key in outside then outside[key] else c.blocks[i]
  }

  /** Key k names one of the first n slots of chunk cp. */
  predicate Consumed(cp: Vec3i, n: int, k: (Vec3i, Vec3i)) {
    k.0 == cp && InChunk(k.1) && Index(k.1) < n
  }

  /** After the first n slots each of them holds its merged block, and the later slots are untouched. */
  lemma {:induction false} MergeSlotsBlocks(cp: Vec3i, c: Chunk, outside: Overspill, changes: map<(Vec3i, Vec3i), Block>, n: int)
    requires Valid(c) && 0 <= n <= Volume
    ensures var r := MergeSlots(cp, c, outside, changes, n).0;
      && (forall i :: 0 <= i < n ==> r.blocks[i] == MergedSlot(cp, c, outside, changes, i))
      && (forall i :: n <= i < Volume ==> r.blocks[i] == c.blocks[i])
      && r.foliage == c.foliage
    decreases n
  {
    if n > 0 {
      MergeSlotsBlocks(cp, c, outside, changes, n - 1);
      var (c1, o1) := MergeSlots(cp, c, outside, changes, n - 1);
      var key := SlotKey(cp, n - 1);
      SlotStillPending(cp, c, outside, changes, n - 1);
      var c2 := if key in o1 then SetSlot(c1, n - 1, o1[key]) else c1;
      var c3 := if key in changes then SetSlot(c2, n - 1, changes[key]) else c2;
      assert c3.blocks[n - 1] == MergedSlot(cp, c, outside, changes, n - 1);
    }
  }

  /** When slot n is reached its overspill entry is still the original one. */
  lemma SlotStillPending(cp: Vec3i, c: Chunk, outside: Overspill, changes: map<(Vec3i, Vec3i), Block>, n: int)
    requires Valid(c) && 0 <= n < Volume
    ensures var o := MergeSlots(cp, c, outside, changes, n).1;
      var key := SlotKey(cp, n);
      (key in o <==> key in outside) && (key in o ==> o[key] == outside[key])
  {
    MergeSlotsTable(cp, c, outside, changes, n);
    IndexOfPos(n);
    assert !Consumed(cp, n, SlotKey(cp, n));
  }

  /** After the first n slots exactly the overspill entries of those slots are gone from the table. */
  lemma {:induction false} MergeSlotsTable(cp: Vec3i, c: Chunk, outside: Overspill, changes: map<(Vec3i, Vec3i), Block>, n: int)
    requires Valid(c) && 0 <= n <= Volume
    ensures var r := MergeSlots(cp, c, outside, changes, n).1;
      && (forall k :: k in r <==> k in outside && !Consumed(cp, n, k))
      && (forall k :: k in r ==> r[k] == outside[k])
    decreases n
  {
    if n > 0 {
      MergeSlotsTable(cp, c, outside, changes, n - 1);
      var key := SlotKey(cp, n - 1);
      IndexOfPos(n - 1);
      forall k | Consumed(cp, n, k) && !Consumed(cp, n - 1, k)
        ensures k == key
      {
        PosOfIndex(k.1);
      }
    }
  }

  /**
   * `add_chunk`: merge the overspill and the change log into the incoming
   * chunk slot by slot, then add the chunk's own overspill to the table
   * (overwriting) and insert the chunk.
   */
  function AddChunk(w: World, cp: Vec3i, c: Chunk, spill: Overspill): (r: World)
    requires WorldValid(w) && Valid(c)
    ensures WorldValid(r) && cp in r.chunks
  {
    var (merged, rest) := MergeSlots(cp, c, w.outside, w.changes, Volume);
    w.(chunks := w.chunks[cp := merged], outside := rest + spill)
  }

  /** The block a cell of an added chunk ends with: the player's edit, else the overspill aimed at it, else the generated block. */
  function Merged(w: World, cp: Vec3i, c: Chunk, l: Vec3i): Block
    requires Valid(c) && InChunk(l)
  {
    if (cp, l) in w.changes then w.changes[(cp, l)]
    else if (cp, l) in w.outside then w.outside[(cp, l)]
    else GetBlock(c, l)
  }

  /** After `add_chunk` every cell of the chunk holds its edit, else its overspill, else the generated block. */
  lemma AddChunkBlocks(w: World, cp: Vec3i, c: Chunk, spill: Overspill)
    requires WorldValid(w) && Valid(c)
    ensures var r := AddChunk(w, cp, c, spill);
      forall l :: InChunk(l) ==> GetBlock(r.chunks[cp], l) == Merged(w, cp, c, l)
  {
    MergeSlotsBlocks(cp, c, w.outside, w.changes, Volume);
    var merged := MergeSlots(cp, c, w.outside, w.changes, Volume).0;
    forall l | InChunk(l)
      ensures GetBlock(merged, l) == Merged(w, cp, c, l)
    {
      PosOfIndex(l);
    }
  }

  /**
   * `add_chunk` consumes the overspill aimed at the chunk before adding the
   * chunk's own overspill, whose entries win over older ones.
   */
  lemma AddChunkTable(w: World, cp: Vec3i, c: Chunk, spill: Overspill)
    requires WorldValid(w) && Valid(c)
    ensures var r := AddChunk(w, cp, c, spill);
      && (forall k :: k in r.outside <==> k in spill || (k in w.outside && !(k.0 == cp && InChunk(k.1))))
      && (forall k :: k in r.outside ==> r.outside[k] == if k in spill then spill[k] else w.outside[k])
  {
    MergeSlotsTable(cp, c, w.outside, w.changes, Volume);
  }

  /** `add_chunk` leaves the other chunks, the change log and the entities alone. */
  lemma AddChunkFrame(w: World, cp: Vec3i, c: Chunk, spill: Overspill)
    requires WorldValid(w) && Valid(c)
    ensures var r := AddChunk(w, cp, c, spill);
      && (forall k :: k in w.chunks && k != cp ==> k in r.chunks && r.chunks[k] == w.chunks[k])
      && r.changes == w.changes && r.entities == w.entities
  {
  }

  /**
   * `get_chunk` on a miss differs from `add_chunk`: it inserts the generated
   * chunk as it is, so a logged edit in that chunk is not visible in it.
   */
  lemma GetChunkIgnoresChanges(w: World, p: Vec3i, gen: Generator)
    requires WorldValid(w) && GeneratorValid(gen)
    requires var (cp, l) := ChunkAndLocal(p); cp !in w.chunks && (cp, l) in w.changes
    ensures var (cp, l) := ChunkAndLocal(p);
      && BlockAt(GetChunk(w, cp, gen), p) == Some(GetBlock(gen(cp).0, l))
      && BlockAt(AddChunk(w, cp, gen(cp).0, gen(cp).1), p) == Some(w.changes[(cp, l)])
  {
    var (cp, l) := ChunkAndLocal(p);
    AddChunkBlocks(w, cp, gen(cp).0, gen(cp).1);
  }

  // ---------------------------------------------------------------------------
  // break_block
  // ---------------------------------------------------------------------------

  /** The random u32 the k-th entity id is drawn from. */
  type IdRolls = nat -> nat

  /** The life of an explosion billboard: its size lies in [1, 2), so the size truncated to u32 is 1, times 25. */
  const ExplosionLife: nat := 25

  /** Offset k of the blast cube, dx outermost, then dy, then dz innermost, each in [-2, 2]. */
  function BlastOffset(k: int): (o: Vec3i)
    requires 0 <= k < 125
    ensures -2 <= o.x <= 2 && -2 <= o.y <= 2 && -2 <= o.z <= 2
  {
    Vec3i(k / 25 - 2, (k / 5) % 5 - 2, k % 5 - 2)
  }

  /**
   * An offset of the blast cube is inside the blast when its squared length
   * is at most 4: every coordinate is at most 1 in size, or one coordinate is
   * 2 in size and the others are 0.
   */
  predicate InBlast(o: Vec3i) {
    || (Abs(o.x) <= 1 && Abs(o.y) <= 1 && Abs(o.z) <= 1)
    || (Abs(o.x) + Abs(o.y) + Abs(o.z) == 2 && (Abs(o.x) == 2 || Abs(o.y) == 2 || Abs(o.z) == 2))
  }

  /** On the blast cube, the test above is the squared-length test of `break_block`. */
  lemma InBlastIsBall(o: Vec3i)
    requires -2 <= o.x <= 2 && -2 <= o.y <= 2 && -2 <= o.z <= 2
    ensures InBlast(o) <==> o.LengthSquared() <= 4
  {
    SquareOfSmall(o.x);
    SquareOfSmall(o.y);
    SquareOfSmall(o.z);
  }

  lemma SquareOfSmall(v: int)
    requires -2 <= v <= 2
    ensures v * v == (if Abs(v) == 2 then 4 else Abs(v))
  {
  }

  function Center(p: Vec3i): Vec3r {
    Vec3r(p.x as real + 0.5, p.y as real + 0.5, p.z as real + 0.5)
  }

  /** Add an explosion billboard at the centre of a cell, under a freshly rolled id. */
  function AddExplosion(w: World, p: Vec3i, ids: IdRolls): (r: World)
    ensures r.chunks == w.chunks && r.changes == w.changes && r.outside == w.outside
    ensures BillboardEntity(Center(p), ExplosionLife) in r.entities.Values
  {
    var id := EntityId(ids(w.rolls), "Billboard");
    var r := w.(entities := w.entities[id := BillboardEntity(Center(p), ExplosionLife)], rolls := w.rolls + 1);
    assert r.entities[id] == BillboardEntity(Center(p), ExplosionLife);
    r
  }

  /**
   * `break_block`: read the cell (generating its chunk); Air and Bedrock are
   * left alone; anything else becomes Air, and Glungus also breaks every
   * cell within squared distance 4 and then adds an explosion billboard.
   * The recursion is bounded by `fuel`: with none left, a Glungus cell is
   * cleared without breaking its surroundings.
   */
  function BreakBlock(w: World, p: Vec3i, gen: Generator, ids: IdRolls, fuel: nat): (r: World)
    requires WorldValid(w) && GeneratorValid(gen)
    ensures WorldValid(r)
    decreases fuel, 1, 0
  {
    var (w1, b) := GetBlockGen(w, p, gen);
    if b == Air || b == Bedrock then w1 else BreakResident(w1, p, b, gen, ids, fuel)
  }

  /** The rest of `break_block` once the block b read at p is neither Air nor Bedrock. */
  function BreakResident(w: World, p: Vec3i, b: Block, gen: Generator, ids: IdRolls, fuel: nat): (r: World)
    requires WorldValid(w) && GeneratorValid(gen)
    ensures WorldValid(r)
    decreases fuel, 0, 0
  {
    var w2 := SetBlockGen(w, p, Air, gen);
    if b != Glungus || fuel == 0 then w2
    else GlungusAfterClear(w2, p, gen, ids, fuel - 1)
  }

  /** The loop of `break_block` over the blast offsets k.. of the centre p. */
  function BreakAround(w: World, p: Vec3i, gen: Generator, ids: IdRolls, fuel: nat, k: nat): (r: World)
    requires WorldValid(w) && GeneratorValid(gen) && k <= 125
    ensures WorldValid(r)
    decreases fuel, 2, 125 - k
  {
    if k == 125 then w
    else
      var o := BlastOffset(k);
      var w1 := if InBlast(o) then BreakBlock(w, p.Add(o), gen, ids, fuel) else w;
      BreakAround(w1, p, gen, ids, fuel, k + 1)
  }

  /** Slot by slot, Air stays Air and Bedrock stays Bedrock. */
  predicate Settles(s: seq<Block>, t: seq<Block>) {
    |s| == |t| && forall i :: 0 <= i < |s| ==> (s[i] == Air ==> t[i] == Air) && (s[i] == Bedrock ==> t[i] == Bedrock)
  }

  /** Every resident chunk stays resident, and none of its Air or Bedrock cells changes. */
  ghost predicate Kept(a: World, b: World) {
    forall cp :: cp in a.chunks ==> cp in b.chunks && Settles(a.chunks[cp].blocks, b.chunks[cp].blocks)
  }

  /** The cell is Air or Bedrock: breaking it does nothing. */
  predicate Settled(w: World, p: Vec3i)
    requires WorldValid(w)
  {
    BlockAt(w, p) == Some(Air) || BlockAt(w, p) == Some(Bedrock)
  }

  /** Every blast cell around p is Air or Bedrock. */
  ghost predicate BlastSettled(w: World, p: Vec3i)
    requires WorldValid(w)
  {
    forall k :: 0 <= k < 125 && InBlast(BlastOffset(k)) ==> Settled(w, p.Add(BlastOffset(k)))
  }

  lemma KeptTrans(a: World, b: World, c: World)
    requires Kept(a, b) && Kept(b, c)
    ensures Kept(a, c)
  {
    forall cp | cp in a.chunks
      ensures cp in c.chunks && Settles(a.chunks[cp].blocks, c.chunks[cp].blocks)
    {
      assert Settles(b.chunks[cp].blocks, c.chunks[cp].blocks);
    }
  }

  lemma KeepsBlocksKept(a: World, b: World)
    requires KeepsBlocks(a, b)
    ensures Kept(a, b)
  {
    forall cp | cp in a.chunks
      ensures cp in b.chunks && Settles(a.chunks[cp].blocks, b.chunks[cp].blocks)
    {
    }
  }

  /** A settled cell stays settled. */
  lemma SettledStays(a: World, b: World, p: Vec3i)
    requires WorldValid(a) && WorldValid(b) && Kept(a, b) && Settled(a, p)
    ensures Settled(b, p)
  {
    var (cp, l) := ChunkAndLocal(p);
    assert Settles(a.chunks[cp].blocks, b.chunks[cp].blocks);
  }

  /** Clearing a resident cell that is not Bedrock keeps every Air and Bedrock cell. */
  lemma ClearKept(w: World, p: Vec3i, gen: Generator)
    requires WorldValid(w) && GeneratorValid(gen) && BlockAt(w, p).Some? && BlockAt(w, p) != Some(Bedrock)
    ensures Kept(w, SetBlockGen(w, p, Air, gen))
  {
    var (cp, l) := ChunkAndLocal(p);
    var w0 := GetChunk(w, cp, gen);
    var w1 := WriteCell(w, p, Air, gen);
    KeepsBlocksKept(w, w0);
    IndexOfPos(Index(l));
    assert Settles(w0.chunks[cp].blocks, w1.chunks[cp].blocks);
    assert Kept(w0, w1);
    MarkAllSpec(w1, SixMarks(cp, l), gen);
    KeepsBlocksKept(w1, SetBlockGen(w, p, Air, gen));
    KeptTrans(w0, w1, SetBlockGen(w, p, Air, gen));
    KeptTrans(w, w0, SetBlockGen(w, p, Air, gen));
  }

  /** `set_block` reads back: the cell holds the block written. */
  lemma SetBlockReads(w: World, p: Vec3i, b: Block, gen: Generator)
    requires WorldValid(w) && GeneratorValid(gen)
    ensures BlockAt(SetBlockGen(w, p, b, gen), p) == Some(b)
  {
    var (cp, l) := ChunkAndLocal(p);
    var w1 := WriteCell(w, p, b, gen);
    WriteCellSpec(w, p, b, gen);
    MarkAllSpec(w1, SixMarks(cp, l), gen);
    NotSelfDirtied(cp, l);
    SideMarksDirtied(cp, l, cp);
  }

  /** Clearing a resident cell that is not Bedrock settles it and keeps every Air and Bedrock cell. */
  lemma ClearSettles(w: World, p: Vec3i, gen: Generator)
    requires WorldValid(w) && GeneratorValid(gen) && BlockAt(w, p).Some? && BlockAt(w, p) != Some(Bedrock)
    ensures var r := SetBlockGen(w, p, Air, gen); Kept(w, r) && BlockAt(r, p) == Some(Air)
  {
    ClearKept(w, p, gen);
    SetBlockReads(w, p, Air, gen);
  }

  /** Adding the billboard touches no chunk. */
  lemma ExplosionKept(w: World, p: Vec3i, ids: IdRolls)
    requires WorldValid(w)
    ensures var r := AddExplosion(w, p, ids); WorldValid(r) && Kept(w, r) && (Settled(w, p) ==> Settled(r, p))
  {
    KeepsBlocksKept(w, AddExplosion(w, p, ids));
  }

  /**
   * Breaking keeps every Air and Bedrock cell and leaves the broken cell
   * Air or Bedrock: a recursive step only ever turns a cell that is neither
   * into Air.
   */
  lemma {:induction false} BreakBlockSettles(w: World, p: Vec3i, gen: Generator, ids: IdRolls, fuel: nat)
    requires WorldValid(w) && GeneratorValid(gen)
    ensures var r := BreakBlock(w, p, gen, ids, fuel); Kept(w, r) && Settled(r, p)
    decreases fuel, 1, 0
  {
    var (w1, b) := GetBlockGen(w, p, gen);
    KeepsBlocksKept(w, w1);
    if b != Air && b != Bedrock {
      BreakResidentSettles(w1, p, b, gen, ids, fuel);
      KeptTrans(w, w1, BreakResident(w1, p, b, gen, ids, fuel));
    }
  }

  /** On a resident cell that is neither Air nor Bedrock, `break_block` goes straight to clearing it. */
  lemma BreakUnfold(w: World, p: Vec3i, gen: Generator, ids: IdRolls, fuel: nat)
    requires WorldValid(w) && GeneratorValid(gen)
    requires BlockAt(w, p).Some? && BlockAt(w, p) != Some(Air) && BlockAt(w, p) != Some(Bedrock)
    ensures BreakBlock(w, p, gen, ids, fuel) == BreakResident(w, p, BlockAt(w, p).value, gen, ids, fuel)
  {
  }

  /** Clearing a cell that is neither Air nor Bedrock leaves it Air and keeps every Air and Bedrock cell. */
  lemma {:induction false} BreakResidentSettles(w: World, p: Vec3i, b: Block, gen: Generator, ids: IdRolls, fuel: nat)
    requires WorldValid(w) && GeneratorValid(gen)
    requires BlockAt(w, p) == Some(b) && b != Air && b != Bedrock
    ensures var r := BreakResident(w, p, b, gen, ids, fuel); Kept(w, r) && BlockAt(r, p) == Some(Air)
    decreases fuel, 0, 0
  {
    var w2 := SetBlockGen(w, p, Air, gen);
    ClearSettles(w, p, gen);
    if b == Glungus && fuel > 0 {
      GlungusTail(w2, p, gen, ids, fuel - 1);
      KeptTrans(w, w2, GlungusAfterClear(w2, p, gen, ids, fuel - 1));
    }
  }

  /** What `break_block` does after clearing a Glungus cell: the blast, then the billboard. */
  function GlungusAfterClear(w: World, p: Vec3i, gen: Generator, ids: IdRolls, fuel: nat): (r: World)
    requires WorldValid(w) && GeneratorValid(gen)
    ensures WorldValid(r)
    decreases fuel, 3, 0
  {
    AddExplosion(BreakAround(w, p, gen, ids, fuel, 0), p, ids)
  }

  /** Clearing Glungus is followed by the blast: it keeps Air and Bedrock, settles every blast cell, and adds the billboard. */
  lemma {:induction false} GlungusTail(w: World, p: Vec3i, gen: Generator, ids: IdRolls, fuel: nat)
    requires WorldValid(w) && GeneratorValid(gen) && BlockAt(w, p) == Some(Air)
    ensures var r := GlungusAfterClear(w, p, gen, ids, fuel);
      && Kept(w, r) && BlockAt(r, p) == Some(Air)
      && BillboardEntity(Center(p), ExplosionLife) in r.entities.Values
      && BlastSettled(r, p)
    decreases fuel, 3, 0
  {
    var w3 := BreakAround(w, p, gen, ids, fuel, 0);
    BreakAroundSettles(w, p, gen, ids, fuel, 0);
    AirStays(w, w3, p);
    ExplosionKept(w3, p, ids);
    var r := AddExplosion(w3, p, ids);
    KeptTrans(w, w3, r);
    forall k | 0 <= k < 125 && InBlast(BlastOffset(k))
      ensures Settled(r, p.Add(BlastOffset(k)))
    {
      SettledStays(w3, r, p.Add(BlastOffset(k)));
    }
  }

  /** Every blast cell from offset k on is Air or Bedrock. */
  ghost predicate SettledFrom(w: World, p: Vec3i, k: nat)
    requires WorldValid(w)
  {
    forall j :: k <= j < 125 && InBlast(BlastOffset(j)) ==> Settled(w, p.Add(BlastOffset(j)))
  }

  lemma SettledFromStep(w: World, p: Vec3i, k: nat)
    requires WorldValid(w) && k < 125 && SettledFrom(w, p, k + 1)
    requires InBlast(BlastOffset(k)) ==> Settled(w, p.Add(BlastOffset(k)))
    ensures SettledFrom(w, p, k)
  {
    forall j | k <= j < 125 && InBlast(BlastOffset(j))
      ensures Settled(w, p.Add(BlastOffset(j)))
    {
      if j > k {
        assert k + 1 <= j;
      }
    }
  }

  /** One turn of the blast loop: the cell at offset k is broken when it lies in the blast. */
  lemma BlastStepSettles(w: World, p: Vec3i, gen: Generator, ids: IdRolls, fuel: nat, k: nat)
    requires WorldValid(w) && GeneratorValid(gen) && k < 125
    ensures var o := BlastOffset(k);
      var w1 := if InBlast(o) then BreakBlock(w, p.Add(o), gen, ids, fuel) else w;
      Kept(w, w1) && (InBlast(o) ==> Settled(w1, p.Add(o)))
    decreases fuel, 1, 1
  {
    var o := BlastOffset(k);
    if InBlast(o) {
      BreakBlockSettles(w, p.Add(o), gen, ids, fuel);
    }
  }

  /** The blast loop keeps every Air and Bedrock cell and leaves each blast cell from offset k on settled. */
  lemma {:induction false} BreakAroundSettles(w: World, p: Vec3i, gen: Generator, ids: IdRolls, fuel: nat, k: nat)
    requires WorldValid(w) && GeneratorValid(gen) && k <= 125
    ensures var r := BreakAround(w, p, gen, ids, fuel, k); Kept(w, r) && SettledFrom(r, p, k)
    decreases fuel, 2, 125 - k
  {
    if k < 125 {
      var o := BlastOffset(k);
      var w1 := if InBlast(o) then BreakBlock(w, p.Add(o), gen, ids, fuel) else w;
      BlastStepSettles(w, p, gen, ids, fuel, k);
      var r := BreakAround(w1, p, gen, ids, fuel, k + 1);
      assert r == BreakAround(w, p, gen, ids, fuel, k);
      BreakAroundSettles(w1, p, gen, ids, fuel, k + 1);
      KeptTrans(w, w1, r);
      if InBlast(o) {
        SettledStays(w1, r, p.Add(o));
      }
      SettledFromStep(r, p, k);
    }
  }

  /** Breaking Air or Bedrock in a resident chunk changes nothing. */
  lemma BreakSettledNoOp(w: World, p: Vec3i, gen: Generator, ids: IdRolls, fuel: nat)
    requires WorldValid(w) && GeneratorValid(gen) && Settled(w, p)
    ensures BreakBlock(w, p, gen, ids, fuel) == w
  {
  }

  /**
   * Breaking a cell of a missing chunk that generates as Air or Bedrock
   * breaks nothing, but `get_block` has still grown the world by that chunk
   * and its overspill.
   */
  lemma BreakGeneratedSettled(w: World, p: Vec3i, gen: Generator, ids: IdRolls, fuel: nat)
    requires WorldValid(w) && GeneratorValid(gen) && BlockAt(w, p).None?
    requires GetBlock(gen(ChunkAndLocal(p).0).0, ChunkAndLocal(p).1) in {Air, Bedrock}
    ensures var r := BreakBlock(w, p, gen, ids, fuel); var cp := ChunkAndLocal(p).0;
      && r.chunks == w.chunks[cp := gen(cp).0] && r.outside == w.outside + gen(cp).1
      && r.changes == w.changes && r.entities == w.entities && Settled(r, p)
  {
  }

  /** Breaking a cell that is neither Air nor Bedrock leaves it Air, and only Glungus adds an entity. */
  lemma BreakClears(w: World, p: Vec3i, gen: Generator, ids: IdRolls, fuel: nat)
    requires WorldValid(w) && GeneratorValid(gen)
    requires BlockAt(w, p).Some? && BlockAt(w, p) != Some(Air) && BlockAt(w, p) != Some(Bedrock)
    ensures var r := BreakBlock(w, p, gen, ids, fuel);
      && BlockAt(r, p) == Some(Air)
      && (BlockAt(w, p) != Some(Glungus) ==> r.entities == w.entities)
  {
    var b := BlockAt(w, p).value;
    BreakUnfold(w, p, gen, ids, fuel);
    BreakResidentSettles(w, p, b, gen, ids, fuel);
    SetBlockEntities(w, p, Air, gen);
  }

  /** `set_block` leaves the entities alone. */
  lemma SetBlockEntities(w: World, p: Vec3i, b: Block, gen: Generator)
    requires WorldValid(w) && GeneratorValid(gen)
    ensures SetBlockGen(w, p, b, gen).entities == w.entities
  {
    var (cp, l) := ChunkAndLocal(p);
    MarkAllSpec(WriteCell(w, p, b, gen), SixMarks(cp, l), gen);
  }

  /** An Air cell stays Air. */
  lemma AirStays(a: World, b: World, p: Vec3i)
    requires WorldValid(a) && WorldValid(b) && Kept(a, b) && BlockAt(a, p) == Some(Air)
    ensures BlockAt(b, p) == Some(Air)
  {
    var (cp, l) := ChunkAndLocal(p);
    assert Settles(a.chunks[cp].blocks, b.chunks[cp].blocks);
  }

  // ---------------------------------------------------------------------------
  // update
  // ---------------------------------------------------------------------------

  /** The render distance, in chunks. */
  const RenderDistance: real := 8.0

  /** A chunk is kept when its squared distance to the player's position in chunk units is at most 64. */
  predicate InRenderRange(cp: Vec3i, player: Vec3r) {
    var dx := cp.x as real - player.x / 16.0;
    var dy := cp.y as real - player.y / 16.0;
    var dz := cp.z as real - player.z / 16.0;
    dx * dx + dy * dy + dz * dz <= RenderDistance * RenderDistance
  }

  /**
   * The three retain passes that open `update`: drop the chunks out of
   * range, return the meshes of dropped chunks to the reuse pool, and drop
   * the entities that request removal. The per-entity tick that closes
   * `update` is not composed in here; the contract describes the world the
   * tick starts from.
   */
  function Update(w: World, player: Vec3r): (r: World)
    requires WorldValid(w)
    ensures WorldValid(r)
    ensures forall cp :: cp in r.chunks <==> cp in w.chunks && InRenderRange(cp, player)
    ensures forall cp :: cp in r.chunks ==> r.chunks[cp] == w.chunks[cp]
    ensures forall cp :: cp in r.meshes <==> cp in w.meshes && cp in r.chunks
    ensures forall cp :: cp in r.meshes ==> r.meshes[cp] == w.meshes[cp]
    ensures forall id :: id in r.entities <==> id in w.entities && !RequestsRemoval(w.entities[id])
    ensures forall id :: id in r.entities ==> r.entities[id] == w.entities[id]
  {
    var chunks := map cp | cp in w.chunks && InRenderRange(cp, player) :: w.chunks[cp];
    var dropped := w.meshes.Keys - chunks.Keys;
    var meshes := map cp | cp in w.meshes && cp in chunks :: w.meshes[cp];
    var entities := map id | id in w.entities && !RequestsRemoval(w.entities[id]) :: w.entities[id];
    w.(chunks := chunks, meshes := meshes, spareMeshes := w.spareMeshes + |dropped|, entities := entities)
  }

  /** Every mesh belongs to a resident chunk. */
  predicate MeshesResident(w: World) {
    forall cp :: cp in w.meshes ==> cp in w.chunks
  }

  /** After `update` every mesh belongs to a resident chunk, and no mesh buffer is lost: the dropped ones join the pool. */
  lemma UpdateKeepsMeshes(w: World, player: Vec3r)
    requires WorldValid(w)
    ensures var r := Update(w, player);
      && MeshesResident(r)
      && |r.meshes| + r.spareMeshes == |w.meshes| + w.spareMeshes
      && forall id :: id in r.entities ==> !RequestsRemoval(r.entities[id])
  {
    var r := Update(w, player);
    assert r.meshes.Keys == w.meshes.Keys * r.chunks.Keys;
    SplitCard(w.meshes.Keys, r.chunks.Keys);
  }

  /** A set splits into the part inside another set and the part outside it. */
  lemma {:induction false} SplitCard<T>(a: set<T>, b: set<T>)
    ensures |a| == |a * b| + |a - b|
    decreases |a|
  {
    if a != {} {
      var x :| x in a;
      SplitCard(a - {x}, b);
      if x in b {
        assert a * b == (a - {x}) * b + {x};
        assert a - b == (a - {x}) - b;
      } else {
        assert a * b == (a - {x}) * b;
        assert a - b == ((a - {x}) - b) + {x};
      }
    }
  }

  // ---------------------------------------------------------------------------
  // update_mesh_visibility
  // ---------------------------------------------------------------------------

  /** The resident chunk at a position, if any. */
  function Resident(w: World, cp: Vec3i): (o: Option<Chunk>)
    ensures o.Some? <==> cp in w.chunks
  {
    if cp in w.chunks then Some(w.chunks[cp]) else None
  }

  /** The six resident neighbours of a chunk, in the slot order -Z, +Z, +X, -X, +Y, -Y. */
  function NeighboursOf(w: World, cp: Vec3i): (nb: Neighbours)
    requires WorldValid(w)
    ensures NeighboursValid(nb)
    ensures forall i :: 0 <= i < 6 ==> nb.Slot(i) == Resident(w, cp.Add(SlotOffset(i)))
  {
    Neighbours(Resident(w, cp.Add(Vec3i(0, 0, -1))), Resident(w, cp.Add(Vec3i(0, 0, 1))),
               Resident(w, cp.Add(Vec3i(1, 0, 0))), Resident(w, cp.Add(Vec3i(-1, 0, 0))),
               Resident(w, cp.Add(Vec3i(0, 1, 0))), Resident(w, cp.Add(Vec3i(0, -1, 0))))
  }

  /** `i ^ 1`: the side facing side i, for the six sides. */
  function Facing(i: nat): (j: nat)
    requires i < 6
    ensures j < 6 && j != i
  {
    if i % 2 == 0 then i + 1 else i - 1
  }

  /** Facing sides come in pairs: 0 and 1, 2 and 3, 4 and 5. */
  lemma FacingPairs(i: nat)
    requires i < 6
    ensures Facing(Facing(i)) == i && Facing(i) / 2 == i / 2
  {
  }

  /** The test `all` runs: neighbour i has its side facing the chunk full. */
  predicate FacingFull(i: nat, c: Chunk) {
    i < 6 && Valid(c) && SideIsFull(c, Facing(i))
  }

  /** Every resident neighbour covers the chunk with a full side, so nothing in it can be seen. */
  predicate Enclosed(w: World, cp: Vec3i)
    requires WorldValid(w)
  {
    NeighboursOf(w, cp).All(FacingFull)
  }

  /**
   * `update_mesh_visibility`: with the view-projection unchanged, nothing
   * happens; otherwise the visible set is rebuilt from the resident chunks
   * that lie in the frustum (`inFrustum`, the frustum test of the chunk's
   * box) and are not enclosed.
   */
  function UpdateMeshVisibility(w: World, vp: seq<real>, inFrustum: Vec3i -> bool): (r: World)
    requires WorldValid(w)
    ensures WorldValid(r) && r.chunks == w.chunks && r.meshes == w.meshes
  {
    if w.previousVp == Some(vp) then w
    else
      var visible := set cp | cp in w.chunks && inFrustum(cp) && !Enclosed(w, cp);
      w.(previousVp := Some(vp), meshVisible := visible)
  }

  /**
   * With a new view-projection, a chunk is visible exactly when it is
   * resident, in the frustum, and some resident neighbour's facing side is
   * not full; an unchanged view-projection changes nothing.
   */
  lemma VisibilitySpec(w: World, vp: seq<real>, inFrustum: Vec3i -> bool, cp: Vec3i)
    requires WorldValid(w)
    ensures var r := UpdateMeshVisibility(w, vp, inFrustum);
      && (w.previousVp == Some(vp) ==> r == w)
      && (w.previousVp != Some(vp) ==>
            r.previousVp == Some(vp)
            && (cp in r.meshVisible <==>
                  cp in w.chunks && inFrustum(cp)
                  && exists i :: 0 <= i < 6 && cp.Add(SlotOffset(i)) in w.chunks
                                 && !SideFull(w.chunks[cp.Add(SlotOffset(i))], Facing(i))))
  {
    var nb := NeighboursOf(w, cp);
    AllIsEvery(nb, FacingFull);
    if !nb.All(FacingFull) {
      var i :| 0 <= i < 6 && nb.Slot(i).Some? && !FacingFull(i, nb.Slot(i).value);
      assert nb.Slot(i) == Resident(w, cp.Add(SlotOffset(i)));
    }
  }

  /** A chunk none of whose neighbours is resident is never visible: `all` holds vacuously. */
  lemma LoneChunkInvisible(w: World, vp: seq<real>, inFrustum: Vec3i -> bool, cp: Vec3i)
    requires WorldValid(w) && w.previousVp != Some(vp)
    requires forall i :: 0 <= i < 6 ==> cp.Add(SlotOffset(i)) !in w.chunks
    ensures cp !in UpdateMeshVisibility(w, vp, inFrustum).meshVisible
  {
    var nb := NeighboursOf(w, cp);
    assert nb == Neighbours(None, None, None, None, None, None) by {
      assert nb.Slot(0) == None && nb.Slot(1) == None && nb.Slot(2) == None;
      assert nb.Slot(3) == None && nb.Slot(4) == None && nb.Slot(5) == None;
    }
    AllVacuous(FacingFull);
  }

  // ---------------------------------------------------------------------------
  // generate_meshes
  // ---------------------------------------------------------------------------

  /** Some resident chunk is dirty (`is_dirty` of the world). */
  predicate AnyDirty(w: World) {
    exists cp :: cp in w.chunks && w.chunks[cp].isDirty
  }

  /** A chunk `generate_meshes` rebuilds: dirty, not all Air, and not enclosed. */
  predicate Remesh(w: World, cp: Vec3i)
    requires WorldValid(w) && cp in w.chunks
  {
    w.chunks[cp].isDirty && !ChunkIsEmpty(w.chunks[cp]) && !Enclosed(w, cp)
  }

  /** The chunks `generate_meshes` rebuilds. */
  function RemeshSet(w: World): (todo: set<Vec3i>)
    requires WorldValid(w)
    ensures forall cp :: cp in todo <==> cp in w.chunks && Remesh(w, cp)
  {
    set cp | cp in w.chunks && Remesh(w, cp)
  }

  /** The mesh of a resident chunk against its resident neighbours. */
  function MeshOf(w: World, cp: Vec3i, defs: map<string, ModelDef>): Mesh<ChunkVertex>
    requires WorldValid(w) && HasShapeModels(defs) && SixFacesEach(defs) && cp in w.chunks
  {
    GenerateChunkMesh(w.chunks[cp], NeighboursOf(w, cp), defs)
  }

  /** The chunk table with the dirty flag of every chunk in `todo` cleared. */
  function ClearDirty(chunks: map<Vec3i, Chunk>, todo: set<Vec3i>): (r: map<Vec3i, Chunk>)
    ensures r.Keys == chunks.Keys
    ensures forall cp :: cp in r ==> r[cp].blocks == chunks[cp].blocks && r[cp].foliage == chunks[cp].foliage
    ensures forall cp :: cp in r ==> r[cp].isDirty == (chunks[cp].isDirty && cp !in todo)
  {
    map cp | cp in chunks :: if cp in todo then chunks[cp].(isDirty := false) else chunks[cp]
  }

  /** Buffers left in the reuse pool after `n` meshes took one each while any remained. */
  function TakeSpare(spare: nat, n: nat): (r: nat)
    ensures r <= spare
    ensures spare >= n ==> r + n == spare
    ensures spare < n ==> r == 0
  {
    if spare >= n then spare - n else 0
  }

  /**
   * `generate_meshes`: nothing when no chunk is dirty; otherwise every chunk
   * to rebuild is meshed against its neighbours as they were before, its
   * dirty flag is cleared, and its mesh is stored, taking a buffer from the
   * reuse pool when it had none and the pool is not empty.
   */
  function GenerateMeshes(w: World, defs: map<string, ModelDef>): (r: World)
    requires WorldValid(w) && HasShapeModels(defs) && SixFacesEach(defs)
  {
    if !AnyDirty(w) then w
    else
      var todo := RemeshSet(w);
      var meshes := map cp | cp in w.meshes.Keys + todo :: if cp in todo then MeshOf(w, cp, defs) else w.meshes[cp];
      w.(chunks := ClearDirty(w.chunks, todo), meshes := meshes,
         spareMeshes := TakeSpare(w.spareMeshes, |todo - w.meshes.Keys|))
  }

  /**
   * After `generate_meshes` a rebuilt chunk is clean and holds the mesh of
   * its blocks against its neighbours; an empty or enclosed chunk keeps its
   * dirty flag and its old mesh; with no dirty chunk the world is unchanged;
   * every mesh still belongs to a resident chunk.
   */
  lemma GenerateMeshesSpec(w: World, defs: map<string, ModelDef>, cp: Vec3i)
    requires WorldValid(w) && HasShapeModels(defs) && SixFacesEach(defs)
    ensures var r := GenerateMeshes(w, defs);
      && WorldValid(r)
      && (!AnyDirty(w) ==> r == w)
      && (MeshesResident(w) ==> MeshesResident(r))
      && (cp in w.chunks && Remesh(w, cp) ==>
            !r.chunks[cp].isDirty && r.chunks[cp].blocks == w.chunks[cp].blocks
            && cp in r.meshes && r.meshes[cp] == MeshOf(w, cp, defs))
      && (cp in w.chunks && !Remesh(w, cp) ==>
            r.chunks[cp] == w.chunks[cp] && (cp in r.meshes <==> cp in w.meshes)
            && (cp in w.meshes ==> r.meshes[cp] == w.meshes[cp]))
  {
  }

  /** After `generate_meshes` no chunk it would rebuild is left dirty. */
  lemma GenerateMeshesSettles(w: World, defs: map<string, ModelDef>, cp: Vec3i)
    requires WorldValid(w) && HasShapeModels(defs) && SixFacesEach(defs)
    requires cp in w.chunks && w.chunks[cp].isDirty
    ensures var r := GenerateMeshes(w, defs);
      !r.chunks[cp].isDirty <==> !ChunkIsEmpty(w.chunks[cp]) && !Enclosed(w, cp)
  {
  }
}
