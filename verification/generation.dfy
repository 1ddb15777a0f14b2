/**
 * The placement half of chunk generation in the split revision: after the
 * terrain fill, a tree pass plants trunks and leaf crowns. Every placement is
 * routed either into the chunk being generated or, when it lands in another
 * chunk, into the overspill table keyed by (target chunk, local position),
 * where the first placement of a key wins.
 *
 * Terrain noise and the random generator are inputs: the terrain arrives as
 * the filled slot array, and the generator as two streams indexed by the
 * number of draws taken so far.
 */
module Generation {
  import opened Coords
  import opened Blocks
  import opened Packing
  import opened FlatChunk

  /** Blocks generated for other chunks, keyed by (target chunk, local position). */
  type Overspill = map<(Vec3i, Vec3i), Block>

  /**
   * The random generator as two streams: `Coin(k)` is `random_bool(0.005)`
   * and `Height(k)` is `random_range(4..7)` when they are the k-th draw.
   */
  datatype Rng = Rng(coin: nat -> bool, height: nat -> nat)

  /** `get_chunk_and_local_coords`: the Euclidean chunk and the local position inside it. */
  function ChunkAndLocal(g: Vec3i): (r: (Vec3i, Vec3i))
    ensures InChunk(r.1) && r.0.Scale(ChunkSize).Add(r.1) == g
  {
    Decompose(g);
    (ChunkOf(g), LocalOf(g))
  }

  /** The global position of local cell `l` of chunk `c`. */
  function Global(c: Vec3i, l: Vec3i): Vec3i {
    c.Scale(ChunkSize).Add(l)
  }

  /** The generator state threaded through the pass: slots, overspill and draws taken. */
  datatype GenState = GenState(blocks: seq<Block>, outside: Overspill, draws: nat)

  predicate Sized(st: GenState) {
    |st.blocks| == Volume
  }

  /**
   * `place_block`: a block for this chunk is written when its local y is in
   * range; a block for another chunk is recorded only if its key is new.
   */
  function PlaceBlock(st: GenState, chunkPos: Vec3i, target: Vec3i, local: Vec3i, b: Block): (r: GenState)
    requires Sized(st) && 0 <= local.x < 16 && 0 <= local.z < 16
    ensures Sized(r) && r.draws == st.draws
    ensures target == chunkPos && 0 <= local.y < 16 ==>
      r.outside == st.outside && r.blocks[Index(local)] == b
      && forall i :: 0 <= i < Volume && i != Index(local) ==> r.blocks[i] == st.blocks[i]
    ensures target == chunkPos && !(0 <= local.y < 16) ==> r == st
    ensures target != chunkPos ==>
      r.blocks == st.blocks
      && r.outside.Keys == st.outside.Keys + {(target, local)}
      && (forall k :: k in st.outside ==> r.outside[k] == st.outside[k])
      && ((target, local) !in st.outside ==> r.outside[(target, local)] == b)
  {
    if target == chunkPos then
      if 0 <= local.y < 16 then GenState(st.blocks[Index(local) := b], st.outside, st.draws) else st
    else if (target, local) in st.outside then st
    else GenState(st.blocks, st.outside[(target, local) := b], st.draws)
  }

  /** Where a block placed at global g ends up: in this chunk's slots, or under its key in the overspill. */
  lemma PlacementRouted(st: GenState, chunkPos: Vec3i, g: Vec3i, b: Block)
    requires Sized(st)
    ensures var (t, l) := ChunkAndLocal(g);
      var r := PlaceBlock(st, chunkPos, t, l, b);
      && (t == chunkPos ==> r.blocks[Index(l)] == b && r.outside == st.outside)
      && (t != chunkPos ==> (t, l) in r.outside && r.blocks == st.blocks)
      && Global(t, l) == g
  {
  }

  // ---------------------------------------------------------------------------
  // Trees
  // ---------------------------------------------------------------------------

  /** Trunk cells ty..h above the grass block at global g, each an OakLog. */
  function Trunk(st: GenState, chunkPos: Vec3i, g: Vec3i, ty: nat, h: nat): (r: GenState)
    requires Sized(st)
    ensures Sized(r) && r.draws == st.draws
    decreases h + 1 - ty
  {
    if ty > h || ty == 0 then st
    else
      var (t, l) := ChunkAndLocal(Vec3i(g.x, g.y + ty, g.z));
      Trunk(PlaceBlock(st, chunkPos, t, l, OakLog), chunkPos, g, ty + 1, h)
  }

  /** The k-th offset of the leaf loops: x outermost, then z, then y, each over -2..=2. */
  function LeafOffset(k: nat): (o: Vec3i)
    requires k < 125
    ensures -2 <= o.x <= 2 && -2 <= o.y <= 2 && -2 <= o.z <= 2
  {
    Vec3i(k / 25 - 2, k % 5 - 2, (k / 5) % 5 - 2)
  }

  function Abs(v: int): nat {
    if v < 0 then -v else v
  }

  /** The leaf crown: offsets in [-2, 2] on each axis whose taxicab length is at most 3. */
  predicate InCrown(o: Vec3i) {
    -2 <= o.x <= 2 && -2 <= o.y <= 2 && -2 <= o.z <= 2 && Abs(o.x) + Abs(o.y) + Abs(o.z) <= 3
  }

  function Sub(a: Vec3i, b: Vec3i): Vec3i {
    Vec3i(a.x - b.x, a.y - b.y, a.z - b.z)
  }

  /**
   * One step of the leaf loops: an offset inside the diamond places Leaves
   * on an Air cell of this chunk, or records them for another chunk.
   */
  function LeafStep(st: GenState, chunkPos: Vec3i, top: Vec3i, k: nat): (r: GenState)
    requires Sized(st) && k < 125
    ensures Sized(r) && r.draws == st.draws
  {
    var o := LeafOffset(k);
    if Abs(o.x) + Abs(o.z) + Abs(o.y) > 3 then st
    else
      var (t, l) := ChunkAndLocal(top.Add(o));
      var isAir := if t == chunkPos then l.y < 16 && st.blocks[Index(l)] == Air else true;
      if isAir then PlaceBlock(st, chunkPos, t, l, Leaves) else st
  }

  /** The leaf loops from step k on. */
  function Crown(st: GenState, chunkPos: Vec3i, top: Vec3i, k: nat): (r: GenState)
    requires Sized(st) && k <= 125
    ensures Sized(r) && r.draws == st.draws
    decreases 125 - k
  {
    if k == 125 then st else Crown(LeafStep(st, chunkPos, top, k), chunkPos, top, k + 1)
  }

  /** A tree of height h on the grass block at g: the trunk, then the crown; it only grows trees. */
  function Tree(st: GenState, chunkPos: Vec3i, g: Vec3i, h: nat): (r: GenState)
    requires Sized(st)
    ensures Grows(st, r, chunkPos) && r.draws == st.draws
  {
    var s1 := Trunk(st, chunkPos, g, 1, h);
    TrunkGrows(st, chunkPos, g, 1, h);
    CrownGrows(s1, chunkPos, CrownTop(g, h), 0);
    GrowsTrans(st, s1, Crown(s1, chunkPos, CrownTop(g, h), 0), chunkPos);
    Crown(s1, chunkPos, CrownTop(g, h), 0)
  }

  /** The centre of the crown of a tree of height h on the grass block at g. */
  function CrownTop(g: Vec3i, h: nat): Vec3i {
    Vec3i(g.x, g.y + h, g.z)
  }

  // ---------------------------------------------------------------------------
  // The column scan
  // ---------------------------------------------------------------------------

  /**
   * What the scan does at the first non-Air cell of a column, at local y:
   * Grass draws a coin, and a successful coin draws a height and plants a tree.
   */
  function Plant(st: GenState, chunkPos: Vec3i, rng: Rng, x: nat, z: nat, y: nat): (r: GenState)
    requires Sized(st) && x < 16 && y < 16 && z < 16
    ensures Grows(st, r, chunkPos)
  {
    var b := st.blocks[Index(Vec3i(x, y, z))];
    if b != Grass then
      GrowsByDraws(st, st, chunkPos);
      st
    else if !rng.coin(st.draws) then
      GrowsByDraws(st, GenState(st.blocks, st.outside, st.draws + 1), chunkPos);
      GenState(st.blocks, st.outside, st.draws + 1)
    else
      var h := rng.height(st.draws + 1);
      var drawn := GenState(st.blocks, st.outside, st.draws + 2);
      var g := Global(chunkPos, Vec3i(x, y, z));
      GrowsByDraws(st, drawn, chunkPos);
      GrowsTrans(st, drawn, Tree(drawn, chunkPos, g, h), chunkPos);
      Tree(drawn, chunkPos, g, h)
  }

  /** The inner loop over y from the top down: it ends at the first cell that is not Air. */
  function ScanColumn(st: GenState, chunkPos: Vec3i, rng: Rng, x: nat, z: nat, y: int): (r: GenState)
    requires Sized(st) && x < 16 && z < 16 && y < 16
    ensures Sized(r)
    decreases y + 1
  {
    if y < 0 then st
    else if st.blocks[Index(Vec3i(x, y, z))] != Air then Plant(st, chunkPos, rng, x, z, y)
    else ScanColumn(st, chunkPos, rng, x, z, y - 1)
  }

  /** The highest local y at or below `y` of column (x, z) that is not Air, or -1 when there is none. */
  function TopSolid(blocks: seq<Block>, x: nat, z: nat, y: int): (t: int)
    requires |blocks| == Volume && x < 16 && z < 16 && y < 16
    ensures -1 <= t <= y || (y < -1 && t == -1)
    ensures t >= 0 ==> blocks[Index(Vec3i(x, t, z))] != Air
    ensures forall y' :: t < y' <= y ==> blocks[Index(Vec3i(x, y', z))] == Air
    decreases y + 1
  {
    if y < 0 then -1
    else if blocks[Index(Vec3i(x, y, z))] != Air then y
    else TopSolid(blocks, x, z, y - 1)
  }

  /** The scan acts exactly at the topmost non-Air cell of the column and nowhere else; an Air column is left alone. */
  lemma {:induction false} ScanStopsAtTop(st: GenState, chunkPos: Vec3i, rng: Rng, x: nat, z: nat, y: int)
    requires Sized(st) && x < 16 && z < 16 && y < 16
    ensures var t := TopSolid(st.blocks, x, z, y);
      ScanColumn(st, chunkPos, rng, x, z, y) == if t < 0 then st else Plant(st, chunkPos, rng, x, z, t)
    decreases y + 1
  {
    if y >= 0 && st.blocks[Index(Vec3i(x, y, z))] == Air {
      ScanStopsAtTop(st, chunkPos, rng, x, z, y - 1);
    }
  }

  /** The outer loops over columns, x outermost then z, from column `col` on. */
  function ColumnPass(st: GenState, chunkPos: Vec3i, rng: Rng, col: nat): (r: GenState)
    requires Sized(st) && col <= 256
    ensures Sized(r)
    decreases 256 - col
  {
    if col == 256 then st
    else ColumnPass(ScanColumn(st, chunkPos, rng, col / 16, col % 16, 15), chunkPos, rng, col + 1)
  }

  /**
   * The tree pass of `Chunk::new` at chunk position `chunkPos`, from the
   * terrain-filled slots: a dirty chunk, and the overspill for other chunks.
   */
  function PlaceTrees(chunkPos: Vec3i, terrain: seq<Block>, foliage: seq<Color>, rng: Rng): (r: (Chunk, Overspill))
    requires |terrain| == Volume && |foliage| == Columns
    ensures Valid(r.0) && r.0.isDirty && r.0.foliage == foliage
  {
    var st := ColumnPass(GenState(terrain, map[], 0), chunkPos, rng, 0);
    (Chunk(true, st.blocks, foliage), st.outside)
  }

  // ---------------------------------------------------------------------------
  // What the pass may change
  // ---------------------------------------------------------------------------

  predicate TreeBlock(b: Block) {
    b == OakLog || b == Leaves
  }

  /**
   * From a to b the pass only grew trees: every slot that changed now holds
   * a tree block, every new overspill entry is a tree block for a cell of
   * another chunk, and every earlier entry is kept as it was.
   */
  predicate Grows(a: GenState, b: GenState, chunkPos: Vec3i) {
    && Sized(a) && Sized(b)
    && (forall i :: 0 <= i < Volume && b.blocks[i] != a.blocks[i] ==> TreeBlock(b.blocks[i]))
    && (forall k :: k in a.outside ==> k in b.outside && b.outside[k] == a.outside[k])
    && (forall k :: k in b.outside && k !in a.outside ==> TreeBlock(b.outside[k]) && k.0 != chunkPos && InChunk(k.1))
  }

  lemma GrowsTrans(a: GenState, b: GenState, c: GenState, chunkPos: Vec3i)
    requires Grows(a, b, chunkPos) && Grows(b, c, chunkPos)
    ensures Grows(a, c, chunkPos)
  {
  }

  lemma PlaceGrows(st: GenState, chunkPos: Vec3i, g: Vec3i, b: Block)
    requires Sized(st) && TreeBlock(b)
    ensures var (t, l) := ChunkAndLocal(g);
      Grows(st, PlaceBlock(st, chunkPos, t, l, b), chunkPos)
  {
  }

  lemma {:induction false} TrunkGrows(st: GenState, chunkPos: Vec3i, g: Vec3i, ty: nat, h: nat)
    requires Sized(st)
    ensures Grows(st, Trunk(st, chunkPos, g, ty, h), chunkPos)
    decreases h + 1 - ty
  {
    if ty <= h && ty != 0 {
      var g' := Vec3i(g.x, g.y + ty, g.z);
      var (t, l) := ChunkAndLocal(g');
      var s1 := PlaceBlock(st, chunkPos, t, l, OakLog);
      assert Trunk(st, chunkPos, g, ty, h) == Trunk(s1, chunkPos, g, ty + 1, h);
      PlaceGrows(st, chunkPos, g', OakLog);
      TrunkGrows(s1, chunkPos, g, ty + 1, h);
      GrowsTrans(st, s1, Trunk(s1, chunkPos, g, ty + 1, h), chunkPos);
    }
  }

  lemma {:induction false} CrownGrows(st: GenState, chunkPos: Vec3i, top: Vec3i, k: nat)
    requires Sized(st) && k <= 125
    ensures Grows(st, Crown(st, chunkPos, top, k), chunkPos)
    decreases 125 - k
  {
    if k < 125 {
      var s1 := LeafStep(st, chunkPos, top, k);
      PlaceGrows(st, chunkPos, top.Add(LeafOffset(k)), Leaves);
      assert Grows(st, s1, chunkPos);
      CrownGrows(s1, chunkPos, top, k + 1);
      GrowsTrans(st, s1, Crown(s1, chunkPos, top, k + 1), chunkPos);
    }
  }

  lemma GrowsByDraws(a: GenState, b: GenState, chunkPos: Vec3i)
    requires Sized(a) && b.blocks == a.blocks && b.outside == a.outside
    ensures Grows(a, b, chunkPos)
  {
  }

  lemma {:induction false} ScanGrows(st: GenState, chunkPos: Vec3i, rng: Rng, x: nat, z: nat, y: int)
    requires Sized(st) && x < 16 && z < 16 && y < 16
    ensures Grows(st, ScanColumn(st, chunkPos, rng, x, z, y), chunkPos)
    decreases y + 1
  {
    if y >= 0 && st.blocks[Index(Vec3i(x, y, z))] == Air {
      ScanGrows(st, chunkPos, rng, x, z, y - 1);
    }
  }

  lemma {:induction false} ColumnPassGrows(st: GenState, chunkPos: Vec3i, rng: Rng, col: nat)
    requires Sized(st) && col <= 256
    ensures Grows(st, ColumnPass(st, chunkPos, rng, col), chunkPos)
    decreases 256 - col
  {
    if col < 256 {
      var s1 := ScanColumn(st, chunkPos, rng, col / 16, col % 16, 15);
      ScanGrows(st, chunkPos, rng, col / 16, col % 16, 15);
      ColumnPassGrows(s1, chunkPos, rng, col + 1);
      GrowsTrans(st, s1, ColumnPass(s1, chunkPos, rng, col + 1), chunkPos);
    }
  }

  /**
   * The tree pass only adds trees: a slot that differs from the terrain holds
   * an OakLog or Leaves, and every overspill entry is a tree block for a local
   * cell of some other chunk.
   */
  lemma PlaceTreesOnlyTrees(chunkPos: Vec3i, terrain: seq<Block>, foliage: seq<Color>, rng: Rng)
    requires |terrain| == Volume && |foliage| == Columns
    ensures var (c, spill) := PlaceTrees(chunkPos, terrain, foliage, rng);
      && (forall i :: 0 <= i < Volume && c.blocks[i] != terrain[i] ==> TreeBlock(c.blocks[i]))
      && (forall k :: k in spill ==> TreeBlock(spill[k]) && k.0 != chunkPos && InChunk(k.1))
  {
    ColumnPassGrows(GenState(terrain, map[], 0), chunkPos, rng, 0);
  }

  // ---------------------------------------------------------------------------
  // The leaf crown
  // ---------------------------------------------------------------------------

  /** The loop step at which offset o of the crown box comes up. */
  function OffsetStep(o: Vec3i): (k: nat)
    requires -2 <= o.x <= 2 && -2 <= o.y <= 2 && -2 <= o.z <= 2
    ensures k < 125 && LeafOffset(k) == o
  {
    var k := (o.x + 2) * 25 + (o.z + 2) * 5 + (o.y + 2);
    DivModUnique(k, 25, o.x + 2, (o.z + 2) * 5 + (o.y + 2));
    DivModUnique(k, 5, (o.x + 2) * 5 + (o.z + 2), o.y + 2);
    DivModUnique((o.x + 2) * 5 + (o.z + 2), 5, o.x + 2, o.z + 2);
    k
  }

  lemma DivModUnique(n: int, d: int, q: int, r: int)
    requires d == 5 || d == 25
    requires 0 <= r < d && n == q * d + r
    ensures n / d == q && n % d == r
  {
  }

  /** The cell at g has been given a block: a non-Air slot in this chunk, or an overspill entry for another. */
  predicate Covered(st: GenState, chunkPos: Vec3i, g: Vec3i)
    requires Sized(st)
  {
    var (t, l) := ChunkAndLocal(g);
    if t == chunkPos then st.blocks[Index(l)] != Air else (t, l) in st.outside
  }

  lemma LeafStepKeepsCovered(st: GenState, chunkPos: Vec3i, top: Vec3i, k: nat, g: Vec3i)
    requires Sized(st) && k < 125 && Covered(st, chunkPos, g)
    ensures Covered(LeafStep(st, chunkPos, top, k), chunkPos, g)
  {
    var r := LeafStep(st, chunkPos, top, k);
    var (t, l) := ChunkAndLocal(g);
    if t == chunkPos {
      PlaceGrows(st, chunkPos, top.Add(LeafOffset(k)), Leaves);
      assert 0 <= Index(l) < Volume;
    }
  }

  lemma {:induction false} CrownKeepsCovered(st: GenState, chunkPos: Vec3i, top: Vec3i, k: nat, g: Vec3i)
    requires Sized(st) && k <= 125 && Covered(st, chunkPos, g)
    ensures Covered(Crown(st, chunkPos, top, k), chunkPos, g)
    decreases 125 - k
  {
    if k < 125 {
      LeafStepKeepsCovered(st, chunkPos, top, k, g);
      CrownKeepsCovered(LeafStep(st, chunkPos, top, k), chunkPos, top, k + 1, g);
    }
  }

  lemma LeafStepCovers(st: GenState, chunkPos: Vec3i, top: Vec3i, o: Vec3i)
    requires Sized(st) && InCrown(o)
    ensures Covered(LeafStep(st, chunkPos, top, OffsetStep(o)), chunkPos, top.Add(o))
  {
    var g := top.Add(o);
    var (t, l) := ChunkAndLocal(g);
    assert 0 <= Index(l) < Volume;
  }

  /** The leaf step for offset o covers its cell, and the later steps keep it covered. */
  lemma CrownCoversAt(st: GenState, chunkPos: Vec3i, top: Vec3i, o: Vec3i)
    requires Sized(st) && InCrown(o)
    ensures Covered(Crown(st, chunkPos, top, OffsetStep(o)), chunkPos, top.Add(o))
  {
    var s1 := LeafStep(st, chunkPos, top, OffsetStep(o));
    LeafStepCovers(st, chunkPos, top, o);
    CrownKeepsCovered(s1, chunkPos, top, OffsetStep(o) + 1, top.Add(o));
  }

  lemma {:induction false} CrownCoversFrom(st: GenState, chunkPos: Vec3i, top: Vec3i, k: nat, o: Vec3i)
    requires Sized(st) && InCrown(o) && k <= OffsetStep(o)
    ensures Covered(Crown(st, chunkPos, top, k), chunkPos, top.Add(o))
    decreases 125 - k
  {
    if k == OffsetStep(o) {
      CrownCoversAt(st, chunkPos, top, o);
    } else {
      CrownCoversFrom(LeafStep(st, chunkPos, top, k), chunkPos, top, k + 1, o);
    }
  }

  /**
   * Every cell of the crown is covered once the leaf loops are done: cells in
   * this chunk are no longer Air, and cells of other chunks have an overspill
   * entry (a Leaves entry, unless an earlier placement took the key first).
   */
  lemma CrownCoversDiamond(st: GenState, chunkPos: Vec3i, top: Vec3i, o: Vec3i)
    requires Sized(st) && InCrown(o)
    ensures Covered(Crown(st, chunkPos, top, 0), chunkPos, top.Add(o))
  {
    CrownCoversFrom(st, chunkPos, top, 0, o);
  }

  /**
   * And nothing outside the crown is touched: a slot the leaf loops change
   * was Air, now holds Leaves, and lies in the diamond around the crown's
   * centre; a new overspill entry holds Leaves for a cell in the diamond.
   */
  lemma {:induction false} CrownStaysInDiamond(st: GenState, chunkPos: Vec3i, top: Vec3i, k: nat)
    requires Sized(st) && k <= 125
    ensures InDiamond(st, Crown(st, chunkPos, top, k), chunkPos, top)
    decreases 125 - k
  {
    if k < 125 {
      var s1 := LeafStep(st, chunkPos, top, k);
      LeafStepInDiamond(st, chunkPos, top, k);
      CrownStaysInDiamond(s1, chunkPos, top, k + 1);
      InDiamondTrans(st, s1, Crown(s1, chunkPos, top, k + 1), chunkPos, top);
    }
  }

  /**
   * From a to b only the crown around top grew: a changed slot went from Air
   * to Leaves inside the diamond, a new overspill entry is Leaves for a cell
   * inside the diamond, and every earlier entry is kept.
   */
  predicate InDiamond(a: GenState, b: GenState, chunkPos: Vec3i, top: Vec3i) {
    && Sized(a) && Sized(b)
    && (forall i :: 0 <= i < Volume && b.blocks[i] != a.blocks[i] ==>
          a.blocks[i] == Air && b.blocks[i] == Leaves && InCrown(Sub(Global(chunkPos, PosOf(i)), top)))
    && (forall key :: key in b.outside && key !in a.outside ==>
          b.outside[key] == Leaves && InCrown(Sub(Global(key.0, key.1), top)))
    && (forall key :: key in a.outside ==> key in b.outside && b.outside[key] == a.outside[key])
  }

  lemma InDiamondTrans(a: GenState, b: GenState, c: GenState, chunkPos: Vec3i, top: Vec3i)
    requires InDiamond(a, b, chunkPos, top) && InDiamond(b, c, chunkPos, top)
    ensures InDiamond(a, c, chunkPos, top)
  {
  }

  lemma LeafStepInDiamond(st: GenState, chunkPos: Vec3i, top: Vec3i, k: nat)
    requires Sized(st) && k < 125
    ensures InDiamond(st, LeafStep(st, chunkPos, top, k), chunkPos, top)
  {
    var o := LeafOffset(k);
    var r := LeafStep(st, chunkPos, top, k);
    if Abs(o.x) + Abs(o.z) + Abs(o.y) <= 3 {
      var (t, l) := ChunkAndLocal(top.Add(o));
      assert Sub(Global(t, l), top) == o;
      if t == chunkPos {
        assert r.outside == st.outside;
        if l.y < 16 && st.blocks[Index(l)] == Air {
          IndexBijection(l, Index(l));
          forall i | 0 <= i < Volume && r.blocks[i] != st.blocks[i]
            ensures st.blocks[i] == Air && r.blocks[i] == Leaves && InCrown(Sub(Global(chunkPos, PosOf(i)), top))
          {
            assert i == Index(l);
          }
        } else {
          assert r == st;
        }
      } else {
        assert r.blocks == st.blocks;
      }
    } else {
      assert r == st;
    }
  }
}
