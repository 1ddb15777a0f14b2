/**
 * The chunk of the client/server revision (mp3d-core): 4096 slots, each a
 * 16-bit index into a palette of distinct blocks. A new chunk starts with the
 * palette Air, Grass, Dirt, Stone and terrain layered by a height and a cave
 * oracle; writing a block reuses its palette entry or appends a new one.
 */
module PaletteChunk {
  import opened Wrappers
  import opened Coords
  import opened Generation

  /** A block colour. The source keeps `f32` components; they are exact reals here. */
  datatype Color = Color(r: real, g: real, b: real)

  /** `mp3d_core::block::Block`: whether it fills its cell, and its colour. */
  datatype CoreBlock = CoreBlock(full: bool, color: Color)

  const Air: CoreBlock := CoreBlock(false, Color(0.0, 0.0, 0.0))
  const Grass: CoreBlock := CoreBlock(true, Color(0.2, 0.9, 0.2))
  const Dirt: CoreBlock := CoreBlock(true, Color(0.59, 0.29, 0.0))
  const Stone: CoreBlock := CoreBlock(true, Color(0.5, 0.5, 0.55))

  /** The palette every new chunk starts with; slot value k names entry k. */
  const InitialPalette: seq<CoreBlock> := [Air, Grass, Dirt, Stone]

  const Volume: nat := 4096

  /** Slots are `u16`. */
  const U16Limit: nat := 0x1_0000

  /** `block_palette` and `blocks`. */
  datatype Chunk = Chunk(palette: seq<CoreBlock>, blocks: seq<nat>)

  // ---------------------------------------------------------------------------
  // The slot layout x + 16 * (y + 16 * z)
  // ---------------------------------------------------------------------------

  function Index(l: Vec3i): (i: nat)
    requires InChunk(l)
    ensures i < Volume
  {
    l.x + 16 * (l.y + 16 * l.z)
  }

  /** The local position stored at slot `i`. */
  function PosOf(i: nat): (l: Vec3i)
    requires i < Volume
    ensures InChunk(l)
  {
    Vec3i(i % 16, (i / 16) % 16, i / 256)
  }

  lemma DivMod(n: int, q: int, r: int)
    requires 0 <= r < 16 && n == q * 16 + r
    ensures n / 16 == q && n % 16 == r
  {
  }

  lemma PosOfIndex(l: Vec3i)
    requires InChunk(l)
    ensures PosOf(Index(l)) == l
  {
    var n := Index(l);
    DivMod(n, l.y + 16 * l.z, l.x);
    DivMod(l.y + 16 * l.z, l.z, l.y);
    assert n / 256 == l.z;
  }

  lemma IndexOfPos(i: nat)
    requires i < Volume
    ensures Index(PosOf(i)) == i
  {
    var q := i / 16;
    DivMod(i, q, i % 16);
    DivMod(q, q / 16, q % 16);
    assert i / 256 == q / 16;
  }

  /** The layout is a bijection between local positions and the 4096 slots. */
  lemma IndexBijection(l: Vec3i, i: nat)
    requires InChunk(l) && i < Volume
    ensures PosOf(Index(l)) == l
    ensures Index(PosOf(i)) == i
  {
    PosOfIndex(l);
    IndexOfPos(i);
  }

  lemma IndexInjective(l1: Vec3i, l2: Vec3i)
    requires InChunk(l1) && InChunk(l2) && l1 != l2
    ensures Index(l1) != Index(l2)
  {
    PosOfIndex(l1);
    PosOfIndex(l2);
  }

  // ---------------------------------------------------------------------------
  // The palette invariant
  // ---------------------------------------------------------------------------

  predicate Distinct(p: seq<CoreBlock>) {
    forall i, j :: 0 <= i < j < |p| ==> p[i] != p[j]
  }

  /** 4096 slots, each naming an entry of a palette without repeats. */
  predicate Valid(c: Chunk) {
    && |c.blocks| == Volume
    && Distinct(c.palette)
    && (forall i :: 0 <= i < |c.blocks| ==> c.blocks[i] < |c.palette|)
  }

  /** Every slot value fits the `u16` the slots are stored in. */
  predicate FitsU16(c: Chunk) {
    forall i :: 0 <= i < |c.blocks| ==> c.blocks[i] < U16Limit
  }

  // ---------------------------------------------------------------------------
  // Chunk::new
  // ---------------------------------------------------------------------------

  /**
   * The noise samples `Chunk::new` takes: the column height (already
   * truncated to an integer) and the cave test, both at global coordinates.
   */
  datatype Terrain = Terrain(height: (int, int) -> int, cave: Vec3i -> bool)

  /** The initial palette entry of a global position: caves are air, then three layers below the surface. */
  function TerrainSlot(g: Vec3i, t: Terrain): nat {
    var h := t.height(g.x, g.z);
    if t.cave(g) then 0
    else if g.y < h - 3 then 3
    else if g.y < h - 1 then 2
    else if g.y < h then 1
    else 0
  }

  /** `Chunk::new`. */
  function NewChunk(cp: Vec3i, t: Terrain): (c: Chunk)
    ensures Valid(c) && FitsU16(c) && c.palette == InitialPalette
  {
    Chunk(InitialPalette, seq(Volume, i requires 0 <= i < Volume => TerrainSlot(Global(cp, PosOf(i)), t)))
  }

  // ---------------------------------------------------------------------------
  // get_block and set_block
  // ---------------------------------------------------------------------------

  /** `get_block`: the palette entry the slot names. */
  function GetBlock(c: Chunk, l: Vec3i): (b: CoreBlock)
    requires Valid(c) && InChunk(l)
    ensures b in c.palette
  {
    c.palette[c.blocks[Index(l)]]
  }

  /** `iter().position(|b| *b == block)`: the first palette index holding `b`. */
  function Position(p: seq<CoreBlock>, b: CoreBlock): (r: Option<nat>)
    ensures r.Some? ==> r.value < |p| && p[r.value] == b && forall j :: 0 <= j < r.value ==> p[j] != b
    ensures r.None? <==> b !in p
  {
    if |p| == 0 then None
    else if p[0] == b then Some(0)
    else match Position(p[1..], b)
      case None => None
      case Some(k) => Some(k + 1)
  }

  /**
   * `set_block`: point the slot at the block's palette entry, appending the
   * block first when the palette lacks it. The stored index is the exact
   * palette position.
   */
  function SetBlock(c: Chunk, l: Vec3i, b: CoreBlock): (r: Chunk)
    requires Valid(c) && InChunk(l)
    ensures Valid(r)
    ensures b in c.palette ==> r.palette == c.palette
    ensures b !in c.palette ==> r.palette == c.palette + [b]
  {
    var i := Index(l);
    match Position(c.palette, b)
    case Some(k) => Chunk(c.palette, c.blocks[i := k])
    case None => Chunk(c.palette + [b], c.blocks[i := |c.palette|])
  }

  /**
   * `set_block` exactly as written: the new entry's index `len - 1` is cast
   * with `as u16`, which keeps the low 16 bits.
   */
  function SetBlockAsWritten(c: Chunk, l: Vec3i, b: CoreBlock): (r: Chunk)
    requires Valid(c) && FitsU16(c) && InChunk(l)
    ensures Valid(r) && FitsU16(r)
    ensures |r.palette| >= |c.palette|
  {
    var i := Index(l);
    match Position(c.palette, b)
    case Some(k) =>
      ModBelow(k, U16Limit);
      Chunk(c.palette, c.blocks[i := k % U16Limit])
    case None =>
      var p := c.palette + [b];
      ModBelow(|p| - 1, U16Limit);
      Chunk(p, c.blocks[i := (|p| - 1) % U16Limit])
  }

  lemma ModBelow(k: nat, n: nat)
    requires n > 0
    ensures k % n < n && k % n <= k
  {
  }

  /**
   * A write is read back at its position, and every other position reads as
   * before.
   */
  lemma GetSetBlock(c: Chunk, l: Vec3i, b: CoreBlock, q: Vec3i)
    requires Valid(c) && InChunk(l) && InChunk(q)
    ensures GetBlock(SetBlock(c, l, b), q) == if q == l then b else GetBlock(c, q)
  {
    if q != l {
      IndexInjective(l, q);
    }
  }

  /**
   * The palette index `set_block` computes before the cast: the block's first
   * entry, or the palette length when the block is appended.
   */
  function TargetIndex(p: seq<CoreBlock>, b: CoreBlock): (k: nat)
    ensures k <= |p| && (k < |p| <==> b in p)
    ensures k < |p| ==> p[k] == b
  {
    match Position(p, b)
    case Some(k) => k
    case None => |p|
  }

  /**
   * The write as written: every other position reads as before, and the
   * written position reads back the block exactly when its palette index
   * survives the `u16` cast, which it does whenever the palette has fewer
   * than 65536 entries.
   */
  lemma AsWrittenGetSet(c: Chunk, l: Vec3i, b: CoreBlock, q: Vec3i)
    requires Valid(c) && FitsU16(c) && InChunk(l) && InChunk(q)
    ensures q != l ==> GetBlock(SetBlockAsWritten(c, l, b), q) == GetBlock(c, q)
    ensures q == l ==> (GetBlock(SetBlockAsWritten(c, l, b), q) == b <==> TargetIndex(c.palette, b) < U16Limit)
    ensures q == l && |c.palette| < U16Limit ==> GetBlock(SetBlockAsWritten(c, l, b), q) == b
  {
    var r := SetBlockAsWritten(c, l, b);
    var k := TargetIndex(c.palette, b);
    if q != l {
      IndexInjective(l, q);
    } else {
      assert r.palette == if b in c.palette then c.palette else c.palette + [b];
      assert r.palette[k] == b;
      assert r.blocks[Index(l)] == k % U16Limit;
      ModBelow(k, U16Limit);
      if k < U16Limit {
        SmallMod(k, U16Limit);
      } else {
        assert k % U16Limit < k;
        assert r.palette[k % U16Limit] != r.palette[k];
      }
    }
  }

  /** While the palette has fewer than 65536 entries the cast loses nothing. */
  lemma AsWrittenAgrees(c: Chunk, l: Vec3i, b: CoreBlock)
    requires Valid(c) && FitsU16(c) && InChunk(l) && |c.palette| < U16Limit
    ensures SetBlockAsWritten(c, l, b) == SetBlock(c, l, b)
  {
    match Position(c.palette, b)
    case Some(k) =>
      SmallMod(k, U16Limit);
    case None =>
      SmallMod(|c.palette|, U16Limit);
      assert |c.palette + [b]| - 1 == |c.palette|;
  }

  lemma SmallMod(k: nat, n: nat)
    requires k < n
    ensures k % n == k
  {
  }

  /**
   * Once the palette holds 65536 entries, writing a block it lacks stores
   * index 0, so the cell reads back as the first palette entry, not the block.
   */
  lemma AsWrittenLosesBlock(c: Chunk, l: Vec3i, b: CoreBlock)
    requires Valid(c) && FitsU16(c) && InChunk(l) && |c.palette| == U16Limit && b !in c.palette
    ensures GetBlock(SetBlockAsWritten(c, l, b), l) == c.palette[0] != b
  {
  }

  /** A new chunk reads as the terrain layers: stone, two layers of dirt, grass, and air above or in caves. */
  lemma NewChunkLayers(cp: Vec3i, t: Terrain, l: Vec3i)
    requires InChunk(l)
    ensures var g := Global(cp, l);
      var h := t.height(g.x, g.z);
      var b := GetBlock(NewChunk(cp, t), l);
      && (b == Stone <==> !t.cave(g) && g.y < h - 3)
      && (b == Dirt <==> !t.cave(g) && h - 3 <= g.y < h - 1)
      && (b == Grass <==> !t.cave(g) && g.y == h - 1)
      && (b == Air <==> t.cave(g) || g.y >= h)
  {
    PosOfIndex(l);
    var c := NewChunk(cp, t);
    var k := TerrainSlot(Global(cp, l), t);
    assert c.blocks[Index(l)] == k;
    assert GetBlock(c, l) == InitialPalette[k];
  }
}
