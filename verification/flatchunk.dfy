/**
 * The chunk of the split revision: 16 x 16 x 16 blocks stored flat at index
 * x*256 + y*16 + z, one foliage colour per (x, z) column, and a dirty flag;
 * the boundary queries the world uses to skip enclosed chunks; and the six
 * optional neighbours a chunk is meshed against.
 */
module FlatChunk {
  import opened Wrappers
  import opened Coords
  import opened Packing
  import opened Blocks

  const Volume: int := 4096
  const Columns: int := 256

  /** The flat slot of a local position. */
  function Index(p: Vec3i): (i: int)
    requires InChunk(p)
    ensures 0 <= i < Volume
  {
    p.x * 256 + p.y * 16 + p.z
  }

  /** The local position stored at slot `i`. */
  function PosOf(i: int): (p: Vec3i)
    requires 0 <= i < Volume
    ensures InChunk(p)
  {
    Vec3i(i / 256, (i / 16) % 16, i % 16)
  }

  /** The flat layout is a bijection between local positions and the 4096 slots. */
  lemma IndexBijection(p: Vec3i, i: int)
    requires InChunk(p) && 0 <= i < Volume
    ensures PosOf(Index(p)) == p
    ensures Index(PosOf(i)) == i
  {
    PosOfIndex(p);
    IndexOfPos(i);
  }

  /** Division by 16 is determined by any quotient and remainder in range. */
  lemma DivMod16(n: int, q: int, r: int)
    requires 0 <= r < 16 && n == q * 16 + r
    ensures n / 16 == q && n % 16 == r
  {
  }

  lemma PosOfIndex(p: Vec3i)
    requires InChunk(p)
    ensures PosOf(Index(p)) == p
  {
    var n := Index(p);
    DivMod16(n, p.x * 16 + p.y, p.z);
    DivMod16(p.x * 16 + p.y, p.x, p.y);
    assert n / 256 == p.x;
  }

  lemma IndexOfPos(i: int)
    requires 0 <= i < Volume
    ensures Index(PosOf(i)) == i
  {
    var q := i / 16;
    DivMod16(i, q, i % 16);
    DivMod16(q, q / 16, q % 16);
    assert i / 256 == q / 16;
  }

  lemma IndexInjective(p: Vec3i, q: Vec3i)
    requires InChunk(p) && InChunk(q) && p != q
    ensures Index(p) != Index(q)
  {
    PosOfIndex(p);
    PosOfIndex(q);
  }

  /** The foliage slot of a column. */
  function ColumnIndex(x: int, z: int): (i: int)
    requires 0 <= x < 16 && 0 <= z < 16
    ensures 0 <= i < Columns
  {
    x * 16 + z
  }

  datatype Chunk = Chunk(isDirty: bool, blocks: seq<Block>, foliage: seq<Color>)

  /** Generation always fills all 4096 blocks and 256 columns. */
  predicate Valid(c: Chunk) {
    |c.blocks| == Volume && |c.foliage| == Columns
  }

  /** `get_block`. */
  function GetBlock(c: Chunk, p: Vec3i): Block
    requires Valid(c) && InChunk(p)
  {
    c.blocks[Index(p)]
  }

  /** `set_block`: the one slot changes, everything else stays, and the chunk becomes dirty. */
  function SetBlock(c: Chunk, p: Vec3i, b: Block): (r: Chunk)
    requires Valid(c) && InChunk(p)
    ensures Valid(r) && r.isDirty && r.foliage == c.foliage
    ensures GetBlock(r, p) == b
    ensures forall q :: InChunk(q) && q != p ==> GetBlock(r, q) == GetBlock(c, q)
  {
    var r := c.(blocks := c.blocks[Index(p) := b], isDirty := true);
    forall q | InChunk(q) && q != p
      ensures GetBlock(r, q) == GetBlock(c, q)
    {
      IndexInjective(p, q);
    }
    r
  }

  /** Writing back what a slot already holds changes nothing but the dirty flag. */
  lemma SetBlockSame(c: Chunk, p: Vec3i)
    requires Valid(c) && InChunk(p)
    ensures SetBlock(c, p, GetBlock(c, p)) == c.(isDirty := true)
  {
    assert c.blocks[Index(p) := c.blocks[Index(p)]] == c.blocks;
  }

  /** The last of two writes to a slot wins. */
  lemma SetBlockTwice(c: Chunk, p: Vec3i, a: Block, b: Block)
    requires Valid(c) && InChunk(p)
    ensures SetBlock(SetBlock(c, p, a), p, b) == SetBlock(c, p, b)
  {
  }

  // ---------------------------------------------------------------------------
  // Boundary queries
  // ---------------------------------------------------------------------------

  /** Every block of the chunk classifies as Air. */
  ghost predicate AllAir(c: Chunk)
    requires Valid(c)
  {
    forall p :: InChunk(p) ==> TypeOf(GetBlock(c, p)) == AirType
  }

  /** `is_empty`: a scan of the 4096 slots for a block that is not Air. */
  method IsEmpty(c: Chunk) returns (empty: bool)
    requires Valid(c)
    ensures empty <==> AllAir(c)
  {
    var i := 0;
    while i < Volume
      invariant 0 <= i <= Volume
      invariant forall j :: 0 <= j < i ==> TypeOf(c.blocks[j]) == AirType
    {
      if TypeOf(c.blocks[i]) != AirType {
        assert GetBlock(c, PosOf(i)) == c.blocks[i] by {
          IndexBijection(PosOf(i), i);
        }
        return false;
      }
      i := i + 1;
    }
    forall p | InChunk(p)
      ensures TypeOf(GetBlock(c, p)) == AirType
    {
      assert 0 <= Index(p) < i;
    }
    return true;
  }

  /**
   * The layer `side` names: 0 is z = 0 (-Z), 1 is z = 15 (+Z), 2 is x = 15
   * (+X), 3 is x = 0 (-X), 4 is y = 15 (+Y), 5 is y = 0 (-Y).
   */
  predicate OnSide(side: nat, p: Vec3i) {
    if side == 0 then p.z == 0
    else if side == 1 then p.z == 15
    else if side == 2 then p.x == 15
    else if side == 3 then p.x == 0
    else if side == 4 then p.y == 15
    else if side == 5 then p.y == 0
    else false
  }

  /** A side exists and every block on it is FullOpaque. */
  ghost predicate SideFull(c: Chunk, side: nat)
    requires Valid(c)
  {
    side < 6 && forall p :: InChunk(p) && OnSide(side, p) ==> TypeOf(GetBlock(c, p)) == FullOpaque
  }

  /** The cell the loops of `is_side_full` visit at step (a, b) of side `side`. */
  function SidePos(side: nat, a: int, b: int): (p: Vec3i)
    requires side < 6 && 0 <= a < 16 && 0 <= b < 16
    ensures InChunk(p) && OnSide(side, p)
  {
    if side == 0 then Vec3i(a, b, 0)
    else if side == 1 then Vec3i(a, b, 15)
    else if side == 2 then Vec3i(15, a, b)
    else if side == 3 then Vec3i(0, a, b)
    else if side == 4 then Vec3i(a, 15, b)
    else Vec3i(a, 0, b)
  }

  /** The loop steps reach every cell of the side. */
  lemma SidePosOnto(side: nat, p: Vec3i)
    requires side < 6 && InChunk(p) && OnSide(side, p)
    ensures side <= 1 ==> SidePos(side, p.x, p.y) == p
    ensures 2 <= side <= 3 ==> SidePos(side, p.y, p.z) == p
    ensures 4 <= side ==> SidePos(side, p.x, p.z) == p
  {
  }

  /** `is_side_full`: two nested loops over the side's 256 cells; a side above 5 gives false. */
  method IsSideFull(c: Chunk, side: nat) returns (full: bool)
    requires Valid(c)
    ensures full <==> SideFull(c, side)
  {
    if side > 5 {
      return false;
    }
    var a := 0;
    while a < 16
      invariant 0 <= a <= 16
      invariant forall a', b' :: 0 <= a' < a && 0 <= b' < 16 ==> TypeOf(GetBlock(c, SidePos(side, a', b'))) == FullOpaque
    {
      var b := 0;
      while b < 16
        invariant 0 <= b <= 16
        invariant forall a', b' :: 0 <= a' < a && 0 <= b' < 16 ==> TypeOf(GetBlock(c, SidePos(side, a', b'))) == FullOpaque
        invariant forall b' :: 0 <= b' < b ==> TypeOf(GetBlock(c, SidePos(side, a, b'))) == FullOpaque
      {
        if TypeOf(GetBlock(c, SidePos(side, a, b))) != FullOpaque {
          return false;
        }
        b := b + 1;
      }
      a := a + 1;
    }
    forall p | InChunk(p) && OnSide(side, p)
      ensures TypeOf(GetBlock(c, p)) == FullOpaque
    {
      SidePosOnto(side, p);
    }
    return true;
  }

  /** `is_side_full` as a value, for use inside expressions: the same 256 cells, tested in one quantifier. */
  function SideIsFull(c: Chunk, side: nat): (full: bool)
    requires Valid(c)
    ensures full <==> SideFull(c, side)
  {
    SideCellsCoverSide(c, side);
    side < 6 && forall a, b :: 0 <= a < 16 && 0 <= b < 16 ==> TypeOf(GetBlock(c, SidePos(side, a, b))) == FullOpaque
  }

  lemma SideCellsCoverSide(c: Chunk, side: nat)
    requires Valid(c)
    ensures side < 6 ==>
      ((forall a, b :: 0 <= a < 16 && 0 <= b < 16 ==> TypeOf(GetBlock(c, SidePos(side, a, b))) == FullOpaque) <==> SideFull(c, side))
  {
    if side < 6 && forall a, b :: 0 <= a < 16 && 0 <= b < 16 ==> TypeOf(GetBlock(c, SidePos(side, a, b))) == FullOpaque {
      forall p | InChunk(p) && OnSide(side, p)
        ensures TypeOf(GetBlock(c, p)) == FullOpaque
      {
        SidePosOnto(side, p);
      }
    }
  }

  /** `is_empty` as a value: no slot holds a block that is not Air. */
  function ChunkIsEmpty(c: Chunk): (empty: bool)
    requires Valid(c)
    ensures empty <==> AllAir(c)
  {
    SlotsCoverChunk(c);
    forall i :: 0 <= i < Volume ==> TypeOf(c.blocks[i]) == AirType
  }

  lemma SlotsCoverChunk(c: Chunk)
    requires Valid(c)
    ensures (forall i :: 0 <= i < Volume ==> TypeOf(c.blocks[i]) == AirType) <==> AllAir(c)
  {
    if forall i :: 0 <= i < Volume ==> TypeOf(c.blocks[i]) == AirType {
      forall p | InChunk(p)
        ensures TypeOf(GetBlock(c, p)) == AirType
      {
        assert 0 <= Index(p) < Volume;
      }
    } else {
      var i :| 0 <= i < Volume && TypeOf(c.blocks[i]) != AirType;
      IndexBijection(PosOf(i), i);
      assert GetBlock(c, PosOf(i)) == c.blocks[i];
    }
  }

  // ---------------------------------------------------------------------------
  // Neighbours
  // ---------------------------------------------------------------------------

  /** `NeighbourChunks`: the chunks at -Z, +Z, +X, -X, +Y and -Y, each possibly not resident. */
  datatype Neighbours = Neighbours(n: Option<Chunk>, s: Option<Chunk>, e: Option<Chunk>,
                                   w: Option<Chunk>, u: Option<Chunk>, d: Option<Chunk>)
  {
    /** The neighbour `all` passes as index i. */
    function Slot(i: nat): Option<Chunk>
      requires i < 6
    {
      if i == 0 then n else if i == 1 then s else if i == 2 then e
      else if i == 3 then w else if i == 4 then u else d
    }

    /** `all`: the present neighbours are tested in order n, s, e, w, u, d and the first failure ends the scan. */
    function All(f: (nat, Chunk) -> bool): bool {
      if n.Some? && !f(0, n.value) then false
      else if s.Some? && !f(1, s.value) then false
      else if e.Some? && !f(2, e.value) then false
      else if w.Some? && !f(3, w.value) then false
      else if u.Some? && !f(4, u.value) then false
      else if d.Some? && !f(5, d.value) then false
      else true
    }
  }

  /** The chunk offset of neighbour slot i. */
  function SlotOffset(i: nat): (o: Vec3i)
    requires i < 6
  {
    if i == 0 then Vec3i(0, 0, -1) else if i == 1 then Vec3i(0, 0, 1)
    else if i == 2 then Vec3i(1, 0, 0) else if i == 3 then Vec3i(-1, 0, 0)
    else if i == 4 then Vec3i(0, 1, 0) else Vec3i(0, -1, 0)
  }

  /** `all` holds exactly when every resident neighbour passes the test. */
  lemma AllIsEvery(nb: Neighbours, f: (nat, Chunk) -> bool)
    ensures nb.All(f) <==> forall i :: 0 <= i < 6 && nb.Slot(i).Some? ==> f(i, nb.Slot(i).value)
  {
    if nb.All(f) {
      forall i | 0 <= i < 6 && nb.Slot(i).Some?
        ensures f(i, nb.Slot(i).value)
      {
        if i == 0 { } else if i == 1 { } else if i == 2 { } else if i == 3 { } else if i == 4 { } else { }
      }
    } else {
      if nb.n.Some? && !f(0, nb.n.value) {
        assert nb.Slot(0) == nb.n;
      } else if nb.s.Some? && !f(1, nb.s.value) {
        assert nb.Slot(1) == nb.s;
      } else if nb.e.Some? && !f(2, nb.e.value) {
        assert nb.Slot(2) == nb.e;
      } else if nb.w.Some? && !f(3, nb.w.value) {
        assert nb.Slot(3) == nb.w;
      } else if nb.u.Some? && !f(4, nb.u.value) {
        assert nb.Slot(4) == nb.u;
      } else {
        assert nb.Slot(5) == nb.d;
      }
    }
  }

  /** With nothing resident around, `all` holds whatever the test. */
  lemma AllVacuous(f: (nat, Chunk) -> bool)
    ensures Neighbours(None, None, None, None, None, None).All(f)
  {
  }

  /**
   * Side `i` of a chunk and side `i ^ 1` of the neighbour in slot i face each
   * other: the neighbour's slot offset points across side i, and side i ^ 1
   * of the neighbour is the layer that touches this chunk.
   */
  lemma FacingSides(i: nat, p: Vec3i)
    requires i < 6 && InChunk(p) && OnSide(i, p)
    ensures var q := p.Add(SlotOffset(i));
      !InChunk(q) && OnSide(if i % 2 == 0 then i + 1 else i - 1, LocalOf(q)) && ChunkOf(q) == SlotOffset(i)
  {
    var q := p.Add(SlotOffset(i));
    EdgeWrap(q.x);
    EdgeWrap(q.y);
    EdgeWrap(q.z);
  }

  /** Euclidean division by 16 one step outside [0, 16) on either side. */
  lemma EdgeWrap(v: int)
    requires -1 <= v <= 16
    ensures v == -1 ==> v / 16 == -1 && v % 16 == 15
    ensures v == 16 ==> v / 16 == 1 && v % 16 == 0
    ensures 0 <= v < 16 ==> v / 16 == 0 && v % 16 == v
  {
    if v == -1 {
      DivMod16(v, -1, 15);
    } else if v == 16 {
      DivMod16(v, 1, 0);
    } else if v < 16 {
      DivMod16(v, 0, v);
    }
  }
}
