/**
 * The client's copy of the world (mp3d-client/src/client/world.rs and
 * chunk.rs): palette chunks with a dirty flag for re-meshing, the edits not
 * yet sent to the server, and the residency rules that decide which chunks
 * to request and which to drop around the player.
 */
module ClientWorld {
  import opened Wrappers
  import opened Coords
  import opened PaletteChunk
  import FlatChunk

  /** `RENDER_DISTANCE`, in chunks. */
  const RenderDistance: int := 8

  // ---------------------------------------------------------------------------
  // ClientChunk
  // ---------------------------------------------------------------------------

  /** `ClientChunk`: the core chunk and whether it must be re-meshed. */
  datatype ClientChunk = ClientChunk(chunk: Chunk, dirty: bool)

  /** `ClientChunk::new`, and `From<Chunk>`, which calls it: a received chunk always needs meshing. */
  function NewClientChunk(c: Chunk): (cc: ClientChunk)
    ensures cc.dirty && cc.chunk == c
  {
    ClientChunk(c, true)
  }

  function ClientGetBlock(cc: ClientChunk, l: Vec3i): (b: CoreBlock)
    requires Valid(cc.chunk) && InChunk(l)
    ensures b in cc.chunk.palette
  {
    GetBlock(cc.chunk, l)
  }

  /** `set_block`: the core chunk's write, with its `u16` cast, and the chunk becomes dirty. */
  function ClientSetBlock(cc: ClientChunk, l: Vec3i, b: CoreBlock): (r: ClientChunk)
    requires Valid(cc.chunk) && FitsU16(cc.chunk) && InChunk(l)
    ensures Valid(r.chunk) && FitsU16(r.chunk) && r.dirty
  {
    ClientChunk(SetBlockAsWritten(cc.chunk, l, b), true)
  }

  /**
   * A write through the wrapper leaves the other cells alone and marks the
   * chunk dirty; the written cell reads back the block exactly when its
   * palette index fits the `u16` slot, as it always does while the palette
   * has fewer than 65536 entries.
   */
  lemma ClientGetSet(cc: ClientChunk, l: Vec3i, b: CoreBlock, q: Vec3i)
    requires Valid(cc.chunk) && FitsU16(cc.chunk) && InChunk(l) && InChunk(q)
    ensures q != l ==> ClientGetBlock(ClientSetBlock(cc, l, b), q) == ClientGetBlock(cc, q)
    ensures q == l ==> (ClientGetBlock(ClientSetBlock(cc, l, b), q) == b <==> TargetIndex(cc.chunk.palette, b) < U16Limit)
    ensures q == l && |cc.chunk.palette| < U16Limit ==> ClientGetBlock(ClientSetBlock(cc, l, b), q) == b
    ensures ClientSetBlock(cc, l, b).dirty
  {
    AsWrittenGetSet(cc.chunk, l, b, q);
  }

  // ---------------------------------------------------------------------------
  // get_block_at and set_block_at
  // ---------------------------------------------------------------------------

  /** `ClientWorld`: resident chunks and the edits still to send. */
  datatype World = World(chunks: map<Vec3i, ClientChunk>, pending: seq<(Vec3i, CoreBlock)>)

  /** Every resident chunk is well formed and its slots fit the `u16` they are stored in. */
  ghost predicate WorldValid(w: World) {
    forall cp :: cp in w.chunks ==> Valid(w.chunks[cp].chunk) && FitsU16(w.chunks[cp].chunk)
  }

  /** `ClientWorld::new`. */
  function NewWorld(): (w: World)
    ensures WorldValid(w) && |w.chunks| == 0 && |w.pending| == 0
  {
    World(map[], [])
  }

  /** `get_block_at`: the block if its chunk is resident. */
  function GetBlockAt(w: World, p: Vec3i): (r: Option<CoreBlock>)
    requires WorldValid(w)
    ensures r.None? <==> ChunkOf(p) !in w.chunks
  {
    var cp := ChunkOf(p);
    if cp in w.chunks then Some(ClientGetBlock(w.chunks[cp], LocalOf(p))) else None
  }

  /** Mark a chunk dirty if it is resident; never create one. */
  function MarkIfResident(chunks: map<Vec3i, ClientChunk>, k: Vec3i): (r: map<Vec3i, ClientChunk>)
    ensures r.Keys == chunks.Keys
    ensures forall j :: j in r ==> r[j].chunk == chunks[j].chunk
  {
    if k in chunks then chunks[k := chunks[k].(dirty := true)] else chunks
  }

  /**
   * The neighbours `set_block_at` marks, in source order: per axis the chunk
   * below when the local coordinate is 0, else the chunk above when it is 15.
   */
  function Marks(cp: Vec3i, l: Vec3i): seq<Vec3i> {
    (if l.x == 0 then [cp.Add(Vec3i(-1, 0, 0))] else if l.x == 15 then [cp.Add(Vec3i(1, 0, 0))] else [])
    + (if l.y == 0 then [cp.Add(Vec3i(0, -1, 0))] else if l.y == 15 then [cp.Add(Vec3i(0, 1, 0))] else [])
    + (if l.z == 0 then [cp.Add(Vec3i(0, 0, -1))] else if l.z == 15 then [cp.Add(Vec3i(0, 0, 1))] else [])
  }

  function MarkAll(chunks: map<Vec3i, ClientChunk>, ks: seq<Vec3i>): (r: map<Vec3i, ClientChunk>)
    ensures r.Keys == chunks.Keys
    ensures forall j :: j in r ==> r[j].chunk == chunks[j].chunk
    decreases |ks|
  {
    if |ks| == 0 then chunks else MarkAll(MarkIfResident(chunks, ks[0]), ks[1..])
  }

  /** Marking keeps every chunk's contents; a chunk ends dirty iff it was dirty or is listed. */
  lemma {:induction false} MarkAllSpec(chunks: map<Vec3i, ClientChunk>, ks: seq<Vec3i>, k: Vec3i)
    requires k in chunks
    ensures MarkAll(chunks, ks)[k].chunk == chunks[k].chunk
    ensures MarkAll(chunks, ks)[k].dirty <==> chunks[k].dirty || k in ks
    decreases |ks|
  {
    if |ks| > 0 {
      MarkAllSpec(MarkIfResident(chunks, ks[0]), ks[1..], k);
      if k in ks && k != ks[0] {
        InTailOf(ks, k);
      }
    }
  }

  lemma InTailOf(ks: seq<Vec3i>, k: Vec3i)
    requires k in ks && k != ks[0]
    ensures k in ks[1..]
  {
    var i :| 0 <= i < |ks| && ks[i] == k;
    assert ks[1..][i - 1] == k;
  }

  /**
   * `set_block_at`: write into the chunk only if it is resident, always
   * queue the edit for the server, then mark the resident neighbours the
   * cell borders.
   */
  function SetBlockAt(w: World, p: Vec3i, b: CoreBlock): (r: World)
    requires WorldValid(w)
    ensures WorldValid(r)
  {
    var cp := ChunkOf(p);
    var l := LocalOf(p);
    var chunks := if cp in w.chunks then w.chunks[cp := ClientSetBlock(w.chunks[cp], l, b)] else w.chunks;
    World(MarkAll(chunks, Marks(cp, l)), w.pending + [(p, b)])
  }

  /** Chunk k holds a face neighbour of cell p and is not p's own chunk. */
  ghost predicate Borders(p: Vec3i, k: Vec3i) {
    k != ChunkOf(p) && exists i :: 0 <= i < 6 && ChunkOf(p.Add(FlatChunk.SlotOffset(i))) == k
  }

  /** One step along a side leaves the chunk exactly when the cell lies on that side. */
  lemma StepChunk(p: Vec3i, i: nat)
    requires i < 6
    ensures var e := FlatChunk.SlotOffset(i);
      ChunkOf(p.Add(e)) == if FlatChunk.OnSide(i, LocalOf(p)) then ChunkOf(p).Add(e) else ChunkOf(p)
  {
    var e := FlatChunk.SlotOffset(i);
    var cp := ChunkOf(p);
    var l := LocalOf(p);
    Decompose(p);
    var q := p.Add(e);
    var v := l.Add(e);
    if FlatChunk.OnSide(i, l) {
      FlatChunk.FacingSides(i, l);
      Decompose(v);
      assert v == e.Scale(ChunkSize).Add(LocalOf(v));
      DecomposeUnique(q, cp.Add(e), LocalOf(v));
    } else {
      assert InChunk(v) by {
        if i == 0 { } else if i == 1 { } else if i == 2 { } else if i == 3 { } else if i == 4 { } else { }
      }
      DecomposeUnique(q, cp, v);
    }
  }

  /** Every marked neighbour is bordered by the cell. */
  lemma MarkedBorders(p: Vec3i, k: Vec3i)
    requires k in Marks(ChunkOf(p), LocalOf(p))
    ensures Borders(p, k)
  {
    var cp := ChunkOf(p);
    var j := if k == cp.Add(Vec3i(-1, 0, 0)) then 3 else if k == cp.Add(Vec3i(1, 0, 0)) then 2
      else if k == cp.Add(Vec3i(0, -1, 0)) then 5 else if k == cp.Add(Vec3i(0, 1, 0)) then 4
      else if k == cp.Add(Vec3i(0, 0, -1)) then 0 else 1;
    StepChunk(p, j);
  }

  /** Every bordered chunk is marked. */
  lemma BordersMarked(p: Vec3i, k: Vec3i)
    requires Borders(p, k)
    ensures k in Marks(ChunkOf(p), LocalOf(p))
  {
    var i :| 0 <= i < 6 && ChunkOf(p.Add(FlatChunk.SlotOffset(i))) == k;
    StepChunk(p, i);
  }

  /** The marked neighbours are exactly the chunks the cell borders. */
  lemma MarksBorder(p: Vec3i, k: Vec3i)
    ensures k in Marks(ChunkOf(p), LocalOf(p)) <==> Borders(p, k)
  {
    if k in Marks(ChunkOf(p), LocalOf(p)) {
      MarkedBorders(p, k);
    }
    if Borders(p, k) {
      BordersMarked(p, k);
    }
  }

  /**
   * After `set_block_at` the edit is queued whether or not the chunk is
   * resident; no chunk is created; a resident chunk is dirty and reads the
   * block exactly when its palette index fits the `u16` slot; and every other resident chunk keeps its blocks and becomes dirty
   * exactly when the cell borders it.
   */
  lemma SetBlockAtSpec(w: World, p: Vec3i, b: CoreBlock, k: Vec3i)
    requires WorldValid(w)
    ensures var r := SetBlockAt(w, p, b);
      && r.pending == w.pending + [(p, b)]
      && r.chunks.Keys == w.chunks.Keys
      && (ChunkOf(p) in w.chunks ==>
            && (GetBlockAt(r, p) == Some(b) <==> TargetIndex(w.chunks[ChunkOf(p)].chunk.palette, b) < U16Limit)
            && (|w.chunks[ChunkOf(p)].chunk.palette| < U16Limit ==> GetBlockAt(r, p) == Some(b))
            && r.chunks[ChunkOf(p)].dirty)
      && (k in w.chunks && k != ChunkOf(p) ==>
            r.chunks[k].chunk == w.chunks[k].chunk && (r.chunks[k].dirty <==> w.chunks[k].dirty || Borders(p, k)))
  {
    var cp := ChunkOf(p);
    var l := LocalOf(p);
    var chunks := if cp in w.chunks then w.chunks[cp := ClientSetBlock(w.chunks[cp], l, b)] else w.chunks;
    if cp in w.chunks {
      MarkAllSpec(chunks, Marks(cp, l), cp);
      ClientGetSet(w.chunks[cp], l, b, l);
    }
    if k in w.chunks && k != cp {
      MarkAllSpec(chunks, Marks(cp, l), k);
      MarksBorder(p, k);
    }
  }

  /** A cell off every chunk border dirties no other chunk. */
  lemma InteriorMarksNothing(p: Vec3i)
    requires var l := LocalOf(p); 0 < l.x < 15 && 0 < l.y < 15 && 0 < l.z < 15
    ensures forall k :: !Borders(p, k)
  {
    forall k
      ensures !Borders(p, k)
    {
      MarksBorder(p, k);
    }
  }

  // ---------------------------------------------------------------------------
  // needs_chunks and unload_chunks
  // ---------------------------------------------------------------------------

  /** Squared length of a chunk offset; `distance_squared` is that of the difference. */
  function DistSq(a: Vec3i, b: Vec3i): int {
    (a.x - b.x) * (a.x - b.x) + (a.y - b.y) * (a.y - b.y) + (a.z - b.z) * (a.z - b.z)
  }

  /** Side of the scanned cube: -8..=8 on each axis. */
  const Side: nat := 17

  /** An offset inside the cube the three nested loops scan. */
  predicate InCube(o: Vec3i) {
    -RenderDistance <= o.x <= RenderDistance && -RenderDistance <= o.y <= RenderDistance
    && -RenderDistance <= o.z <= RenderDistance
  }

  /** The offset of k from cp. */
  function Rel(k: Vec3i, cp: Vec3i): (o: Vec3i)
    ensures cp.Add(o) == k && o.LengthSquared() == DistSq(k, cp)
  {
    Vec3i(k.x - cp.x, k.y - cp.y, k.z - cp.z)
  }

  /** The i-th offset the loops visit: x outermost, z innermost. */
  function OffsetAt(i: nat): (o: Vec3i)
    requires i < Side * Side * Side
    ensures InCube(o)
  {
    Vec3i(i / (Side * Side) - RenderDistance, (i / Side) % Side - RenderDistance, i % Side - RenderDistance)
  }

  /** Where the loops visit an offset of the cube. */
  function IndexOfOffset(o: Vec3i): (i: nat)
    requires InCube(o)
    ensures i < Side * Side * Side
  {
    (o.x + RenderDistance) * (Side * Side) + (o.y + RenderDistance) * Side + (o.z + RenderDistance)
  }

  lemma DivMod17(n: int, q: int, r: int)
    requires 0 <= r < 17 && n == q * 17 + r
    ensures n / 17 == q && n % 17 == r
  {
  }

  /** The loop order visits every offset of the cube ... */
  lemma OffsetIndex(o: Vec3i)
    requires InCube(o)
    ensures OffsetAt(IndexOfOffset(o)) == o
  {
    var a := o.x + 8;
    var b := o.y + 8;
    var c := o.z + 8;
    var i := IndexOfOffset(o);
    assert i == (a * 17 + b) * 17 + c;
    DivMod17(i, a * 17 + b, c);
    DivMod17(a * 17 + b, a, b);
    assert i / 289 == a by {
      assert i == a * 289 + (b * 17 + c);
    }
  }

  /** ... and only once. */
  lemma IndexOffset(i: nat)
    requires i < Side * Side * Side
    ensures IndexOfOffset(OffsetAt(i)) == i
  {
    var q := i / 17;
    DivMod17(i, q, i % 17);
    DivMod17(q, q / 17, q % 17);
    assert i / 289 == q / 17;
  }

  /** The chunks the loops request, visiting offsets from index `i` on. */
  function ScanFrom(cp: Vec3i, chunks: map<Vec3i, ClientChunk>, i: nat): (r: seq<Vec3i>)
    requires i <= Side * Side * Side
    ensures forall j :: 0 <= j < |r| ==> InCube(Rel(r[j], cp)) && IndexOfOffset(Rel(r[j], cp)) >= i
    decreases Side * Side * Side - i
  {
    if i == Side * Side * Side then []
    else
      var o := OffsetAt(i);
      var rest := ScanFrom(cp, chunks, i + 1);
      if o.LengthSquared() > RenderDistance * RenderDistance || cp.Add(o) in chunks then rest
      else
        IndexOffset(i);
        assert Rel(cp.Add(o), cp) == o;
        [cp.Add(o)] + rest
  }

  /** `needs_chunks`: the missing chunks around the player's chunk, in loop order. */
  function NeedsChunks(w: World, pos: Vec3i): (r: seq<Vec3i>) {
    ScanFrom(ChunkOf(pos), w.chunks, 0)
  }

  /** A chunk within render distance of cp that is not resident. */
  predicate Needed(cp: Vec3i, chunks: map<Vec3i, ClientChunk>, k: Vec3i) {
    DistSq(k, cp) <= RenderDistance * RenderDistance && k !in chunks
  }

  /** Squared length at most 64 keeps every coordinate within 8. */
  lemma WithinCube(o: Vec3i)
    requires o.LengthSquared() <= RenderDistance * RenderDistance
    ensures InCube(o)
  {
    SquareBound(o.x, o.y * o.y + o.z * o.z);
    SquareBound(o.y, o.x * o.x + o.z * o.z);
    SquareBound(o.z, o.x * o.x + o.y * o.y);
  }

  lemma SquareBound(v: int, rest: int)
    requires rest >= 0 && v * v + rest <= 64
    ensures -8 <= v <= 8
  {
  }

  /** The scan from index i lists k iff k is needed and its offset is visited from i on. */
  lemma {:induction false} ScanMembers(cp: Vec3i, chunks: map<Vec3i, ClientChunk>, i: nat, k: Vec3i)
    requires i <= Side * Side * Side
    ensures k in ScanFrom(cp, chunks, i) <==>
      Needed(cp, chunks, k) && InCube(Rel(k, cp)) && IndexOfOffset(Rel(k, cp)) >= i
    decreases Side * Side * Side - i
  {
    if i < Side * Side * Side {
      ScanMembers(cp, chunks, i + 1, k);
      var o := OffsetAt(i);
      IndexOffset(i);
      assert Rel(cp.Add(o), cp) == o;
      if InCube(Rel(k, cp)) && IndexOfOffset(Rel(k, cp)) == i {
        OffsetIndex(Rel(k, cp));
      }
    }
  }

  predicate Distinct(r: seq<Vec3i>) {
    forall a, b :: 0 <= a < b < |r| ==> r[a] != r[b]
  }

  /** A head whose offset is visited before every offset of the tail is not repeated there. */
  lemma ConsDistinct(cp: Vec3i, h: Vec3i, rest: seq<Vec3i>, i: nat)
    requires Distinct(rest) && InCube(Rel(h, cp)) && IndexOfOffset(Rel(h, cp)) == i
    requires forall j :: 0 <= j < |rest| ==> InCube(Rel(rest[j], cp)) && IndexOfOffset(Rel(rest[j], cp)) > i
    ensures Distinct([h] + rest)
  {
    var r := [h] + rest;
    forall a, b | 0 <= a < b < |r|
      ensures r[a] != r[b]
    {
      assert r[b] == rest[b - 1];
      if a > 0 {
        assert r[a] == rest[a - 1];
      }
    }
  }

  /** The scan takes the offset at index i or skips it. */
  lemma ScanStep(cp: Vec3i, chunks: map<Vec3i, ClientChunk>, i: nat)
    requires i < Side * Side * Side
    ensures var r := ScanFrom(cp, chunks, i); var rest := ScanFrom(cp, chunks, i + 1);
      r == rest || (r == [r[0]] + rest && InCube(Rel(r[0], cp)) && IndexOfOffset(Rel(r[0], cp)) == i)
  {
    var o := OffsetAt(i);
    IndexOffset(i);
    assert Rel(cp.Add(o), cp) == o;
  }

  /** No chunk is listed twice: each is reached from one offset, visited once. */
  lemma {:induction false} ScanDistinct(cp: Vec3i, chunks: map<Vec3i, ClientChunk>, i: nat)
    requires i <= Side * Side * Side
    ensures Distinct(ScanFrom(cp, chunks, i))
    decreases Side * Side * Side - i
  {
    if i < Side * Side * Side {
      ScanDistinct(cp, chunks, i + 1);
      ScanStep(cp, chunks, i);
      var r := ScanFrom(cp, chunks, i);
      var rest := ScanFrom(cp, chunks, i + 1);
      if |r| > |rest| {
        ConsDistinct(cp, r[0], rest, i);
      } else {
        assert r == rest;
      }
    }
  }

  /**
   * `needs_chunks` lists exactly the chunks within squared distance 64 of the
   * player's chunk that are not resident, each once.
   */
  lemma NeedsChunksSpec(w: World, pos: Vec3i, k: Vec3i)
    ensures k in NeedsChunks(w, pos) <==> Needed(ChunkOf(pos), w.chunks, k)
    ensures Distinct(NeedsChunks(w, pos))
  {
    var cp := ChunkOf(pos);
    ScanMembers(cp, w.chunks, 0, k);
    ScanDistinct(cp, w.chunks, 0);
    if Needed(cp, w.chunks, k) {
      WithinCube(Rel(k, cp));
    }
  }

  /** The keys of `ks` farther than the render distance from cp, in order. */
  function Far(ks: seq<Vec3i>, cp: Vec3i): (r: seq<Vec3i>)
    ensures forall k :: k in r <==> k in ks && DistSq(k, cp) > RenderDistance * RenderDistance
  {
    if |ks| == 0 then []
    else (if DistSq(ks[0], cp) > RenderDistance * RenderDistance then [ks[0]] else []) + Far(ks[1..], cp)
  }

  function RemoveAll(chunks: map<Vec3i, ClientChunk>, ks: seq<Vec3i>): (r: map<Vec3i, ClientChunk>)
    ensures forall k :: k in r <==> k in chunks && k !in ks
    ensures forall k :: k in r ==> r[k] == chunks[k]
  {
    if |ks| == 0 then chunks else RemoveAll(chunks - {ks[0]}, ks[1..])
  }

  /**
   * `unload_chunks`: collect the keys (in the map's iteration order `ks`)
   * farther than the render distance from the player's chunk, remove them,
   * and return them.
   */
  function UnloadChunks(w: World, pos: Vec3i, ks: seq<Vec3i>): (r: (World, seq<Vec3i>))
    requires forall k :: k in ks <==> k in w.chunks
  {
    var far := Far(ks, ChunkOf(pos));
    (w.(chunks := RemoveAll(w.chunks, far)), far)
  }

  /**
   * Unloading returns exactly the resident chunks beyond the render
   * distance, keeps every other chunk as it was, and leaves every resident
   * chunk within range.
   */
  lemma UnloadSpec(w: World, pos: Vec3i, ks: seq<Vec3i>, k: Vec3i)
    requires forall k :: k in ks <==> k in w.chunks
    ensures var (r, gone) := UnloadChunks(w, pos, ks);
      && (k in gone <==> k in w.chunks && DistSq(k, ChunkOf(pos)) > RenderDistance * RenderDistance)
      && (k in r.chunks <==> k in w.chunks && DistSq(k, ChunkOf(pos)) <= RenderDistance * RenderDistance)
      && (k in r.chunks ==> r.chunks[k] == w.chunks[k])
      && r.pending == w.pending
  {
  }
}
