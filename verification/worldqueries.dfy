/**
 * Queries of the split revision that read blocks through `World::get_block`
 * (src/game/world.rs and src/game/other.rs): the player collision test, the
 * per-axis collision mask and the ray cast. `get_block` generates a missing
 * chunk, so each query also returns the world with the chunks it generated;
 * the lemmas show that this never changes what any position reads as.
 */
module WorldQueries {
  import opened Wrappers
  import opened Coords
  import opened Assets
  import opened Blocks
  import opened FlatChunk
  import opened GameWorld
  import opened Generation
  import opened Geometry

  // ---------------------------------------------------------------------------
  // What get_block reports
  // ---------------------------------------------------------------------------

  /** The block `get_block` reports at `p`: the resident chunk's, else the generated chunk's. */
  function View(w: World, gen: Generator, p: Vec3i): Block
    requires WorldValid(w) && GeneratorValid(gen)
  {
    var (cp, l) := ChunkAndLocal(p);
    if cp in w.chunks then GetBlock(w.chunks[cp], l) else GetBlock(gen(cp).0, l)
  }

  /** `b` is `a` with more chunks, each new one exactly as the generator makes it. */
  ghost predicate Grown(a: World, b: World, gen: Generator) {
    && (forall cp :: cp in a.chunks ==> cp in b.chunks && b.chunks[cp] == a.chunks[cp])
    && (forall cp :: cp in b.chunks && cp !in a.chunks ==> b.chunks[cp] == gen(cp).0)
  }

  lemma GrownRefl(w: World, gen: Generator)
    ensures Grown(w, w, gen)
  {
  }

  lemma GrownTrans(a: World, b: World, c: World, gen: Generator)
    requires Grown(a, b, gen) && Grown(b, c, gen)
    ensures Grown(a, c, gen)
  {
  }

  /** Growing a world never changes what a position reads as. */
  lemma GrownView(a: World, b: World, gen: Generator, p: Vec3i)
    requires WorldValid(a) && WorldValid(b) && GeneratorValid(gen) && Grown(a, b, gen)
    ensures View(a, gen, p) == View(b, gen, p)
  {
  }

  /** `get_block` returns the viewed block and only grows the world. */
  lemma GetBlockGenView(w: World, p: Vec3i, gen: Generator)
    requires WorldValid(w) && GeneratorValid(gen)
    ensures var (w1, b) := GetBlockGen(w, p, gen);
      b == View(w, gen, p) && Grown(w, w1, gen)
  {
  }

  // ---------------------------------------------------------------------------
  // is_solid_at and is_player_colliding
  // ---------------------------------------------------------------------------

  /** The player's position, width and height as the collision test receives them. */
  datatype Probe = Probe(pos: Vec3r, width: real, height: real)

  /**
   * `Block::is_solid_at`: the player's box, placed at `local` relative to
   * the block cell, overlaps one of the block's cuboids.
   */
  predicate IsSolidAt(b: Block, defs: map<string, ModelDef>, local: Vec3r, width: real, height: real)
    requires HasShapeModels(defs)
  {
    var cubes := Cubes(b, defs);
    var half := width / 2.0;
    exists i :: 0 <= i < |cubes| && CollisionAabb(
      Vec3r(local.x - half, local.y, local.z - half),
      Vec3r(local.x + half, local.y + height, local.z + half),
      cubes[i].from, cubes[i].to)
  }

  /** Air has no cuboid, so the player never collides with it. */
  lemma AirNeverSolid(defs: map<string, ModelDef>, local: Vec3r, width: real, height: real)
    requires HasShapeModels(defs)
    ensures !IsSolidAt(Air, defs, local, width, height)
  {
  }

  /** The player position relative to a cell. */
  function Local(pos: Vec3r, c: Vec3i): Vec3r {
    Vec3r(pos.x - c.x as real, pos.y - c.y as real, pos.z - c.z as real)
  }

  /**
   * The test `is_player_colliding` applies to each cell it visits, as a
   * function of the cell's block and position.
   */
  function Stops(defs: map<string, ModelDef>, pr: Probe): (Block, Vec3i) -> bool
    requires HasShapeModels(defs)
  {
    (b: Block, c: Vec3i) => IsSolidAt(b, defs, Local(pr.pos, c), pr.width, pr.height)
  }

  /** Cell `c` passes `stop` as the world reads now. */
  predicate Hit(w: World, gen: Generator, stop: (Block, Vec3i) -> bool, c: Vec3i)
    requires WorldValid(w) && GeneratorValid(gen)
  {
    stop(View(w, gen, c), c)
  }

  lemma GrownHit(a: World, b: World, gen: Generator, stop: (Block, Vec3i) -> bool)
    requires WorldValid(a) && WorldValid(b) && GeneratorValid(gen) && Grown(a, b, gen)
    ensures forall c :: Hit(a, gen, stop, c) == Hit(b, gen, stop, c)
  {
    forall c ensures Hit(a, gen, stop, c) == Hit(b, gen, stop, c) {
      GrownView(a, b, gen, c);
    }
  }

  predicate InCells(c: Vec3i, lo: Vec3i, hi: Vec3i) {
    lo.x <= c.x <= hi.x && lo.y <= c.y <= hi.y && lo.z <= c.z <= hi.z
  }

  /** The cells the test visits: floor of the box corners, both ends inclusive. */
  function CellsLo(pr: Probe): Vec3i {
    Vec3i((pr.pos.x - pr.width / 2.0).Floor, pr.pos.y.Floor, (pr.pos.z - pr.width / 2.0).Floor)
  }

  function CellsHi(pr: Probe): Vec3i {
    Vec3i((pr.pos.x + pr.width / 2.0).Floor, (pr.pos.y + pr.height).Floor, (pr.pos.z + pr.width / 2.0).Floor)
  }

  /** Some cell under the player's box is solid where the player's box overlaps it. */
  ghost predicate CollidesAt(w: World, gen: Generator, defs: map<string, ModelDef>, pr: Probe)
    requires WorldValid(w) && GeneratorValid(gen) && HasShapeModels(defs)
  {
    exists c :: InCells(c, CellsLo(pr), CellsHi(pr))
      && IsSolidAt(View(w, gen, c), defs, Local(pr.pos, c), pr.width, pr.height)
  }

  lemma GrownCollides(a: World, b: World, gen: Generator, defs: map<string, ModelDef>, pr: Probe)
    requires WorldValid(a) && WorldValid(b) && GeneratorValid(gen) && HasShapeModels(defs) && Grown(a, b, gen)
    ensures CollidesAt(a, gen, defs, pr) == CollidesAt(b, gen, defs, pr)
  {
    forall c ensures View(a, gen, c) == View(b, gen, c) {
      GrownView(a, b, gen, c);
    }
  }

  /** The cells of one z column, in the order the innermost loop visits them. */
  function ZRun(x: int, y: int, z: int, zHi: int): seq<Vec3i>
    decreases zHi - z
  {
    if z > zHi then [] else [Vec3i(x, y, z)] + ZRun(x, y, z + 1, zHi)
  }

  /** The cells of one x slice: each z column for y from `y` to `hi.y`. */
  function YRun(x: int, y: int, lo: Vec3i, hi: Vec3i): seq<Vec3i>
    decreases hi.y - y
  {
    if y > hi.y then [] else ZRun(x, y, lo.z, hi.z) + YRun(x, y + 1, lo, hi)
  }

  /** The cells of the whole box: each x slice for x from `x` to `hi.x`. */
  function XRun(x: int, lo: Vec3i, hi: Vec3i): seq<Vec3i>
    decreases hi.x - x
  {
    if x > hi.x then [] else YRun(x, lo.y, lo, hi) + XRun(x + 1, lo, hi)
  }

  lemma {:induction false} ZRunCells(x: int, y: int, z: int, zHi: int, c: Vec3i)
    ensures c in ZRun(x, y, z, zHi) <==> InCells(c, Vec3i(x, y, z), Vec3i(x, y, zHi))
    decreases zHi - z
  {
    if z <= zHi {
      ZRunCells(x, y, z + 1, zHi, c);
    }
  }

  lemma {:induction false} YRunCells(x: int, y: int, lo: Vec3i, hi: Vec3i, c: Vec3i)
    ensures c in YRun(x, y, lo, hi) <==> InCells(c, Vec3i(x, y, lo.z), Vec3i(x, hi.y, hi.z))
    decreases hi.y - y
  {
    if y <= hi.y {
      ZRunCells(x, y, lo.z, hi.z, c);
      YRunCells(x, y + 1, lo, hi, c);
    }
  }

  /** The loops visit exactly the cells of the box. */
  lemma {:induction false} XRunCells(x: int, lo: Vec3i, hi: Vec3i, c: Vec3i)
    ensures c in XRun(x, lo, hi) <==> InCells(c, Vec3i(x, lo.y, lo.z), hi)
    decreases hi.x - x
  {
    if x <= hi.x {
      YRunCells(x, lo.y, lo, hi, c);
      XRunCells(x + 1, lo, hi, c);
    }
  }

  /**
   * The three nested loops of `is_player_colliding`, run over the cells in
   * their visiting order: read each cell (generating its chunk on a miss) and
   * stop at the first that passes `stop`.
   */
  function ScanCells(w: World, gen: Generator, stop: (Block, Vec3i) -> bool, cells: seq<Vec3i>): (r: (World, bool))
    requires WorldValid(w) && GeneratorValid(gen)
    ensures WorldValid(r.0)
    decreases |cells|
  {
    if |cells| == 0 then (w, false)
    else
      var (w1, b) := GetBlockGen(w, cells[0], gen);
      if stop(b, cells[0]) then (w1, true)
      else ScanCells(w1, gen, stop, cells[1..])
  }

  /** `is_player_colliding`. */
  function IsPlayerColliding(w: World, gen: Generator, defs: map<string, ModelDef>, pr: Probe): (r: (World, bool))
    requires WorldValid(w) && GeneratorValid(gen) && HasShapeModels(defs)
    ensures WorldValid(r.0)
  {
    ScanCells(w, gen, Stops(defs, pr), XRun(CellsLo(pr).x, CellsLo(pr), CellsHi(pr)))
  }

  /** The scan only grows the world. */
  lemma {:induction false} ScanCellsGrown(w: World, gen: Generator, stop: (Block, Vec3i) -> bool, cells: seq<Vec3i>)
    requires WorldValid(w) && GeneratorValid(gen)
    ensures Grown(w, ScanCells(w, gen, stop, cells).0, gen)
    decreases |cells|
  {
    if |cells| == 0 {
      GrownRefl(w, gen);
    } else {
      GetBlockGenView(w, cells[0], gen);
      var w1 := GetBlockGen(w, cells[0], gen).0;
      ScanCellsGrown(w1, gen, stop, cells[1..]);
      GrownTrans(w, w1, ScanCells(w1, gen, stop, cells[1..]).0, gen);
    }
  }

  /** The scan reports whether some listed cell passes `stop` as the world read before it. */
  lemma {:induction false} ScanCellsSpec(w: World, gen: Generator, stop: (Block, Vec3i) -> bool, cells: seq<Vec3i>)
    requires WorldValid(w) && GeneratorValid(gen)
    ensures ScanCells(w, gen, stop, cells).1 <==> exists c :: c in cells && Hit(w, gen, stop, c)
    decreases |cells|
  {
    if |cells| > 0 {
      var c := cells[0];
      GetBlockGenView(w, c, gen);
      var w1 := GetBlockGen(w, c, gen).0;
      if !Hit(w, gen, stop, c) {
        var rest := ScanCells(w1, gen, stop, cells[1..]).1;
        assert ScanCells(w, gen, stop, cells).1 == rest;
        ScanCellsSpec(w1, gen, stop, cells[1..]);
        GrownHit(w, w1, gen, stop);
        if rest {
          var d :| d in cells[1..] && Hit(w1, gen, stop, d);
          assert d in cells && Hit(w, gen, stop, d);
        } else {
          forall d | d in cells ensures !Hit(w, gen, stop, d) {
            if d != c {
              assert d in cells[1..];
            }
          }
        }
      }
    }
  }

  /**
   * `is_player_colliding` answers whether some cell under the player's box
   * stops the player, as the world reads before the call; the chunks it
   * generates on the way change nothing that any position reads as.
   */
  lemma IsPlayerCollidingSpec(w: World, gen: Generator, defs: map<string, ModelDef>, pr: Probe)
    requires WorldValid(w) && GeneratorValid(gen) && HasShapeModels(defs)
    ensures var r := IsPlayerColliding(w, gen, defs, pr);
      Grown(w, r.0, gen) && (r.1 <==> CollidesAt(w, gen, defs, pr))
  {
    var stop := Stops(defs, pr);
    var cells := XRun(CellsLo(pr).x, CellsLo(pr), CellsHi(pr));
    ScanCellsSpec(w, gen, stop, cells);
    ScanCellsGrown(w, gen, stop, cells);
    forall c ensures c in cells <==> InCells(c, CellsLo(pr), CellsHi(pr)) {
      XRunCells(CellsLo(pr).x, CellsLo(pr), CellsHi(pr), c);
    }
    assert forall c ::
      Hit(w, gen, stop, c) == IsSolidAt(View(w, gen, c), defs, Local(pr.pos, c), pr.width, pr.height);
  }

  // ---------------------------------------------------------------------------
  // player_collision_mask
  // ---------------------------------------------------------------------------

  /** Which axes of a move collided. */
  datatype Mask = Mask(x: bool, y: bool, z: bool)

  /**
   * `player_collision_mask`: try the target x, then the target y, then the target z,
   * each from the position the previous tries left, reverting an axis that
   * collides.
   */
  function PlayerCollisionMask(w: World, gen: Generator, defs: map<string, ModelDef>, start: Vec3r, target: Vec3r, width: real, height: real)
    : (r: (World, Mask))
    requires WorldValid(w) && GeneratorValid(gen) && HasShapeModels(defs)
    ensures WorldValid(r.0)
  {
    var p1 := Vec3r(target.x, start.y, start.z);
    var (w1, cx) := IsPlayerColliding(w, gen, defs, Probe(p1, width, height));
    var q1 := if cx then start else p1;
    var p2 := Vec3r(q1.x, target.y, start.z);
    var (w2, cy) := IsPlayerColliding(w1, gen, defs, Probe(p2, width, height));
    var q2 := if cy then q1 else p2;
    var p3 := Vec3r(q2.x, q2.y, target.z);
    var (w3, cz) := IsPlayerColliding(w2, gen, defs, Probe(p3, width, height));
    (w3, Mask(cx, cy, cz))
  }

  /** The position the caller moves to: the target coordinate on every axis that did not collide. */
  function Resolved(start: Vec3r, target: Vec3r, m: Mask): Vec3r {
    Vec3r(if m.x then start.x else target.x, if m.y then start.y else target.y, if m.z then start.z else target.z)
  }

  /**
   * Each axis is tested from the position earlier axes settled on, against
   * the world as it read before the call.
   */
  lemma PlayerCollisionMaskSpec(w: World, gen: Generator, defs: map<string, ModelDef>, start: Vec3r, target: Vec3r, width: real, height: real)
    requires WorldValid(w) && GeneratorValid(gen) && HasShapeModels(defs)
    ensures var (w3, m) := PlayerCollisionMask(w, gen, defs, start, target, width, height);
      var rs := Resolved(start, target, m);
      && Grown(w, w3, gen)
      && (m.x <==> CollidesAt(w, gen, defs, Probe(Vec3r(target.x, start.y, start.z), width, height)))
      && (m.y <==> CollidesAt(w, gen, defs, Probe(Vec3r(rs.x, target.y, start.z), width, height)))
      && (m.z <==> CollidesAt(w, gen, defs, Probe(Vec3r(rs.x, rs.y, target.z), width, height)))
  {
    var p1 := Vec3r(target.x, start.y, start.z);
    IsPlayerCollidingSpec(w, gen, defs, Probe(p1, width, height));
    var (w1, cx) := IsPlayerColliding(w, gen, defs, Probe(p1, width, height));
    var q1 := if cx then start else p1;
    var p2 := Vec3r(q1.x, target.y, start.z);
    IsPlayerCollidingSpec(w1, gen, defs, Probe(p2, width, height));
    GrownCollides(w, w1, gen, defs, Probe(p2, width, height));
    var (w2, cy) := IsPlayerColliding(w1, gen, defs, Probe(p2, width, height));
    var q2 := if cy then q1 else p2;
    var p3 := Vec3r(q2.x, q2.y, target.z);
    IsPlayerCollidingSpec(w2, gen, defs, Probe(p3, width, height));
    GrownTrans(w, w1, w2, gen);
    GrownCollides(w, w2, gen, defs, Probe(p3, width, height));
    var (w3, cz) := IsPlayerColliding(w2, gen, defs, Probe(p3, width, height));
    GrownTrans(w, w2, w3, gen);
  }

  /**
   * Resolving a move never puts a player who was clear into a block: every
   * accepted axis was tested clear, and every rejected one goes back to a
   * position already known to be clear.
   */
  lemma MaskKeepsClear(w: World, gen: Generator, defs: map<string, ModelDef>, start: Vec3r, target: Vec3r, width: real, height: real)
    requires WorldValid(w) && GeneratorValid(gen) && HasShapeModels(defs)
    requires !CollidesAt(w, gen, defs, Probe(start, width, height))
    ensures var (_, m) := PlayerCollisionMask(w, gen, defs, start, target, width, height);
      !CollidesAt(w, gen, defs, Probe(Resolved(start, target, m), width, height))
  {
    PlayerCollisionMaskSpec(w, gen, defs, start, target, width, height);
    var (_, m) := PlayerCollisionMask(w, gen, defs, start, target, width, height);
    var rs := Resolved(start, target, m);
    var q1 := Vec3r(rs.x, start.y, start.z);
    assert !CollidesAt(w, gen, defs, Probe(q1, width, height)) by {
      if m.x { assert q1 == start; }
    }
    var q2 := Vec3r(rs.x, rs.y, start.z);
    assert !CollidesAt(w, gen, defs, Probe(q2, width, height)) by {
      if m.y { assert q2 == q1; }
    }
    if m.z { assert rs == q2; }
  }

  // ---------------------------------------------------------------------------
  // cast_ray
  // ---------------------------------------------------------------------------

  /** `step`: the ray advances a hundredth of a block per sample. */
  const RayStep: real := 0.01

  /** `pos += direction * step`. */
  function Advance(p: Vec3r, dir: Vec3r): Vec3r {
    Vec3r(p.x + dir.x * RayStep, p.y + dir.y * RayStep, p.z + dir.z * RayStep)
  }

  /** The `n` positions the loop samples, starting at `p`. */
  function Samples(p: Vec3r, dir: Vec3r, n: nat): (s: seq<Vec3r>)
    ensures |s| == n
    decreases n
  {
    if n == 0 then [] else [p] + Samples(Advance(p, dir), dir, n - 1)
  }

  /** The samples start at the origin and are one step apart. */
  lemma {:induction false} SamplesSpaced(p: Vec3r, dir: Vec3r, n: nat)
    ensures var s := Samples(p, dir, n);
      && (n > 0 ==> s[0] == p)
      && forall k :: 0 <= k < n - 1 ==> s[k + 1] == Advance(s[k], dir)
    decreases n
  {
    if n > 0 {
      SamplesSpaced(Advance(p, dir), dir, n - 1);
      var s := Samples(p, dir, n);
      var t := Samples(Advance(p, dir), dir, n - 1);
      assert s == [p] + t;
      forall k | 0 <= k < n - 1 ensures s[k + 1] == Advance(s[k], dir) {
        if k > 0 {
          assert s[k] == t[k - 1] && s[k + 1] == t[k];
        }
      }
    }
  }

  function FloorV(p: Vec3r): Vec3i {
    Vec3i(p.x.Floor, p.y.Floor, p.z.Floor)
  }

  function ToReal(c: Vec3i): Vec3r {
    Vec3r(c.x as real, c.y as real, c.z as real)
  }

  /** How many samples are taken: `(max_distance / step) as usize`, which saturates at zero. */
  function SampleCount(maxDistance: real): nat {
    if maxDistance / RayStep < 0.0 then 0 else (maxDistance / RayStep).Floor
  }

  datatype RayHit = RayHit(blockPos: Vec3i, faceNormal: Vec3i)

  /** The hit reported for a sample: its cell and the normal of the face nearest to it. */
  function HitOf(p: Vec3r): RayHit {
    RayHit(FloorV(p), CalcFaceNormal(p, ToReal(FloorV(p))))
  }

  /** `block_type() != BlockType::Air`: what stops the ray. */
  predicate NonAir(b: Block) {
    TypeOf(b) != AirType
  }

  /** The cell under a sample passes `solid`, as the world reads now. */
  predicate SolidSample(w: World, gen: Generator, solid: Block -> bool, p: Vec3r)
    requires WorldValid(w) && GeneratorValid(gen)
  {
    solid(View(w, gen, FloorV(p)))
  }

  /** Sample `i` is the first whose cell passes `solid`. */
  predicate FirstSolid(w: World, gen: Generator, solid: Block -> bool, samples: seq<Vec3r>, i: int)
    requires WorldValid(w) && GeneratorValid(gen)
  {
    && 0 <= i < |samples|
    && SolidSample(w, gen, solid, samples[i])
    && forall j :: 0 <= j < i ==> !SolidSample(w, gen, solid, samples[j])
  }

  /** The sampling loop over the remaining samples. */
  function CastFrom(w: World, gen: Generator, solid: Block -> bool, samples: seq<Vec3r>): (r: (World, Option<RayHit>))
    requires WorldValid(w) && GeneratorValid(gen)
    ensures WorldValid(r.0)
    decreases |samples|
  {
    if |samples| == 0 then (w, None)
    else
      var pos := samples[0];
      var (w1, b) := GetBlockGen(w, FloorV(pos), gen);
      if solid(b) then (w1, Some(HitOf(pos)))
      else CastFrom(w1, gen, solid, samples[1..])
  }

  /** `cast_ray`. */
  function CastRay(w: World, gen: Generator, origin: Vec3r, dir: Vec3r, maxDistance: real): (r: (World, Option<RayHit>))
    requires WorldValid(w) && GeneratorValid(gen)
    ensures WorldValid(r.0)
  {
    CastFrom(w, gen, NonAir, Samples(origin, dir, SampleCount(maxDistance)))
  }

  lemma {:induction false} CastFromGrown(w: World, gen: Generator, solid: Block -> bool, samples: seq<Vec3r>)
    requires WorldValid(w) && GeneratorValid(gen)
    ensures Grown(w, CastFrom(w, gen, solid, samples).0, gen)
    decreases |samples|
  {
    if |samples| == 0 {
      GrownRefl(w, gen);
    } else {
      GetBlockGenView(w, FloorV(samples[0]), gen);
      var w1 := GetBlockGen(w, FloorV(samples[0]), gen).0;
      CastFromGrown(w1, gen, solid, samples[1..]);
      GrownTrans(w, w1, CastFrom(w1, gen, solid, samples[1..]).0, gen);
    }
  }

  lemma GrownSolid(a: World, b: World, gen: Generator, solid: Block -> bool)
    requires WorldValid(a) && WorldValid(b) && GeneratorValid(gen) && Grown(a, b, gen)
    ensures forall p :: SolidSample(a, gen, solid, p) == SolidSample(b, gen, solid, p)
  {
    forall p ensures SolidSample(a, gen, solid, p) == SolidSample(b, gen, solid, p) {
      GrownView(a, b, gen, FloorV(p));
    }
  }

  /** The loop reports nothing exactly when no sample's cell is solid. */
  lemma {:induction false} CastFromMiss(w: World, gen: Generator, solid: Block -> bool, samples: seq<Vec3r>)
    requires WorldValid(w) && GeneratorValid(gen)
    ensures CastFrom(w, gen, solid, samples).1.None?
      <==> forall i :: 0 <= i < |samples| ==> !SolidSample(w, gen, solid, samples[i])
    decreases |samples|
  {
    if |samples| > 0 {
      var pos := samples[0];
      GetBlockGenView(w, FloorV(pos), gen);
      var w1 := GetBlockGen(w, FloorV(pos), gen).0;
      if !SolidSample(w, gen, solid, pos) {
        var rest := samples[1..];
        assert CastFrom(w, gen, solid, samples).1 == CastFrom(w1, gen, solid, rest).1;
        CastFromMiss(w1, gen, solid, rest);
        GrownSolid(w, w1, gen, solid);
        if CastFrom(w1, gen, solid, rest).1.None? {
          forall i | 0 <= i < |samples| ensures !SolidSample(w, gen, solid, samples[i]) {
            if i > 0 { assert samples[i] == rest[i - 1]; }
          }
        } else {
          var i :| 0 <= i < |rest| && SolidSample(w1, gen, solid, rest[i]);
          assert samples[i + 1] == rest[i];
        }
      }
    }
  }

  /** What the loop reports is the first sample whose cell is solid. */
  lemma {:induction false} CastFromFirst(w: World, gen: Generator, solid: Block -> bool, samples: seq<Vec3r>)
    requires WorldValid(w) && GeneratorValid(gen)
    ensures var h := CastFrom(w, gen, solid, samples).1;
      h.Some? ==> exists i :: FirstSolid(w, gen, solid, samples, i) && h.value == HitOf(samples[i])
    decreases |samples|
  {
    if |samples| > 0 {
      var pos := samples[0];
      GetBlockGenView(w, FloorV(pos), gen);
      var w1 := GetBlockGen(w, FloorV(pos), gen).0;
      if !SolidSample(w, gen, solid, pos) {
        var rest := samples[1..];
        var h := CastFrom(w1, gen, solid, rest).1;
        assert CastFrom(w, gen, solid, samples).1 == h;
        if h.Some? {
          CastFromFirst(w1, gen, solid, rest);
          GrownSolid(w, w1, gen, solid);
          var i :| FirstSolid(w1, gen, solid, rest, i) && h.value == HitOf(rest[i]);
          assert samples[i + 1] == rest[i];
          forall j | 0 <= j < i + 1 ensures !SolidSample(w, gen, solid, samples[j]) {
            if j > 0 { assert samples[j] == rest[j - 1]; }
          }
          assert FirstSolid(w, gen, solid, samples, i + 1);
        }
      } else {
        assert CastFrom(w, gen, solid, samples).1 == Some(HitOf(pos));
        assert FirstSolid(w, gen, solid, samples, 0);
      }
    }
  }

  /**
   * `cast_ray` reports the first sample within the distance whose cell is
   * not Air, with the normal of the face nearest to that sample, and nothing
   * exactly when every sample is in Air; the chunks it generates change
   * nothing any position reads as.
   */
  lemma CastRaySpec(w: World, gen: Generator, origin: Vec3r, dir: Vec3r, maxDistance: real)
    requires WorldValid(w) && GeneratorValid(gen)
    ensures var r := CastRay(w, gen, origin, dir, maxDistance);
      var s := Samples(origin, dir, SampleCount(maxDistance));
      && Grown(w, r.0, gen)
      && (r.1.None? <==> forall i :: 0 <= i < |s| ==> !SolidSample(w, gen, NonAir, s[i]))
      && (r.1.Some? ==> exists i :: FirstSolid(w, gen, NonAir, s, i) && r.1.value == HitOf(s[i]))
  {
    var s := Samples(origin, dir, SampleCount(maxDistance));
    CastFromGrown(w, gen, NonAir, s);
    CastFromMiss(w, gen, NonAir, s);
    CastFromFirst(w, gen, NonAir, s);
  }
}
