/**
 * Geometry helpers of the split revision (src/game/other.rs): the box overlap
 * test used for collisions, frustum culling of a box, the face a ray hit
 * entered through, and the ball of chunk positions requested around the
 * player. Floating point values are modelled as exact reals.
 */
module Geometry {
  import opened Coords
  import opened Assets

  // ---------------------------------------------------------------------------
  // collision_aabb
  // ---------------------------------------------------------------------------

  /** `collision_aabb`: two closed boxes overlap on every axis. */
  predicate CollisionAabb(minA: Vec3r, maxA: Vec3r, minB: Vec3r, maxB: Vec3r) {
    && (minA.x <= maxB.x && maxA.x >= minB.x)
    && (minA.y <= maxB.y && maxA.y >= minB.y)
    && (minA.z <= maxB.z && maxA.z >= minB.z)
  }

  /** A point lies in the closed box from `lo` to `hi`. */
  predicate InBoxR(q: Vec3r, lo: Vec3r, hi: Vec3r) {
    lo.x <= q.x <= hi.x && lo.y <= q.y <= hi.y && lo.z <= q.z <= hi.z
  }

  function Max(a: real, b: real): real {
    if a >= b then a else b
  }

  /**
   * The overlap test is exact for non-empty boxes: it holds exactly when
   * the two boxes share a point.
   */
  lemma CollisionAabbIsSharedPoint(minA: Vec3r, maxA: Vec3r, minB: Vec3r, maxB: Vec3r)
    requires InBoxR(minA, minA, maxA) && InBoxR(minB, minB, maxB)
    ensures CollisionAabb(minA, maxA, minB, maxB)
        <==> exists q :: InBoxR(q, minA, maxA) && InBoxR(q, minB, maxB)
  {
    if CollisionAabb(minA, maxA, minB, maxB) {
      var q := Vec3r(Max(minA.x, minB.x), Max(minA.y, minB.y), Max(minA.z, minB.z));
      assert InBoxR(q, minA, maxA) && InBoxR(q, minB, maxB);
    }
  }

  /** The test does not depend on which box is the player's. */
  lemma CollisionAabbSymmetric(minA: Vec3r, maxA: Vec3r, minB: Vec3r, maxB: Vec3r)
    ensures CollisionAabb(minA, maxA, minB, maxB) == CollisionAabb(minB, maxB, minA, maxA)
  {
  }

  // ---------------------------------------------------------------------------
  // aabb_in_frustum
  // ---------------------------------------------------------------------------

  /** A frustum plane `x*px + y*py + z*pz + w >= 0` on the inner side. */
  datatype Plane = Plane(x: real, y: real, z: real, w: real)

  function Side(pl: Plane, q: Vec3r): real {
    pl.x * q.x + pl.y * q.y + pl.z * q.z + pl.w
  }

  /** The corner of the box furthest along the plane's normal. */
  function PositiveVertex(pl: Plane, lo: Vec3r, hi: Vec3r): Vec3r {
    Vec3r(if pl.x >= 0.0 then hi.x else lo.x,
          if pl.y >= 0.0 then hi.y else lo.y,
          if pl.z >= 0.0 then hi.z else lo.z)
  }

  /** `aabb_in_frustum`: false as soon as the positive vertex lies outside one plane. */
  function AabbInFrustum(lo: Vec3r, hi: Vec3r, planes: seq<Plane>): bool {
    if |planes| == 0 then true
    else if Side(planes[0], PositiveVertex(planes[0], lo, hi)) < 0.0 then false
    else AabbInFrustum(lo, hi, planes[1..])
  }

  lemma MulMono(a: real, q: real, m: real)
    requires (a >= 0.0 && q <= m) || (a < 0.0 && q >= m)
    ensures a * q <= a * m
  {
    if a >= 0.0 {
      assert a * m - a * q == a * (m - q);
    } else {
      assert a * q - a * m == (-a) * (m - q);
    }
  }

  /** No point of the box is further along a plane's normal than the positive vertex. */
  lemma PositiveVertexIsFurthest(pl: Plane, lo: Vec3r, hi: Vec3r, q: Vec3r)
    requires InBoxR(q, lo, hi)
    ensures Side(pl, q) <= Side(pl, PositiveVertex(pl, lo, hi))
  {
    var p := PositiveVertex(pl, lo, hi);
    MulMono(pl.x, q.x, p.x);
    MulMono(pl.y, q.y, p.y);
    MulMono(pl.z, q.z, p.z);
    SideMono(pl, q, p);
  }

  /** Side is monotone in each term of the sum. */
  lemma SideMono(pl: Plane, q: Vec3r, p: Vec3r)
    requires pl.x * q.x <= pl.x * p.x && pl.y * q.y <= pl.y * p.y && pl.z * q.z <= pl.z * p.z
    ensures Side(pl, q) <= Side(pl, p)
  {
    var a1, a2, a3 := pl.x * q.x, pl.y * q.y, pl.z * q.z;
    var b1, b2, b3 := pl.x * p.x, pl.y * p.y, pl.z * p.z;
    assert Side(pl, q) == a1 + a2 + a3 + pl.w;
    assert Side(pl, p) == b1 + b2 + b3 + pl.w;
  }

  /**
   * Culling is conservative: a box holding a point inside every plane is
   * never culled.
   */
  lemma {:induction false} InFrustumNeverCulled(lo: Vec3r, hi: Vec3r, planes: seq<Plane>, q: Vec3r)
    requires InBoxR(q, lo, hi)
    requires forall i :: 0 <= i < |planes| ==> Side(planes[i], q) >= 0.0
    ensures AabbInFrustum(lo, hi, planes)
  {
    if |planes| > 0 {
      PositiveVertexIsFurthest(planes[0], lo, hi, q);
      InFrustumNeverCulled(lo, hi, planes[1..], q);
    }
  }

  /** And a culled box lies wholly outside one of the planes. */
  lemma {:induction false} CulledIsOutside(lo: Vec3r, hi: Vec3r, planes: seq<Plane>)
    requires !AabbInFrustum(lo, hi, planes)
    ensures exists i :: 0 <= i < |planes| && Side(planes[i], PositiveVertex(planes[i], lo, hi)) < 0.0
  {
    if Side(planes[0], PositiveVertex(planes[0], lo, hi)) >= 0.0 {
      CulledIsOutside(lo, hi, planes[1..]);
      var i :| 0 <= i < |planes[1..]| && Side(planes[1..][i], PositiveVertex(planes[1..][i], lo, hi)) < 0.0;
      assert planes[1..][i] == planes[i + 1];
    }
  }

  // ---------------------------------------------------------------------------
  // calc_face_normal
  // ---------------------------------------------------------------------------

  function RMin(a: real, b: real): real {
    if a <= b then a else b
  }

  function RAbs(a: real): real {
    if a < 0.0 then -a else a
  }

  /** Distance from a coordinate inside the unit cell to its nearer face, as the source computes it. */
  function FaceDistance(c: real): real {
    RAbs(RMin(c, 1.0 - c))
  }

  predicate UnitAxis(n: Vec3i) {
    n in {Vec3i(-1, 0, 0), Vec3i(1, 0, 0), Vec3i(0, -1, 0), Vec3i(0, 1, 0), Vec3i(0, 0, -1), Vec3i(0, 0, 1)}
  }

  /**
   * `calc_face_normal`: the outward normal of the face of the unit cell
   * at `block` nearest to `hit`; ties go to x, then y, then z, and within an
   * axis the lower face wins below the midpoint.
   */
  function CalcFaceNormal(hit: Vec3r, block: Vec3r): (n: Vec3i)
    ensures UnitAxis(n)
    ensures var rel := Vec3r(hit.x - block.x, hit.y - block.y, hit.z - block.z);
      var (dx, dy, dz) := (FaceDistance(rel.x), FaceDistance(rel.y), FaceDistance(rel.z));
      && (n.x != 0 ==> dx <= dy && dx <= dz && (n.x == -1 <==> rel.x < 0.5))
      && (n.y != 0 ==> dy < dx && dy <= dz && (n.y == -1 <==> rel.y < 0.5))
      && (n.z != 0 ==> dz < dx && dz < dy && (n.z == -1 <==> rel.z < 0.5))
  {
    var rel := Vec3r(hit.x - block.x, hit.y - block.y, hit.z - block.z);
    var dx := FaceDistance(rel.x);
    var dy := FaceDistance(rel.y);
    var dz := FaceDistance(rel.z);
    var m := RMin(dx, RMin(dy, dz));
    if m == dx then
      if rel.x < 0.5 then Vec3i(-1, 0, 0) else Vec3i(1, 0, 0)
    else if m == dy then
      if rel.y < 0.5 then Vec3i(0, -1, 0) else Vec3i(0, 1, 0)
    else if rel.z < 0.5 then Vec3i(0, 0, -1)
    else Vec3i(0, 0, 1)
  }

  /** Distance from a point of the unit cell to the face with outward normal `n`. */
  function DistanceToFace(rel: Vec3r, n: Vec3i): real
    requires UnitAxis(n)
  {
    if n == Vec3i(-1, 0, 0) then rel.x
    else if n == Vec3i(1, 0, 0) then 1.0 - rel.x
    else if n == Vec3i(0, -1, 0) then rel.y
    else if n == Vec3i(0, 1, 0) then 1.0 - rel.y
    else if n == Vec3i(0, 0, -1) then rel.z
    else 1.0 - rel.z
  }

  /**
   * For a hit inside the cell, the chosen face is at least as near as each
   * of the six faces.
   */
  lemma FaceNormalIsNearestFace(hit: Vec3r, block: Vec3r, other: Vec3i)
    requires var rel := Vec3r(hit.x - block.x, hit.y - block.y, hit.z - block.z);
      InBoxR(rel, Vec3r(0.0, 0.0, 0.0), Vec3r(1.0, 1.0, 1.0))
    requires UnitAxis(other)
    ensures var rel := Vec3r(hit.x - block.x, hit.y - block.y, hit.z - block.z);
      DistanceToFace(rel, CalcFaceNormal(hit, block)) <= DistanceToFace(rel, other)
  {
  }

  // ---------------------------------------------------------------------------
  // request_chunks_around_player
  // ---------------------------------------------------------------------------

  /** `CHUNK_RADIUS`: one less than the render distance of 8 chunks. */
  const ChunkRadius: int := 7

  function LengthSquared(o: Vec3i): int {
    o.x * o.x + o.y * o.y + o.z * o.z
  }

  /** The offsets the triple loop visits and does not skip. */
  function Ball(): (b: set<Vec3i>)
    ensures forall o :: o in b <==>
      && -ChunkRadius <= o.x <= ChunkRadius && -ChunkRadius <= o.y <= ChunkRadius && -ChunkRadius <= o.z <= ChunkRadius
      && LengthSquared(o) <= ChunkRadius * ChunkRadius
  {
    set x: int, y: int, z: int | -ChunkRadius <= x <= ChunkRadius && -ChunkRadius <= y <= ChunkRadius
      && -ChunkRadius <= z <= ChunkRadius && LengthSquared(Vec3i(x, y, z)) <= ChunkRadius * ChunkRadius
      :: Vec3i(x, y, z)
  }

  /** The chunk holding a world position: `(pos / 16).floor()`. */
  function PlayerChunk(pos: Vec3r): Vec3i {
    Vec3i((pos.x / 16.0).Floor, (pos.y / 16.0).Floor, (pos.z / 16.0).Floor)
  }

  /**
   * `request_chunks_around_player`: every chunk of the ball around the
   * player's chunk that is neither resident nor queued gets a generation
   * task and is queued. Returns the chunks sent and the new queued set.
   */
  function RequestChunksAroundPlayer(pos: Vec3r, resident: set<Vec3i>, queued: set<Vec3i>)
    : (r: (set<Vec3i>, set<Vec3i>))
    ensures r.1 == queued + r.0
    ensures r.0 !! resident && r.0 !! queued
    ensures forall c :: c in r.0 ==> LengthSquared(c.Add(PlayerChunk(pos).Scale(-1))) <= ChunkRadius * ChunkRadius
  {
    var pc := PlayerChunk(pos);
    var sent := set o | o in Ball() && pc.Add(o) !in resident && pc.Add(o) !in queued :: pc.Add(o);
    assert forall c :: c in sent ==> c.Add(pc.Scale(-1)) in Ball();
    (sent, queued + sent)
  }

  /**
   * Afterwards every chunk within the radius is resident or queued, so a
   * second call from the same chunk sends nothing.
   */
  lemma RequestCoversBall(pos: Vec3r, resident: set<Vec3i>, queued: set<Vec3i>, o: Vec3i)
    requires o in Ball()
    ensures var r := RequestChunksAroundPlayer(pos, resident, queued);
      var c := PlayerChunk(pos).Add(o);
      && (c in resident || c in r.1)
      && (c !in resident && c !in queued ==> c in r.0)
  {
  }

  lemma RequestIdempotent(pos: Vec3r, resident: set<Vec3i>, queued: set<Vec3i>)
    ensures var r := RequestChunksAroundPlayer(pos, resident, queued);
      RequestChunksAroundPlayer(pos, resident, r.1).0 == {}
  {
    var r := RequestChunksAroundPlayer(pos, resident, queued);
    var pc := PlayerChunk(pos);
    forall o | o in Ball()
      ensures pc.Add(o) in resident || pc.Add(o) in r.1
    {
      RequestCoversBall(pos, resident, queued, o);
    }
  }
}
