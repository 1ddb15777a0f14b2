/**
 * Chunk requests of the early engine's main loop (src/main.rs): every frame
 * the chunks around the player that are neither resident nor already queued
 * are sent to the generation worker and marked queued, and the queued set
 * then drops the chunks that have become resident. The worker channel is a
 * sequence of sent coordinates; the world is the set of its resident chunk
 * coordinates.
 */
module ChunkRequests {
  import opened Coords

  /** `CHUNK_RADIUS`: one less than the render distance of 8. */
  const Radius: int := 7

  /** Side of the scanned cube: -7..=7 on each axis. */
  const Side: nat := 15

  /** The number of offsets the three nested loops visit. */
  const Cube: nat := Side * Side * Side

  /** An offset inside the scanned cube. */
  predicate InCube(o: Vec3i) {
    -Radius <= o.x <= Radius && -Radius <= o.y <= Radius && -Radius <= o.z <= Radius
  }

  /** The offset of k from cp. */
  function Rel(k: Vec3i, cp: Vec3i): (o: Vec3i)
    ensures cp.Add(o) == k
  {
    Vec3i(k.x - cp.x, k.y - cp.y, k.z - cp.z)
  }

  /** The i-th offset the loops visit: x outermost, z innermost. */
  function OffsetAt(i: nat): (o: Vec3i)
    requires i < Cube
    ensures InCube(o)
  {
    Vec3i(i / (Side * Side) - Radius, (i / Side) % Side - Radius, i % Side - Radius)
  }

  /** Where the loops visit an offset of the cube. */
  function IndexOfOffset(o: Vec3i): (i: nat)
    requires InCube(o)
    ensures i < Cube
  {
    (o.x + Radius) * (Side * Side) + (o.y + Radius) * Side + (o.z + Radius)
  }

  lemma DivMod15(n: int, q: int, r: int)
    requires 0 <= r < 15 && n == q * 15 + r
    ensures n / 15 == q && n % 15 == r
  {
  }

  /** The loop order visits every offset of the cube ... */
  lemma OffsetIndex(o: Vec3i)
    requires InCube(o)
    ensures OffsetAt(IndexOfOffset(o)) == o
  {
    var a := o.x + 7;
    var b := o.y + 7;
    var c := o.z + 7;
    var i := IndexOfOffset(o);
    assert i == (a * 15 + b) * 15 + c;
    DivMod15(i, a * 15 + b, c);
    DivMod15(a * 15 + b, a, b);
    assert i / 225 == a by {
      assert i == a * 225 + (b * 15 + c);
    }
  }

  /** ... and only once. */
  lemma IndexOffset(i: nat)
    requires i < Cube
    ensures IndexOfOffset(OffsetAt(i)) == i
  {
    var q := i / 15;
    DivMod15(i, q, i % 15);
    DivMod15(q, q / 15, q % 15);
    assert i / 225 == q / 15;
  }

  /** Squared length at most 49 keeps every coordinate within 7. */
  lemma WithinCube(o: Vec3i)
    requires o.LengthSquared() <= Radius * Radius
    ensures InCube(o)
  {
    SquareBound(o.x, o.y * o.y + o.z * o.z);
    SquareBound(o.y, o.x * o.x + o.z * o.z);
    SquareBound(o.z, o.x * o.x + o.y * o.y);
  }

  lemma SquareBound(v: int, rest: int)
    requires rest >= 0 && v * v + rest <= 49
    ensures -7 <= v <= 7
  {
  }

  /** A chunk the loops request: within the radius, not resident, not queued before this frame. */
  predicate Wanted(cp: Vec3i, resident: set<Vec3i>, queued: set<Vec3i>, k: Vec3i) {
    Rel(k, cp).LengthSquared() <= Radius * Radius && k !in resident && k !in queued
  }

  /** What the loops have sent after visiting the first n offsets. */
  function Visited(cp: Vec3i, resident: set<Vec3i>, queued: set<Vec3i>, n: nat): (r: seq<Vec3i>)
    requires n <= Cube
    ensures forall j :: 0 <= j < |r| ==> InCube(Rel(r[j], cp)) && IndexOfOffset(Rel(r[j], cp)) < n
  {
    if n == 0 then []
    else
      var o := OffsetAt(n - 1);
      IndexOffset(n - 1);
      assert Rel(cp.Add(o), cp) == o;
      Visited(cp, resident, queued, n - 1)
        + if Wanted(cp, resident, queued, cp.Add(o)) then [cp.Add(o)] else []
  }

  /** The first n offsets give k iff k is wanted and its offset is among them. */
  lemma {:induction false} VisitedMembers(cp: Vec3i, resident: set<Vec3i>, queued: set<Vec3i>, n: nat, k: Vec3i)
    requires n <= Cube
    ensures k in Visited(cp, resident, queued, n) <==>
      Wanted(cp, resident, queued, k) && InCube(Rel(k, cp)) && IndexOfOffset(Rel(k, cp)) < n
  {
    if n > 0 {
      VisitedMembers(cp, resident, queued, n - 1, k);
      var o := OffsetAt(n - 1);
      IndexOffset(n - 1);
      assert Rel(cp.Add(o), cp) == o;
      if InCube(Rel(k, cp)) && IndexOfOffset(Rel(k, cp)) == n - 1 {
        OffsetIndex(Rel(k, cp));
      }
    }
  }

  /** The chunks a sequence holds. */
  function Elems(r: seq<Vec3i>): set<Vec3i> {
    set k | k in r
  }

  predicate Distinct(r: seq<Vec3i>) {
    forall a, b :: 0 <= a < b < |r| ==> r[a] != r[b]
  }

  /** No chunk is sent twice in a frame: each comes from one offset, visited once. */
  lemma {:induction false} VisitedDistinct(cp: Vec3i, resident: set<Vec3i>, queued: set<Vec3i>, n: nat)
    requires n <= Cube
    ensures Distinct(Visited(cp, resident, queued, n))
  {
    if n > 0 {
      VisitedDistinct(cp, resident, queued, n - 1);
      var before := Visited(cp, resident, queued, n - 1);
      var r := Visited(cp, resident, queued, n);
      if |r| > |before| {
        var o := OffsetAt(n - 1);
        IndexOffset(n - 1);
        assert Rel(cp.Add(o), cp) == o;
        assert r == before + [cp.Add(o)];
        forall a, b | 0 <= a < b < |r|
          ensures r[a] != r[b]
        {
          if b == |before| {
            assert IndexOfOffset(Rel(r[a], cp)) < n - 1;
          }
        }
      }
    }
  }

  /** Visiting offset i appends its chunk when wanted; the chunk was not sent before. */
  lemma VisitedStep(cp: Vec3i, resident: set<Vec3i>, queued: set<Vec3i>, i: nat)
    requires i < Cube
    ensures var p := cp.Add(OffsetAt(i));
      && p !in Visited(cp, resident, queued, i)
      && Visited(cp, resident, queued, i + 1)
        == Visited(cp, resident, queued, i) + if Wanted(cp, resident, queued, p) then [p] else []
  {
    var o := OffsetAt(i);
    IndexOffset(i);
    assert Rel(cp.Add(o), cp) == o;
  }

  /** The whole scan sends exactly the wanted chunks, each once. */
  lemma VisitedSpec(cp: Vec3i, resident: set<Vec3i>, queued: set<Vec3i>)
    ensures forall k :: k in Visited(cp, resident, queued, Cube) <==> Wanted(cp, resident, queued, k)
    ensures Distinct(Visited(cp, resident, queued, Cube))
  {
    forall k
      ensures k in Visited(cp, resident, queued, Cube) <==> Wanted(cp, resident, queued, k)
    {
      VisitedMembers(cp, resident, queued, Cube, k);
      if Wanted(cp, resident, queued, k) {
        WithinCube(Rel(k, cp));
      }
    }
    VisitedDistinct(cp, resident, queued, Cube);
  }

  /**
   * `request_chunks_around_player`: sends, exactly once each, the chunks
   * within squared distance 49 of the player's chunk that are neither
   * resident nor queued, and adds them to the queued set.
   */
  method RequestChunks(cp: Vec3i, resident: set<Vec3i>, queued: set<Vec3i>)
    returns (sent: seq<Vec3i>, queuedOut: set<Vec3i>)
    ensures forall k :: k in sent <==> Wanted(cp, resident, queued, k)
    ensures Distinct(sent)
    ensures queuedOut == queued + Elems(sent)
    ensures sent == Visited(cp, resident, queued, Cube)
  {
    sent := [];
    queuedOut := queued;
    var i := 0;
    while i < Cube
      invariant i <= Cube
      invariant sent == Visited(cp, resident, queued, i)
      invariant queuedOut == queued + Elems(sent)
    {
      var o := OffsetAt(i);
      var p := cp.Add(o);
      VisitedStep(cp, resident, queued, i);
      assert Rel(p, cp) == o;
      if o.LengthSquared() <= Radius * Radius && p !in resident && p !in queuedOut {
        sent := sent + [p];
        queuedOut := queuedOut + {p};
      }
      i := i + 1;
    }
    VisitedSpec(cp, resident, queued);
  }

  /** The queued-set pruning: keep only the chunks that are still not resident. */
  function Prune(queued: set<Vec3i>, resident: set<Vec3i>): (r: set<Vec3i>)
    ensures r <= queued
    ensures forall k :: k in r <==> k in queued && k !in resident
  {
    set k | k in queued && k !in resident
  }

  /**
   * A frame's request and pruning together: the chunks sent this frame stay
   * queued, and the queued set never holds a resident chunk afterwards; so a
   * chunk is not requested again until it has arrived and left the world.
   */
  lemma RequestThenPrune(cp: Vec3i, resident: set<Vec3i>, queued: set<Vec3i>)
    ensures var sent := Visited(cp, resident, queued, Cube);
      Prune(queued + Elems(sent), resident) == Prune(queued, resident) + Elems(sent)
  {
    var sent := Visited(cp, resident, queued, Cube);
    forall k | k in sent
      ensures k !in resident
    {
      VisitedMembers(cp, resident, queued, Cube, k);
    }
  }

  /** A queued chunk is never sent, whatever else the frame holds. */
  lemma QueuedNotResent(cp: Vec3i, resident: set<Vec3i>, queued: set<Vec3i>, k: Vec3i)
    requires k in queued || k in resident
    ensures k !in Visited(cp, resident, queued, Cube)
  {
    VisitedMembers(cp, resident, queued, Cube, k);
  }
}
