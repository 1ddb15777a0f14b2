/**
 * The vertex and index buffers every mesher of the engine fills the same way:
 * each visible face pushes four vertices and the six indices
 * o, o+1, o+2, o, o+2, o+3 of its two triangles, where o is the running
 * vertex count (`index_offset` in the split revision, `base_index` in the
 * client).
 */
module Meshes {

  /** Vertex and index buffers plus the running offset the next quad starts at. */
  datatype Mesh<V> = Mesh(vertices: seq<V>, indices: seq<int>, offset: int)

  function EmptyMesh<V>(): (m: Mesh<V>)
    ensures WellFormed(m) && QuadCount(m) == 0
  {
    Mesh([], [], 0)
  }

  /** The six indices of the two triangles (o, o+1, o+2) and (o, o+2, o+3) of the quad starting at vertex o. */
  function QuadIndices(o: int): (r: seq<int>)
    ensures |r| == 6
    ensures forall k :: 0 <= k < 6 ==> o <= r[k] < o + 4
  {
    [o, o + 1, o + 2, o, o + 2, o + 3]
  }

  /** The index buffer of `n` consecutive quads. */
  function Pattern(n: nat): seq<int> {
    if n == 0 then [] else Pattern(n - 1) + QuadIndices(4 * (n - 1))
  }

  /** The number of quads pushed so far. */
  function QuadCount<V>(m: Mesh<V>): nat {
    |m.vertices| / 4
  }

  /** Four vertices per quad, the fixed index pattern, and the offset equal to the vertex count. */
  predicate WellFormed<V>(m: Mesh<V>) {
    && |m.vertices| % 4 == 0
    && m.indices == Pattern(|m.vertices| / 4)
    && m.offset == |m.vertices|
  }

  /** Push one face: its four vertices, then the six indices from the running offset, which advances by 4. */
  function PushQuad<V>(m: Mesh<V>, quad: seq<V>): (r: Mesh<V>)
    requires |quad| == 4
    ensures WellFormed(m) ==> WellFormed(r) && QuadCount(r) == QuadCount(m) + 1
    ensures r.vertices == m.vertices + quad
  {
    Mesh(m.vertices + quad, m.indices + QuadIndices(m.offset), m.offset + 4)
  }

  /** Every face has four vertices. */
  predicate AllQuads<V>(quads: seq<seq<V>>) {
    forall k :: 0 <= k < |quads| ==> |quads[k]| == 4
  }

  /** Push several faces in order. */
  function PushQuads<V>(m: Mesh<V>, quads: seq<seq<V>>): (r: Mesh<V>)
    requires AllQuads(quads)
    decreases |quads|
  {
    if |quads| == 0 then m else PushQuads(PushQuad(m, quads[0]), quads[1..])
  }

  /** Pushing faces keeps a mesh well formed and adds one quad per face. */
  lemma {:induction false} PushQuadsWellFormed<V>(m: Mesh<V>, quads: seq<seq<V>>)
    requires AllQuads(quads)
    requires WellFormed(m)
    ensures WellFormed(PushQuads(m, quads))
    ensures QuadCount(PushQuads(m, quads)) == QuadCount(m) + |quads|
    decreases |quads|
  {
    if |quads| > 0 {
      PushQuadsWellFormed(PushQuad(m, quads[0]), quads[1..]);
    }
  }

  /** The vertices pushed are exactly the faces' vertices, in order. */
  lemma {:induction false} PushQuadsVertices<V>(m: Mesh<V>, quads: seq<seq<V>>)
    requires AllQuads(quads)
    ensures PushQuads(m, quads).vertices == m.vertices + Flatten(quads)
    decreases |quads|
  {
    if |quads| > 0 {
      PushQuadsVertices(PushQuad(m, quads[0]), quads[1..]);
      assert m.vertices + quads[0] + Flatten(quads[1..]) == m.vertices + Flatten(quads);
    }
  }

  function Flatten<V>(qs: seq<seq<V>>): seq<V> {
    if |qs| == 0 then [] else qs[0] + Flatten(qs[1..])
  }

  /** An element of a part is an element of the concatenation. */
  lemma FlattenHas<V>(qs: seq<seq<V>>, k: nat, x: V)
    requires k < |qs| && x in qs[k]
    ensures x in Flatten(qs)
  {
    FlattenMember(qs, x);
  }

  /** An element of the concatenation is an element of one of the parts, and conversely. */
  lemma {:induction false} FlattenMember<V>(qs: seq<seq<V>>, x: V)
    ensures x in Flatten(qs) <==> exists k :: 0 <= k < |qs| && x in qs[k]
    decreases |qs|
  {
    if |qs| > 0 {
      FlattenMember(qs[1..], x);
      if x in Flatten(qs[1..]) {
        var k :| 0 <= k < |qs[1..]| && x in qs[1..][k];
        assert x in qs[k + 1];
      }
      if exists k :: 0 <= k < |qs| && x in qs[k] {
        var k :| 0 <= k < |qs| && x in qs[k];
        if k > 0 {
          assert x in qs[1..][k - 1];
        }
      }
    }
  }

  /** The index pattern of n quads has 6n entries, each naming one of the 4n vertices. */
  lemma {:induction false} PatternBounds(n: nat)
    ensures |Pattern(n)| == 6 * n
    ensures forall k :: 0 <= k < |Pattern(n)| ==> 0 <= Pattern(n)[k] < 4 * n
  {
    if n > 0 {
      PatternBounds(n - 1);
      var p := Pattern(n - 1);
      var q := QuadIndices(4 * (n - 1));
      assert Pattern(n) == p + q;
      forall k | 0 <= k < |Pattern(n)|
        ensures 0 <= Pattern(n)[k] < 4 * n
      {
        if k < |p| {
          assert Pattern(n)[k] == p[k];
        } else {
          assert Pattern(n)[k] == q[k - |p|];
        }
      }
    }
  }

  /** In a well-formed mesh every index names a vertex, and there are 1.5 indices per vertex. */
  lemma IndicesInRange<V>(m: Mesh<V>)
    requires WellFormed(m)
    ensures forall k :: 0 <= k < |m.indices| ==> 0 <= m.indices[k] < |m.vertices|
    ensures 2 * |m.indices| == 3 * |m.vertices|
  {
    PatternBounds(|m.vertices| / 4);
  }

  /** The mesh of a list of faces, pushed in order from empty buffers. */
  function BuildMesh<V>(quads: seq<seq<V>>): (m: Mesh<V>)
    requires AllQuads(quads)
    ensures WellFormed(m) && QuadCount(m) == |quads|
    ensures forall k :: 0 <= k < |m.indices| ==> 0 <= m.indices[k] < |m.vertices|
    ensures m.vertices == Flatten(quads)
  {
    var m := PushQuads(EmptyMesh(), quads);
    PushQuadsWellFormed(EmptyMesh(), quads);
    PushQuadsVertices(EmptyMesh(), quads);
    IndicesInRange(m);
    m
  }
}
