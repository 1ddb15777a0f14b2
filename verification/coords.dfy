/** Integer vectors and the chunk/local decomposition every world in the engine uses. */
module Coords {

  /** glam's IVec3. */
  datatype Vec3i = Vec3i(x: int, y: int, z: int) {
    function Add(o: Vec3i): Vec3i {
      Vec3i(x + o.x, y + o.y, z + o.z)
    }

    function Scale(k: int): Vec3i {
      Vec3i(x * k, y * k, z * k)
    }

    function LengthSquared(): int {
      x * x + y * y + z * z
    }
  }

  /** Edge length of a chunk in every engine revision. */
  const ChunkSize: int := 16

  /** A local coordinate inside a chunk. */
  predicate InChunk(p: Vec3i) {
    0 <= p.x < ChunkSize && 0 <= p.y < ChunkSize && 0 <= p.z < ChunkSize
  }

  /**
   * Rust's `div_euclid(16)` and `rem_euclid(16)` per axis. Dafny's `/` and `%`
   * are Euclidean for a positive divisor, which is the same definition.
   */
  function ChunkOf(p: Vec3i): (c: Vec3i)
    ensures c.x * ChunkSize <= p.x < c.x * ChunkSize + ChunkSize
    ensures c.y * ChunkSize <= p.y < c.y * ChunkSize + ChunkSize
    ensures c.z * ChunkSize <= p.z < c.z * ChunkSize + ChunkSize
  {
    Vec3i(p.x / ChunkSize, p.y / ChunkSize, p.z / ChunkSize)
  }

  function LocalOf(p: Vec3i): (l: Vec3i)
    ensures InChunk(l)
  {
    Vec3i(p.x % ChunkSize, p.y % ChunkSize, p.z % ChunkSize)
  }

  /** The decomposition is exact: chunk * 16 + local gives the position back. */
  lemma Decompose(p: Vec3i)
    ensures ChunkOf(p).Scale(ChunkSize).Add(LocalOf(p)) == p
    ensures InChunk(LocalOf(p))
  {
  }

  /** And it is the only such decomposition: chunk and local are determined by the position. */
  lemma DecomposeUnique(p: Vec3i, c: Vec3i, l: Vec3i)
    requires InChunk(l) && c.Scale(ChunkSize).Add(l) == p
    ensures c == ChunkOf(p) && l == LocalOf(p)
  {
  }
}
