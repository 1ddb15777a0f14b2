/**
 * The bit-packing helpers of the split revision and of the backup mesh code:
 * texture coordinates, block positions, foliage colours, the shape mask of a
 * block word, and the 64-bit vertex word that the block shader unpacks.
 */
module Packing {

  /** `pack_uv`: the shift and the or happen in u32 (bits above 31 are lost), then the word is widened. */
  function PackUv(x: bv32, y: bv32): bv64 {
    ((x << 5) | y) as bv64
  }

  function UnpackUv(p: bv64): (bv32, bv32) {
    (((p >> 5) & 0xFFFF_FFFF) as bv32, (p & 31) as bv32)
  }

  /** Texture coordinates survive packing as long as y fits in 5 bits and x in the 27 bits left for it. */
  lemma UnpackPackUv(x: bv32, y: bv32)
    requires y < 32 && x < 0x800_0000
    ensures UnpackUv(PackUv(x, y)) == (x, y)
    ensures PackUv(x, y) < 0x1_0000_0000
  {
  }

  lemma PackUvInjective(x1: bv32, y1: bv32, x2: bv32, y2: bv32)
    requires y1 < 32 && y2 < 32 && x1 < 0x800_0000 && x2 < 0x800_0000
    requires PackUv(x1, y1) == PackUv(x2, y2)
    ensures x1 == x2 && y1 == y2
  {
    UnpackPackUv(x1, y1);
    UnpackPackUv(x2, y2);
  }

  /** The x bound is needed: the u32 shift drops the top five bits of x. */
  lemma PackUvDropsHighBits()
    ensures PackUv(0x800_0000, 0) == PackUv(0, 0)
  {
  }

  /** `pack_block_pos`: x in bits 8.., y in bits 4..7, z in bits 0..3. */
  function PackBlockPos(x: bv32, y: bv32, z: bv32): bv64 {
    ((x << 8) | (y << 4) | z) as bv64
  }

  lemma UnpackPackBlockPos(x: bv32, y: bv32, z: bv32)
    requires x < 16 && y < 16 && z < 16
    ensures var p := PackBlockPos(x, y, z);
      (p >> 8) as bv32 == x && ((p >> 4) & 15) as bv32 == y && (p & 15) as bv32 == z
    ensures PackBlockPos(x, y, z) < 4096
  {
  }

  lemma PackBlockPosInjective(x1: bv32, y1: bv32, z1: bv32, x2: bv32, y2: bv32, z2: bv32)
    requires x1 < 16 && y1 < 16 && z1 < 16 && x2 < 16 && y2 < 16 && z2 < 16
    requires PackBlockPos(x1, y1, z1) == PackBlockPos(x2, y2, z2)
    ensures x1 == x2 && y1 == y2 && z1 == z2
  {
    UnpackPackBlockPos(x1, y1, z1);
    UnpackPackBlockPos(x2, y2, z2);
  }

  /** `mask_partial`: the shape tag of a block word, bits 16 to 19. */
  function MaskPartial(bits: bv32): (r: bv32)
    ensures r < 16
  {
    (bits >> 16) & 0xF
  }

  /** A word built from a shape tag and a 16-bit material gives the tag back. */
  lemma MaskPartialOfComposed(shape: bv32, material: bv32)
    requires shape < 16 && material < 0x1_0000
    ensures MaskPartial((shape << 16) | material) == shape
    ensures ((shape << 16) | material) & 0xFFFF == material
  {
  }

  /** A colour component as the f32 maths sees it; rounding error of the multiply is not modelled. */
  datatype Color = Color(r: real, g: real, b: real)

  /** `(v * scale).round() as u64`: half away from zero, then a saturating cast (negatives become 0). */
  function RoundToU64(v: real): (n: nat)
    ensures n < 0x1_0000_0000_0000_0000
    ensures 0.0 <= v && v + 0.5 < 0x1_0000_0000_0000_0000 as real ==> v - 0.5 < n as real <= v + 0.5
  {
    if v < 0.0 then 0
    else if (v + 0.5).Floor >= 0x1_0000_0000_0000_0000 then 0xFFFF_FFFF_FFFF_FFFF
    else (v + 0.5).Floor
  }

  predicate UnitRange(v: real) {
    0.0 <= v <= 1.0
  }

  /** One colour channel scaled to its width and rounded: `(v * scale).round() as u64`. */
  function Channel(v: real, scale: real): (n: bv64)
    requires scale == 63.0 || scale == 127.0
    ensures UnitRange(v) ==> n < 128 && (scale == 63.0 ==> n < 64)
  {
    var k := RoundToU64(v * scale);
    if UnitRange(v) then
      RoundedChannelBounds(v, scale);
      SmallToBv(k);
      k as bv64
    else k as bv64
  }

  /** `pack_color_rgb677`: red in 6 bits at 14, green in 7 bits at 7, blue in 7 bits at 0. */
  function PackColorRgb677(c: Color): bv64 {
    PackChannels(Channel(c.r, 63.0), Channel(c.g, 127.0), Channel(c.b, 127.0))
  }

  function PackChannels(r: bv64, g: bv64, b: bv64): bv64 {
    (r << 14) | (g << 7) | b
  }

  lemma RoundedChannelBounds(v: real, scale: real)
    requires UnitRange(v)
    requires scale == 63.0 || scale == 127.0
    ensures RoundToU64(v * scale) < scale as int + 1
  {
    assert v * scale + 0.5 < scale + 1.0;
  }

  lemma SmallToBv(n: nat)
    requires n < 128
    ensures n < 64 ==> (n as bv64) < 64
    ensures (n as bv64) < 128
  {
  }

  lemma ChannelsSeparate(r: bv64, g: bv64, b: bv64)
    requires r < 64 && g < 128 && b < 128
    ensures var p := PackChannels(r, g, b);
      p < 0x10_0000 && p >> 14 == r && (p >> 7) & 127 == g && p & 127 == b
  {
  }

  /** For components in [0, 1] every channel fits its width, so the packed colour fits 20 bits and each channel reads back. */
  lemma PackColorFits(c: Color)
    requires UnitRange(c.r) && UnitRange(c.g) && UnitRange(c.b)
    ensures var p := PackColorRgb677(c);
      && p < 0x10_0000
      && p >> 14 == Channel(c.r, 63.0)
      && (p >> 7) & 127 == Channel(c.g, 127.0)
      && p & 127 == Channel(c.b, 127.0)
  {
    ChannelsSeparate(Channel(c.r, 63.0), Channel(c.g, 127.0), Channel(c.b, 127.0));
  }

  /** The vertex word of `BlockVertex::new`, split into the two u32 halves the shader receives. */
  datatype PackedVertex = PackedVertex(hi: bv32, lo: bv32)

  /** The fields a vertex word carries: face index, packed uv, material, packed foliage colour. */
  datatype VertexFields = VertexFields(normal: bv64, uv: bv64, blockType: bv64, foliage: bv64)

  predicate FieldsFit(f: VertexFields) {
    f.normal < 8 && f.uv < 0x400 && f.blockType < 0x1_0000 && f.foliage < 0x10_0000
  }

  function Serialize(f: VertexFields): bv64 {
    (f.normal << 15) | (f.uv << 18) | (f.blockType << 28) | (f.foliage << 44)
  }

  /** Reads the fields back from their bit ranges [15,18), [18,28), [28,44) and [44,64). */
  function Deserialize(s: bv64): VertexFields {
    VertexFields((s >> 15) & 7, (s >> 18) & 0x3FF, (s >> 28) & 0xFFFF, s >> 44)
  }

  function SplitWord(s: bv64): PackedVertex {
    PackedVertex((s >> 32) as bv32, (s & 0xFFFF_FFFF) as bv32)
  }

  function JoinWord(v: PackedVertex): bv64 {
    ((v.hi as bv64) << 32) | (v.lo as bv64)
  }

  /** `BlockVertex::new` without the position, which is carried through unchanged. */
  function NewVertex(normal: bv8, uvX: bv32, uvY: bv32, blockType: bv16, foliage: Color): PackedVertex {
    SplitWord(Serialize(VertexFields(normal as bv64, PackUv(uvX, uvY), blockType as bv64, PackColorRgb677(foliage))))
  }

  /** Fields within their widths occupy disjoint bit ranges: they read back intact and the low 15 bits stay free. */
  lemma DeserializeSerialize(f: VertexFields)
    requires FieldsFit(f)
    ensures Deserialize(Serialize(f)) == f
    ensures Serialize(f) & 0x7FFF == 0
  {
  }

  /** hi and lo are exactly the upper and lower halves of the vertex word. */
  lemma JoinSplitWord(s: bv64)
    ensures JoinWord(SplitWord(s)) == s
  {
  }

  /** The full constructor: with a face index below 8, a small uv, and a unit colour, every field is recoverable from hi and lo. */
  lemma {:induction false} NewVertexRecoverable(normal: bv8, uvX: bv32, uvY: bv32, blockType: bv16, foliage: Color)
    requires normal < 8 && uvX < 32 && uvY < 32
    requires UnitRange(foliage.r) && UnitRange(foliage.g) && UnitRange(foliage.b)
    ensures var f := Deserialize(JoinWord(NewVertex(normal, uvX, uvY, blockType, foliage)));
      f.normal == normal as bv64 && UnpackUv(f.uv) == (uvX, uvY)
      && f.blockType == blockType as bv64 && f.foliage == PackColorRgb677(foliage)
  {
    var f := VertexFields(normal as bv64, PackUv(uvX, uvY), blockType as bv64, PackColorRgb677(foliage));
    UnpackPackUv(uvX, uvY);
    assert f.uv < 0x400;
    PackColorFits(foliage);
    DeserializeSerialize(f);
    JoinSplitWord(Serialize(f));
  }
}
