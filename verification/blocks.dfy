/**
 * Blocks of the split revision (and, identically, of the monolith): the u32
 * word each block is stored as, its four-way classification, the face
 * occlusion table, the model a block is drawn with, and its translation key.
 */
module Blocks {
  import opened Wrappers
  import opened Packing
  import opened Assets

  datatype Block =
    | Air | Grass | Dirt | Planks
    | PlanksSlabTop | PlanksSlabBottom | PlanksStairsN | PlanksStairsS | PlanksStairsE | PlanksStairsW
    | Stone | OakLog | Leaves | CobbleStone
    | StoneSlabTop | StoneSlabBottom | StoneStairsN | StoneStairsS | StoneStairsE | StoneStairsW
    | Glass | Brick | Snow | Glungus | Bedrock

  /** Shape tags, stored in bits 16 to 19 of the block word. */
  const FullBlock: bv32 := 0x0000_0000
  const PartialSlabTop: bv32 := 0x0001_0000
  const PartialSlabBottom: bv32 := 0x0002_0000
  const PartialStairsN: bv32 := 0x0003_0000
  const PartialStairsS: bv32 := 0x0004_0000
  const PartialStairsE: bv32 := 0x0005_0000
  const PartialStairsW: bv32 := 0x0006_0000
  const BlockMask: bv32 := 0x0000_FFFF

  /** The `#[repr(u32)]` discriminant: a shape tag or-ed with a material index. */
  function Encode(b: Block): bv32 {
    match b
    case Air => FullBlock
    case Grass => FullBlock | 0x0001
    case Dirt => FullBlock | 0x0002
    case Planks => FullBlock | 0x0003
    case PlanksSlabTop => PartialSlabTop | 0x0003
    case PlanksSlabBottom => PartialSlabBottom | 0x0003
    case PlanksStairsN => PartialStairsN | 0x0003
    case PlanksStairsS => PartialStairsS | 0x0003
    case PlanksStairsE => PartialStairsE | 0x0003
    case PlanksStairsW => PartialStairsW | 0x0003
    case Stone => FullBlock | 0x0004
    case OakLog => FullBlock | 0x0005
    case Leaves => FullBlock | 0x0006
    case CobbleStone => FullBlock | 0x0007
    case StoneSlabTop => PartialSlabTop | 0x0007
    case StoneSlabBottom => PartialSlabBottom | 0x0007
    case StoneStairsN => PartialStairsN | 0x0007
    case StoneStairsS => PartialStairsS | 0x0007
    case StoneStairsE => PartialStairsE | 0x0007
    case StoneStairsW => PartialStairsW | 0x0007
    case Glass => FullBlock | 0x0008
    case Brick => FullBlock | 0x0009
    case Snow => FullBlock | 0x000A
    case Glungus => FullBlock | 0x000B
    case Bedrock => FullBlock | 0x000C
  }

  /** Every variant, in declaration order. */
  const AllBlocks: seq<Block> := [
    Air, Grass, Dirt, Planks,
    PlanksSlabTop, PlanksSlabBottom, PlanksStairsN, PlanksStairsS, PlanksStairsE, PlanksStairsW,
    Stone, OakLog, Leaves, CobbleStone,
    StoneSlabTop, StoneSlabBottom, StoneStairsN, StoneStairsS, StoneStairsE, StoneStairsW,
    Glass, Brick, Snow, Glungus, Bedrock]

  lemma AllBlocksComplete(b: Block)
    ensures b in AllBlocks
  {
  }

  /** The shape tag of a block; `mask_partial` of its word. */
  function Shape(b: Block): (s: bv32)
    ensures s <= 6
  {
    MaskPartial(Encode(b))
  }

  /** The material index, the low 16 bits. */
  function Material(b: Block): bv32 {
    Encode(b) & BlockMask
  }

  /** Every discriminant is exactly its shape tag above its material: nothing lives outside bits 0 to 19. */
  lemma EncodeSplits(b: Block)
    ensures Encode(b) == (Shape(b) << 16) | Material(b)
    ensures Encode(b) >> 16 == Shape(b)
    ensures Material(b) <= 0xC
  {
  }

  /** The discriminants are pairwise distinct, so the word identifies the block. */
  lemma EncodeInjective(a: Block, b: Block)
    requires Encode(a) == Encode(b)
    ensures a == b
  {
    EncodeSplits(a);
    EncodeSplits(b);
  }

  /** The block whose discriminant is `w`, if any: the inverse of `Encode`. */
  function Decode(w: bv32): (r: Option<Block>)
    ensures r.Some? ==> Encode(r.value) == w
    ensures r.None? ==> forall b :: Encode(b) != w
  {
    var r := DecodeFrom(w, AllBlocks);
    if r.None? then NoVariantHasWord(w); r else r
  }

  lemma NoVariantHasWord(w: bv32)
    requires forall i :: 0 <= i < |AllBlocks| ==> Encode(AllBlocks[i]) != w
    ensures forall b :: Encode(b) != w
  {
    forall b ensures Encode(b) != w {
      AllBlocksComplete(b);
      var i :| 0 <= i < |AllBlocks| && AllBlocks[i] == b;
    }
  }

  function DecodeFrom(w: bv32, candidates: seq<Block>): (r: Option<Block>)
    ensures r.Some? ==> Encode(r.value) == w
    ensures r.None? ==> forall i :: 0 <= i < |candidates| ==> Encode(candidates[i]) != w
  {
    if |candidates| == 0 then None
    else if Encode(candidates[0]) == w then Some(candidates[0])
    else DecodeFrom(w, candidates[1..])
  }

  lemma DecodeEncode(b: Block)
    ensures Decode(Encode(b)) == Some(b)
  {
    var r := Decode(Encode(b));
    if r.Some? {
      EncodeInjective(r.value, b);
    }
  }

  predicate IsTransparent(b: Block) {
    b == Air || b == Leaves || b == Glass
  }

  datatype BlockType = FullOpaque | Translucent | Partial | AirType

  /**
   * `block_type`: Air first, then any nonzero shape tag is Partial, then the
   * transparent blocks are Translucent and everything else is FullOpaque.
   */
  function TypeOf(b: Block): (t: BlockType)
    ensures t == AirType <==> b == Air
    ensures t == Partial <==> Shape(b) != 0
    ensures t == Translucent <==> b == Leaves || b == Glass
    ensures t == FullOpaque <==> b in {Grass, Dirt, Planks, Stone, OakLog, CobbleStone, Brick, Snow, Glungus, Bedrock}
  {
    if b == Air then AirType
    else if Shape(b) > 0 then Partial
    else if IsTransparent(b) then Translucent
    else FullOpaque
  }

  /** `should_occlude(self, neighbour)`: whether a face of `self` is hidden by `neighbour`. */
  function ShouldOcclude(self: BlockType, neighbour: BlockType): bool {
    match (self, neighbour)
    case (FullOpaque, FullOpaque) => true
    case (FullOpaque, _) => false
    case (Translucent, FullOpaque) => true
    case (Translucent, Translucent) => true
    case (Translucent, _) => false
    case (Partial, _) => false
    case (AirType, _) => false
  }

  /** How much a neighbour hides: opaque cubes fully, translucent cubes partly, partial shapes and air not at all. */
  function Opacity(t: BlockType): nat {
    match t
    case FullOpaque => 2
    case Translucent => 1
    case Partial => 0
    case AirType => 0
  }

  /**
   * The table in one sentence: only faces of whole cubes are ever culled, and
   * a face is culled exactly when the neighbour is at least as opaque as the
   * block itself (so glass hides glass, but glass never hides stone).
   */
  lemma ShouldOccludeIsOpacityOrder(a: BlockType, b: BlockType)
    ensures ShouldOcclude(a, b) <==> (a == FullOpaque || a == Translucent) && Opacity(b) >= Opacity(a)
  {
  }

  /** Exactly three of the sixteen pairs occlude. */
  lemma ShouldOccludeTable()
    ensures (set a: BlockType, b: BlockType | ShouldOcclude(a, b) :: (a, b))
            == {(FullOpaque, FullOpaque), (Translucent, FullOpaque), (Translucent, Translucent)}
  {
    var s := set a: BlockType, b: BlockType | ShouldOcclude(a, b) :: (a, b);
    forall p | p in s ensures p in {(FullOpaque, FullOpaque), (Translucent, FullOpaque), (Translucent, Translucent)} {
    }
    assert ShouldOcclude(FullOpaque, FullOpaque) && ShouldOcclude(Translucent, FullOpaque) && ShouldOcclude(Translucent, Translucent);
  }

  // ---------------------------------------------------------------------------
  // Models and texture coordinates
  // ---------------------------------------------------------------------------

  /** The model name drawn for each shape tag; tags 7 to 15 would hit `unreachable!`. */
  const ShapeModels: seq<string> := ["full", "slab_top", "slab_bottom", "stairs_n", "stairs_s", "stairs_e", "stairs_w"]

  /** The seven shape models are all loaded; `cubes` and `uvs` unwrap the ones they use. */
  predicate HasShapeModels(defs: map<string, ModelDef>) {
    forall i :: 0 <= i < |ShapeModels| ==> ShapeModels[i] in defs
  }

  function ShapeModel(b: Block): (name: string)
    ensures name in ShapeModels
  {
    ShapeModels[Shape(b) as int]
  }

  /**
   * `cubes`: nothing for Air, otherwise the cuboids of the block's shape
   * model. The source unwraps the model lookup, so it needs exactly that one
   * model loaded.
   */
  function Cubes(b: Block, defs: map<string, ModelDef>): (r: seq<Cube>)
    requires b == Air || ShapeModel(b) in defs
    ensures b == Air ==> r == []
    ensures b != Air ==> r == defs[ShapeModels[Shape(b) as int]].cubes
  {
    if b == Air then [] else defs[ShapeModel(b)].cubes
  }

  /** A texture coordinate pair. */
  datatype Uv = Uv(u: nat, v: nat)

  /** `face_uv`: the rectangle's corners in the order (max,max), (min,max), (min,min), (max,min). */
  function FaceUv(r: UvRect): (corners: seq<Uv>)
    ensures |corners| == 4
  {
    [Uv(r.maxX, r.maxY), Uv(r.minX, r.maxY), Uv(r.minX, r.minY), Uv(r.maxX, r.minY)]
  }

  function CubeUvCorners(faces: CubeUvs): (r: seq<seq<Uv>>)
    ensures |r| == |faces|
    ensures forall i :: 0 <= i < |faces| ==> r[i] == FaceUv(faces[i])
  {
    if |faces| == 0 then [] else [FaceUv(faces[0])] + CubeUvCorners(faces[1..])
  }

  function AllUvCorners(uvs: seq<CubeUvs>): (r: seq<seq<seq<Uv>>>)
    ensures |r| == |uvs|
    ensures forall i :: 0 <= i < |uvs| ==> r[i] == CubeUvCorners(uvs[i])
  {
    if |uvs| == 0 then [] else [CubeUvCorners(uvs[0])] + AllUvCorners(uvs[1..])
  }

  /**
   * `uvs`: the shape model's rectangles as corner lists. Air is not
   * special-cased here and reads the full model, which the source unwraps.
   */
  function Uvs(b: Block, defs: map<string, ModelDef>): (r: seq<seq<seq<Uv>>>)
    requires ShapeModel(b) in defs
    ensures |r| == |defs[ShapeModels[Shape(b) as int]].uvs|
  {
    AllUvCorners(defs[ShapeModel(b)].uvs)
  }

  /**
   * When the shape models pair cubes with uvs one to one, the mesher's zip of
   * `cubes` with `uvs` visits every cuboid; for Air there is nothing to visit.
   */
  lemma CubesUvsAgree(b: Block, defs: map<string, ModelDef>)
    requires HasShapeModels(defs)
    requires forall i :: 0 <= i < |ShapeModels| ==> |defs[ShapeModels[i]].cubes| == |defs[ShapeModels[i]].uvs|
    ensures b != Air ==> |Cubes(b, defs)| == |Uvs(b, defs)|
    ensures b == Air ==> |Cubes(b, defs)| == 0
  {
  }

  // ---------------------------------------------------------------------------
  // Translation keys
  // ---------------------------------------------------------------------------

  /** `From<Block> for Key`: "block" and the material, plus the shape when it is not a full block. */
  function ToKey(b: Block): (k: Key)
    ensures |k.parts| == (if Shape(b) == 0 then 2 else 3)
    ensures k.parts[0] == Text("block") && k.parts[1] == Numeric(Material(b) as nat)
    ensures Shape(b) != 0 ==> k.parts[2] == Numeric(Shape(b) as nat)
  {
    var lo := Encode(b) & BlockMask;
    var hi := Encode(b) >> 16;
    EncodeSplits(b);
    if hi == 0 then Key([Text("block"), Numeric(lo as nat)])
    else Key([Text("block"), Numeric(lo as nat), Numeric(hi as nat)])
  }

  /** Distinct blocks have distinct keys, so the translation table can name each one. */
  lemma ToKeyInjective(a: Block, b: Block)
    requires ToKey(a) == ToKey(b)
    ensures a == b
  {
    EncodeSplits(a);
    EncodeSplits(b);
    assert Material(a) == Material(b);
    assert Shape(a) == Shape(b) by {
      if Shape(a) != 0 || Shape(b) != 0 {
        assert ToKey(a).parts[2] == ToKey(b).parts[2];
      }
    }
    EncodeInjective(a, b);
  }

  /** The dotted spelling a translation file uses for a key with this material and shape. */
  function DottedKey(material: nat, shape: nat): string {
    "block." + ToHex(material) + (if shape == 0 then "" else "." + ToHex(shape))
  }

  function KeyFor(material: nat, shape: nat): Key {
    Key([Text("block"), Numeric(material)] + (if shape == 0 then [] else [Numeric(shape)]))
  }

  function DottedSegments(material: nat, shape: nat): (segs: seq<string>)
    ensures |segs| > 0 && DottedKey(material, shape) == Join(segs)
    ensures forall i :: 0 <= i < |segs| ==> '.' !in segs[i]
  {
    var lo := ToHex(material);
    HexOnlyDigits(material);
    HexOnlyDigits(shape);
    if shape == 0 then
      assert Join(["block", lo]) == "block" + "." + Join([lo]);
      ["block", lo]
    else
      var hi := ToHex(shape);
      assert ["block", lo, hi][1..] == [lo, hi] && [lo, hi][1..] == [hi];
      assert Join(["block", lo, hi]) == "block" + "." + (lo + "." + Join([hi]));
      ["block", lo, hi]
  }

  /** Dot-free segments led by a non-number parse to the key of their classified segments. */
  lemma ParseJoined(segs: seq<string>)
    requires |segs| > 0
    requires forall i :: 0 <= i < |segs| ==> '.' !in segs[i]
    requires ParseHexU32(segs[0]).None?
    ensures ParseKey(Join(segs)) == Ok(Key(ClassifyAll(segs)))
  {
    SplitJoin(segs);
  }

  lemma BlockIsText()
    ensures ParseHexU32("block").None?
  {
    assert HexBody("block") == "block";
    assert HexDigit("block"[1]).None?;
  }

  lemma {:induction false} ParseDottedKey(material: nat, shape: nat)
    requires material < 0x1_0000_0000 && shape < 0x1_0000_0000
    ensures ParseKey(DottedKey(material, shape)) == Ok(KeyFor(material, shape))
  {
    var segs := DottedSegments(material, shape);
    BlockIsText();
    ParseJoined(segs);
    ParseToHex(material);
    ParseToHex(shape);
    var parts := ClassifyAll(segs);
    assert parts == KeyFor(material, shape).parts;
  }

  /** A translation file's spelling of a block parses to exactly the key the block converts to. */
  lemma {:induction false} ParseKeyText(b: Block)
    ensures ParseKey(DottedKey(Material(b) as nat, Shape(b) as nat)) == Ok(ToKey(b))
  {
    var m := Material(b) as nat;
    var sh := Shape(b) as nat;
    ParseDottedKey(m, sh);
    var k := ToKey(b);
    assert k.parts == KeyFor(m, sh).parts;
  }

  lemma HexOnlyDigits(n: nat)
    ensures '.' !in ToHex(n)
  {
  }
}
