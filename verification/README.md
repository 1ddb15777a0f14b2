# mineplace3d core in Dafny

mineplace3d is a Minecraft-like voxel engine written in Rust. Its repository
holds three generations of the same engine, and this project models the
logic they share, one Dafny module per component. The modules follow the
program's own layout:

- **The early single-file engine (`src/game.rs`) and its main loop (`src/main.rs`).**
  `Monolith` models its world: the mesh cache, `get_chunk` dropping
  overspill, all-six neighbour dirtying, and `add_chunk` writing overspill
  into target chunks. `Hotbar` models the `mid` / `shift_vec` rotation.
  `ChunkRequests` models the per-frame chunk requests and the pruning of the
  queued set. `Ui` models the button and text field of `src/abs/ui.rs`.
- **The split rewrite (`src/game/*`, `src/asset.rs`, `src/abs_bak/mesh.rs`).**
  - `Blocks`, `Faces` and `Packing`: the `u32` block encoding, classification,
    face occlusion, face templates and vertex bit packing.
  - `FlatChunk`: the flat 16x16x16 chunk.
  - `Meshes` and `ChunkMesh`: the face-culling mesher and its buffers.
  - `Generation`: the routing of tree placements into the chunk or the
    overspill table.
  - `GameWorld` and `WorldQueries`: the world container and the queries
    that read through it.
  - `Geometry`: boxes, frustum culling, face normals and the chunk ball.
  - `Entities`: the `EntityId` text form, player interaction and billboards.
  - `SaveLoad` and `SaveWorld`: the save file.
  - `Assets`: keys, model definitions and the resource manager.
- **The client/server rewrite (`mp3d-core`, `mp3d-client`).**
  - `PaletteChunk`: the palette chunk.
  - `CoreWorld`: the world with least-free entity ids.
  - `PlayerPayload`: the player byte formats.
  - `Server` and `ChatCommands`: the server's session state machine and its
    `/nick` parser.
  - `Client` and `LegacyClient`: the two client revisions.
  - `ClientWorld`: the client's world and its residency rules.
  - `ClientMesh`: the client mesher.
  - `Scenes`: the scene stack.
  - `InputField`: the input widget.
- **Shared helpers.**
  - `Coords`: integer vectors and the Euclidean chunk/local split.
  - `Maps`: maps built by ordered inserts and walked in any order.
  - `Decimal`: `u32` printing and parsing.
  - `RustText`: byte-offset `String` editing.
  - `TextEdit`: the cursor editing both text widgets share.
  - `Wrappers`: `Option` and `Result`.

The revisions disagree in places, and each is modelled as it is written
rather than reconciled:
- Neighbour dirtying is all-six in `Monolith` but boundary-only in `GameWorld`.
- The merge order in `add_chunk` differs between the two.
- The strafe sign differs between `Client` and `LegacyClient`.

Noise, random draws, float physics and GPU work enter as parameters
(oracle functions or opaque values). Panics and `unreachable!` become the
`Err` side of a `Result`, or a member that exhibits the panic, except where
"## Left out" says a precondition stands in for them.

## Model

| member | source | states |
|---|---|---|
| Blocks.TypeOf | src/game/block.rs:309-326 | Air exactly for Air, Partial exactly when the shape bits are nonzero, Translucent exactly for Leaves and Glass, FullOpaque exactly for the ten remaining full blocks |
| Blocks.EncodeSplits | src/game/block.rs:11-18 | every discriminant is its shape tag shifted 16 bits above a material below 0xD; nothing lies outside bits 0 to 19 |
| Blocks.EncodeInjective | src/game/block.rs:256-285 | the `u32` discriminants are pairwise distinct, so a word names at most one block |
| Blocks.Decode | src/game/block.rs:256-285 | the inverse of the discriminant: Some block whose word it is, or None when no variant has that word |
| Blocks.DecodeEncode | src/game/block.rs:256-285 | decoding a block's discriminant gives the block back |
| Blocks.ShouldOccludeIsOpacityOrder | src/game/block.rs:110-128 | a face is culled exactly when the block is a whole cube (opaque or translucent) and its neighbour is at least as opaque |
| Blocks.ShouldOccludeTable | src/game/block.rs:110-128 | exactly the pairs (FullOpaque, FullOpaque), (Translucent, FullOpaque), (Translucent, Translucent) occlude; the other 13 do not |
| Blocks.Shape | src/game/other.rs:36-39 | the shape tag of every block is at most 6, so the shape-model dispatch never reaches its unreachable arm |
| Blocks.Cubes | src/game/block.rs:439-461 | Air has no cuboids; any other block has the cuboids of the shape model its tag names, needing only that model loaded (the source unwraps it) |
| Blocks.CubeUvCorners | src/game/block.rs:402-413 | each face's (min, max) rectangle becomes its four corners, face by face |
| Blocks.Uvs | src/game/block.rs:399-437 | one corner list per rectangle set of the block's shape model, Air included, needing only that model loaded (the source unwraps it) |
| Blocks.CubesUvsAgree | src/game/block.rs:399-461 | when each shape model pairs cuboids with rectangles one to one, `cubes` and `uvs` have equal length for every non-Air block, and Air has no cuboids |
| Blocks.ToKey | src/game/block.rs:464-483 | the key is "block" and the material, plus the shape as a third part exactly when the shape is nonzero |
| Blocks.ToKeyInjective | src/game/block.rs:464-483 | distinct blocks convert to distinct keys |
| Blocks.ParseJoined | src/asset.rs:21-36 | dot-free segments whose first is not hexadecimal parse to the key of their classified segments |
| Blocks.ParseDottedKey | src/asset.rs:21-36 | the dotted hexadecimal spelling "block.m.s" of a material and shape parses to the matching key |
| Blocks.ParseKeyText | src/asset.rs:21-36 | the text spelling of every block parses to exactly the key the block converts to |
| Faces.Template | src/game/block.rs:47-108 | each of the six templates has four corners |
| Faces.TemplatesWellFormed | src/game/block.rs:47-108 | every template names an axis face and all four corners are unit-cube vertices lying on that face |
| Faces.TemplatesInBorderOrder | src/game/block.rs:47-108 | every template lists its corners around the border of the face, consecutive corners sharing a cube edge; the turning direction is stated by Faces.TemplatesWindOutward |
| Faces.TemplatesWindOutward | src/game/block.rs:47-108 | both triangles a face is drawn as, (0, 1, 2) and (0, 2, 3), have the face's outward normal as the cross product of their edges, so they turn counter-clockwise seen from outside the cube, as back-face culling needs |
| Faces.OppositePairs | src/game/world.rs:393-399 | `i ^ 1` maps each face to the one with the opposite normal and is an involution |
| Faces.NormalsDistinct | src/game/block.rs:47-108 | the six normals are pairwise different |
| Faces.UseTemplateUnitCube | src/game/block.rs:32-45 | stretched over the unit cube a template reproduces its own corners |
| Faces.UseTemplateOnCuboidFace | src/game/block.rs:32-45 | stretched over any cuboid every corner lies on the cuboid's face named by the template normal (`to` for a + face, `from` for a - face) |
| Packing.UnpackPackUv | src/game/other.rs:18-21 | a uv whose y fits 5 bits and x fits 27 bits reads back from the packed word |
| Packing.PackUvInjective | src/game/other.rs:18-21 | within those widths distinct uvs pack to distinct words |
| Packing.PackUvDropsHighBits | src/abs_bak/mesh.rs:18-20 | the shift happens in `u32`, so the top five bits of x are lost: two different uvs pack to the same word |
| Packing.UnpackPackBlockPos | src/game/other.rs:23-26 | a local block position (each coordinate below 16) reads back from its packed word |
| Packing.PackBlockPosInjective | src/game/other.rs:23-26 | distinct local positions pack to distinct words |
| Packing.MaskPartialOfComposed | src/game/other.rs:36-39 | the mask gives back the shape tag of any word built from a 4-bit tag and a 16-bit material |
| Packing.RoundToU64 | src/game/other.rs:28-34 | the saturating `round() as u64` cast: always below 2^64, and within one half of a non-negative value in range |
| Packing.PackColorFits | src/abs_bak/mesh.rs:22-29 | for components in [0, 1] the channels fit 6, 7 and 7 bits, the packed colour fits 20 bits, and each channel reads back |
| Packing.DeserializeSerialize | src/game/block.rs:146-160 | fields within their widths occupy bits [15,18), [18,28), [28,44) and [44,64), read back intact, and bits 0 to 14 stay zero |
| Packing.JoinSplitWord | src/abs_bak/mesh.rs:46-51 | `hi` and `lo` are the upper and lower halves of the vertex word: joining them gives the word back |
| Packing.NewVertexRecoverable | src/abs_bak/mesh.rs:39-53 | with a face index below 8, a small uv and a unit colour every field of the vertex is recoverable from `hi` and `lo` |
| Coords.ChunkOf | src/game/chunk.rs:214-229 | the chunk of a position is the one whose 16-wide span contains it on every axis, negative positions included |
| Coords.LocalOf | src/game/chunk.rs:214-229 | the local coordinate lies in [0, 16) on every axis |
| Coords.Decompose | src/game/chunk.rs:214-229 | chunk times 16 plus local gives the position back |
| Coords.DecomposeUnique | src/game/chunk.rs:214-229 | no other (chunk, local) pair with local in range gives the position |
| FlatChunk.IndexBijection | src/game/chunk.rs:336-343 | the slot index `x*256 + y*16 + z` and its inverse are mutually inverse between local positions and [0, 4096) |
| FlatChunk.IndexInjective | src/game/chunk.rs:336-343 | distinct local positions use distinct slots |
| FlatChunk.SetBlock | src/game/chunk.rs:340-343 | the written position reads back the block, every other position keeps its block, and the chunk becomes dirty |
| FlatChunk.SetBlockSame | src/game/chunk.rs:340-343 | writing back the block a position already holds changes nothing but the dirty flag |
| FlatChunk.SetBlockTwice | src/game/chunk.rs:340-343 | a second write to the same position overrides the first |
| FlatChunk.IsEmpty | src/game/chunk.rs:345-349 | true exactly when every position holds Air |
| FlatChunk.IsSideFull | src/game/chunk.rs:351-427 | true exactly when every cell on the named face (0 -Z, 1 +Z, 2 +X, 3 -X, 4 +Y, 5 -Y) is FullOpaque; false for a side above 5 |
| FlatChunk.SideCellsCoverSide | src/game/chunk.rs:351-427 | the 16x16 cells the loops visit for a side are exactly the cells on that face |
| FlatChunk.SidePosOnto | src/game/chunk.rs:351-427 | every cell on a face is reached by the loops of that side |
| FlatChunk.AllIsEvery | src/game/chunk.rs:42-78 | `all` holds exactly when the predicate holds for every present neighbour with its slot index |
| FlatChunk.AllVacuous | src/game/chunk.rs:42-78 | with all six neighbours absent `all` is true |
| FlatChunk.FacingSides | src/game/chunk.rs:447-517 | a step out of a chunk across side i lands in the neighbour at that side's offset, on the neighbour's opposite face |
| Generation.ChunkAndLocal | src/game/chunk.rs:214-229 | the (chunk, local) pair of a global position recomposes to it, with local in [0, 16) |
| Generation.PlaceBlock | src/game/chunk.rs:231-249 | in the generating chunk the slot is written when local y is in range and nothing else changes; for another chunk the blocks are untouched and the key joins the overspill, keeping an existing entry (first placement wins) |
| Generation.PlacementRouted | src/game/chunk.rs:214-249 | a global placement lands in the current chunk's slot or under its (chunk, local) overspill key, and that pair recomposes to the global position |
| Generation.LeafOffset | src/game/chunk.rs:277-279 | the leaf loops visit offsets in [-2, 2] on every axis |
| Generation.TopSolid | src/game/chunk.rs:251-321 | the column scan stops at the highest non-Air cell at or below y: everything above it is Air |
| Generation.ScanStopsAtTop | src/game/chunk.rs:251-321 | scanning a column top-down plants a tree on its first non-Air cell when that cell is Grass (and the draw says so), and otherwise does nothing |
| Generation.Plant | src/game/chunk.rs:253-275 | at the first non-Air cell of a column the step only grows trees: a changed slot holds OakLog or Leaves, new overspill entries are tree blocks for other chunks at in-range local positions, and earlier entries are kept |
| Generation.Tree | src/game/chunk.rs:261-313 | a tree, trunk then crown, only grows tree blocks in the same sense, and draws nothing |
| Generation.PlaceTrees | src/game/chunk.rs:251-332 | the tree pass returns a dirty chunk with the given foliage and all 4096 slots |
| Generation.PlaceTreesOnlyTrees | src/game/chunk.rs:251-332 | the tree pass changes only slots that end as OakLog or Leaves, and every overspill entry is a tree block for another chunk at an in-range local position |
| Generation.ColumnPassGrows | src/game/chunk.rs:251-321 | each column pass only adds tree blocks: earlier overspill entries keep their blocks |
| Generation.CrownCoversDiamond | src/game/chunk.rs:276-313 | every offset with \|dx\|+\|dy\|+\|dz\| <= 3 in [-2, 2]^3 around the crown top ends up covered: Leaves or an earlier non-Air block locally, an overspill entry elsewhere |
| Generation.CrownStaysInDiamond | src/game/chunk.rs:276-313 | the crown turns only Air cells into Leaves, adds only Leaves overspill, all inside the diamond, and keeps earlier overspill entries |
| Generation.LeafStepInDiamond | src/game/chunk.rs:280-310 | one leaf step writes only Leaves over Air inside the diamond and never replaces an overspill entry |
| Meshes.EmptyMesh | src/game/chunk.rs:436-438 | a mesh starts with no vertices, no indices and no quads, and is well formed |
| Meshes.QuadIndices | src/game/chunk.rs:561-568 | the six indices of a quad at offset o all lie in [o, o + 4) |
| Meshes.PushQuad | src/game/chunk.rs:544-568 | pushing a quad appends its four vertices and keeps the mesh well formed with one more quad |
| Meshes.PushQuadsWellFormed | src/game/chunk.rs:519-574 | pushing n quads keeps the mesh well formed and adds n quads |
| Meshes.PushQuadsVertices | src/game/chunk.rs:544-556 | pushing quads appends exactly their vertices, in order |
| Meshes.FlattenMember | src/game/chunk.rs:544-556 | a vertex is in the flattened list exactly when some quad holds it |
| Meshes.PatternBounds | src/game/chunk.rs:561-570 | n quads give 6n indices, each below 4n |
| Meshes.IndicesInRange | src/game/chunk.rs:519-574 | in a well-formed mesh every index is below the vertex count, and there are 6 indices per 4 vertices |
| Meshes.BuildMesh | src/game/chunk.rs:519-574 | building from a list of quads gives a well-formed mesh with that many quads, in-range indices and exactly the quads' vertices |
| ChunkMesh.NeighbourReadsAcross | src/game/chunk.rs:447-517 | a position just outside the chunk is read from the neighbour in that direction at the wrapped local position; an absent neighbour reads as Air |
| ChunkMesh.AdjacentHasSlot | src/game/chunk.rs:447-517 | every position one step outside the chunk falls in one of the six neighbour slots |
| ChunkMesh.FaceQuad | src/game/chunk.rs:542-556 | a face gives four vertices carrying the block position, face index, material, the template's uvs and the column's foliage colour |
| ChunkMesh.ChunkMeshWellFormed | src/game/chunk.rs:429-574 | the chunk mesh is well formed: 4 vertices and 6 indices per face, every index below the vertex count |
| ChunkMesh.CubeQuadsAreVisible | src/game/chunk.rs:532-541 | every face the mesher emits is one whose neighbour does not occlude it |
| ChunkMesh.CubeQuadsAllVisible | src/game/chunk.rs:532-541 | when no face is occluded every remaining face of the cuboid is emitted |
| ChunkMesh.CubeQuadsNoneVisible | src/game/chunk.rs:532-541 | when every face is occluded the cuboid emits nothing |
| ChunkMesh.CubeQuadsHasFace | src/game/chunk.rs:532-541 | a given face of a cuboid is among the quads the mesher emits for that cuboid exactly when the face is not occluded by its neighbour |
| ChunkMesh.AirDrawsNothing | src/game/chunk.rs:524-526 | an Air cell emits nothing |
| ChunkMesh.EnclosedDrawsNothing | src/game/chunk.rs:531-541 | a block with all six faces occluded emits nothing |
| ChunkMesh.FullOpaqueEnclosed | src/game/chunk.rs:538-541 | a FullOpaque block with six FullOpaque neighbours has all six faces occluded |
| ChunkMesh.IsolatedDrawsAll | src/game/chunk.rs:528-541 | a non-Air block surrounded by Air emits six faces per cuboid of its shape (as many as the zip of cuboids and rectangles) |
| ChunkMesh.AirChunkMeshEmpty | src/game/chunk.rs:519-574 | an all-Air chunk meshes to no vertices and no indices |
| GameWorld.GetChunk | src/game/world.rs:193-199 | a resident chunk is returned unchanged; a missing one is generated and inserted, and its overspill is merged into the table, but neither the table nor the change log is applied to it |
| GameWorld.GetBlockGen | src/game/world.rs:201-212 | reads the block at the Euclidean (chunk, local) split, generating the chunk on a miss; a resident block is read without changing the world |
| GameWorld.MarkDirty | src/game/world.rs:233-250 | the named chunk ends resident and dirty; the blocks of every chunk and every other chunk stay as they were |
| GameWorld.WriteCellSpec | src/game/world.rs:214-231 | after the write the position reads back the block, the edit is logged under its (chunk, local) key overwriting older edits, the chunk is dirty, and no other chunk changes |
| GameWorld.MarkIsSide | src/game/world.rs:233-250 | the six marks are, in source order, the -Z, +Z, -X, +X, -Y, +Y neighbours, each guarded by the local coordinate being 0 or 15 on that axis |
| GameWorld.SideMarksDirtied | src/game/world.rs:233-250 | a chunk is marked exactly when it is the neighbour across a side the cell lies on |
| GameWorld.SetBlockSpec | src/game/world.rs:214-250 | the block reads back, the edit is logged, the chunk and each neighbour across a side the cell lies on are dirty, and no other chunk changes |
| GameWorld.InteriorDirtiesNoNeighbour | src/game/world.rs:233-250 | a cell with every local coordinate in 1..14 marks no neighbour |
| GameWorld.MergeSlotsBlocks | src/game/world.rs:162-183 | after the slot loop every slot holds its logged edit, else its overspill entry, else the arriving block: the edit wins over the overspill |
| GameWorld.MergeSlotsTable | src/game/world.rs:162-183 | the slot loop removes exactly the overspill entries for the arriving chunk's in-range cells and keeps every other entry |
| GameWorld.AddChunkBlocks | src/game/world.rs:153-186 | every cell of the inserted chunk is its merged block: logged edit first, then stored overspill, then the arriving block |
| GameWorld.AddChunkTable | src/game/world.rs:153-186 | afterwards the overspill table is the old one without the arriving chunk's entries, extended by the new overspill, with new entries overwriting |
| GameWorld.AddChunkFrame | src/game/world.rs:153-186 | no other chunk, the change log and the entities are unchanged |
| GameWorld.GetChunkIgnoresChanges | src/game/world.rs:153-199 | a logged edit in a missing chunk is lost when `get_chunk` generates it but applied when the same chunk arrives through `add_chunk` |
| GameWorld.InBlastIsBall | src/game/world.rs:260-266 | within [-2, 2]^3 the blast offsets are exactly those with squared length at most 4 |
| GameWorld.AddExplosion | src/game/world.rs:271-280 | adding the explosion billboard leaves chunks, edits and overspill alone and puts the billboard among the entities |
| GameWorld.BreakSettledNoOp | src/game/world.rs:253-257 | breaking Air or Bedrock in a resident chunk changes nothing |
| GameWorld.BreakGeneratedSettled | src/game/world.rs:193-206 | breaking a cell of a missing chunk that generates as Air or Bedrock returns early yet still grows the world: exactly the generated chunk and its overspill are added, no block, change-log entry or entity changes, and the cell reads Air or Bedrock |
| GameWorld.BreakClears | src/game/world.rs:253-283 | breaking a resident non-Air, non-Bedrock block leaves Air there; only Glungus adds entities |
| GameWorld.BreakBlockSettles | src/game/world.rs:253-283 | after `break_block` the cell is Air or Bedrock and no Air cell of the world has changed |
| GameWorld.GlungusTail | src/game/world.rs:259-281 | after a Glungus is cleared every blast offset is settled, the cell stays Air and the explosion billboard is added |
| GameWorld.BreakAroundSettles | src/game/world.rs:260-268 | the blast loop settles every offset it visits with squared length at most 4 |
| GameWorld.Update | src/game/world.rs:128-143 | the retain passes before the per-entity tick: the resident chunks become exactly those within render range, each untouched by these passes; meshes survive exactly for surviving chunks; the entities become exactly those not requesting removal |
| GameWorld.UpdateKeepsMeshes | src/game/world.rs:128-142 | afterwards every mesh belongs to a resident chunk and no mesh is lost: dropped meshes move to the reuse pool |
| GameWorld.NeighboursOf | src/game/world.rs:385-392 | each neighbour slot holds the resident chunk at the slot's offset, or nothing |
| GameWorld.FacingPairs | src/game/world.rs:397 | `i ^ 1` pairs each side with the opposite side on the same axis and is an involution |
| GameWorld.VisibilitySpec | src/game/world.rs:372-402 | an unchanged view matrix changes nothing; otherwise a chunk is visible exactly when it is in the frustum and some resident neighbour's facing side is not full |
| GameWorld.LoneChunkInvisible | src/game/world.rs:397-399 | after visibility is recomputed (a new view-projection), a chunk with no resident neighbour is not visible (`all` is vacuously true) |
| GameWorld.RemeshSet | src/game/world.rs:417-437 | the chunks meshed are exactly the dirty, non-empty, not fully enclosed ones |
| GameWorld.ClearDirty | src/game/world.rs:444-448 | exactly the meshed chunks become clean; blocks and foliage are untouched |
| GameWorld.TakeSpare | src/game/world.rs:452-458 | a pooled mesh is reused when one is left, and the pool shrinks by the number taken |
| GameWorld.GenerateMeshesSpec | src/game/world.rs:408-468 | with no dirty chunk nothing changes; each remeshed chunk becomes clean with a fresh mesh of itself and its neighbours; every other chunk and its mesh stay as they were |
| GameWorld.GenerateMeshesSettles | src/game/world.rs:417-437 | a dirty chunk becomes clean exactly when it is non-empty and not enclosed: empty or enclosed dirty chunks stay dirty |
| WorldQueries.GrownView | src/game/world.rs:193-212 | generating chunks on a miss never changes what any position reads: a world that has only grown reads the same everywhere |
| WorldQueries.GetBlockGenView | src/game/world.rs:201-212 | `get_block` returns the block the position reads, resident or generated, and only grows the world |
| WorldQueries.AirNeverSolid | src/game/block.rs:288-307 | Air has no cuboids, so it never collides with the player box |
| WorldQueries.ScanCellsSpec | src/game/world.rs:307-329 | the nested cell loops report a collision exactly when some cell of the player's span collides |
| WorldQueries.XRunCells | src/game/world.rs:307-309 | the flattened loop order visits exactly the cells of the box from (x_min, y_min, z_min) to (x_max, y_max, z_max) |
| WorldQueries.IsPlayerCollidingSpec | src/game/world.rs:285-330 | the answer is true exactly when some block in the player's floor-rounded span has a cuboid overlapping the player box; the world only grows |
| WorldQueries.PlayerCollisionMaskSpec | src/game/world.rs:332-364 | axis by axis in x, y, z order: each flag is set exactly when moving along that axis from the partly resolved position collides, and a colliding axis keeps its old coordinate |
| WorldQueries.MaskKeepsClear | src/game/world.rs:332-364 | starting from a clear position, the resolved position is clear |
| WorldQueries.SamplesSpaced | src/game/other.rs:102-121 | the ray samples start at the origin and step by direction times 0.01 |
| WorldQueries.CastFromMiss | src/game/other.rs:96-121 | the cast misses exactly when no sample lands in a non-Air block |
| WorldQueries.CastFromFirst | src/game/other.rs:96-121 | a hit is at the first sample in a non-Air block, with that sample's block position and face normal |
| WorldQueries.CastRaySpec | src/game/other.rs:96-121 | over (max_distance / 0.01) samples: a miss exactly when none is solid, else the first solid sample; the world only grows |
| Geometry.CollisionAabbIsSharedPoint | src/game/other.rs:41-46 | two non-degenerate closed boxes collide exactly when they share a point |
| Geometry.CollisionAabbSymmetric | src/game/other.rs:41-46 | the collision test is symmetric |
| Geometry.PositiveVertexIsFurthest | src/game/other.rs:76-89 | the vertex picked by the plane's signs is the box corner furthest along the plane normal |
| Geometry.InFrustumNeverCulled | src/game/other.rs:76-89 | a box with a point on the inner side of every plane is never culled |
| Geometry.CulledIsOutside | src/game/other.rs:76-89 | a culled box has a plane with even its furthest corner outside |
| Geometry.CalcFaceNormal | src/game/other.rs:161-189 | a unit axis vector on the axis nearest a face, ties going to x then y, pointing to the nearer side of that axis |
| Geometry.FaceNormalIsNearestFace | src/game/other.rs:161-189 | for a hit inside the block no other face is nearer than the chosen one |
| Geometry.Ball | src/game/other.rs:130-141 | the offsets visited and kept are exactly the integer points of [-7, 7]^3 with squared length at most 49 |
| Geometry.RequestChunksAroundPlayer | src/game/other.rs:123-159 | requests only chunks in the ball around the player's chunk that are neither resident nor queued, and adds exactly those to the queued set |
| Geometry.RequestCoversBall | src/game/other.rs:123-159 | afterwards every chunk in the ball is resident or queued, and every one that was neither is requested |
| Geometry.RequestIdempotent | src/game/other.rs:123-159 | a second request with the updated queued set sends nothing |
| Entities.SplitOnce | src/game/entity.rs:59-69 | `split_once`: None exactly when the separator is absent, else the text before its first occurrence and the rest |
| Entities.EntityIdRoundTrip | src/game/entity.rs:56-76 | parsing the displayed "id-name" form of an id with a `u32` number gives the id back |
| Entities.FromStrSpec | src/game/entity.rs:56-69 | parsing succeeds exactly on "a-name" where a has no '-' and parses as a decimal `u32`; it fails with the no-separator error exactly when there is no '-' |
| Entities.PlacableBlocksShape | src/game/entity.rs:12-35 | the hotbar lists 22 blocks, neither Air nor Bedrock among them |
| Entities.HotbarInverse | src/game/entity.rs:198-210 | the Left and Right keys step the selection by one modulo 22 and undo each other |
| Entities.HotbarNetShift | src/game/entity.rs:196-240 | after a frame's events the selection has moved by the net number of Right/wheel-down minus Left/wheel-up steps, modulo 22, and stays in range |
| Entities.LastChangeWins | src/game/entity.rs:211-230 | for each key or button the last event that changes it decides whether it is held |
| Entities.SpecialNeverHeld | src/game/entity.rs:211-218 | T, Slash, Return and Escape only toggle chat and never enter the held-key set |
| Entities.CoolDown | src/game/entity.rs:287-289 | the cooldown counts down by one and stops at zero |
| Entities.PlaceSpec | src/game/entity.rs:290-307 | placing writes the selected block beside the hit face and puts Air back when the player box then collides |
| Entities.Interact | src/game/entity.rs:286-321 | position and controls are kept; the cooldown is either 12 after an action or counted down, and an action only fires at cooldown 0 with a selected block |
| Entities.CoolingDownIsIdle | src/game/entity.rs:287-321 | while the cooldown is above 1 the world is untouched and the cooldown just counts down |
| Entities.InteractPlaces | src/game/entity.rs:290-307 | a right click at cooldown 0 with a hit places the selected block (or Air when it would collide) and resets the cooldown to 12 |
| Entities.BedrockNeverBroken | src/game/entity.rs:309-320 | a left click on Bedrock breaks nothing and does not reset the cooldown |
| Entities.InteractBreaks | src/game/entity.rs:309-320 | a left click at cooldown 0 on a breakable resident block leaves Air there and resets the cooldown to 12 |
| Entities.NewBillboard | src/game/entity.rs:445-462 | a new billboard starts at its full size with the given life |
| Entities.BillboardRemovalAgrees | src/game/entity.rs:498-500 | a billboard asks to be removed exactly when its life is 0 |
| Entities.TickBillboard | src/game/entity.rs:509-514 | a tick decrements the life down to 0 and, while life remains, scales the size to life / 30 of the start size |
| Entities.BillboardLife | src/game/entity.rs:509-511 | after n ticks the life is max(life - n, 0) |
| Entities.BillboardRemovedAfterLife | src/game/entity.rs:498-511 | a billboard is removed exactly after as many ticks as its life |
| Entities.KnockbackSpec | src/game/entity.rs:516-531 | only entities other than itself and other billboards, strictly within distance 3 and not at its centre, get a push; positions and kinds never change |
| SaveLoad.FromLEToLE | src/game/saveload.rs:10-50 | a value below 256^n written as n little-endian bytes reads back |
| SaveLoad.FromLEBound | src/game/saveload.rs:10-50 | n little-endian bytes always read as a value below 256^n |
| SaveLoad.Wrap32 | src/game/saveload.rs:107-109 | `i32` arithmetic wraps into the `i32` range and leaves in-range values alone |
| SaveLoad.ToI32Bits | src/game/saveload.rs:38-50 | an `i32` written as its two's-complement bytes reads back |
| SaveLoad.ReadersSpec | src/game/saveload.rs:10-60 | each fixed-width reader succeeds exactly when its bytes are inside the data, advances the offset by its width, and reads a value of that width; `read_i32` stays in the `i32` range |
| SaveLoad.ReadChange | src/game/saveload.rs:96-110 | a change record reads exactly when its 19 bytes are present and advances by 19 |
| SaveLoad.OutOfBounds | src/game/saveload.rs:62-71 | running off the data is a panic in the code as written and an end-of-data error in the checked reader |
| SaveLoad.ReadStringRunsOff | src/game/saveload.rs:62-71 | a name with no terminating 0 before the end of the data indexes past the end |
| SaveLoad.ReadManyAt | src/game/saveload.rs:95-129 | a counted run of records each readable at its offset reads back in order and ends after the last |
| SaveLoad.Header | src/game/saveload.rs:140-150 | the header is 18 bytes: "MP3D", version 0, chunk size 16, the seed's 4 bytes and the change count's 8 bytes |
| SaveLoad.ChangeRecordFields | src/game/saveload.rs:151-161 | a change record holds the chunk's three `i32`, the three local bytes and the block word, in that order |
| SaveLoad.GlobalOfSaveable | src/game/saveload.rs:100-109 | for in-range local coordinates the loader's chunk * 16 + local recovers the edited position |
| SaveLoad.ReadChangeFrom | src/game/saveload.rs:96-110 | a saved change record reads back as its global position and block |
| SaveLoad.ReadChangesFrom | src/game/saveload.rs:94-111 | the saved change records read back as the same edits in the same order |
| SaveLoad.EntityRecordFields | src/game/saveload.rs:166-173 | an entity record is the id's 4 bytes, the name and a 0, the payload length's 8 bytes and the payload |
| SaveLoad.ReadEntityFrom | src/game/saveload.rs:113-128 | a saved entity record reads back as the same id and entity |
| SaveLoad.HeaderFrom | src/game/saveload.rs:79-94 | a saved header passes the magic and version checks and reads back chunk size, seed and change count |
| SaveLoad.LoadRejects | src/game/saveload.rs:80-87 | a file of at least 5 bytes with a wrong magic fails with the signature error, and one with another version fails |
| SaveLoad.LoadPanicsOnShortFile | src/game/saveload.rs:79-82 | the loader as written panics on an empty or 2-byte file, where the checked loader reports end of data |
| SaveLoad.LoadPanicsOnUnterminatedName | src/game/saveload.rs:113-118 | a file whose first entity name never ends panics in the loader as written |
| SaveLoad.CheckedNeverPanics | src/game/saveload.rs:73-135 | the checked loader never panics |
| SaveLoad.CheckedAgrees | src/game/saveload.rs:73-135 | wherever the loader as written does not panic, the checked loader returns the same result |
| SaveLoad.EntityFailsStage | src/game/saveload.rs:113-127 | a failing entity stops the load with that failure |
| SaveLoad.SaveLoadRoundTrip | src/game/saveload.rs:73-177 | loading a saved file gives back chunk size 16, the seed, the edits in saved order and the entities, whenever names are ASCII, locals are in range and each entity's payload round-trips |
| SaveWorld.ChangesOf | src/game/saveload.rs:149-161 | the records list each logged edit once, in the map's iteration order |
| SaveWorld.ApplyEditsLog | src/game/saveload.rs:95-111 | replaying the loaded edits through `set_block` rebuilds the change log key by key |
| SaveWorld.SaveWorld | src/game/saveload.rs:137-177 | the saved file starts with the header for the world's seed and change count |
| SaveWorld.LoadWorld | src/game/saveload.rs:73-135 | the world loads exactly when the file parses, and the loaded world is valid |
| SaveWorld.ChangeLogRoundTrip | src/game/saveload.rs:149-161 | rebuilding a log from its listed records gives the same log |
| SaveWorld.LoadWorldOf | src/game/saveload.rs:91-131 | a parsed file gives a world whose change log and entities are the parsed ones |
| SaveWorld.WorldRoundTrip | src/game/saveload.rs:73-177 | saving a world and loading it back restores its change log and its entities |
| Assets.ParseHexU32 | src/asset.rs:24 | `u32::from_str_radix(part, 16)` succeeds exactly on a non-empty string of hexadecimal digits (after an optional '+') whose value fits in 32 bits, and then yields that value |
| Assets.ParseToHex | src/asset.rs:24 | every 32-bit number written in hexadecimal parses back to itself |
| Assets.JoinSplit | src/asset.rs:23 | splitting a key on '.' loses nothing: joining the parts with '.' gives the key back |
| Assets.SplitJoin | src/asset.rs:23 | splitting the dot-join of dot-free parts gives the parts back |
| Assets.ClassifySegment | src/asset.rs:24-28 | a key part is numeric exactly when it parses as hexadecimal `u32`, otherwise it is kept as its text |
| Assets.ParseKey | src/asset.rs:21-35 | a key is rejected exactly when its first dot-separated part is hex-looking; otherwise it has one part per segment, the first textual, each numeric exactly when its segment parses as hex |
| Assets.HexLookingCategoryRejected | src/asset.rs:30-32 | a category such as "add", made only of hex digits, is read as a number, so the key "add.x" is rejected |
| Assets.ResolveIncludes | src/asset.rs:100-110 | appending the includes succeeds exactly when every included name is already defined, appends their cubes and uvs in include order, and otherwise fails naming the first missing include and the model |
| Assets.BuildModelDefsSpec | src/asset.rs:79-114 | building the definitions succeeds exactly when every model includes only models defined before it, and then each model holds its own cubes followed by those of its includes, as they were resolved |
| Assets.BuildKeepsCountsEqual | src/asset.rs:84-111 | when every raw model has as many uv sets as cubes, so does every resolved model |
| Assets.GetAfterAdd | src/asset.rs:191-200 | after adding a resource under a name, getting that name with its type yields it and with another type yields nothing; other names are unaffected |
| Assets.GetAbsent | src/asset.rs:198-200 | getting a name never added yields nothing |
| Assets.Add | src/asset.rs:193-196 | adding binds the name to the resource, replacing any earlier one, and keeps every other binding |
| Decimal.ParseU32Spec | src/game/entity.rs:61-64 | `parse::<u32>` succeeds exactly on a non-empty run of decimal digits (after an optional '+') with value at most 2^32-1 and yields that value; the empty string is the Empty error |
| Decimal.ParseU32Overflow | src/game/entity.rs:61-64 | a digit string whose value exceeds 2^32-1 is the PosOverflow error |
| Decimal.ParseNatToDec | src/game/entity.rs:72-76 | every `u32` printed in decimal parses back to itself |
| Decimal.NatToDec | src/game/entity.rs:74 | printing a number gives a non-empty run of digits with no leading zero |
| Maps.UpdateAllEnumerates | src/game/saveload.rs:114-128 | inserting every pair of a map, in any order listing each key once, rebuilds exactly that map |
| Maps.LeastFreeId | mp3d-core/src/world/mod.rs:77-83 | the id handed out is at least 1, unused, and every smaller positive id is in use |
| ChatCommands.WordsUnwords | mp3d-core/src/server/mod.rs:237 | `split_whitespace` recovers any list of words joined by single spaces |
| ChatCommands.ParseCommand | mp3d-core/src/server/mod.rs:233-252 | a line is a command exactly when it starts with '/'; a nickname taken from it is a whole word without white space |
| ChatCommands.NeverNoCommand | mp3d-core/src/server/mod.rs:237-238 | the "No command provided" error is unreachable: a line starting with '/' always has a first word |
| ChatCommands.ParseUnwords | mp3d-core/src/server/mod.rs:237-252 | for a command line built from words, the first word selects `/nick` or the unknown-command error, and `/nick` takes the second word or reports the missing nickname |
| ChatCommands.NickCommand | mp3d-core/src/server/mod.rs:240-241 | `/nick` followed by words sets the first of them as the nickname; with no word it is the missing-nickname error |
| CoreWorld.NewWorld | mp3d-core/src/world/mod.rs:35-50 | a new world holds exactly the fresh chunks with x and z in -8..8 and y in -1..1, and no entities |
| CoreWorld.GetBlockAt | mp3d-core/src/world/mod.rs:53-58 | a block read is absent exactly when the position's chunk (Euclidean division by 16) is not resident |
| CoreWorld.SetBlockAtSpec | mp3d-core/src/world/mod.rs:61-74 | after a write the position always reads some block, creating its chunk if absent; it reads the written block exactly when the block's palette index fits in `u16`, which holds for a new chunk or a palette under 65536 entries; every other position of a resident chunk reads as before |
| CoreWorld.SetBlockAt | mp3d-core/src/world/mod.rs:61-74 | a write, with the chunk's `u16` index cast, keeps the world well formed (every slot a valid palette index below 65536) and the entities unchanged, and adds at most the position's chunk |
| CoreWorld.WriteTarget | mp3d-core/src/world/mod.rs:61-70 | the chunk a write goes to is well formed and, when the position's chunk is absent, is a fresh chunk whose palette is the initial one |
| CoreWorld.NextEntityId | mp3d-core/src/world/mod.rs:77-83 | the next entity id is the least positive id not in use |
| CoreWorld.AddEntitySpec | mp3d-core/src/world/mod.rs:86-91 | adding an entity stores it under the least free id, with that id set in it, keeping every other entity and the chunks |
| CoreWorld.RemoveEntity | mp3d-core/src/world/mod.rs:94-96 | removing an id drops exactly that id and changes nothing when it is absent |
| CoreWorld.TickAllSpec | mp3d-core/src/world/mod.rs:113-124 | ticking entities in a list of distinct ids replaces each listed entity by its stepped value, or drops it when the stepped value requests removal, and leaves the others alone |
| CoreWorld.TickSpec | mp3d-core/src/world/mod.rs:113-124 | in whatever order the ids are walked, a tick leaves exactly the entities whose step does not request removal, each stepped once |
| PaletteChunk.IndexBijection | mp3d-core/src/world/chunk.rs:63-66 | the flat index x + 16(y + 16z) and its decoding are inverse on the 16x16x16 cube and on 0..4096 |
| PaletteChunk.IndexInjective | mp3d-core/src/world/chunk.rs:63-66 | two different positions of a chunk never share a slot of the block array |
| PaletteChunk.NewChunk | mp3d-core/src/world/chunk.rs:18-60 | a fresh chunk is well formed, every slot fits in a `u16`, and its palette is Air, Grass, Dirt, Stone in that order |
| PaletteChunk.NewChunkLayers | mp3d-core/src/world/chunk.rs:38-51 | at a non-cave position the fresh chunk holds Stone more than three below the surface height, then two Dirt, then one Grass, and Air at or above the height; caves are Air |
| PaletteChunk.GetBlock | mp3d-core/src/world/chunk.rs:63-68 | every block read is one of the palette's blocks |
| PaletteChunk.Position | mp3d-core/src/world/chunk.rs:74 | `position` finds the first palette entry equal to the block, or nothing exactly when the block is absent |
| PaletteChunk.SetBlock | mp3d-core/src/world/chunk.rs:71-80 | a write keeps the chunk well formed, reuses the palette when the block is present and appends it once otherwise |
| PaletteChunk.GetSetBlock | mp3d-core/src/world/chunk.rs:63-80 | with an unbounded palette index, a written position reads back as the block and every other position reads as before |
| PaletteChunk.SetBlockAsWritten | mp3d-core/src/world/chunk.rs:71-80 | with the palette index truncated to `u16`, every slot still points into the palette, which only grows |
| PaletteChunk.AsWrittenAgrees | mp3d-core/src/world/chunk.rs:71-80 | while the palette has fewer than 65536 entries the truncating write is the unbounded one |
| PaletteChunk.AsWrittenGetSet | mp3d-core/src/world/chunk.rs:63-80 | after the truncating write every other position reads as before, the written position reads back as the block exactly when the block's palette index is below 65536, and always when the palette had fewer than 65536 entries |
| PaletteChunk.AsWrittenLosesBlock | mp3d-core/src/world/chunk.rs:77-78 | when the palette already holds 65536 entries, writing a new block stores index 0 after truncation, so the position reads back as the first palette entry instead of the block |
| PlayerPayload.SavePlayer | mp3d-core/src/entity/player.rs:55-67 | a saved player is 40 bytes: the `u64` user id and eight `f32` words |
| PlayerPayload.Snapshot | mp3d-core/src/entity/player.rs:123-134 | a snapshot is 28 bytes |
| PlayerPayload.SnapshotOmitsVelocity | mp3d-core/src/entity/player.rs:123-134 | the snapshot is the saved form with the three velocity words cut out |
| PlayerPayload.LoadPlayer | mp3d-core/src/entity/player.rs:69-121 | loading fails only with the end-of-data error; a loaded player has entity id 0 and no cooldown, and version 0 reads no user id |
| PlayerPayload.LoadTruncated | mp3d-core/src/entity/player.rs:98-111 | loading fails exactly when the data is shorter than 40 bytes for version 1 or later, or 32 bytes for version 0 |
| PlayerPayload.LoadSaveRoundTrip | mp3d-core/src/entity/player.rs:55-121 | loading a saved player with version 1 or later gives the player back, with entity id 0 and no cooldown |
| PlayerPayload.NewPlayerRoundTrip | mp3d-core/src/entity/player.rs:25-35 | a new player survives saving and loading unchanged |
| PlayerPayload.LoadVersionZero | mp3d-core/src/entity/player.rs:98-120 | version 0 data is eight words read as position, velocity, yaw and pitch, with user id 0 |
| PlayerPayload.ReadWordsLength | mp3d-core/src/entity/player.rs:83-94 | reading n little-endian words succeeds exactly when 4n bytes remain |
| Server.NewServer | mp3d-core/src/server/mod.rs:35-42 | a new server has no sessions or connections, runs at 48 ticks per second, and is well formed |
| Server.BroadcastSpec | mp3d-core/src/server/mod.rs:56-66 | a broadcast queues the message for every session except the sender's, whose session is untouched |
| Server.SessionOf | mp3d-core/src/server/mod.rs:119-120 | a connection has a session exactly when it maps to a user id that has one |
| Server.NextUserId | mp3d-core/src/server/mod.rs:45-51 | the next user id is the least positive id without a session |
| Server.ConnectSpec | mp3d-core/src/server/mod.rs:69-97 | a connect binds the connection to the least free user id, creates its session with only the Connected message and no nickname, spawns its player entity at the origin, and tells every earlier session about the spawn with the player's snapshot |
| Server.DisconnectSpec | mp3d-core/src/server/mod.rs:98-110 | a disconnect drops the connection, the user's session and its player entity, and tells every remaining session |
| Server.HandleDisconnect | mp3d-core/src/server/mod.rs:98-104 | an unknown connection is ignored; disconnect panics exactly when the connection's user has no session |
| Server.Clamp | mp3d-core/src/server/mod.rs:130-131 | `clamp(lo, hi)` keeps a value inside the bounds and moves an outside value to the nearer bound |
| Server.MoveSeesClampedInputs | mp3d-core/src/server/mod.rs:130-131 | moving depends on the forward input only through its clamp to -1..2 and on strafe only through its clamp to -1..1 |
| Server.MoveSpec | mp3d-core/src/server/mod.rs:111-151 | a move of a connected player sets its yaw and pitch, keeps its position and user id until the tick, and broadcasts the move to every session |
| Server.HandleMove | mp3d-core/src/server/mod.rs:111-151 | a move changes no chunk, connection or set of sessions or entities |
| Server.HandleSetBlock | mp3d-core/src/server/mod.rs:152-159 | a block change keeps the world well formed, every palette index still below 65536, and is broadcast to every session |
| Server.SetBlockReadBack | mp3d-core/src/server/mod.rs:152-153 | after a block change the position reads the new block exactly when its palette index fits in `u16`, and always when the chunk is new or its palette has fewer than 65536 entries |
| Server.RequestWorld | mp3d-core/src/server/mod.rs:160-176 | a chunk request generates exactly the requested chunks that were absent and keeps every resident one |
| Server.RequestResident | mp3d-core/src/server/mod.rs:161-166 | every requested chunk is resident afterwards |
| Server.RequestReplies | mp3d-core/src/server/mod.rs:160-176 | the requester receives one chunk message per requested position, in request order, carrying the resident chunk |
| Server.RequestOthers | mp3d-core/src/server/mod.rs:167-174 | no other session receives anything from a chunk request |
| Server.ExecuteCommand | mp3d-core/src/server/mod.rs:229-255 | a command never changes the connections, the world or the set of sessions; a line not starting with '/' is no command and changes nothing |
| Server.NickSpec | mp3d-core/src/server/mod.rs:240-251 | `/nick n` sets n as the connected user's nickname and confirms it, and fails without change when the connection has no session |
| Server.ChatWithNickname | mp3d-core/src/server/mod.rs:203-216 | a chat line from a user with a nickname is broadcast to every session, the sender's included, prefixed by the nickname |
| Server.ChatWithoutNickname | mp3d-core/src/server/mod.rs:217-223 | a chat line from a user without a nickname only sends that user the hint to set one |
| Server.CommandErrorToSender | mp3d-core/src/server/mod.rs:182-193 | a failing command sends only its sender the formatted error |
| Server.HandleMessage | mp3d-core/src/server/mod.rs:55-226 | handling any message keeps the world well formed, and only a disconnect can panic |
| Server.HandleMessageValid | mp3d-core/src/server/mod.rs:55-226 | from a consistent server, where every connection's user has a session whose player entity exists, no message panics and the server stays consistent |
| Server.ConnectValid | mp3d-core/src/server/mod.rs:69-97 | a connect keeps the server consistent |
| Server.DisconnectValid | mp3d-core/src/server/mod.rs:98-110 | on a consistent server a disconnect never panics and keeps it consistent |
| Server.TickKeepsPlayers | mp3d-core/src/server/mod.rs:258-261 | a server tick records the rate and steps every player entity once, removing none |
| Client.SendAll | mp3d-client/src/client/mod.rs:51-53 | sending messages through the local connection keeps the server's world well formed, and cannot panic unless a disconnect is among them |
| Client.ReceiveSpec | mp3d-client/src/client/mod.rs:59-67 | receiving takes exactly the pending messages of connection 0's session and empties that queue, leaving every other session alone; without a session it yields nothing |
| Client.ReceiveDrains | mp3d-client/src/client/mod.rs:59-67 | a second receive right after a first yields nothing |
| Client.ReceiveKeepsValid | mp3d-client/src/client/mod.rs:59-67 | receiving keeps a consistent server consistent |
| Client.Forward | mp3d-client/src/client/mod.rs:108-130 | the forward input is 2 for W with LCtrl, 1 for W alone, -1 for S without W and 0 otherwise |
| Client.Strafe | mp3d-client/src/client/mod.rs:132-146 | the strafe input is 1 when A is held, -1 for D without A and 0 otherwise |
| Client.KeyPrecedence | mp3d-client/src/client/mod.rs:108-146 | W overrides S and A overrides D |
| Client.EncodingSurvivesClamp | mp3d-client/src/client/mod.rs:108-146 | every forward and strafe value the client sends is left unchanged by the server's clamps |
| Client.NewClient | mp3d-client/src/client/mod.rs:80-96 | a new client sends Connect first, starts at the origin with no user id and an empty world |
| Client.NewClientReceivesConnected | mp3d-client/src/client/mod.rs:80-96 | the first thing a new client receives is its own Connected message, carrying the least free user id |
| Client.SendInputSpec | mp3d-client/src/client/mod.rs:99-176 | sending input emits exactly a Move built from the held keys and the look angles, then a request for precisely the missing chunks within the render distance of the player's chunk, each once |
| Client.SendInput | mp3d-client/src/client/mod.rs:99-176 | sending input keeps the server's world well formed and leaves the client's own world and user id alone |
| Client.Apply | mp3d-client/src/client/mod.rs:183-222 | a Connected message sets the user id, another user's move is ignored, only moves touch the player and only chunk data touches the world, inserting the chunk marked dirty |
| Client.ApplyAllUserId | mp3d-client/src/client/mod.rs:183-187 | after a batch the user id is the one of the last Connected message, or unchanged when there is none |
| Client.ApplyAllChunks | mp3d-client/src/client/mod.rs:215-220 | after a batch a chunk holds the last data delivered for it, and a chunk delivered nothing is as before |
| Client.ForeignMovesIgnored | mp3d-client/src/client/mod.rs:197-205 | moves of other users never change the player |
| Client.ReceiveStateChunks | mp3d-client/src/client/mod.rs:179-224 | after receiving, every resident chunk was delivered in this batch or was already resident within the render distance, and every delivered chunk is resident and dirty |
| Client.NewClientLearnsUserId | mp3d-client/src/client/mod.rs:179-187 | a new client learns its user id from its first receive |
| LegacyClient.Strafe | mp3d-client/src/client.rs:123-137 | the older client sends strafe -1 for A, 1 for D without A, and 0 otherwise |
| LegacyClient.StrafeRevisionsDisagree | mp3d-client/src/client.rs:123-137 | the two client revisions send opposite strafe signs for every set of held keys |
| LegacyClient.SendInput | mp3d-client/src/client.rs:92-140 | the older client's input turns the view and updates forward and strafe from the keys, and sending never panics |
| LegacyClient.SentLookIsStale | mp3d-client/src/client.rs:92-140 | the older client never copies its look angles into the sent input, so the server keeps receiving the previous yaw and pitch |
| LegacyClient.Apply | mp3d-client/src/client.rs:147-170 | the older client sets its user id from Connected and copies its own moves verbatim |
| LegacyClient.LastOwnMoveWins | mp3d-client/src/client.rs:143-174 | after a batch the older client's player is at the last own move, or unchanged when there is none |
| ClientWorld.NewClientChunk | mp3d-client/src/client/chunk.rs:20-22 | a chunk arriving from the server is marked for remeshing |
| ClientWorld.ClientGetSet | mp3d-client/src/client/chunk.rs:25-33 | a client chunk write, with the `u16` index cast, marks the chunk dirty, leaves every other position unchanged, and reads back as the block exactly when its palette index fits in `u16` (always below 65536 palette entries) |
| ClientWorld.NewWorld | mp3d-client/src/client/world.rs:26-31 | a new client world has no chunks and no pending changes |
| ClientWorld.GetBlockAt | mp3d-client/src/client/world.rs:34-39 | a block read is absent exactly when the position's chunk is not resident |
| ClientWorld.MarkAllSpec | mp3d-client/src/client/world.rs:53-79 | marking neighbours makes dirty exactly the resident ones in the list and changes no blocks |
| ClientWorld.MarksBorder | mp3d-client/src/client/world.rs:53-79 | the neighbours marked are exactly the other chunks that one of the position's six face neighbours falls in |
| ClientWorld.StepChunk | mp3d-client/src/client/world.rs:53-79 | a unit step leaves the position's chunk exactly when the position lies on that side of its chunk |
| ClientWorld.SetBlockAtSpec | mp3d-client/src/client/world.rs:42-80 | a client write logs the change; when the chunk is resident it dirties it and reads back exactly when the palette index fits in `u16`; it dirties exactly the resident bordering chunks and changes no other block or chunk set |
| ClientWorld.InteriorMarksNothing | mp3d-client/src/client/world.rs:53-79 | a write strictly inside a chunk marks no neighbour |
| ClientWorld.NeedsChunksSpec | mp3d-client/src/client/world.rs:83-104 | the chunks asked for are exactly the non-resident ones within squared distance 64 of the position's chunk, each listed once |
| ClientWorld.UnloadSpec | mp3d-client/src/client/world.rs:107-123 | unloading reports exactly the resident chunks beyond squared distance 64 and keeps exactly the others, unchanged |
| ClientMesh.UnitStepsAreAxes | mp3d-client/src/render/meshing.rs:127-133 | of the 27 offsets the loops visit, those with \|dx\|+\|dy\|+\|dz\| = 1 are exactly the six axis directions |
| ClientMesh.FaceVertices | mp3d-client/src/render/meshing.rs:144-370 | each face has four vertices with the face's direction as normal, the block's colour, and the face's corners as positions |
| ClientMesh.NeighbourIsWorldLookup | mp3d-client/src/render/meshing.rs:87-109 | reading a neighbour through the chunk or through the world gives the same block when the chunk is the resident one |
| ClientMesh.MeshChunk | mp3d-client/src/render/meshing.rs:79-396 | the mesh has two triangles per face, every index names a vertex, and its vertices are the faces in loop order |
| ClientMesh.BlockFaceShown | mp3d-client/src/render/meshing.rs:113-143 | a block emits its face towards a direction exactly when it is full and the neighbour there is missing or not full |
| ClientMesh.BlockQuadsAreFaces | mp3d-client/src/render/meshing.rs:113-143 | everything a block emits is one of its own faces, and only full blocks emit |
| ClientMesh.NonFullDrawsNothing | mp3d-client/src/render/meshing.rs:117-119 | a block that is not full emits nothing |
| ClientMesh.IsolatedDrawsSix | mp3d-client/src/render/meshing.rs:126-143 | a full block with no full neighbour emits six faces |
| ClientMesh.EnclosedDrawsNothing | mp3d-client/src/render/meshing.rs:126-143 | a full block enclosed by full neighbours emits nothing |
| ClientMesh.MeshChunkFaces | mp3d-client/src/render/meshing.rs:111-143 | the chunk mesh holds a block's face exactly when the block is full and the neighbour is missing or not full |
| ClientMesh.SameFace | mp3d-client/src/render/meshing.rs:144-370 | faces with equal vertices belong to the same block, direction and colour, so no face is emitted for two cells |
| Scenes.NewManager | mp3d-client/src/scenes/mod.rs:42-46 | a new manager holds just the initial scene, which is current |
| Scenes.HandleEvent | mp3d-client/src/scenes/mod.rs:49-53 | an event reaches only the top scene |
| Scenes.Update | mp3d-client/src/scenes/mod.rs:56-76 | the manager asks to stop exactly when the top scene quits; with no scene it keeps running and does nothing |
| Scenes.UpdateCurrent | mp3d-client/src/scenes/mod.rs:61-74 | Push and Replace make the new scene current, Pop uncovers the scene below, and staying or quitting keeps the updated top |
| Scenes.UpdateShape | mp3d-client/src/scenes/mod.rs:61-74 | a switch changes the stack height by one for Push, minus one for Pop and zero otherwise, never touching the scenes below the top |
| Scenes.PushThenPop | mp3d-client/src/scenes/mod.rs:64-67 | a pushed scene that pops itself returns the stack to the updated original |
| Scenes.EmptiesOnlyByLastPop | mp3d-client/src/scenes/mod.rs:65-67 | the stack only becomes empty when its last scene pops |
| RustText.Width | src/abs/ui.rs:510-511 | a character takes one to four UTF-8 bytes, exactly one when it is ASCII |
| RustText.ByteLenAppend | src/abs/ui.rs:510-511 | the byte length `len()` of a concatenation is the sum of the byte lengths |
| RustText.CharAtSpec | src/abs/ui.rs:510 | a byte offset is a character boundary exactly when it is the byte offset of some character index, which is then unique |
| RustText.CharAtOffset | src/abs/ui.rs:510 | the byte offset of every character index is a boundary that maps back to it |
| RustText.InsertStr | src/abs/ui.rs:510 | `insert_str` succeeds exactly at a character boundary and panics otherwise |
| RustText.Remove | src/abs/ui.rs:518 | `remove` succeeds exactly at a character boundary that is not the end of the text |
| RustText.AsciiEdits | src/abs/ui.rs:510-525 | on ASCII text every byte offset is a boundary, and `insert_str` and `remove` splice at that character index |
| RustText.OffsetMono | src/abs/ui.rs:510-525 | byte offsets grow strictly with character indices and never pass the byte length |
| TextEdit.Insert | src/abs/ui.rs:509-512 | typing succeeds exactly when the cursor is on a character boundary |
| TextEdit.InsertSpec | src/abs/ui.rs:509-512 | typing at a boundary splices the text in at the cursor's character and moves the cursor past its bytes, staying on a boundary |
| TextEdit.BackspaceAsWritten | src/abs/ui.rs:516-521 | Backspace does nothing at offset 0 and otherwise succeeds exactly when the byte before the cursor starts a character |
| TextEdit.Delete | src/abs/ui.rs:522-526 | Delete does nothing at the end and never moves the cursor |
| TextEdit.DeleteKeepsBoundary | src/abs/ui.rs:522-526 | from a boundary Delete never panics and leaves the cursor on a boundary |
| TextEdit.LeftAsWritten | src/abs/ui.rs:527-531 | Left moves the cursor back one byte, stopping at 0, and keeps the text |
| TextEdit.RightAsWritten | src/abs/ui.rs:532-536 | Right moves the cursor forward one byte up to the byte length and keeps the text |
| TextEdit.Home | mp3d-client/src/render/ui/widgets/inputfield.rs:166-167 | Home puts the cursor at 0, a boundary |
| TextEdit.End | mp3d-client/src/render/ui/widgets/inputfield.rs:168-169 | End puts the cursor at the byte length, a boundary |
| TextEdit.WideBackspacePanics | src/abs/ui.rs:516-521 | typing one multi-byte character and then pressing Backspace panics, because the byte before the cursor is inside that character |
| TextEdit.InsideWide | src/abs/ui.rs:516-521 | after typing a multi-byte character the byte before the cursor is not a boundary |
| TextEdit.WideLeftThenTypePanics | src/abs/ui.rs:509-531 | typing a multi-byte character, pressing Left and typing again panics |
| TextEdit.BackspaceFixed | src/abs/ui.rs:516-521 | Backspace stepping over a whole character never panics from a boundary and stays on one |
| TextEdit.BackspaceUndoesInsert | src/abs/ui.rs:509-521 | with whole-character steps, Backspace undoes typing any single character |
| TextEdit.LeftUndoesRight | src/abs/ui.rs:527-536 | with whole-character steps, Left undoes Right before the end |
| TextEdit.AsciiSpec | src/abs/ui.rs:509-536 | on ASCII text every edit acts at the character index equal to the cursor, as the code intends |
| TextEdit.FixedAgreesOnAscii | src/abs/ui.rs:516-536 | on ASCII text the whole-character steps are exactly the written byte steps |
| Ui.UpdateButton | src/abs/ui.rs:358-381 | a button is pressed exactly when it is enabled, the mouse is down and not grabbed, and the pointer is inside its closed rectangle; the previous state is remembered |
| Ui.ButtonEdges | src/abs/ui.rs:385-399 | a button is never just pressed and just released at once, and just pressed implies down |
| Ui.PressFiresOnce | src/abs/ui.rs:358-399 | holding the mouse on a button reports the press once, then only down, and releasing reports the release once |
| Ui.NoPressWhen | src/abs/ui.rs:367-370 | a disabled button, an up mouse or a grabbed mouse never presses |
| Ui.Focus | src/abs/ui.rs:494-504 | a click without grab focuses the field exactly when inside it; otherwise focus stays |
| Ui.UpdateFieldAsWritten | src/abs/ui.rs:487-545 | an unfocused field ignores the events, and the rectangle and focus come from the click alone |
| Ui.FieldEventAsWritten | src/abs/ui.rs:513-542 | other events and key events without a keycode leave the field unchanged |
| Ui.AsciiFieldIsSafe | src/abs/ui.rs:506-543 | with ASCII text and ASCII events the written field never panics and stays ASCII |
| Ui.FieldWideBackspacePanics | src/abs/ui.rs:509-521 | a focused field receiving a multi-byte character and then Backspace in one frame panics |
| Ui.UpdateField | src/abs/ui.rs:487-545 | with whole-character steps a field whose cursor is on a boundary never panics and keeps the cursor on a boundary |
| Ui.FieldAgreesOnAscii | src/abs/ui.rs:506-543 | on ASCII text and events the corrected field does exactly what the written one does |
| InputField.NewField | mp3d-client/src/render/ui/widgets/inputfield.rs:28-45 | a new input field is empty with the cursor at 0, neither hovered nor focused |
| InputField.Chosen | mp3d-client/src/render/ui/widgets/inputfield.rs:152-170 | the key acted on is the repeated one first in the order Backspace, Left, Right, Home, End; typed text is used exactly when none of them repeats |
| InputField.SanitizeSpec | mp3d-client/src/render/ui/widgets/inputfield.rs:171-179 | sanitizing replaces exactly the forbidden characters by '_' and keeps every other one in place |
| InputField.SanitizeIdempotent | mp3d-client/src/render/ui/widgets/inputfield.rs:171-179 | sanitizing twice is sanitizing once |
| InputField.Hover | mp3d-client/src/render/ui/widgets/inputfield.rs:141-150 | hover is the closed rectangle test, the previous hover is remembered, and a held left button sets focus to hover |
| InputField.UpdateAsWritten | mp3d-client/src/render/ui/widgets/inputfield.rs:140-185 | an unfocused field changes only hover and focus |
| InputField.WideTypeThenBackspacePanics | mp3d-client/src/render/ui/widgets/inputfield.rs:153-181 | typing a multi-byte character in one frame and holding Backspace in the next panics |
| InputField.Update | mp3d-client/src/render/ui/widgets/inputfield.rs:140-185 | with whole-character steps a field whose cursor is on a boundary never panics and keeps it on a boundary |
| InputField.TypingSpec | mp3d-client/src/render/ui/widgets/inputfield.rs:170-182 | with no editing key the sanitized text is spliced in at the cursor and the cursor moves past it; with an editing key the typed text is ignored |
| InputField.AgreesOnAscii | mp3d-client/src/render/ui/widgets/inputfield.rs:140-185 | on ASCII text and input the corrected widget does exactly what the written one does, and never panics |
| Hotbar.Mid | src/main.rs:65-71 | `mid` is half an even length, and (n - 3)/2 for an odd length n, panicking for length 1 |
| Hotbar.ShiftVec | src/main.rs:73-81 | `shift_vec` keeps the length and panics exactly for lists shorter than 2 |
| Hotbar.ShiftIsRotation | src/main.rs:73-81 | `shift_vec` is a rotation of the list, so it is a permutation of it |
| Hotbar.SelectedIsCentred | src/main.rs:73-81 | the selected entry lands at the middle index |
| Hotbar.Slots | src/main.rs:416-418 | the shown window has seven slots and exists exactly when it fits around the middle index |
| Hotbar.PlaceableSlots | src/main.rs:416-418 | with 22 placeable blocks the window always fits, slot 3 is the selected block and slot k is the block k - 3 places after it, wrapping around |
| ChunkRequests.OffsetIndex | src/main.rs:91-93 | the loops visit every offset of the 15x15x15 cube |
| ChunkRequests.IndexOffset | src/main.rs:91-93 | the loops visit each offset once |
| ChunkRequests.VisitedMembers | src/main.rs:91-116 | after some iterations the sent chunks are exactly the wanted ones among the offsets visited so far |
| ChunkRequests.RequestChunks | src/main.rs:83-119 | the chunks sent are exactly those within squared distance 49 of the player's chunk that are neither resident nor queued, each sent once, and they join the queued set |
| ChunkRequests.Prune | src/main.rs:400-401 | pruning keeps exactly the queued chunks that are not resident |
| ChunkRequests.RequestThenPrune | src/main.rs:394-401 | the chunks sent in a frame survive that frame's pruning |
| ChunkRequests.QueuedNotResent | src/main.rs:100-115 | a queued or resident chunk is never sent |
| Monolith.GetChunk | src/game.rs:1418-1423 | a resident chunk is returned as is; a missing one is inserted as generated (dirty, as `Chunk::new` builds it) and without cached mesh, and its overspill dropped; no block elsewhere changes |
| Monolith.WriteLocal | src/game.rs:736-739 | a chunk write reads back, marks the chunk dirty, keeps every other cell of the (possibly generated) chunk and every other chunk |
| Monolith.MarkEachSpec | src/game.rs:1457-1467 | marking a list of chunks dirty makes each of them resident and dirty, changes no block, and leaves every unlisted chunk as it was |
| Monolith.SixAreFaceAdjacent | src/game.rs:1457-1462 | the neighbours the loops visit are exactly the six chunks at unit distance along one axis |
| Monolith.SetBlockSpec | src/game.rs:1438-1468 | after a write the block reads back, the edit is logged under its chunk and local position, the chunk and all six neighbours are resident and dirty, and every other chunk is unchanged |
| Monolith.SixCoverBorderMarks | src/game.rs:1457-1467 | every neighbour the split revision dirties for a write is among the six this revision dirties |
| Monolith.Spill | src/game.rs:1400-1410 | writing the overspill keeps the world well formed and the change log as it was |
| Monolith.SpillSpec | src/game.rs:1400-1410 | every chunk the overspill touches is resident and dirty afterwards, and holds at each touched cell the block of the last overspill entry for that cell |
| Monolith.SpillFrame | src/game.rs:1400-1410 | the overspill keeps a dirty chunk dirty and leaves every cell it does not touch as it was |
| Monolith.AddChunk | src/game.rs:1379-1412 | adding a chunk keeps the world well formed, makes the chunk resident and leaves the change log alone |
| Monolith.AddChunkBlocks | src/game.rs:1388-1399 | an arriving chunk holds the logged change at every cell that has one and the generated block elsewhere |
| Monolith.AddChunkSpills | src/game.rs:1400-1410 | the overspill written into other chunks is there after the add, on dirty chunks |
| Monolith.MeshFor | src/game.rs:746-754 | a clean chunk with a cached mesh reuses it; a dirty chunk or one without cache is meshed afresh |
| Monolith.GenerateMeshes | src/game.rs:1587-1640 | after meshing every chunk is clean with the same blocks, and the drawn meshes are exactly those of resident chunks whose mesh is non-empty and in the frustum |
| Monolith.CacheUse | src/game.rs:1617-1621 | a dirty chunk caches its fresh mesh, and a clean chunk with a cache keeps and draws it |
| Monolith.FreshChunkMeshed | src/game.rs:1617-1623 | a chunk `get_chunk` has just generated is meshed afresh by the next meshing pass, which caches that mesh and leaves the chunk clean with its generated blocks |
| Monolith.GenerateMeshesIdempotent | src/game.rs:1587-1640 | meshing twice with the same mesher and frustum is meshing once |

## Left out

- Floating point: `f32` positions, velocities and angles are `real` in this model, so `f32` rounding is not modelled. The player payloads and client messages carry each float as its 32-bit word, a `nat` below 2^32 (`PlayerPayload.F32`); nothing is computed on those words.
- Rendering: OpenGL, SDL, shaders, textures, fonts and the draw calls of every widget and scene are left out. Each mesher's buffers are modelled as data, and the GPU upload is not.
- Terrain noise and random draws: these are oracle parameters (`Generator`, `IdRolls`). Only the generator's contract (a chunk of the requested size) is assumed.
- Hash map iteration order is not fixed by Rust. Each walk over a `HashMap` takes the order as a parameter, and the lemmas hold for every order that lists each key once.
- Integer widths: coordinates and indices are unbounded `int`/`nat`. `i32` and `usize` overflow is modelled only where the model writes it out: the save file's `i32` words, the `u32` parsing and the palette's `u16` cast, which every chunk write of the client/server rewrite (server and client) uses.
- Blocks.Cubes: requires the block's shape model to be loaded, so the panic of the source's `unwrap` on a missing model is a precondition, not an outcome. The world, mesher and entity members that draw blocks require all seven shape models (`HasShapeModels`), as an asset set that loaded correctly provides.
- Blocks.Uvs: the same precondition and reason as Blocks.Cubes; here Air reads the full model too.
- GameWorld.Update: models only the retain passes (src/game/world.rs:128-143). The per-entity tick that follows (src/game/world.rs:144-146) is not composed in, so nothing is promised about chunks or entities after it; an entity's tick may break or place blocks. Its parts are modelled on their own: Entities.Interact, Entities.TickBillboard and Entities.KnockbackSpec, with player physics left out as float arithmetic.
- GameWorld.BreakBlock: Glungus breaking recurses through chunks it generates on the way, so no measure decreases. A `fuel` bound stands in for one, and with no fuel left a Glungus cell is only cleared.
- Entities.Interact: inherits the `fuel` bound of GameWorld.BreakBlock.
- The early engine's `break_block` and its other world queries have the same control flow as the split rewrite's. They are modelled once, in `GameWorld` and `WorldQueries`.
- Monolith.GenerateMeshes: the early mesher's body is the parameter `mesher`. The split rewrite's face-culling mesher (`Meshes`, `ChunkMesh`) is the one whose output is proved. The rayon thread pool is left out, because each chunk is meshed from the same snapshot.
- Server.HandleMove: the impulse that the clamped inputs add to the velocity is float trigonometry, so it is a parameter. The clamps themselves are modelled.
- Client.SendInput: the optimistic local physics step and `as_ivec3` (the cell of a float position) are parameters. The mouse-driven look update (mp3d-client/src/client/mod.rs:100-104), which clamps the pitch to [-89, 89] and wraps the yaw with `rem_euclid(360.0)`, is float arithmetic folded into the `look` parameter, so no bound on the sent pitch or yaw is stated.
- Client.Apply: the easing of the own player's position toward the server's (`smoothing`) is a parameter.
- CoreWorld.TickEntity: an entity's tick is a pure function of the entity (`step`). The source hands it the world as well, which the player's tick does not read.
- Player physics (gravity, friction, collision response), the billboard's movement and the camera's field of view are left out: they are float arithmetic that the modelled logic does not depend on.
- `MoveInstructions::default` and the key bindings enter as parameters.
- InputField drawing state (label, placeholder, tint) and the button's drawing are left out; `update`'s state changes are modelled.
- JSON decoding of asset files is left out: `Assets` starts from decoded model definitions.
- Channels, sockets and threads: the worker channel and the server's connection queues are sequences of messages. The transport is left out.
- PlayerPayload.Snapshot: the snapshot is the 28 bytes the code writes (an 8-byte id and five 4-byte floats), not a documented size.

## Findings

| source | as written | input that shows it | evidently intended | confidence | as-written member | corrected member |
|---|---|---|---|---|---|---|
| src/game/saveload.rs:79-82 | the loader slices the magic and reads the version without a length check | an empty or 2-byte file | an error result for a truncated or malformed file | high, not executed | SaveLoad.LoadPanicsOnShortFile | SaveLoad.CheckedNeverPanics |
| src/game/saveload.rs:62-71 | the name is read by scanning for a 0 byte that may be missing | a file whose first entity name runs to the end of the data | an error result for an unterminated name | high, not executed | SaveLoad.LoadPanicsOnUnterminatedName | SaveLoad.CheckedAgrees |
| mp3d-core/src/world/chunk.rs:77-78 | a new block's palette index is cast to `u16`, truncating it | a chunk whose palette already holds 65536 entries | the index of the new palette entry | medium, not executed | PaletteChunk.AsWrittenLosesBlock | PaletteChunk.GetSetBlock |
| src/abs/ui.rs:516-521 | Backspace removes the byte before the cursor and moves it back one byte | typing "é" and then pressing Backspace | Backspace removes the whole character before the cursor | high, not executed | TextEdit.WideBackspacePanics | TextEdit.BackspaceUndoesInsert |
| src/abs/ui.rs:509-521 | a focused text field edits with byte steps | a focused field receiving "é" and Backspace in one frame | the field steps over whole characters | high, not executed | Ui.FieldWideBackspacePanics | Ui.UpdateField |
| mp3d-client/src/render/ui/widgets/inputfield.rs:153-181 | the input field steps the cursor by one byte | typing "é" in one frame and holding Backspace in the next | the field steps over whole characters | high, not executed | InputField.WideTypeThenBackspacePanics | InputField.Update |
| mp3d-client/src/client.rs:92-140 | the look angles turn but are never copied into the sent input | any mouse movement | the sent input carries the new look, as the later revision does | medium, not executed | LegacyClient.SentLookIsStale | Client.SendInputSpec |

The server and client worlds write chunks with the `u16` cast, as the code does. Their read-back contracts (CoreWorld.SetBlockAtSpec, ClientWorld.ClientGetSet) therefore promise the written block only while its palette index fits; PaletteChunk.SetBlock is the corrected write.
