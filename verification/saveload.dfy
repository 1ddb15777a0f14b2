/**
 * The save file of the split revision (src/game/saveload.rs): the
 * bounds-checked little-endian readers, `World::save` and `World::load`.
 *
 * Layout: "MP3D", the version byte 0, the chunk-size byte 16, the seed as
 * an i32, then the change log as a u64 count of 19-byte records (three i32
 * chunk coordinates, three u8 local coordinates, the u32 block) and the
 * entities as a u64 count of records (u32 id, NUL-terminated ASCII name,
 * u64 payload length, payload).
 *
 * Things the sources shown do not define arrive as parameters: `toBlock`
 * is the `u32 -> Block` conversion, `saveEntity` and `loadEntity` are the
 * entities' own payload codecs, and `World::new` is the `fresh` world the
 * loaded edits are applied to.
 */
module SaveLoad {
  import opened Wrappers
  import opened Coords
  import opened Blocks
  import opened Generation
  import opened GameWorld
  import opened Decimal

  type Byte = b: int | 0 <= b < 256

  // ---------------------------------------------------------------------------
  // Little-endian integers
  // ---------------------------------------------------------------------------

  function Pow256(n: nat): nat {
    if n == 0 then 1 else 256 * Pow256(n - 1)
  }

  const U32Limit: nat := 0x1_0000_0000
  const U64Limit: nat := 0x1_0000_0000_0000_0000

  lemma Pow256Values()
    ensures Pow256(1) == 256 && Pow256(4) == U32Limit && Pow256(8) == U64Limit
  {
    assert Pow256(2) == 0x1_0000;
    assert Pow256(4) == 0x1_0000_0000;
    assert Pow256(6) == 0x1_0000_0000_0000;
  }

  /** `to_le_bytes` on an n-byte unsigned value: least significant byte first. */
  function LE(v: nat, n: nat): (bs: seq<Byte>)
    ensures |bs| == n
  {
    if n == 0 then [] else [v % 256] + LE(v / 256, n - 1)
  }

  /** `from_le_bytes`. */
  function FromLE(bs: seq<Byte>): nat {
    if |bs| == 0 then 0 else bs[0] + 256 * FromLE(bs[1..])
  }

  lemma {:induction false} FromLEBound(bs: seq<Byte>)
    ensures FromLE(bs) < Pow256(|bs|)
  {
    if |bs| > 0 {
      FromLEBound(bs[1..]);
    }
  }

  /** Reading back the bytes of a value that fits gives the value. */
  lemma {:induction false} FromLEToLE(v: nat, n: nat)
    requires v < Pow256(n)
    ensures FromLE(LE(v, n)) == v
  {
    if n > 0 {
      var bs := LE(v, n);
      assert bs[1..] == LE(v / 256, n - 1);
      assert v / 256 < Pow256(n - 1);
      FromLEToLE(v / 256, n - 1);
    }
  }

  /** An i32 as its two's-complement bit pattern, and back. */
  function I32Bits(v: int): nat {
    v % U32Limit
  }

  function ToI32(u: nat): int {
    if u >= 0x8000_0000 then u - U32Limit else u
  }

  predicate InI32(v: int) {
    -0x8000_0000 <= v < 0x8000_0000
  }

  /** Release-mode i32 arithmetic: the result wrapped into range. */
  function Wrap32(v: int): (r: int)
    ensures InI32(r)
    ensures InI32(v) ==> r == v
  {
    (v + 0x8000_0000) % U32Limit - 0x8000_0000
  }

  function I32LE(v: int): seq<Byte> {
    LE(I32Bits(v), 4)
  }

  lemma ToI32Bits(v: int)
    requires InI32(v)
    ensures I32Bits(v) < U32Limit && ToI32(I32Bits(v)) == v
  {
  }

  // ---------------------------------------------------------------------------
  // The readers
  // ---------------------------------------------------------------------------

  const EndOfData: string := "Unexpected end of data"

  /** `read_u32`/`read_i32`/`read_u64`: n bytes at the offset if they are there, and the offset after them. */
  function ReadFixed(data: seq<Byte>, offset: nat, n: nat): (r: Result<(nat, nat), string>)
    ensures r.Err? ==> r.error == EndOfData
  {
    if offset + n > |data| then Err(EndOfData) else Ok((FromLE(data[offset..offset + n]), offset + n))
  }

  /** `read_u8`, whose guard is written `offset >= len` rather than `offset + 1 > len`. */
  function ReadU8(data: seq<Byte>, offset: nat): (r: Result<(nat, nat), string>) {
    if offset >= |data| then Err(EndOfData) else Ok((data[offset], offset + 1))
  }

  function ReadU32(data: seq<Byte>, offset: nat): Result<(nat, nat), string> {
    ReadFixed(data, offset, 4)
  }

  function ReadU64(data: seq<Byte>, offset: nat): Result<(nat, nat), string> {
    ReadFixed(data, offset, 8)
  }

  function ReadI32(data: seq<Byte>, offset: nat): (r: Result<(int, nat), string>) {
    match ReadFixed(data, offset, 4)
    case Err(e) => Err(e)
    case Ok((u, o)) => Ok((ToI32(u), o))
  }

  /** A window inside a window. */
  lemma AtWithin(data: seq<Byte>, o: nat, rec: seq<Byte>, i: nat, bs: seq<Byte>)
    requires At(data, o, rec) && At(rec, i, bs)
    ensures At(data, o + i, bs)
  {
    WindowAt(data, o, rec, i, i + |bs|);
  }

  /** Records concatenated from `o` each sit at their start. */
  lemma {:induction false} ConcatAt(data: seq<Byte>, o: nat, recs: seq<seq<Byte>>)
    requires At(data, o, Concat(recs))
    ensures forall i :: 0 <= i < |recs| ==> At(data, Starts(recs, o)[i], recs[i])
    decreases |recs|
  {
    if |recs| > 0 {
      var offs := Starts(recs, o);
      AtSplit(data, o, recs[0], Concat(recs[1..]));
      ConcatAt(data, o + |recs[0]|, recs[1..]);
      assert offs[1..] == Starts(recs[1..], o + |recs[0]|);
      forall i | 1 <= i < |recs|
        ensures At(data, offs[i], recs[i])
      {
        assert offs[i] == offs[1..][i - 1] && recs[i] == recs[1..][i - 1];
      }
    }
  }

  /**
   * Every reader succeeds exactly when its bytes are all there, advances the
   * offset by exactly its width, and returns a value of that width;
   * `read_u8` behaves as the one-byte case of the others.
   */
  lemma ReadersSpec(data: seq<Byte>, offset: nat, n: nat)
    ensures ReadFixed(data, offset, n).Ok? <==> offset + n <= |data|
    ensures ReadFixed(data, offset, n).Ok? ==>
              ReadFixed(data, offset, n).value.1 == offset + n && ReadFixed(data, offset, n).value.0 < Pow256(n)
    ensures ReadU8(data, offset) == ReadFixed(data, offset, 1)
    ensures ReadI32(data, offset).Ok? ==> InI32(ReadI32(data, offset).value.0)
  {
    if offset + n <= |data| {
      FromLEBound(data[offset..offset + n]);
    }
    if offset < |data| {
      var bs := data[offset..offset + 1];
      assert bs[1..] == [];
    }
    if offset + 4 <= |data| {
      FromLEBound(data[offset..offset + 4]);
      Pow256Values();
    }
  }

  /**
   * `read_string_ascii`: bytes up to the next NUL, each taken as a char, and
   * the offset after the NUL. It has no bounds check: running off the end
   * panics (`strict` turns that into the end-of-data error instead).
   */
  function ReadString(data: seq<Byte>, offset: nat, strict: bool): (r: Outcome<(string, nat)>)
    ensures r.Panicked? ==> !strict
    decreases |data| - offset
  {
    if offset >= |data| then OutOfBounds(strict)
    else if data[offset] == 0 then Loaded(([], offset + 1))
    else match ReadString(data, offset + 1, strict)
      case Loaded((s, o)) => Loaded(([data[offset] as char] + s, o))
      case Failed(m) => Failed(m)
      case Panicked(why) => Panicked(why)
  }

  /** What loading can end in: a value, the `Err` the source returns, or a panic. */
  datatype Outcome<T> = Loaded(value: T) | Failed(msg: string) | Panicked(why: string)

  /** An index or slice past the end: a panic as written, the end-of-data error when `strict`. */
  function OutOfBounds<T>(strict: bool): (r: Outcome<T>)
    ensures r.Panicked? <==> !strict
  {
    if strict then Failed(EndOfData) else Panicked("index out of range")
  }

  /** A name is written as its bytes; every name the engine uses is ASCII without NUL. */
  predicate AsciiName(name: string) {
    forall i :: 0 <= i < |name| ==> 0 < name[i] as int < 128
  }

  function NameBytes(name: string): (bs: seq<Byte>)
    requires AsciiName(name)
    ensures |bs| == |name|
  {
    if |name| == 0 then [] else [name[0] as int] + NameBytes(name[1..])
  }

  // ---------------------------------------------------------------------------
  // The file
  // ---------------------------------------------------------------------------

  /** "MP3D". */
  const Magic: seq<Byte> := [0x4D, 0x50, 0x33, 0x44]

  /** `LATEST_SAVEFILE_VER`. */
  const SaveVersion: Byte := 0

  /** Bytes per change record: three i32, three u8, one u32. */
  const ChangeRecordSize: nat := 19

  /** A change-log entry: the chunk, the local position inside it, the block written. */
  datatype Change = Change(chunk: Vec3i, local: Vec3i, block: Block)

  /** `as u8`: the low byte. */
  function U8Of(v: int): Byte {
    v % 256
  }

  function ChangeRecord(c: Change): (bs: seq<Byte>)
    ensures |bs| == ChangeRecordSize
  {
    I32LE(c.chunk.x) + I32LE(c.chunk.y) + I32LE(c.chunk.z)
      + [U8Of(c.local.x), U8Of(c.local.y), U8Of(c.local.z)]
      + LE(Encode(c.block) as nat, 4)
  }

  /** Records written one after another. */
  function Concat(recs: seq<seq<Byte>>): seq<Byte> {
    if |recs| == 0 then [] else recs[0] + Concat(recs[1..])
  }

  /** Where each of `recs` starts when they are written from `o`, and where the last one ends. */
  function Starts(recs: seq<seq<Byte>>, o: nat): (offs: seq<nat>)
    ensures |offs| == |recs| + 1 && offs[0] == o && offs[|recs|] == o + |Concat(recs)|
    ensures forall i :: 0 <= i < |recs| ==> offs[i + 1] == offs[i] + |recs[i]|
  {
    if |recs| == 0 then [o] else [o] + Starts(recs[1..], o + |recs[0]|)
  }

  function ChangeRecordList(cs: seq<Change>): (recs: seq<seq<Byte>>)
    ensures |recs| == |cs|
  {
    seq(|cs|, i requires 0 <= i < |cs| => ChangeRecord(cs[i]))
  }

  function ChangeRecords(cs: seq<Change>): seq<Byte> {
    Concat(ChangeRecordList(cs))
  }

  /** An entity payload codec: `Entity::save`. */
  type EntitySaver = Entity -> seq<Byte>

  function EntityRecord(id: EntityId, e: Entity, saveEntity: EntitySaver): seq<Byte>
    requires AsciiName(id.name)
  {
    LE(id.id, 4) + NameBytes(id.name) + [0] + LE(|saveEntity(e)|, 8) + saveEntity(e)
  }

  predicate AsciiNames(es: seq<(EntityId, Entity)>) {
    forall i :: 0 <= i < |es| ==> AsciiName(es[i].0.name)
  }

  function EntityRecordList(es: seq<(EntityId, Entity)>, saveEntity: EntitySaver): (recs: seq<seq<Byte>>)
    requires AsciiNames(es)
    ensures |recs| == |es|
  {
    seq(|es|, i requires 0 <= i < |es| => EntityRecord(es[i].0, es[i].1, saveEntity))
  }

  function EntityRecords(es: seq<(EntityId, Entity)>, saveEntity: EntitySaver): seq<Byte>
    requires AsciiNames(es)
  {
    Concat(EntityRecordList(es, saveEntity))
  }

  /** Magic, version, chunk size, seed and the change count: the first 18 bytes. */
  function Header(seed: int, nChanges: nat): (bs: seq<Byte>)
    ensures |bs| == 18
    ensures bs[..4] == Magic && bs[4] == SaveVersion && bs[5] == ChunkSize
    ensures bs[6..10] == I32LE(seed) && bs[10..] == LE(nChanges, 8)
  {
    Magic + [SaveVersion, ChunkSize] + I32LE(seed) + LE(nChanges, 8)
  }

  /**
   * `World::save`, with the change log and the entities in the order the
   * maps are iterated.
   */
  function Save(seed: int, changes: seq<Change>, entities: seq<(EntityId, Entity)>, saveEntity: EntitySaver): (bs: seq<Byte>)
    requires AsciiNames(entities)
  {
    Header(seed, |changes|) + ChangeRecords(changes) + LE(|entities|, 8) + EntityRecords(entities, saveEntity)
  }

  /** What a load reads: chunk size, seed, the edits as (global position, block), the entities. */
  datatype SaveData = SaveData(chunkSize: nat, seed: int, edits: seq<(Vec3i, Block)>, entities: seq<(EntityId, Entity)>)

  /** `chunk * chunk_size + local` in i32 arithmetic, per axis. */
  function GlobalOf(chunk: Vec3i, chunkSize: int, local: Vec3i): Vec3i {
    Vec3i(Wrap32(chunk.x * chunkSize + local.x), Wrap32(chunk.y * chunkSize + local.y), Wrap32(chunk.z * chunkSize + local.z))
  }

  /** The `u32 -> Block` conversion the load applies. */
  type BlockOf = nat -> Block

  /** One change record: all 19 bytes must be present (every field read fails the same way otherwise). */
  function ReadChange(data: seq<Byte>, offset: nat, chunkSize: nat, toBlock: BlockOf): (r: Result<((Vec3i, Block), nat), string>)
    ensures r.Ok? <==> offset + ChangeRecordSize <= |data|
    ensures r.Ok? ==> r.value.1 == offset + ChangeRecordSize
  {
    if offset + ChangeRecordSize > |data| then Err(EndOfData)
    else
      var chunk := Vec3i(ToI32(FromLE(data[offset..offset + 4])), ToI32(FromLE(data[offset + 4..offset + 8])),
                         ToI32(FromLE(data[offset + 8..offset + 12])));
      var local := Vec3i(data[offset + 12], data[offset + 13], data[offset + 14]);
      var block := toBlock(FromLE(data[offset + 15..offset + 19]));
      Ok(((GlobalOf(chunk, chunkSize, local), block), offset + ChangeRecordSize))
  }

  /** `ReadChange` as a reader of records. */
  function ChangeReader(data: seq<Byte>, chunkSize: nat, toBlock: BlockOf): Reader<(Vec3i, Block)> {
    (o: nat) => match ReadChange(data, o, chunkSize, toBlock)
      case Err(e) => Failed(e)
      case Ok(r) => Loaded(r)
  }

  /** An entity payload codec: `Player::load` and `Billboard::load`, by type name. */
  type EntityLoader = (string, seq<Byte>) -> Result<Entity, string>

  predicate KnownEntity(name: string) {
    name == "Player" || name == "Billboard"
  }

  /** One entity record: the id and the NUL-terminated name, then the payload. */
  function ReadEntity(data: seq<Byte>, offset: nat, strict: bool, loadEntity: EntityLoader)
    : (r: Outcome<((EntityId, Entity), nat)>)
    ensures r.Panicked? ==> !strict
  {
    match ReadU32(data, offset)
    case Err(e) => Failed(e)
    case Ok((id, o1)) =>
      match ReadString(data, o1, strict)
      case Failed(m) => Failed(m)
      case Panicked(why) => Panicked(why)
      case Loaded((name, o2)) => ReadPayload(data, o2, EntityId(id, name), strict, loadEntity)
  }

  /**
   * The length-prefixed payload of the entity `id`. The payload slice is
   * taken before the name is checked, and it is not bounds-checked either.
   */
  function ReadPayload(data: seq<Byte>, offset: nat, id: EntityId, strict: bool, loadEntity: EntityLoader)
    : (r: Outcome<((EntityId, Entity), nat)>)
    ensures r.Panicked? ==> !strict
  {
    match ReadU64(data, offset)
    case Err(e) => Failed(e)
    case Ok((len, o1)) =>
      if o1 + len > |data| then OutOfBounds(strict)
      else if !KnownEntity(id.name) then Failed("Unsupported entity: " + id.name)
      else match loadEntity(id.name, data[o1..o1 + len])
        case Err(m) => Failed(m)
        case Ok(e) => Loaded(((id, e), o1 + len))
  }

  /** A reader of one record: what it loads at an offset, and the offset after it. */
  type Reader<T> = nat -> Outcome<(T, nat)>

  /** `count` records one after another, stopping at the first one that does not load. */
  function ReadMany<T>(read: Reader<T>, offset: nat, count: nat): (r: Outcome<(seq<T>, nat)>)
    ensures r.Loaded? ==> |r.value.0| == count
    decreases count
  {
    if count == 0 then Loaded(([], offset))
    else match read(offset)
      case Failed(m) => Failed(m)
      case Panicked(why) => Panicked(why)
      case Loaded((x, o)) =>
        match ReadMany(read, o, count - 1)
        case Failed(m) => Failed(m)
        case Panicked(why) => Panicked(why)
        case Loaded((rest, o2)) => Loaded(([x] + rest, o2))
  }

  /** A reader that never panics reads any number of records without panicking. */
  lemma {:induction false} ReadManyNoPanic<T>(read: Reader<T>, offset: nat, count: nat)
    requires forall o :: !read(o).Panicked?
    ensures !ReadMany(read, offset, count).Panicked?
    decreases count
  {
    if count > 0 && read(offset).Loaded? {
      ReadManyNoPanic(read, read(offset).value.1, count - 1);
    }
  }

  /** Two readers that agree wherever the second does not panic agree on a run the second does not panic on. */
  lemma {:induction false} ReadManyAgree<T>(r1: Reader<T>, r2: Reader<T>, offset: nat, count: nat)
    requires forall o :: !r2(o).Panicked? ==> r1(o) == r2(o)
    requires !ReadMany(r2, offset, count).Panicked?
    ensures ReadMany(r1, offset, count) == ReadMany(r2, offset, count)
    decreases count
  {
    if count > 0 && r2(offset).Loaded? {
      ReadManyAgree(r1, r2, r2(offset).value.1, count - 1);
    }
  }

  /** `read` finds `xs[i]` at `offs[i]`, ending where the next one starts. */
  ghost predicate ReadsAt<T>(read: Reader<T>, offs: seq<nat>, xs: seq<T>) {
    && |offs| == |xs| + 1
    && forall i :: 0 <= i < |xs| ==> read(offs[i]) == Loaded((xs[i], offs[i + 1]))
  }

  /** Records that each read back at their starts read back as a run. */
  lemma {:induction false} ReadManyAt<T>(read: Reader<T>, offs: seq<nat>, xs: seq<T>, start: nat, end: nat)
    requires ReadsAt(read, offs, xs) && offs[0] == start && offs[|xs|] == end
    ensures ReadMany(read, start, |xs|) == Loaded((xs, end))
    decreases |xs|
  {
    if |xs| > 0 {
      assert ReadsAt(read, offs[1..], xs[1..]) by {
        forall i | 0 <= i < |xs| - 1
          ensures read(offs[1..][i]) == Loaded((xs[1..][i], offs[1..][i + 1]))
        {
          assert read(offs[i + 1]) == Loaded((xs[i + 1], offs[i + 2]));
        }
      }
      ReadManyAt(read, offs[1..], xs[1..], offs[1], end);
      assert [xs[0]] + xs[1..] == xs;
    }
  }

  /** `Entity::load` on the records of `data`, as a reader. */
  function EntityReader(data: seq<Byte>, strict: bool, loadEntity: EntityLoader): Reader<(EntityId, Entity)> {
    (o: nat) => ReadEntity(data, o, strict, loadEntity)
  }

  /**
   * Version 0: chunk size and seed, then the change records and the entity
   * records read by `entityAt`.
   */
  function LoadBody(data: seq<Byte>, offset: nat, toBlock: BlockOf, entityAt: Reader<(EntityId, Entity)>)
    : Outcome<SaveData>
  {
    match ReadU8(data, offset)
    case Err(e) => Failed(e)
    case Ok((chunkSize, o1)) =>
      match ReadI32(data, o1)
      case Err(e) => Failed(e)
      case Ok((seed, o2)) => LoadChanges(data, o2, toBlock, entityAt, SaveData(chunkSize, seed, [], []))
  }

  /** The counted change records, replayed at `partial`'s chunk size, then the entities. */
  function LoadChanges(data: seq<Byte>, offset: nat, toBlock: BlockOf, entityAt: Reader<(EntityId, Entity)>,
                       partial: SaveData): Outcome<SaveData>
  {
    match ReadU64(data, offset)
    case Err(e) => Failed(e)
    case Ok((nChanges, o1)) =>
      match ReadMany(ChangeReader(data, partial.chunkSize, toBlock), o1, nChanges)
      case Failed(m) => Failed(m)
      case Panicked(why) => Panicked(why)
      case Loaded((edits, o2)) => LoadEntities(data, o2, entityAt, partial.(edits := edits))
  }

  /** The counted entity records that end a version-0 body. */
  function LoadEntities(data: seq<Byte>, offset: nat, entityAt: Reader<(EntityId, Entity)>, partial: SaveData)
    : Outcome<SaveData>
  {
    match ReadU64(data, offset)
    case Err(e) => Failed(e)
    case Ok((nEntities, o1)) =>
      match ReadMany(entityAt, o1, nEntities)
      case Failed(m) => Failed(m)
      case Panicked(why) => Panicked(why)
      case Loaded((entities, _)) => Loaded(partial.(entities := entities))
  }

  /**
   * `World::load` up to building the world: the magic, the version, then
   * the version-0 body. `strict` = false is the code as written, where the
   * magic slice and the string and payload reads panic on short input;
   * `strict` = true reports those as the end-of-data error.
   */
  function LoadWith(data: seq<Byte>, strict: bool, toBlock: BlockOf, loadEntity: EntityLoader): Outcome<SaveData> {
    if |data| < 4 then OutOfBounds(strict)
    else if data[..4] != Magic then Failed("Invalid save file signature")
    else match ReadU8(data, 4)
      case Err(e) => Failed(e)
      case Ok((version, o)) =>
        if version != SaveVersion as nat then Failed("Unsupported save file version: " + NatToDec(version))
        else LoadBody(data, o, toBlock, EntityReader(data, strict, loadEntity))
  }

  /** The load as written. */
  function Load(data: seq<Byte>, toBlock: BlockOf, loadEntity: EntityLoader): Outcome<SaveData> {
    LoadWith(data, false, toBlock, loadEntity)
  }

  /** The load with every read bounds-checked, as the integer readers already are. */
  function LoadChecked(data: seq<Byte>, toBlock: BlockOf, loadEntity: EntityLoader): Outcome<SaveData> {
    LoadWith(data, true, toBlock, loadEntity)
  }

  /** A body whose entity reader never panics does not panic. */
  lemma BodyNoPanic(data: seq<Byte>, offset: nat, toBlock: BlockOf, entityAt: Reader<(EntityId, Entity)>)
    requires forall o :: !entityAt(o).Panicked?
    ensures !LoadBody(data, offset, toBlock, entityAt).Panicked?
  {
    forall o: nat, n: nat
      ensures !ReadMany(entityAt, o, n).Panicked?
    {
      ReadManyNoPanic(entityAt, o, n);
    }
    forall chunkSize: nat, o: nat, n: nat
      ensures !ReadMany(ChangeReader(data, chunkSize, toBlock), o, n).Panicked?
    {
      ReadManyNoPanic(ChangeReader(data, chunkSize, toBlock), o, n);
    }
  }

  /** The checked load never panics: every failure is an `Err`. */
  lemma CheckedNeverPanics(data: seq<Byte>, toBlock: BlockOf, loadEntity: EntityLoader)
    ensures !LoadChecked(data, toBlock, loadEntity).Panicked?
  {
    var entityAt := EntityReader(data, true, loadEntity);
    forall o: nat
      ensures !entityAt(o).Panicked?
    {
      assert entityAt(o) == ReadEntity(data, o, true, loadEntity);
    }
    if |data| >= 5 {
      BodyNoPanic(data, 5, toBlock, entityAt);
    }
  }

  /** A file that does not start with the magic, or has another version, is an error, not a panic. */
  lemma LoadRejects(data: seq<Byte>, toBlock: BlockOf, loadEntity: EntityLoader)
    requires |data| >= 5
    requires data[..4] != Magic || data[4] != SaveVersion
    ensures Load(data, toBlock, loadEntity).Failed?
    ensures data[..4] != Magic ==> Load(data, toBlock, loadEntity) == Failed("Invalid save file signature")
  {
  }

  /** The code as written panics on a file shorter than the magic, where it should return an error. */
  lemma LoadPanicsOnShortFile(toBlock: BlockOf, loadEntity: EntityLoader)
    ensures Load([], toBlock, loadEntity).Panicked?
    ensures Load([0x4D, 0x50], toBlock, loadEntity).Panicked?
    ensures LoadChecked([], toBlock, loadEntity) == Failed(EndOfData)
  {
  }

  /** A name with no NUL before the end of the data runs off it. */
  lemma {:induction false} ReadStringRunsOff(data: seq<Byte>, o: nat, strict: bool)
    requires o <= |data|
    requires forall k :: o <= k < |data| ==> data[k] != 0
    ensures ReadString(data, o, strict) == OutOfBounds(strict)
    decreases |data| - o
  {
    if o < |data| {
      ReadStringRunsOff(data, o + 1, strict);
    }
  }

  /** An entity record whose name runs off the end: a panic as written, the end-of-data error when checked. */
  lemma EntityNameRunsOff(data: seq<Byte>, o: nat, strict: bool, loadEntity: EntityLoader)
    requires o + 4 <= |data|
    requires forall k :: o + 4 <= k < |data| ==> data[k] != 0
    ensures ReadEntity(data, o, strict, loadEntity) == OutOfBounds(strict)
  {
    ReadStringRunsOff(data, o + 4, strict);
  }

  /**
   * The code as written also panics on a file whose first entity name runs
   * off the end: a header with no changes, a positive entity count, an id,
   * and no NUL after it.
   */
  lemma LoadPanicsOnUnterminatedName(data: seq<Byte>, seed: int, n: nat, strict: bool, toBlock: BlockOf, loadEntity: EntityLoader)
    requires InI32(seed) && 0 < n < U64Limit && 30 <= |data|
    requires At(data, 0, Header(seed, 0)) && At(data, 18, LE(n, 8))
    requires forall k :: 30 <= k < |data| ==> data[k] != 0
    ensures LoadWith(data, strict, toBlock, loadEntity) == OutOfBounds(strict)
  {
    LoadNoChanges(data, seed, strict, toBlock, loadEntity);
    FirstNameRunsOff(data, 18, n, strict, loadEntity, SaveData(ChunkSize, seed, [], []));
  }

  /** A file whose header counts no changes goes straight to the entity records. */
  lemma LoadNoChanges(data: seq<Byte>, seed: int, strict: bool, toBlock: BlockOf, loadEntity: EntityLoader)
    requires InI32(seed) && At(data, 0, Header(seed, 0))
    ensures LoadWith(data, strict, toBlock, loadEntity)
      == LoadEntities(data, 18, EntityReader(data, strict, loadEntity), SaveData(ChunkSize, seed, [], []))
  {
    var entityAt := EntityReader(data, strict, loadEntity);
    HeaderFrom(data, seed, 0);
    LoadWithOf(data, strict, toBlock, loadEntity);
    HeaderStage(data, seed, toBlock, entityAt);
    NoChangesStage(data, toBlock, entityAt, SaveData(ChunkSize, seed, [], []));
  }

  /** Entity records whose first name runs off the end of the data. */
  lemma FirstNameRunsOff(data: seq<Byte>, o: nat, n: nat, strict: bool, loadEntity: EntityLoader, partial: SaveData)
    requires 0 < n < U64Limit && At(data, o, LE(n, 8)) && o + 12 <= |data|
    requires forall k :: o + 12 <= k < |data| ==> data[k] != 0
    ensures LoadEntities(data, o, EntityReader(data, strict, loadEntity), partial) == OutOfBounds(strict)
  {
    Pow256Values();
    ReadFixedFrom(data, o, n, 8);
    EntityNameRunsOff(data, o + 8, strict, loadEntity);
    EntityFailsStage(data, o, n, EntityReader(data, strict, loadEntity), partial, OutOfBounds(strict));
  }

  /** A first entity record that does not load ends the load the same way. */
  lemma EntityFailsStage(data: seq<Byte>, o: nat, n: nat, entityAt: Reader<(EntityId, Entity)>, partial: SaveData,
                         r: Outcome<((EntityId, Entity), nat)>)
    requires ReadU64(data, o) == Ok((n, o + 8)) && n > 0
    requires entityAt(o + 8) == r && !r.Loaded?
    ensures LoadEntities(data, o, entityAt, partial) == if r.Failed? then Failed(r.msg) else Panicked(r.why)
  {
  }

  /** The checked load differs from the code only where the code panics. */
  lemma CheckedAgrees(data: seq<Byte>, toBlock: BlockOf, loadEntity: EntityLoader)
    ensures !Load(data, toBlock, loadEntity).Panicked? ==> LoadChecked(data, toBlock, loadEntity) == Load(data, toBlock, loadEntity)
  {
    var r1, r2 := EntityReader(data, true, loadEntity), EntityReader(data, false, loadEntity);
    forall o: nat | !r2(o).Panicked?
      ensures r1(o) == r2(o)
    {
      AgreeEntity(data, o, loadEntity);
    }
    forall o: nat, n: nat | !ReadMany(r2, o, n).Panicked?
      ensures ReadMany(r1, o, n) == ReadMany(r2, o, n)
    {
      ReadManyAgree(r1, r2, o, n);
    }
  }

  lemma {:induction false} AgreeString(data: seq<Byte>, o: nat)
    requires !ReadString(data, o, false).Panicked?
    ensures ReadString(data, o, true) == ReadString(data, o, false)
    decreases |data| - o
  {
    if o < |data| && data[o] != 0 {
      AgreeString(data, o + 1);
    }
  }

  lemma AgreeEntity(data: seq<Byte>, o: nat, loadEntity: EntityLoader)
    requires !ReadEntity(data, o, false, loadEntity).Panicked?
    ensures ReadEntity(data, o, true, loadEntity) == ReadEntity(data, o, false, loadEntity)
  {
    match ReadU32(data, o)
    case Err(_) =>
    case Ok((_, o1)) =>
      if !ReadString(data, o1, false).Panicked? {
        AgreeString(data, o1);
      }
  }

  // ---------------------------------------------------------------------------
  // Save then load
  // ---------------------------------------------------------------------------

  /** The bytes `bs` sit in `data` at offset `o`. */
  predicate At(data: seq<Byte>, o: nat, bs: seq<Byte>) {
    o + |bs| <= |data| && data[o..o + |bs|] == bs
  }

  lemma AtSplit(data: seq<Byte>, o: nat, a: seq<Byte>, b: seq<Byte>)
    requires At(data, o, a + b)
    ensures At(data, o, a) && At(data, o + |a|, b)
  {
    assert data[o..o + |a|] == (a + b)[..|a|];
    assert data[o + |a|..o + |a| + |b|] == (a + b)[|a|..];
  }

  /** A slice of the window is the same slice of the bytes. */
  lemma Window(data: seq<Byte>, o: nat, bs: seq<Byte>, i: nat, j: nat)
    requires At(data, o, bs) && i <= j <= |bs|
    ensures data[o + i..o + j] == bs[i..j]
  {
    forall k | 0 <= k < j - i
      ensures data[o + i..o + j][k] == bs[i..j][k]
    {
      assert data[o + i + k] == data[o..o + |bs|][i + k];
    }
  }

  /** A sub-window of a window is a window. */
  lemma WindowAt(data: seq<Byte>, o: nat, bs: seq<Byte>, i: nat, j: nat)
    requires At(data, o, bs) && i <= j <= |bs|
    ensures At(data, o + i, bs[i..j])
  {
    Window(data, o, bs, i, j);
  }

  lemma ReadFixedFrom(data: seq<Byte>, o: nat, v: nat, n: nat)
    requires At(data, o, LE(v, n)) && v < Pow256(n)
    ensures ReadFixed(data, o, n) == Ok((v, o + n))
  {
    FromLEToLE(v, n);
  }

  lemma {:induction false} ReadStringFrom(data: seq<Byte>, o: nat, name: string, strict: bool)
    requires AsciiName(name) && At(data, o, NameBytes(name) + [0])
    ensures ReadString(data, o, strict) == Loaded((name, o + |name| + 1))
    decreases |name|
  {
    if |name| > 0 {
      assert NameBytes(name) + [0] == [name[0] as int] + (NameBytes(name[1..]) + [0]);
      AtSplit(data, o, [name[0] as int], NameBytes(name[1..]) + [0]);
      ReadStringFrom(data, o + 1, name[1..], strict);
      assert [name[0]] + name[1..] == name;
    }
  }

  /** A change the file can carry: a local position inside the chunk, and a global position that fits an i32. */
  predicate Saveable(c: Change) {
    var g := Global(c.chunk, c.local);
    InChunk(c.local) && InI32(g.x) && InI32(g.y) && InI32(g.z)
  }

  /** The conversion from `u32` undoes the block's discriminant. */
  ghost predicate BlockRoundTrip(toBlock: BlockOf) {
    forall b :: toBlock(Encode(b) as nat) == b
  }

  /** The edits the load replays: each change at its global position. */
  function EditsOf(cs: seq<Change>): (es: seq<(Vec3i, Block)>)
    ensures |es| == |cs|
  {
    seq(|cs|, i requires 0 <= i < |cs| => (Global(cs[i].chunk, cs[i].local), cs[i].block))
  }

  lemma DecodeI32(bs: seq<Byte>, v: int)
    requires bs == I32LE(v) && InI32(v)
    ensures ToI32(FromLE(bs)) == v
  {
    Pow256Values();
    FromLEToLE(I32Bits(v), 4);
    ToI32Bits(v);
  }

  lemma ChangeRecordFields(c: Change)
    ensures ChangeRecord(c)[0..4] == I32LE(c.chunk.x) && ChangeRecord(c)[4..8] == I32LE(c.chunk.y)
    ensures ChangeRecord(c)[8..12] == I32LE(c.chunk.z)
    ensures ChangeRecord(c)[12] == U8Of(c.local.x) && ChangeRecord(c)[13] == U8Of(c.local.y)
    ensures ChangeRecord(c)[14] == U8Of(c.local.z) && ChangeRecord(c)[15..19] == LE(Encode(c.block) as nat, 4)
  {
    var x, y, z := I32LE(c.chunk.x), I32LE(c.chunk.y), I32LE(c.chunk.z);
    var l := [U8Of(c.local.x), U8Of(c.local.y), U8Of(c.local.z)];
    var xyz := x + y + z;
    assert xyz[0..4] == x && xyz[4..8] == y && xyz[8..12] == z;
    var rec := xyz + l + LE(Encode(c.block) as nat, 4);
    assert rec[0..12] == xyz;
  }

  /** A saveable change's global position needs no wrapping. */
  lemma GlobalOfSaveable(c: Change)
    requires Saveable(c)
    ensures U8Of(c.local.x) == c.local.x && U8Of(c.local.y) == c.local.y && U8Of(c.local.z) == c.local.z
    ensures GlobalOf(c.chunk, ChunkSize, Vec3i(U8Of(c.local.x), U8Of(c.local.y), U8Of(c.local.z))) == Global(c.chunk, c.local)
  {
  }

  lemma ReadChangeFrom(data: seq<Byte>, o: nat, c: Change, toBlock: BlockOf)
    requires Saveable(c) && BlockRoundTrip(toBlock) && At(data, o, ChangeRecord(c))
    ensures ReadChange(data, o, ChunkSize, toBlock) == Ok(((Global(c.chunk, c.local), c.block), o + ChangeRecordSize))
  {
    var rec := ChangeRecord(c);
    ChangeRecordFields(c);
    Window(data, o, rec, 0, 4);
    Window(data, o, rec, 4, 8);
    Window(data, o, rec, 8, 12);
    Window(data, o, rec, 15, 19);
    DecodeI32(data[o..o + 4], c.chunk.x);
    DecodeI32(data[o + 4..o + 8], c.chunk.y);
    DecodeI32(data[o + 8..o + 12], c.chunk.z);
    Pow256Values();
    FromLEToLE(Encode(c.block) as nat, 4);
    assert data[o + 12] == rec[12] && data[o + 13] == rec[13] && data[o + 14] == rec[14];
    GlobalOfSaveable(c);
  }

  /** Saved change records read back, in order, as the edits of the changes. */
  lemma ReadChangesFrom(data: seq<Byte>, o: nat, cs: seq<Change>, toBlock: BlockOf)
    requires forall i :: 0 <= i < |cs| ==> Saveable(cs[i])
    requires BlockRoundTrip(toBlock) && At(data, o, ChangeRecords(cs))
    ensures ReadMany(ChangeReader(data, ChunkSize, toBlock), o, |cs|) == Loaded((EditsOf(cs), o + |ChangeRecords(cs)|))
  {
    var recs := ChangeRecordList(cs);
    var offs := Starts(recs, o);
    var read := ChangeReader(data, ChunkSize, toBlock);
    ConcatAt(data, o, recs);
    forall i | 0 <= i < |cs|
      ensures read(offs[i]) == Loaded((EditsOf(cs)[i], offs[i + 1]))
    {
      ReadChangeFrom(data, offs[i], cs[i], toBlock);
    }
    ReadManyAt(read, offs, EditsOf(cs), o, o + |ChangeRecords(cs)|);
  }

  /** An entity the file can carry and read back: its codec round-trips and its name is one `load` accepts. */
  predicate EntitySaveable(id: EntityId, e: Entity, saveEntity: EntitySaver, loadEntity: EntityLoader) {
    && id.id < U32Limit && KnownEntity(id.name)
    && |saveEntity(e)| < U64Limit && loadEntity(id.name, saveEntity(e)) == Ok(e)
  }

  /** Every entity of the list can be carried by the file. */
  predicate AllSaveable(es: seq<(EntityId, Entity)>, saveEntity: EntitySaver, loadEntity: EntityLoader) {
    forall i :: 0 <= i < |es| ==> EntitySaveable(es[i].0, es[i].1, saveEntity, loadEntity)
  }

  /** Where the fields of an entity record sit. */
  lemma EntityRecordFields(id: EntityId, e: Entity, saveEntity: EntitySaver)
    requires AsciiName(id.name)
    ensures var rec, k, p := EntityRecord(id, e, saveEntity), |id.name| + 1, saveEntity(e);
      && |rec| == 12 + k + |p|
      && At(rec, 0, LE(id.id, 4)) && At(rec, 4, NameBytes(id.name) + [0])
      && At(rec, 4 + k, LE(|p|, 8)) && At(rec, 12 + k, p)
  {
    AtParts(EntityRecord(id, e, saveEntity), LE(id.id, 4), NameBytes(id.name) + [0], LE(|saveEntity(e)|, 8), saveEntity(e));
  }

  /** Where the fields of an entity record sit in the data it was found in. */
  lemma EntityFieldsAt(data: seq<Byte>, o: nat, id: EntityId, e: Entity, saveEntity: EntitySaver)
    requires AsciiName(id.name) && At(data, o, EntityRecord(id, e, saveEntity))
    ensures var k, p := |id.name| + 1, saveEntity(e);
      && |EntityRecord(id, e, saveEntity)| == 12 + k + |p|
      && At(data, o, LE(id.id, 4)) && At(data, o + 4, NameBytes(id.name) + [0])
      && At(data, o + 4 + k, LE(|p|, 8)) && At(data, o + 4 + k + 8, p)
  {
    var rec, k, p := EntityRecord(id, e, saveEntity), |id.name| + 1, saveEntity(e);
    EntityRecordFields(id, e, saveEntity);
    AtWithin(data, o, rec, 0, LE(id.id, 4));
    AtWithin(data, o, rec, 4, NameBytes(id.name) + [0]);
    AtWithin(data, o, rec, 4 + k, LE(|p|, 8));
    AtWithin(data, o, rec, 12 + k, p);
  }

  lemma ReadEntityFrom(data: seq<Byte>, o: nat, id: EntityId, e: Entity, strict: bool,
                       saveEntity: EntitySaver, loadEntity: EntityLoader)
    requires AsciiName(id.name) && EntitySaveable(id, e, saveEntity, loadEntity)
    requires At(data, o, EntityRecord(id, e, saveEntity))
    ensures ReadEntity(data, o, strict, loadEntity) == Loaded(((id, e), o + |EntityRecord(id, e, saveEntity)|))
  {
    var o2 := o + 4 + |id.name| + 1;
    EntityFieldsAt(data, o, id, e, saveEntity);
    assert EntityId(id.id, id.name) == id;
    Pow256Values();
    ReadFixedFrom(data, o, id.id, 4);
    ReadStringFrom(data, o + 4, id.name, strict);
    EntityHeadStage(data, o, strict, loadEntity, id.id, id.name, o2);
    PayloadFrom(data, o2, id, e, strict, saveEntity, loadEntity);
  }

  /** An id and a name that read back leave the payload to the next stage. */
  lemma EntityHeadStage(data: seq<Byte>, o: nat, strict: bool, loadEntity: EntityLoader, id: nat, name: string, o2: nat)
    requires ReadU32(data, o) == Ok((id, o + 4)) && ReadString(data, o + 4, strict) == Loaded((name, o2))
    ensures ReadEntity(data, o, strict, loadEntity) == ReadPayload(data, o2, EntityId(id, name), strict, loadEntity)
  {
  }

  lemma PayloadFrom(data: seq<Byte>, o: nat, id: EntityId, e: Entity, strict: bool,
                    saveEntity: EntitySaver, loadEntity: EntityLoader)
    requires EntitySaveable(id, e, saveEntity, loadEntity)
    requires At(data, o, LE(|saveEntity(e)|, 8)) && At(data, o + 8, saveEntity(e))
    ensures ReadPayload(data, o, id, strict, loadEntity) == Loaded(((id, e), o + 8 + |saveEntity(e)|))
  {
    Pow256Values();
    ReadFixedFrom(data, o, |saveEntity(e)|, 8);
  }

  /** A saved entity record, as the entity reader sees it. */
  lemma ReadEntityAt(data: seq<Byte>, o: nat, x: (EntityId, Entity), strict: bool,
                     saveEntity: EntitySaver, loadEntity: EntityLoader, end: nat)
    requires AsciiName(x.0.name) && EntitySaveable(x.0, x.1, saveEntity, loadEntity)
    requires At(data, o, EntityRecord(x.0, x.1, saveEntity)) && end == o + |EntityRecord(x.0, x.1, saveEntity)|
    ensures EntityReader(data, strict, loadEntity)(o) == Loaded((x, end))
  {
    ReadEntityFrom(data, o, x.0, x.1, strict, saveEntity, loadEntity);
  }

  /** Each saved entity record reads back at its start. */
  lemma EntitiesReadAt(data: seq<Byte>, o: nat, es: seq<(EntityId, Entity)>, strict: bool,
                       saveEntity: EntitySaver, loadEntity: EntityLoader)
    requires AsciiNames(es) && AllSaveable(es, saveEntity, loadEntity)
    requires At(data, o, EntityRecords(es, saveEntity))
    ensures ReadsAt(EntityReader(data, strict, loadEntity), Starts(EntityRecordList(es, saveEntity), o), es)
  {
    var recs := EntityRecordList(es, saveEntity);
    var offs := Starts(recs, o);
    ConcatAt(data, o, recs);
    forall i | 0 <= i < |es|
      ensures EntityReader(data, strict, loadEntity)(offs[i]) == Loaded((es[i], offs[i + 1]))
    {
      ReadEntityAt(data, offs[i], es[i], strict, saveEntity, loadEntity, offs[i + 1]);
    }
  }

  /** The header reads back: the magic, version 0, chunk size 16, the seed and the change count. */
  lemma HeaderFrom(data: seq<Byte>, seed: int, n: nat)
    requires InI32(seed) && n < U64Limit && At(data, 0, Header(seed, n))
    ensures |data| >= 18 && data[..4] == Magic
    ensures ReadU8(data, 4) == Ok((SaveVersion as nat, 5)) && ReadU8(data, 5) == Ok((ChunkSize, 6))
    ensures ReadI32(data, 6) == Ok((seed, 10)) && ReadU64(data, 10) == Ok((n, 18))
    ensures At(data, 10, LE(n, 8))
  {
    var h := Header(seed, n);
    Window(data, 0, h, 0, 4);
    WindowAt(data, 0, h, 6, 10);
    WindowAt(data, 0, h, 10, 18);
    assert data[4] == h[4] && data[5] == h[5];
    Pow256Values();
    ReadFixedFrom(data, 6, I32Bits(seed), 4);
    ToI32Bits(seed);
    ReadFixedFrom(data, 10, n, 8);
  }

  /** A file with the magic and version 0 loads as its body. */
  lemma LoadWithOf(data: seq<Byte>, strict: bool, toBlock: BlockOf, loadEntity: EntityLoader)
    requires |data| >= 5 && data[..4] == Magic && ReadU8(data, 4) == Ok((SaveVersion as nat, 5))
    ensures LoadWith(data, strict, toBlock, loadEntity) == LoadBody(data, 5, toBlock, EntityReader(data, strict, loadEntity))
  {
  }

  /** Four parts written one after another each sit where the ones before end. */
  lemma AtParts(data: seq<Byte>, a: seq<Byte>, b: seq<Byte>, c: seq<Byte>, d: seq<Byte>)
    requires data == a + b + c + d
    ensures At(data, 0, a) && At(data, |a|, b) && At(data, |a| + |b|, c) && At(data, |a| + |b| + |c|, d)
  {
    assert At(data, 0, data);
    AtSplit(data, 0, a + b + c, d);
    AtSplit(data, 0, a + b, c);
    AtSplit(data, 0, a, b);
  }

  /** A saved header reads as its chunk size and seed, leaving the change count to the next stage. */
  lemma HeaderStage(data: seq<Byte>, seed: int, toBlock: BlockOf, entityAt: Reader<(EntityId, Entity)>)
    requires ReadU8(data, 5) == Ok((ChunkSize, 6)) && ReadI32(data, 6) == Ok((seed, 10))
    ensures LoadBody(data, 5, toBlock, entityAt) == LoadChanges(data, 10, toBlock, entityAt, SaveData(ChunkSize, seed, [], []))
  {
  }

  /** Saved change records read back as their edits, leaving the entities to the next stage. */
  lemma ChangesStage(data: seq<Byte>, cs: seq<Change>, toBlock: BlockOf, entityAt: Reader<(EntityId, Entity)>, partial: SaveData)
    requires |cs| < U64Limit && partial.chunkSize == ChunkSize
    requires forall i :: 0 <= i < |cs| ==> Saveable(cs[i])
    requires BlockRoundTrip(toBlock)
    requires At(data, 10, LE(|cs|, 8)) && At(data, 18, ChangeRecords(cs))
    ensures LoadChanges(data, 10, toBlock, entityAt, partial)
      == LoadEntities(data, 18 + |ChangeRecords(cs)|, entityAt, partial.(edits := EditsOf(cs)))
  {
    Pow256Values();
    ReadFixedFrom(data, 10, |cs|, 8);
    ReadChangesFrom(data, 18, cs, toBlock);
  }

  /** A change count of zero reads no records. */
  lemma NoChangesStage(data: seq<Byte>, toBlock: BlockOf, entityAt: Reader<(EntityId, Entity)>, partial: SaveData)
    requires At(data, 10, LE(0, 8))
    ensures LoadChanges(data, 10, toBlock, entityAt, partial) == LoadEntities(data, 18, entityAt, partial.(edits := []))
  {
    Pow256Values();
    ReadFixedFrom(data, 10, 0, 8);
  }

  /** Saved entity records, read back with `Entity::load`, complete the load. */
  lemma EntitiesStage(data: seq<Byte>, o: nat, es: seq<(EntityId, Entity)>, strict: bool,
                      saveEntity: EntitySaver, loadEntity: EntityLoader, partial: SaveData)
    requires |es| < U64Limit && AsciiNames(es) && AllSaveable(es, saveEntity, loadEntity)
    requires At(data, o, LE(|es|, 8)) && At(data, o + 8, EntityRecords(es, saveEntity))
    ensures LoadEntities(data, o, EntityReader(data, strict, loadEntity), partial) == Loaded(partial.(entities := es))
  {
    Pow256Values();
    ReadFixedFrom(data, o, |es|, 8);
    var offs := Starts(EntityRecordList(es, saveEntity), o + 8);
    EntitiesReadAt(data, o + 8, es, strict, saveEntity, loadEntity);
    ReadManyAt(EntityReader(data, strict, loadEntity), offs, es, o + 8, offs[|es|]);
  }

  /**
   * Loading a saved file gives back the seed, every change as the edit at
   * its global position, and every entity, in the order they were written,
   * both as written and checked.
   */
  lemma SaveLoadRoundTrip(seed: int, cs: seq<Change>, es: seq<(EntityId, Entity)>, strict: bool,
                          saveEntity: EntitySaver, toBlock: BlockOf, loadEntity: EntityLoader)
    requires InI32(seed) && |cs| < U64Limit && |es| < U64Limit
    requires forall i :: 0 <= i < |cs| ==> Saveable(cs[i])
    requires AsciiNames(es) && AllSaveable(es, saveEntity, loadEntity)
    requires BlockRoundTrip(toBlock)
    ensures LoadWith(Save(seed, cs, es, saveEntity), strict, toBlock, loadEntity)
      == Loaded(SaveData(ChunkSize, seed, EditsOf(cs), es))
  {
    var data := Save(seed, cs, es, saveEntity);
    var o4 := 18 + |ChangeRecords(cs)|;
    AtParts(data, Header(seed, |cs|), ChangeRecords(cs), LE(|es|, 8), EntityRecords(es, saveEntity));
    var entityAt := EntityReader(data, strict, loadEntity);
    HeaderFrom(data, seed, |cs|);
    LoadWithOf(data, strict, toBlock, loadEntity);
    HeaderStage(data, seed, toBlock, entityAt);
    var partial := SaveData(ChunkSize, seed, [], []);
    ChangesStage(data, cs, toBlock, entityAt, partial);
    EntitiesStage(data, o4, es, strict, saveEntity, loadEntity, partial.(edits := EditsOf(cs)));
  }
}
