/**
 * `World::save` and `World::load` at the level of the world: the change log
 * and the entity map are written in the maps' iteration order, and the load
 * replays every change through `set_block` on a new world and inserts every
 * entity, so the change log and the entity map come back as they were.
 */
module SaveWorld {
  import opened Wrappers
  import opened Coords
  import opened Blocks
  import opened Generation
  import opened GameWorld
  import opened SaveLoad
  import opened Maps

  /** The change log as the records `save` writes, in the order `ks` visits it. */
  function ChangesOf(log: map<(Vec3i, Vec3i), Block>, ks: seq<(Vec3i, Vec3i)>): (cs: seq<Change>)
    requires forall i :: 0 <= i < |ks| ==> ks[i] in log
    ensures |cs| == |ks|
    ensures forall i :: 0 <= i < |ks| ==> cs[i].chunk == ks[i].0 && cs[i].local == ks[i].1 && cs[i].block == log[ks[i]]
  {
    seq(|ks|, i requires 0 <= i < |ks| => Change(ks[i].0, ks[i].1, log[ks[i]]))
  }

  /** Each change keyed by its (chunk, local) pair: what the change log stores. */
  function Keyed(cs: seq<Change>): (kvs: seq<((Vec3i, Vec3i), Block)>)
    ensures |kvs| == |cs|
  {
    seq(|cs|, i requires 0 <= i < |cs| => ((cs[i].chunk, cs[i].local), cs[i].block))
  }

  /** `set_block` for every edit in order, on a world that generates chunks on a miss. */
  function ApplyEdits(w: World, edits: seq<(Vec3i, Block)>, gen: Generator): (r: World)
    requires WorldValid(w) && GeneratorValid(gen)
    ensures WorldValid(r)
    decreases |edits|
  {
    if |edits| == 0 then w else ApplyEdits(SetBlockGen(w, edits[0].0, edits[0].1, gen), edits[1..], gen)
  }

  /**
   * Replaying changes at their global positions records each one under the
   * (chunk, local) key it was saved with, because a local coordinate inside
   * the chunk makes the decomposition give back the same pair.
   */
  lemma {:induction false} ApplyEditsLog(w: World, cs: seq<Change>, gen: Generator)
    requires WorldValid(w) && GeneratorValid(gen)
    requires forall i :: 0 <= i < |cs| ==> InChunk(cs[i].local)
    ensures ApplyEdits(w, EditsOf(cs), gen).changes == UpdateAll(w.changes, Keyed(cs))
    decreases |cs|
  {
    if |cs| > 0 {
      assert EditsOf(cs)[1..] == EditsOf(cs[1..]);
      assert Keyed(cs)[1..] == Keyed(cs[1..]);
      var c := cs[0];
      var p := Global(c.chunk, c.local);
      DecomposeUnique(p, c.chunk, c.local);
      assert ChunkAndLocal(p) == (c.chunk, c.local);
      SetBlockSpec(w, p, c.block, gen);
      var w1 := SetBlockGen(w, p, c.block, gen);
      ApplyEditsLog(w1, cs[1..], gen);
    }
  }

  /**
   * `World::save`: the seed, the change log in the order `ks` visits it and
   * the entity map in the order `ids` visits it. Hash-map iteration order is
   * not fixed, so both orders are parameters.
   */
  function SaveWorld(w: World, seed: int, ks: seq<(Vec3i, Vec3i)>, ids: seq<EntityId>, saveEntity: EntitySaver): (bs: seq<Byte>)
    requires Enumerates(ks, w.changes) && Enumerates(ids, w.entities)
    requires forall i :: 0 <= i < |ids| ==> AsciiName(ids[i].name)
    ensures Header(seed, |w.changes|) <= bs
  {
    EnumerationSize(ks, w.changes);
    Save(seed, ChangesOf(w.changes, ks), PairsOf(w.entities, ids), saveEntity)
  }

  /**
   * `World::load` on top of the parsed file: a new world for the seed
   * (`World::new` is the parameter `blank`), every edit through `set_block`,
   * then the entities inserted into an emptied map. Errors and panics of the
   * parse are passed through.
   */
  function LoadWorld(data: seq<Byte>, strict: bool, toBlock: BlockOf, loadEntity: EntityLoader,
                     blank: int -> World, gen: Generator): (r: Outcome<World>)
    requires forall s :: WorldValid(blank(s))
    requires GeneratorValid(gen)
    ensures r.Loaded? <==> LoadWith(data, strict, toBlock, loadEntity).Loaded?
    ensures r.Loaded? ==> WorldValid(r.value)
  {
    match LoadWith(data, strict, toBlock, loadEntity)
    case Failed(e) => Failed(e)
    case Panicked(e) => Panicked(e)
    case Loaded(sd) =>
      var w := ApplyEdits(blank(sd.seed), sd.edits, gen);
      Loaded(w.(entities := UpdateAll(map[], sd.entities)))
  }

  /** The conditions under which `save` writes a file `load` reads back. */
  ghost predicate WorldSaveable(w: World, ks: seq<(Vec3i, Vec3i)>, ids: seq<EntityId>,
                                saveEntity: EntitySaver, loadEntity: EntityLoader) {
    && Enumerates(ks, w.changes) && Enumerates(ids, w.entities)
    && |ks| < U64Limit && |ids| < U64Limit
    && (forall i :: 0 <= i < |ks| ==> Saveable(Change(ks[i].0, ks[i].1, w.changes[ks[i]])))
    && (forall i :: 0 <= i < |ids| ==> AsciiName(ids[i].name))
    && AllSaveable(PairsOf(w.entities, ids), saveEntity, loadEntity)
  }

  /** The change log written in any full order and replayed into an empty log is the same log. */
  lemma ChangeLogRoundTrip(log: map<(Vec3i, Vec3i), Block>, ks: seq<(Vec3i, Vec3i)>)
    requires Enumerates(ks, log)
    ensures UpdateAll(map[], Keyed(ChangesOf(log, ks))) == log
  {
    assert Keyed(ChangesOf(log, ks)) == PairsOf(log, ks);
    UpdateAllEnumerates(log, ks);
  }

  /** A parsed file becomes the world its edits and entities describe. */
  lemma LoadWorldOf(data: seq<Byte>, strict: bool, toBlock: BlockOf, loadEntity: EntityLoader,
                    blank: int -> World, gen: Generator, seed: int, cs: seq<Change>, es: seq<(EntityId, Entity)>)
    requires forall s :: WorldValid(blank(s)) && blank(s).changes == map[]
    requires GeneratorValid(gen)
    requires forall i :: 0 <= i < |cs| ==> InChunk(cs[i].local)
    requires LoadWith(data, strict, toBlock, loadEntity) == Loaded(SaveData(ChunkSize, seed, EditsOf(cs), es))
    ensures var r := LoadWorld(data, strict, toBlock, loadEntity, blank, gen);
      r.Loaded? && r.value.changes == UpdateAll(map[], Keyed(cs)) && r.value.entities == UpdateAll(map[], es)
  {
    ApplyEditsLog(blank(seed), cs, gen);
  }

  /**
   * Saving a world and loading the file into a new world with an empty change
   * log gives back the change log and the entity map exactly, whatever order
   * the maps were iterated in.
   */
  lemma WorldRoundTrip(w: World, seed: int, ks: seq<(Vec3i, Vec3i)>, ids: seq<EntityId>, strict: bool,
                       saveEntity: EntitySaver, toBlock: BlockOf, loadEntity: EntityLoader,
                       blank: int -> World, gen: Generator)
    requires InI32(seed) && WorldSaveable(w, ks, ids, saveEntity, loadEntity) && BlockRoundTrip(toBlock)
    requires forall s :: WorldValid(blank(s)) && blank(s).changes == map[]
    requires GeneratorValid(gen)
    ensures var r := LoadWorld(SaveWorld(w, seed, ks, ids, saveEntity), strict, toBlock, loadEntity, blank, gen);
      r.Loaded? && r.value.changes == w.changes && r.value.entities == w.entities
  {
    var cs := ChangesOf(w.changes, ks);
    var es := PairsOf(w.entities, ids);
    var data := SaveWorld(w, seed, ks, ids, saveEntity);
    SaveLoadRoundTrip(seed, cs, es, strict, saveEntity, toBlock, loadEntity);
    LoadWorldOf(data, strict, toBlock, loadEntity, blank, gen, seed, cs, es);
    ChangeLogRoundTrip(w.changes, ks);
    UpdateAllEnumerates(w.entities, ids);
  }
}
