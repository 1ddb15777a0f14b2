/**
 * The byte formats of the player entity in the client/server revision
 * (mp3d-core/src/entity/player.rs): the 40-byte save payload, its loader for
 * both payload versions, and the 28-byte snapshot sent to clients.
 *
 * An `f32` is written with `to_le_bytes` and read with `from_le_bytes`, which
 * move the bit pattern unchanged, so every float is modelled as its 32-bit
 * pattern and the round trip is bit-exact.
 */
module PlayerPayload {
  import opened Wrappers
  import opened SaveLoad

  /** The bit pattern of an `f32`. */
  type F32 = b: nat | b < 0x1_0000_0000

  datatype F3 = F3(x: F32, y: F32, z: F32)

  /** `Vec3::ZERO` and `0.0`: positive zero is the all-zero pattern. */
  const Zero: F32 := 0
  const Zero3: F3 := F3(Zero, Zero, Zero)

  /** `PlayerEntity`. */
  datatype Player = Player(entityId: nat, userId: nat, position: F3, velocity: F3, yaw: F32, pitch: F32, cooldown: nat)

  /** `PlayerEntity::new`: no entity id yet, at rest, level, no cooldown. */
  function NewPlayer(userId: nat, position: F3): Player {
    Player(0, userId, position, Zero3, Zero, Zero, 0)
  }

  /** The floats of a player in save order: position, velocity, yaw, pitch. */
  function SaveWords(p: Player): (ws: seq<F32>)
    ensures |ws| == 8
  {
    [p.position.x, p.position.y, p.position.z, p.velocity.x, p.velocity.y, p.velocity.z, p.yaw, p.pitch]
  }

  /** The floats of a snapshot: the save order without the velocity. */
  function SnapshotWords(p: Player): (ws: seq<F32>)
    ensures |ws| == 5
  {
    [p.position.x, p.position.y, p.position.z, p.yaw, p.pitch]
  }

  /** Each float as four little-endian bytes, one after another. */
  function WordBytes(ws: seq<F32>): (bs: seq<Byte>)
    ensures |bs| == 4 * |ws|
  {
    if |ws| == 0 then [] else LE(ws[0], 4) + WordBytes(ws[1..])
  }

  /** `save`: the user id as a u64, then the eight floats. */
  function SavePlayer(p: Player): (bs: seq<Byte>)
    ensures |bs| == 40
  {
    LE(p.userId, 8) + WordBytes(SaveWords(p))
  }

  /** `snapshot`: the user id, then position, yaw and pitch. */
  function Snapshot(p: Player): (bs: seq<Byte>)
    ensures |bs| == 28
  {
    LE(p.userId, 8) + WordBytes(SnapshotWords(p))
  }

  /** `read_f32` n times from `o`, stopping at the first short read. */
  function ReadWords(data: seq<Byte>, o: nat, n: nat): (r: Result<seq<F32>, string>)
    ensures r.Ok? ==> |r.value| == n
    ensures r.Err? ==> r.error == EndOfData
    decreases n
  {
    if n == 0 then Ok([])
    else match ReadFixed(data, o, 4)
      case Err(e) => Err(e)
      case Ok((v, o1)) =>
        FromLEBound(data[o..o + 4]);
        Pow256Values();
        match ReadWords(data, o1, n - 1)
        case Err(e) => Err(e)
        case Ok(ws) => Ok([v as F32] + ws)
  }

  /**
   * `load`: version 1 and later start with the user id; version 0 has none,
   * so the user id is 0 and the floats start at offset 0. The entity id and
   * the cooldown are not stored and come back as 0.
   */
  function LoadPlayer(data: seq<Byte>, version: nat): (r: Result<Player, string>)
    ensures r.Err? ==> r.error == EndOfData
    ensures r.Ok? ==> r.value.entityId == 0 && r.value.cooldown == 0
    ensures r.Ok? && version == 0 ==> r.value.userId == 0
  {
    var head := if version >= 1 then ReadFixed(data, 0, 8) else Ok((0, 0));
    match head
    case Err(e) => Err(e)
    case Ok((userId, o)) =>
      match ReadWords(data, o, 8)
      case Err(e) => Err(e)
      case Ok(ws) => Ok(Player(0, userId, F3(ws[0], ws[1], ws[2]), F3(ws[3], ws[4], ws[5]), ws[6], ws[7], 0))
  }

  /** The floats are read back from their bytes. */
  lemma {:induction false} ReadWordsFrom(data: seq<Byte>, o: nat, ws: seq<F32>)
    requires At(data, o, WordBytes(ws))
    ensures ReadWords(data, o, |ws|) == Ok(ws)
    decreases |ws|
  {
    if |ws| > 0 {
      Pow256Values();
      AtSplit(data, o, LE(ws[0], 4), WordBytes(ws[1..]));
      ReadFixedFrom(data, o, ws[0], 4);
      ReadWordsFrom(data, o + 4, ws[1..]);
      assert [ws[0]] + ws[1..] == ws;
    }
  }

  /** Reading n floats fails exactly when fewer than 4n bytes remain. */
  lemma {:induction false} ReadWordsLength(data: seq<Byte>, o: nat, n: nat)
    requires o <= |data|
    ensures ReadWords(data, o, n).Ok? <==> o + 4 * n <= |data|
    decreases n
  {
    if n > 0 && o + 4 <= |data| {
      ReadWordsLength(data, o + 4, n - 1);
    }
  }

  /**
   * Loading a saved player with a versioned payload restores the user id,
   * position, velocity, yaw and pitch bit for bit; the entity id and the
   * cooldown are reset.
   */
  lemma LoadSaveRoundTrip(p: Player, version: nat)
    requires p.userId < U64Limit && version >= 1
    ensures LoadPlayer(SavePlayer(p), version) == Ok(p.(entityId := 0, cooldown := 0))
  {
    var data := SavePlayer(p);
    Pow256Values();
    assert At(data, 0, LE(p.userId, 8) + WordBytes(SaveWords(p)));
    AtSplit(data, 0, LE(p.userId, 8), WordBytes(SaveWords(p)));
    ReadFixedFrom(data, 0, p.userId, 8);
    ReadWordsFrom(data, 8, SaveWords(p));
  }

  /** A new player survives a save and a load unchanged. */
  lemma NewPlayerRoundTrip(userId: nat, position: F3, version: nat)
    requires userId < U64Limit && version >= 1
    ensures LoadPlayer(SavePlayer(NewPlayer(userId, position)), version) == Ok(NewPlayer(userId, position))
  {
    LoadSaveRoundTrip(NewPlayer(userId, position), version);
  }

  /** A version-0 payload is eight floats from offset 0 and no user id. */
  lemma LoadVersionZero(data: seq<Byte>, ws: seq<F32>)
    requires |ws| == 8 && At(data, 0, WordBytes(ws))
    ensures LoadPlayer(data, 0) == Ok(Player(0, 0, F3(ws[0], ws[1], ws[2]), F3(ws[3], ws[4], ws[5]), ws[6], ws[7], 0))
  {
    ReadWordsFrom(data, 0, ws);
  }

  /**
   * The load fails with "Unexpected end of data" exactly when the payload is
   * shorter than 40 bytes (versioned) or 32 bytes (version 0); longer
   * payloads are accepted and the surplus ignored.
   */
  lemma LoadTruncated(data: seq<Byte>, version: nat)
    ensures LoadPlayer(data, version).Err? <==> |data| < (if version >= 1 then 40 else 32)
  {
    if version >= 1 {
      if 8 <= |data| {
        ReadWordsLength(data, 8, 8);
      }
    } else {
      ReadWordsLength(data, 0, 8);
    }
  }

  /** The snapshot is the save payload with the 12 velocity bytes cut out. */
  lemma SnapshotOmitsVelocity(p: Player)
    ensures Snapshot(p) == SavePlayer(p)[..20] + SavePlayer(p)[32..]
  {
    var a := SnapshotWords(p)[..3];
    var c := SnapshotWords(p)[3..];
    var vs := [p.velocity.x, p.velocity.y, p.velocity.z];
    var head := LE(p.userId, 8);
    assert SaveWords(p) == a + (vs + c);
    assert SnapshotWords(p) == a + c;
    WordBytesAppend(a, vs + c);
    WordBytesAppend(vs, c);
    WordBytesAppend(a, c);
    var save := head + (WordBytes(a) + (WordBytes(vs) + WordBytes(c)));
    assert SavePlayer(p) == save;
    assert save[..20] == head + WordBytes(a);
    assert save[32..] == WordBytes(c);
  }

  /** The bytes of a word sequence are the first word's bytes, then the rest's. */
  lemma WordBytesCons(w: F32, ws: seq<F32>)
    ensures WordBytes([w] + ws) == LE(w, 4) + WordBytes(ws)
  {
    var s := [w] + ws;
    assert s[0] == w;
    assert s[1..] == ws;
  }

  lemma {:induction false} WordBytesAppend(a: seq<F32>, b: seq<F32>)
    ensures WordBytes(a + b) == WordBytes(a) + WordBytes(b)
    decreases |a|
  {
    if |a| == 0 {
      assert a + b == b;
    } else {
      var t := a[1..];
      assert a == [a[0]] + t;
      assert a + b == [a[0]] + (t + b);
      WordBytesCons(a[0], t + b);
      WordBytesCons(a[0], t);
      WordBytesAppend(t, b);
    }
  }
}
