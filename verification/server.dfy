/**
 * The server logic of the client/server revision (mp3d-core/src/server/mod.rs):
 * sessions keyed by user id, connections bound to users, a message queue per
 * session, and the world. Networking is not part of it; a message arrives as
 * a call and replies are appended to the sessions' queues.
 */
module Server {
  import opened Wrappers
  import opened Coords
  import opened Maps
  import opened SaveLoad
  import opened PaletteChunk
  import opened PlayerPayload
  import opened CoreWorld
  import opened ChatCommands

  /** Chat text. The `%b..` and `%r` markup that `TextComponent` parses is kept as plain characters. */
  type Text = string

  /** `S2CMessage`, with the chat message the server sends. */
  datatype S2C =
    | Connected(userId: nat)
    | Disconnected(userId: nat)
    | EntitySpawned(entityId: nat, entityType: nat, snapshot: seq<Byte>)
    | PlayerMoved(userId: nat, position: F3, yaw: F32, pitch: F32)
    | BlockUpdated(blockPosition: Vec3i, block: CoreBlock)
    | ChunkData(chunkPosition: Vec3i, chunk: Chunk)
    | ChatMessage(message: Text)

  /** `C2SMessage` as the server matches it. */
  datatype C2S =
    | Connect
    | Disconnect
    | Move(forward: int, strafe: int, jump: bool, sneak: bool, yaw: F32, pitch: F32)
    | SetBlockMsg(target: Vec3i, newBlock: CoreBlock)
    | RequestChunks(chunkPositions: seq<Vec3i>)
    | SendMessage(message: string)

  /** `PlayerSession`. */
  datatype Session = Session(userId: nat, entityId: nat, nickname: Option<string>, pending: seq<S2C>)

  /**
   * What a move does to the player's velocity: `apply_velocity` of the
   * movement vector built from the yaw, the clamped inputs and the tick rate.
   * It is float trigonometry, so it is a parameter.
   */
  type Impulse = (Player, F32, int, int, bool, bool, nat) -> F3

  /** `Server`. The terrain stands for the noise that new chunks are generated from. */
  datatype ServerState = ServerState(sessions: map<nat, Session>, connections: map<nat, nat>, world: World,
                                     tps: nat, terrain: Terrain)

  /** `EntityType::Player as u8`. */
  const PlayerType: nat := 0

  /** The tick rate a new server starts with. */
  const DefaultTps: nat := 48

  /**
   * The server's bookkeeping: every session is stored under its own user id,
   * every connection is bound to an existing session, and no two connections
   * share a user.
   */
  ghost predicate ServerValid(s: ServerState) {
    && WorldValid(s.world)
    && (forall uid :: uid in s.sessions ==> s.sessions[uid].userId == uid)
    && (forall cid :: cid in s.connections ==> s.connections[cid] in s.sessions)
    && (forall c1, c2 :: c1 in s.connections && c2 in s.connections && c1 != c2 ==>
          s.connections[c1] != s.connections[c2])
  }

  /** `Server::new`. */
  function NewServer(t: Terrain): (s: ServerState)
    ensures ServerValid(s) && s.sessions == map[] && s.connections == map[] && s.tps == DefaultTps
  {
    ServerState(map[], map[], NewWorld(t), DefaultTps, t)
  }

  // ---------------------------------------------------------------------------
  // Queues
  // ---------------------------------------------------------------------------

  /** `broadcast_message`: queue `m` on every session except the sender's. */
  function Broadcast(ss: map<nat, Session>, sender: Option<nat>, m: S2C): (r: map<nat, Session>)
    ensures r.Keys == ss.Keys
  {
    map uid | uid in ss :: if sender == Some(uid) then ss[uid] else ss[uid].(pending := ss[uid].pending + [m])
  }

  /** Queue `m` on one session if it exists. */
  function Push(ss: map<nat, Session>, uid: nat, m: S2C): (r: map<nat, Session>)
    ensures r.Keys == ss.Keys
  {
    if uid in ss then ss[uid := ss[uid].(pending := ss[uid].pending + [m])] else ss
  }

  /** Session `uid` of `r` is that of `ss` with `m` queued. */
  ghost predicate Queued(ss: map<nat, Session>, r: map<nat, Session>, uid: nat, m: S2C) {
    uid in ss && uid in r && r[uid] == ss[uid].(pending := ss[uid].pending + [m])
  }

  /**
   * A broadcast from `Some(sender)` reaches every session except the sender,
   * whose session is untouched; a broadcast from `None` reaches every session.
   */
  lemma BroadcastSpec(ss: map<nat, Session>, sender: Option<nat>, m: S2C, uid: nat)
    requires uid in ss
    ensures Queued(ss, Broadcast(ss, sender, m), uid, m) <==> sender != Some(uid)
    ensures sender == Some(uid) ==> Broadcast(ss, sender, m)[uid] == ss[uid]
  {
    var r := Broadcast(ss, sender, m);
    if sender == Some(uid) {
      assert |r[uid].pending| == |ss[uid].pending|;
    }
  }

  /** A push queues the message on its session only. */
  lemma PushSpec(ss: map<nat, Session>, uid: nat, m: S2C, other: nat)
    requires uid in ss && other in ss && other != uid
    ensures Queued(ss, Push(ss, uid, m), uid, m)
    ensures Push(ss, uid, m)[other] == ss[other]
  {
  }

  /** The session a connection is bound to, if the binding and the session exist. */
  function SessionOf(s: ServerState, cid: nat): (r: Option<nat>)
    ensures r.Some? <==> cid in s.connections && s.connections[cid] in s.sessions
    ensures r.Some? ==> r.value == s.connections[cid]
  {
    if cid in s.connections && s.connections[cid] in s.sessions then Some(s.connections[cid]) else None
  }

  // ---------------------------------------------------------------------------
  // Connect and Disconnect
  // ---------------------------------------------------------------------------

  /** `next_user_id`. */
  function NextUserId(s: ServerState): (uid: nat)
    ensures uid >= 1 && uid !in s.sessions
    ensures forall k :: 1 <= k < uid ==> k in s.sessions
  {
    LeastFreeId(s.sessions)
  }

  /**
   * `Connect`: a fresh user with a new player at the origin, a session whose
   * queue holds only `Connected`, the connection bound to it, and the spawn
   * announced to every other session.
   */
  function HandleConnect(s: ServerState, cid: nat): (r: ServerState)
    requires WorldValid(s.world)
    ensures WorldValid(r.world)
  {
    var uid := NextUserId(s);
    var (w, eid) := AddEntity(s.world, NewPlayer(uid, Zero3));
    AddEntitySpec(s.world, NewPlayer(uid, Zero3));
    var ss := s.sessions[uid := Session(uid, eid, None, [Connected(uid)])];
    var spawned := EntitySpawned(eid, PlayerType, Snapshot(w.entities[eid]));
    s.(sessions := Broadcast(ss, Some(uid), spawned), connections := s.connections[cid := uid], world := w)
  }

  /**
   * After `Connect` the user id is the least free one, the new session holds
   * exactly `[Connected]`, the connection is bound to it, the new player is
   * stored under the session's entity id, and every earlier session is sent
   * the spawn with the player's snapshot.
   */
  lemma ConnectSpec(s: ServerState, cid: nat)
    requires WorldValid(s.world)
    ensures var r := HandleConnect(s, cid);
      var uid := NextUserId(s);
      && r.connections == s.connections[cid := uid]
      && r.sessions.Keys == s.sessions.Keys + {uid}
      && r.sessions[uid].pending == [Connected(uid)]
      && r.sessions[uid].nickname == None
      && r.sessions[uid].entityId in r.world.entities
      && r.world.entities[r.sessions[uid].entityId] == NewPlayer(uid, Zero3).(entityId := r.sessions[uid].entityId)
      && (forall k :: k in s.sessions ==>
            Queued(s.sessions, r.sessions, k,
                   EntitySpawned(r.sessions[uid].entityId, PlayerType, Snapshot(NewPlayer(uid, Zero3)))))
  {
    var uid := NextUserId(s);
    AddEntitySpec(s.world, NewPlayer(uid, Zero3));
    var (w, eid) := AddEntity(s.world, NewPlayer(uid, Zero3));
    var ss := s.sessions[uid := Session(uid, eid, None, [Connected(uid)])];
    var m := EntitySpawned(eid, PlayerType, Snapshot(w.entities[eid]));
    BroadcastSpec(ss, Some(uid), m, uid);
    forall k | k in s.sessions
      ensures Queued(s.sessions, Broadcast(ss, Some(uid), m), k, m)
    {
      BroadcastSpec(ss, Some(uid), m, k);
    }
  }

  /**
   * `Disconnect`: an unbound connection changes nothing; otherwise the binding,
   * the session and its entity are removed and `Disconnected` is queued on
   * every remaining session. A bound user without a session makes
   * `session.unwrap()` panic, modelled as `Err`.
   */
  function HandleDisconnect(s: ServerState, cid: nat): (r: Result<ServerState, string>)
    requires WorldValid(s.world)
    ensures r.Ok? ==> WorldValid(r.value.world)
    ensures r.Err? <==> cid in s.connections && s.connections[cid] !in s.sessions
  {
    if cid !in s.connections then Ok(s)
    else
      var uid := s.connections[cid];
      if uid !in s.sessions then Err("called `Option::unwrap()` on a `None` value")
      else
        var ss := s.sessions - {uid};
        Ok(s.(connections := s.connections - {cid},
              sessions := Broadcast(ss, None, Disconnected(uid)),
              world := RemoveEntity(s.world, s.sessions[uid].entityId)))
  }

  /** A disconnect removes exactly the binding, the session and its entity, and tells everyone left. */
  lemma DisconnectSpec(s: ServerState, cid: nat)
    requires WorldValid(s.world) && cid in s.connections && s.connections[cid] in s.sessions
    ensures var uid := s.connections[cid];
      var r := HandleDisconnect(s, cid).value;
      && r.connections == s.connections - {cid}
      && r.sessions.Keys == s.sessions.Keys - {uid}
      && r.world.entities.Keys == s.world.entities.Keys - {s.sessions[uid].entityId}
      && (forall k :: k in r.sessions ==> Queued(s.sessions, r.sessions, k, Disconnected(uid)))
  {
  }

  // ---------------------------------------------------------------------------
  // Move, SetBlock, RequestChunks
  // ---------------------------------------------------------------------------

  function Clamp(v: int, lo: int, hi: int): (r: int)
    requires lo <= hi
    ensures lo <= r <= hi
    ensures lo <= v <= hi ==> r == v
    ensures v < lo ==> r == lo
    ensures v > hi ==> r == hi
  {
    if v < lo then lo else if v > hi then hi else v
  }

  /**
   * `Move`: with a bound connection whose session's player exists, set the
   * yaw and pitch, add the impulse of the clamped inputs to the velocity, and
   * queue `PlayerMoved` on every session; otherwise nothing happens.
   */
  function HandleMove(s: ServerState, cid: nat, m: C2S, impulse: Impulse): (r: ServerState)
    requires m.Move?
    ensures r.connections == s.connections && r.sessions.Keys == s.sessions.Keys
    ensures r.world.chunks == s.world.chunks && r.world.entities.Keys == s.world.entities.Keys
  {
    match SessionOf(s, cid)
    case None => s
    case Some(uid) =>
      var eid := s.sessions[uid].entityId;
      if eid !in s.world.entities then s
      else
        var p := s.world.entities[eid];
        var v := impulse(p, m.yaw, Clamp(m.forward, -1, 2), Clamp(m.strafe, -1, 1), m.jump, m.sneak, s.tps);
        var p1 := p.(yaw := m.yaw, pitch := m.pitch, velocity := v);
        var moved := PlayerMoved(uid, p1.position, p1.yaw, p1.pitch);
        s.(world := s.world.(entities := s.world.entities[eid := p1]),
           sessions := Broadcast(s.sessions, None, moved))
  }

  /** A move only sees its inputs after clamping: forward to [-1, 2], strafe to [-1, 1]. */
  lemma MoveSeesClampedInputs(s: ServerState, cid: nat, m: C2S, impulse: Impulse)
    requires m.Move?
    ensures HandleMove(s, cid, m, impulse)
         == HandleMove(s, cid, m.(forward := Clamp(m.forward, -1, 2), strafe := Clamp(m.strafe, -1, 1)), impulse)
  {
  }

  /**
   * A move takes the yaw and pitch as sent, keeps the position, and announces
   * the player's position, yaw and pitch to every session, the mover's own
   * included.
   */
  lemma MoveSpec(s: ServerState, cid: nat, m: C2S, impulse: Impulse)
    requires m.Move? && SessionOf(s, cid).Some?
    requires s.sessions[s.connections[cid]].entityId in s.world.entities
    ensures var uid := s.connections[cid];
      var eid := s.sessions[uid].entityId;
      var r := HandleMove(s, cid, m, impulse);
      var p := r.world.entities[eid];
      && p.yaw == m.yaw && p.pitch == m.pitch && p.position == s.world.entities[eid].position
      && p.userId == s.world.entities[eid].userId
      && (forall k :: k in s.sessions ==> Queued(s.sessions, r.sessions, k, PlayerMoved(uid, p.position, m.yaw, m.pitch)))
  {
    var uid := s.connections[cid];
    var eid := s.sessions[uid].entityId;
    var r := HandleMove(s, cid, m, impulse);
    forall k | k in s.sessions
      ensures Queued(s.sessions, r.sessions, k, PlayerMoved(uid, r.world.entities[eid].position, m.yaw, m.pitch))
    {
      BroadcastSpec(s.sessions, None, PlayerMoved(uid, r.world.entities[eid].position, m.yaw, m.pitch), k);
    }
  }

  /** `SetBlock`: write the block, creating its chunk if needed, and queue `BlockUpdated` on every session. */
  function HandleSetBlock(s: ServerState, p: Vec3i, b: CoreBlock): (r: ServerState)
    requires WorldValid(s.world)
    ensures WorldValid(r.world)
    ensures r.connections == s.connections && r.sessions.Keys == s.sessions.Keys
    ensures forall k :: k in s.sessions ==> Queued(s.sessions, r.sessions, k, BlockUpdated(p, b))
  {
    var ss := Broadcast(s.sessions, None, BlockUpdated(p, b));
    assert forall k :: k in s.sessions ==> Queued(s.sessions, ss, k, BlockUpdated(p, b));
    s.(world := SetBlockAt(s.world, p, b, s.terrain), sessions := ss)
  }

  /**
   * After `SetBlock` the position's chunk is resident and reads the new block
   * exactly when the block's palette index fits the chunk's `u16` slots; a
   * chunk with fewer than 65536 palette entries always reads it back.
   */
  lemma SetBlockReadBack(s: ServerState, p: Vec3i, b: CoreBlock)
    requires WorldValid(s.world)
    ensures GetBlockAt(HandleSetBlock(s, p, b).world, p).Some?
    ensures GetBlockAt(HandleSetBlock(s, p, b).world, p) == Some(b)
      <==> TargetIndex(WriteTarget(s.world, p, s.terrain).palette, b) < U16Limit
    ensures ChunkOf(p) !in s.world.chunks || |s.world.chunks[ChunkOf(p)].palette| < U16Limit
      ==> GetBlockAt(HandleSetBlock(s, p, b).world, p) == Some(b)
  {
    SetBlockAtSpec(s.world, p, b, s.terrain, p);
  }

  /** One requested position: generate the chunk on a miss, then send it to a bound requester. */
  function RequestOne(s: ServerState, cid: nat, cp: Vec3i): (r: ServerState)
    requires WorldValid(s.world)
    ensures WorldValid(r.world)
    ensures r.connections == s.connections && r.sessions.Keys == s.sessions.Keys && r.terrain == s.terrain
    ensures r.world.entities == s.world.entities
  {
    var chunks := if cp in s.world.chunks then s.world.chunks else s.world.chunks[cp := NewChunk(cp, s.terrain)];
    var ss := match SessionOf(s, cid)
      case Some(uid) => Push(s.sessions, uid, ChunkData(cp, chunks[cp]))
      case None => s.sessions;
    s.(world := s.world.(chunks := chunks), sessions := ss)
  }

  /** `RequestChunks`: the positions in request order. */
  function RequestFrom(s: ServerState, cid: nat, cps: seq<Vec3i>): (r: ServerState)
    requires WorldValid(s.world)
    ensures WorldValid(r.world)
    ensures r.connections == s.connections && r.sessions.Keys == s.sessions.Keys && r.terrain == s.terrain
    ensures r.world.entities == s.world.entities
    decreases |cps|
  {
    if |cps| == 0 then s else RequestFrom(RequestOne(s, cid, cps[0]), cid, cps[1..])
  }

  /** The chunks a request leaves resident: the old ones untouched, missing requested ones generated. */
  ghost predicate ChunksAfter(before: map<Vec3i, Chunk>, after: map<Vec3i, Chunk>, cps: seq<Vec3i>, t: Terrain) {
    && (forall cp :: cp in after <==> cp in before || cp in cps)
    && (forall cp :: cp in before ==> after[cp] == before[cp])
    && (forall cp :: cp in after && cp !in before ==> after[cp] == NewChunk(cp, t))
  }

  /**
   * After a request every requested chunk is resident: chunks that were
   * resident are unchanged and missing ones are freshly generated.
   */
  lemma {:induction false} RequestWorld(s: ServerState, cid: nat, cps: seq<Vec3i>)
    requires WorldValid(s.world)
    ensures ChunksAfter(s.world.chunks, RequestFrom(s, cid, cps).world.chunks, cps, s.terrain)
    decreases |cps|
  {
    if |cps| > 0 {
      var cp := cps[0];
      var s1 := RequestOne(s, cid, cp);
      var r := RequestFrom(s1, cid, cps[1..]);
      RequestWorld(s1, cid, cps[1..]);
      forall c | c in r.world.chunks
        ensures c in s.world.chunks || c in cps
      {
        if c != cp && c !in s.world.chunks {
          var i :| 0 <= i < |cps[1..]| && cps[1..][i] == c;
          assert cps[i + 1] == c;
        }
      }
      forall c | c in cps
        ensures c in r.world.chunks
      {
        if c != cp {
          InTail(cps, c);
        }
      }
    }
  }

  /** One `ChunkData` per position, carrying the chunk resident there. */
  function ChunkReplies(cps: seq<Vec3i>, chunks: map<Vec3i, Chunk>): (ms: seq<S2C>)
    requires forall i :: 0 <= i < |cps| ==> cps[i] in chunks
    ensures |ms| == |cps|
    ensures forall i :: 0 <= i < |cps| ==> ms[i] == ChunkData(cps[i], chunks[cps[i]])
    decreases |cps|
  {
    if |cps| == 0 then [] else [ChunkData(cps[0], chunks[cps[0]])] + ChunkReplies(cps[1..], chunks)
  }

  /** A request touches no session but the requester's. */
  lemma {:induction false} RequestOthers(s: ServerState, cid: nat, cps: seq<Vec3i>, k: nat)
    requires WorldValid(s.world)
    requires k in s.sessions && SessionOf(s, cid) != Some(k)
    ensures RequestFrom(s, cid, cps).sessions[k] == s.sessions[k]
    decreases |cps|
  {
    if |cps| > 0 {
      RequestOthers(RequestOne(s, cid, cps[0]), cid, cps[1..], k);
    }
  }

  /** Every requested position is resident afterwards. */
  lemma RequestResident(s: ServerState, cid: nat, cps: seq<Vec3i>)
    requires WorldValid(s.world)
    ensures forall i :: 0 <= i < |cps| ==> cps[i] in RequestFrom(s, cid, cps).world.chunks
  {
    RequestWorld(s, cid, cps);
    forall i | 0 <= i < |cps|
      ensures cps[i] in RequestFrom(s, cid, cps).world.chunks
    {
      assert cps[i] in cps;
    }
  }

  /** Two queue appends in a row are one append of both. */
  lemma QueueTwice(a: Session, b: Session, c: Session, h: S2C, t: seq<S2C>)
    requires b == a.(pending := a.pending + [h]) && c == b.(pending := b.pending + t)
    ensures c == a.(pending := a.pending + ([h] + t))
  {
    assert a.pending + [h] + t == a.pending + ([h] + t);
  }

  /**
   * A bound requester is sent one `ChunkData` per requested position, in
   * order and with repeats, carrying the chunk resident there afterwards.
   */
  lemma {:induction false} RequestReplies(s: ServerState, cid: nat, cps: seq<Vec3i>)
    requires WorldValid(s.world) && SessionOf(s, cid).Some?
    ensures var r := RequestFrom(s, cid, cps);
      var uid := s.connections[cid];
      && (forall i :: 0 <= i < |cps| ==> cps[i] in r.world.chunks)
      && r.sessions[uid] == s.sessions[uid].(pending := s.sessions[uid].pending + ChunkReplies(cps, r.world.chunks))
    decreases |cps|
  {
    var r := RequestFrom(s, cid, cps);
    RequestResident(s, cid, cps);
    if |cps| > 0 {
      var cp := cps[0];
      var uid := s.connections[cid];
      var s1 := RequestOne(s, cid, cp);
      assert r == RequestFrom(s1, cid, cps[1..]);
      RequestReplies(s1, cid, cps[1..]);
      RequestWorld(s1, cid, cps[1..]);
      var head := ChunkData(cp, r.world.chunks[cp]);
      var tail := ChunkReplies(cps[1..], r.world.chunks);
      assert s1.sessions[uid] == s.sessions[uid].(pending := s.sessions[uid].pending + [head]);
      QueueTwice(s.sessions[uid], s1.sessions[uid], r.sessions[uid], head, tail);
      assert ChunkReplies(cps, r.world.chunks) == [head] + tail;
    }
  }

  // ---------------------------------------------------------------------------
  // Chat
  // ---------------------------------------------------------------------------

  /** `execute_command`: the server afterwards and `Ok(None)` for chat, `Ok(Some(reply))` or `Err(error)`. */
  function ExecuteCommand(s: ServerState, line: string, cid: nat): (r: (ServerState, Result<Option<Text>, string>))
    ensures r.0.connections == s.connections && r.0.world == s.world && r.0.sessions.Keys == s.sessions.Keys
    ensures r.1 == Ok(None) <==> !(|line| > 0 && line[0] == '/')
    ensures r.1 == Ok(None) ==> r.0 == s
  {
    match ParseCommand(line)
    case NotCommand => (s, Ok(None))
    case NoCommand => (s, Err("No command provided"))
    case MissingNickname => (s, Err("No nickname provided"))
    case Unknown => (s, Err("Unknown command"))
    case Nick(n) =>
      match SessionOf(s, cid)
      case None => (s, Err("You must be connected to set a nickname"))
      case Some(uid) =>
        (s.(sessions := s.sessions[uid := s.sessions[uid].(nickname := Some(n))]),
         Ok(Some("Nickname set to '" + n + "'")))
  }

  /**
   * `/nick n` from a connection bound to a session sets that session's
   * nickname to n, changes nothing else, and replies; from anything else it
   * fails and changes nothing.
   */
  lemma NickSpec(s: ServerState, cid: nat, n: string)
    requires Word(n)
    ensures var (r, status) := ExecuteCommand(s, Unwords(["/nick", n]), cid);
      && (SessionOf(s, cid).Some? ==>
            && status == Ok(Some("Nickname set to '" + n + "'"))
            && r == s.(sessions := s.sessions[s.connections[cid] := s.sessions[s.connections[cid]].(nickname := Some(n))]))
      && (SessionOf(s, cid).None? ==> status == Err("You must be connected to set a nickname") && r == s)
  {
    NickCommand([n]);
    assert ["/nick"] + [n] == ["/nick", n];
  }

  const ErrorPrefix: string := "%bC3Error executing command: %bD3"
  const ErrorSuffix: string := "%r"
  const NicknameHint: string := "%bC3Please set a nickname before chatting! To do so, use the command %bD3/nick <nickname>%r."

  /**
   * `SendMessage`: ignored from an unbound connection. A command's error or
   * reply goes to the sender only. Plain chat is broadcast to every session
   * as "nickname: text" when the sender has a nickname; otherwise only the
   * sender gets the hint to set one.
   */
  function HandleSendMessage(s: ServerState, cid: nat, line: string): (r: ServerState)
    ensures r.connections == s.connections && r.world == s.world && r.sessions.Keys == s.sessions.Keys
  {
    if cid !in s.connections then s
    else
      var uid := s.connections[cid];
      var (s1, status) := ExecuteCommand(s, line, cid);
      match status
      case Err(e) =>
        (match SessionOf(s1, cid)
         case Some(u) => s1.(sessions := Push(s1.sessions, u, ChatMessage(ErrorPrefix + e + ErrorSuffix)))
         case None => s1)
      case Ok(Some(reply)) =>
        (match SessionOf(s1, cid)
         case Some(u) => s1.(sessions := Push(s1.sessions, u, ChatMessage(reply)))
         case None => s1)
      case Ok(None) =>
        var nickname := if uid in s1.sessions then s1.sessions[uid].nickname else None;
        match nickname
        case Some(n) => s1.(sessions := Broadcast(s1.sessions, None, ChatMessage(n + ": " + line)))
        case None => s1.(sessions := Push(s1.sessions, uid, ChatMessage(NicknameHint)))
  }

  /** Chat from a session with a nickname reaches every session, prefixed with the nickname. */
  lemma ChatWithNickname(s: ServerState, cid: nat, line: string, n: string)
    requires !(|line| > 0 && line[0] == '/')
    requires SessionOf(s, cid).Some? && s.sessions[s.connections[cid]].nickname == Some(n)
    ensures var r := HandleSendMessage(s, cid, line);
      forall k :: k in s.sessions ==> Queued(s.sessions, r.sessions, k, ChatMessage(n + ": " + line))
  {
    var r := HandleSendMessage(s, cid, line);
    forall k | k in s.sessions
      ensures Queued(s.sessions, r.sessions, k, ChatMessage(n + ": " + line))
    {
      BroadcastSpec(s.sessions, None, ChatMessage(n + ": " + line), k);
    }
  }

  /** Chat from a session without a nickname only sends the sender the hint. */
  lemma ChatWithoutNickname(s: ServerState, cid: nat, line: string)
    requires !(|line| > 0 && line[0] == '/')
    requires SessionOf(s, cid).Some? && s.sessions[s.connections[cid]].nickname == None
    ensures var r := HandleSendMessage(s, cid, line);
      var uid := s.connections[cid];
      && Queued(s.sessions, r.sessions, uid, ChatMessage(NicknameHint))
      && (forall k :: k in s.sessions && k != uid ==> r.sessions[k] == s.sessions[k])
  {
  }

  /** A failing command sends the sender its error and changes nothing else. */
  lemma CommandErrorToSender(s: ServerState, cid: nat, line: string)
    requires SessionOf(s, cid).Some? && ExecuteCommand(s, line, cid).1.Err?
    ensures var r := HandleSendMessage(s, cid, line);
      var uid := s.connections[cid];
      var e := ExecuteCommand(s, line, cid).1.error;
      && r.sessions == Push(s.sessions, uid, ChatMessage(ErrorPrefix + e + ErrorSuffix))
  {
  }

  // ---------------------------------------------------------------------------
  // Dispatch and tick
  // ---------------------------------------------------------------------------

  /** `handle_message`. `Err` is a panic. */
  function HandleMessage(s: ServerState, cid: nat, m: C2S, impulse: Impulse): (r: Result<ServerState, string>)
    requires WorldValid(s.world)
    ensures r.Ok? ==> WorldValid(r.value.world)
    ensures r.Err? ==> m.Disconnect?
  {
    match m
    case Connect => Ok(HandleConnect(s, cid))
    case Disconnect => HandleDisconnect(s, cid)
    case Move(_, _, _, _, _, _) => Ok(HandleMove(s, cid, m, impulse))
    case SetBlockMsg(p, b) => Ok(HandleSetBlock(s, p, b))
    case RequestChunks(cps) => Ok(RequestFrom(s, cid, cps))
    case SendMessage(line) => Ok(HandleSendMessage(s, cid, line))
  }

  /** Session fields other than the queue and the nickname are never changed by these updates. */
  ghost predicate SameUsers(a: map<nat, Session>, b: map<nat, Session>) {
    a.Keys == b.Keys && forall uid :: uid in a ==> b[uid].userId == a[uid].userId
  }

  /** An update that keeps the bindings and the users keeps the server valid. */
  lemma SameUsersValid(s: ServerState, r: ServerState)
    requires ServerValid(s) && WorldValid(r.world)
    requires r.connections == s.connections && SameUsers(s.sessions, r.sessions)
    ensures ServerValid(r)
  {
  }

  lemma ConnectValid(s: ServerState, cid: nat)
    requires ServerValid(s)
    ensures ServerValid(HandleConnect(s, cid))
  {
    var r := HandleConnect(s, cid);
    var uid := NextUserId(s);
    ConnectSpec(s, cid);
    assert forall c :: c in s.connections ==> s.connections[c] != uid;
    forall k | k in r.sessions
      ensures r.sessions[k].userId == k
    {
      if k != uid {
        var m := r.sessions[k].pending[|r.sessions[k].pending| - 1];
        assert Queued(s.sessions, r.sessions, k, m);
      }
    }
  }

  lemma DisconnectValid(s: ServerState, cid: nat)
    requires ServerValid(s)
    ensures HandleDisconnect(s, cid).Ok? && ServerValid(HandleDisconnect(s, cid).value)
  {
    if cid in s.connections {
      var r := HandleDisconnect(s, cid).value;
      var uid := s.connections[cid];
      DisconnectSpec(s, cid);
      forall k | k in r.sessions
        ensures r.sessions[k].userId == k
      {
        assert Queued(s.sessions, r.sessions, k, Disconnected(uid));
      }
      forall c | c in r.connections
        ensures r.connections[c] in r.sessions
      {
        assert c != cid;
      }
    }
  }

  lemma MoveValid(s: ServerState, cid: nat, m: C2S, impulse: Impulse)
    requires ServerValid(s) && m.Move?
    ensures ServerValid(HandleMove(s, cid, m, impulse))
  {
    SameUsersValid(s, HandleMove(s, cid, m, impulse));
  }

  lemma SetBlockValid(s: ServerState, p: Vec3i, b: CoreBlock)
    requires ServerValid(s)
    ensures ServerValid(HandleSetBlock(s, p, b))
  {
    SameUsersValid(s, HandleSetBlock(s, p, b));
  }

  lemma SendMessageValid(s: ServerState, cid: nat, line: string)
    requires ServerValid(s)
    ensures ServerValid(HandleSendMessage(s, cid, line))
  {
    SameUsersValid(s, HandleSendMessage(s, cid, line));
  }

  lemma RequestValid(s: ServerState, cid: nat, cps: seq<Vec3i>)
    requires ServerValid(s)
    ensures ServerValid(RequestFrom(s, cid, cps))
  {
    var r := RequestFrom(s, cid, cps);
    if SessionOf(s, cid).Some? {
      RequestReplies(s, cid, cps);
    }
    forall k | k in s.sessions && SessionOf(s, cid) != Some(k)
      ensures r.sessions[k] == s.sessions[k]
    {
      RequestOthers(s, cid, cps, k);
    }
    SameUsersValid(s, r);
  }

  /**
   * On a valid server no message panics, and every message keeps the server
   * valid: sessions stay under their user ids, bindings point at sessions and
   * no two connections share a user.
   */
  lemma HandleMessageValid(s: ServerState, cid: nat, m: C2S, impulse: Impulse)
    requires ServerValid(s)
    ensures HandleMessage(s, cid, m, impulse).Ok?
    ensures ServerValid(HandleMessage(s, cid, m, impulse).value)
  {
    match m
    case Connect => ConnectValid(s, cid);
    case Disconnect => DisconnectValid(s, cid);
    case Move(_, _, _, _, _, _) => MoveValid(s, cid, m, impulse);
    case SetBlockMsg(p, b) => SetBlockValid(s, p, b);
    case RequestChunks(cps) => RequestValid(s, cid, cps);
    case SendMessage(line) => SendMessageValid(s, cid, line);
  }

  /**
   * `tick`: record the tick rate and tick every entity. A player never
   * requests removal, so every entity survives under its id.
   */
  function Tick(s: ServerState, tps: nat, ids: seq<nat>, step: Player -> Player): (r: ServerState)
    ensures r.sessions == s.sessions && r.connections == s.connections && r.tps == tps
  {
    s.(tps := tps, world := TickAll(s.world, ids, step, _ => false))
  }

  lemma TickKeepsPlayers(s: ServerState, tps: nat, ids: seq<nat>, step: Player -> Player)
    requires Enumerates(ids, s.world.entities)
    ensures var r := Tick(s, tps, ids, step);
      && r.world.entities.Keys == s.world.entities.Keys
      && (forall k :: k in r.world.entities ==> r.world.entities[k] == step(s.world.entities[k]))
  {
    TickSpec(s.world, ids, step, _ => false);
  }
}
