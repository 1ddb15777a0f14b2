/**
 * The client of the client/server revision (mp3d-client/src/client/mod.rs):
 * a local connection that talks to an in-process server as connection 0,
 * the key-to-move encoding of `send_input`, and `recieve_state`, which
 * unloads far chunks and then applies every queued server message in order.
 */
module Client {
  import opened Wrappers
  import opened Coords
  import opened PlayerPayload
  import S = Server
  import CoreWorld
  import CW = ClientWorld

  // ---------------------------------------------------------------------------
  // LocalConnection
  // ---------------------------------------------------------------------------

  /** The connection id a local connection uses for everything. */
  const LocalId: nat := 0

  /** `LocalConnection::send`: the server handles the message as connection 0; `Err` is a panic. */
  function Send(s: S.ServerState, m: S.C2S, impulse: S.Impulse): (r: Result<S.ServerState, string>)
    requires CoreWorld.WorldValid(s.world)
    ensures r.Ok? ==> CoreWorld.WorldValid(r.value.world)
    ensures r.Err? ==> m.Disconnect?
  {
    S.HandleMessage(s, LocalId, m, impulse)
  }

  /** Several sends in order, stopping at the first panic. */
  function SendAll(s: S.ServerState, ms: seq<S.C2S>, impulse: S.Impulse): (r: Result<S.ServerState, string>)
    requires CoreWorld.WorldValid(s.world)
    ensures r.Ok? ==> CoreWorld.WorldValid(r.value.world)
    ensures (forall j :: 0 <= j < |ms| ==> !ms[j].Disconnect?) ==> r.Ok?
    decreases |ms|
  {
    if |ms| == 0 then Ok(s)
    else
      match Send(s, ms[0], impulse)
      case Err(e) => Err(e)
      case Ok(s1) => SendAll(s1, ms[1..], impulse)
  }

  /**
   * `LocalConnection::receive`: take the whole queue of the session that
   * connection 0 is bound to, leaving it empty; nothing when unbound.
   */
  function Receive(s: S.ServerState): (r: (S.ServerState, seq<S.S2C>))
    ensures r.0.connections == s.connections && r.0.world == s.world && r.0.sessions.Keys == s.sessions.Keys
  {
    match S.SessionOf(s, LocalId)
    case None => (s, [])
    case Some(uid) =>
      var sn := s.sessions[uid];
      (s.(sessions := s.sessions[uid := sn.(pending := [])]), sn.pending)
  }

  /**
   * Receiving hands over exactly the bound session's queue and empties it,
   * leaving every other session as it was; an unbound connection receives
   * nothing and changes nothing.
   */
  lemma ReceiveSpec(s: S.ServerState, other: nat)
    ensures S.SessionOf(s, LocalId).None? ==> Receive(s) == (s, [])
    ensures S.SessionOf(s, LocalId).Some? ==>
      var uid := s.connections[LocalId];
      && Receive(s).1 == s.sessions[uid].pending
      && Receive(s).0.sessions[uid] == s.sessions[uid].(pending := [])
      && (other in s.sessions && other != uid ==> Receive(s).0.sessions[other] == s.sessions[other])
  {
  }

  /** A second receive right after the first gets nothing: the queue was drained. */
  lemma ReceiveDrains(s: S.ServerState)
    ensures Receive(Receive(s).0).1 == []
  {
  }

  /** Draining a queue keeps the server's bookkeeping valid. */
  lemma ReceiveKeepsValid(s: S.ServerState)
    requires S.ServerValid(s)
    ensures S.ServerValid(Receive(s).0)
  {
  }

  // ---------------------------------------------------------------------------
  // Keys and moves
  // ---------------------------------------------------------------------------

  /** The keys `send_input` looks at; any other key is `OtherKey`. */
  datatype Key = W | S | A | D | LCtrl | Space | LShift | OtherKey(code: nat)

  /** `forward`: W wins over S, and W with left control sprints. */
  function Forward(down: set<Key>): (f: int)
    ensures -1 <= f <= 2
    ensures f == 2 <==> W in down && LCtrl in down
    ensures f == 1 <==> W in down && LCtrl !in down
    ensures f == -1 <==> W !in down && S in down
    ensures f == 0 <==> W !in down && S !in down
  {
    if W in down then (if LCtrl in down then 2 else 1)
    else if S in down then -1
    else 0
  }

  /** `strafe` in this revision: A is +1, D without A is -1. */
  function Strafe(down: set<Key>): (s: int)
    ensures -1 <= s <= 1
    ensures s == 1 <==> A in down
    ensures s == -1 <==> A !in down && D in down
    ensures s == 0 <==> A !in down && D !in down
  {
    if A in down then 1 else if D in down then -1 else 0
  }

  /** S only counts while W is up; D only while A is up. */
  lemma KeyPrecedence(down: set<Key>)
    ensures W in down ==> Forward(down + {S}) == Forward(down - {S})
    ensures A in down ==> Strafe(down + {D}) == Strafe(down - {D})
  {
  }

  /** The server's clamps to [-1, 2] and [-1, 1] never change what a client encodes. */
  lemma EncodingSurvivesClamp(down: set<Key>)
    ensures S.Clamp(Forward(down), -1, 2) == Forward(down)
    ensures S.Clamp(Strafe(down), -1, 1) == Strafe(down)
  {
  }

  /** `MoveInstructions`. */
  datatype Inputs = Inputs(forward: int, strafe: int, jump: bool, sneak: bool, yaw: F32, pitch: F32)

  function MoveOf(i: Inputs): (m: S.C2S)
    ensures m.Move?
  {
    S.Move(i.forward, i.strafe, i.jump, i.sneak, i.yaw, i.pitch)
  }

  /** `ClientPlayer`; the field of view is a constant and is left out. */
  datatype ClientPlayer = ClientPlayer(position: F3, velocity: F3, yaw: F32, pitch: F32, input: Inputs)

  /** `Client`. */
  datatype ClientState = ClientState(server: S.ServerState, player: ClientPlayer, userId: Option<nat>, world: CW.World)

  /**
   * `Client::new`: send `Connect` and start with a player at the origin, no
   * user id and an empty world. `defaults` is `MoveInstructions::default()`.
   */
  function NewClient(s: S.ServerState, defaults: Inputs): (c: ClientState)
    requires CoreWorld.WorldValid(s.world)
    ensures c.userId == None && c.player.position == Zero3 && c.world == CW.NewWorld()
    ensures c.server == S.HandleConnect(s, LocalId)
  {
    var r := S.HandleConnect(s, LocalId);
    ClientState(r, ClientPlayer(Zero3, Zero3, Zero, Zero, defaults), None, CW.NewWorld())
  }

  /** The first thing a new client receives is its own `Connected`, with the least free user id. */
  lemma NewClientReceivesConnected(s: S.ServerState, defaults: Inputs)
    requires CoreWorld.WorldValid(s.world)
    ensures Receive(NewClient(s, defaults).server).1 == [S.Connected(S.NextUserId(s))]
  {
    S.ConnectSpec(s, LocalId);
  }

  /**
   * The look and movement state `send_input` builds from the keys held down
   * and the new yaw and pitch (mouse turning is float arithmetic, so the
   * resulting angles are inputs).
   */
  function Steer(p: ClientPlayer, down: set<Key>, look: (F32, F32)): ClientPlayer {
    p.(yaw := look.0, pitch := look.1,
       input := Inputs(Forward(down), Strafe(down), Space in down, LShift in down, look.0, look.1))
  }

  /** `optimistic`: the locally predicted position and velocity, float physics left abstract. */
  type Optimistic = ClientPlayer -> (F3, F3)

  /** `as_ivec3`: the block a float position lies in; a float cast, so a parameter. */
  type Cell = F3 -> Vec3i

  /**
   * The player after `send_input` and the two messages it sends: the move,
   * then a request for every missing chunk around the predicted position.
   */
  function InputMessages(c: ClientState, down: set<Key>, look: (F32, F32), optimistic: Optimistic, cell: Cell)
    : (r: (ClientPlayer, seq<S.C2S>))
  {
    var steered := Steer(c.player, down, look);
    var (pos, vel) := optimistic(steered);
    var p := steered.(position := pos, velocity := vel);
    (p, [MoveOf(p.input), S.RequestChunks(CW.NeedsChunks(c.world, cell(p.position)))])
  }

  /** `send_input`. */
  function SendInput(c: ClientState, down: set<Key>, look: (F32, F32), optimistic: Optimistic, cell: Cell,
                     impulse: S.Impulse): (r: ClientState)
    requires CoreWorld.WorldValid(c.server.world)
    ensures CoreWorld.WorldValid(r.server.world)
    ensures r.world == c.world && r.userId == c.userId
  {
    var (p, ms) := InputMessages(c, down, look, optimistic, cell);
    var sent := SendAll(c.server, ms, impulse);
    c.(server := sent.value, player := p)
  }

  /**
   * `send_input` sends the key encoding with the new look, then asks for
   * exactly the chunks within render distance of the predicted position that
   * are not resident, each once.
   */
  lemma SendInputSpec(c: ClientState, down: set<Key>, look: (F32, F32), optimistic: Optimistic, cell: Cell,
                      k: Vec3i)
    ensures var (p, ms) := InputMessages(c, down, look, optimistic, cell);
      && |ms| == 2
      && ms[0] == S.Move(Forward(down), Strafe(down), Space in down, LShift in down, look.0, look.1)
      && p.yaw == look.0 && p.pitch == look.1
      && ms[1].RequestChunks?
      && (k in ms[1].chunkPositions <==> CW.Needed(ChunkOf(cell(p.position)), c.world.chunks, k))
      && CW.Distinct(ms[1].chunkPositions)
  {
    var (p, ms) := InputMessages(c, down, look, optimistic, cell);
    CW.NeedsChunksSpec(c.world, cell(p.position), k);
  }

  // ---------------------------------------------------------------------------
  // recieve_state
  // ---------------------------------------------------------------------------

  /**
   * How an own `PlayerMoved` moves the player: jump to the server's position
   * when it is far (squared distance over 9), otherwise ease 15% of the way.
   * Both are float computations.
   */
  datatype Smoothing = Smoothing(far: (F3, F3) -> bool, ease: (F3, F3) -> F3)

  function Follow(sm: Smoothing, current: F3, target: F3): F3 {
    if sm.far(current, target) then target else sm.ease(current, target)
  }

  /** One message of `recieve_state`. */
  function Apply(c: ClientState, m: S.S2C, sm: Smoothing): (r: ClientState)
    ensures r.server == c.server && r.world.pending == c.world.pending
    ensures r.userId == if m.Connected? then Some(m.userId) else c.userId
    ensures m.PlayerMoved? && Some(m.userId) != c.userId ==> r == c
    ensures !m.PlayerMoved? ==> r.player == c.player
    ensures !m.ChunkData? ==> r.world == c.world
    ensures m.ChunkData? ==> r.world.chunks == c.world.chunks[m.chunkPosition := CW.NewClientChunk(m.chunk)]
  {
    match m
    case Connected(uid) => c.(userId := Some(uid))
    case PlayerMoved(uid, pos, yaw, pitch) =>
      if Some(uid) != c.userId then c
      else c.(player := c.player.(position := Follow(sm, c.player.position, pos), yaw := yaw, pitch := pitch))
    case ChunkData(cp, chunk) => c.(world := c.world.(chunks := c.world.chunks[cp := CW.NewClientChunk(chunk)]))
    case _ => c
  }

  function ApplyAll(c: ClientState, ms: seq<S.S2C>, sm: Smoothing): (r: ClientState)
    ensures r.server == c.server && r.world.pending == c.world.pending
    decreases |ms|
  {
    if |ms| == 0 then c else ApplyAll(Apply(c, ms[0], sm), ms[1..], sm)
  }

  /** Whether ms[j..] holds a `Connected`. */
  predicate ConnectedFrom(ms: seq<S.S2C>, j: nat) {
    exists i :: j <= i < |ms| && ms[i].Connected?
  }

  predicate Delivers(k: Vec3i, m: S.S2C) {
    m.ChunkData? && m.chunkPosition == k
  }

  /** Whether ms[j..] delivers chunk k. */
  predicate DeliveredFrom(ms: seq<S.S2C>, j: nat, k: Vec3i) {
    exists i :: j <= i < |ms| && Delivers(k, ms[i])
  }

  /**
   * The user id ends as the one in the last `Connected` of the batch, or as
   * it was when the batch holds none.
   */
  lemma {:induction false} ApplyAllUserId(c: ClientState, ms: seq<S.S2C>, sm: Smoothing)
    ensures !ConnectedFrom(ms, 0) ==> ApplyAll(c, ms, sm).userId == c.userId
    ensures forall j :: 0 <= j < |ms| && ms[j].Connected? && !ConnectedFrom(ms, j + 1) ==>
      ApplyAll(c, ms, sm).userId == Some(ms[j].userId)
    decreases |ms|
  {
    if |ms| > 0 {
      var c1 := Apply(c, ms[0], sm);
      ApplyAllUserId(c1, ms[1..], sm);
      if !ConnectedFrom(ms, 0) {
        assert !ConnectedFrom(ms[1..], 0) by {
          forall i | 0 <= i < |ms[1..]| ensures !ms[1..][i].Connected? {
            assert ms[1..][i] == ms[i + 1];
          }
        }
      }
      forall j | 0 <= j < |ms| && ms[j].Connected? && !ConnectedFrom(ms, j + 1)
        ensures ApplyAll(c, ms, sm).userId == Some(ms[j].userId)
      {
        if j == 0 {
          assert !ConnectedFrom(ms[1..], 0) by {
            forall i | 0 <= i < |ms[1..]| ensures !ms[1..][i].Connected? {
              assert ms[1..][i] == ms[i + 1];
            }
          }
        } else {
          assert ms[1..][j - 1] == ms[j];
          assert !ConnectedFrom(ms[1..], j) by {
            forall i | j <= i < |ms[1..]| ensures !ms[1..][i].Connected? {
              assert ms[1..][i] == ms[i + 1];
            }
          }
        }
      }
    }
  }

  /**
   * A chunk delivered in the batch ends resident as the last delivered
   * copy, freshly dirty; a chunk not delivered keeps its residency and its
   * state.
   */
  lemma {:induction false} ApplyAllChunks(c: ClientState, ms: seq<S.S2C>, sm: Smoothing, k: Vec3i)
    ensures !DeliveredFrom(ms, 0, k) ==>
      var r := ApplyAll(c, ms, sm);
      (k in r.world.chunks <==> k in c.world.chunks) && (k in c.world.chunks ==> r.world.chunks[k] == c.world.chunks[k])
    ensures forall j :: 0 <= j < |ms| && Delivers(k, ms[j]) && !DeliveredFrom(ms, j + 1, k) ==>
      var r := ApplyAll(c, ms, sm);
      k in r.world.chunks && r.world.chunks[k] == CW.NewClientChunk(ms[j].chunk)
    decreases |ms|
  {
    if |ms| > 0 {
      var c1 := Apply(c, ms[0], sm);
      ApplyAllChunks(c1, ms[1..], sm, k);
      if !DeliveredFrom(ms, 0, k) {
        assert !DeliveredFrom(ms[1..], 0, k) by {
          forall i | 0 <= i < |ms[1..]| ensures !Delivers(k, ms[1..][i]) {
            assert ms[1..][i] == ms[i + 1];
          }
        }
        assert !Delivers(k, ms[0]);
      }
      forall j | 0 <= j < |ms| && Delivers(k, ms[j]) && !DeliveredFrom(ms, j + 1, k)
        ensures var r := ApplyAll(c, ms, sm); k in r.world.chunks && r.world.chunks[k] == CW.NewClientChunk(ms[j].chunk)
      {
        if j == 0 {
          assert !DeliveredFrom(ms[1..], 0, k) by {
            forall i | 0 <= i < |ms[1..]| ensures !Delivers(k, ms[1..][i]) {
              assert ms[1..][i] == ms[i + 1];
            }
          }
        } else {
          assert ms[1..][j - 1] == ms[j];
          assert !DeliveredFrom(ms[1..], j, k) by {
            forall i | j <= i < |ms[1..]| ensures !Delivers(k, ms[1..][i]) {
              assert ms[1..][i] == ms[i + 1];
            }
          }
        }
      }
    }
  }

  /** Moves of other users never touch the player while the user id stays put. */
  lemma {:induction false} ForeignMovesIgnored(c: ClientState, ms: seq<S.S2C>, sm: Smoothing)
    requires forall j :: 0 <= j < |ms| ==> !ms[j].Connected?
    requires forall j :: 0 <= j < |ms| && ms[j].PlayerMoved? ==> Some(ms[j].userId) != c.userId
    ensures ApplyAll(c, ms, sm).player == c.player
    decreases |ms|
  {
    if |ms| > 0 {
      var c1 := Apply(c, ms[0], sm);
      forall j | 0 <= j < |ms[1..]| ensures !ms[1..][j].Connected? && (ms[1..][j].PlayerMoved? ==> Some(ms[1..][j].userId) != c1.userId) {
        assert ms[1..][j] == ms[j + 1];
      }
      ForeignMovesIgnored(c1, ms[1..], sm);
    }
  }

  /**
   * `recieve_state`: unload the chunks beyond render distance of the
   * player's block (`ks` is the chunk map's iteration order), then apply
   * every received message in order.
   */
  function ReceiveState(c: ClientState, ks: seq<Vec3i>, cell: Cell, sm: Smoothing): (r: ClientState)
    requires forall k :: k in ks <==> k in c.world.chunks
  {
    var w := CW.UnloadChunks(c.world, cell(c.player.position), ks).0;
    var (s, ms) := Receive(c.server);
    ApplyAll(c.(server := s, world := w), ms, sm)
  }

  /**
   * Unloading comes first, so after `recieve_state` every resident chunk was
   * either delivered in this batch (however far away) or was resident and
   * within render distance before; a delivered chunk is always resident and
   * dirty.
   */
  lemma ReceiveStateChunks(c: ClientState, ks: seq<Vec3i>, cell: Cell, sm: Smoothing, k: Vec3i)
    requires forall k :: k in ks <==> k in c.world.chunks
    ensures var ms := Receive(c.server).1;
      var r := ReceiveState(c, ks, cell, sm);
      && (k in r.world.chunks ==>
            DeliveredFrom(ms, 0, k)
            || (k in c.world.chunks
                && CW.DistSq(k, ChunkOf(cell(c.player.position))) <= CW.RenderDistance * CW.RenderDistance))
      && (DeliveredFrom(ms, 0, k) ==> k in r.world.chunks && r.world.chunks[k].dirty)
  {
    var (s, ms) := Receive(c.server);
    var w := CW.UnloadChunks(c.world, cell(c.player.position), ks).0;
    var c0 := c.(server := s, world := w);
    CW.UnloadSpec(c.world, cell(c.player.position), ks, k);
    ApplyAllChunks(c0, ms, sm, k);
    if DeliveredFrom(ms, 0, k) {
      var j := LastWith(ms, k);
    }
  }

  /** The last delivery of k in a batch that has one. */
  lemma LastWith(ms: seq<S.S2C>, k: Vec3i) returns (j: nat)
    requires DeliveredFrom(ms, 0, k)
    ensures j < |ms| && Delivers(k, ms[j]) && !DeliveredFrom(ms, j + 1, k)
  {
    var i := |ms| - 1;
    while !Delivers(k, ms[i])
      invariant 0 <= i < |ms| && DeliveredFrom(ms, 0, k)
      invariant forall t :: i < t < |ms| ==> !Delivers(k, ms[t])
      decreases i
    {
      i := i - 1;
    }
    j := i;
  }

  /** A new client learns its user id from its first `recieve_state`. */
  lemma NewClientLearnsUserId(s: S.ServerState, defaults: Inputs, cell: Cell, sm: Smoothing)
    requires CoreWorld.WorldValid(s.world)
    ensures ReceiveState(NewClient(s, defaults), [], cell, sm).userId == Some(S.NextUserId(s))
  {
    var c := NewClient(s, defaults);
    NewClientReceivesConnected(s, defaults);
    var ms := Receive(c.server).1;
    var c0 := c.(server := Receive(c.server).0, world := CW.UnloadChunks(c.world, cell(c.player.position), []).0);
    ApplyAllUserId(c0, ms, sm);
    assert ms[0].Connected?;
  }
}

/**
 * The older client (mp3d-client/src/client.rs): the same connection and
 * forward encoding, the opposite strafe sign, no chunk handling, and own
 * moves taken verbatim.
 */
module LegacyClient {
  import opened Wrappers
  import opened PlayerPayload
  import S = Server
  import CoreWorld
  import C = Client

  /** `strafe` in this revision: A is -1, D without A is +1. */
  function Strafe(down: set<C.Key>): (s: int)
    ensures -1 <= s <= 1
    ensures s == -1 <==> C.A in down
    ensures s == 1 <==> C.A !in down && C.D in down
  {
    if C.A in down then -1 else if C.D in down then 1 else 0
  }

  /** The two revisions strafe in opposite directions for the same keys. */
  lemma StrafeRevisionsDisagree(down: set<C.Key>)
    ensures Strafe(down) == -C.Strafe(down)
  {
  }

  /** The older `ClientPlayer`: no velocity. */
  datatype Player = Player(position: F3, yaw: F32, pitch: F32, input: C.Inputs)

  datatype ClientState = ClientState(server: S.ServerState, player: Player, userId: Option<nat>)

  /**
   * `send_input`: the look turns, only `forward` and `strafe` of the stored
   * inputs are rewritten, and the stored inputs are sent as they stand.
   */
  function SendInput(c: ClientState, down: set<C.Key>, look: (F32, F32), impulse: S.Impulse): (r: Result<ClientState, string>)
    requires CoreWorld.WorldValid(c.server.world)
    ensures r.Ok?
    ensures r.value.player.yaw == look.0 && r.value.player.pitch == look.1
    ensures r.value.player.input == c.player.input.(forward := C.Forward(down), strafe := Strafe(down))
  {
    var input := c.player.input.(forward := C.Forward(down), strafe := Strafe(down));
    match C.Send(c.server, C.MoveOf(input), impulse)
    case Ok(s) => Ok(c.(server := s, player := c.player.(yaw := look.0, pitch := look.1, input := input)))
    case Err(e) => Err(e)
  }

  /**
   * The move this revision sends never carries the new look: its yaw and
   * pitch are those already stored in the inputs, which nothing here updates.
   */
  lemma SentLookIsStale(c: ClientState, down: set<C.Key>, look: (F32, F32), impulse: S.Impulse)
    requires CoreWorld.WorldValid(c.server.world)
    ensures var r := SendInput(c, down, look, impulse).value;
      r.player.input.yaw == c.player.input.yaw && r.player.input.pitch == c.player.input.pitch
      && r.player.input.jump == c.player.input.jump
  {
  }

  function Apply(c: ClientState, m: S.S2C): (r: ClientState)
    ensures r.server == c.server
    ensures r.userId == if m.Connected? then Some(m.userId) else c.userId
    ensures m.PlayerMoved? && Some(m.userId) == c.userId ==>
      r.player == c.player.(position := m.position, yaw := m.yaw, pitch := m.pitch)
    ensures !(m.PlayerMoved? && Some(m.userId) == c.userId) ==> r.player == c.player
  {
    match m
    case Connected(uid) => c.(userId := Some(uid))
    case PlayerMoved(uid, pos, yaw, pitch) =>
      if Some(uid) != c.userId then c
      else c.(player := c.player.(position := pos, yaw := yaw, pitch := pitch))
    case _ => c
  }

  function ApplyAll(c: ClientState, ms: seq<S.S2C>): (r: ClientState)
    ensures r.server == c.server
    decreases |ms|
  {
    if |ms| == 0 then c else ApplyAll(Apply(c, ms[0]), ms[1..])
  }

  /** `recieve_state`: apply every received message in order. */
  function ReceiveState(c: ClientState): (r: ClientState) {
    var (s, ms) := C.Receive(c.server);
    ApplyAll(c.(server := s), ms)
  }

  predicate OwnMove(u: Option<nat>, m: S.S2C) {
    m.PlayerMoved? && Some(m.userId) == u
  }

  /**
   * With the user id fixed, the player ends exactly where the last own
   * `PlayerMoved` of the batch puts it, and stays put without one.
   */
  lemma {:induction false} LastOwnMoveWins(c: ClientState, ms: seq<S.S2C>)
    requires forall i :: 0 <= i < |ms| ==> !ms[i].Connected?
    ensures (forall i :: 0 <= i < |ms| ==> !OwnMove(c.userId, ms[i])) ==> ApplyAll(c, ms).player == c.player
    ensures forall j :: 0 <= j < |ms| && OwnMove(c.userId, ms[j]) && (forall i :: j < i < |ms| ==> !OwnMove(c.userId, ms[i])) ==>
      ApplyAll(c, ms).player == c.player.(position := ms[j].position, yaw := ms[j].yaw, pitch := ms[j].pitch)
    decreases |ms|
  {
    if |ms| > 0 {
      var c1 := Apply(c, ms[0]);
      var t := ms[1..];
      assert c1.userId == c.userId;
      assert ApplyAll(c, ms) == ApplyAll(c1, t);
      assert forall i :: 0 <= i < |t| ==> t[i] == ms[i + 1];
      LastOwnMoveWins(c1, t);
      forall j | 0 <= j < |ms| && OwnMove(c.userId, ms[j]) && (forall i :: j < i < |ms| ==> !OwnMove(c.userId, ms[i]))
        ensures ApplyAll(c, ms).player == c.player.(position := ms[j].position, yaw := ms[j].yaw, pitch := ms[j].pitch)
      {
        if j > 0 {
          assert t[j - 1] == ms[j];
          assert forall i :: j - 1 < i < |t| ==> !OwnMove(c1.userId, t[i]);
        } else {
          assert forall i :: 0 <= i < |t| ==> !OwnMove(c1.userId, t[i]);
        }
      }
    }
  }
}
