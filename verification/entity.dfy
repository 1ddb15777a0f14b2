/**
 * The entities of the split revision (src/game/entity.rs): the text form of
 * an `EntityId`, the player's input handling and hotbar index, the
 * cooldown-gated place and break actions, and the billboard's life and
 * knockback.
 *
 * The movement physics of `Player::update` (acceleration, gravity, step-up)
 * and the billboard's force magnitude are floating-point camera and
 * physics maths and stay outside the model; the ray the player aims with
 * arrives as the `cast_ray` result it produced.
 */
module Entities {
  import opened Wrappers
  import opened Coords
  import opened Assets
  import opened Blocks
  import opened Generation
  import opened GameWorld
  import opened WorldQueries
  import opened Decimal

  // ---------------------------------------------------------------------------
  // EntityId: Display and FromStr
  // ---------------------------------------------------------------------------

  /** `split_once`: the text before and after the first occurrence of `sep`. */
  function SplitOnce(s: string, sep: char): (r: Option<(string, string)>)
    ensures r.None? <==> sep !in s
    ensures r.Some? ==> s == r.value.0 + [sep] + r.value.1 && sep !in r.value.0
  {
    if |s| == 0 then None
    else if s[0] == sep then Some(([], s[1..]))
    else match SplitOnce(s[1..], sep)
      case None => None
      case Some((a, b)) =>
        assert s == [s[0]] + s[1..];
        Some(([s[0]] + a, b))
  }

  /** The split point is the first separator: any split whose left part has none is the one found. */
  lemma {:induction false} SplitOnceUnique(a: string, sep: char, b: string)
    requires sep !in a
    ensures SplitOnce(a + [sep] + b, sep) == Some((a, b))
  {
    var s := a + [sep] + b;
    if |a| > 0 {
      assert s[1..] == a[1..] + [sep] + b;
      SplitOnceUnique(a[1..], sep, b);
      assert [s[0]] + a[1..] == a;
    } else {
      assert s[1..] == b;
    }
  }

  /** `Display for EntityId`: "{id}-{name}". */
  function Display(e: EntityId): string {
    NatToDec(e.id) + "-" + e.name
  }

  const NoSeparator: string := "EntityId: parsing error"

  /**
   * `FromStr for EntityId`: split at the first '-', parse the left part as a
   * `u32`, and keep the whole right part as the name; either failure is an
   * error string prefixed "EntityId: ".
   */
  function FromStr(s: string): (r: Result<EntityId, string>)
    ensures r.Err? ==> "EntityId: " <= r.error
  {
    match SplitOnce(s, '-')
    case None => Err(NoSeparator)
    case Some((digits, name)) =>
      match ParseU32(digits)
      case Err(k) => Err("EntityId: " + ErrorText(k))
      case Ok(id) => Ok(EntityId(id, name))
  }

  /** Printing an id and parsing it back gives the same id, even when the name contains '-'. */
  lemma EntityIdRoundTrip(e: EntityId)
    requires e.id <= U32Max
    ensures FromStr(Display(e)) == Ok(e)
  {
    var digits := NatToDec(e.id);
    assert '-' !in digits;
    assert Display(e) == digits + ['-'] + e.name;
    SplitOnceUnique(digits, '-', e.name);
    ParseNatToDec(e.id);
  }

  /**
   * Parsing succeeds exactly on text made of an optional '+', the decimal
   * digits of a `u32`, a '-' and the name; a string without '-' is the
   * parsing error.
   */
  lemma FromStrSpec(s: string, e: EntityId)
    ensures FromStr(s) == Ok(e) <==> exists a :: s == a + "-" + e.name && '-' !in a && ParsesTo(a, e.id)
    ensures FromStr(s) == Err(NoSeparator) <==> '-' !in s
  {
    if exists a :: s == a + "-" + e.name && '-' !in a && ParsesTo(a, e.id) {
      var a :| s == a + "-" + e.name && '-' !in a && ParsesTo(a, e.id);
      SplitOnceUnique(a, '-', e.name);
      ParseU32Spec(a);
    }
    if FromStr(s) == Ok(e) {
      var a := SplitOnce(s, '-').value.0;
      ParseU32Spec(a);
      assert s == a + "-" + e.name && '-' !in a && ParsesTo(a, e.id);
    }
  }

  /** `a` is an optional '+' and the digits of `id`, which fits a `u32`. */
  predicate ParsesTo(a: string, id: nat) {
    |Body(a)| > 0 && AllDigits(Body(a)) && DecValue(Body(a)) == id && id <= U32Max
  }

  // ---------------------------------------------------------------------------
  // The hotbar index
  // ---------------------------------------------------------------------------

  /** `PLACABLE_BLOCKS`, in hotbar order. */
  const PlacableBlocks: seq<Block> := [
    Grass, Dirt, Planks, PlanksSlabTop, PlanksSlabBottom, PlanksStairsN, PlanksStairsS, PlanksStairsE,
    PlanksStairsW, OakLog, Leaves, CobbleStone, StoneSlabTop, StoneSlabBottom, StoneStairsN, StoneStairsS,
    StoneStairsE, StoneStairsW, Glass, Brick, Snow, Glungus]

  const PlacableCount: nat := 22

  /** Air and Bedrock can never be placed. */
  lemma PlacableBlocksShape()
    ensures |PlacableBlocks| == PlacableCount
    ensures Air !in PlacableBlocks && Bedrock !in PlacableBlocks
  {
  }

  /** `(current + len - 1) % len`: one slot left, wrapping from the first to the last. */
  function HotbarLeft(i: nat): (j: nat)
    requires i < PlacableCount
    ensures j < PlacableCount
    ensures i > 0 ==> j == i - 1
    ensures i == 0 ==> j == PlacableCount - 1
  {
    (i + PlacableCount - 1) % PlacableCount
  }

  /** `(current + 1) % len`: one slot right, wrapping from the last to the first. */
  function HotbarRight(i: nat): (j: nat)
    requires i < PlacableCount
    ensures j < PlacableCount
    ensures i < PlacableCount - 1 ==> j == i + 1
    ensures i == PlacableCount - 1 ==> j == 0
  {
    (i + 1) % PlacableCount
  }

  /** Left and right undo each other. */
  lemma HotbarInverse(i: nat)
    requires i < PlacableCount
    ensures HotbarRight(HotbarLeft(i)) == i && HotbarLeft(HotbarRight(i)) == i
  {
  }

  // ---------------------------------------------------------------------------
  // Input events
  // ---------------------------------------------------------------------------

  datatype Keycode = LeftKey | RightKey | T | Slash | Return | Escape | LShift | RShift | OtherKey(code: int)

  datatype MouseButton = LeftButton | MiddleButton | RightButton | OtherButton(code: int)

  /** The SDL events the player reacts to; a key event may carry no keycode. */
  datatype Event =
    | KeyDown(keycode: Option<Keycode>)
    | KeyUp(keycode: Option<Keycode>)
    | MouseButtonDown(button: MouseButton)
    | MouseButtonUp(button: MouseButton)
    | MouseWheel(y: int)
    | OtherEvent

  /** The part of the player the event loop touches. */
  datatype Controls = Controls(keysDown: set<Keycode>, mouseDown: set<MouseButton>, current: nat, chatOpen: bool)

  /** One event of the loop in `Player::update`. */
  function HandleEvent(c: Controls, e: Event): (r: Controls)
    requires c.current < PlacableCount
    ensures r.current < PlacableCount
  {
    match e
    case KeyDown(Some(LeftKey)) => c.(current := HotbarLeft(c.current))
    case KeyDown(Some(RightKey)) => c.(current := HotbarRight(c.current))
    case KeyDown(Some(k)) =>
      if k == T || k == Slash then c.(chatOpen := true)
      else if k == Return || k == Escape then c.(chatOpen := false)
      else c.(keysDown := c.keysDown + {k})
    case KeyUp(Some(k)) => c.(keysDown := c.keysDown - {k})
    case MouseButtonDown(b) => c.(mouseDown := c.mouseDown + {b})
    case MouseButtonUp(b) => c.(mouseDown := c.mouseDown - {b})
    case MouseWheel(y) =>
      if y > 0 then c.(current := HotbarLeft(c.current))
      else if y < 0 then c.(current := HotbarRight(c.current))
      else c
    case _ => c
  }

  /** The events of one frame, in order. */
  function HandleEvents(c: Controls, es: seq<Event>): (r: Controls)
    requires c.current < PlacableCount
    ensures r.current < PlacableCount
  {
    if |es| == 0 then c else HandleEvent(HandleEvents(c, es[..|es| - 1]), es[|es| - 1])
  }

  /** How far an event moves the hotbar: -1 left, +1 right, 0 otherwise. */
  function Shift(e: Event): int {
    match e
    case KeyDown(Some(LeftKey)) => -1
    case KeyDown(Some(RightKey)) => 1
    case MouseWheel(y) => if y > 0 then -1 else if y < 0 then 1 else 0
    case _ => 0
  }

  function TotalShift(es: seq<Event>): int {
    if |es| == 0 then 0 else TotalShift(es[..|es| - 1]) + Shift(es[|es| - 1])
  }

  /** One event moves the hotbar by its shift, modulo 22. */
  lemma HandleEventShift(c: Controls, e: Event)
    requires c.current < PlacableCount
    ensures HandleEvent(c, e).current == (c.current + Shift(e)) % PlacableCount
  {
  }

  lemma ModAdd(a: int, s: int)
    ensures (a % PlacableCount + s) % PlacableCount == (a + s) % PlacableCount
  {
    var q := a / PlacableCount;
    assert a == q * PlacableCount + a % PlacableCount;
    assert a + s == (a % PlacableCount + s) + q * PlacableCount;
  }

  /** After a frame the hotbar sits at the start index moved by the net shift, modulo 22. */
  lemma {:induction false} HotbarNetShift(c: Controls, es: seq<Event>)
    requires c.current < PlacableCount
    ensures HandleEvents(c, es).current == (c.current + TotalShift(es)) % PlacableCount
  {
    if |es| > 0 {
      var init := es[..|es| - 1];
      var e := es[|es| - 1];
      HotbarNetShift(c, init);
      HandleEventShift(HandleEvents(c, init), e);
      ModAdd(c.current + TotalShift(init), Shift(e));
    }
  }

  /** A state bit the events can set or clear: the chat flag, a held key or a held button. */
  datatype Observer = Chat | Held(key: Keycode) | Pressed(button: MouseButton)

  function Observe(c: Controls, o: Observer): bool {
    match o
    case Chat => c.chatOpen
    case Held(k) => k in c.keysDown
    case Pressed(b) => b in c.mouseDown
  }

  /** The keys that steer the hotbar or the chat and are never recorded as held. */
  predicate Special(k: Keycode) {
    k == LeftKey || k == RightKey || k == T || k == Slash || k == Return || k == Escape
  }

  /** What an event does to an observed bit: set it, clear it, or leave it (None). */
  function Change(e: Event, o: Observer): Option<bool> {
    match o
    case Chat =>
      if e.KeyDown? && (e.keycode == Some(T) || e.keycode == Some(Slash)) then Some(true)
      else if e.KeyDown? && (e.keycode == Some(Return) || e.keycode == Some(Escape)) then Some(false)
      else None
    case Held(k) =>
      if e == KeyDown(Some(k)) && !Special(k) then Some(true)
      else if e == KeyUp(Some(k)) then Some(false)
      else None
    case Pressed(b) =>
      if e == MouseButtonDown(b) then Some(true)
      else if e == MouseButtonUp(b) then Some(false)
      else None
  }

  lemma HandleEventObserve(c: Controls, e: Event, o: Observer)
    requires c.current < PlacableCount
    ensures Observe(HandleEvent(c, e), o) == Change(e, o).UnwrapOr(Observe(c, o))
  {
  }

  /** The last event that changes a bit decides it; with none, it keeps its value. */
  lemma {:induction false} LastChangeWins(c: Controls, es: seq<Event>, o: Observer, i: int)
    requires c.current < PlacableCount
    requires -1 <= i < |es|
    requires i >= 0 ==> Change(es[i], o).Some?
    requires forall j :: i < j < |es| ==> Change(es[j], o).None?
    ensures Observe(HandleEvents(c, es), o) == if i >= 0 then Change(es[i], o).value else Observe(c, o)
  {
    if |es| > 0 {
      var init := es[..|es| - 1];
      HandleEventObserve(HandleEvents(c, init), es[|es| - 1], o);
      if i < |es| - 1 {
        forall j | i < j < |init|
          ensures Change(init[j], o).None?
        {
          assert init[j] == es[j];
        }
        if i >= 0 {
          assert init[i] == es[i];
        }
        LastChangeWins(c, init, o, i);
      }
    }
  }

  /** The hotbar and chat keys are never recorded as held. */
  lemma {:induction false} SpecialNeverHeld(c: Controls, es: seq<Event>)
    requires c.current < PlacableCount
    requires forall k :: k in c.keysDown ==> !Special(k)
    ensures forall k :: k in HandleEvents(c, es).keysDown ==> !Special(k)
  {
    if |es| > 0 {
      SpecialNeverHeld(c, es[..|es| - 1]);
    }
  }

  /** `sneaking`: either shift key is held. */
  predicate Sneaking(c: Controls) {
    LShift in c.keysDown || RShift in c.keysDown
  }

  // ---------------------------------------------------------------------------
  // Placing and breaking
  // ---------------------------------------------------------------------------

  /** Frames between two place or break actions. */
  const ActionCooldown: nat := 12

  /** The player box `player_collision_mask` is asked about after placing: narrower than the player's 0.6. */
  const PlaceWidth: real := 0.5
  const PlaceHeight: real := 1.8

  /** The state `Player::update` carries from frame to frame, less the physics. */
  datatype Player = Player(position: Vec3r, oldPosition: Vec3r, controls: Controls, cooldown: nat)

  /** `break_place_cooldown -= 1` when positive. */
  function CoolDown(n: nat): (m: nat)
    ensures n > 0 ==> m + 1 == n
    ensures n == 0 ==> m == 0
  {
    if n > 0 then n - 1 else 0
  }

  /** The cell a placed block goes into: the one across the face the ray hit. */
  function PlaceTarget(hit: RayHit): Vec3i {
    hit.blockPos.Add(hit.faceNormal)
  }

  /**
   * Place `b` next to the hit face, then test the player box where it stands
   * (old and new position are equal at that point) and put Air back if any
   * axis collides.
   */
  function Place(w: World, gen: Generator, defs: map<string, ModelDef>, pos: Vec3r, hit: RayHit, b: Block): (r: World)
    requires WorldValid(w) && GeneratorValid(gen) && HasShapeModels(defs)
    ensures WorldValid(r)
  {
    var target := PlaceTarget(hit);
    var w1 := SetBlockGen(w, target, b, gen);
    var (w2, m) := PlayerCollisionMask(w1, gen, defs, pos, pos, PlaceWidth, PlaceHeight);
    if m.x || m.y || m.z then SetBlockGen(w2, target, Air, gen) else w2
  }

  /**
   * The placed block stays exactly when the player box at its position does
   * not collide with the world as it reads with that block in place;
   * otherwise the cell is Air.
   */
  lemma PlaceSpec(w: World, gen: Generator, defs: map<string, ModelDef>, pos: Vec3r, hit: RayHit, b: Block)
    requires WorldValid(w) && GeneratorValid(gen) && HasShapeModels(defs)
    ensures var placed := SetBlockGen(w, PlaceTarget(hit), b, gen);
      BlockAt(Place(w, gen, defs, pos, hit, b), PlaceTarget(hit))
        == Some(if CollidesAt(placed, gen, defs, Probe(pos, PlaceWidth, PlaceHeight)) then Air else b)
  {
    var target := PlaceTarget(hit);
    var w1 := SetBlockGen(w, target, b, gen);
    SetBlockSpec(w, target, b, gen);
    PlayerCollisionMaskSpec(w1, gen, defs, pos, pos, PlaceWidth, PlaceHeight);
    var (w2, m) := PlayerCollisionMask(w1, gen, defs, pos, pos, PlaceWidth, PlaceHeight);
    var rs := Resolved(pos, pos, m);
    assert Vec3r(pos.x, pos.y, pos.z) == pos;
    assert Vec3r(rs.x, pos.y, pos.z) == pos;
    assert Vec3r(rs.x, rs.y, pos.z) == pos;
    if m.x || m.y || m.z {
      SetBlockSpec(w2, target, Air, gen);
    } else {
      var (cp, l) := ChunkAndLocal(target);
      assert w2.chunks[cp] == w1.chunks[cp];
    }
  }

  /** The place action fires: right button held, cooldown run out, a block aimed at. */
  predicate PlaceFires(p: Player, selected: Option<RayHit>) {
    RightButton in p.controls.mouseDown && CoolDown(p.cooldown) == 0 && selected.Some?
  }

  /**
   * The place and break part of `Player::update`: count the cooldown down,
   * place with the right button, then break with the left button unless
   * placing just reset the cooldown; Bedrock is never broken.
   */
  function Interact(w: World, gen: Generator, defs: map<string, ModelDef>, ids: IdRolls, fuel: nat,
                    p: Player, selected: Option<RayHit>): (r: (World, Player))
    requires WorldValid(w) && GeneratorValid(gen) && HasShapeModels(defs) && p.controls.current < PlacableCount
    ensures WorldValid(r.0)
    ensures r.1.position == p.position && r.1.oldPosition == p.position && r.1.controls == p.controls
    ensures r.1.cooldown == ActionCooldown || r.1.cooldown == CoolDown(p.cooldown)
    ensures r.1.cooldown != CoolDown(p.cooldown) ==> p.cooldown <= 1 && selected.Some?
  {
    var p0 := p.(oldPosition := p.position, cooldown := CoolDown(p.cooldown));
    var (w1, p1) :=
      if PlaceFires(p, selected) then
        (Place(w, gen, defs, p.position, selected.value, PlacableBlocks[p.controls.current]), p0.(cooldown := ActionCooldown))
      else (w, p0);
    if LeftButton in p.controls.mouseDown && p1.cooldown == 0 && selected.Some? then
      var (w2, b) := GetBlockGen(w1, selected.value.blockPos, gen);
      if b != Bedrock then (BreakBlock(w2, selected.value.blockPos, gen, ids, fuel), p1.(cooldown := ActionCooldown))
      else (w2, p1)
    else (w1, p1)
  }

  /** While the cooldown is above one, no action fires and the world is untouched. */
  lemma CoolingDownIsIdle(w: World, gen: Generator, defs: map<string, ModelDef>, ids: IdRolls, fuel: nat,
                          p: Player, selected: Option<RayHit>)
    requires WorldValid(w) && GeneratorValid(gen) && HasShapeModels(defs) && p.controls.current < PlacableCount
    requires p.cooldown > 1
    ensures var r := Interact(w, gen, defs, ids, fuel, p, selected);
      r.0 == w && r.1.cooldown + 1 == p.cooldown
  {
  }

  /**
   * When placing fires, the hotbar's block goes next to the hit face, stays
   * unless the player box then collides, breaking is skipped, and the
   * cooldown restarts.
   */
  lemma InteractPlaces(w: World, gen: Generator, defs: map<string, ModelDef>, ids: IdRolls, fuel: nat,
                       p: Player, selected: Option<RayHit>)
    requires WorldValid(w) && GeneratorValid(gen) && HasShapeModels(defs) && p.controls.current < PlacableCount
    requires PlaceFires(p, selected)
    ensures var b := PlacableBlocks[p.controls.current];
      var target := PlaceTarget(selected.value);
      var placed := SetBlockGen(w, target, b, gen);
      var r := Interact(w, gen, defs, ids, fuel, p, selected);
      && r.1.cooldown == ActionCooldown
      && BlockAt(r.0, target) == Some(if CollidesAt(placed, gen, defs, Probe(p.position, PlaceWidth, PlaceHeight)) then Air else b)
  {
    PlaceSpec(w, gen, defs, p.position, selected.value, PlacableBlocks[p.controls.current]);
  }

  /**
   * Aiming at Bedrock with only the left button, nothing is broken: the
   * world only gains generated chunks and the cooldown is not restarted.
   */
  lemma BedrockNeverBroken(w: World, gen: Generator, defs: map<string, ModelDef>, ids: IdRolls, fuel: nat,
                           p: Player, hit: RayHit)
    requires WorldValid(w) && GeneratorValid(gen) && HasShapeModels(defs) && p.controls.current < PlacableCount
    requires !PlaceFires(p, Some(hit)) && View(w, gen, hit.blockPos) == Bedrock
    ensures var r := Interact(w, gen, defs, ids, fuel, p, Some(hit));
      Grown(w, r.0, gen) && r.1.cooldown == CoolDown(p.cooldown)
  {
    GetBlockGenView(w, hit.blockPos, gen);
    GrownRefl(w, gen);
  }

  /**
   * With only the left button and the cooldown run out, a loaded block that
   * is neither Air nor Bedrock is broken to Air and the cooldown restarts.
   */
  lemma InteractBreaks(w: World, gen: Generator, defs: map<string, ModelDef>, ids: IdRolls, fuel: nat,
                       p: Player, hit: RayHit)
    requires WorldValid(w) && GeneratorValid(gen) && HasShapeModels(defs) && p.controls.current < PlacableCount
    requires LeftButton in p.controls.mouseDown && RightButton !in p.controls.mouseDown && p.cooldown <= 1
    requires BlockAt(w, hit.blockPos).Some? && BlockAt(w, hit.blockPos) != Some(Air) && BlockAt(w, hit.blockPos) != Some(Bedrock)
    ensures var r := Interact(w, gen, defs, ids, fuel, p, Some(hit));
      BlockAt(r.0, hit.blockPos) == Some(Air) && r.1.cooldown == ActionCooldown
  {
    BreakClears(w, hit.blockPos, gen, ids, fuel);
  }

  // ---------------------------------------------------------------------------
  // Billboards
  // ---------------------------------------------------------------------------

  /** Frames over which a billboard shrinks to nothing. */
  const ShrinkFrames: real := 30.0

  datatype Billboard = Billboard(position: Vec3r, size: real, life: nat, startSize: real)

  /** `Billboard::new`: the starting size is remembered. */
  function NewBillboard(position: Vec3r, size: real, life: nat): (b: Billboard)
    ensures b.size == b.startSize == size && b.life == life
  {
    Billboard(position, size, life, size)
  }

  /** `requests_removal`. */
  predicate BillboardDone(b: Billboard) {
    b.life == 0
  }

  /** The world's view of a billboard agrees on when it asks to be removed. */
  lemma BillboardRemovalAgrees(b: Billboard)
    ensures RequestsRemoval(BillboardEntity(b.position, b.life)) <==> BillboardDone(b)
  {
  }

  /**
   * The life and size half of `Billboard::update`: life counts down to 0 and
   * stops there; while life is left the size is the starting size scaled by
   * life/30, and the last size is kept once life reaches 0.
   */
  function TickBillboard(b: Billboard): (r: Billboard)
    ensures r.position == b.position && r.startSize == b.startSize
    ensures r.life == CoolDown(b.life)
    ensures r.life > 0 ==> r.size == b.startSize * (r.life as real / ShrinkFrames)
    ensures r.life == 0 ==> r.size == b.size
  {
    var life := CoolDown(b.life);
    if life > 0 then b.(life := life, size := b.startSize * (life as real / ShrinkFrames))
    else b.(life := life)
  }

  function TickBillboardN(b: Billboard, n: nat): Billboard {
    if n == 0 then b else TickBillboard(TickBillboardN(b, n - 1))
  }

  /** After n updates the life is down by n, saturating at 0. */
  lemma {:induction false} BillboardLife(b: Billboard, n: nat)
    ensures TickBillboardN(b, n).life == if n >= b.life then 0 else b.life - n
  {
    if n > 0 {
      BillboardLife(b, n - 1);
    }
  }

  /** A billboard asks to be removed after exactly as many updates as its life. */
  lemma BillboardRemovedAfterLife(b: Billboard, n: nat)
    ensures BillboardDone(TickBillboardN(b, n)) <==> n >= b.life
  {
    BillboardLife(b, n);
  }

  // ---------------------------------------------------------------------------
  // Knockback
  // ---------------------------------------------------------------------------

  /** The name every billboard reports; knockback skips entities of the same name. */
  const BillboardName: string := "Billboard"

  /** The knockback radius. */
  const EffectRadius: real := 3.0

  /** An entity as the knockback loop sees it: its type name, position and velocity. */
  datatype Mover = Mover(kind: string, position: Vec3r, velocity: Vec3r)

  function Sub(a: Vec3r, b: Vec3r): Vec3r {
    Vec3r(a.x - b.x, a.y - b.y, a.z - b.z)
  }

  function AddV(a: Vec3r, b: Vec3r): Vec3r {
    Vec3r(a.x + b.x, a.y + b.y, a.z + b.z)
  }

  function LengthSquaredR(v: Vec3r): real {
    v.x * v.x + v.y * v.y + v.z * v.z
  }

  /** Another entity of another type, strictly inside the radius and not at the centre. */
  predicate Pushed(self: EntityId, center: Vec3r, id: EntityId, mover: Mover) {
    var d := LengthSquaredR(Sub(mover.position, center));
    id != self && mover.kind != BillboardName && 0.0 < d < EffectRadius * EffectRadius
  }

  /** `apply_velocity`: a billboard ignores it, everything else adds the force. */
  function ApplyVelocity(mover: Mover, force: Vec3r): Mover {
    if mover.kind == BillboardName then mover else mover.(velocity := AddV(mover.velocity, force))
  }

  /**
   * The knockback loop of `Billboard::update`. `push` gives the force for
   * the offset from the billboard to the entity (its direction, strength and
   * multiplier are the floating-point part left abstract).
   */
  function Knockback(bodies: map<EntityId, Mover>, self: EntityId, center: Vec3r, push: Vec3r -> Vec3r)
    : (r: map<EntityId, Mover>)
    ensures r.Keys == bodies.Keys
  {
    map id | id in bodies ::
      if Pushed(self, center, id, bodies[id]) then ApplyVelocity(bodies[id], push(Sub(bodies[id].position, center)))
      else bodies[id]
  }

  /**
   * Knockback never moves an entity, leaves the billboard itself, every
   * other billboard and everything at the centre or outside the radius
   * as they were, and adds the force to every other entity.
   */
  lemma KnockbackSpec(bodies: map<EntityId, Mover>, self: EntityId, center: Vec3r, push: Vec3r -> Vec3r, id: EntityId)
    requires id in bodies
    ensures var r := Knockback(bodies, self, center, push);
      && r[id].position == bodies[id].position && r[id].kind == bodies[id].kind
      && (id == self || bodies[id].kind == BillboardName ==> r[id] == bodies[id])
      && (r[id] != bodies[id] ==> 0.0 < LengthSquaredR(Sub(bodies[id].position, center)) < 9.0)
      && (Pushed(self, center, id, bodies[id]) ==>
            r[id].velocity == AddV(bodies[id].velocity, push(Sub(bodies[id].position, center))))
  {
  }
}
