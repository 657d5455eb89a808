/** The anticheat engine's event handlers (plugins/anticheat-1-2-1.js,
    `handle*` methods of AnticheatSystem and the every-tick loop): each
    finds or creates the record an event is about, updates it, and for
    movement-like events runs the checks. */
module Events {
  import opened Common
  import opened AcTypes
  import opened Governor
  import opened Tracker
  import opened Checks
  import opened JsMaps
  import opened Registry

  /** The name an entity event uses: the player list's name, else the one
      remembered from the list, else "Unknown". */
  function ResolveName(reg: Engine, uuid: string, listed: string): (n: string)
    ensures n != ""
    ensures listed != "" ==> n == listed
    ensures listed == "" && uuid in reg.uuidToName && reg.uuidToName[uuid] != "" ==> n == reg.uuidToName[uuid]
    ensures listed == "" && (uuid !in reg.uuidToName || reg.uuidToName[uuid] == "") ==> n == UnknownName
  {
    if listed != "" then listed
    else if uuid in reg.uuidToName && reg.uuidToName[uuid] != "" then reg.uuidToName[uuid]
    else UnknownName
  }

  /** The display name an entity event uses: the remembered one, else `name`. */
  function ResolveDisplayName(reg: Engine, uuid: string, name: string): (n: string)
    ensures uuid in reg.uuidToDisplayName && reg.uuidToDisplayName[uuid] != "" ==> n == reg.uuidToDisplayName[uuid]
    ensures !(uuid in reg.uuidToDisplayName && reg.uuidToDisplayName[uuid] != "") ==> n == name
  {
    if uuid in reg.uuidToDisplayName && reg.uuidToDisplayName[uuid] != "" then reg.uuidToDisplayName[uuid] else name
  }

  /** What an entity event tells `getOrCreatePlayer`. */
  function EntityInfo(reg: Engine, uuid: string, entityId: int, listed: string): (info: PlayerInfo)
    ensures info.uuid == uuid && info.entityId == entityId && info.name != ""
  {
    var name := ResolveName(reg, uuid, listed);
    PlayerInfo(name, uuid, entityId, ResolveDisplayName(reg, uuid, name))
  }

  /** Writes a checked record back under `r`, with the check's notices. */
  function Store(reg: Engine, r: Ref, c: Checked): (h: Handled)
    requires Closed(reg) && r in reg.heap
    ensures Closed(h.reg)
    ensures h.reg.heap == reg.heap[r := c.player] && h.notices == c.notices
    ensures h.reg.(heap := reg.heap) == reg
    ensures Valid(reg) && c.player.id == reg.heap[r].id ==> Valid(h.reg)
  {
    Handled(Put(reg, r, c.player), c.notices)
  }

  /** How every movement-like handler ends: the updated record `p` is
      written under `r` and `runChecks(player)` runs on it. Only `r`
      changes, and in it only what `p` changed plus the detectors' state;
      during the grace period nothing is checked. */
  function Commit(reg: Engine, r: Ref, p: Player, s: Settings, now: int, g: Geometry): (h: Handled)
    requires Closed(reg) && r in reg.heap
    ensures Closed(h.reg)
    ensures h.reg.(heap := reg.heap) == reg
    ensures h.reg.heap.Keys == reg.heap.Keys
    ensures forall q :: q in reg.heap && q != r ==> h.reg.heap[q] == reg.heap[q]
    ensures DetectorsOnly(p, h.reg.heap[r])
    ensures now < reg.gracePeriodEnd ==> h.reg.heap[r] == p && h.notices == []
    ensures Sound(p) ==> Sound(h.reg.heap[r])
    ensures Valid(reg) && p.id == reg.heap[r].id ==> Valid(h.reg)
  {
    var c := RunChecks(p, s, reg.gracePeriodEnd, now, g);
    StoreChecked(reg, r, p, c);
    Store(reg, r, c)
  }

  /** What `Commit` needs of `Store` once the detectors have run. */
  lemma StoreChecked(reg: Engine, r: Ref, p: Player, c: Checked)
    requires Closed(reg) && r in reg.heap && DetectorsOnly(p, c.player)
    ensures var h := Store(reg, r, c);
            && h.reg.heap.Keys == reg.heap.Keys
            && (forall q :: q in reg.heap && q != r ==> h.reg.heap[q] == reg.heap[q])
            && h.reg.heap[r] == c.player
            && (Valid(reg) && p.id == reg.heap[r].id ==> Valid(h.reg))
  {
    assert c.player.id == p.id by { assert c.player.(scratch := p.scratch, book := p.book, motion := p.motion).id == p.id; }
    assert reg.heap[r := c.player].Keys == reg.heap.Keys;
  }

  // ---------------------------------------------------------------------
  // Movement-like events: find or create, update, run the checks

  /** How an `entity_move` event moves the entity. */
  datatype Move =
    | NewPosition(to: Vec3)
    | Delta(d: Vec3, onGround: Option<bool>)
    | Still

  /** The record after a move: a new position counts as landing on the
      ground; a delta is added to the current position and keeps the ground
      state unless the event carries one. */
  function ApplyMove(p: Player, m: Move, yaw: Option<real>, pitch: Option<real>, now: int): (r: Player)
    ensures m.NewPosition? ==> r.motion.position == m.to && r.motion.onGround
    ensures m.Delta? ==>
              var at := p.motion.position;
              && r.motion.position == Vec3(at.x + m.d.x, at.y + m.d.y, at.z + m.d.z)
              && r.motion.onGround == m.onGround.GetOr(p.motion.onGround)
    ensures !m.Still? ==> r.motion.lastPosition == p.motion.position
    ensures m.Still? ==> r == p
    ensures r.id == p.id && r.book == p.book && r.status == p.status && r.effects == p.effects
    ensures Sound(p) ==> Sound(r)
  {
    match m
    case NewPosition(to) => UpdatePosition(p, to, true, yaw, pitch, now)
    case Delta(d, og) =>
      var at := p.motion.position;
      UpdatePosition(p, Vec3(at.x + d.x, at.y + d.y, at.z + d.z), og.GetOr(p.motion.onGround), yaw, pitch, now)
    case Still => p
  }

  /** The record a uuid-carrying entity event is about, found or created,
      changed by `update`, written back and checked. A missing or non-player
      uuid leaves everything as it was. */
  function Touch(reg: Engine, info: PlayerInfo, update: Player -> Player, s: Settings, now: int, g: Geometry): (h: Handled)
    requires Closed(reg)
    ensures Closed(h.reg)
    ensures !IsValidPlayerUuid(info.uuid) ==> h == Handled(reg, [])
    ensures IsValidPlayerUuid(info.uuid) ==>
              var f := GetOrCreatePlayer(reg, info, now);
              var r := f.ref.value;
              && h.reg.(heap := f.reg.heap) == f.reg
              && h.reg.heap.Keys == f.reg.heap.Keys
              && (forall q :: q in f.reg.heap && q != r ==> h.reg.heap[q] == f.reg.heap[q])
              && DetectorsOnly(update(f.reg.heap[r]), h.reg.heap[r])
              && (now < reg.gracePeriodEnd ==> h.reg.heap[r] == update(f.reg.heap[r]) && h.notices == [])
  {
    if info.uuid == "" then Handled(reg, [])
    else
      var f := GetOrCreatePlayer(reg, info, now);
      match f.ref
      case None => Handled(f.reg, [])
      case Some(r) => Commit(f.reg, r, update(f.reg.heap[r]), s, now, g)
  }

  /** `handleEntityMove(event)` for a player entity. */
  function HandleEntityMove(reg: Engine, uuid: string, entityId: int, listed: string, m: Move,
                            yaw: Option<real>, pitch: Option<real>, s: Settings, now: int, g: Geometry): (h: Handled)
    requires Closed(reg)
    ensures Closed(h.reg)
    ensures !IsValidPlayerUuid(uuid) ==> h == Handled(reg, [])
    ensures IsValidPlayerUuid(uuid) ==>
              var f := GetOrCreatePlayer(reg, EntityInfo(reg, uuid, entityId, listed), now);
              var r := f.ref.value;
              var moved := ApplyMove(f.reg.heap[r], m, yaw, pitch, now);
              && h.reg.byUuid == f.reg.byUuid && h.reg.heap.Keys == f.reg.heap.Keys
              && h.reg.heap[r].motion.position == moved.motion.position
              && h.reg.heap[r].motion.onGround == moved.motion.onGround
              && (now < reg.gracePeriodEnd ==> h.reg.heap[r] == moved && h.notices == [])
  {
    Touch(reg, EntityInfo(reg, uuid, entityId, listed), p => ApplyMove(p, m, yaw, pitch, now), s, now, g)
  }

  /** `handlePlayerMove(event)`: the user's own record, created from the
      current player's identity when needed; without a position only the
      checks run. */
  function HandlePlayerMove(reg: Engine, current: Option<PlayerInfo>, position: Option<Vec3>, onGround: bool,
                            yaw: Option<real>, pitch: Option<real>, s: Settings, now: int, g: Geometry): (h: Handled)
    requires Closed(reg)
    ensures Closed(h.reg)
    ensures current.None? ==> h == Handled(reg, [])
    ensures current.Some? && !IsValidPlayerUuid(current.value.uuid) ==> h == Handled(reg, [])
    ensures current.Some? && IsValidPlayerUuid(current.value.uuid) ==>
              var f := GetOrCreatePlayer(reg, current.value, now);
              var r := f.ref.value;
              && h.reg.byUuid == f.reg.byUuid && h.reg.heap.Keys == f.reg.heap.Keys
              && (position.Some? ==>
                    h.reg.heap[r].motion.position == position.value && h.reg.heap[r].motion.onGround == onGround)
              && (position.None? ==> DetectorsOnly(f.reg.heap[r], h.reg.heap[r]))
  {
    match current
    case None => Handled(reg, [])
    case Some(info) =>
      Touch(reg, info, p => if position.Some? then UpdatePosition(p, position.value, onGround, yaw, pitch, now) else p, s, now, g)
  }

  /** `handleEntityAnimation(event)`: animation 0 is a swing. */
  function HandleEntityAnimation(reg: Engine, uuid: string, entityId: int, listed: string, animation: int,
                                 s: Settings, now: int, g: Geometry): (h: Handled)
    requires Closed(reg)
    ensures Closed(h.reg)
    ensures !IsValidPlayerUuid(uuid) ==> h == Handled(reg, [])
    ensures IsValidPlayerUuid(uuid) ==>
              var f := GetOrCreatePlayer(reg, EntityInfo(reg, uuid, entityId, listed), now);
              var r := f.ref.value;
              && h.reg.byUuid == f.reg.byUuid && h.reg.heap.Keys == f.reg.heap.Keys
              && (animation == 0 ==> h.reg.heap[r].status.swingProgress == 6)
              && (animation != 0 ==> DetectorsOnly(f.reg.heap[r], h.reg.heap[r]))
  {
    Touch(reg, EntityInfo(reg, uuid, entityId, listed), p => if animation == 0 then Swing(p) else p, s, now, g)
  }

  /** `handleEntityMetadataFromEvent(event)`: the record under the entity
      id, else one found or created from the uuid; the entries are applied
      when the event has a list of them. */
  function HandleEntityMetadata(reg: Engine, entityId: int, uuid: string, listed: string,
                                metadata: Option<seq<MetaEntry>>, s: Settings, now: int, g: Geometry): (h: Handled)
    requires Closed(reg)
    ensures Closed(h.reg)
    ensures ByEntity(reg, entityId).None? && !IsValidPlayerUuid(uuid) ==> h == Handled(reg, [])
    ensures ByEntity(reg, entityId).Some? ==>
              var r := ByEntity(reg, entityId).value;
              var p := reg.heap[r];
              && h.reg.(heap := reg.heap) == reg && h.reg.heap.Keys == reg.heap.Keys
              && DetectorsOnly(if metadata.Some? then ApplyMetadata(p, metadata.value, now) else p, h.reg.heap[r])
    ensures ByEntity(reg, entityId).None? && IsValidPlayerUuid(uuid) ==>
              var f := GetOrCreatePlayer(reg, EntityInfo(reg, uuid, entityId, listed), now);
              var r := f.ref.value;
              var p := f.reg.heap[r];
              && h.reg.byUuid == f.reg.byUuid && h.reg.heap.Keys == f.reg.heap.Keys
              && DetectorsOnly(if metadata.Some? then ApplyMetadata(p, metadata.value, now) else p, h.reg.heap[r])
  {
    match ByEntity(reg, entityId)
    case Some(r) =>
      var p := reg.heap[r];
      Commit(reg, r, if metadata.Some? then ApplyMetadata(p, metadata.value, now) else p, s, now, g)
    case None =>
      Touch(reg, EntityInfo(reg, uuid, entityId, listed),
            p => if metadata.Some? then ApplyMetadata(p, metadata.value, now) else p, s, now, g)
  }

  // ---------------------------------------------------------------------
  // Events that only update a record

  /** `handleEntityEquipmentFromEvent(event)`: slot 0 is the held item. */
  function HandleEntityEquipment(reg: Engine, entityId: int, isPlayer: bool, slot: int, item: Option<int>): (res: Engine)
    requires Closed(reg)
    ensures Closed(res)
    ensures !isPlayer || ByEntity(reg, entityId).None? ==> res == reg
    ensures isPlayer && ByEntity(reg, entityId).Some? ==>
              var r := ByEntity(reg, entityId).value;
              && res.(heap := reg.heap) == reg
              && res.heap == reg.heap[r := Equip(reg.heap[r], slot, item)]
  {
    if !isPlayer then reg
    else match ByEntity(reg, entityId)
      case None => reg
      case Some(r) => Put(reg, r, Equip(reg.heap[r], slot, item))
  }

  /** `handleEntityStatusFromEvent(event)`: status 2 is a hit. */
  function HandleEntityStatus(reg: Engine, entityId: int, status: int, now: int): (res: Engine)
    requires Closed(reg)
    ensures Closed(res)
    ensures status != 2 || ByEntity(reg, entityId).None? ==> res == reg
    ensures status == 2 && ByEntity(reg, entityId).Some? ==>
              var r := ByEntity(reg, entityId).value;
              && res.(heap := reg.heap) == reg
              && res.heap == reg.heap[r := Hurt(reg.heap[r], now)]
  {
    match ByEntity(reg, entityId)
    case None => reg
    case Some(r) => if status == 2 then Put(reg, r, Hurt(reg.heap[r], now)) else reg
  }

  /** `handleEntityVelocity(event)`. */
  function HandleEntityVelocity(reg: Engine, entityId: int, velocityY: real, now: int): (res: Engine)
    requires Closed(reg)
    ensures Closed(res)
    ensures ByEntity(reg, entityId).None? ==> res == reg
    ensures ByEntity(reg, entityId).Some? ==>
              var r := ByEntity(reg, entityId).value;
              && res.(heap := reg.heap) == reg
              && res.heap == reg.heap[r := VelocityPacket(reg.heap[r], velocityY, now)]
  {
    match ByEntity(reg, entityId)
    case None => reg
    case Some(r) => Put(reg, r, VelocityPacket(reg.heap[r], velocityY, now))
  }

  /** `handleEntityEffect(event)` and `handleRemoveEntityEffect(event)`. */
  function HandleEntityEffect(reg: Engine, entityId: int, isPlayer: bool, added: bool, effectId: int, amplifier: int): (res: Engine)
    requires Closed(reg)
    ensures Closed(res)
    ensures !isPlayer || ByEntity(reg, entityId).None? ==> res == reg
    ensures isPlayer && ByEntity(reg, entityId).Some? ==>
              var r := ByEntity(reg, entityId).value;
              var e := reg.heap[r].effects;
              && res.(heap := reg.heap) == reg
              && res.heap == reg.heap[r := reg.heap[r].(effects := if added then AddEffect(e, effectId, amplifier) else RemoveEffect(e, effectId))]
  {
    if !isPlayer then reg
    else match ByEntity(reg, entityId)
      case None => reg
      case Some(r) =>
        var e := reg.heap[r].effects;
        Put(reg, r, reg.heap[r].(effects := if added then AddEffect(e, effectId, amplifier) else RemoveEffect(e, effectId)))
  }

  /** `handleUpdateHealth(event)`: the user's own record takes the hunger value. */
  function HandleUpdateHealth(reg: Engine, currentUuid: Option<string>, hunger: Option<int>): (res: Engine)
    requires Closed(reg)
    ensures Closed(res)
    ensures currentUuid.None? || currentUuid.value !in reg.byUuid ==> res == reg
    ensures currentUuid.Some? && currentUuid.value in reg.byUuid ==>
              var r := reg.byUuid[currentUuid.value];
              && res.(heap := reg.heap) == reg
              && res.heap == reg.heap[r := SetHunger(reg.heap[r], hunger)]
  {
    match currentUuid
    case None => reg
    case Some(u) =>
      if u in reg.byUuid then Put(reg, reg.byUuid[u], SetHunger(reg.heap[reg.byUuid[u]], hunger)) else reg
  }

  /** `handleBlockPlace(event)`: a block placed by the user counts one
      ScaffoldA violation against the user's own record, alerting as any
      check does. The record's swing flag is never set anywhere, so every
      place counts; the grace period is not consulted. */
  function HandleBlockPlace(reg: Engine, currentUuid: Option<string>, s: Settings, now: int): (h: Handled)
    requires Closed(reg)
    ensures Closed(h.reg)
    ensures currentUuid.None? || currentUuid.value !in reg.byUuid || !Enabled(s, ScaffoldA) ==> h == Handled(reg, [])
    ensures currentUuid.Some? && currentUuid.value in reg.byUuid && Enabled(s, ScaffoldA) ==>
              var r := reg.byUuid[currentUuid.value];
              var p := reg.heap[r];
              && h.reg.(heap := reg.heap) == reg
              && h.reg.heap == reg.heap[r := h.reg.heap[r]]
              && h.reg.heap[r].(book := p.book) == p
              && h.reg.heap[r].book.violations == AddViolation(p.book, ScaffoldA, 1).violations
              && (NonNegative(p.book) ==> NonNegative(h.reg.heap[r].book))
  {
    match currentUuid
    case None => Handled(reg, [])
    case Some(u) =>
      if u !in reg.byUuid || !Enabled(s, ScaffoldA) then Handled(reg, [])
      else
        var p := reg.heap[reg.byUuid[u]];
        var o := Violate(p.book, ScaffoldA, 1, s.checks[ScaffoldA], s, now);
        Handled(Put(reg, reg.byUuid[u], p.(book := o.book)), o.notices)
  }

  /** `handlePlayerTeleport(event)`. */
  function HandlePlayerTeleport(reg: Engine, uuid: string, now: int): (res: Engine)
    requires Closed(reg)
    ensures Closed(res)
    ensures uuid == "" || uuid !in reg.byUuid ==> res == reg
    ensures uuid != "" && uuid in reg.byUuid ==>
              var r := reg.byUuid[uuid];
              && res.(heap := reg.heap) == reg
              && res.heap == reg.heap[r := Teleport(reg.heap[r], now)]
  {
    if uuid != "" && uuid in reg.byUuid then Put(reg, reg.byUuid[uuid], Teleport(reg.heap[reg.byUuid[uuid]], now))
    else reg
  }

  // ---------------------------------------------------------------------
  // Player list and spawns

  /** One entry of a `player_info` event. */
  datatype ListUpdate = ListUpdate(name: string, uuid: string, ping: Option<int>, gamemode: Option<int>)

  /** The GameModeA part of a list update: a change away from a known game
      mode is a violation when the check is enabled. */
  predicate GameModeChanged(p: Player, gamemode: Option<int>) {
    gamemode.Some? && p.status.gameMode != -1 && p.status.gameMode != gamemode.value
  }

  /** One entry of `handlePlayerListUpdate(event)`. */
  function ListUpdateOne(reg: Engine, u: ListUpdate, s: Settings, now: int): (h: Handled)
    requires Closed(reg)
    ensures Closed(h.reg)
    ensures u.name == "" || u.uuid == "" ==> h == Handled(reg, [])
    ensures u.name != "" && u.uuid != "" ==> h.reg.uuidToName == reg.uuidToName[u.uuid := u.name]
    ensures u.name != "" && u.uuid != "" && u.uuid !in reg.byUuid ==>
              h == Handled(reg.(uuidToName := reg.uuidToName[u.uuid := u.name]), [])
    ensures u.name != "" && u.uuid != "" && u.uuid in reg.byUuid ==>
              var r := reg.byUuid[u.uuid];
              var p := reg.heap[r];
              && h.reg.heap.Keys == reg.heap.Keys
              && (u.ping.Some? ==> h.reg.heap[r].status.latency == u.ping.value)
              && (u.gamemode.Some? ==> h.reg.heap[r].status.gameMode == u.gamemode.value)
              && (u.gamemode.None? ==> h.reg.heap[r].status.gameMode == p.status.gameMode)
              && (GameModeChanged(p, u.gamemode) && Enabled(s, GameModeA) ==>
                    h.reg.heap[r].book.violations == AddViolation(p.book, GameModeA, 1).violations)
              && (!(GameModeChanged(p, u.gamemode) && Enabled(s, GameModeA)) ==>
                    h.reg.heap[r].book == p.book && h.notices == [])
    ensures h.reg.byUuid == reg.byUuid && h.reg.entityToPlayer == reg.entityToPlayer
    ensures h.reg.heap.Keys == reg.heap.Keys
    ensures forall q :: q in reg.heap && (u.uuid !in reg.byUuid || q != reg.byUuid[u.uuid]) ==> h.reg.heap[q] == reg.heap[q]
    ensures h.reg.(heap := reg.heap, uuidToName := reg.uuidToName) == reg
    // no record changes identity or detector scratch state, and books stay non-negative
    ensures forall q :: q in reg.heap ==> h.reg.heap[q].id == reg.heap[q].id && h.reg.heap[q].scratch == reg.heap[q].scratch
    ensures forall q :: q in reg.heap && NonNegative(reg.heap[q].book) ==> NonNegative(h.reg.heap[q].book)
  {
    if u.name == "" || u.uuid == "" then Handled(reg, [])
    else
      var reg1 := reg.(uuidToName := reg.uuidToName[u.uuid := u.name]);
      if u.uuid !in reg.byUuid then Handled(reg1, [])
      else
        var r := reg.byUuid[u.uuid];
        var p := reg.heap[r];
        var p1 := if u.ping.Some? then p.(status := p.status.(latency := u.ping.value)) else p;
        var o :=
          if GameModeChanged(p, u.gamemode) && Enabled(s, GameModeA) then Violate(p1.book, GameModeA, 1, s.checks[GameModeA], s, now)
          else Outcome(p1.book, []);
        var p2 := p1.(book := o.book);
        var p3 := if u.gamemode.Some? then p2.(status := p2.status.(gameMode := u.gamemode.value)) else p2;
        Handled(Put(reg1, r, p3), o.notices)
  }

  /** `handlePlayerListUpdate(event)`: the entries in order. */
  function HandlePlayerListUpdate(reg: Engine, updates: seq<ListUpdate>, s: Settings, now: int): (h: Handled)
    requires Closed(reg)
    ensures Closed(h.reg)
    ensures h.reg.(heap := reg.heap, uuidToName := reg.uuidToName) == reg
    ensures h.reg.heap.Keys == reg.heap.Keys
    ensures forall q :: q in reg.heap ==> h.reg.heap[q].id == reg.heap[q].id && h.reg.heap[q].scratch == reg.heap[q].scratch
    ensures forall q :: q in reg.heap && NonNegative(reg.heap[q].book) ==> NonNegative(h.reg.heap[q].book)
    decreases |updates|
  {
    if updates == [] then Handled(reg, [])
    else
      var first := ListUpdateOne(reg, updates[0], s, now);
      var rest := HandlePlayerListUpdate(first.reg, updates[1..], s, now);
      Handled(rest.reg, first.notices + rest.notices)
  }

  /** The first report of a player's game mode only records it: GameModeA
      needs a known previous mode to compare with. */
  lemma FirstGameModeIsNotAViolation(reg: Engine, u: ListUpdate, s: Settings, now: int)
    requires Closed(reg) && u.name != "" && u.uuid != "" && u.uuid in reg.byUuid
    requires reg.heap[reg.byUuid[u.uuid]].status.gameMode == -1
    ensures var h := ListUpdateOne(reg, u, s, now);
      h.notices == [] && h.reg.heap[reg.byUuid[u.uuid]].book == reg.heap[reg.byUuid[u.uuid]].book
  {
  }

  /** `handlePlayerSpawn(event)`: a new record, even for a uuid already
      tracked, entered under its name, uuid and entity id. */
  function HandlePlayerSpawn(reg: Engine, uuid: string, entityId: int, at: Vec3, yaw: real, pitch: real, now: int): (res: Engine)
    requires Closed(reg)
    ensures Closed(res)
    ensures !IsValidPlayerUuid(uuid) ==> res == reg
    ensures IsValidPlayerUuid(uuid) ==>
              var r := reg.nextRef;
              var name := ResolveName(reg, uuid, "");
              && res.heap.Keys == reg.heap.Keys + {r} && res.nextRef == r + 1
              && res.byUuid == reg.byUuid[uuid := r]
              && res.players == reg.players[name := r]
              && res.entityToPlayer == Set(reg.entityToPlayer, entityId, r)
              && res.heap[r].id == Identity(name, uuid, entityId, ResolveDisplayName(reg, uuid, name))
              && res.heap[r].motion.position == at && !res.heap[r].motion.onGround
              && res.heap[r].motion.yaw == yaw && res.heap[r].motion.pitch == pitch
              && res.heap[r].book == FreshBook()
              && forall q :: q in reg.heap ==> res.heap[q] == reg.heap[q]
  {
    if !IsValidPlayerUuid(uuid) then reg
    else
      var name := ResolveName(reg, uuid, "");
      var made := NewPlayer(name, uuid, entityId, now);
      var p := made.(id := made.id.(displayName := ResolveDisplayName(reg, uuid, name)));
      var p1 := UpdatePosition(p, at, false, None, None, now);
      var p2 := p1.(motion := p1.motion.(yaw := yaw, pitch := pitch));
      var r := reg.nextRef;
      reg.(
        heap := reg.heap[r := p2], nextRef := r + 1,
        players := reg.players[name := r],
        byUuid := reg.byUuid[uuid := r],
        entityToPlayer := Set(reg.entityToPlayer, entityId, r))
  }

  /** `handlePlayerJoin(event)`. */
  function HandlePlayerJoin(reg: Engine, info: PlayerInfo, now: int): (res: Engine)
    requires Closed(reg)
    ensures Closed(res)
    ensures res == GetOrCreatePlayer(reg, info, now).reg
    ensures IsValidPlayerUuid(info.uuid) ==> info.uuid in res.byUuid
  {
    GetOrCreatePlayer(reg, info, now).reg
  }

  /** `handlePlayerLeave(event)`. */
  function HandlePlayerLeave(reg: Engine, uuid: string): (res: Engine)
    requires Closed(reg)
    ensures Closed(res)
    ensures uuid != "" ==> uuid !in res.byUuid
    ensures uuid == "" ==> res == reg
  {
    if uuid != "" then RemovePlayerByUuid(reg, uuid) else reg
  }
}
