/** The anticheat engine as a whole: the events it subscribes to
    (plugins/anticheat-1-2-1.js, the `api.on(...)` registrations) dispatched
    to their handlers, and the invariant every event keeps. */
module Session {
  import opened Common
  import opened AcTypes
  import opened Governor
  import opened Tracker
  import opened Checks
  import opened JsMaps
  import opened Registry
  import opened Events

  /** The invariant: the tables agree with the records and every record's
      detector state is in range. */
  ghost predicate Good(reg: Engine) {
    Valid(reg) && forall r :: r in reg.heap ==> Sound(reg.heap[r])
  }

  /** One event the engine subscribes to, with what its handler reads. */
  datatype Event =
    | EntityMoved(uuid: string, entityId: int, listed: string, move: Move, yaw: Option<real>, pitch: Option<real>)
    | PlayerMoved(current: Option<PlayerInfo>, position: Option<Vec3>, onGround: bool, yaw: Option<real>, pitch: Option<real>)
    | Animated(uuid: string, entityId: int, listed: string, animation: int)
    | MetadataChanged(entityId: int, uuid: string, listed: string, metadata: Option<seq<MetaEntry>>)
    | Equipped(entityId: int, isPlayer: bool, slot: int, item: Option<int>)
    | StatusChanged(entityId: int, status: int)
    | Pushed(entityId: int, velocityY: real)
    | EffectChanged(entityId: int, isPlayer: bool, added: bool, effectId: int, amplifier: int)
    | HealthUpdated(currentUuid: Option<string>, hunger: Option<int>)
    | Teleported(uuid: string)
    | PlayerListed(updates: seq<ListUpdate>)
    | Spawned(uuid: string, entityId: int, at: Vec3, spawnYaw: real, spawnPitch: real)
    | Joined(info: PlayerInfo)
    | Left(uuid: string)
    | Destroyed(ids: seq<int>)
    | TickElapsed
    | Respawned
    | ViolationsFlushed
    | BlockPlaced(currentUuid: Option<string>)
    | PluginRestored(pluginName: string)

  /** An event with the clock reading and the geometry oracle's answers
      at the time it arrives. */
  datatype Stamped = Stamped(event: Event, now: int, g: Geometry)

  /** The events whose handlers can raise notices: the movement-like
      ones run the checks, the player list runs the game-mode check and a
      block place runs ScaffoldA. */
  predicate Checked(e: Event) {
    e.EntityMoved? || e.PlayerMoved? || e.Animated? || e.MetadataChanged? || e.PlayerListed? || e.BlockPlaced?
  }

  /** The subscription table: which handler each event reaches. */
  function Apply(reg: Engine, e: Event, s: Settings, now: int, g: Geometry): (h: Handled)
    requires Closed(reg)
    ensures Closed(h.reg)
    ensures !Checked(e) ==> h.notices == []
    // the grace period silences the checks but not the game-mode check or ScaffoldA
    ensures now < reg.gracePeriodEnd && !e.PlayerListed? && !e.BlockPlaced? ==> h.notices == []
    ensures !Resets(e) ==> h.reg.gracePeriodEnd == reg.gracePeriodEnd
    ensures Resets(e) ==> h.reg.byUuid == map[] && h.reg.gracePeriodEnd == now + DefaultGracePeriod
  {
    if Checked(e) then ApplyChecked(reg, e, s, now, g) else Handled(ApplyQuiet(reg, e, now), [])
  }

  /** The handlers that can raise notices. */
  function ApplyChecked(reg: Engine, e: Event, s: Settings, now: int, g: Geometry): (h: Handled)
    requires Closed(reg) && Checked(e)
    ensures Closed(h.reg)
    ensures now < reg.gracePeriodEnd && !e.PlayerListed? && !e.BlockPlaced? ==> h.notices == []
    ensures h.reg.gracePeriodEnd == reg.gracePeriodEnd
  {
    match e
    case EntityMoved(uuid, entityId, listed, m, yaw, pitch) =>
      HandleEntityMove(reg, uuid, entityId, listed, m, yaw, pitch, s, now, g)
    case PlayerMoved(current, position, onGround, yaw, pitch) =>
      HandlePlayerMove(reg, current, position, onGround, yaw, pitch, s, now, g)
    case Animated(uuid, entityId, listed, animation) =>
      HandleEntityAnimation(reg, uuid, entityId, listed, animation, s, now, g)
    case MetadataChanged(entityId, uuid, listed, metadata) =>
      HandleEntityMetadata(reg, entityId, uuid, listed, metadata, s, now, g)
    case PlayerListed(updates) =>
      HandlePlayerListUpdate(reg, updates, s, now)
    case BlockPlaced(currentUuid) =>
      HandleBlockPlace(reg, currentUuid, s, now)
  }

  /** The handlers that only update the tables. */
  function ApplyQuiet(reg: Engine, e: Event, now: int): (res: Engine)
    requires Closed(reg) && !Checked(e)
    ensures Closed(res)
    ensures !Resets(e) ==> res.gracePeriodEnd == reg.gracePeriodEnd
    ensures Resets(e) ==> res.byUuid == map[] && res.gracePeriodEnd == now + DefaultGracePeriod
  {
    match e
    case Equipped(entityId, isPlayer, slot, item) =>
      HandleEntityEquipment(reg, entityId, isPlayer, slot, item)
    case StatusChanged(entityId, status) =>
      HandleEntityStatus(reg, entityId, status, now)
    case Pushed(entityId, velocityY) =>
      HandleEntityVelocity(reg, entityId, velocityY, now)
    case EffectChanged(entityId, isPlayer, added, effectId, amplifier) =>
      HandleEntityEffect(reg, entityId, isPlayer, added, effectId, amplifier)
    case HealthUpdated(currentUuid, hunger) =>
      HandleUpdateHealth(reg, currentUuid, hunger)
    case Teleported(uuid) =>
      HandlePlayerTeleport(reg, uuid, now)
    case Spawned(uuid, entityId, at, yaw, pitch) =>
      HandlePlayerSpawn(reg, uuid, entityId, at, yaw, pitch, now)
    case Joined(info) =>
      HandlePlayerJoin(reg, info, now)
    case Left(uuid) =>
      HandlePlayerLeave(reg, uuid)
    case Destroyed(ids) =>
      HandleEntityRemove(reg, ids)
    case TickElapsed =>
      TickAll(reg)
    case Respawned =>
      Reset(reg, now)
    case ViolationsFlushed =>
      FlushViolations(reg)
    case PluginRestored(pluginName) =>
      Restore(reg, pluginName, now)
  }

  /** The `plugin_restored` subscription: only the anticheat plugin's own
      return resets the tables. */
  function Restore(reg: Engine, pluginName: string, now: int): (res: Engine)
    requires Closed(reg)
    ensures Closed(res)
    ensures pluginName != "anticheat" ==> res == reg
    ensures pluginName == "anticheat" ==> res.byUuid == map[] && res.gracePeriodEnd == now + DefaultGracePeriod
  {
    if pluginName == "anticheat" then Reset(reg, now) else reg
  }

  /** The events that start over: a respawn, and the anticheat plugin
      being switched back on. */
  predicate Resets(e: Event) {
    e.Respawned? || (e.PluginRestored? && e.pluginName == "anticheat")
  }

  /** The events in arrival order, their notices concatenated. */
  function Replay(reg: Engine, events: seq<Stamped>, s: Settings): (h: Handled)
    requires Closed(reg)
    ensures Closed(h.reg)
    // a run inside the grace period without a reset, a player list or a
    // block place raises nothing and leaves the grace period as it was
    ensures (forall i :: 0 <= i < |events| ==>
               events[i].now < reg.gracePeriodEnd && !Resets(events[i].event) && !events[i].event.PlayerListed?
               && !events[i].event.BlockPlaced?) ==>
              h.reg.gracePeriodEnd == reg.gracePeriodEnd && h.notices == []
    decreases |events|
  {
    if events == [] then Handled(reg, [])
    else
      var first := Apply(reg, events[0].event, s, events[0].now, events[0].g);
      var rest := Replay(first.reg, events[1..], s);
      Handled(rest.reg, first.notices + rest.notices)
  }

  /** A spawn under the placeholder entity id would enter an entity entry
      no entity has; the protocol never sends one. */
  predicate Fits(e: Event) {
    e.Spawned? ==> e.entityId != NoEntity
  }

  // ---------------------------------------------------------------------
  // Every event keeps the invariant

  lemma InitialIsGood()
    ensures Good(Initial())
  {
  }

  /** `getOrCreatePlayer` keeps the invariant: a new record starts sound,
      and an existing one only changes its identity. */
  lemma GetOrCreateKeepsGood(reg: Engine, info: PlayerInfo, now: int)
    requires Good(reg)
    ensures Good(GetOrCreatePlayer(reg, info, now).reg)
  {
    GetOrCreateKeepsValid(reg, info, now);
    if IsValidPlayerUuid(info.uuid) {
      var a := Admit(reg, info, now);
      AdmitKeepsSound(reg, info, now);
      RebindKeepsSound(a.reg, a.ref.value, info);
    }
  }

  /** A new record starts sound, so admitting keeps every record sound. */
  lemma AdmitKeepsSound(reg: Engine, info: PlayerInfo, now: int)
    requires Closed(reg)
    requires forall q :: q in reg.heap ==> Sound(reg.heap[q])
    ensures forall q :: q in Admit(reg, info, now).reg.heap ==> Sound(Admit(reg, info, now).reg.heap[q])
  {
    NewPlayerIsSound(info.name, info.uuid, if info.entityId != 0 then info.entityId else NoEntity, now);
  }

  /** Rebinding changes only the identity of one record, which soundness
      does not look at. */
  lemma RebindKeepsSound(reg: Engine, r: Ref, info: PlayerInfo)
    requires Closed(reg) && r in reg.heap
    requires forall q :: q in reg.heap ==> Sound(reg.heap[q])
    ensures forall q :: q in Rebind(reg, r, info).heap ==> Sound(Rebind(reg, r, info).heap[q])
  {
    var res := Rebind(reg, r, info);
    forall q | q in res.heap ensures Sound(res.heap[q]) {
      if q == r {
        assert res.heap[q].(id := reg.heap[q].id) == reg.heap[q];
      }
    }
  }

  /** A find-or-create-then-check handler keeps the invariant when its
      update keeps identities and sound records sound. */
  lemma TouchKeepsGood(reg: Engine, info: PlayerInfo, update: Player -> Player, s: Settings, now: int, g: Geometry)
    requires Good(reg)
    requires forall p :: update(p).id == p.id
    requires forall p :: Sound(p) ==> Sound(update(p))
    ensures Good(Touch(reg, info, update, s, now, g).reg)
  {
    if IsValidPlayerUuid(info.uuid) {
      var f := GetOrCreatePlayer(reg, info, now);
      GetOrCreateKeepsGood(reg, info, now);
      if f.ref.Some? {
        var r := f.ref.value;
        var p := update(f.reg.heap[r]);
        assert Sound(f.reg.heap[r]);
        CommitKeepsGood(f.reg, r, p, s, now, g);
        assert Touch(reg, info, update, s, now, g) == Commit(f.reg, r, p, s, now, g);
      }
    }
  }

  /** Writing back a record with the same identity and sound detector
      state keeps the invariant. */
  lemma PutKeepsGood(reg: Engine, r: Ref, p: Player)
    requires Good(reg) && r in reg.heap
    requires p.id == reg.heap[r].id && Sound(p)
    ensures Good(Put(reg, r, p))
  {
  }

  lemma ListUpdateKeepsGood(reg: Engine, updates: seq<ListUpdate>, s: Settings, now: int)
    requires Good(reg)
    ensures Good(HandlePlayerListUpdate(reg, updates, s, now).reg)
  {
    var h := HandlePlayerListUpdate(reg, updates, s, now);
    assert h.reg.byUuid == reg.byUuid && h.reg.entityToPlayer == reg.entityToPlayer;
    assert forall q :: q in reg.heap ==> h.reg.heap[q].id == reg.heap[q].id;
    assert Agrees(h.reg.entityToPlayer, h.reg.heap);
    forall q | q in h.reg.heap ensures Sound(h.reg.heap[q]) {
      assert Sound(reg.heap[q]);
    }
  }

  lemma SpawnKeepsGood(reg: Engine, uuid: string, entityId: int, at: Vec3, yaw: real, pitch: real, now: int)
    requires Good(reg) && entityId != NoEntity
    ensures Good(HandlePlayerSpawn(reg, uuid, entityId, at, yaw, pitch, now))
  {
    if IsValidPlayerUuid(uuid) {
      var res := HandlePlayerSpawn(reg, uuid, entityId, at, yaw, pitch, now);
      SpawnKeepsValid(reg, uuid, entityId, at, yaw, pitch, now);
      SpawnedIsSound(reg, uuid, entityId, at, yaw, pitch, now);
      forall q | q in res.heap ensures Sound(res.heap[q]) {
        if q != reg.nextRef {
          assert Sound(reg.heap[q]);
        }
      }
    }
  }

  lemma SpawnKeepsValid(reg: Engine, uuid: string, entityId: int, at: Vec3, yaw: real, pitch: real, now: int)
    requires Valid(reg) && entityId != NoEntity && IsValidPlayerUuid(uuid)
    ensures Valid(HandlePlayerSpawn(reg, uuid, entityId, at, yaw, pitch, now))
  {
    var r := reg.nextRef;
    SetKeys(reg.entityToPlayer, entityId, r);
    SetEntries(reg.entityToPlayer, entityId, r);
  }

  lemma SpawnedIsSound(reg: Engine, uuid: string, entityId: int, at: Vec3, yaw: real, pitch: real, now: int)
    requires Closed(reg) && IsValidPlayerUuid(uuid)
    ensures Sound(HandlePlayerSpawn(reg, uuid, entityId, at, yaw, pitch, now).heap[reg.nextRef])
  {
    NewPlayerIsSound(ResolveName(reg, uuid, ""), uuid, entityId, now);
  }

  lemma EntityMoveKeepsGood(reg: Engine, uuid: string, entityId: int, listed: string, m: Move,
                            yaw: Option<real>, pitch: Option<real>, s: Settings, now: int, g: Geometry)
    requires Good(reg)
    ensures Good(HandleEntityMove(reg, uuid, entityId, listed, m, yaw, pitch, s, now, g).reg)
  {
    TouchKeepsGood(reg, EntityInfo(reg, uuid, entityId, listed), p => ApplyMove(p, m, yaw, pitch, now), s, now, g);
  }

  lemma PlayerMoveKeepsGood(reg: Engine, current: Option<PlayerInfo>, position: Option<Vec3>, onGround: bool,
                            yaw: Option<real>, pitch: Option<real>, s: Settings, now: int, g: Geometry)
    requires Good(reg)
    ensures Good(HandlePlayerMove(reg, current, position, onGround, yaw, pitch, s, now, g).reg)
  {
    if current.Some? {
      var update := p => if position.Some? then UpdatePosition(p, position.value, onGround, yaw, pitch, now) else p;
      forall p | Sound(p) ensures Sound(update(p)) {
        if position.Some? {
          var moved := ApplyMove(p, NewPosition(position.value), yaw, pitch, now);
          assert Sound(moved);
        }
      }
      TouchKeepsGood(reg, current.value, update, s, now, g);
    }
  }

  lemma AnimationKeepsGood(reg: Engine, uuid: string, entityId: int, listed: string, animation: int,
                           s: Settings, now: int, g: Geometry)
    requires Good(reg)
    ensures Good(HandleEntityAnimation(reg, uuid, entityId, listed, animation, s, now, g).reg)
  {
    TouchKeepsGood(reg, EntityInfo(reg, uuid, entityId, listed), p => if animation == 0 then Swing(p) else p, s, now, g);
  }

  /** Writing back and checking a record with the same identity and a
      sound state keeps the invariant. */
  lemma CommitKeepsGood(reg: Engine, r: Ref, p: Player, s: Settings, now: int, g: Geometry)
    requires Good(reg) && r in reg.heap
    requires p.id == reg.heap[r].id && Sound(p)
    ensures Good(Commit(reg, r, p, s, now, g).reg)
  {
  }

  lemma MetadataKeepsGood(reg: Engine, entityId: int, uuid: string, listed: string,
                          metadata: Option<seq<MetaEntry>>, s: Settings, now: int, g: Geometry)
    requires Good(reg)
    ensures Good(HandleEntityMetadata(reg, entityId, uuid, listed, metadata, s, now, g).reg)
  {
    var update := p => if metadata.Some? then ApplyMetadata(p, metadata.value, now) else p;
    match ByEntity(reg, entityId)
    case Some(r) =>
      CommitKeepsGood(reg, r, update(reg.heap[r]), s, now, g);
    case None =>
      TouchKeepsGood(reg, EntityInfo(reg, uuid, entityId, listed), update, s, now, g);
  }

  /** A record that kept its identity, book and scratch state after a
      setter keeps the invariant when written back. */
  lemma SetterKeepsGood(reg: Engine, r: Ref, p: Player)
    requires Good(reg) && r in reg.heap
    requires p.id == reg.heap[r].id && p.book == reg.heap[r].book && p.scratch == reg.heap[r].scratch
    ensures Good(Put(reg, r, p))
  {
    assert Sound(reg.heap[r]);
  }

  lemma EquipmentKeepsGood(reg: Engine, entityId: int, isPlayer: bool, slot: int, item: Option<int>)
    requires Good(reg)
    ensures Good(HandleEntityEquipment(reg, entityId, isPlayer, slot, item))
  {
    if isPlayer && ByEntity(reg, entityId).Some? {
      var r := ByEntity(reg, entityId).value;
      SetterKeepsGood(reg, r, Equip(reg.heap[r], slot, item));
    }
  }

  lemma StatusKeepsGood(reg: Engine, entityId: int, status: int, now: int)
    requires Good(reg)
    ensures Good(HandleEntityStatus(reg, entityId, status, now))
  {
    if status == 2 && ByEntity(reg, entityId).Some? {
      var r := ByEntity(reg, entityId).value;
      SetterKeepsGood(reg, r, Hurt(reg.heap[r], now));
    }
  }

  lemma VelocityKeepsGood(reg: Engine, entityId: int, velocityY: real, now: int)
    requires Good(reg)
    ensures Good(HandleEntityVelocity(reg, entityId, velocityY, now))
  {
    if ByEntity(reg, entityId).Some? {
      var r := ByEntity(reg, entityId).value;
      SetterKeepsGood(reg, r, VelocityPacket(reg.heap[r], velocityY, now));
    }
  }

  lemma EffectKeepsGood(reg: Engine, entityId: int, isPlayer: bool, added: bool, effectId: int, amplifier: int)
    requires Good(reg)
    ensures Good(HandleEntityEffect(reg, entityId, isPlayer, added, effectId, amplifier))
  {
    if isPlayer && ByEntity(reg, entityId).Some? {
      var r := ByEntity(reg, entityId).value;
      var e := reg.heap[r].effects;
      SetterKeepsGood(reg, r, reg.heap[r].(effects := if added then AddEffect(e, effectId, amplifier) else RemoveEffect(e, effectId)));
    }
  }

  lemma HealthKeepsGood(reg: Engine, currentUuid: Option<string>, hunger: Option<int>)
    requires Good(reg)
    ensures Good(HandleUpdateHealth(reg, currentUuid, hunger))
  {
    if currentUuid.Some? && currentUuid.value in reg.byUuid {
      var r := reg.byUuid[currentUuid.value];
      SetterKeepsGood(reg, r, SetHunger(reg.heap[r], hunger));
    }
  }

  lemma BlockPlaceKeepsGood(reg: Engine, currentUuid: Option<string>, s: Settings, now: int)
    requires Good(reg)
    ensures Good(HandleBlockPlace(reg, currentUuid, s, now).reg)
  {
    if currentUuid.Some? && currentUuid.value in reg.byUuid && Enabled(s, ScaffoldA) {
      var r := reg.byUuid[currentUuid.value];
      assert Sound(reg.heap[r]);
      PutKeepsGood(reg, r, HandleBlockPlace(reg, currentUuid, s, now).reg.heap[r]);
    }
  }

  lemma TeleportKeepsGood(reg: Engine, uuid: string, now: int)
    requires Good(reg)
    ensures Good(HandlePlayerTeleport(reg, uuid, now))
  {
    if uuid != "" && uuid in reg.byUuid {
      var r := reg.byUuid[uuid];
      SetterKeepsGood(reg, r, Teleport(reg.heap[r], now));
    }
  }

  lemma LeaveKeepsGood(reg: Engine, uuid: string)
    requires Good(reg)
    ensures Good(HandlePlayerLeave(reg, uuid))
  {
    if uuid != "" && uuid in reg.byUuid {
      RemoveByUuidUnbinds(reg, uuid);
    }
  }

  lemma DestroyKeepsGood(reg: Engine, ids: seq<int>)
    requires Good(reg)
    ensures Good(HandleEntityRemove(reg, ids))
  {
    EntityRemoveKeepsValid(reg, ids);
  }

  /** The every-tick loop, a reset and a flush keep the invariant. */
  lemma WholeTableKeepsGood(reg: Engine, now: int)
    requires Good(reg)
    ensures Good(TickAll(reg))
    ensures Good(Reset(reg, now))
    ensures Good(FlushViolations(reg))
  {
    var t := TickAll(reg);
    forall q | q in t.heap ensures Sound(t.heap[q]) {
      assert Sound(reg.heap[q]);
    }
    var f := FlushViolations(reg);
    forall q | q in f.heap ensures Sound(f.heap[q]) {
      assert Sound(reg.heap[q]);
    }
  }

  /** Every event that fits keeps the invariant. */
  lemma ApplyKeepsGood(reg: Engine, e: Event, s: Settings, now: int, g: Geometry)
    requires Good(reg) && Fits(e)
    ensures Good(Apply(reg, e, s, now, g).reg)
  {
    if Checked(e) {
      CheckedEventKeepsGood(reg, e, s, now, g);
    } else if e.Equipped? || e.StatusChanged? || e.Pushed? || e.EffectChanged? || e.HealthUpdated? || e.Teleported? {
      SetterEventKeepsGood(reg, e, now);
    } else if e.Spawned? || e.Joined? || e.Left? || e.Destroyed? {
      TableEventKeepsGood(reg, e, now);
    } else {
      WholeTableEventKeepsGood(reg, e, now);
    }
  }

  lemma CheckedEventKeepsGood(reg: Engine, e: Event, s: Settings, now: int, g: Geometry)
    requires Good(reg) && Checked(e)
    ensures Good(ApplyChecked(reg, e, s, now, g).reg)
  {
    match e
    case EntityMoved(uuid, entityId, listed, m, yaw, pitch) =>
      EntityMoveKeepsGood(reg, uuid, entityId, listed, m, yaw, pitch, s, now, g);
    case PlayerMoved(current, position, onGround, yaw, pitch) =>
      PlayerMoveKeepsGood(reg, current, position, onGround, yaw, pitch, s, now, g);
    case Animated(uuid, entityId, listed, animation) =>
      AnimationKeepsGood(reg, uuid, entityId, listed, animation, s, now, g);
    case MetadataChanged(entityId, uuid, listed, metadata) =>
      MetadataKeepsGood(reg, entityId, uuid, listed, metadata, s, now, g);
    case PlayerListed(updates) =>
      ListUpdateKeepsGood(reg, updates, s, now);
    case BlockPlaced(currentUuid) =>
      BlockPlaceKeepsGood(reg, currentUuid, s, now);
  }

  lemma SetterEventKeepsGood(reg: Engine, e: Event, now: int)
    requires Good(reg)
    requires e.Equipped? || e.StatusChanged? || e.Pushed? || e.EffectChanged? || e.HealthUpdated? || e.Teleported?
    ensures Good(ApplyQuiet(reg, e, now))
  {
    match e
    case Equipped(entityId, isPlayer, slot, item) =>
      EquipmentKeepsGood(reg, entityId, isPlayer, slot, item);
    case StatusChanged(entityId, status) =>
      StatusKeepsGood(reg, entityId, status, now);
    case Pushed(entityId, velocityY) =>
      VelocityKeepsGood(reg, entityId, velocityY, now);
    case EffectChanged(entityId, isPlayer, added, effectId, amplifier) =>
      EffectKeepsGood(reg, entityId, isPlayer, added, effectId, amplifier);
    case HealthUpdated(currentUuid, hunger) =>
      HealthKeepsGood(reg, currentUuid, hunger);
    case Teleported(uuid) =>
      TeleportKeepsGood(reg, uuid, now);
  }

  lemma TableEventKeepsGood(reg: Engine, e: Event, now: int)
    requires Good(reg) && Fits(e)
    requires e.Spawned? || e.Joined? || e.Left? || e.Destroyed?
    ensures Good(ApplyQuiet(reg, e, now))
  {
    match e
    case Spawned(uuid, entityId, at, yaw, pitch) =>
      SpawnKeepsGood(reg, uuid, entityId, at, yaw, pitch, now);
    case Joined(info) =>
      GetOrCreateKeepsGood(reg, info, now);
    case Left(uuid) =>
      LeaveKeepsGood(reg, uuid);
    case Destroyed(ids) =>
      DestroyKeepsGood(reg, ids);
  }

  lemma WholeTableEventKeepsGood(reg: Engine, e: Event, now: int)
    requires Good(reg)
    requires e.TickElapsed? || e.Respawned? || e.ViolationsFlushed? || e.PluginRestored?
    ensures Good(ApplyQuiet(reg, e, now))
  {
    WholeTableKeepsGood(reg, now);
  }

  /** Any sequence of fitting events keeps the invariant. */
  lemma {:induction false} ReplayKeepsGood(reg: Engine, events: seq<Stamped>, s: Settings)
    requires Good(reg)
    requires forall i :: 0 <= i < |events| ==> Fits(events[i].event)
    ensures Good(Replay(reg, events, s).reg)
    decreases |events|
  {
    if events != [] {
      ApplyKeepsGood(reg, events[0].event, s, events[0].now, events[0].g);
      var first := Apply(reg, events[0].event, s, events[0].now, events[0].g);
      ReplayKeepsGood(first.reg, events[1..], s);
    }
  }
}
