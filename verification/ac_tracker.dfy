/** The kinematic and status tracker of one player record
    (plugins/anticheat-1-2-1.js: PlayerData.updatePosition, the per-tick
    decay, the metadata bitmask, effects, and the small per-event setters). */
module Tracker {
  import opened Common
  import opened AcTypes

  // ---------------------------------------------------------------------
  // Position updates

  /** Milliseconds between two clock readings, in seconds. */
  function ElapsedSeconds(from: int, to: int): real {
    (to - from) as real / 1000.0
  }

  /** The finite-difference velocity between the previous sample and a new
      position taken at `now`; zero without a sample or without elapsed time. */
  function EstimateVelocity(last: Option<Sample>, to: Vec3, now: int): (v: Vec3)
    ensures last.Some? && now - last.value.timestamp > 0 ==>
              var dt := ElapsedSeconds(last.value.timestamp, now);
              && v.x * dt == to.x - last.value.position.x
              && v.y * dt == to.y - last.value.position.y
              && v.z * dt == to.z - last.value.position.z
    ensures !(last.Some? && now - last.value.timestamp > 0) ==> v == Origin
  {
    match last
    case Some(s) =>
      if now - s.timestamp > 0 then
        var dt := ElapsedSeconds(s.timestamp, now);
        Vec3((to.x - s.position.x) / dt, (to.y - s.position.y) / dt, (to.z - s.position.z) / dt)
      else Origin
    case None => Origin
  }

  /** `updatePosition(x, y, z, onGround, yaw, pitch)` at time `now`. */
  function UpdatePosition(p: Player, to: Vec3, onGround: bool, yaw: Option<real>, pitch: Option<real>, now: int): (r: Player)
    // landing: a fall of more than three blocks arms the two-tick bounce
    // suppression, and the fall distance starts again
    ensures onGround ==> r.motion.fallDistance == 0.0
    ensures onGround && p.motion.fallDistance > 3.0 ==> r.scratch.velocityA.fallDamageDisableTicks == 2
    ensures !(onGround && p.motion.fallDistance > 3.0) ==> r.scratch.velocityA == p.scratch.velocityA
    // airborne: only a drop adds to the fall distance, by the height lost
    ensures !onGround && to.y < p.motion.position.y ==>
              r.motion.fallDistance - p.motion.fallDistance == p.motion.position.y - to.y
    ensures !onGround && to.y >= p.motion.position.y ==> r.motion.fallDistance == p.motion.fallDistance
    // a take-off that gains height is a jump
    ensures (p.motion.lastOnGround && !onGround && to.y > p.motion.position.y) ==> r.motion.lastJumpTime == now
    ensures !(p.motion.lastOnGround && !onGround && to.y > p.motion.position.y) ==>
              r.motion.lastJumpTime == p.motion.lastJumpTime
    // the previous position is kept, the new one becomes the sample
    ensures r.motion.lastPosition == p.motion.position && r.motion.position == to
    ensures r.motion.onGround == onGround && r.motion.lastOnGround == onGround
    ensures r.motion.lastPositionData == Some(Sample(to, now))
    ensures r.motion.velocity == EstimateVelocity(p.motion.lastPositionData, to, now)
    ensures r.scratch.strafeLastMotion == Some((r.motion.velocity.x, r.motion.velocity.z))
    // a reported angle shifts the current one into the "last" slot
    ensures yaw.Some? ==> r.motion.yaw == yaw.value && r.motion.lastYaw == Some(p.motion.yaw)
    ensures yaw.None? ==> r.motion.yaw == p.motion.yaw && r.motion.lastYaw == p.motion.lastYaw
    ensures pitch.Some? ==> r.motion.pitch == pitch.value && r.motion.lastPitch == Some(p.motion.pitch)
    ensures pitch.None? ==> r.motion.pitch == p.motion.pitch && r.motion.lastPitch == p.motion.lastPitch
    // nothing outside motion and the two detector fields changes
    ensures r.id == p.id && r.status == p.status && r.effects == p.effects && r.book == p.book
    ensures r.motion.lastTeleportTime == p.motion.lastTeleportTime
    ensures r.motion.lastVelocityPacketTime == p.motion.lastVelocityPacketTime
    ensures r.scratch.(velocityA := p.scratch.velocityA, strafeLastMotion := p.scratch.strafeLastMotion) == p.scratch
  {
    var m := p.motion;
    var vw := p.scratch.velocityA;
    var fall :=
      if onGround then 0.0
      else if to.y < m.position.y then m.fallDistance + (m.position.y - to.y)
      else m.fallDistance;
    var vw' := if onGround && m.fallDistance > 3.0 then vw.(fallDamageDisableTicks := 2) else vw;
    var jumpTime := if m.lastOnGround && !onGround && to.y > m.position.y then now else m.lastJumpTime;
    var vel := EstimateVelocity(m.lastPositionData, to, now);
    var m' := m.(
      position := to, lastPosition := m.position, onGround := onGround, lastOnGround := onGround,
      yaw := yaw.GetOr(m.yaw), lastYaw := if yaw.Some? then Some(m.yaw) else m.lastYaw,
      pitch := pitch.GetOr(m.pitch), lastPitch := if pitch.Some? then Some(m.pitch) else m.lastPitch,
      lastPositionData := Some(Sample(to, now)), velocity := vel,
      fallDistance := fall, lastJumpTime := jumpTime);
    p.(motion := m', scratch := p.scratch.(velocityA := vw', strafeLastMotion := Some((vel.x, vel.z))))
  }

  /** Applies airborne position updates at `now`, one per point of `path`. */
  function FlyThrough(p: Player, path: seq<Vec3>, now: int): Player
    decreases |path|
  {
    if path == [] then p
    else FlyThrough(UpdatePosition(p, path[0], false, None, None, now), path[1..], now)
  }

  /** The heights of `path`, starting from `y`, never rise. */
  ghost predicate NeverRises(y: real, path: seq<Vec3>) {
    && (path != [] ==> path[0].y <= y)
    && (forall i, j :: 0 <= i < j < |path| ==> path[j].y <= path[i].y)
  }

  /** An airborne descent that never rises adds exactly the total height
      lost to the fall distance. */
  lemma {:induction false} DescentAccumulatesDrop(p: Player, path: seq<Vec3>, now: int)
    requires path != [] && NeverRises(p.motion.position.y, path)
    ensures FlyThrough(p, path, now).motion.fallDistance
              == p.motion.fallDistance + (p.motion.position.y - path[|path| - 1].y)
    ensures FlyThrough(p, path, now).motion.position == path[|path| - 1]
    decreases |path|
  {
    var q := UpdatePosition(p, path[0], false, None, None, now);
    assert q.motion.fallDistance == p.motion.fallDistance + (p.motion.position.y - path[0].y);
    if |path| > 1 {
      assert path[1..][0] == path[1];
      DescentAccumulatesDrop(q, path[1..], now);
    }
  }

  /** The fall distance is never negative. */
  lemma FallDistanceStaysNonNegative(p: Player, to: Vec3, onGround: bool, yaw: Option<real>, pitch: Option<real>, now: int)
    requires p.motion.fallDistance >= 0.0
    ensures UpdatePosition(p, to, onGround, yaw, pitch, now).motion.fallDistance >= 0.0
  {
  }

  // ---------------------------------------------------------------------
  // Per-tick decay

  /** The every-tick handler on one record: swing progress and hurt time
      each count down by one while positive. */
  function Tick(p: Player): (r: Player)
    ensures p.status.swingProgress > 0 ==> r.status.swingProgress == p.status.swingProgress - 1
    ensures p.status.swingProgress <= 0 ==> r.status.swingProgress == p.status.swingProgress
    ensures p.status.hurtTime > 0 ==> r.status.hurtTime == p.status.hurtTime - 1
    ensures p.status.hurtTime <= 0 ==> r.status.hurtTime == p.status.hurtTime
    ensures r.status.(swingProgress := 0, hurtTime := 0) == p.status.(swingProgress := 0, hurtTime := 0)
    ensures r.(status := p.status) == p
  {
    var s := p.status;
    var swing := if s.swingProgress > 0 then Max(0, s.swingProgress - 1) else s.swingProgress;
    var hurt := if s.hurtTime > 0 then s.hurtTime - 1 else s.hurtTime;
    p.(status := s.(swingProgress := swing, hurtTime := hurt))
  }

  function Ticks(p: Player, n: nat): Player
    decreases n
  {
    if n == 0 then p else Ticks(Tick(p), n - 1)
  }

  /** After `n` ticks a hurt time that started at `h >= 0` reads `max(0, h - n)`. */
  lemma {:induction false} HurtTimeDecays(p: Player, n: nat)
    requires p.status.hurtTime >= 0
    ensures Ticks(p, n).status.hurtTime == Max(0, p.status.hurtTime - n)
    decreases n
  {
    if n > 0 {
      HurtTimeDecays(Tick(p), n - 1);
    }
  }

  /** After `n` ticks a swing progress that started at `s >= 0` reads `max(0, s - n)`. */
  lemma {:induction false} SwingDecays(p: Player, n: nat)
    requires p.status.swingProgress >= 0
    ensures Ticks(p, n).status.swingProgress == Max(0, p.status.swingProgress - n)
    decreases n
  {
    if n > 0 {
      SwingDecays(Tick(p), n - 1);
    }
  }

  /** Ticking touches nothing but the two counters. */
  lemma {:induction false} TicksKeepTheRest(p: Player, n: nat)
    ensures Ticks(p, n).book == p.book && Ticks(p, n).motion == p.motion
    ensures Ticks(p, n).scratch == p.scratch && Ticks(p, n).id == p.id
    decreases n
  {
    if n > 0 {
      TicksKeepTheRest(Tick(p), n - 1);
    }
  }

  /** `entity_status` 2: the player was hurt at `now`. */
  function Hurt(p: Player, now: int): (r: Player)
    ensures r.status.hurtTime == 10 && r.status.lastDamaged == now
    ensures r.status.(hurtTime := p.status.hurtTime, lastDamaged := p.status.lastDamaged) == p.status
    ensures r.(status := p.status) == p
  {
    p.(status := p.status.(lastDamaged := now, hurtTime := 10))
  }

  /** A swing animation sets the swing progress to six. */
  function Swing(p: Player): (r: Player)
    ensures r.status.swingProgress == 6
    ensures r.status.(swingProgress := p.status.swingProgress) == p.status
    ensures r.(status := p.status) == p
  {
    p.(status := p.status.(swingProgress := 6))
  }

  /** A hit's hurt time reads 9 exactly one tick later (when VelocityA opens
      its window) and runs out after ten ticks. */
  lemma HurtTimeline(p: Player, now: int, n: nat)
    ensures Ticks(Hurt(p, now), n).status.hurtTime == Max(0, 10 - n)
    ensures n == 1 ==> Ticks(Hurt(p, now), n).status.hurtTime == 9
  {
    HurtTimeDecays(Hurt(p, now), n);
  }

  // ---------------------------------------------------------------------
  // Entity metadata (key 0: the status bitmask)

  const OnFireBit := 1
  const CrouchBit := 2
  const SprintBit := 8
  const UsingItemBit := 16
  const ElytraBit := 128

  /** `!!(flags & weight)` for a single-bit weight: the bitwise and reads
      the two's-complement bit, which floor division recovers for any sign. */
  predicate BitSet(flags: int, weight: int)
    requires weight > 0
  {
    (flags / weight) % 2 == 1
  }

  /** The bits a status byte carries for the flags the tracker reads. */
  function EncodeFlags(onFire: bool, crouch: bool, sprint: bool, usingItem: bool, elytra: bool): (f: int)
    ensures 0 <= f < 256
  {
    (if onFire then OnFireBit else 0) + (if crouch then CrouchBit else 0)
    + (if sprint then SprintBit else 0) + (if usingItem then UsingItemBit else 0)
    + (if elytra then ElytraBit else 0)
  }

  /** Decoding the byte a status set encodes gives that status set back. */
  lemma DecodeEncode(onFire: bool, crouch: bool, sprint: bool, usingItem: bool, elytra: bool)
    ensures var f := EncodeFlags(onFire, crouch, sprint, usingItem, elytra);
      && BitSet(f, OnFireBit) == onFire && BitSet(f, CrouchBit) == crouch
      && BitSet(f, SprintBit) == sprint && BitSet(f, UsingItemBit) == usingItem
      && BitSet(f, ElytraBit) == elytra
  {
  }

  /** The crouch-history list keeps at most this many events. */
  const MaxShiftEvents := 50

  /** The item the record holds, as `getItemId` resolves it (0 for none). */
  function HeldId(s: Status): int {
    match s.heldItem
    case Some(id) => id
    case None => 0
  }

  const SwordIds: set<int> := {267, 268, 272, 276, 283}

  predicate IsHoldingSword(s: Status) {
    HeldId(s) != 0 && HeldId(s) in SwordIds
  }

  /** `isHoldingBlock`: any truthy id below 256. */
  predicate IsHoldingBlock(s: Status) {
    HeldId(s) != 0 && HeldId(s) < 256
  }

  /** The stop event's duration: time since the crouch began, or 0 when no
      (truthy) start time was recorded. */
  function CrouchDuration(start: Option<int>, now: int): int {
    if start.Some? && start.value != 0 then now - start.value else 0
  }

  /** The crouch bit's transitions, recorded in the crouch history. */
  function CrouchStep(s: Status, crouch: bool, at: Vec3, now: int): (r: Status)
    ensures crouch && !s.isCrouching ==>
              && r.shiftEvents == PushBounded(s.shiftEvents, ShiftEvent(ShiftStart, now, at, None), MaxShiftEvents)
              && r.currentShiftStart == Some(now) && r.lastCrouchTime == now
    ensures !crouch && s.isCrouching ==>
              && r.shiftEvents == PushBounded(s.shiftEvents, ShiftEvent(ShiftStop, now, at, Some(CrouchDuration(s.currentShiftStart, now))), MaxShiftEvents)
              && r.currentShiftStart == None && r.lastStopCrouchTime == now
    ensures crouch == s.isCrouching ==> r == s
    ensures |s.shiftEvents| <= MaxShiftEvents ==> |r.shiftEvents| <= MaxShiftEvents
    ensures r.isUsingItem == s.isUsingItem && r.isBlocking == s.isBlocking
    ensures r.blockingStartTime == s.blockingStartTime && r.heldItem == s.heldItem
  {
    if crouch && !s.isCrouching then
      s.(lastCrouchTime := now, currentShiftStart := Some(now),
         shiftEvents := PushBounded(s.shiftEvents, ShiftEvent(ShiftStart, now, at, None), MaxShiftEvents))
    else if !crouch && s.isCrouching then
      s.(lastStopCrouchTime := now, currentShiftStart := None,
         shiftEvents := PushBounded(s.shiftEvents, ShiftEvent(ShiftStop, now, at, Some(CrouchDuration(s.currentShiftStart, now))), MaxShiftEvents))
    else s
  }

  /** Blocking starts when a sword begins to be used and ends when use stops. */
  function BlockStep(s: Status, using: bool, now: int): (r: Status)
    ensures using && !s.isUsingItem && IsHoldingSword(s) ==> r.isBlocking && r.blockingStartTime == now
    ensures !using && s.isUsingItem ==> !r.isBlocking && r.blockingStartTime == s.blockingStartTime
    ensures using == s.isUsingItem ==> r == s
    ensures r.isCrouching == s.isCrouching && r.shiftEvents == s.shiftEvents
    ensures r.currentShiftStart == s.currentShiftStart && r.isUsingItem == s.isUsingItem
  {
    if using && !s.isUsingItem && IsHoldingSword(s) then s.(isBlocking := true, blockingStartTime := now)
    else if !using && s.isUsingItem then s.(isBlocking := false)
    else s
  }

  /** The status bitmask applied at `now`. */
  function ApplyFlags(p: Player, flags: int, now: int): (r: Player)
    ensures r.status.isOnFire == BitSet(flags, OnFireBit)
    ensures r.status.isCrouching == BitSet(flags, CrouchBit)
    ensures r.status.isSprinting == BitSet(flags, SprintBit)
    ensures r.status.isUsingItem == BitSet(flags, UsingItemBit)
    ensures r.status.isElytraFlying == BitSet(flags, ElytraBit)
    ensures r.status.lastUsing == r.status.isUsingItem
    ensures r.status.shiftEvents == CrouchStep(p.status, r.status.isCrouching, p.motion.position, now).shiftEvents
    ensures |p.status.shiftEvents| <= MaxShiftEvents ==> |r.status.shiftEvents| <= MaxShiftEvents
    ensures r.status.isBlocking == BlockStep(p.status, r.status.isUsingItem, now).isBlocking
    ensures r.id == p.id && r.motion == p.motion && r.effects == p.effects
    ensures r.scratch == p.scratch && r.book == p.book
  {
    var s := p.status;
    var crouch := BitSet(flags, CrouchBit);
    var using := BitSet(flags, UsingItemBit);
    var s1 := CrouchStep(BlockStep(s, using, now), crouch, p.motion.position, now);
    p.(status := s1.(
      isOnFire := BitSet(flags, OnFireBit), isCrouching := crouch,
      isSprinting := BitSet(flags, SprintBit), isUsingItem := using, lastUsing := using,
      isElytraFlying := BitSet(flags, ElytraBit)))
  }

  /** One `{key, type, value}` entry of an entity metadata packet. */
  datatype MetaEntry = MetaEntry(key: int, kind: int, value: int)

  /** One metadata entry: key 0 is the bitmask; keys 9, 26 and 27 set
      water, lava and web from a positive value; everything else is ignored.
      Only entries of type 0 are read. */
  function ApplyEntry(p: Player, e: MetaEntry, now: int): (r: Player)
    ensures e.kind != 0 || e.key !in {0, 9, 26, 27} ==> r == p
    ensures e.kind == 0 && e.key == 9 ==> r == p.(status := p.status.(isInWater := e.value > 0))
    ensures e.kind == 0 && e.key == 26 ==> r == p.(status := p.status.(isInLava := e.value > 0))
    ensures e.kind == 0 && e.key == 27 ==> r == p.(status := p.status.(isInWeb := e.value > 0))
    ensures |p.status.shiftEvents| <= MaxShiftEvents ==> |r.status.shiftEvents| <= MaxShiftEvents
  {
    if e.kind != 0 then p
    else if e.key == 0 then ApplyFlags(p, e.value, now)
    else if e.key == 9 then p.(status := p.status.(isInWater := e.value > 0))
    else if e.key == 26 then p.(status := p.status.(isInLava := e.value > 0))
    else if e.key == 27 then p.(status := p.status.(isInWeb := e.value > 0))
    else p
  }

  /** The entries of one packet, in order. */
  function ApplyMetadata(p: Player, entries: seq<MetaEntry>, now: int): (r: Player)
    ensures r.book == p.book && r.motion == p.motion && r.id == p.id
    ensures r.scratch == p.scratch && r.effects == p.effects
    decreases |entries|
  {
    if entries == [] then p
    else ApplyMetadata(ApplyEntry(p, entries[0], now), entries[1..], now)
  }

  /** However many metadata packets arrive, the crouch history stays within
      its cap. */
  lemma {:induction false} ShiftHistoryBounded(p: Player, entries: seq<MetaEntry>, now: int)
    requires |p.status.shiftEvents| <= MaxShiftEvents
    ensures |ApplyMetadata(p, entries, now).status.shiftEvents| <= MaxShiftEvents
    decreases |entries|
  {
    if entries != [] {
      ShiftHistoryBounded(ApplyEntry(p, entries[0], now), entries[1..], now);
    }
  }

  // ---------------------------------------------------------------------
  // Effects

  const SpeedEffect := 1
  const JumpBoostEffect := 8
  const SlowFallingEffect := 25

  /** The derived levels agree with the active-effect table. */
  ghost predicate EffectsAgree(e: Effects) {
    && e.speedLevel == (if SpeedEffect in e.active then e.active[SpeedEffect] else 0)
    && e.jumpBoostLevel == (if JumpBoostEffect in e.active then e.active[JumpBoostEffect] else 0)
    && e.hasSlowFalling == (SlowFallingEffect in e.active)
  }

  /** `entity_effect`: the effect is active at `amplifier + 1`. */
  function AddEffect(e: Effects, id: int, amplifier: int): (r: Effects)
    ensures r.active.Keys == e.active.Keys + {id} && r.active[id] == amplifier + 1
    ensures forall k :: k in e.active && k != id ==> r.active[k] == e.active[k]
    ensures EffectsAgree(e) ==> EffectsAgree(r)
    ensures r.hasJumpBoost == e.hasJumpBoost
  {
    var lvl := amplifier + 1;
    var e1 := e.(active := e.active[id := lvl]);
    if id == JumpBoostEffect then e1.(jumpBoostLevel := lvl)
    else if id == SpeedEffect then e1.(speedLevel := lvl)
    else if id == SlowFallingEffect then e1.(hasSlowFalling := true)
    else e1
  }

  /** `remove_entity_effect`: the effect is gone and its derived level reset. */
  function RemoveEffect(e: Effects, id: int): (r: Effects)
    ensures r.active.Keys == e.active.Keys - {id}
    ensures forall k :: k in r.active ==> r.active[k] == e.active[k]
    ensures EffectsAgree(e) ==> EffectsAgree(r)
    ensures r.hasJumpBoost == e.hasJumpBoost
  {
    var e1 := e.(active := e.active - {id});
    if id == JumpBoostEffect then e1.(jumpBoostLevel := 0)
    else if id == SpeedEffect then e1.(speedLevel := 0)
    else if id == SlowFallingEffect then e1.(hasSlowFalling := false)
    else e1
  }

  /** Adding an effect that was not active and removing it again restores
      the effect state, for a state whose levels agree with its table. */
  lemma AddThenRemove(e: Effects, id: int, amplifier: int)
    requires EffectsAgree(e) && id !in e.active
    ensures RemoveEffect(AddEffect(e, id, amplifier), id) == e
  {
    assert (e.active[id := amplifier + 1] - {id}) == e.active;
  }

  // ---------------------------------------------------------------------
  // Small setters driven by single events

  /** `update_health`: a reported hunger value replaces the old one. */
  function SetHunger(p: Player, hunger: Option<int>): (r: Player)
    ensures hunger.Some? ==> r.status.hunger == hunger.value
    ensures hunger.None? ==> r == p
    ensures r.(status := p.status) == p && r.status.(hunger := p.status.hunger) == p.status
  {
    match hunger
    case Some(h) => p.(status := p.status.(hunger := h))
    case None => p
  }

  /** `player_teleport`: stamps the teleport time. */
  function Teleport(p: Player, now: int): (r: Player)
    ensures r.motion.lastTeleportTime == now
    ensures r.motion.(lastTeleportTime := p.motion.lastTeleportTime) == p.motion
    ensures r.(motion := p.motion) == p
  {
    p.(motion := p.motion.(lastTeleportTime := now))
  }

  /** `entity_velocity`: only an upward push is remembered. */
  function VelocityPacket(p: Player, velocityY: real, now: int): (r: Player)
    ensures velocityY > 0.0 ==> r.motion.lastVelocityPacketTime == now
    ensures velocityY <= 0.0 ==> r == p
    ensures r.(motion := p.motion) == p
    ensures r.motion.(lastVelocityPacketTime := p.motion.lastVelocityPacketTime) == p.motion
  {
    if velocityY > 0.0 then p.(motion := p.motion.(lastVelocityPacketTime := now)) else p
  }

  /** `entity_equipment`: slot 0 is the held item. */
  function Equip(p: Player, slot: int, item: Option<int>): (r: Player)
    ensures slot == 0 ==> r.status.heldItem == item
    ensures slot != 0 ==> r == p
    ensures r.(status := p.status) == p && r.status.(heldItem := p.status.heldItem) == p.status
  {
    if slot == 0 then p.(status := p.status.(heldItem := item)) else p
  }
}
