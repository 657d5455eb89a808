/** The anticheat engine's vocabulary: the closed set of checks, their
    configuration, and the per-player record the engine keeps
    (plugins/anticheat-1-2-1.js, class PlayerData and the CHECKS table). */
module AcTypes {
  import opened Common

  /** Every name the engine uses for a check. The first nineteen are the
      entries of the CHECKS table, in its order; `AutoClickerA` is asked
      about by the swing handler but has no table entry, so no player record
      ever holds a counter for it. */
  datatype CheckName =
    | FlyA | FlyB | FlyC | NoSlowA | AutoBlockA | EagleA | FastBridgeA
    | ScaffoldA | TowerA | Blink | HungerSprint | AimA | AimB | InvalidPitch
    | HitBoxA | ReachA | GameModeA | StrafeA | VelocityA
    | AutoClickerA

  /** The CHECKS table's key order, which is the order the scheduler runs them in. */
  const CheckOrder: seq<CheckName> := [
    FlyA, FlyB, FlyC, NoSlowA, AutoBlockA, EagleA, FastBridgeA, ScaffoldA,
    TowerA, Blink, HungerSprint, AimA, AimB, InvalidPitch, HitBoxA, ReachA,
    GameModeA, StrafeA, VelocityA]

  lemma CheckOrderIsTheTable(c: CheckName)
    ensures c in CheckOrder <==> !c.AutoClickerA?
  {
  }

  /** One check's settings. `alertBuffer == 0` stands for the setting being
      absent, which the governor reads as 1. */
  datatype CheckConfig = CheckConfig(
    enabled: bool, vl: int, cooldown: int, alertBuffer: int,
    autoWdr: bool, sound: bool)

  /** Aggregated ("suspicious player") alerting; absent settings default to
      disabled, threshold 20 and cooldown 5000 ms. */
  datatype GlobalAlerts = GlobalAlerts(enabled: bool, threshold: int, cooldown: int)

  /** The per-player alert rate limiter. */
  datatype RateLimit = RateLimit(enabled: bool, maxAlerts: int, timeWindow: int)

  datatype Settings = Settings(
    checks: map<CheckName, CheckConfig>,
    globalAlerts: GlobalAlerts,
    rateLimit: RateLimit)

  /** The defaults the CHECKS table declares for each entry. */
  function DefaultCheckConfig(c: CheckName): CheckConfig {
    match c
    case FlyA => CheckConfig(false, 2, 1000, 0, false, true)
    case FlyB => CheckConfig(false, 1, 1000, 0, false, true)
    case FlyC => CheckConfig(false, 10, 2000, 0, false, true)
    case NoSlowA => CheckConfig(true, 20, 2000, 0, false, true)
    case AutoBlockA => CheckConfig(true, 20, 2000, 0, false, true)
    case EagleA => CheckConfig(true, 10, 2000, 0, false, true)
    case FastBridgeA => CheckConfig(true, 25, 2000, 0, false, true)
    case ScaffoldA => CheckConfig(true, 10, 1000, 0, false, true)
    case TowerA => CheckConfig(true, 10, 2000, 0, false, true)
    case Blink => CheckConfig(true, 7, 1000, 0, false, true)
    case HungerSprint => CheckConfig(true, 7, 1000, 0, false, true)
    case AimA => CheckConfig(true, 10, 1000, 0, false, true)
    case AimB => CheckConfig(true, 8, 1000, 0, false, true)
    case InvalidPitch => CheckConfig(true, 6, 1000, 0, false, true)
    case HitBoxA => CheckConfig(true, 10, 1000, 0, false, true)
    case ReachA => CheckConfig(true, 10, 1000, 0, false, true)
    case GameModeA => CheckConfig(true, 6, 1000, 1, false, true)
    case StrafeA => CheckConfig(true, 10, 1000, 0, false, true)
    case VelocityA => CheckConfig(true, 7, 1000, 2, false, true)
    case AutoClickerA => CheckConfig(false, 0, 0, 0, false, false)
  }

  /** The configuration a fresh install starts from. */
  function DefaultSettings(): Settings {
    Settings(
      map c | c in CheckOrder :: DefaultCheckConfig(c),
      GlobalAlerts(false, 20, 5000),
      RateLimit(true, 20, 300000))
  }

  datatype Vec3 = Vec3(x: real, y: real, z: real)

  const Origin := Vec3(0.0, 0.0, 0.0)

  /** A timestamped position, the basis of the velocity estimate. */
  datatype Sample = Sample(position: Vec3, timestamp: int)

  datatype Identity = Identity(username: string, uuid: string, entityId: int, displayName: string)

  datatype Motion = Motion(
    position: Vec3, lastPosition: Vec3,
    onGround: bool, lastOnGround: bool,
    yaw: real, pitch: real, lastYaw: Option<real>, lastPitch: Option<real>,
    lastPositionData: Option<Sample>, velocity: Vec3,
    fallDistance: real, lastJumpTime: int,
    lastTeleportTime: int, lastVelocityPacketTime: int)

  datatype ShiftKind = ShiftStart | ShiftStop

  /** One crouch transition; stops carry how long the crouch lasted. */
  datatype ShiftEvent = ShiftEvent(kind: ShiftKind, timestamp: int, position: Vec3, duration: Option<int>)

  datatype Status = Status(
    isOnFire: bool, isCrouching: bool, isSprinting: bool,
    isUsingItem: bool, lastUsing: bool, isBlocking: bool, blockingStartTime: int,
    isSwimming: bool, isElytraFlying: bool, isInWater: bool, isInLava: bool,
    isInWeb: bool, isInsideBlock: bool, isOnMagmaBlock: bool, isPassenger: bool,
    swingProgress: int, hurtTime: int, lastDamaged: int,
    hunger: int, latency: int, gameMode: int,
    heldItem: Option<int>,
    shiftEvents: seq<ShiftEvent>, currentShiftStart: Option<int>,
    lastCrouchTime: int, lastStopCrouchTime: int)

  /** Active status effects (effect id to amplifier + 1) and the levels
      derived from them. */
  datatype Effects = Effects(
    active: map<int, int>, speedLevel: int, jumpBoostLevel: int,
    hasJumpBoost: bool, hasSlowFalling: bool)

  /** VelocityA's knockback window. */
  datatype VelocityWindow = VelocityWindow(
    isChecking: bool, checkTicks: int, noChangeTicks: int,
    lastHurtPos: Option<Vec3>, fallDamageDisableTicks: int)

  datatype TowerSample = TowerSample(y: real, time: int)

  /** TowerA's recent (height, time) samples. */
  datatype TowerData = TowerData(history: seq<TowerSample>, lastReset: int)

  /** The detectors' own state, kept in the record. */
  datatype Scratch = Scratch(
    zeroVelocityTicks: int,
    flyCLastVelocityY: Option<real>, flyCRepeatTicks: int,
    velocityA: VelocityWindow,
    itemUseTick: int,
    tower: Option<TowerData>,
    strafeLastMotion: Option<(real, real)>)

  /** Violation bookkeeping: per-check counters and last-alert times, the
      global counter, and the rate limiter's window. */
  datatype Book = Book(
    violations: map<CheckName, int>, lastAlerts: map<CheckName, int>,
    globalViolations: int, lastGlobalAlertTime: int,
    alertCountInWindow: int, alertWindowStartTime: int)

  datatype Player = Player(
    id: Identity, motion: Motion, status: Status, effects: Effects,
    scratch: Scratch, book: Book)

  /** Bookkeeping of a new record: every table check at zero. */
  function FreshBook(): (b: Book)
    ensures forall c :: c in b.violations <==> c in CheckOrder
    ensures forall c :: c in b.lastAlerts <==> c in CheckOrder
    ensures forall c :: c in b.violations ==> b.violations[c] == 0 && b.lastAlerts[c] == 0
    ensures b.globalViolations == 0 && b.alertCountInWindow == 0
  {
    Book(map c | c in CheckOrder :: 0, map c | c in CheckOrder :: 0, 0, 0, 0, 0)
  }

  /** `new PlayerData(username, uuid, entityId)` at time `now`. */
  function NewPlayer(username: string, uuid: string, entityId: int, now: int): (p: Player)
    ensures p.id == Identity(username, uuid, entityId, username)
    ensures p.book == FreshBook()
    ensures p.motion.onGround && p.motion.lastPositionData.None? && p.motion.fallDistance == 0.0
    ensures p.motion.lastTeleportTime == now
    ensures p.status.gameMode == -1 && p.status.hunger == 20
    ensures p.status.shiftEvents == [] && p.scratch.tower.None?
  {
    Player(
      Identity(username, uuid, entityId, username),
      Motion(Origin, Origin, true, true, 0.0, 0.0, None, None, None, Origin, 0.0, 0, now, 0),
      Status(false, false, false, false, false, false, 0,
             false, false, false, false, false, false, false, false,
             0, 0, 0, 20, 0, -1, None, [], None, 0, 0),
      Effects(map[], 0, 0, false, false),
      Scratch(0, None, 0, VelocityWindow(false, 0, 0, None, 0), 0, None, None),
      FreshBook())
  }
}
