/** The per-event detectors and their scheduler
    (plugins/anticheat-1-2-1.js: the CHECKS table, `runChecks`,
    `shouldCheckVelocity`). Square roots are avoided by comparing squares;
    `SquareRootComparison` and `TowerRatioSquared` justify each rewrite. */
module Checks {
  import opened Common
  import opened AcTypes
  import opened Governor
  import opened Tracker

  /** The verdicts of the detectors whose geometry (arc tangents, sines and
      cosines, other players' positions) lies outside this model. */
  datatype Geometry = Geometry(eagle: bool, aim: bool, strafe: bool)

  /** A record after a check, with what the check asked to be shown. */
  datatype Checked = Checked(player: Player, notices: seq<Notice>)

  // ---------------------------------------------------------------------
  // Shared tails

  /** A detection: the governor's violate-and-maybe-alert sequence. */
  function Detect(p: Player, c: CheckName, amount: int, cfg: CheckConfig, s: Settings, now: int): (r: Checked)
    ensures r.player.book.violations == AddViolation(p.book, c, amount).violations
    ensures r.player.(book := p.book) == p
    ensures NonNegative(p.book) && amount >= 0 ==> NonNegative(r.player.book)
  {
    var o := Violate(p.book, c, amount, cfg, s, now);
    Checked(p.(book := o.book), o.notices)
  }

  /** A clean observation: the check's counter decays. */
  function Relax(p: Player, c: CheckName, amount: int): (r: Checked)
    ensures r == Checked(p.(book := ReduceViolation(p.book, c, amount)), [])
  {
    Checked(p.(book := ReduceViolation(p.book, c, amount)), [])
  }

  // ---------------------------------------------------------------------
  // Square-root-free comparisons

  lemma ProductPositive(x: real, y: real)
    requires x > 0.0 && y > 0.0
    ensures x * y > 0.0
  {
  }

  lemma ProductNonNegative(x: real, y: real)
    requires x >= 0.0 && y >= 0.0
    ensures x * y >= 0.0
  {
  }

  /** Squaring keeps the order of non-negative numbers. */
  lemma SquaresOrdered(a: real, b: real)
    requires a >= 0.0 && b >= 0.0
    ensures a > b <==> a * a > b * b
  {
    if a > b {
      ProductPositive(a - b, a + b);
      assert (a - b) * (a + b) == a * a - b * b;
    } else {
      ProductNonNegative(b - a, a + b);
      assert (b - a) * (a + b) == b * b - a * a;
    }
  }

  /** `k * sqrt(q) > bound` is decided by squares: a non-negative root `s`
      exceeds the bound exactly when the bound is negative or the squared
      sides compare the same way. */
  lemma SquareRootComparison(s: real, k: real, bound: real)
    requires s >= 0.0 && k > 0.0
    ensures k * s > bound <==> RootExceeds(s * s, k, bound)
  {
    if bound >= 0.0 {
      ProductNonNegative(k, s);
      SquaresOrdered(k * s, bound);
      ScaledSquare(s, k);
    }
  }

  /** `sqrt(q) * k > bound`, written without the root. */
  predicate RootExceeds(q: real, k: real, bound: real) {
    bound < 0.0 || k * k * q > bound * bound
  }

  /** TowerA's `(h > 0 ? vy / h : vy) >= 0.8` for `h = sqrt(q)`, written
      without the root. */
  predicate TowerRatioOk(vy: real, q: real) {
    if q > 0.0 then vy >= 0.0 && vy * vy >= 0.64 * q else vy >= 0.8
  }

  lemma DivAtLeast(vy: real, s: real, k: real)
    requires s > 0.0
    ensures vy / s >= k <==> vy >= k * s
  {
    var t := vy / s;
    assert t * s == vy;
    if t >= k {
      ProductNonNegative(t - k, s);
      assert (t - k) * s == t * s - k * s;
    } else {
      ProductPositive(k - t, s);
      assert (k - t) * s == k * s - t * s;
    }
  }

  lemma ScaledSquare(s: real, k: real)
    ensures (k * s) * (k * s) == (k * k) * (s * s)
  {
  }

  lemma RatioOkNegative(vy: real, s: real)
    requires s > 0.0 && vy < 0.0
    ensures !TowerRatioOk(vy, s * s)
  {
    ProductPositive(s, s);
  }

  lemma RatioOkNonNegative(vy: real, s: real)
    requires s > 0.0 && vy >= 0.0
    ensures TowerRatioOk(vy, s * s) <==> vy * vy >= 0.64 * (s * s)
  {
    ProductPositive(s, s);
  }

  /** TowerA's ratio test for a non-negative root `s` agrees with its
      square-free form. */
  lemma TowerRatioSquared(vy: real, s: real)
    requires s >= 0.0
    ensures ((if s > 0.0 then vy / s else vy) >= 0.8) <==> TowerRatioOk(vy, s * s)
  {
    if s > 0.0 {
      DivAtLeast(vy, s, 0.8);
      if vy >= 0.0 {
        RatioOkNonNegative(vy, s);
        SquaresOrdered(0.8 * s, vy);
        ScaledSquare(s, 0.8);
        assert (0.8 * s) * (0.8 * s) == 0.64 * (s * s);
      } else {
        RatioOkNegative(vy, s);
      }
    }
  }

  // ---------------------------------------------------------------------
  // The detectors, in table order

  /** The record's detector state is in range. */
  ghost predicate Sound(p: Player) {
    && NonNegative(p.book)
    && WindowOk(p.scratch.velocityA)
    && 0 <= p.scratch.itemUseTick <= 7
    && (p.scratch.tower.Some? ==> |p.scratch.tower.value.history| <= TowerHistoryCap)
  }

  /** The knockback window is well formed: an open window has its anchor
      position and has counted at most ten runs, unchanged ones included. */
  ghost predicate WindowOk(w: VelocityWindow) {
    w.isChecking ==> w.lastHurtPos.Some? && 0 <= w.noChangeTicks <= w.checkTicks <= 10
  }


  /** FlyA: vertical motion stopped in mid-air on two consecutive runs. */
  function FlyACheck(p: Player, cfg: CheckConfig, s: Settings, now: int): (r: Checked)
    ensures var airborne := !p.motion.onGround && !p.status.isInWater && !p.status.isElytraFlying;
      && (airborne && p.motion.velocity.y == 0.0 ==> r.player.scratch.zeroVelocityTicks == p.scratch.zeroVelocityTicks + 1)
      && (!(airborne && p.motion.velocity.y == 0.0) ==> r.player.scratch.zeroVelocityTicks == 0)
      && (airborne && r.player.scratch.zeroVelocityTicks >= 2 ==>
            r.player.book.violations == AddViolation(p.book, FlyA, 1).violations)
      && (airborne && r.player.scratch.zeroVelocityTicks < 2 ==> r.player.book == p.book)
      && (!airborne ==> r.player.book == ReduceViolation(p.book, FlyA, 1))
    ensures Sound(p) ==> Sound(r.player)
    ensures r.player.id == p.id
    ensures r.player.(scratch := p.scratch, book := p.book, motion := p.motion) == p
    ensures r.player.motion.(lastTeleportTime := p.motion.lastTeleportTime) == p.motion
    ensures r.player.book.violations.Keys == p.book.violations.Keys
  {
    if !p.motion.onGround && !p.status.isInWater && !p.status.isElytraFlying then
      var ticks := if p.motion.velocity.y == 0.0 then p.scratch.zeroVelocityTicks + 1 else 0;
      var p1 := p.(scratch := p.scratch.(zeroVelocityTicks := ticks));
      if ticks >= 2 then Detect(p1, FlyA, 1, cfg, s, now) else Checked(p1, [])
    else
      Relax(p.(scratch := p.scratch.(zeroVelocityTicks := 0)), FlyA, 1)
  }

  /** FlyB: swimming outside water. */
  function FlyBCheck(p: Player, cfg: CheckConfig, s: Settings, now: int): (r: Checked)
    ensures p.status.isSwimming && !p.status.isInWater ==>
              r.player.book.violations == AddViolation(p.book, FlyB, 1).violations
    ensures !(p.status.isSwimming && !p.status.isInWater) ==> r == Checked(p, [])
    ensures Sound(p) ==> Sound(r.player)
    ensures r.player.id == p.id
    ensures r.player.(scratch := p.scratch, book := p.book, motion := p.motion) == p
    ensures r.player.motion.(lastTeleportTime := p.motion.lastTeleportTime) == p.motion
    ensures r.player.book.violations.Keys == p.book.violations.Keys
  {
    if p.status.isSwimming && !p.status.isInWater then Detect(p, FlyB, 1, cfg, s, now)
    else Checked(p, [])
  }

  /** The number of consecutive mid-air runs FlyC needs to see the same
      vertical speed on. */
  const FlyCMinRepeatTicks := 10

  /** FlyC: the same vertical speed in mid-air on many consecutive runs. A
      speed never equals the absent (null) previous speed. */
  function FlyCCheck(p: Player, cfg: CheckConfig, s: Settings, now: int): (r: Checked)
    ensures var airborne := !p.motion.onGround && !p.status.isInWater;
      && (airborne ==> r.player.scratch.flyCLastVelocityY == Some(p.motion.velocity.y))
      && (airborne && p.scratch.flyCLastVelocityY == Some(p.motion.velocity.y) ==>
            r.player.scratch.flyCRepeatTicks == p.scratch.flyCRepeatTicks + 1)
      && (airborne && p.scratch.flyCLastVelocityY != Some(p.motion.velocity.y) ==>
            r.player.scratch.flyCRepeatTicks == 0)
      && (!airborne ==> r.player.scratch.flyCRepeatTicks == 0 && r.player.book == p.book)
      && (r.player.book != p.book ==> r.player.scratch.flyCRepeatTicks >= FlyCMinRepeatTicks)
    ensures !p.motion.onGround && !p.status.isInWater && p.scratch.flyCLastVelocityY == Some(p.motion.velocity.y)
              && p.scratch.flyCRepeatTicks + 1 >= FlyCMinRepeatTicks ==>
              r.player.book.violations == AddViolation(p.book, FlyC, 1).violations
    ensures Sound(p) ==> Sound(r.player)
    ensures r.player.id == p.id
    ensures r.player.(scratch := p.scratch, book := p.book, motion := p.motion) == p
    ensures r.player.motion.(lastTeleportTime := p.motion.lastTeleportTime) == p.motion
    ensures r.player.book.violations.Keys == p.book.violations.Keys
  {
    if !p.motion.onGround && !p.status.isInWater then
      var vy := p.motion.velocity.y;
      var ticks := if p.scratch.flyCLastVelocityY == Some(vy) then p.scratch.flyCRepeatTicks + 1 else 0;
      var p1 := p.(scratch := p.scratch.(flyCRepeatTicks := ticks, flyCLastVelocityY := Some(vy)));
      if ticks >= FlyCMinRepeatTicks then Detect(p1, FlyC, 1, cfg, s, now) else Checked(p1, [])
    else Checked(p.(scratch := p.scratch.(flyCRepeatTicks := 0)), [])
  }

  /** NoSlowA's table of allowed speeds (blocks per second) by how many runs
      an item has been in use; an index outside it reads `undefined`. */
  function SlowSpeed(tick: int): (r: Option<real>)
    ensures r.Some? <==> 0 <= tick < 8
    ensures r.Some? ==> r.value >= 1.16
  {
    var table := [2.56, 1.92, 1.6, 1.4, 1.36, 1.26, 1.18, 1.16];
    if 0 <= tick < |table| then Some(table[tick]) else None
  }

  /** NoSlowA: moving on the ground faster than item use allows. Skipped for
      750 ms after a jump; leaving the ground resets the use counter. */
  function NoSlowACheck(p: Player, cfg: CheckConfig, s: Settings, now: int): (r: Checked)
    ensures now - p.motion.lastJumpTime < 750 ==> r == Checked(p, [])
    ensures now - p.motion.lastJumpTime >= 750 && !p.motion.onGround ==>
              r == Checked(p.(scratch := p.scratch.(itemUseTick := 0)), [])
    ensures now - p.motion.lastJumpTime >= 750 && p.motion.onGround ==>
              && r.player.scratch.itemUseTick == (if p.status.isUsingItem && p.status.lastUsing
                                                  then Min(7, p.scratch.itemUseTick + 1) else 0)
              && (r.player.scratch.itemUseTick <= 0 ==> r.player.book == ReduceViolation(p.book, NoSlowA, 1))
              && (r.player.scratch.itemUseTick > 0 ==>
                    var dx := p.motion.position.x - p.motion.lastPosition.x;
                    var dz := p.motion.position.z - p.motion.lastPosition.z;
                    var slow := SlowSpeed(r.player.scratch.itemUseTick).value;
                    if RootExceeds(dx * dx + dz * dz, 20.0, slow * (1.0 + p.effects.speedLevel as real * 0.2) + 1.0)
                    then r.player.book.violations == AddViolation(p.book, NoSlowA, 1).violations
                    else r.player.book == p.book)
    ensures 0 <= p.scratch.itemUseTick <= 7 ==> 0 <= r.player.scratch.itemUseTick <= 7
    ensures r.player.book.violations.Keys == p.book.violations.Keys
    ensures Sound(p) ==> Sound(r.player)
    ensures r.player.id == p.id
    ensures r.player.(scratch := p.scratch, book := p.book, motion := p.motion) == p
    ensures r.player.motion.(lastTeleportTime := p.motion.lastTeleportTime) == p.motion
  {
    if now - p.motion.lastJumpTime < 750 then Checked(p, [])
    else if !p.motion.onGround then Checked(p.(scratch := p.scratch.(itemUseTick := 0)), [])
    else
      var tick := if p.status.isUsingItem && p.status.lastUsing then Min(7, p.scratch.itemUseTick + 1) else 0;
      var p1 := p.(scratch := p.scratch.(itemUseTick := tick));
      if tick > 0 then
        var dx := p.motion.position.x - p.motion.lastPosition.x;
        var dz := p.motion.position.z - p.motion.lastPosition.z;
        match SlowSpeed(tick)
        case Some(slow) =>
          var possible := slow * (1.0 + p.effects.speedLevel as real * 0.2) + 1.0;
          if RootExceeds(dx * dx + dz * dz, 20.0, possible) then Detect(p1, NoSlowA, 1, cfg, s, now)
          else Checked(p1, [])
        case None => Checked(p1, [])
      else Relax(p1, NoSlowA, 1)
  }

  /** EagleA: the verdict is geometric; a miss decays the counter by 3. */
  function EagleACheck(p: Player, cfg: CheckConfig, s: Settings, now: int, g: Geometry): (r: Checked)
    ensures g.eagle ==> r.player.book.violations == AddViolation(p.book, EagleA, 3).violations
    ensures !g.eagle ==> r == Relax(p, EagleA, 3)
    ensures Sound(p) ==> Sound(r.player)
    ensures r.player.id == p.id
    ensures r.player.(scratch := p.scratch, book := p.book, motion := p.motion) == p
    ensures r.player.motion.(lastTeleportTime := p.motion.lastTeleportTime) == p.motion
    ensures r.player.book.violations.Keys == p.book.violations.Keys
  {
    if g.eagle then Detect(p, EagleA, 3, cfg, s, now) else Relax(p, EagleA, 3)
  }

  /** FastBridgeA's pattern: looking down, placing, fast, upright and flat. */
  predicate FastBridgePattern(p: Player) {
    var v := p.motion.velocity;
    && p.motion.pitch >= 25.0
    && p.status.swingProgress > 0 && IsHoldingBlock(p.status)
    && RootExceeds(v.x * v.x + v.z * v.z, 1.0, 5.0)
    && !p.status.isCrouching
    && Abs(v.y) < 0.1
  }

  /** FastBridgeA: above height 100 the player is taken to be dead and the
      counter only decays. */
  function FastBridgeACheck(p: Player, cfg: CheckConfig, s: Settings, now: int): (r: Checked)
    ensures p.motion.position.y <= 100.0 && FastBridgePattern(p) ==>
              r.player.book.violations == AddViolation(p.book, FastBridgeA, 1).violations
    ensures p.motion.position.y > 100.0 || !FastBridgePattern(p) ==> r == Relax(p, FastBridgeA, 1)
    ensures Sound(p) ==> Sound(r.player)
    ensures r.player.id == p.id
    ensures r.player.(scratch := p.scratch, book := p.book, motion := p.motion) == p
    ensures r.player.motion.(lastTeleportTime := p.motion.lastTeleportTime) == p.motion
    ensures r.player.book.violations.Keys == p.book.violations.Keys
  {
    if p.motion.position.y > 100.0 then Relax(p, FastBridgeA, 1)
    else if FastBridgePattern(p) then Detect(p, FastBridgeA, 1, cfg, s, now)
    else Relax(p, FastBridgeA, 1)
  }

  /** How many samples TowerA keeps, and how many it needs to judge. */
  const TowerHistoryCap := 15
  const TowerMinSamples := 8

  /** Consecutive pairs in which the height rises. */
  function RiseCount(h: seq<TowerSample>): (n: nat)
    ensures h != [] ==> n <= |h| - 1
    decreases |h|
  {
    if |h| < 2 then 0
    else (if h[1].y > h[0].y then 1 else 0) + RiseCount(h[1..])
  }

  /** A tower: at least 80% of the steps rise, at least three blocks are
      gained, over 0.4 to 1.5 seconds. */
  predicate TowerPattern(h: seq<TowerSample>)
    requires |h| >= 2
  {
    var span := (h[|h| - 1].time - h[0].time) as real / 1000.0;
    && (RiseCount(h) as real) / ((|h| - 1) as real) >= 0.8
    && h[|h| - 1].y - h[0].y >= 3.0
    && 0.4 <= span <= 1.5
  }

  /** The conditions under which TowerA records a sample. */
  predicate TowerSampleWanted(p: Player, now: int) {
    var v := p.motion.velocity;
    && p.motion.pitch >= 30.0
    && p.status.swingProgress > 0 && IsHoldingBlock(p.status)
    && v.y > 5.5
    && TowerRatioOk(v.y, v.x * v.x + v.z * v.z)
    && !p.effects.hasJumpBoost
    && !(p.status.lastDamaged > 0 && now - p.status.lastDamaged < 500)
  }

  /** TowerA: the history is created on first use, emptied when more than two
      seconds have passed since its last reset, and grows by one capped
      sample on each qualifying run; with eight or more samples it is judged. */
  function TowerACheck(p: Player, cfg: CheckConfig, s: Settings, now: int): (r: Checked)
    ensures r.player.scratch.tower.Some?
    ensures var h := r.player.scratch.tower.value.history;
      && ((p.scratch.tower.None? || |p.scratch.tower.value.history| <= TowerHistoryCap) ==> |h| <= TowerHistoryCap)
      && (|h| < TowerMinSamples ==> r.player.book == p.book && r.notices == [])
      && (|h| >= TowerMinSamples && TowerPattern(h) ==>
            r.player.book.violations == AddViolation(p.book, TowerA, 2).violations)
      && (|h| >= TowerMinSamples && !TowerPattern(h) ==> r.player.book == ReduceViolation(p.book, TowerA, 1))
    ensures TowerSampleWanted(p, now) ==>
              var h := r.player.scratch.tower.value.history;
              h != [] && h[|h| - 1] == TowerSample(p.motion.position.y, now)
    ensures Sound(p) ==> Sound(r.player)
    ensures r.player.id == p.id
    ensures r.player.(scratch := p.scratch, book := p.book, motion := p.motion) == p
    ensures r.player.motion.(lastTeleportTime := p.motion.lastTeleportTime) == p.motion
    ensures r.player.book.violations.Keys == p.book.violations.Keys
  {
    var td0 := p.scratch.tower.GetOr(TowerData([], now));
    var td1 := if now - td0.lastReset > 2000 then TowerData([], now) else td0;
    var h := if TowerSampleWanted(p, now)
             then PushBounded(td1.history, TowerSample(p.motion.position.y, now), TowerHistoryCap)
             else td1.history;
    var p1 := p.(scratch := p.scratch.(tower := Some(TowerData(h, td1.lastReset))));
    if |h| >= TowerMinSamples then
      if TowerPattern(h) then Detect(p1, TowerA, 2, cfg, s, now) else Relax(p1, TowerA, 1)
    else Checked(p1, [])
  }

  /** How far a record may move between two updates before Blink suspects
      held-back packets: `8 * (1 + 0.2 * speed) + fallDistance + 1`. */
  function BlinkAllowance(p: Player): real {
    8.0 * (1.0 + p.effects.speedLevel as real * 0.2) + p.motion.fallDistance + 1.0
  }

  /** Blink: a jump longer than the allowance. Spectators keep restarting
      the teleport grace; the first three seconds after a teleport and a
      record without a sample are skipped. */
  function BlinkCheck(p: Player, cfg: CheckConfig, s: Settings, now: int): (r: Checked)
    ensures p.status.gameMode == 3 ==> r == Checked(Teleport(p, now), [])
    ensures p.status.gameMode != 3 && (now - p.motion.lastTeleportTime < 3000 || p.motion.lastPositionData.None?) ==>
              r == Checked(p, [])
    ensures r.player.book != p.book ==>
              var d := p.motion.position;
              var e := p.motion.lastPosition;
              RootExceeds((d.x - e.x) * (d.x - e.x) + (d.y - e.y) * (d.y - e.y) + (d.z - e.z) * (d.z - e.z),
                          1.0, BlinkAllowance(p))
    ensures p.status.gameMode != 3 && now - p.motion.lastTeleportTime >= 3000 && p.motion.lastPositionData.Some? ==>
              var d := p.motion.position;
              var e := p.motion.lastPosition;
              RootExceeds((d.x - e.x) * (d.x - e.x) + (d.y - e.y) * (d.y - e.y) + (d.z - e.z) * (d.z - e.z),
                          1.0, BlinkAllowance(p)) ==>
              r.player.book.violations == AddViolation(p.book, Blink, 1).violations
    ensures Sound(p) ==> Sound(r.player)
    ensures r.player.id == p.id
    ensures r.player.(scratch := p.scratch, book := p.book, motion := p.motion) == p
    ensures r.player.motion.(lastTeleportTime := p.motion.lastTeleportTime) == p.motion
    ensures r.player.book.violations.Keys == p.book.violations.Keys
  {
    if p.status.gameMode == 3 then Checked(Teleport(p, now), [])
    else if now - p.motion.lastTeleportTime < 3000 then Checked(p, [])
    else if p.motion.lastPositionData.None? then Checked(p, [])
    else
      var d := p.motion.position;
      var e := p.motion.lastPosition;
      var q := (d.x - e.x) * (d.x - e.x) + (d.y - e.y) * (d.y - e.y) + (d.z - e.z) * (d.z - e.z);
      if RootExceeds(q, 1.0, BlinkAllowance(p)) then Detect(p, Blink, 1, cfg, s, now)
      else Checked(p, [])
  }

  /** HungerSprint: sprinting at hunger 6 or below. */
  function HungerSprintCheck(p: Player, cfg: CheckConfig, s: Settings, now: int): (r: Checked)
    ensures p.status.isSprinting && p.status.hunger <= 6 ==>
              r.player.book.violations == AddViolation(p.book, HungerSprint, 1).violations
    ensures !(p.status.isSprinting && p.status.hunger <= 6) ==> r == Checked(p, [])
    ensures Sound(p) ==> Sound(r.player)
    ensures r.player.id == p.id
    ensures r.player.(scratch := p.scratch, book := p.book, motion := p.motion) == p
    ensures r.player.motion.(lastTeleportTime := p.motion.lastTeleportTime) == p.motion
    ensures r.player.book.violations.Keys == p.book.violations.Keys
  {
    if p.status.isSprinting && p.status.hunger <= 6 then Detect(p, HungerSprint, 1, cfg, s, now)
    else Checked(p, [])
  }

  /** AimA: the verdict is geometric. */
  function AimACheck(p: Player, cfg: CheckConfig, s: Settings, now: int, g: Geometry): (r: Checked)
    ensures g.aim ==> r.player.book.violations == AddViolation(p.book, AimA, 1).violations
    ensures !g.aim ==> r == Checked(p, [])
    ensures Sound(p) ==> Sound(r.player)
    ensures r.player.id == p.id
    ensures r.player.(scratch := p.scratch, book := p.book, motion := p.motion) == p
    ensures r.player.motion.(lastTeleportTime := p.motion.lastTeleportTime) == p.motion
    ensures r.player.book.violations.Keys == p.book.violations.Keys
  {
    if g.aim then Detect(p, AimA, 1, cfg, s, now) else Checked(p, [])
  }

  /** A rotation of `delta` degrees lies within 3 degrees of one of `steps`. */
  predicate SnapsTo(delta: real, steps: seq<real>) {
    exists i | 0 <= i < |steps| :: Abs(delta - steps[i]) < 3.0
  }

  const YawSteps: seq<real> := [90.0, 135.0, 180.0]
  const PitchSteps: seq<real> := [90.0, 135.0]

  /** AimB's verdict on one rotation change. */
  predicate AimSnap(p: Player)
    requires p.motion.lastYaw.Some? && p.motion.lastPitch.Some?
  {
    || SnapsTo(Abs(p.motion.yaw - p.motion.lastYaw.value), YawSteps)
    || SnapsTo(Abs(p.motion.pitch - p.motion.lastPitch.value), PitchSteps)
  }

  /** AimB: an instantaneous, suspiciously exact rotation. Skipped for three
      seconds after a teleport and until both previous angles are known. */
  function AimBCheck(p: Player, cfg: CheckConfig, s: Settings, now: int): (r: Checked)
    ensures now - p.motion.lastTeleportTime < 3000 || p.motion.lastYaw.None? || p.motion.lastPitch.None? ==>
              r == Checked(p, [])
    ensures now - p.motion.lastTeleportTime >= 3000 && p.motion.lastYaw.Some? && p.motion.lastPitch.Some? ==>
              r.player.book.violations == (if AimSnap(p) then AddViolation(p.book, AimB, 1) else p.book).violations
    ensures Sound(p) ==> Sound(r.player)
    ensures r.player.id == p.id
    ensures r.player.(scratch := p.scratch, book := p.book, motion := p.motion) == p
    ensures r.player.motion.(lastTeleportTime := p.motion.lastTeleportTime) == p.motion
    ensures r.player.book.violations.Keys == p.book.violations.Keys
  {
    if now - p.motion.lastTeleportTime < 3000 then Checked(p, [])
    else if p.motion.lastYaw.None? || p.motion.lastPitch.None? then Checked(p, [])
    else if AimSnap(p) then Detect(p, AimB, 1, cfg, s, now)
    else Checked(p, [])
  }

  /** InvalidPitch: a pitch outside [-90, 90]. */
  function InvalidPitchCheck(p: Player, cfg: CheckConfig, s: Settings, now: int): (r: Checked)
    ensures -90.0 <= p.motion.pitch <= 90.0 ==> r == Checked(p, [])
    ensures !(-90.0 <= p.motion.pitch <= 90.0) ==>
              r.player.book.violations == AddViolation(p.book, InvalidPitch, 1).violations
    ensures Sound(p) ==> Sound(r.player)
    ensures r.player.id == p.id
    ensures r.player.(scratch := p.scratch, book := p.book, motion := p.motion) == p
    ensures r.player.motion.(lastTeleportTime := p.motion.lastTeleportTime) == p.motion
    ensures r.player.book.violations.Keys == p.book.violations.Keys
  {
    if p.motion.pitch > 90.0 || p.motion.pitch < -90.0 then Detect(p, InvalidPitch, 1, cfg, s, now)
    else Checked(p, [])
  }

  /** StrafeA: the verdict is geometric. */
  function StrafeACheck(p: Player, cfg: CheckConfig, s: Settings, now: int, g: Geometry): (r: Checked)
    ensures g.strafe ==> r.player.book.violations == AddViolation(p.book, StrafeA, 1).violations
    ensures !g.strafe ==> r == Checked(p, [])
    ensures Sound(p) ==> Sound(r.player)
    ensures r.player.id == p.id
    ensures r.player.(scratch := p.scratch, book := p.book, motion := p.motion) == p
    ensures r.player.motion.(lastTeleportTime := p.motion.lastTeleportTime) == p.motion
    ensures r.player.book.violations.Keys == p.book.violations.Keys
  {
    if g.strafe then Detect(p, StrafeA, 1, cfg, s, now) else Checked(p, [])
  }

  const PoisonEffect := 19
  const WitherEffect := 20
  const LevitationEffect := 25

  /** `shouldCheckVelocity`: nothing else explains a missing knockback. */
  predicate ShouldCheckVelocity(p: Player, now: int) {
    var st := p.status;
    !(|| st.isElytraFlying || st.isPassenger || st.isOnFire || st.isInWeb || st.isInWater
      || st.isInLava || st.isInsideBlock || st.isOnMagmaBlock || p.effects.hasSlowFalling
      || now - p.motion.lastVelocityPacketTime < 2000
      || st.hunger == 0
      || PoisonEffect in p.effects.active || WitherEffect in p.effects.active
      || LevitationEffect in p.effects.active)
  }

  /** How many unchanged runs VelocityA tolerates at a given latency. */
  function MaxNoChangeTicks(latency: int): (n: int)
    ensures (n - 2) * 50 < latency <= (n - 1) * 50
  {
    CeilDiv(latency, 50) + 1
  }

  /** VelocityA: the bounce suppression counts down first; otherwise, when
      nothing excuses it, the first hurt tick opens a window anchored at the
      current position, and a window that sees the player stay put for more
      runs than the latency allows flags once and closes. A window closes
      by itself after more than ten runs. */
  function VelocityACheck(p: Player, cfg: CheckConfig, s: Settings, now: int): (r: Checked)
    ensures p.scratch.velocityA.fallDamageDisableTicks > 0 ==>
              r == Checked(p.(scratch := p.scratch.(velocityA := p.scratch.velocityA.(
                     fallDamageDisableTicks := p.scratch.velocityA.fallDamageDisableTicks - 1))), [])
    ensures p.scratch.velocityA.fallDamageDisableTicks <= 0 && !ShouldCheckVelocity(p, now) ==> r == Checked(p, [])
    ensures WindowOk(p.scratch.velocityA) ==> WindowOk(r.player.scratch.velocityA)
    ensures r.player.book != p.book ==>
              && p.scratch.velocityA.fallDamageDisableTicks <= 0 && ShouldCheckVelocity(p, now)
              && r.player.scratch.velocityA.noChangeTicks > MaxNoChangeTicks(p.status.latency)
              && !r.player.scratch.velocityA.isChecking
    ensures var w := p.scratch.velocityA;
            && w.fallDamageDisableTicks <= 0 && ShouldCheckVelocity(p, now)
            && w.isChecking && p.status.hurtTime != 9 && w.lastHurtPos == Some(p.motion.position)
            && w.noChangeTicks + 1 > MaxNoChangeTicks(p.status.latency) ==>
              && r.player.book.violations == AddViolation(p.book, VelocityA, 1).violations
              && !r.player.scratch.velocityA.isChecking
    ensures var w := p.scratch.velocityA;
            && w.fallDamageDisableTicks <= 0 && ShouldCheckVelocity(p, now)
            && w.isChecking && p.status.hurtTime != 9 && w.lastHurtPos.Some?
            && w.noChangeTicks + 1 <= MaxNoChangeTicks(p.status.latency) ==>
              r.player.book == p.book
    ensures r.player.book.violations.Keys == p.book.violations.Keys
    ensures Sound(p) ==> Sound(r.player)
    ensures r.player.id == p.id
    ensures r.player.(scratch := p.scratch, book := p.book, motion := p.motion) == p
    ensures r.player.motion.(lastTeleportTime := p.motion.lastTeleportTime) == p.motion
  {
    var w := p.scratch.velocityA;
    if w.fallDamageDisableTicks > 0 then
      Checked(p.(scratch := p.scratch.(velocityA := w.(fallDamageDisableTicks := w.fallDamageDisableTicks - 1))), [])
    else if !ShouldCheckVelocity(p, now) then Checked(p, [])
    else
      var w1 := if p.status.hurtTime == 9
                then w.(isChecking := true, checkTicks := 0, noChangeTicks := 0, lastHurtPos := Some(p.motion.position))
                else w;
      if !w1.isChecking then Checked(p, [])
      else
        var w2 := w1.(checkTicks := w1.checkTicks + 1);
        match w2.lastHurtPos
        case None =>
          // reading the anchor of a window without one throws; the count
          // taken before it stays
          Checked(p.(scratch := p.scratch.(velocityA := w2)), [])
        case Some(anchor) =>
          var w3 := if p.motion.position == anchor then w2.(noChangeTicks := w2.noChangeTicks + 1) else w2;
          var flagged := w3.noChangeTicks > MaxNoChangeTicks(p.status.latency);
          var w4 := if flagged then w3.(isChecking := false) else w3;
          var w5 := if w4.checkTicks > 10 then w4.(isChecking := false) else w4;
          var p1 := p.(scratch := p.scratch.(velocityA := w5));
          if flagged then Detect(p1, VelocityA, 1, cfg, s, now) else Checked(p1, [])
  }

  // ---------------------------------------------------------------------
  // The scheduler

  /** `q` differs from `p` only in what the detectors own: their scratch
      state, the violation book (same checks tracked) and the teleport
      stamp Blink restarts for spectators. */
  predicate DetectorsOnly(p: Player, q: Player) {
    && q.(scratch := p.scratch, book := p.book, motion := p.motion) == p
    && q.motion.(lastTeleportTime := p.motion.lastTeleportTime) == p.motion
    && q.book.violations.Keys == p.book.violations.Keys
  }

  /** One table entry's `check` function; the entries whose work happens
      elsewhere (or nowhere) leave the record alone. */
  function RunCheck(c: CheckName, p: Player, cfg: CheckConfig, s: Settings, now: int, g: Geometry): (r: Checked)
    ensures Sound(p) ==> Sound(r.player)
    ensures DetectorsOnly(p, r.player)
  {
    match c
    case FlyA => FlyACheck(p, cfg, s, now)
    case FlyB => FlyBCheck(p, cfg, s, now)
    case FlyC => FlyCCheck(p, cfg, s, now)
    case NoSlowA => NoSlowACheck(p, cfg, s, now)
    case EagleA => EagleACheck(p, cfg, s, now, g)
    case FastBridgeA => FastBridgeACheck(p, cfg, s, now)
    case TowerA => TowerACheck(p, cfg, s, now)
    case Blink => BlinkCheck(p, cfg, s, now)
    case HungerSprint => HungerSprintCheck(p, cfg, s, now)
    case AimA => AimACheck(p, cfg, s, now, g)
    case AimB => AimBCheck(p, cfg, s, now)
    case InvalidPitch => InvalidPitchCheck(p, cfg, s, now)
    case StrafeA => StrafeACheck(p, cfg, s, now, g)
    case VelocityA => VelocityACheck(p, cfg, s, now)
    case _ => Checked(p, [])
  }

  /** A check runs when its configuration exists and is enabled. */
  predicate Enabled(s: Settings, c: CheckName) {
    c in s.checks && s.checks[c].enabled
  }

  /** Runs the enabled checks among `order`, in order, collecting notices. */
  function RunAll(order: seq<CheckName>, p: Player, s: Settings, now: int, g: Geometry): (r: Checked)
    decreases |order|
    ensures Sound(p) ==> Sound(r.player)
    ensures DetectorsOnly(p, r.player)
  {
    if order == [] then Checked(p, [])
    else
      var c := order[0];
      var first := if Enabled(s, c) then RunCheck(c, p, s.checks[c], s, now, g) else Checked(p, []);
      var rest := RunAll(order[1..], first.player, s, now, g);
      Checked(rest.player, first.notices + rest.notices)
  }

  /** `runChecks`: nothing at all happens before the grace period ends. */
  function RunChecks(p: Player, s: Settings, gracePeriodEnd: int, now: int, g: Geometry): (r: Checked)
    ensures now < gracePeriodEnd ==> r == Checked(p, [])
    ensures Sound(p) ==> Sound(r.player)
    ensures DetectorsOnly(p, r.player)
  {
    if now < gracePeriodEnd then Checked(p, []) else RunAll(CheckOrder, p, s, now, g)
  }

  // ---------------------------------------------------------------------
  // Invariants the detectors keep

  lemma NewPlayerIsSound(username: string, uuid: string, entityId: int, now: int)
    ensures Sound(NewPlayer(username, uuid, entityId, now))
  {
  }

  // ---------------------------------------------------------------------
  // Scenarios

  /** Landing after a fall of more than three blocks makes the next two
      VelocityA runs count the suppression down and do nothing else. */
  lemma LandingSuppressesTwoVelocityRuns(p: Player, to: Vec3, yaw: Option<real>, pitch: Option<real>,
                                         cfg: CheckConfig, s: Settings, now: int, later: int)
    requires p.motion.fallDistance > 3.0
    ensures var landed := UpdatePosition(p, to, true, yaw, pitch, now);
      var r1 := VelocityACheck(landed, cfg, s, later);
      var r2 := VelocityACheck(r1.player, cfg, s, later);
      && r1.notices == [] && r2.notices == []
      && r2.player.book == landed.book
      && r2.player.scratch.velocityA == landed.scratch.velocityA.(fallDamageDisableTicks := 0)
  {
  }

  /** A player hit at zero latency who stays exactly where the hit found
      them is flagged on the second VelocityA run. */
  lemma StandingStillAfterHitFlags(p: Player, cfg: CheckConfig, s: Settings, now: int)
    requires p.scratch.velocityA.fallDamageDisableTicks <= 0 && ShouldCheckVelocity(p, now)
    requires p.status.hurtTime == 9 && p.status.latency == 0
    requires VelocityA in p.book.violations
    ensures var r1 := VelocityACheck(p, cfg, s, now);
      var r2 := VelocityACheck(Tick(r1.player), cfg, s, now);
      && r1.player.book == p.book
      && r2.player.book.violations[VelocityA] == p.book.violations[VelocityA] + 1
      && !r2.player.scratch.velocityA.isChecking
  {
    var r1 := VelocityACheck(p, cfg, s, now);
    assert r1.player.scratch.velocityA.noChangeTicks == 1;
    assert ShouldCheckVelocity(Tick(r1.player), now);
  }

  /** FlyA needs two consecutive mid-air runs without vertical motion. */
  lemma FlyAFlagsOnSecondStillRun(p: Player, cfg: CheckConfig, s: Settings, now: int)
    requires !p.motion.onGround && !p.status.isInWater && !p.status.isElytraFlying
    requires p.motion.velocity.y == 0.0 && p.scratch.zeroVelocityTicks == 0
    requires FlyA in p.book.violations
    ensures var r1 := FlyACheck(p, cfg, s, now);
      var r2 := FlyACheck(r1.player, cfg, s, now);
      && r1.player.book == p.book
      && r2.player.book.violations[FlyA] == p.book.violations[FlyA] + 1
  {
  }

  /** A right-angle turn is an AimB snap; turns that stay more than three
      degrees short of 90 in both directions are not. */
  lemma AimBSnapBoundaries(p: Player)
    requires p.motion.lastYaw.Some? && p.motion.lastPitch.Some?
    ensures Abs(p.motion.yaw - p.motion.lastYaw.value) == 90.0 ==> AimSnap(p)
    ensures (Abs(p.motion.yaw - p.motion.lastYaw.value) <= 87.0
             && Abs(p.motion.pitch - p.motion.lastPitch.value) <= 87.0) ==> !AimSnap(p)
  {
    if Abs(p.motion.yaw - p.motion.lastYaw.value) == 90.0 {
      assert Abs(Abs(p.motion.yaw - p.motion.lastYaw.value) - YawSteps[0]) < 3.0;
    }
  }

  /** The samples rise at every step. */
  ghost predicate StrictlyRising(h: seq<TowerSample>) {
    forall i, j :: 0 <= i < j < |h| ==> h[i].y < h[j].y
  }

  /** In a strictly rising history every step is a rise. */
  lemma {:induction false} RisingCountsEveryStep(h: seq<TowerSample>)
    requires |h| >= 1 && StrictlyRising(h)
    ensures RiseCount(h) == |h| - 1
    decreases |h|
  {
    if |h| >= 2 {
      assert StrictlyRising(h[1..]) by {
        forall i, j | 0 <= i < j < |h[1..]| ensures h[1..][i].y < h[1..][j].y {
          assert h[1..][i] == h[i + 1] && h[1..][j] == h[j + 1];
        }
      }
      RisingCountsEveryStep(h[1..]);
    }
  }

  /** A steady climb of at least three blocks over 0.4 to 1.5 seconds is a
      tower. */
  lemma SteadyClimbIsTower(h: seq<TowerSample>)
    requires |h| >= 2 && StrictlyRising(h)
    requires h[|h| - 1].y - h[0].y >= 3.0
    requires 400 <= h[|h| - 1].time - h[0].time <= 1500
    ensures TowerPattern(h)
  {
    RisingCountsEveryStep(h);
  }
}
