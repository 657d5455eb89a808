/** The violation and alert governor shared by every check
    (plugins/anticheat-1-2-1.js, AnticheatSystem: addViolation,
    reduceViolation, shouldAlert, markAlert, flag, handleGlobalViolations,
    canSendAlert, incrementAlertCount, flushViolations). It works on a
    player's `Book` alone. */
module Governor {
  import opened Common
  import opened AcTypes

  /** What the governor hands to the presentation layer. */
  datatype Notice =
    | Alert(check: CheckName, vl: int)    // "<player> flagged <check> (VL: n)"
    | SuspiciousPlayer                    // the aggregated-mode alert
    | AutoReport(check: CheckName)        // the automatic report command

  datatype Outcome = Outcome(book: Book, notices: seq<Notice>)

  /** Every counter the governor keeps is non-negative. */
  ghost predicate NonNegative(b: Book) {
    && (forall c :: c in b.violations ==> b.violations[c] >= 0)
    && b.globalViolations >= 0
  }

  /** Nothing but the per-check counter of `c` and the global counter differ. */
  ghost predicate OnlyCountersOf(b: Book, r: Book, c: CheckName) {
    && r.violations.Keys == b.violations.Keys
    && (forall d :: d in b.violations && d != c ==> r.violations[d] == b.violations[d])
    && r.lastAlerts == b.lastAlerts
    && r.lastGlobalAlertTime == b.lastGlobalAlertTime
    && r.alertCountInWindow == b.alertCountInWindow
    && r.alertWindowStartTime == b.alertWindowStartTime
  }

  /** `addViolation`: the check's counter and the global counter both grow
      by `amount`; a name without a counter changes nothing. */
  function AddViolation(b: Book, c: CheckName, amount: int): (r: Book)
    ensures c in b.violations ==> OnlyCountersOf(b, r, c)
    ensures c in b.violations ==> r.violations[c] - b.violations[c] == amount
    ensures c in b.violations ==> r.globalViolations - b.globalViolations == amount
    ensures c !in b.violations ==> r == b
  {
    if c in b.violations then
      b.(violations := b.violations[c := b.violations[c] + amount],
         globalViolations := b.globalViolations + amount)
    else b
  }

  /** `reduceViolation`: the check's counter drops by `amount` but not below
      zero; the global counter is left alone. */
  function ReduceViolation(b: Book, c: CheckName, amount: int): (r: Book)
    ensures c in b.violations ==> OnlyCountersOf(b, r, c)
    ensures c in b.violations ==> r.violations[c] >= 0
    ensures c in b.violations && b.violations[c] >= amount ==> r.violations[c] == b.violations[c] - amount
    ensures c in b.violations && b.violations[c] < amount ==> r.violations[c] == 0
    ensures r.globalViolations == b.globalViolations
    ensures c !in b.violations ==> r == b
  {
    if c in b.violations then
      b.(violations := b.violations[c := Max(0, b.violations[c] - amount)])
    else b
  }

  /** The buffer the governor uses: an absent (zero) setting means 1. */
  function EffectiveBuffer(cfg: CheckConfig): (buf: int)
    ensures buf != 0
    ensures cfg.alertBuffer != 0 ==> buf == cfg.alertBuffer
  {
    if cfg.alertBuffer == 0 then 1 else cfg.alertBuffer
  }

  /** The check's cooldown has passed since its last alert. */
  predicate CooldownPassed(b: Book, c: CheckName, cfg: CheckConfig, now: int) {
    c in b.lastAlerts && now - b.lastAlerts[c] > cfg.cooldown
  }

  /** `shouldAlert`: the counter sits exactly on the threshold, or above it
      on a multiple of the buffer (the raw counter, not its excess over the
      threshold), and the cooldown has passed. */
  predicate ShouldAlert(b: Book, c: CheckName, cfg: CheckConfig, now: int) {
    if c !in b.violations then false
    else
      var v := b.violations[c];
      if v == cfg.vl then CooldownPassed(b, c, cfg, now)
      else if v > cfg.vl then TruncRem(v, EffectiveBuffer(cfg)) == 0 && CooldownPassed(b, c, cfg, now)
      else false
  }

  /** `markAlert`: stamps the check's last-alert time. */
  function MarkAlert(b: Book, c: CheckName, now: int): (r: Book)
    ensures c in b.lastAlerts ==> r.lastAlerts == b.lastAlerts[c := now]
    ensures c !in b.lastAlerts ==> r == b
    ensures r.violations == b.violations && r.globalViolations == b.globalViolations
  {
    if c in b.lastAlerts then b.(lastAlerts := b.lastAlerts[c := now]) else b
  }

  /** `canSendAlert`: the limiter is off, the window has run out, or the
      window still has room. */
  predicate CanSendAlert(b: Book, rate: RateLimit, now: int) {
    if !rate.enabled then true
    else if now - b.alertWindowStartTime > rate.timeWindow then true
    else b.alertCountInWindow < rate.maxAlerts
  }

  /** `incrementAlertCount`: counts one more alert; with the limiter on and
      the window run out, a new window opens at `now` holding this alert. */
  function IncrementAlertCount(b: Book, rate: RateLimit, now: int): (r: Book)
    ensures rate.enabled && now - b.alertWindowStartTime > rate.timeWindow ==>
              r.alertWindowStartTime == now && r.alertCountInWindow == 1
    ensures !(rate.enabled && now - b.alertWindowStartTime > rate.timeWindow) ==>
              r.alertWindowStartTime == b.alertWindowStartTime
              && r.alertCountInWindow == b.alertCountInWindow + 1
    ensures r.violations == b.violations && r.lastAlerts == b.lastAlerts
    ensures r.globalViolations == b.globalViolations && r.lastGlobalAlertTime == b.lastGlobalAlertTime
  {
    var counted := b.(alertCountInWindow := b.alertCountInWindow + 1);
    if rate.enabled && now - b.alertWindowStartTime > rate.timeWindow then
      counted.(alertWindowStartTime := now, alertCountInWindow := 1)
    else counted
  }

  /** `sendAlert` / `sendGlobalAlert` past their rendering: the notice is
      emitted and counted only when the limiter lets it through. */
  function Emit(b: Book, n: Notice, rate: RateLimit, now: int): (o: Outcome)
    ensures CanSendAlert(b, rate, now) ==> o == Outcome(IncrementAlertCount(b, rate, now), [n])
    ensures !CanSendAlert(b, rate, now) ==> o == Outcome(b, [])
  {
    if CanSendAlert(b, rate, now) then Outcome(IncrementAlertCount(b, rate, now), [n])
    else Outcome(b, [])
  }

  /** `handleGlobalViolations`: in aggregated mode, once the global counter
      reaches its threshold and the global cooldown has passed, one
      suspicious-player alert is offered, the time is stamped and the
      counter starts again from zero. */
  function HandleGlobalViolations(b: Book, s: Settings, now: int): (o: Outcome)
    ensures !s.globalAlerts.enabled ==> o == Outcome(b, [])
    ensures s.globalAlerts.enabled && b.globalViolations >= s.globalAlerts.threshold
              && now - b.lastGlobalAlertTime > s.globalAlerts.cooldown ==>
              && o.book.globalViolations == 0
              && o.book.lastGlobalAlertTime == now
              && o.notices == (if CanSendAlert(b, s.rateLimit, now) then [SuspiciousPlayer] else [])
    ensures (b.globalViolations < s.globalAlerts.threshold
             || now - b.lastGlobalAlertTime <= s.globalAlerts.cooldown) ==> o == Outcome(b, [])
    ensures o.book.violations == b.violations && o.book.lastAlerts == b.lastAlerts
  {
    var g := s.globalAlerts;
    if !g.enabled then Outcome(b, [])
    else if b.globalViolations >= g.threshold && now - b.lastGlobalAlertTime > g.cooldown then
      var sent := Emit(b, SuspiciousPlayer, s.rateLimit, now);
      Outcome(sent.book.(lastGlobalAlertTime := now, globalViolations := 0), sent.notices)
    else Outcome(b, [])
  }

  /** `flag`: per-check mode offers an alert; aggregated mode counts one
      more global violation (on top of the one `addViolation` counted) and
      defers to the aggregate. The automatic report is independent of
      both. */
  function Flag(b: Book, c: CheckName, vl: int, cfg: CheckConfig, s: Settings, now: int): (o: Outcome)
    ensures !s.globalAlerts.enabled ==>
              o.notices == (if CanSendAlert(b, s.rateLimit, now) then [Alert(c, vl)] else [])
                           + (if cfg.autoWdr then [AutoReport(c)] else [])
    ensures !s.globalAlerts.enabled ==> o.book == Emit(b, Alert(c, vl), s.rateLimit, now).book
    ensures s.globalAlerts.enabled ==>
              var g := HandleGlobalViolations(b.(globalViolations := b.globalViolations + 1), s, now);
              && o.book == g.book
              && o.notices == g.notices + (if cfg.autoWdr then [AutoReport(c)] else [])
    ensures o.book.violations == b.violations && o.book.lastAlerts == b.lastAlerts
  {
    var sent :=
      if s.globalAlerts.enabled then
        HandleGlobalViolations(b.(globalViolations := b.globalViolations + 1), s, now)
      else Emit(b, Alert(c, vl), s.rateLimit, now);
    Outcome(sent.book, sent.notices + (if cfg.autoWdr then [AutoReport(c)] else []))
  }

  /** The tail every check shares when it detects something:
      addViolation, then shouldAlert ? (flag; markAlert). */
  function Violate(b: Book, c: CheckName, amount: int, cfg: CheckConfig, s: Settings, now: int): (o: Outcome)
    ensures o.book.violations == AddViolation(b, c, amount).violations
    ensures ShouldAlert(AddViolation(b, c, amount), c, cfg, now) && c in b.lastAlerts ==>
              c in o.book.lastAlerts && o.book.lastAlerts[c] == now
    ensures !ShouldAlert(AddViolation(b, c, amount), c, cfg, now) ==>
              o == Outcome(AddViolation(b, c, amount), [])
    ensures ShouldAlert(AddViolation(b, c, amount), c, cfg, now) ==>
              var added := AddViolation(b, c, amount);
              var flagged := Flag(added, c, added.violations[c], cfg, s, now);
              && o.notices == flagged.notices
              && o.book.alertCountInWindow == flagged.book.alertCountInWindow
              && o.book.alertWindowStartTime == flagged.book.alertWindowStartTime
              && o.book.globalViolations == flagged.book.globalViolations
              && o.book.lastGlobalAlertTime == flagged.book.lastGlobalAlertTime
    ensures ShouldAlert(AddViolation(b, c, amount), c, cfg, now) && !s.globalAlerts.enabled
              && CanSendAlert(AddViolation(b, c, amount), s.rateLimit, now) ==>
              |o.notices| >= 1 && o.notices[0] == Alert(c, AddViolation(b, c, amount).violations[c])
    ensures NonNegative(b) && amount >= 0 ==> NonNegative(o.book)
  {
    var added := AddViolation(b, c, amount);
    if ShouldAlert(added, c, cfg, now) then
      var flagged := Flag(added, c, added.violations[c], cfg, s, now);
      Outcome(MarkAlert(flagged.book, c, now), flagged.notices)
    else Outcome(added, [])
  }

  /** `flushViolations` on one record: every counter and timestamp the
      governor keeps returns to zero. */
  function Flush(b: Book): (r: Book)
    ensures r.violations.Keys == b.violations.Keys && r.lastAlerts.Keys == b.lastAlerts.Keys
    ensures forall c :: c in r.violations ==> r.violations[c] == 0
    ensures forall c :: c in r.lastAlerts ==> r.lastAlerts[c] == 0
    ensures r.globalViolations == 0 && r.lastGlobalAlertTime == 0
    ensures r.alertCountInWindow == 0 && r.alertWindowStartTime == 0
    ensures NonNegative(r)
  {
    Book(map c | c in b.violations :: 0, map c | c in b.lastAlerts :: 0, 0, 0, 0, 0)
  }

  // ---------------------------------------------------------------------
  // Properties

  /** A step of violation bookkeeping a check can take. */
  datatype Step = Raise(c: CheckName, amount: nat) | Relax(c: CheckName, amount: nat)

  function ApplySteps(b: Book, steps: seq<Step>): Book
    decreases |steps|
  {
    if steps == [] then b
    else
      var b' := match steps[0]
        case Raise(c, n) => AddViolation(b, c, n)
        case Relax(c, n) => ReduceViolation(b, c, n);
      ApplySteps(b', steps[1..])
  }

  /** No sequence of raises and relaxations drives a counter below zero. */
  lemma {:induction false} CountersStayNonNegative(b: Book, steps: seq<Step>)
    requires NonNegative(b)
    ensures NonNegative(ApplySteps(b, steps))
    decreases |steps|
  {
    if steps != [] {
      var b' := match steps[0]
        case Raise(c, n) => AddViolation(b, c, n)
        case Relax(c, n) => ReduceViolation(b, c, n);
      assert NonNegative(b');
      CountersStayNonNegative(b', steps[1..]);
    }
  }

  /** With the cooldown passed, a counter above the threshold alerts exactly
      on the multiples of the buffer. */
  lemma RepeatAlertsOnBufferMultiples(b: Book, c: CheckName, cfg: CheckConfig, now: int)
    requires c in b.violations && CooldownPassed(b, c, cfg, now)
    requires cfg.alertBuffer > 0 && b.violations[c] > cfg.vl >= 0
    ensures ShouldAlert(b, c, cfg, now) <==> b.violations[c] % cfg.alertBuffer == 0
  {
  }

  /** Threshold 10, buffer 5: alerts at 10, 15 and 20, silence at 11-14 and 16-19. */
  lemma ThresholdTenBufferFive(b: Book, c: CheckName, now: int)
    requires c in b.violations && 10 <= b.violations[c] <= 20
    requires c in b.lastAlerts && now - b.lastAlerts[c] > 1000
    ensures (ShouldAlert(b, c, CheckConfig(true, 10, 1000, 5, false, true), now)
             <==> b.violations[c] in {10, 15, 20})
  {
    var v := b.violations[c];
    assert v == 10 || v == 11 || v == 12 || v == 13 || v == 14 || v == 15 || v == 16
      || v == 17 || v == 18 || v == 19 || v == 20;
  }

  /** The repeat test reads the raw counter: with VelocityA's defaults
      (threshold 7, buffer 2) the counter alerts at 7 and again at 8, though
      8 is only one past the threshold. */
  lemma RepeatUsesRawCounter(b: Book, now: int)
    requires VelocityA in b.violations && b.violations[VelocityA] == 8
    requires VelocityA in b.lastAlerts && now - b.lastAlerts[VelocityA] > 1000
    ensures ShouldAlert(b, VelocityA, DefaultCheckConfig(VelocityA), now)
    ensures (b.violations[VelocityA] - DefaultCheckConfig(VelocityA).vl) % 2 != 0
  {
  }

  /** No alert fires below the threshold, and none inside the cooldown. */
  lemma AlertNeedsThresholdAndCooldown(b: Book, c: CheckName, cfg: CheckConfig, now: int)
    requires ShouldAlert(b, c, cfg, now)
    ensures c in b.violations && b.violations[c] >= cfg.vl
    ensures c in b.lastAlerts && now - b.lastAlerts[c] > cfg.cooldown
  {
  }

  /** After an alert is marked at `t`, the same check stays silent until its
      cooldown has passed, whatever the counter does. */
  lemma {:induction false} MarkSilencesForCooldown(b: Book, c: CheckName, cfg: CheckConfig, t: int, steps: seq<Step>, now: int)
    requires c in b.lastAlerts && 0 <= now - t <= cfg.cooldown
    ensures !ShouldAlert(ApplySteps(MarkAlert(b, c, t), steps), c, cfg, now)
  {
    StepsKeepAlertTimes(MarkAlert(b, c, t), steps);
  }

  lemma {:induction false} StepsKeepAlertTimes(b: Book, steps: seq<Step>)
    ensures ApplySteps(b, steps).lastAlerts == b.lastAlerts
    decreases |steps|
  {
    if steps != [] {
      var b' := match steps[0]
        case Raise(c, n) => AddViolation(b, c, n)
        case Relax(c, n) => ReduceViolation(b, c, n);
      StepsKeepAlertTimes(b', steps[1..]);
    }
  }

  /** With the limiter on, the window count never passes the maximum. */
  ghost predicate WithinLimit(b: Book, rate: RateLimit) {
    rate.enabled ==> b.alertCountInWindow <= rate.maxAlerts
  }

  lemma EmitKeepsWithinLimit(b: Book, n: Notice, rate: RateLimit, now: int)
    requires rate.maxAlerts >= 1 && WithinLimit(b, rate)
    ensures WithinLimit(Emit(b, n, rate, now).book, rate)
  {
  }

  /** Offers the same notice at each of the given times. */
  function EmitAll(b: Book, n: Notice, rate: RateLimit, times: seq<int>): Outcome
    decreases |times|
  {
    if times == [] then Outcome(b, [])
    else
      var first := Emit(b, n, rate, times[0]);
      var rest := EmitAll(first.book, n, rate, times[1..]);
      Outcome(rest.book, first.notices + rest.notices)
  }

  /** Inside one window the limiter lets through at most the room left in
      it: with `k` alerts already counted, at most `maxAlerts - k` more. */
  lemma {:induction false} WindowAdmitsAtMostMax(b: Book, n: Notice, rate: RateLimit, times: seq<int>)
    requires rate.enabled && b.alertCountInWindow <= rate.maxAlerts
    requires forall i :: 0 <= i < |times| ==> times[i] - b.alertWindowStartTime <= rate.timeWindow
    ensures |EmitAll(b, n, rate, times).notices| <= rate.maxAlerts - b.alertCountInWindow
    ensures EmitAll(b, n, rate, times).book.alertWindowStartTime == b.alertWindowStartTime
    decreases |times|
  {
    if times != [] {
      var first := Emit(b, n, rate, times[0]);
      assert first.book.alertWindowStartTime == b.alertWindowStartTime;
      assert |first.notices| == first.book.alertCountInWindow - b.alertCountInWindow;
      assert first.book.alertCountInWindow <= rate.maxAlerts;
      WindowAdmitsAtMostMax(first.book, n, rate, times[1..]);
    }
  }

  /** Rate limit of two alerts per 1000 ms: once two alerts have been let
      through in a window, a third qualifying alert in it is withheld while
      its check's counter still grows. */
  lemma ThirdAlertInWindowWithheld(b: Book, c: CheckName, cfg: CheckConfig, s: Settings, now: int)
    requires s.rateLimit == RateLimit(true, 2, 1000) && !s.globalAlerts.enabled && !cfg.autoWdr
    requires c in b.violations && b.alertCountInWindow == 2
    requires now - b.alertWindowStartTime <= 1000
    ensures Violate(b, c, 1, cfg, s, now).notices == []
    ensures Violate(b, c, 1, cfg, s, now).book.violations[c] == b.violations[c] + 1
  {
  }

  /** In aggregated mode a flag that does not reach the global threshold
      leaves the global counter two above where it was before the
      violation: one from addViolation, one from flag. */
  lemma AggregatedFlagCountsTwice(b: Book, c: CheckName, cfg: CheckConfig, s: Settings, now: int)
    requires s.globalAlerts.enabled && c in b.violations
    requires b.globalViolations + 2 < s.globalAlerts.threshold
    requires ShouldAlert(AddViolation(b, c, 1), c, cfg, now)
    ensures Violate(b, c, 1, cfg, s, now).book.globalViolations == b.globalViolations + 2
  {
  }
}
