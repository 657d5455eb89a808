# Starfish proxy core, modelled in Dafny

Starfish is a Minecraft 1.8 proxy that sits between a player's client and a
server. It mirrors what the server tells the client and offers an API to
plugins. This project models the logic at the heart of six of its parts.
Every modelled part is written as immutable datatypes and pure functions,
with the clock passed in as `now` (milliseconds):

- **Anticheat plugin.** The plugin keeps a record per tracked player. It
  turns movement, animation, metadata and equipment packets into updates
  of that record and runs the arithmetic detectors on it. A violation
  governor decides which detections become alerts: counters, threshold and
  buffer, cooldown, rate limit and aggregated "suspicious player" alerts.
  The plugin also maintains the identity tables (uuid, entity id, names),
  a grace period, flushing and the tick decay.
- **Inventory mirror.** The session's copy of the player's inventory and
  open container. Window clicks are applied to it in every click mode:
  plain and right clicks, shift-click spreading, number keys,
  double-click gathering, drop, and left and right drags. Each click
  records an undo action, which the server's transaction answer accepts
  or rolls back. Stale actions are pruned.
- **Game state.** Colour-code stripping, the yaw and pitch bytes,
  chat-component flattening, the split of a block position into chunk and
  offset, the reset state and the player lookups.
- **Plugin chest GUIs.** Layout of border, page items and prev/next
  buttons, and the click interceptor that turns pages.
- **Command aliases.** Adding and removing entries of the lower-cased
  alias table, with its usage errors.
- **Bedwars utilities plugin.** The chat classifiers and the
  started/ended tracker.

Modules follow the source. Every module is in its own file:

| file | module | source |
|---|---|---|
| common.dfy | Common | small JavaScript helpers (array write, bounded push, `includes`, truncating `%`) |
| js_map.dfy | JsMaps | JavaScript `Map` as an insertion-ordered entry sequence |
| ac_types.dfy | AcTypes | anticheat configuration and the player record |
| ac_governor.dfy | Governor | violation counters and alerting |
| ac_tracker.dfy | Tracker | `PlayerData` updates: position, ticks, metadata, effects |
| ac_checks.dfy | Checks | the `CHECKS` detectors and `runChecks` |
| ac_registry.dfy | Registry | identity tables, `getOrCreatePlayer`, removal, reset, flush |
| ac_events.dfy | Events | packet handlers |
| ac_session.dfy | Session | the handler dispatch and the record invariants it keeps |
| inventory.dfy | Inventory | slots, cursor and the slot primitives |
| inv_spread.dfy | Spread | shift-click distribution and double-click gathering, `_moveItem` |
| inv_move_laws.dfy | MoveLaws | `_moveItem` as written and as intended |
| inv_drag.dfy | Drag | left and right drag painting |
| inv_actions.dfy | Actions | pending actions, transactions, pruning |
| inv_clicks.dfy | Clicks | `handleWindowClick` in every mode |
| inv_click_laws.dfy | ClickLaws | laws relating clicks to rollbacks, and the findings |
| inv_window.dfy | ServerWindow | server window packets: held slot, open, close, set_slot, window_items |
| game_state.dfy | GameState | the game-state helpers |
| gui.dfy | Gui | chest GUIs |
| aliases.dfy | Aliases | the alias table |
| bedwars.dfy | Bedwars | the Bedwars tracker |

Two conventions run through the model:

- Where the source relies on JavaScript object identity (a shared record
  reached through several tables, a snapshot that is a live reference),
  the model names the sharing explicitly: a heap of records with
  references, or a `Variant` parameter.
- `Variant` selects between the code as written and the behaviour it
  evidently intends (see Findings). `Intended` is the reference the other
  laws are stated for; `AsWritten` is what the source does.

## Model

| member | source | states |
|---|---|---|
| AcTypes.CheckOrderIsTheTable | plugins/anticheat-1-2-1.js:173-774 | the scheduler's check order holds every check except `AutoClickerA`, which has no table entry |
| AcTypes.FreshBook | plugins/anticheat-1-2-1.js:816-828 | a new record has a zero counter and a zero last-alert time for exactly the table's checks, and zero global and rate-limit bookkeeping |
| AcTypes.NewPlayer | plugins/anticheat-1-2-1.js:785-904 | a new record carries the given names and ids, fresh bookkeeping, is on the ground with no position sample, no fall distance and an unknown game mode |
| Governor.AddViolation | plugins/anticheat-1-2-1.js:1931-1937 | a known check's counter and the global counter both grow by `amount` and nothing else changes; an unknown check name changes nothing |
| Governor.ReduceViolation | plugins/anticheat-1-2-1.js:1939-1944 | the check's counter drops by `amount` but never below zero; the global counter and the other checks are untouched |
| Governor.EffectiveBuffer | plugins/anticheat-1-2-1.js:1946-1948 | a missing (zero) alert buffer reads as 1, a set one is used as is, so the buffer is never zero |
| Governor.MarkAlert | plugins/anticheat-1-2-1.js:1969-1973 | only the check's last-alert time changes, to `now`; an unknown check changes nothing |
| Governor.IncrementAlertCount | plugins/anticheat-1-2-1.js:1890-1905 | the alert count always grows by one, except that with the limiter on and the window expired a new window opens at `now` holding one alert |
| Governor.Emit | plugins/anticheat-1-2-1.js:1734-1764 | an alert is emitted and counted exactly when the rate limiter admits it, and otherwise nothing happens |
| Governor.HandleGlobalViolations | plugins/anticheat-1-2-1.js:1693-1703 | in aggregated mode, reaching the threshold after the cooldown offers one suspicious-player alert, stamps the time and zeroes the global counter; otherwise nothing changes |
| Governor.Flag | plugins/anticheat-1-2-1.js:1675-1691 | per-check mode offers the check's alert, and the book is what sending it leaves: the alert count grows exactly when the limiter lets it through; aggregated mode adds one more global violation and its book and notices are those of the global handler, followed by an automatic report when the check asks for one |
| Governor.Violate | plugins/anticheat-1-2-1.js:186-192 | a detection raises the counter; a due alert is flagged: its notices are `flag`'s, in per-check mode led by the check's alert when the limiter admits it, and the alert bookkeeping is `flag`'s; a due alert stamps the check's time; an alert that is not due raises nothing; counters stay non-negative |
| Governor.Flush | plugins/anticheat-1-2-1.js:1060-1076 | every counter, last-alert time and rate-limit field returns to zero over the same checks |
| Governor.CountersStayNonNegative | plugins/anticheat-1-2-1.js:1931-1944 | no sequence of raises and reductions drives a counter below zero |
| Governor.RepeatAlertsOnBufferMultiples | plugins/anticheat-1-2-1.js:1958-1966 | past the threshold and with the cooldown over, an alert is due exactly when the counter is a multiple of the buffer |
| Governor.ThresholdTenBufferFive | plugins/anticheat-1-2-1.js:1946-1967 | threshold 10 and buffer 5 alert at 10, 15 and 20 and stay silent at 11-14 and 16-19 |
| Governor.RepeatUsesRawCounter | plugins/anticheat-1-2-1.js:1958-1966 | the repeat test reads the raw counter, not its excess over the threshold: VelocityA alerts at 8, one past its threshold of 7, with a buffer of 2 |
| Governor.AlertNeedsThresholdAndCooldown | plugins/anticheat-1-2-1.js:1946-1967 | no alert is due below the threshold or inside the cooldown |
| Governor.MarkSilencesForCooldown | plugins/anticheat-1-2-1.js:1946-1973 | after an alert is marked, the check stays silent until its cooldown has passed, whatever its counter does |
| Governor.StepsKeepAlertTimes | plugins/anticheat-1-2-1.js:1931-1944 | raising and reducing counters never touches the last-alert times |
| Governor.EmitKeepsWithinLimit | plugins/anticheat-1-2-1.js:1876-1905 | with the limiter on, the count in the window never passes the maximum |
| Governor.WindowAdmitsAtMostMax | plugins/anticheat-1-2-1.js:1876-1905 | inside one window, at most the room left in it is let through, and the window start does not move |
| Governor.ThirdAlertInWindowWithheld | plugins/anticheat-1-2-1.js:1876-1888 | with two alerts per window, a third due alert in the window is withheld while the counter still grows |
| Governor.AggregatedFlagCountsTwice | plugins/anticheat-1-2-1.js:1675-1680 | in aggregated mode a flag below the global threshold leaves the global counter two above where it was |
| Tracker.EstimateVelocity | plugins/anticheat-1-2-1.js:935-949 | with an earlier sample and positive elapsed time, the velocity is the displacement divided by the elapsed seconds; otherwise it is zero |
| Tracker.UpdatePosition | plugins/anticheat-1-2-1.js:906-959 | landing clears the fall distance and arms the two-tick velocity pause after a fall of more than 3; a descent in the air adds the height lost; the new position, ground flag and sample are recorded |
| Tracker.DescentAccumulatesDrop | plugins/anticheat-1-2-1.js:908-915 | an airborne descent that never rises adds exactly the total height lost to the fall distance |
| Tracker.FallDistanceStaysNonNegative | plugins/anticheat-1-2-1.js:908-915 | the fall distance is never negative |
| Tracker.Tick | plugins/anticheat-1-2-1.js:1109-1119 | swing progress and hurt time each count down by one while positive and stay otherwise |
| Tracker.HurtTimeDecays | plugins/anticheat-1-2-1.js:1115-1117 | after `n` ticks a hurt time `h >= 0` reads `max(0, h - n)` |
| Tracker.SwingDecays | plugins/anticheat-1-2-1.js:1112-1114 | after `n` ticks a swing progress `s >= 0` reads `max(0, s - n)` |
| Tracker.TicksKeepTheRest | plugins/anticheat-1-2-1.js:1109-1119 | ticking touches nothing but the two counters |
| Tracker.Hurt | plugins/anticheat-1-2-1.js:1653-1656 | a hurt status sets hurt time 10 and the damage time, and nothing else |
| Tracker.Swing | plugins/anticheat-1-2-1.js:1368-1370 | a swing sets swing progress 6 and changes nothing else the model keeps |
| Tracker.HurtTimeline | plugins/anticheat-1-2-1.js:1653-1656 | a hit's hurt time reads 9 exactly one tick later, when VelocityA opens its window, and runs out after ten ticks |
| Tracker.EncodeFlags | plugins/anticheat-1-2-1.js:1566-1618 | the status byte of the flags the tracker reads is a byte |
| Tracker.DecodeEncode | plugins/anticheat-1-2-1.js:1566-1618 | decoding the byte that encodes a set of status flags gives the flags back |
| Tracker.CrouchStep | plugins/anticheat-1-2-1.js:1571-1600 | starting to crouch records a start event; stopping records a stop event with the crouch's duration (0 when no start was recorded); no change records nothing; the history keeps its 50 most recent events |
| Tracker.BlockStep | plugins/anticheat-1-2-1.js:1604-1612 | using an item while holding a sword starts blocking at `now`; stopping use ends it; otherwise nothing changes |
| Tracker.ApplyFlags | plugins/anticheat-1-2-1.js:1566-1619 | fire, crouch, sprint, use and elytra follow their bits of the status byte |
| Tracker.ApplyEntry | plugins/anticheat-1-2-1.js:1566-1629 | only type-0 entries count: key 0 applies the bitmask; keys 9, 26 and 27 set water, lava and web from a positive value; every other entry changes nothing |
| Tracker.ApplyMetadata | plugins/anticheat-1-2-1.js:1564-1631 | the entries of a packet change only the status, never the bookkeeping, motion, identity, detector state or effects |
| Tracker.ShiftHistoryBounded | plugins/anticheat-1-2-1.js:1583-1599 | however many metadata packets arrive, the crouch history stays within 50 events |
| Tracker.AddEffect | plugins/anticheat-1-2-1.js:1240-1256 | the effect becomes active at `amplifier + 1`, the others stay, and the derived speed, jump-boost and slow-falling levels keep agreeing with the table |
| Tracker.RemoveEffect | plugins/anticheat-1-2-1.js:1258-1274 | the effect is gone, the others stay, and the derived levels keep agreeing with the table |
| Tracker.AddThenRemove | plugins/anticheat-1-2-1.js:1240-1274 | adding an effect that was not active and removing it again restores the effect state |
| Tracker.SetHunger | plugins/anticheat-1-2-1.js:1214-1216 | a reported hunger replaces the old value; a missing one changes nothing |
| Tracker.Teleport | plugins/anticheat-1-2-1.js:1222-1223 | a teleport stamps the teleport time and nothing else |
| Tracker.VelocityPacket | plugins/anticheat-1-2-1.js:1234-1237 | only an upward push stamps the velocity-packet time |
| Tracker.Equip | plugins/anticheat-1-2-1.js:1642-1644 | slot 0 sets the held item; other slots change nothing |
| Checks.Detect | plugins/anticheat-1-2-1.js:187-192 | a detection changes only the violation book: the check's counter rises by the amount, every other field of the record stays, and a non-negative book stays non-negative |
| Checks.SquareRootComparison | plugins/anticheat-1-2-1.js:272-273 | `k * sqrt(q) > bound` holds exactly when the square-free `RootExceeds` does, so the speed tests are decided without roots |
| Checks.TowerRatioSquared | plugins/anticheat-1-2-1.js:400-408 | TowerA's ratio test `(h > 0 ? vy / h : vy) >= 0.8` for `h = sqrt(q)` agrees with its square-free form `TowerRatioOk` |
| Checks.FlyACheck | plugins/anticheat-1-2-1.js:174-199 | in mid-air (not in water, not gliding) a zero vertical speed extends the still-run counter and any other speed clears it; the second consecutive still run adds a violation; on the ground the counter clears and the violation decays |
| Checks.FlyBCheck | plugins/anticheat-1-2-1.js:201-215 | swimming outside water adds a violation; otherwise nothing changes |
| Checks.FlyCCheck | plugins/anticheat-1-2-1.js:217-242 | in mid-air the repeat counter counts runs with the same vertical speed as the previous run and restarts on a different one; a mid-air run that repeats the previous vertical speed for the tenth time or more adds a FlyC violation, and a violation needs at least ten repeats; on the ground the counter clears |
| Checks.SlowSpeed | plugins/anticheat-1-2-1.js:260-275 | the allowed speed is defined exactly for use counts 0 to 7 and is never below 1.16 |
| Checks.NoSlowACheck | plugins/anticheat-1-2-1.js:244-288 | nothing happens for 750 ms after a jump; in the air the use counter resets; on the ground it counts consecutive runs of item use up to 7; a zero count decays the violation; a positive count adds a NoSlowA violation exactly when the horizontal speed exceeds the table's speed for that count, scaled by `1 + 0.2 * speed` and raised by 1, and otherwise leaves the book alone |
| Checks.EagleACheck | plugins/anticheat-1-2-1.js:300-343 | an eagle verdict adds 3 to the violation; a miss decays it by 3 |
| Checks.FastBridgeACheck | plugins/anticheat-1-2-1.js:345-378 | at height 100 or below the fast-bridge pattern adds a violation; above 100 or without the pattern the violation decays |
| Checks.RiseCount | plugins/anticheat-1-2-1.js:443-448 | a non-empty history of `n` samples has at most `n - 1` rises |
| Checks.TowerACheck | plugins/anticheat-1-2-1.js:391-469 | the history exists afterwards, stays within 15 samples, ends with the current sample when one is wanted; fewer than 8 samples change nothing; 8 or more add 2 on a tower pattern and decay the violation otherwise |
| Checks.BlinkCheck | plugins/anticheat-1-2-1.js:471-506 | spectators restart the teleport grace and nothing else; within 3 s of a teleport or without a sample nothing happens; otherwise a jump longer than the allowance adds a Blink violation, and a violation needs such a jump |
| Checks.HungerSprintCheck | plugins/anticheat-1-2-1.js:509-523 | sprinting at hunger 6 or below adds a violation; otherwise nothing changes |
| Checks.AimACheck | plugins/anticheat-1-2-1.js:526-576 | an aim verdict adds a violation; otherwise nothing changes |
| Checks.AimBCheck | plugins/anticheat-1-2-1.js:578-622 | nothing happens within 3 s of a teleport or before both previous angles are known; otherwise a snap adds a violation and anything else leaves the counter |
| Checks.InvalidPitchCheck | plugins/anticheat-1-2-1.js:624-638 | a pitch in [-90, 90] changes nothing; any other pitch adds a violation |
| Checks.StrafeACheck | plugins/anticheat-1-2-1.js:670-721 | a strafe verdict adds a violation; otherwise nothing changes |
| Checks.MaxNoChangeTicks | plugins/anticheat-1-2-1.js:756 | the tolerated count `n` is the latency's tick count rounded up plus one: `(n - 2) * 50 < latency <= (n - 1) * 50` |
| Checks.VelocityACheck | plugins/anticheat-1-2-1.js:723-773 | an active bounce suppression counts down and does nothing else; with an excuse from `shouldCheckVelocity` nothing happens; a well-formed window stays well-formed; an open window anchored at the current position, past the first hurt tick, adds a VelocityA violation and closes once the unchanged runs pass `MaxNoChangeTicks`, and leaves the book alone while they do not; the book changes only when neither excuse applies |
| Checks.RunCheck | plugins/anticheat-1-2-1.js:1668-1671 | any table entry keeps the record sound and changes only detector-owned state |
| Checks.RunAll | plugins/anticheat-1-2-1.js:1664-1672 | running the enabled checks in order keeps the record sound and changes only detector-owned state |
| Checks.RunChecks | plugins/anticheat-1-2-1.js:1659-1673 | before the grace period ends nothing happens; afterwards soundness is kept and only detector-owned state changes |
| Checks.NewPlayerIsSound | plugins/anticheat-1-2-1.js:785-904 | a fresh record is sound: non-negative counters, a closed window, a use counter in range |
| Checks.LandingSuppressesTwoVelocityRuns | plugins/anticheat-1-2-1.js:909-912 | after landing from a fall of more than 3 blocks, the next two VelocityA runs count the suppression down to zero and flag nothing |
| Checks.StandingStillAfterHitFlags | plugins/anticheat-1-2-1.js:738-765 | a player hit at zero latency who does not move is flagged on the second VelocityA run, which closes the window |
| Checks.FlyAFlagsOnSecondStillRun | plugins/anticheat-1-2-1.js:181-190 | FlyA leaves the first still mid-air run alone and flags the second |
| Checks.AimBSnapBoundaries | plugins/anticheat-1-2-1.js:591-612 | a right-angle turn is a snap; turns that stay more than 3 degrees short of 90 in both axes are not |
| Checks.RisingCountsEveryStep | plugins/anticheat-1-2-1.js:443-448 | in a strictly rising history every step counts as a rise |
| Checks.SteadyClimbIsTower | plugins/anticheat-1-2-1.js:450-457 | a strictly rising history gaining at least 3 blocks over 0.4 to 1.5 s is a tower pattern |
| Registry.Initial | plugins/anticheat-1-2-1.js:1026-1032 | the engine starts with empty tables, no grace period, and tables that agree with the records |
| Registry.ByEntityAgrees | plugins/anticheat-1-2-1.js:1450-1453 | while the tables agree with the records, an entity id leads to a record carrying that entity id |
| Registry.Admit | plugins/anticheat-1-2-1.js:1429-1435 | a known uuid gives back its record unchanged; a new uuid gets exactly one fresh record, filed under the uuid only, with entity id -1 when the event has none |
| Registry.NextEntityId | plugins/anticheat-1-2-1.js:1443-1448 | a reported entity id replaces the record's own; a missing one (0) keeps it |
| Registry.Detach | plugins/anticheat-1-2-1.js:1443-1446 | a real entity id that the event replaces is deleted from the entity table; in every other case the table is unchanged; no entry is invented |
| Registry.Rebind | plugins/anticheat-1-2-1.js:1437-1453 | only the record's identity changes: the uuid stays, the entity id follows `NextEntityId`, other records and the other tables are untouched |
| Registry.Attach | plugins/anticheat-1-2-1.js:1450-1453 | a real entity id is set to the record in the entity table; the placeholder -1 is never entered |
| Registry.GetOrCreatePlayer | plugins/anticheat-1-2-1.js:1424-1457 | an invalid uuid changes nothing and returns nothing; a known uuid reuses its record; an unknown one gets exactly one new record with a fresh book; only the returned record's identity changes |
| Registry.GetOrCreateIdentity | plugins/anticheat-1-2-1.js:1433-1448 | the record's display name is the event's display name, else its name, else the old username; its username is the event's name unless empty; its entity id is the event's unless 0, else the old one, else -1 for a new record |
| Registry.RebindKeepsValid | plugins/anticheat-1-2-1.js:1442-1453 | rebinding keeps every uuid and entity entry pointing at a record with that uuid or entity id, and keeps entity keys distinct |
| Registry.GetOrCreateRebindsEntity | plugins/anticheat-1-2-1.js:1442-1453 | afterwards the record's entity id leads back to it, and an entity id it gave up leads nowhere |
| Registry.GetOrCreateKeepsValid | plugins/anticheat-1-2-1.js:1424-1457 | `getOrCreatePlayer` keeps the tables in agreement with the records |
| Registry.GetOrCreateIdempotent | plugins/anticheat-1-2-1.js:1424-1457 | reporting the same player a second time, at any time, changes nothing and returns the same record |
| Registry.RebindSame | plugins/anticheat-1-2-1.js:1437-1453 | rebinding a record to the names and entity id it already has changes nothing |
| Registry.RemovePlayerByUuid | plugins/anticheat-1-2-1.js:1459-1472 | an unknown uuid changes nothing; a known one loses its uuid entry and its username entry; no record is destroyed and the entity table only shrinks |
| Registry.FirstEntityOf | plugins/anticheat-1-2-1.js:1465-1470 | the index found is the first entity entry, in insertion order, whose record carries the uuid; -1 when there is none |
| Registry.EntriesOf | plugins/anticheat-1-2-1.js:1465-1470 | the count is zero exactly when no entity entry leads to a record with the uuid |
| Registry.RemoveByUuidUnbinds | plugins/anticheat-1-2-1.js:1459-1472 | removal keeps the tables valid, unbinds the first matching entity id, leaves every other entity id as it was, and unbinds the uuid completely when it had at most one entity entry |
| Registry.RemoveEntity | plugins/anticheat-1-2-1.js:1534-1539 | the entity id no longer resolves; an unknown id changes nothing; a known one drops its record's uuid; no uuid or entity id is added |
| Registry.HandleEntityRemove | plugins/anticheat-1-2-1.js:1532-1541 | processing the ids in order keeps every record and the grace period, and never adds a uuid |
| Registry.RemoveEntityKeepsValid | plugins/anticheat-1-2-1.js:1534-1539 | removing one entity keeps the tables valid |
| Registry.EntityRemoveUnbinds | plugins/anticheat-1-2-1.js:1532-1541 | afterwards none of the event's entity ids resolves |
| Registry.EntityRemoveDropsUuids | plugins/anticheat-1-2-1.js:1532-1541 | afterwards the uuid of every record one of the ids led to is gone |
| Registry.EntityRemoveKeepsAbsent | plugins/anticheat-1-2-1.js:1532-1541 | an entity id that did not resolve before does not resolve afterwards |
| Registry.EntityRemoveKeepsValid | plugins/anticheat-1-2-1.js:1532-1541 | entity removal keeps the tables valid |
| Registry.StartGracePeriod | plugins/anticheat-1-2-1.js:1045-1048 | the checks are paused until `now + duration` and nothing else changes |
| Registry.Reset | plugins/anticheat-1-2-1.js:1050-1058 | all five tables are emptied and the default 5-second grace period starts |
| Registry.ResetSilencesChecks | plugins/anticheat-1-2-1.js:1050-1058 | right after a reset no entity resolves and every check run within 5 seconds leaves the record unchanged and alerts nothing |
| Registry.FlushViolations | plugins/anticheat-1-2-1.js:1060-1076 | every record reachable by uuid has its book flushed; records reachable only otherwise keep theirs; nothing else changes |
| Registry.FlushClearsTracked | plugins/anticheat-1-2-1.js:1060-1076 | after a flush a tracked player's violation counters, global count and alert window count are all zero |
| Registry.TickAll | plugins/anticheat-1-2-1.js:1109-1119 | every record reachable by uuid ticks once; other records and the tables are unchanged |
| Events.ResolveName | plugins/anticheat-1-2-1.js:1309 | the name is never empty: the player list's name, else the remembered one, else "Unknown" |
| Events.ResolveDisplayName | plugins/anticheat-1-2-1.js:1310 | a non-empty remembered display name wins; otherwise the resolved name is used |
| Events.EntityInfo | plugins/anticheat-1-2-1.js:1312-1317 | the info handed to `getOrCreatePlayer` carries the event's uuid and entity id and a non-empty name |
| Events.Commit | plugins/anticheat-1-2-1.js:1659-1673 | only the touched record changes, and in it only the detectors' state; during the grace period it is stored as given and nothing is alerted |
| Events.ApplyMove | plugins/anticheat-1-2-1.js:1324-1346 | a new position is taken as landing on the ground; a delta is added to the position and keeps the ground state unless the event carries one; no movement changes nothing |
| Events.Touch | plugins/anticheat-1-2-1.js:1306-1322 | an event without a valid player uuid changes nothing; otherwise only the found or created record changes: the update plus detector state |
| Events.HandleEntityMove | plugins/anticheat-1-2-1.js:1305-1349 | no uuid table entry is added beyond `getOrCreatePlayer`'s; the record ends at the moved position and ground state; during the grace period it is exactly the moved record |
| Events.HandlePlayerMove | plugins/anticheat-1-2-1.js:1276-1303 | without a current player or with an invalid uuid nothing changes; with a position the user's record takes it and the ground flag; without one only the checks run |
| Events.HandleEntityAnimation | plugins/anticheat-1-2-1.js:1351-1408 | animation 0 leaves the record with swing progress 6; any other animation changes only detector state |
| Events.HandleEntityMetadata | plugins/anticheat-1-2-1.js:1543-1634 | the record under the entity id is used when there is one, else one found or created from the uuid; the entries are applied when present; nothing else but detector state changes |
| Events.HandleEntityEquipment | plugins/anticheat-1-2-1.js:1636-1645 | a non-player or unknown entity changes nothing; otherwise only that record's equipment is updated |
| Events.HandleEntityStatus | plugins/anticheat-1-2-1.js:1647-1657 | only status 2 on a known entity changes anything: that record is hurt |
| Events.HandleEntityVelocity | plugins/anticheat-1-2-1.js:1228-1238 | an unknown entity changes nothing; otherwise only that record's velocity-packet stamp can change |
| Events.HandleEntityEffect | plugins/anticheat-1-2-1.js:1240-1274 | a non-player or unknown entity changes nothing; otherwise only that record's effects are added to or removed from |
| Events.HandleBlockPlace | plugins/anticheat-1-2-1.js:2027-2047 | without a tracked current player or with ScaffoldA disabled nothing changes; otherwise the user's record gains one ScaffoldA violation, its other fields and every other record unchanged and its counters non-negative |
| Events.HandleUpdateHealth | plugins/anticheat-1-2-1.js:1207-1217 | without a tracked current player nothing changes; otherwise only the user's record takes the hunger value |
| Events.HandlePlayerTeleport | plugins/anticheat-1-2-1.js:1219-1226 | an empty or unknown uuid changes nothing; otherwise only that record's teleport time is stamped |
| Events.ListUpdateOne | plugins/anticheat-1-2-1.js:1477-1497 | an entry without name or uuid changes nothing; otherwise the name is remembered; a tracked record takes the ping and game mode, and a change from a known game mode adds a GameModeA violation when that check is enabled; identities and detector state never change |
| Events.HandlePlayerListUpdate | plugins/anticheat-1-2-1.js:1474-1501 | only remembered names and tracked records change; identities and detector state stay; books stay non-negative |
| Events.FirstGameModeIsNotAViolation | plugins/anticheat-1-2-1.js:1484 | the first game mode reported for a record (previous mode -1) never counts as a violation |
| Events.HandlePlayerSpawn | plugins/anticheat-1-2-1.js:1503-1530 | an invalid uuid changes nothing; otherwise a brand-new record, even for a tracked uuid, is filed under its name, uuid and entity id, at the spawn position, in the air, with the spawn angles and a fresh book; old records stay |
| Events.HandlePlayerJoin | plugins/anticheat-1-2-1.js:1410-1416 | a valid uuid is tracked afterwards |
| Events.HandlePlayerLeave | plugins/anticheat-1-2-1.js:1418-1422 | a non-empty uuid is no longer tracked; an empty one changes nothing |
| Session.Apply | plugins/anticheat-1-2-1.js:1109-1205 | each subscribed event reaches its handler; only movement-like events, the player list and a block place can raise notices; within the grace period only the player list and a block place can; only a respawn or the anticheat plugin's restoration moves the grace period, and each empties the uuid table |
| Session.ApplyChecked | plugins/anticheat-1-2-1.js:1132-1205 | the handlers that can raise notices leave the grace period alone, and inside it only the player list and a block place raise any |
| Session.ApplyQuiet | plugins/anticheat-1-2-1.js:1109-1201 | the handlers that only update tables or records move the grace period exactly when they reset |
| Session.Restore | plugins/anticheat-1-2-1.js:1125-1129 | a restored plugin resets the tables and restarts the grace period only when it is the anticheat plugin itself |
| Session.Replay | plugins/anticheat-1-2-1.js:1109-1205 | a run of events inside the grace period, without a reset, a player list or a block place, raises nothing and leaves the grace period |
| Session.InitialIsGood | plugins/anticheat-1-2-1.js:1026-1032 | the engine starts in the invariant: tables that agree with the records and records whose detector state is in range |
| Session.GetOrCreateKeepsGood | plugins/anticheat-1-2-1.js:1424-1457 | `getOrCreatePlayer` keeps the invariant |
| Session.AdmitKeepsSound | plugins/anticheat-1-2-1.js:1429-1435 | a newly created record is sound, so every record stays sound |
| Session.RebindKeepsSound | plugins/anticheat-1-2-1.js:1437-1453 | changing a record's identity keeps every record sound |
| Session.TouchKeepsGood | plugins/anticheat-1-2-1.js:1306-1322 | an entity event whose update keeps identity and soundness keeps the invariant |
| Session.PutKeepsGood | plugins/anticheat-1-2-1.js:1424-1457 | writing back a sound record with the same identity keeps the invariant |
| Session.ListUpdateKeepsGood | plugins/anticheat-1-2-1.js:1474-1501 | a player list update keeps the invariant |
| Session.SpawnKeepsGood | plugins/anticheat-1-2-1.js:1503-1530 | a spawn under a real entity id keeps the invariant |
| Session.SpawnKeepsValid | plugins/anticheat-1-2-1.js:1503-1530 | a spawn under a real entity id keeps the tables in agreement with the records |
| Session.SpawnedIsSound | plugins/anticheat-1-2-1.js:1512-1527 | the record a spawn creates is sound |
| Session.EntityMoveKeepsGood | plugins/anticheat-1-2-1.js:1305-1349 | `entity_move` keeps the invariant |
| Session.PlayerMoveKeepsGood | plugins/anticheat-1-2-1.js:1276-1303 | `player_move` keeps the invariant |
| Session.AnimationKeepsGood | plugins/anticheat-1-2-1.js:1351-1408 | `entity_animation` keeps the invariant |
| Session.CommitKeepsGood | plugins/anticheat-1-2-1.js:1659-1673 | writing back a sound record and running the checks on it keeps the invariant |
| Session.MetadataKeepsGood | plugins/anticheat-1-2-1.js:1543-1634 | `entity_metadata` keeps the invariant |
| Session.SetterKeepsGood | plugins/anticheat-1-2-1.js:1636-1657 | a change that leaves identity, book and detector state alone keeps the invariant |
| Session.EquipmentKeepsGood | plugins/anticheat-1-2-1.js:1636-1645 | `entity_equipment` keeps the invariant |
| Session.StatusKeepsGood | plugins/anticheat-1-2-1.js:1647-1657 | `entity_status` keeps the invariant |
| Session.VelocityKeepsGood | plugins/anticheat-1-2-1.js:1228-1238 | `entity_velocity` keeps the invariant |
| Session.EffectKeepsGood | plugins/anticheat-1-2-1.js:1240-1274 | adding or removing an effect keeps the invariant |
| Session.HealthKeepsGood | plugins/anticheat-1-2-1.js:1207-1217 | `update_health` keeps the invariant |
| Session.BlockPlaceKeepsGood | plugins/anticheat-1-2-1.js:2027-2047 | `block_place` keeps the invariant |
| Session.TeleportKeepsGood | plugins/anticheat-1-2-1.js:1219-1226 | `player_teleport` keeps the invariant |
| Session.LeaveKeepsGood | plugins/anticheat-1-2-1.js:1418-1422 | `player_leave` keeps the invariant |
| Session.DestroyKeepsGood | plugins/anticheat-1-2-1.js:1532-1541 | `entity_destroy` keeps the invariant |
| Session.WholeTableKeepsGood | plugins/anticheat-1-2-1.js:1050-1076 | the every-tick loop, a reset and a flush each keep the invariant |
| Session.ApplyKeepsGood | plugins/anticheat-1-2-1.js:1109-1201 | every subscribed event (spawns under a real entity id) keeps the invariant |
| Session.CheckedEventKeepsGood | plugins/anticheat-1-2-1.js:1132-1205 | the six events that can raise notices keep the invariant |
| Session.SetterEventKeepsGood | plugins/anticheat-1-2-1.js:1121-1201 | the six events that only update one record keep the invariant |
| Session.TableEventKeepsGood | plugins/anticheat-1-2-1.js:1144-1167 | spawns, joins, leaves and entity removals keep the invariant |
| Session.WholeTableEventKeepsGood | plugins/anticheat-1-2-1.js:1109-1155 | the tick, the respawn, the flush and the plugin's restoration keep the invariant |
| Session.ReplayKeepsGood | plugins/anticheat-1-2-1.js:1109-1201 | any sequence of such events keeps the invariant |
| Inventory.Initial | src/session/handlers/inventory.js:7-16 | a fresh handler sees 45 empty inventory slots, nothing stored under the `NaN` key, no open window, no drag and no pending action |
| Inventory.Blank | src/session/handlers/inventory.js:270 | the filled array has exactly the indices `0 .. n-1`, all empty |
| Inventory.CountOf | src/session/handlers/inventory.js:461 | a stack counts its items; empty and missing slots count zero |
| Inventory.Resize | src/session/handlers/inventory.js:465 | the resized item is the same item with the new count; an empty item stays empty |
| Inventory.Normal | src/session/handlers/inventory.js:346 | what is stored is the item itself or, for a stack of count zero or less, the empty item; a stored stack always has a positive count |
| Inventory.Address | src/session/handlers/inventory.js:347-354 | with no window open a slot is its own inventory index; in a container the first `size` slots are the container's and slot `s` beyond them is inventory index `s - size + 9`; an unknown size addresses nothing |
| Inventory.AddressInjective | src/session/handlers/inventory.js:347-354 | two different slot numbers never address the same place |
| Inventory.Put | src/session/handlers/inventory.js:348-353 | the written place reads back the item; every other place, the cursor, the held slot and the `NaN` property read as before |
| Inventory.GetItem | src/session/handlers/inventory.js:357-369 | slot -999 reads as missing; a slot with no array index (an unknown container size) reads the inventory array's `NaN` property; any other reads its address |
| Inventory.SetSlot | src/session/handlers/inventory.js:345-355 | an addressable slot reads back the normalised item; an unaddressable one stores it under the `NaN` property; every other place, the cursor and the held slot are unchanged |
| Inventory.SetCursor | src/session/handlers/inventory.js:375-377 | the cursor holds the normalised item; no slot changes |
| Inventory.SetThenGet | src/session/handlers/inventory.js:345-369 | reading a slot after writing it gives the normalised item; any other slot number reads as before |
| Inventory.IncrementCursor | src/session/handlers/inventory.js:395-403 | an empty cursor stays empty; a stack's count moves by `d`, floored at an empty cursor; nothing but the cursor changes |
| Inventory.IncrementSlot | src/session/handlers/inventory.js:434-445 | an empty slot is left alone; a stack is rewritten with its count moved by `d` |
| Inventory.SetSlotCount | src/session/handlers/inventory.js:447-458 | an empty slot is left alone; a stack is rewritten with the new count |
| Inventory.SwapWithCursor | src/session/handlers/inventory.js:379-383 | the cursor takes the slot's item and the slot the cursor's; every other place is unchanged |
| Inventory.SwapTwiceRestores | src/session/handlers/inventory.js:379-383 | swapping a settled slot with the cursor twice restores the state exactly |
| Inventory.SwapSlots | src/session/handlers/inventory.js:428-432 | two addressable slots exchange their items; with the `NaN` key as second slot the slot and the `NaN` property exchange theirs and nothing else moves; the cursor is unchanged |
| Inventory.Clone | src/session/handlers/inventory.js:289-290 | a deep copy of the inventory keeps its slots, cursor and held slot and drops the `NaN` property, which `cloneDeep` of an array does not copy |
| Inventory.FillSlotFromCursor | src/session/handlers/inventory.js:460-470 | only the slot and the cursor change, and the cursor keeps the same item or becomes empty |
| Inventory.FillCounts | src/session/handlers/inventory.js:460-470 | slot plus cursor keep their total, and the slot ends with the total capped at the stack size |
| Inventory.MoveHalfToCursor | src/session/handlers/inventory.js:472-483 | an empty slot changes nothing; from a stack of `n` the cursor takes `ceil(n/2)` of the same item and the slot keeps `n - ceil(n/2)` |
| Inventory.MoveOneToSlot | src/session/handlers/inventory.js:485-497 | only the slot and cursor change; a full stack in the slot changes nothing |
| Inventory.MoveOneCounts | src/session/handlers/inventory.js:485-497 | into an empty or non-full slot exactly one item moves from the cursor |
| Inventory.PutOneBack | src/session/handlers/inventory.js:487-488 | a stack written into the slot stays there while the cursor loses one item |
| Inventory.SlotFromNumberKey | src/session/handlers/inventory.js:624-629 | with no window open key `k` is slot `k + 36`; in a container it is defined exactly when the size is known |
| Inventory.NumberKeyIsHotbar | src/session/handlers/inventory.js:624-629 | whatever window is open, key `k` addresses inventory index `36 + k`, the hotbar |
| Inventory.ContainerSlotIsBox | src/session/handlers/inventory.js:421-426 | a slot `_isInContainer` accepts addresses the container's array |
| Spread.Cascade | src/session/handlers/inventory.js:509-552 | the places one location's `case` visits: without `break`, "hotbar" falls through to the main inventory and the container, and "inventory" to the container; as intended each location visits only its own slots; an unknown location visits nothing |
| Spread.Merge | src/session/handlers/inventory.js:510-523 | topping up stacks of the item never increases what remains to place, never goes below zero, stops exactly when nothing remains, and leaves the cursor alone |
| Spread.MergeFrame | src/session/handlers/inventory.js:510-523 | the top-up loop writes only the places it scans |
| Spread.MergeSkip | src/session/handlers/inventory.js:512 | places holding no stack of the item are passed over without effect |
| Spread.Fill | src/session/handlers/inventory.js:559-569 | starting new stacks in empty slots writes only the scanned places, never increases what remains, and cannot throw when every scanned slot is present |
| Spread.MergePass | src/session/handlers/inventory.js:505-553 | the first loop over the locations changes only scanned places and the remaining count only shrinks; with nothing to place it returns at once |
| Spread.FillPass | src/session/handlers/inventory.js:554-593 | the second loop over the locations changes only scanned places and the remaining count only shrinks |
| Spread.Distribute | src/session/handlers/inventory.js:499-594 | `null` throws; an empty item changes nothing; only scanned places change; as written an item that does not fit is lost (`undefined` is returned), as intended the unplaced rest is handed back |
| Spread.MergeTally | src/session/handlers/inventory.js:510-523 | the top-up loop adds exactly the placed items to the tally of the item's kind |
| Spread.FillTally | src/session/handlers/inventory.js:559-569 | the new-stack loop adds exactly the placed items to the tally of the item's kind |
| Spread.MergePassTally | src/session/handlers/inventory.js:505-553 | the first loop over the locations adds exactly the placed items to the tally, on every location list |
| Spread.FillPassTally | src/session/handlers/inventory.js:554-593 | the second loop over the locations adds exactly the placed items to the tally |
| Spread.DistributeTally | src/session/handlers/inventory.js:499-594 | the places gain exactly `count - unplaced` items of the item's kind |
| Spread.FirstEmpty | src/session/handlers/inventory.js:635-639 | the scan reports an empty slot exactly when there is one, "full" when every slot holds something, and throws only on a `null` slot |
| Spread.IsFull | src/session/handlers/inventory.js:631-655 | locations that visit nothing count as full |
| Spread.InventoryStringIsFull | src/session/handlers/inventory.js:139 | `_isFull('inventory')` iterates the characters of the string, none of which is a location, so it always answers "full" |
| Spread.MainInventoryFull | src/session/handlers/inventory.js:640-645 | as intended, `_isFull(['inventory'])` is true exactly when none of slots 9-35 is empty |
| Spread.MoveItem | src/session/handlers/inventory.js:596-622 | a `null` source throws before any write; an empty source changes nothing; a move into an empty slot leaves nothing over; the cursor and the window never change |
| MoveLaws.MoveItemRaises | src/session/handlers/inventory.js:609-621 | as written, a different item in the target throws before any write, and an overflowing merge throws with the target already holding the full stack; no remainder is ever returned; in every other case the written and intended code agree |
| MoveLaws.MoveItemKeeps | src/session/handlers/inventory.js:596-622 | as intended, moving a stack onto a stack empties the source; for the same item the target and the remainder together hold both counts and the target holds at most a full stack; for different items the two are exchanged |
| Spread.Sweep | src/session/handlers/inventory.js:723-778 | one gathering loop changes only slots, never the cursor |
| Spread.SweepBounds | src/session/handlers/inventory.js:723-778 | a gathering loop over positive stacks moves the count toward the stack size and never past it, and keeps every stack positive |
| Spread.SweepTally | src/session/handlers/inventory.js:723-778 | what a gathering loop takes from the slots is exactly what the count gains |
| Spread.GatherSlots | src/session/handlers/inventory.js:709-712 | the scanned inventory slots are all within the 45-slot inventory |
| Spread.Gather | src/session/handlers/inventory.js:704-781 | a `null` cursor throws; an empty cursor over an empty slot changes nothing; an empty cursor over a `null` slot throws; an empty cursor over a stored stack of count zero or less clears the slot, leaves the cursor empty and throws exactly when a scanned slot is `null` |
| Spread.Collect | src/session/handlers/inventory.js:720-780 | a cursor without a stack throws |
| Spread.Passes | src/session/handlers/inventory.js:722-778 | the four scans change only slots, never the cursor |
| Spread.PassesTally | src/session/handlers/inventory.js:722-778 | the four scans together move items from slots to the count one for one, and the count moves toward the stack size and never past it |
| Spread.PickUp | src/session/handlers/inventory.js:714-718 | picking up the clicked stack moves all its items from the slot to the cursor |
| Spread.CollectTally | src/session/handlers/inventory.js:720-780 | gathering keeps the count of the gathered kind, cursor included, and the cursor ends with at most a full stack or what it held |
| Spread.GatherFinish | src/session/handlers/inventory.js:780 | the cursor takes the gathered count and the total of the kind is unchanged |
| Spread.GatherConserves | src/session/handlers/inventory.js:704-781 | a double click neither creates nor loses items of the gathered kind, counting the cursor, and the cursor ends with at most a full stack or what it started with |
| Spread.GatherPicked | src/session/handlers/inventory.js:714-780 | with an empty cursor, the clicked stack and everything gathered end on the cursor, and the total of its kind is unchanged |
| Drag.LeftSlot | src/session/handlers/inventory.js:663-676 | one turn of the left drag: a `null` slot throws, any other slot is written, and nothing but the slots changes |
| Drag.LeftPass | src/session/handlers/inventory.js:663-677 | the left drag's loop changes nothing but the slots |
| Drag.RightSlot | src/session/handlers/inventory.js:686-698 | one turn of the right drag: a `null` slot throws, any other slot is written or skipped, and nothing but the slots changes |
| Drag.RightPass | src/session/handlers/inventory.js:686-699 | the right drag's loop changes nothing but the slots |
| Drag.Finish | src/session/handlers/inventory.js:678-679 | what is left of the count goes back on the cursor (nothing when it is spent), the drag is forgotten and every slot reads as the drag left it |
| Drag.LeftDrag | src/session/handlers/inventory.js:657-680 | a `null` cursor throws, an empty cursor makes every count `NaN`, and a finished drag clears the drag slots and keeps the window, sizes and pending actions |
| Drag.RightDrag | src/session/handlers/inventory.js:682-702 | a `null` cursor throws, an empty cursor makes every count `NaN`, and a finished drag clears the drag slots and keeps the window, sizes and pending actions |
| Drag.Share | src/session/handlers/inventory.js:660 | the per-slot share of a non-negative count is non-negative, the shares fit in the count, and what is left is the remainder |
| Drag.LeftPassTally | src/session/handlers/inventory.js:663-677 | over slots that are empty or hold the cursor's item, the left drag's loop moves items from the count into the slots one for one |
| Drag.LeftStep | src/session/handlers/inventory.js:663-676 | one turn of the left drag takes no more than the count and adds exactly what it takes to the slots |
| Drag.RightPassTally | src/session/handlers/inventory.js:686-699 | over slots that are empty or hold the cursor's item, the right drag's loop moves items from the count into the slots one for one, at most one per slot |
| Drag.RightStep | src/session/handlers/inventory.js:686-698 | one turn of the right drag takes zero or one item and adds exactly that to the slots |
| Drag.LeftDragConserves | src/session/handlers/inventory.js:657-680 | a left drag over slots that are empty or hold the cursor's item finishes and loses and creates nothing, counting the cursor |
| Drag.RightDragConserves | src/session/handlers/inventory.js:682-702 | a right drag over such slots finishes, loses and creates nothing, and takes at most one item per slot off the cursor |
| Drag.LeftPassFrame | src/session/handlers/inventory.js:663-677 | a left drag leaves every place that no drag slot names as it was |
| Drag.RightPassFrame | src/session/handlers/inventory.js:686-699 | a right drag leaves every place that no drag slot names as it was |
| Drag.LeftPassEven | src/session/handlers/inventory.js:663-677 | over blank slots with a share that fits the stack size, every drag slot receives exactly the share |
| Drag.LeftPassEvenCount | src/session/handlers/inventory.js:663-677 | over blank slots with a share that fits the stack size, the count drops by exactly the shares handed out |
| Drag.LeftDragEven | src/session/handlers/inventory.js:657-680 | a left drag of a stack over blank slots splits it evenly: `count / n` in every slot and the remainder `count % n` on the cursor |
| Drag.RightPassOneEach | src/session/handlers/inventory.js:686-699 | over blank slots with at least one item per slot, the right drag's loop puts one item in every slot and takes one per slot |
| Drag.RightDragOneEach | src/session/handlers/inventory.js:682-702 | a right drag of a stack over at most as many blank slots as it has items leaves one item in each and the rest on the cursor |
| Actions.Lookup | src/session/handlers/inventory.js:276-280 | an action is found only under a window that has a table |
| Actions.AddActionLookup | src/session/handlers/inventory.js:321-336 | after recording an action it is found under its window and number, every other record is found as before, and no window or number appears twice |
| Actions.TidyGet | src/session/handlers/inventory.js:331-336 | a window's table found in the pending table is non-empty and has no duplicate action number |
| Actions.TidyAfterSet | src/session/handlers/inventory.js:335 | installing a non-empty window table keeps that shape |
| Actions.TidyAfterDelete | src/session/handlers/inventory.js:300-303 | deleting a window keeps that shape |
| Actions.Settle | src/session/handlers/inventory.js:299-304 | putting a window's table back changes nothing but the pending table |
| Actions.Transaction | src/session/handlers/inventory.js:274-305 | an unknown window or action number leaves the mirror exactly as it was |
| Actions.SettleLookup | src/session/handlers/inventory.js:299-304 | dropping an action removes exactly that record, keeps every other, and keeps the shape |
| Actions.SettleEmptied | src/session/handlers/inventory.js:300-302 | when a window's last action goes, the window goes and every other record stays |
| Actions.SettleKept | src/session/handlers/inventory.js:299-304 | when other actions remain, only the dropped record is gone |
| Actions.AcceptKeepsInventory | src/session/handlers/inventory.js:283-284 | an accepted transaction drops exactly its action and leaves the inventory and the container as they were |
| Actions.RejectRestoresSlot | src/session/handlers/inventory.js:285-289 | a rejected one-slot action writes its slot and cursor back, touches no other place, and drops exactly its action |
| Actions.RejectRestoresSnapshot | src/session/handlers/inventory.js:285-290 | a rejected snapshot of the open window restores the container and replaces the inventory by a deep copy of the saved one, or, for a live snapshot, of the inventory as it stands, which loses the `NaN` property |
| Actions.RejectOtherWindowKept | src/session/handlers/inventory.js:291 | a rejected snapshot from a window other than the open one changes nothing and stays pending |
| Actions.PruneLookup | src/session/handlers/inventory.js:307-319 | pruning keeps exactly the actions at most five seconds old, and no window is left without actions |
| Clicks.Held | src/session/handlers/inventory.js:48-95 | as written a one-slot click's record holds the slot's own object, so it ends up holding what the click left there; as intended it holds the item as it was |
| Clicks.FullUndo | src/session/handlers/inventory.js:338-343 | a whole-window record copies the container; as written it holds the live inventory, as intended a copy of its slots, cursor and held slot |
| Clicks.LeftClick | src/session/handlers/inventory.js:46-70 | a left click outside the window clears the cursor; a `null` cursor throws; an empty cursor swaps with the slot; only the clicked slot and the cursor change; as intended the record holds the slot and cursor as they were |
| Clicks.RightClick | src/session/handlers/inventory.js:71-95 | a right click outside the window drops one item from the cursor; a `null` cursor throws; only the clicked slot and the cursor change; as intended the record holds the slot and cursor as they were |
| Clicks.ShiftLocations | src/session/handlers/inventory.js:101-124 | without a container, hotbar stacks go to the main inventory and main-inventory stacks to the hotbar; with one, container stacks go to the player's slots and the rest to the container |
| Clicks.ShiftClick | src/session/handlers/inventory.js:96-124 | a shift-click keeps the window, the sizes and the drag, throws when the spread throws, and otherwise stores in the clicked slot what the spread hands back |
| Clicks.NumberSlot | src/session/handlers/inventory.js:132 | an `undefined` number key names the `NaN` key; a number key names the hotbar slot `_getSlotFromNumberKey` computes |
| Clicks.NumberKey | src/session/handlers/inventory.js:127-150 | as written a number key over a container slot changes nothing; over any other slot it swaps the slot with the slot the key names, which for an `undefined` key is the `NaN` property; the window and pending actions never change |
| Clicks.NumberKeyCarries | src/session/handlers/inventory.js:127-150 | two `undefined` number keys over two different slots carry the first slot's stack through the `NaN` property into the second slot |
| Clicks.NumberKeyTwiceRestores | src/session/handlers/inventory.js:148-149 | pressing an `undefined` number key twice over the same slot leaves every place, the `NaN` property and the cursor as they were |
| Clicks.DoubleClick | src/session/handlers/inventory.js:218-225 | a double click keeps the window, sizes and drag, and throws exactly when gathering throws |
| Clicks.DragClick | src/session/handlers/inventory.js:186-217 | a drag click outside the window starts a drag; a click on a new slot with the button one above the state joins the drag; the matching click outside ends a left or right drag; nothing else touches the drag |
| Clicks.Drop | src/session/handlers/inventory.js:156-185 | a drop outside the window with a `null` cursor throws and with an empty cursor does nothing; an `undefined` `button` on a slot falls into the drag code with a whole-window record; the one-slot drops record the slot and cursor |
| Clicks.Handle | src/session/handlers/inventory.js:44-225 | only drops and drag clicks change the drag, and then only as a drag click may; no click changes the window, the sizes or the pending table while mirroring |
| Clicks.Logged | src/session/handlers/inventory.js:331-336 | recording the action changes only the pending table and keeps how the click ended |
| Clicks.WindowClick | src/session/handlers/inventory.js:27-225 | clicks in another window, on slot -1 or in modes the handler does not mirror change nothing; a drag starts only on a drop or drag click outside the window, with the mouse button as its state |
| ClickLaws.ClickRecords | src/session/handlers/inventory.js:27-225 | every handled click is recorded under its window and action number with its time, one-slot clicks record the slot and the cursor before the click, whole-window clicks a snapshot, and no other record changes |
| ClickLaws.DragSlotsStayDistinct | src/session/handlers/inventory.js:201-205 | a drag never lists a slot twice, whatever clicks arrive |
| ClickLaws.RejectUndoesSlotClick | src/session/handlers/inventory.js:46-95 | as intended, rejecting a normal click puts every slot and the cursor back as they were before the click and drops its record |
| ClickLaws.UndoSlot | src/session/handlers/inventory.js:285-289 | a slot record written before a click that changed only that slot and the cursor undoes it completely |
| ClickLaws.RejectDropsRecord | src/session/handlers/inventory.js:299-304 | rejecting a just-recorded slot action drops exactly that record |
| ClickLaws.RestoreGivesBack | src/session/handlers/inventory.js:285-289 | restoring a slot record gives back the slot and the cursor as they were |
| ClickLaws.RejectRestoresWindow | src/session/handlers/inventory.js:285-290 | rejecting a whole-window click restores the container; the inventory comes back as it was (as a deep copy) as intended, but as written keeps the click's changes |
| ClickLaws.SlotAliasLoses | src/session/handlers/inventory.js:71-90 | as written, rejecting a right click that halved a stack of ten leaves five in the slot and none on the cursor; as intended the ten come back |
| ClickLaws.SnapshotAliasKeepsClick | src/session/handlers/inventory.js:338-343 | as written, rejecting a number-key swap keeps the swap; as intended the stack returns to its slot |
| ClickLaws.ClickedNotScanned | src/session/handlers/inventory.js:101-124 | as intended, the locations a shift-click spreads over never include the clicked slot |
| ClickLaws.ShiftClickConserves | src/session/handlers/inventory.js:96-124 | as intended, a shift-click neither creates nor loses items of the clicked stack's kind |
| ClickLaws.PutBackCount | src/session/handlers/inventory.js:96-124 | storing what the spread hands back in the clicked slot completes the count: nothing is lost or made |
| ClickLaws.SelfMergeLoses | src/session/handlers/inventory.js:510-537 | as written, a shift-click of a main-inventory stack of ten with an empty hotbar merges the stack into itself and empties its slot: ten items vanish |
| ClickLaws.SelfMergeSpread | src/session/handlers/inventory.js:510-537 | as written, spreading a main-inventory stack over "hotbar" reaches its own slot and reports everything placed |
| ClickLaws.OverflowLost | src/session/handlers/inventory.js:589-594 | as written, an inventory stack shift-clicked into an open container whose every slot holds another kind is replaced by `undefined`; as intended it stays in its slot |
| ClickLaws.NumberKeyMovesToHotbar | src/session/handlers/inventory.js:133-146 | as intended, a number key over a container stack with an empty hotbar target moves the stack there when the main inventory has room, and changes nothing when it is full |
| ClickLaws.MoveToEmptyHotbar | src/session/handlers/inventory.js:596-622 | moving a container stack into an empty hotbar slot puts it there, empties the container slot and leaves nothing over |
| GameState.Strip | src/session/game-state.js:9 | removing every `§` and the character after it never lengthens a string |
| GameState.PlainIsStripped | src/session/game-state.js:9 | a string without a colour code comes back unchanged |
| GameState.StrippedIsPlain | src/session/game-state.js:9 | what comes back holds no colour code |
| GameState.StripIdempotent | src/session/game-state.js:7-10 | a string comes back unchanged exactly when it holds no colour code, so stripping twice is stripping once |
| GameState.StripColorCodes | src/session/game-state.js:7-10 | a value that is not a string comes back as it is; a string comes back without colour codes and no longer |
| GameState.ByteToYaw | src/session/game-state.js:23-25 | a byte maps into [0, 360) degrees, and scaling back by 256/360 gives the byte |
| GameState.ByteToPitch | src/session/game-state.js:27-30 | a byte maps into [-90, 90) degrees, and scaling back by 128/90 gives the byte's signed reading, equal to it modulo 256 |
| GameState.ExtractText | src/session/game-state.js:233-244 | the loop over `extra` builds the same text as the recursive definition: a string is itself, a falsy component is empty, an object is its `text` followed by the text of each element of an `extra` array |
| GameState.BitAnd | src/session/game-state.js:185-187 | the bitwise and of two numbers below `2^n` is below `2^n` |
| GameState.Low4 | src/session/game-state.js:185-187 | `x & 15` on the number wrapped to 32 bits is a 32-bit value |
| GameState.BitAndMask | src/session/game-state.js:185-187 | masking with `2^k - 1` keeps exactly the remainder modulo `2^k` |
| GameState.SplitRecombines | src/session/game-state.js:179-187 | the chunk coordinate `Math.floor(x / 16)` times 16 plus the in-chunk coordinate `x & 15` gives back `x`, for negative `x` too |
| GameState.WrapKeepsLowBits | src/session/game-state.js:185-187 | wrapping to 32 bits keeps the low four bits |
| GameState.FloorOfSixteenth | src/session/game-state.js:179-180 | `Math.floor(x / 16)` is the floored integer division |
| GameState.GetBlock | src/session/game-state.js:178-191 | no block is found exactly when the chunk is not loaded; otherwise the block is looked up in that chunk at the in-chunk coordinates, which lie in 0..15 and recombine with the chunk to the world coordinates |
| GameState.Reset | src/session/game-state.js:32-45 | a reset forgets the login, every player, team, entity, scoreboard, mapping and chunk, puts health at 20 and the position at the origin, and empties all 45 slots and the cursor |
| GameState.PlayerByName | src/session/game-state.js:193-200 | the lookup finds nobody exactly when no listed player has the name, and otherwise the first listed player with it |
| GameState.PlayerByEntityId | src/session/game-state.js:246-259 | a player is found only through a non-empty UUID mapped from the entity id and a listed player under it; an unmapped id, an empty UUID or an unlisted UUID finds nobody |
| GameState.ResetForgetsPlayers | src/session/game-state.js:32-45 | after a reset no entity id and no name finds a player |
| Gui.Create | src/plugin-api/api/gui.js:2-10 | a new window has no items, is on its first page with one page the size of the window, and has no border and no buttons |
| Gui.SetItem | src/plugin-api/api/gui.js:12-15 | the slot then holds the item and every other slot is as it was; a new slot's item goes last in insertion order, a replaced one keeps its place; nothing else changes |
| Gui.OnClick | src/plugin-api/api/gui.js:17-20 | the slot's handler is set and nothing else changes |
| Gui.AddBorder | src/plugin-api/api/gui.js:26-29 | the border is the given item, or the grey pane when none is given; nothing else changes |
| Gui.SetPagination | src/plugin-api/api/gui.js:31-36 | the page size and both buttons are set and nothing else changes |
| Gui.Values | src/plugin-api/api/gui.js:93 | `Array.from(items.values())` lists the items in insertion order |
| Gui.SliceBound | src/plugin-api/api/gui.js:93 | a slice bound within the array is kept and one past its end is clamped to the length |
| Gui.Slice | src/plugin-api/api/gui.js:93 | `slice(start, end)` holds the elements from the clamped start up to the clamped end, in order |
| Gui.Rank | src/plugin-api/api/gui.js:94-102 | the number of free slots before a slot is at most the slot's index |
| Gui.Rendered | src/plugin-api/api/gui.js:82-118 | the rendered window has one item per slot, each what the rendering rules put there |
| Gui.Render | src/plugin-api/api/gui.js:82-118 | the three loops of `render` build exactly the rendered window |
| Gui.Frame | src/plugin-api/api/gui.js:83-91 | the first loop puts the border in every slot of the top and bottom rows and the outer columns, and leaves the others empty |
| Gui.LayPage | src/plugin-api/api/gui.js:94-102 | the second loop fills the free slots with the page's items in order, leaving the rest as framed |
| Gui.RankIncreases | src/plugin-api/api/gui.js:94-102 | a free slot precedes every later slot in the count of free slots, so no two free slots take the same page item |
| Gui.RankReaches | src/plugin-api/api/gui.js:94-102 | every count below a slot's rank belongs to some free slot before it |
| Gui.PageLaidOutInOrder | src/plugin-api/api/gui.js:93-102 | every page item that fits is shown in exactly one free slot |
| Gui.NoBorderRank | src/plugin-api/api/gui.js:94-102 | without a border every slot is free and its rank is its index |
| Gui.NoBorderShowsPage | src/plugin-api/api/gui.js:93-102 | without a border, slot `i` shows the page's `i`-th item, or nothing past the page's end, except at the two button positions |
| Gui.BorderFramesWindow | src/plugin-api/api/gui.js:85-102 | with a border, edge slots show the border and inner slots show the page's items in order |
| Gui.CreatedIsBlank | src/plugin-api/api/gui.js:2-10 | a newly created window renders with every slot empty |
| Gui.Show | src/plugin-api/api/gui.js:74-80 | when no chest opens, nothing is remembered and nothing is sent; otherwise the player is remembered as viewing the shared window object under the chest's id, other players are untouched, and the rendered window is sent |
| Gui.Edit | src/plugin-api/api/gui.js:12-36 | a change to a window object replaces that object only; who views what is kept |
| Gui.OnWindowClick | src/plugin-api/api/gui.js:45-66 | a click in a window the player is not shown is ignored; otherwise it is rejected, the window is re-sent, a shown previous-page button clicked moves the page back one and a shown next-page button forward one, each re-sending the window a second time, and any other click sends no third message; only the page of the shared window object changes, other objects and who views what are kept |
| Gui.Turn | src/plugin-api/api/gui.js:54-63 | a page turn changes the page of the shared window object, keeps every other object and viewer, and sends the window rendered at the new page |
| Gui.PageStaysValid | src/plugin-api/api/gui.js:54-64 | a click moves the viewed window's page by at most one and never below zero; back only from the previous button, forward only from the next button and only onto a page with items |
| Gui.NextThenPrev | src/plugin-api/api/gui.js:54-64 | clicking next and then previous, when both are shown, leaves the whole manager as it was |
| Gui.SharedPageTurn | src/plugin-api/api/gui.js:45-77 | when two players view the same window object, a page turn by one is the page the other then sees |
| Gui.EditSeenByViewers | src/plugin-api/api/gui.js:45-53 | an edit to a shown window object is what its viewer's next click re-sends |
| Aliases.LowerChar | src/commands/aliases.js:62 | a capital letter becomes its small letter, 32 code points on; every other character is kept |
| Aliases.Lower | src/commands/aliases.js:62 | lower-casing keeps the length and lowers each character on its own |
| Aliases.LowerIdempotent | src/commands/aliases.js:62 | a lowered alias holds no capital letter, so lowering it again changes nothing |
| Aliases.Join | src/commands/aliases.js:54-56 | a single word joins to itself |
| Aliases.JoinEmpty | src/commands/aliases.js:54-58 | a joined command is empty only when there are no words or a single empty word, so only those are usage errors |
| Aliases.Resolve | src/commands/aliases.js:51-56 | a string command is kept and an absent one reads as empty |
| Aliases.Add | src/commands/aliases.js:49-76 | a missing or empty alias or command is a usage error and an alias starting with `/` is refused, both leaving the configuration's table, or its absence, alone; otherwise the table, or a new one when there is none, gets the alias: `__proto__` replaces its prototype and keeps its own entries; any other lower-cased alias maps to the command and flag, every other alias kept |
| Aliases.Remove | src/commands/aliases.js:78-94 | a missing or empty alias is a usage error; otherwise the reply is "removed" exactly when the configuration has a table and the lower-cased key is found on it or its prototype chain with a truthy value, so without a table every alias is "not found"; only an own entry is deleted, every other entry and the prototype are kept |
| Aliases.AddThenRemove | src/commands/aliases.js:49-94 | adding an alias other than `__proto__` and removing it in any spelling that differs only in case succeeds and leaves the table as it was without that own entry |
| Aliases.ProtoAliasSticks | src/commands/aliases.js:69-93 | adding the alias `__proto__` replaces the prototype instead of adding an entry; removing it afterwards is reported as done but changes nothing, and the alias `command` then reads as present |
| Aliases.InheritedNameRemoved | src/commands/aliases.js:87-90 | removing `constructor` with no such entry is reported as done and changes nothing, because the key is inherited; before the configuration has a table the same removal is "not found" |
| Aliases.AddOverwrites | src/commands/aliases.js:67-72 | adding the same alias twice keeps only the second command |
| Bedwars.RemoveCodes | plugins/bedwarsutilities-0-1-2.js:90 | removing the formatting codes never lengthens a message |
| Bedwars.TextStart | plugins/bedwarsutilities-0-1-2.js:90 | the first character `trim` keeps is the first that is not white space |
| Bedwars.TextEnd | plugins/bedwarsutilities-0-1-2.js:90 | the last character `trim` keeps is the last that is not white space |
| Bedwars.Trim | plugins/bedwarsutilities-0-1-2.js:90 | a trimmed message neither starts nor ends with white space and is no longer than the message |
| Bedwars.SliceOccurs | plugins/bedwarsutilities-0-1-2.js:92 | a text occurs in a part of a message exactly when it occurs in the message within that part |
| Bedwars.TrimmedKeepsContains | plugins/bedwarsutilities-0-1-2.js:90-92 | cutting white space off both ends keeps every occurrence of a text that starts and ends with a visible character |
| Bedwars.TrimKeepsContains | plugins/bedwarsutilities-0-1-2.js:90-92 | trimming never decides whether such a text is contained |
| Bedwars.AnnouncementsSolid | plugins/bedwarsutilities-0-1-2.js:91-98 | the three announcements start and end with visible characters |
| Bedwars.ClassifiersIgnoreSpace | plugins/bedwarsutilities-0-1-2.js:89-99 | a message is a start (an end) announcement exactly when the message without its codes contains the start text (either end text); the trim decides nothing |
| Bedwars.RemoveCodesAppend | plugins/bedwarsutilities-0-1-2.js:90 | removing codes from two joined pieces is removing them from each, unless the first ends in a `§` that could pair with the second |
| Bedwars.NoSectionUntouched | plugins/bedwarsutilities-0-1-2.js:90 | a message without `§` keeps all its characters |
| Bedwars.PlainStartRecognised | plugins/bedwarsutilities-0-1-2.js:89-93 | any message holding the start text, in a position no `§` before it can break, is a start announcement |
| Bedwars.CodesAroundPlainText | plugins/bedwarsutilities-0-1-2.js:90 | codes before and after a text without `§` are removed and the text is kept whole |
| Bedwars.CodeDropped | plugins/bedwarsutilities-0-1-2.js:90 | a `§` followed by a colour or format character is removed together with that character |
| Bedwars.HandleGameStart | plugins/bedwarsutilities-0-1-2.js:109-123 | after a start the game is running, and the start event is emitted only when it was not running already |
| Bedwars.HandleGameEnd | plugins/bedwarsutilities-0-1-2.js:101-107 | after an end the game is not running, and the end event is emitted only when it was |
| Bedwars.OnWorldChange | plugins/bedwarsutilities-0-1-2.js:67-73 | a respawn ends a running game with the end event and otherwise does nothing |
| Bedwars.OnChat | plugins/bedwarsutilities-0-1-2.js:75-87 | while disabled chat changes nothing; a start announcement starts, and only a message that is not one can end; any other message changes nothing |
| Bedwars.StartIdempotent | plugins/bedwarsutilities-0-1-2.js:110-112 | a second start emits nothing and changes nothing |
| Bedwars.Feed | plugins/bedwarsutilities-0-1-2.js:67-123 | any input emits at most one event: a start only from a stopped game and an end only from a running one, and no event means no change |
| Bedwars.EventsAlternate | plugins/bedwarsutilities-0-1-2.js:67-123 | over any run of chat and respawn inputs, start and end events strictly alternate, beginning with whichever the current state allows, and the state at the end matches the number of events |
| Bedwars.Alternation | plugins/bedwarsutilities-0-1-2.js:67-123 | one step's event put in front of an alternating sequence keeps it alternating |
| ServerWindow.StoreOf | src/session/handlers/inventory.js:255 | an array's entries are found at their indices and nowhere else |
| ServerWindow.OrEmpty | src/session/handlers/inventory.js:259 | an absent listing entry becomes the empty item and a present one is kept |
| ServerWindow.HeldItemSlot | src/session/handlers/inventory.js:23-25 | selecting a hotbar slot changes the held slot only: every slot and the cursor read as before |
| ServerWindow.OpenWindow | src/session/handlers/inventory.js:268-272 | the window id becomes current in every case; a negative slot count then throws, leaving the container and sizes as they were; otherwise the size is recorded, other windows' sizes are kept, and the inventory, pending actions and drag are untouched |
| ServerWindow.CloseWindow | src/session/handlers/inventory.js:228-232 | closing returns to the player's window with no container and forgets exactly the closed window's size; the inventory, pending actions and drag are kept |
| ServerWindow.SetSlotPacket | src/session/handlers/inventory.js:234-251 | slot -1 sets the cursor as `_setCursorItem` does; a packet for another container is ignored; a packet for the open window of unknown size writes the inventory array's `NaN` property and no slot; no slot update changes the window, sizes, pending actions, drag or, apart from slot -1, the cursor |
| ServerWindow.StrayUpdateReadsBack | src/session/handlers/inventory.js:243-250 | while the open container's size is unknown, an update of any of its slots is read back by every slot number and by an `undefined` number key |
| ServerWindow.SetSlotReadsBack | src/session/handlers/inventory.js:241-249 | an update for the open container's slot reads back exactly the item sent, through the addressing clicks use, and no other place changes |
| ServerWindow.PlayerSlotUpdate | src/session/handlers/inventory.js:239-240 | a window-0 update for slots 0 to 44 writes that inventory index whatever window is open, and changes nothing else |
| ServerWindow.SliceEnd | src/session/handlers/inventory.js:264 | `slice(0, end)` keeps everything for an undefined end and exactly `end` entries for an end within the array |
| ServerWindow.Refill | src/session/handlers/inventory.js:257-260 | indices 9 to 44 take the listing's last entries in order, absent ones read empty, and every other index is kept |
| ServerWindow.WindowItems | src/session/handlers/inventory.js:253-266 | a window-0 listing replaces the inventory array with its first 45 entries, dropping the `NaN` property; a listing for another container leaves the open container alone; the cursor, held slot, window, sizes, pending actions and drag never change |
| ServerWindow.PlayerListingReadsBack | src/session/handlers/inventory.js:254-255 | with no container open, a full window-0 listing reads back slot by slot and nothing past slot 44 remains |
| ServerWindow.ContainerListingReadsBack | src/session/handlers/inventory.js:256-265 | a full listing of the open container reads back slot by slot through the click addressing: container slots first, then the 36 inventory slots, absent entries reading empty |
| ServerWindow.OpenedWindowLayout | src/session/handlers/inventory.js:268-272 | a freshly opened container's slots read empty and the slots after them show the player's inventory from index 9 |
| ServerWindow.OpenThenClose | src/session/handlers/inventory.js:228-232 | opening a window and then closing it leaves the same state as closing it alone, and every slot number is again an inventory index |

## Left out

- Chat messages, sounds, `saveConfig`, `createChest`, `setWindowItems`, `sendTransaction`, `setTimeout`, the `/who` request, `debugLog`, the rendering of alerts and `updateTabList`: output and I/O. The model returns notices, replies and page turns as data instead.
- The `setInterval` pruning timer: pruning is a function of the clock reading `now`, applied by whoever calls it.
- lodash `cloneDeep` and object copies: datatypes are values, so a copy is the value itself, except that a deep copy of the inventory drops the `NaN` property (`Inventory.Clone`). Where the source shares a live object within one click, the sharing is modelled explicitly (see `Clicks.Held` and the snapshot `Variant`).
- Stack sizes from minecraft-data: `_getStackSize` is modelled as an abstract `StackSizes` table passed in, not the item database.
- The partial state a thrown `TypeError` leaves behind: a throw is the `Threw` outcome, carrying the state before the handler.
- `NaN` arithmetic: a missing number is `None`, and the branches the source takes on `NaN` comparisons are written out where they matter. The one `NaN` array index the source writes and reads back, the inventory's `slots["NaN"]`, is the `stray` field.
- The trigonometric detectors (EagleA, AimA, StrafeA, and the attack raycast of `performAttackChecks`): their geometric verdicts are a `Geometry` parameter, because they rest on floating-point trigonometry.
- Floating point: positions, velocities and angles are `real`, so rounding is not modelled. `Math.sqrt` comparisons are stated on squares.
- UTF-16 code units: strings are sequences of `char`, and colour codes and lengths are counted in those.
- Aliases.LowerChar: only `A` to `Z` are lowered; `toLowerCase` also lowers other capitals such as `À` and `Ä`, which the model keeps, because the Unicode case tables are not modelled.
- Aliases.Lower: inherits the ASCII-only lowering of `Aliases.LowerChar`, so an alias with a non-ASCII capital is stored under a different key than the source's.
- `Object.prototype` keys other than `constructor` and `__proto__`: a lower-cased alias cannot name the others (they all hold a capital letter), so the table's inherited keys are those two, plus `command` and `passthrough` once `__proto__` has been replaced by an alias object. An absent `config.aliases` is kept apart from an empty table: adding creates one, removing finds nothing.
- The per-item `onClick` handlers: the interceptor never consults them. GUI objects are references into a heap of windows, so several players can view one object.
- A negative or fractional GUI size: sizes are natural numbers.
- `chunk.get` in `getBlock`, `JSON.parse` in the formatted name, and the packet dispatch that feeds the handlers: they sit outside the game-state core.
- AutoClickerA: `CONFIG` is built from the keys of `CHECKS`, which has no AutoClickerA entry, so its branch in the animation handler never runs. Only the swing-progress update is modelled.
- The write-only record fields `isCurrentPlayer`, `lastSwingTime` and `lastSwingItem`: nothing reads them.
- A spawn under entity id -1: `Session.Fits` excludes it, because the server never sends one.
- Events.HandleBlockPlace: the record's `scaffoldA.isCurrentlySwinging` flag is only ever initialised to `false`, so the model has no flag and every block the user places counts as a violation.
- `refreshConfigConstants` and command registration: configuration is the `Settings` value.
- Writes into the `null` container array while no container is open: window id 0 stands for that state, and a container slot write then throws.
- `calc.js`, `report-tracker.js` and `build.js`: outside the modelled core.
- Aliases.Join: the contract states only the single-word case; `Aliases.JoinEmpty` states when a join is empty.
- RejectRestoresSnapshot: a live snapshot is modelled as restoring the inventory current at the rollback. In the source it restores the object captured at the click, which differs once an earlier full rollback or a `reset` has installed a new inventory object in between; object identity across clicks is not modelled.
- Clicks.FullUndo: as written the record saves no inventory and the rollback uses the current one, which is the same object only while no rollback or `reset` has replaced it (see RejectRestoresSnapshot).
- Clicks.Held: the shared slot object is followed within the click that records it. A later double-click gather that decrements that slot's stack in place (`slots[i].itemCount -= toAdd`) would also change the older record, which the model does not follow.
- Drag.LeftDrag: an empty cursor ends with `NotANumber`, carrying the state before the drag. The source goes on with `NaN` counts: it writes items with a `NaN` count into the dragged slots, leaves a `NaN`-count cursor and clears the drag state. Items with a `NaN` count are not modelled.
- Drag.RightDrag: an empty cursor ends with `NotANumber` as in `Drag.LeftDrag`. The source instead writes one item of the empty cursor's kind into each dragged slot, leaves a `NaN`-count cursor and clears the drag state.
- The anticheat record's `heldItem` is kept as the resolved item id (`blockId || itemId || id`), not the item object, because only the id is ever read.

## Findings

| source | as written | input that shows it | evidently intended | confidence | as-written member | corrected member |
|---|---|---|---|---|---|---|
| src/session/handlers/inventory.js:509-552 | the merge loop of a shift-click has no `break`, and it also scans the clicked slot itself | a main-inventory stack of ten, the same kind nowhere else, an empty hotbar | the stack moves to the hotbar and no item is lost | not executed | ClickLaws.SelfMergeLoses | ClickLaws.ShiftClickConserves |
| src/session/handlers/inventory.js:589-594 | a stack that fits nowhere makes `_distributeItems` return `undefined`, which is written into the clicked slot | an inventory stack shift-clicked into an open container whose every slot holds another kind | the stack stays in its slot | not executed | ClickLaws.OverflowLost | ClickLaws.ShiftClickConserves |
| src/session/handlers/inventory.js:134-139 | mode 2 over a container slot tests `_isEmpty(slot)` on the slot number and `_isFull('inventory')` on the string's characters, so it never moves anything | number key 1 over a container stack with an empty first hotbar slot | the stack moves to the hotbar slot when the inventory has room | not executed | Clicks.NumberKey | ClickLaws.NumberKeyMovesToHotbar |
| src/session/handlers/inventory.js:338-343 | the full snapshot keeps the live inventory array, so a rollback restores nothing of the inventory | a number-key swap that the server rejects | the inventory returns to its state before the click | not executed | ClickLaws.SnapshotAliasKeepsClick | ClickLaws.RejectRestoresWindow |
| src/session/handlers/inventory.js:71-90 | a one-slot click's undo record holds the slot's own item object, which the click then modifies | a right click halving a stack of ten that the server rejects | the ten items come back to the slot | not executed | ClickLaws.SlotAliasLoses | ClickLaws.RejectUndoesSlotClick |
| src/session/handlers/inventory.js:609-621 | `_moveItem` assigns the undeclared variable `remainder`, which throws a `ReferenceError` in a class body, after the target has already been written when two stacks overflow it | a stack of 40 moved onto a stack of 40 of the same kind with a stack size of 64 | the target holds 64 and the 16 left over are returned | not executed; latent as written, because the only caller, the mode-2 container branch, never reaches it | MoveLaws.MoveItemRaises | MoveLaws.MoveItemKeeps |
