/** The anticheat engine's identity registry and its event handlers
    (plugins/anticheat-1-2-1.js, class AnticheatSystem).

    The engine keeps player records as shared JavaScript objects: the same
    record is reachable by username, by uuid and by entity id, and a record
    can stay reachable under an entity id after a newer record replaced it
    under its uuid. The model therefore stores records in a heap of
    references and lets the three tables hold references. The entity table
    is insertion-ordered because removal by uuid deletes the first entry,
    in that order, whose record carries the uuid. */
module Registry {
  import opened Common
  import opened AcTypes
  import opened Governor
  import opened Tracker
  import opened Checks
  import opened JsMaps

  type Ref = nat

  datatype Engine = Engine(
    heap: map<Ref, Player>, nextRef: Ref,
    players: map<string, Ref>,
    byUuid: map<string, Ref>,
    entityToPlayer: JsMap<int, Ref>,
    uuidToName: map<string, string>,
    uuidToDisplayName: map<string, string>,
    gracePeriodEnd: int)

  /** The entity id a record has before any entity id is known. */
  const NoEntity: int := -1

  /** `startGracePeriod()` without an argument pauses the checks this long (ms). */
  const DefaultGracePeriod := 5000

  const UnknownName := "Unknown"

  /** What an event tells the registry about a player. Empty strings and
      entity id 0 stand for the values JavaScript treats as false. */
  datatype PlayerInfo = PlayerInfo(name: string, uuid: string, entityId: int, displayName: string)

  /** A registry after `getOrCreatePlayer`, with the record it returned. */
  datatype Found = Found(reg: Engine, ref: Option<Ref>)

  /** A registry after an event that may run the checks. */
  datatype Handled = Handled(reg: Engine, notices: seq<Notice>)

  // ---------------------------------------------------------------------
  // Representation invariants

  /** Every reference the tables hold names a record, and `nextRef` is
      fresh. This is what JavaScript references guarantee for free. */
  ghost predicate Closed(reg: Engine) {
    && (forall r :: r in reg.heap ==> r < reg.nextRef)
    && (forall n :: n in reg.players ==> reg.players[n] in reg.heap)
    && (forall u :: u in reg.byUuid ==> reg.byUuid[u] in reg.heap)
    && (forall i :: 0 <= i < |reg.entityToPlayer| ==> reg.entityToPlayer[i].value in reg.heap)
  }

  /** The tables agree with the records: a uuid leads to a record with that
      uuid, and an entity id leads to a record with that entity id. */
  ghost predicate Valid(reg: Engine) {
    && Closed(reg)
    && (forall u :: u in reg.byUuid ==> reg.heap[reg.byUuid[u]].id.uuid == u)
    && Distinct(reg.entityToPlayer)
    && Agrees(reg.entityToPlayer, reg.heap)
  }

  /** The engine as constructed: empty tables, no grace period yet. */
  function Initial(): (reg: Engine)
    ensures Valid(reg)
    ensures reg.byUuid == map[] && reg.entityToPlayer == [] && reg.gracePeriodEnd == 0
  {
    Engine(map[], 0, map[], map[], [], map[], map[], 0)
  }

  /** `entityToPlayer.get(e)`. */
  function ByEntity(reg: Engine, e: int): Option<Ref> {
    Get(reg.entityToPlayer, e)
  }

  /** Under the invariant an entity id leads to a record with that id. */
  lemma ByEntityAgrees(reg: Engine, e: int)
    requires Valid(reg) && ByEntity(reg, e).Some?
    ensures ByEntity(reg, e).value in reg.heap
    ensures reg.heap[ByEntity(reg, e).value].id.entityId == e
  {
  }

  /** Writes a record back under its reference. */
  function Put(reg: Engine, r: Ref, p: Player): (res: Engine)
    requires Closed(reg) && r in reg.heap
    ensures Closed(res)
    ensures res.heap == reg.heap[r := p]
    ensures res.(heap := reg.heap) == reg
    ensures Valid(reg) && p.id == reg.heap[r].id ==> Valid(res)
  {
    reg.(heap := reg.heap[r := p])
  }

  // ---------------------------------------------------------------------
  // Identity

  /** Real players have version-4 uuids: 36 characters with '4' at index 14. */
  predicate IsValidPlayerUuid(uuid: string) {
    |uuid| == 36 && uuid[14] == '4'
  }

  /** Every entity entry names a record with that entity id, and no entry
      is under the placeholder id. */
  ghost predicate Agrees(m: JsMap<int, Ref>, heap: map<Ref, Player>) {
    forall i :: 0 <= i < |m| ==>
      && m[i].key != NoEntity
      && m[i].value in heap
      && heap[m[i].value].id.entityId == m[i].key
  }

  /** The first half of `getOrCreatePlayer`: a uuid seen before gives its
      record; a new uuid gets a new record, entered under the uuid only. */
  function Admit(reg: Engine, info: PlayerInfo, now: int): (res: Found)
    requires Closed(reg)
    ensures Closed(res.reg) && res.ref.Some? && res.ref.value in res.reg.heap
    ensures info.uuid in reg.byUuid ==> res == Found(reg, Some(reg.byUuid[info.uuid]))
    ensures info.uuid !in reg.byUuid ==>
              && res.ref == Some(reg.nextRef)
              && res.reg == reg.(
                   heap := reg.heap[reg.nextRef := NewPlayer(info.name, info.uuid, if info.entityId != 0 then info.entityId else NoEntity, now)],
                   nextRef := reg.nextRef + 1,
                   byUuid := reg.byUuid[info.uuid := reg.nextRef])
    ensures Valid(reg) ==> Valid(res.reg) && res.reg.heap[res.ref.value].id.uuid == info.uuid
  {
    if info.uuid in reg.byUuid then Found(reg, Some(reg.byUuid[info.uuid]))
    else
      var r := reg.nextRef;
      Found(reg.(
          heap := reg.heap[r := NewPlayer(info.name, info.uuid, if info.entityId != 0 then info.entityId else NoEntity, now)],
          nextRef := r + 1,
          byUuid := reg.byUuid[info.uuid := r]),
        Some(r))
  }

  /** The entity id the record keeps after an event reporting `reported`
      (0 when the event has none). */
  function NextEntityId(current: int, reported: int): (e: int)
    ensures reported != 0 ==> e == reported
    ensures reported == 0 ==> e == current
  {
    if reported != 0 && current != reported then reported else current
  }

  /** The entity table with the record's previous entity id dropped when
      the event reports a different one. */
  function Detach(m: JsMap<int, Ref>, current: int, reported: int): (r: JsMap<int, Ref>)
    ensures reported != 0 && current != reported && current != NoEntity ==> Get(r, current) == None
    ensures !(reported != 0 && current != reported && current != NoEntity) ==> r == m
    ensures forall i :: 0 <= i < |r| ==> r[i] in m
    ensures current != NoEntity && reported != 0 && current != reported ==>
              forall i :: 0 <= i < |r| ==> r[i].key != current
  {
    if reported != 0 && current != reported && current != NoEntity then Delete(m, current) else m
  }

  /** The second half of `getOrCreatePlayer`: the record takes the event's
      names and entity id, and its entity id is (re)entered for it. */
  function Rebind(reg: Engine, r: Ref, info: PlayerInfo): (res: Engine)
    requires Closed(reg) && r in reg.heap
    ensures Closed(res)
    ensures res.heap.Keys == reg.heap.Keys
    ensures forall q :: q in reg.heap && q != r ==> res.heap[q] == reg.heap[q]
    ensures res.heap[r].(id := reg.heap[r].id) == reg.heap[r]
    ensures res.heap[r].id.uuid == reg.heap[r].id.uuid
    ensures res.heap[r].id.entityId == NextEntityId(reg.heap[r].id.entityId, info.entityId)
    ensures res.(heap := reg.heap, entityToPlayer := reg.entityToPlayer) == reg
  {
    var p := reg.heap[r];
    var displayName :=
      if info.displayName != "" then info.displayName
      else if info.name != "" then info.name
      else p.id.username;
    var username := if info.name != "" then info.name else p.id.username;
    var entities := Detach(reg.entityToPlayer, p.id.entityId, info.entityId);
    var entityId := NextEntityId(p.id.entityId, info.entityId);
    var attached := Attach(entities, entityId, r);
    RebindStaysClosed(reg.entityToPlayer, reg.heap, p.id.entityId, info.entityId, r);
    reg.(
      heap := reg.heap[r := p.(id := Identity(username, p.id.uuid, entityId, displayName))],
      entityToPlayer := attached)
  }

  /** Moving a record's entity entry keeps every entry pointing at a
      record of the heap. */
  lemma RebindStaysClosed(m: JsMap<int, Ref>, heap: map<Ref, Player>, current: int, reported: int, r: Ref)
    requires r in heap && forall i :: 0 <= i < |m| ==> m[i].value in heap
    ensures var attached := Attach(Detach(m, current, reported), NextEntityId(current, reported), r);
            forall i :: 0 <= i < |attached| ==> attached[i].value in heap
  {
    var entities := Detach(m, current, reported);
    assert forall i :: 0 <= i < |entities| ==> entities[i].value in heap;
  }

  /** `entityToPlayer.set(e, r)` unless `e` is the placeholder id. */
  function Attach(m: JsMap<int, Ref>, e: int, r: Ref): (res: JsMap<int, Ref>)
    ensures e != NoEntity ==> res == Set(m, e, r)
    ensures e == NoEntity ==> res == m
    ensures forall i :: 0 <= i < |res| ==> res[i] == Entry(e, r) || (i < |m| && res[i] == m[i])
  {
    SetEntries(m, e, r);
    if e != NoEntity then Set(m, e, r) else m
  }

  /** `getOrCreatePlayer(playerData)`. */
  function GetOrCreatePlayer(reg: Engine, info: PlayerInfo, now: int): (res: Found)
    requires Closed(reg)
    ensures Closed(res.reg)
    ensures !IsValidPlayerUuid(info.uuid) ==> res == Found(reg, None)
    ensures IsValidPlayerUuid(info.uuid) ==>
              && res.ref.Some? && res.ref.value in res.reg.heap
              && res.reg.byUuid == reg.byUuid[info.uuid := res.ref.value]
    // a known uuid reuses its record; an unknown one gets exactly one new record
    ensures IsValidPlayerUuid(info.uuid) && info.uuid in reg.byUuid ==>
              res.ref == Some(reg.byUuid[info.uuid]) && res.reg.heap.Keys == reg.heap.Keys &&
              res.reg.nextRef == reg.nextRef
    ensures IsValidPlayerUuid(info.uuid) && info.uuid !in reg.byUuid ==>
              && res.ref == Some(reg.nextRef) && res.reg.heap.Keys == reg.heap.Keys + {reg.nextRef}
              && res.reg.heap[reg.nextRef].book == FreshBook()
              && res.reg.heap[reg.nextRef].id.uuid == info.uuid
    // only the returned record changes, and only its identity
    ensures forall q :: q in reg.heap && Some(q) != res.ref ==> q in res.reg.heap && res.reg.heap[q] == reg.heap[q]
    ensures res.ref.Some? && res.ref.value in reg.heap ==>
              res.reg.heap[res.ref.value].(id := reg.heap[res.ref.value].id) == reg.heap[res.ref.value]
    ensures res.reg.players == reg.players && res.reg.uuidToName == reg.uuidToName
    ensures res.reg.uuidToDisplayName == reg.uuidToDisplayName
    ensures res.reg.gracePeriodEnd == reg.gracePeriodEnd
    ensures Valid(reg) && res.ref.Some? ==> res.reg.heap[res.ref.value].id.uuid == info.uuid
  {
    if !IsValidPlayerUuid(info.uuid) then Found(reg, None)
    else
      var a := Admit(reg, info, now);
      Found(Rebind(a.reg, a.ref.value, info), a.ref)
  }

  /** The record's identity after `getOrCreatePlayer`: the event's display
      name, else its name, else the old username; the event's name unless it
      is empty; the event's entity id unless it is 0. */
  lemma GetOrCreateIdentity(reg: Engine, info: PlayerInfo, now: int)
    requires Closed(reg) && IsValidPlayerUuid(info.uuid)
    ensures var res := GetOrCreatePlayer(reg, info, now);
      var before := if info.uuid in reg.byUuid then reg.heap[reg.byUuid[info.uuid]].id.username else info.name;
      var id := res.reg.heap[res.ref.value].id;
      && id.username == (if info.name != "" then info.name else before)
      && id.displayName == (if info.displayName != "" then info.displayName else if info.name != "" then info.name else before)
      && (info.entityId != 0 ==> id.entityId == info.entityId)
      && (info.entityId == 0 && info.uuid in reg.byUuid ==> id.entityId == reg.heap[reg.byUuid[info.uuid]].id.entityId)
      && (info.entityId == 0 && info.uuid !in reg.byUuid ==> id.entityId == NoEntity)
  {
  }

  /** Rebinding keeps the tables in agreement with the records. */
  lemma RebindKeepsValid(reg: Engine, r: Ref, info: PlayerInfo)
    requires Valid(reg) && r in reg.heap
    ensures Valid(Rebind(reg, r, info))
  {
    var p := reg.heap[r];
    var res := Rebind(reg, r, info);
    var m := reg.entityToPlayer;
    var entities := Detach(m, p.id.entityId, info.entityId);
    var e := NextEntityId(p.id.entityId, info.entityId);
    assert Distinct(entities) by {
      if entities != m { DeleteThenGet(m, p.id.entityId, p.id.entityId); }
    }
    DetachedAgrees(reg, r, info);
    SetKeys(entities, e, r);
    SetEntries(entities, e, r);
  }

  /** What is left of the entity table after the record's old entry is
      dropped agrees with the rebound record too. */
  lemma DetachedAgrees(reg: Engine, r: Ref, info: PlayerInfo)
    requires Valid(reg) && r in reg.heap
    ensures var entities := Detach(reg.entityToPlayer, reg.heap[r].id.entityId, info.entityId);
            var res := Rebind(reg, r, info);
            forall i :: 0 <= i < |entities| ==>
              && entities[i].key != NoEntity && entities[i].value in res.heap
              && res.heap[entities[i].value].id.entityId == entities[i].key
  {
    var m := reg.entityToPlayer;
    var entities := Detach(m, reg.heap[r].id.entityId, info.entityId);
    var res := Rebind(reg, r, info);
    forall i | 0 <= i < |entities|
      ensures entities[i].key != NoEntity && entities[i].value in res.heap
      ensures res.heap[entities[i].value].id.entityId == entities[i].key
    {
      var x := entities[i];
      assert x in m;
      var j :| 0 <= j < |m| && m[j] == x;
    }
  }

  /** After `getOrCreatePlayer` the record's entity id, when it has one,
      leads back to the record; an entity id the record gave up no longer
      leads anywhere. */
  lemma GetOrCreateRebindsEntity(reg: Engine, info: PlayerInfo, now: int)
    requires Valid(reg) && IsValidPlayerUuid(info.uuid)
    ensures var res := GetOrCreatePlayer(reg, info, now);
      var r := res.ref.value;
      && (res.reg.heap[r].id.entityId != NoEntity ==> ByEntity(res.reg, res.reg.heap[r].id.entityId) == Some(r))
      && (info.uuid in reg.byUuid ==>
            var prev := reg.heap[reg.byUuid[info.uuid]].id.entityId;
            prev != NoEntity && info.entityId != 0 && info.entityId != prev ==> ByEntity(res.reg, prev) == None)
  {
    var a := Admit(reg, info, now);
    var r := a.ref.value;
    var p := a.reg.heap[r];
    var entities := Detach(a.reg.entityToPlayer, p.id.entityId, info.entityId);
    var e := NextEntityId(p.id.entityId, info.entityId);
    if e != NoEntity {
      SetThenGet(entities, e, r);
      if info.uuid in reg.byUuid && p.id.entityId != NoEntity && info.entityId != 0 && info.entityId != p.id.entityId {
        SetKeepsOthers(entities, e, r, p.id.entityId);
      }
    }
  }

  /** `getOrCreatePlayer` keeps the tables in agreement with the records. */
  lemma GetOrCreateKeepsValid(reg: Engine, info: PlayerInfo, now: int)
    requires Valid(reg)
    ensures Valid(GetOrCreatePlayer(reg, info, now).reg)
  {
    if IsValidPlayerUuid(info.uuid) {
      var a := Admit(reg, info, now);
      RebindKeepsValid(a.reg, a.ref.value, info);
    }
  }

  /** Reporting the same player twice changes nothing the second time. */
  lemma GetOrCreateIdempotent(reg: Engine, info: PlayerInfo, now: int, later: int)
    requires Valid(reg)
    ensures var once := GetOrCreatePlayer(reg, info, now);
      GetOrCreatePlayer(once.reg, info, later) == once
  {
    if IsValidPlayerUuid(info.uuid) {
      var once := GetOrCreatePlayer(reg, info, now);
      GetOrCreateKeepsValid(reg, info, now);
      GetOrCreateRebindsEntity(reg, info, now);
      var r := once.ref.value;
      assert Admit(once.reg, info, later) == Found(once.reg, Some(r));
      RebindSame(once.reg, r, info);
    }
  }

  /** Rebinding a record to the names and entity id it already has, with
      its entity id already leading to it, changes nothing. */
  lemma RebindSame(reg: Engine, r: Ref, info: PlayerInfo)
    requires Closed(reg) && r in reg.heap
    requires var id := reg.heap[r].id;
      && (info.name != "" ==> id.username == info.name)
      && id.displayName == (if info.displayName != "" then info.displayName else if info.name != "" then info.name else id.username)
      && (info.entityId != 0 ==> id.entityId == info.entityId)
      && (id.entityId != NoEntity ==> ByEntity(reg, id.entityId) == Some(r))
    ensures Rebind(reg, r, info) == reg
  {
    var id := reg.heap[r].id;
    var m := reg.entityToPlayer;
    assert Detach(m, id.entityId, info.entityId) == m;
    if id.entityId != NoEntity {
      SetSame(m, id.entityId, r);
    }
    var res := Rebind(reg, r, info);
    assert res.heap[r] == reg.heap[r];
    assert res.heap == reg.heap;
  }

  /** `removePlayerByUuid(uuid)`. Deletes the username and uuid entries of
      the uuid's record and then the first entity entry, in insertion order,
      whose record has that uuid. */
  function RemovePlayerByUuid(reg: Engine, uuid: string): (res: Engine)
    requires Closed(reg)
    ensures Closed(res)
    ensures uuid !in res.byUuid
    ensures uuid !in reg.byUuid ==> res == reg
    ensures uuid in reg.byUuid ==> res.byUuid == reg.byUuid - {uuid}
    ensures uuid in reg.byUuid ==>
              res.players == reg.players - {reg.heap[reg.byUuid[uuid]].id.username}
    ensures res.heap == reg.heap && |res.entityToPlayer| <= |reg.entityToPlayer|
  {
    if uuid !in reg.byUuid then reg
    else
      var p := reg.heap[reg.byUuid[uuid]];
      var i := FirstEntityOf(reg.entityToPlayer, reg.heap, uuid);
      reg.(
        players := reg.players - {p.id.username},
        byUuid := reg.byUuid - {uuid},
        entityToPlayer :=
          if i >= 0 then Delete(reg.entityToPlayer, reg.entityToPlayer[i].key) else reg.entityToPlayer)
  }

  /** The first entity entry whose record carries `uuid`, or -1. */
  function FirstEntityOf(m: JsMap<int, Ref>, heap: map<Ref, Player>, uuid: string): (i: int)
    ensures -1 <= i < |m|
    ensures i >= 0 ==> RecordOf(m[i], heap, uuid)
    ensures forall j :: 0 <= j < |m| && (i == -1 || j < i) ==> !RecordOf(m[j], heap, uuid)
    decreases |m|
  {
    if m == [] then -1
    else if RecordOf(m[0], heap, uuid) then 0
    else
      var rest := FirstEntityOf(m[1..], heap, uuid);
      if rest == -1 then -1 else rest + 1
  }

  /** The entry leads to a record carrying `uuid`. */
  predicate RecordOf(e: Entry<int, Ref>, heap: map<Ref, Player>, uuid: string) {
    e.value in heap && heap[e.value].id.uuid == uuid
  }

  /** The number of entity entries whose records carry `uuid`. */
  function EntriesOf(m: JsMap<int, Ref>, heap: map<Ref, Player>, uuid: string): (n: nat)
    ensures n == 0 <==> forall j :: 0 <= j < |m| ==> !RecordOf(m[j], heap, uuid)
    ensures n <= |m|
    decreases |m|
  {
    if m == [] then 0
    else (if RecordOf(m[0], heap, uuid) then 1 else 0) + EntriesOf(m[1..], heap, uuid)
  }

  /** After removal by uuid the uuid no longer resolves, the first entity
      entry leading to its records is gone and every other entity entry
      stays; when that was the only such entry, no entity id leads to a
      record with the uuid any more. */
  lemma RemoveByUuidUnbinds(reg: Engine, uuid: string)
    requires Valid(reg) && uuid in reg.byUuid
    ensures var res := RemovePlayerByUuid(reg, uuid);
      var i := FirstEntityOf(reg.entityToPlayer, reg.heap, uuid);
      && Valid(res)
      && (i >= 0 ==> ByEntity(res, reg.entityToPlayer[i].key) == None)
      && (forall e :: (i == -1 || e != reg.entityToPlayer[i].key) ==> ByEntity(res, e) == ByEntity(reg, e))
      && (EntriesOf(reg.entityToPlayer, reg.heap, uuid) <= 1 ==>
            forall j :: 0 <= j < |res.entityToPlayer| ==> !RecordOf(res.entityToPlayer[j], res.heap, uuid))
  {
    var res := RemovePlayerByUuid(reg, uuid);
    var m := reg.entityToPlayer;
    var i := FirstEntityOf(m, reg.heap, uuid);
    if i >= 0 {
      var k := m[i].key;
      DeleteThenGet(m, k, k);
      forall e | e != k ensures ByEntity(res, e) == ByEntity(reg, e) {
        DeleteThenGet(m, k, e);
      }
      if EntriesOf(m, reg.heap, uuid) <= 1 {
        OnlyEntry(m, reg.heap, uuid, i);
        forall j | 0 <= j < |res.entityToPlayer| ensures !RecordOf(res.entityToPlayer[j], res.heap, uuid) {
          var x := res.entityToPlayer[j];
          assert x in m && x.key != k;
          var jj :| 0 <= jj < |m| && m[jj] == x;
        }
      }
    }
  }

  /** When at most one entry leads to `uuid` and entry `i` does, no other does. */
  lemma {:induction false} OnlyEntry(m: JsMap<int, Ref>, heap: map<Ref, Player>, uuid: string, i: int)
    requires 0 <= i < |m| && RecordOf(m[i], heap, uuid) && EntriesOf(m, heap, uuid) <= 1
    ensures forall j :: 0 <= j < |m| && j != i ==> !RecordOf(m[j], heap, uuid)
    decreases |m|
  {
    if i == 0 {
      assert EntriesOf(m[1..], heap, uuid) == 0;
      forall j | 0 < j < |m| ensures !RecordOf(m[j], heap, uuid) {
        assert m[j] == m[1..][j - 1];
      }
    } else {
      OnlyEntry(m[1..], heap, uuid, i - 1);
      assert EntriesOf(m[1..], heap, uuid) >= 1;
      forall j | 0 <= j < |m| && j != i ensures !RecordOf(m[j], heap, uuid) {
        if j > 0 { assert m[j] == m[1..][j - 1]; }
      }
    }
  }

  /** One entity id of an `entity_destroy` event: the record it leads to
      loses its username and uuid entries and the entity entry goes. */
  function RemoveEntity(reg: Engine, e: int): (res: Engine)
    requires Closed(reg)
    ensures Closed(res)
    ensures ByEntity(res, e) == None
    ensures ByEntity(reg, e).None? ==> res == reg
    ensures ByEntity(reg, e).Some? ==> reg.heap[ByEntity(reg, e).value].id.uuid !in res.byUuid
    ensures res.byUuid.Keys <= reg.byUuid.Keys && forall u :: u in res.byUuid ==> res.byUuid[u] == reg.byUuid[u]
    ensures forall k :: ByEntity(reg, k).None? ==> ByEntity(res, k).None?
    ensures res.heap == reg.heap && res.gracePeriodEnd == reg.gracePeriodEnd
  {
    match ByEntity(reg, e)
    case None => reg
    case Some(r) =>
      var p := reg.heap[r];
      reg.(
        players := reg.players - {p.id.username},
        byUuid := reg.byUuid - {p.id.uuid},
        entityToPlayer := Delete(reg.entityToPlayer, e))
  }

  /** `handleEntityRemove(event)`: the entity ids in order. */
  function HandleEntityRemove(reg: Engine, ids: seq<int>): (res: Engine)
    requires Closed(reg)
    ensures Closed(res)
    ensures res.heap == reg.heap && res.gracePeriodEnd == reg.gracePeriodEnd
    ensures res.byUuid.Keys <= reg.byUuid.Keys
    decreases |ids|
  {
    if ids == [] then reg else HandleEntityRemove(RemoveEntity(reg, ids[0]), ids[1..])
  }

  /** Removing one entity keeps the tables in agreement with the records. */
  lemma RemoveEntityKeepsValid(reg: Engine, e: int)
    requires Valid(reg)
    ensures Valid(RemoveEntity(reg, e))
  {
    if ByEntity(reg, e).Some? {
      DeleteThenGet(reg.entityToPlayer, e, e);
    }
  }

  /** After an `entity_destroy` event none of its entity ids resolves. */
  lemma {:induction false} EntityRemoveUnbinds(reg: Engine, ids: seq<int>)
    requires Closed(reg)
    ensures forall i :: 0 <= i < |ids| ==> ByEntity(HandleEntityRemove(reg, ids), ids[i]) == None
    decreases |ids|
  {
    if ids != [] {
      var next := RemoveEntity(reg, ids[0]);
      var res := HandleEntityRemove(next, ids[1..]);
      assert HandleEntityRemove(reg, ids) == res;
      EntityRemoveUnbinds(next, ids[1..]);
      EntityRemoveKeepsAbsent(next, ids[1..]);
      assert ByEntity(res, ids[0]) == None;
      forall i | 0 < i < |ids| ensures ByEntity(res, ids[i]) == None {
        assert ids[i] == ids[1..][i - 1];
      }
    }
  }

  /** Nor does the uuid of any record those entity ids led to. */
  lemma {:induction false} EntityRemoveDropsUuids(reg: Engine, ids: seq<int>)
    requires Valid(reg)
    ensures var res := HandleEntityRemove(reg, ids);
      forall i :: 0 <= i < |ids| && ByEntity(reg, ids[i]).Some? ==>
        reg.heap[ByEntity(reg, ids[i]).value].id.uuid !in res.byUuid
    decreases |ids|
  {
    if ids != [] {
      var next := RemoveEntity(reg, ids[0]);
      var res := HandleEntityRemove(reg, ids);
      RemoveEntityKeepsValid(reg, ids[0]);
      EntityRemoveDropsUuids(next, ids[1..]);
      forall i | 0 <= i < |ids| && ByEntity(reg, ids[i]).Some?
        ensures reg.heap[ByEntity(reg, ids[i]).value].id.uuid !in res.byUuid
      {
        if ids[i] != ids[0] {
          assert ids[i] == ids[1..][i - 1];
          if ByEntity(reg, ids[0]).Some? {
            DeleteThenGet(reg.entityToPlayer, ids[0], ids[i]);
          }
        }
      }
    }
  }

  /** Later removals never bring back an entity id. */
  lemma {:induction false} EntityRemoveKeepsAbsent(reg: Engine, ids: seq<int>)
    requires Closed(reg)
    ensures forall k :: ByEntity(reg, k).None? ==> ByEntity(HandleEntityRemove(reg, ids), k).None?
    decreases |ids|
  {
    if ids != [] {
      EntityRemoveKeepsAbsent(RemoveEntity(reg, ids[0]), ids[1..]);
    }
  }

  /** Entity removal keeps the tables in agreement with the records. */
  lemma {:induction false} EntityRemoveKeepsValid(reg: Engine, ids: seq<int>)
    requires Valid(reg)
    ensures Valid(HandleEntityRemove(reg, ids))
    decreases |ids|
  {
    if ids != [] {
      RemoveEntityKeepsValid(reg, ids[0]);
      EntityRemoveKeepsValid(RemoveEntity(reg, ids[0]), ids[1..]);
    }
  }

  // ---------------------------------------------------------------------
  // Grace period, reset, flush, tick

  /** `startGracePeriod(duration)` at time `now`. */
  function StartGracePeriod(reg: Engine, now: int, duration: int): (res: Engine)
    ensures res.gracePeriodEnd == now + duration
    ensures res.(gracePeriodEnd := reg.gracePeriodEnd) == reg
  {
    reg.(gracePeriodEnd := now + duration)
  }

  /** `reset()`: every table is emptied and a default grace period starts. */
  function Reset(reg: Engine, now: int): (res: Engine)
    ensures res.players == map[] && res.byUuid == map[] && res.entityToPlayer == []
    ensures res.uuidToName == map[] && res.uuidToDisplayName == map[]
    ensures res.gracePeriodEnd == now + DefaultGracePeriod
    ensures Closed(reg) ==> Valid(res)
  {
    StartGracePeriod(
      reg.(players := map[], byUuid := map[], entityToPlayer := [], uuidToName := map[], uuidToDisplayName := map[]),
      now, DefaultGracePeriod)
  }

  /** Right after a reset nothing resolves and every check stays silent for
      the default grace period. */
  lemma ResetSilencesChecks(reg: Engine, now: int, p: Player, s: Settings, later: int, g: Geometry)
    requires now <= later < now + DefaultGracePeriod
    ensures var res := Reset(reg, now);
      && (forall e :: ByEntity(res, e) == None)
      && RunChecks(p, s, res.gracePeriodEnd, later, g) == Checked(p, [])
  {
  }

  /** The records reachable by uuid, which the tick loop and the flush visit. */
  function Tracked(reg: Engine): set<Ref> {
    reg.byUuid.Values
  }

  /** `flushViolations()`: every record reachable by uuid has its
      violation bookkeeping zeroed; records only reachable otherwise keep it. */
  function FlushViolations(reg: Engine): (res: Engine)
    ensures res.heap.Keys == reg.heap.Keys
    ensures forall r :: r in reg.heap && r in Tracked(reg) ==>
              res.heap[r] == reg.heap[r].(book := Flush(reg.heap[r].book))
    ensures forall r :: r in reg.heap && r !in Tracked(reg) ==> res.heap[r] == reg.heap[r]
    ensures res.(heap := reg.heap) == reg
    ensures Valid(reg) ==> Valid(res)
  {
    var heap := map r | r in reg.heap :: if r in Tracked(reg) then reg.heap[r].(book := Flush(reg.heap[r].book)) else reg.heap[r];
    reg.(heap := heap)
  }

  /** After a flush no tracked player has a violation or an alert in its window. */
  lemma FlushClearsTracked(reg: Engine, u: string, c: CheckName)
    requires Valid(reg) && u in reg.byUuid
    ensures var b := FlushViolations(reg).heap[reg.byUuid[u]].book;
      && (c in b.violations ==> b.violations[c] == 0)
      && b.globalViolations == 0 && b.alertCountInWindow == 0
  {
  }

  /** The every-tick loop over the records reachable by uuid. */
  function TickAll(reg: Engine): (res: Engine)
    ensures res.heap.Keys == reg.heap.Keys
    ensures forall r :: r in reg.heap && r in Tracked(reg) ==> res.heap[r] == Tick(reg.heap[r])
    ensures forall r :: r in reg.heap && r !in Tracked(reg) ==> res.heap[r] == reg.heap[r]
    ensures res.(heap := reg.heap) == reg
    ensures Valid(reg) ==> Valid(res)
  {
    var heap := map r | r in reg.heap :: if r in Tracked(reg) then Tick(reg.heap[r]) else reg.heap[r];
    reg.(heap := heap)
  }
}
