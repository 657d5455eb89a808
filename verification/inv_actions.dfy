/** The pending-transaction table of the inventory handler. Every mirrored
    click records how to undo itself under its window id and action number;
    the server's confirmation then either drops the record or rolls the
    mirror back, and a periodic sweep forgets records older than five
    seconds. */
module Actions {
  import opened Common
  import opened JsMaps
  import opened Inventory

  /** Age in milliseconds past which a pending action is forgotten. */
  const StaleAfter := 5000

  /** The table's shape: no key twice at either level and no empty window
      table (an emptied window table is always deleted). */
  ghost predicate Tidy(p: Pending) {
    && Distinct(p)
    && forall i :: 0 <= i < |p| ==> Distinct(p[i].value) && p[i].value != []
  }

  /** The action recorded under window `w` and number `a`. */
  function Lookup(p: Pending, w: int, a: int): (r: Option<Action>)
    ensures Get(p, w).None? ==> r.None?
  {
    match Get(p, w)
    case None => None
    case Some(t) => Get(t, a)
  }

  /** `_createAction` followed by `_addAction`: the action goes into its
      window's table, which is created when missing; a record under the
      same number is replaced. */
  function AddAction(p: Pending, a: Action): Pending {
    var t := match Get(p, a.windowId) case None => [] case Some(t) => t;
    Set(p, a.windowId, Set(t, a.actionNumber, a))
  }

  /** After adding, the new action is found under its keys, every other
      record is found as before, and the table keeps its shape. */
  lemma AddActionLookup(p: Pending, a: Action, w: int, n: int)
    requires Tidy(p)
    ensures Tidy(AddAction(p, a))
    ensures Lookup(AddAction(p, a), w, n)
            == if w == a.windowId && n == a.actionNumber then Some(a) else Lookup(p, w, n)
  {
    var t := match Get(p, a.windowId) case None => [] case Some(t) => t;
    var t' := Set(t, a.actionNumber, a);
    JsMaps.SetThenGet(p, a.windowId, t');
    JsMaps.SetThenGet(t, a.actionNumber, a);
    if w != a.windowId {
      SetKeepsOthers(p, a.windowId, t', w);
    } else if n != a.actionNumber {
      SetKeepsOthers(t, a.actionNumber, a, n);
    }
    if Get(p, a.windowId).Some? { TidyGet(p, a.windowId); }
    SetKeys(t, a.actionNumber, a);
    TidyAfterSet(p, a.windowId, t');
  }

  /** A window table found in a tidy table is non-empty and has no
      duplicate action numbers. */
  lemma TidyGet(p: Pending, w: int)
    requires Tidy(p) && Get(p, w).Some?
    ensures Distinct(Get(p, w).value) && Get(p, w).value != []
  {
    var i := IndexOf(p, w);
    assert p[i].value == Get(p, w).value;
  }

  /** Installing a non-empty window table without duplicates keeps the
      shape. */
  lemma TidyAfterSet(p: Pending, w: int, t: JsMap<int, Action>)
    requires Tidy(p) && Distinct(t) && t != []
    ensures Tidy(Set(p, w, t))
  {
    var r := Set(p, w, t);
    SetKeys(p, w, t);
    SetEntries(p, w, t);
    forall i | 0 <= i < |r| ensures Distinct(r[i].value) && r[i].value != [] {
      if r[i] != Entry(w, t) {
        assert r[i] == p[i];
      }
    }
  }

  /** Deleting a window keeps the shape. */
  lemma TidyAfterDelete(p: Pending, w: int)
    requires Tidy(p)
    ensures Tidy(Delete(p, w))
  {
    var r := Delete(p, w);
    DeleteDistinct(p, w);
    forall i | 0 <= i < |r| ensures Distinct(r[i].value) && r[i].value != [] {
      assert r[i] in p;
    }
  }

  /** Puts window `w`'s table back after a deletion, deleting the window
      when its table is left empty. */
  function Settle(m: Mirror, w: int, t: JsMap<int, Action>): (r: Mirror)
    ensures r.(pending := m.pending) == m
  {
    m.(pending := if t == [] then Delete(m.pending, w) else Set(m.pending, w, t))
  }

  /** `handleTransaction(windowId, action, accepted)`. An unknown window or
      action changes nothing. Accepted: the action is dropped. Rejected:
      a recorded slot and cursor are written back, or the snapshot is
      restored, and the action is dropped; a snapshot taken in another
      window than the open one is ignored and kept. */
  function Transaction(m: Mirror, w: int, n: int, accepted: bool): (r: Mirror)
    ensures Lookup(m.pending, w, n).None? ==> r == m
  {
    match Get(m.pending, w)
    case None => m
    case Some(t) =>
      match Get(t, n)
      case None => m
      case Some(a) =>
        if accepted then Settle(m, w, Delete(t, n))
        else match a.undo
          case Restore(slot, item, cursor) =>
            Settle(SetCursor(SetSlot(m, slot, item), cursor), w, Delete(t, n))
          case Snapshot(saved, box) =>
            if a.windowId != m.windowId then m
            else
              var inv := Clone(if saved.Some? then saved.value else m.inventory);
              Settle(m.(inventory := inv, box := box), w, Delete(t, n))
  }

  /** Dropping one action: that action is gone, every other record is found
      as before, and the table keeps its shape. */
  lemma SettleLookup(m: Mirror, w: int, n: int, w': int, n': int)
    requires Tidy(m.pending) && Get(m.pending, w).Some?
    ensures var r := Settle(m, w, Delete(Get(m.pending, w).value, n));
            && Tidy(r.pending)
            && Lookup(r.pending, w', n') == if w' == w && n' == n then None else Lookup(m.pending, w', n')
  {
    var p := m.pending;
    var t := Get(p, w).value;
    TidyGet(p, w);
    DeleteThenGet(t, n, n');
    if Delete(t, n) == [] {
      SettleEmptied(p, w, n, w', n');
    } else {
      SettleKept(p, w, n, w', n');
    }
  }

  /** The window's last action goes: the window goes with it. */
  lemma SettleEmptied(p: Pending, w: int, n: int, w': int, n': int)
    requires Tidy(p) && Get(p, w).Some? && Distinct(Get(p, w).value) && Delete(Get(p, w).value, n) == []
    ensures Tidy(Delete(p, w))
    ensures Lookup(Delete(p, w), w', n') == if w' == w && n' == n then None else Lookup(p, w', n')
  {
    var t := Get(p, w).value;
    TidyAfterDelete(p, w);
    DeleteThenGet(p, w, w');
    if w' == w && n' != n {
      DeleteThenGet(t, n, n');
      assert n' !in Keys(Delete(t, n));
    }
  }

  /** Other actions remain in the window: its shrunk table replaces it. */
  lemma SettleKept(p: Pending, w: int, n: int, w': int, n': int)
    requires Tidy(p) && Get(p, w).Some? && Distinct(Get(p, w).value) && Delete(Get(p, w).value, n) != []
    ensures Tidy(Set(p, w, Delete(Get(p, w).value, n)))
    ensures Lookup(Set(p, w, Delete(Get(p, w).value, n)), w', n')
            == if w' == w && n' == n then None else Lookup(p, w', n')
  {
    var t' := Delete(Get(p, w).value, n);
    DeleteThenGet(Get(p, w).value, n, n');
    TidyAfterSet(p, w, t');
    JsMaps.SetThenGet(p, w, t');
    if w' != w { SetKeepsOthers(p, w, t', w'); }
  }

  /** An accepted transaction drops its action and leaves the inventory
      and the container as they are. */
  lemma AcceptKeepsInventory(m: Mirror, w: int, n: int, w': int, n': int)
    requires Tidy(m.pending) && Lookup(m.pending, w, n).Some?
    ensures var r := Transaction(m, w, n, true);
            && r.inventory == m.inventory && r.box == m.box && Tidy(r.pending)
            && Lookup(r.pending, w', n') == if w' == w && n' == n then None else Lookup(m.pending, w', n')
  {
    SettleLookup(m, w, n, w', n');
  }

  /** Rejecting a one-slot action writes the slot and the cursor back as
      `_setSlot` and `_setCursorItem` store them, touches no other place,
      and drops the action. */
  lemma RejectRestoresSlot(m: Mirror, w: int, n: int, w': int, n': int)
    requires Tidy(m.pending) && Lookup(m.pending, w, n).Some? && Lookup(m.pending, w, n).value.undo.Restore?
    ensures var u := Lookup(m.pending, w, n).value.undo;
            var r := Transaction(m, w, n, false);
            && r.inventory.cursor == Normal(u.cursor)
            && (Address(m, u.slot).Some? ==> Read(r, Address(m, u.slot).value) == Normal(u.item))
            && (forall q :: Address(m, u.slot) != Some(q) ==> Read(r, q) == Read(m, q))
            && Tidy(r.pending)
            && Lookup(r.pending, w', n') == if w' == w && n' == n then None else Lookup(m.pending, w', n')
  {
    var u := Lookup(m.pending, w, n).value.undo;
    var m1 := SetCursor(SetSlot(m, u.slot, u.item), u.cursor);
    assert m1.pending == m.pending;
    SettleLookup(m1, w, n, w', n');
  }

  /** Rejecting a snapshot taken in the open window restores the container
      and, when the snapshot holds a copy, the inventory; a live snapshot
      leaves the inventory's slots, cursor and held slot as they are. Either
      way the inventory installed is a `cloneDeep` copy, which drops the
      `stray` property. The action is dropped. */
  lemma RejectRestoresSnapshot(m: Mirror, w: int, n: int, w': int, n': int)
    requires Tidy(m.pending) && Lookup(m.pending, w, n).Some?
    requires var a := Lookup(m.pending, w, n).value; a.undo.Snapshot? && a.windowId == m.windowId
    ensures var u := Lookup(m.pending, w, n).value.undo;
            var r := Transaction(m, w, n, false);
            && r.box == u.box
            && r.inventory == Clone(if u.saved.Some? then u.saved.value else m.inventory)
            && r.inventory.stray == Missing
            && Tidy(r.pending)
            && Lookup(r.pending, w', n') == if w' == w && n' == n then None else Lookup(m.pending, w', n')
  {
    var u := Lookup(m.pending, w, n).value.undo;
    var inv := Clone(if u.saved.Some? then u.saved.value else m.inventory);
    SettleLookup(m.(inventory := inv, box := u.box), w, n, w', n');
  }

  /** A rejected snapshot from another window than the open one changes
      nothing at all, not even the table: the action stays pending. */
  lemma RejectOtherWindowKept(m: Mirror, w: int, n: int)
    requires Lookup(m.pending, w, n).Some?
    requires var a := Lookup(m.pending, w, n).value; a.undo.Snapshot? && a.windowId != m.windowId
    ensures Transaction(m, w, n, false) == m
  {
  }

  /** `_pruneStaleActions(now)`: actions older than `StaleAfter` are
      deleted, then windows left without actions. */
  function Prune(p: Pending, now: int): Pending {
    Filter(MapValues(p, (t: JsMap<int, Action>) => Filter(t, (e: Entry<int, Action>) => now - e.value.timestamp <= StaleAfter)),
           (e: Entry<int, JsMap<int, Action>>) => e.value != [])
  }

  /** Pruning keeps exactly the actions at most `StaleAfter` old, and the
      table keeps its shape. */
  lemma PruneLookup(p: Pending, now: int, w: int, n: int)
    requires Tidy(p)
    ensures Tidy(Prune(p, now))
    ensures Lookup(Prune(p, now), w, n)
            == if Lookup(p, w, n).Some? && now - Lookup(p, w, n).value.timestamp <= StaleAfter
               then Lookup(p, w, n) else None
  {
    var recent := (e: Entry<int, Action>) => now - e.value.timestamp <= StaleAfter;
    var f := (t: JsMap<int, Action>) => Filter(t, recent);
    var nonEmpty := (e: Entry<int, JsMap<int, Action>>) => e.value != [];
    var mv := MapValues(p, f);
    MapValuesThenGet(p, f, w);
    FilterDistinct(mv, nonEmpty);
    FilterThenGet(mv, nonEmpty, w);
    assert Prune(p, now) == Filter(mv, nonEmpty);
    if Get(p, w).Some? {
      var t := Get(p, w).value;
      TidyGet(p, w);
      FilterThenGet(t, recent, n);
      if Filter(t, recent) == [] {
        assert Get(Filter(t, recent), n) == None;
      }
    }
    var r := Filter(mv, nonEmpty);
    forall i | 0 <= i < |r| ensures Distinct(r[i].value) && r[i].value != [] {
      assert r[i] in mv;
      var j :| 0 <= j < |mv| && mv[j] == r[i];
      FilterDistinct(p[j].value, recent);
    }
  }
}
