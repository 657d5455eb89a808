/** What a mirrored click leaves behind: the record it writes, what a
    rejection of it puts back, the drag it keeps well formed, and the items
    a shift-click or a number key moves. Each defect the `Variant` threads
    through is shown on a concrete state as written and proved away as
    intended. */
module ClickLaws {
  import opened Common
  import opened JsMaps
  import opened Inventory
  import opened Spread
  import opened Actions
  import opened Clicks

  // ---------------------------------------------------------------------
  // The record

  /** A handled click writes one record, under its window and action
      number, stamped `now`, and leaves every other record as it was. A
      one-slot click (mode 0 with button 0 or 1, a drop by `Q`, and a drop
      outside the window that does not fall through to the drag code)
      records its slot and the cursor as they were; a whole-window click
      (modes 1, 2, 5, 6 and mode 0 with another button) records a snapshot
      holding a copy of the container. */
  lemma ClickRecords(m: Mirror, k: Click, ss: StackSizes, now: int, v: Variant, w: int, n: int)
    requires Tidy(m.pending) && Handled(m, k)
    ensures var r := WindowClick(m, k, ss, now, v);
            && Tidy(r.m.pending)
            && ((w != k.windowId || n != k.action) ==> Lookup(r.m.pending, w, n) == Lookup(m.pending, w, n))
            && Lookup(r.m.pending, k.windowId, k.action).Some?
            && var a := Lookup(r.m.pending, k.windowId, k.action).value;
               && a.windowId == k.windowId && a.actionNumber == k.action && a.timestamp == now
               && ((k.mode == 0 && (k.mouseButton == 0 || k.mouseButton == 1))
                   || (k.mode == 4 && k.slot == Outside && (!m.inventory.cursor.Stack? || k.mouseButton == 0 || k.mouseButton == 1))
                   || (k.mode == 4 && (k.button == Some(0) || k.button == Some(1))) ==>
                     a.undo.Restore? && a.undo.slot == k.slot && a.undo.cursor == m.inventory.cursor)
               && ((k.mode == 0 && k.mouseButton != 0 && k.mouseButton != 1)
                   || k.mode == 1 || k.mode == 2 || k.mode == 5 || k.mode == 6 ==>
                     a.undo == FullUndo(m, v))
  {
    var e := Handle(m, k, ss, v);
    var a := Action(k.windowId, k.action, now, e.undo);
    AddActionLookup(m.pending, a, w, n);
    AddActionLookup(m.pending, a, k.windowId, k.action);
  }

  // ---------------------------------------------------------------------
  // The drag

  /** No slot twice. */
  predicate NoDup(s: seq<int>) {
    forall i, j :: 0 <= i < j < |s| ==> s[i] != s[j]
  }

  /** A drag never lists a slot twice, whatever clicks arrive. */
  lemma DragSlotsStayDistinct(m: Mirror, k: Click, ss: StackSizes, now: int, v: Variant)
    requires NoDup(m.dragSlots)
    ensures NoDup(WindowClick(m, k, ss, now, v).m.dragSlots)
  {
    var r := WindowClick(m, k, ss, now, v).m;
    if r.dragSlots != m.dragSlots && r.dragSlots != [] {
      assert r.dragSlots == m.dragSlots + [k.slot] && k.slot !in m.dragSlots;
      forall i, j | 0 <= i < j < |r.dragSlots| ensures r.dragSlots[i] != r.dragSlots[j] {
        assert r.dragSlots[i] == m.dragSlots[i];
        if j < |m.dragSlots| {
          assert r.dragSlots[j] == m.dragSlots[j];
        } else {
          assert r.dragSlots[j] == k.slot;
        }
      }
    }
  }

  // ---------------------------------------------------------------------
  // Rollback

  /** As intended, rejecting a one-slot click undoes it: every place and
      the cursor read as before the click, and its record is gone. Items
      as stored satisfy the requires (`Settled`). */
  lemma RejectUndoesSlotClick(m: Mirror, k: Click, ss: StackSizes, now: int, w: int, n: int)
    requires Tidy(m.pending) && Handled(m, k) && k.mode == 0 && (k.mouseButton == 0 || k.mouseButton == 1)
    requires Addressable(m, k.slot) && Settled(m.inventory.cursor) && Settled(GetItem(m, k.slot))
    ensures var t := Transaction(WindowClick(m, k, ss, now, Intended).m, k.windowId, k.action, false);
            && t.inventory.cursor == m.inventory.cursor
            && (forall q :: Read(t, q) == Read(m, q))
            && Tidy(t.pending)
            && Lookup(t.pending, w, n) == if w == k.windowId && n == k.action then None else Lookup(m.pending, w, n)
  {
    var e := Handle(m, k, ss, Intended);
    if k.mouseButton == 0 {
      assert e == LeftClick(m, k, ss, Intended);
    } else {
      assert e == RightClick(m, k, ss, Intended);
    }
    var a := Action(k.windowId, k.action, now, e.undo);
    assert WindowClick(m, k, ss, now, Intended).m == e.o.m.(pending := AddAction(m.pending, a));
    UndoSlot(m, e.o.m, k.slot, a, w, n);
  }

  /** Rejecting a record of `slot` and the cursor, written over a state
      `c` that differs from `m` at most in that slot and the cursor, gives
      back `m`'s places and cursor. */
  lemma UndoSlot(m: Mirror, c: Mirror, slot: int, a: Action, w: int, n: int)
    requires Tidy(m.pending) && Addressable(m, slot)
    requires Settled(m.inventory.cursor) && Settled(GetItem(m, slot))
    requires a.undo == Restore(slot, GetItem(m, slot), m.inventory.cursor)
    requires c.windowId == m.windowId && c.sizes == m.sizes
    requires forall q :: Address(m, slot) != Some(q) ==> Read(c, q) == Read(m, q)
    ensures var t := Transaction(c.(pending := AddAction(m.pending, a)), a.windowId, a.actionNumber, false);
            && t.inventory.cursor == m.inventory.cursor
            && (forall q :: Read(t, q) == Read(m, q))
            && Tidy(t.pending)
            && Lookup(t.pending, w, n) == if w == a.windowId && n == a.actionNumber then None else Lookup(m.pending, w, n)
  {
    var r := c.(pending := AddAction(m.pending, a));
    AddActionLookup(m.pending, a, a.windowId, a.actionNumber);
    RestoreGivesBack(m, r, slot, a);
    RejectDropsRecord(m.pending, r, a, w, n);
  }

  /** Rejecting a one-slot record just added drops it and keeps the
      others. */
  lemma RejectDropsRecord(p: Pending, r: Mirror, a: Action, w: int, n: int)
    requires Tidy(p) && r.pending == AddAction(p, a) && a.undo.Restore?
    ensures var t := Transaction(r, a.windowId, a.actionNumber, false);
            && Tidy(t.pending)
            && Lookup(t.pending, w, n) == if w == a.windowId && n == a.actionNumber then None else Lookup(p, w, n)
  {
    AddActionLookup(p, a, w, n);
    AddActionLookup(p, a, a.windowId, a.actionNumber);
    RejectRestoresSlot(r, a.windowId, a.actionNumber, w, n);
  }

  /** The places and the cursor after rejecting the record `a` of `slot`. */
  lemma RestoreGivesBack(m: Mirror, r: Mirror, slot: int, a: Action)
    requires Tidy(r.pending) && Lookup(r.pending, a.windowId, a.actionNumber) == Some(a)
    requires Addressable(m, slot) && Settled(m.inventory.cursor) && Settled(GetItem(m, slot))
    requires a.undo == Restore(slot, GetItem(m, slot), m.inventory.cursor)
    requires r.windowId == m.windowId && r.sizes == m.sizes
    requires forall q :: Address(m, slot) != Some(q) ==> Read(r, q) == Read(m, q)
    ensures var t := Transaction(r, a.windowId, a.actionNumber, false);
            t.inventory.cursor == m.inventory.cursor && forall q :: Read(t, q) == Read(m, q)
  {
    var p := Address(m, slot).value;
    assert Address(r, slot) == Some(p) by {
      assert Size(r) == Size(m);
    }
    RejectRestoresSlot(r, a.windowId, a.actionNumber, a.windowId, a.actionNumber);
  }

  /** Rejecting a whole-window click restores the container. As intended
      it restores the inventory too; as written the snapshot holds the live
      inventory, so the inventory stays as the click left it. */
  lemma RejectRestoresWindow(m: Mirror, k: Click, ss: StackSizes, now: int, v: Variant, w: int, n: int)
    requires Tidy(m.pending) && Handled(m, k)
    requires (k.mode == 0 && k.mouseButton != 0 && k.mouseButton != 1)
             || k.mode == 1 || k.mode == 2 || k.mode == 5 || k.mode == 6
    ensures var r := WindowClick(m, k, ss, now, v).m;
            var t := Transaction(r, k.windowId, k.action, false);
            && t.box == m.box
            && t.inventory == Clone(if v == Intended then m.inventory else r.inventory)
            && Tidy(t.pending)
            && Lookup(t.pending, w, n) == if w == k.windowId && n == k.action then None else Lookup(m.pending, w, n)
  {
    var e := Handle(m, k, ss, v);
    assert e.undo == FullUndo(m, v);
    var a := Action(k.windowId, k.action, now, e.undo);
    var r := WindowClick(m, k, ss, now, v).m;
    AddActionLookup(m.pending, a, w, n);
    AddActionLookup(m.pending, a, k.windowId, k.action);
    RejectRestoresSnapshot(r, k.windowId, k.action, w, n);
  }

  /** Stack sizes of 64 for every item. */
  const Sixty: StackSizes := (id: int) => 64

  /** The inventory window with 45 empty slots but slot `i`, which holds
      `x`. */
  function Holding(i: int, x: Item): (m: Mirror)
    ensures m.windowId == 0 && m.pending == [] && m.inventory.cursor == Empty
    ensures Read(m, Inv(i)) == x
    ensures forall j :: 0 <= j < 45 && j != i ==> Read(m, Inv(j)) == Empty
  {
    var m0 := Initial();
    m0.(inventory := m0.inventory.(slots := m0.inventory.slots[i := x]))
  }

  /** As written, the record of a right click with an empty cursor holds
      the slot's own item object, which the click then halves: rejecting
      the click writes back the halved stack and the empty cursor, and five
      of the ten items are gone. As intended the ten come back. */
  lemma SlotAliasLoses()
    ensures var m := Holding(36, Stack(1, 0, 10));
            var k := Click(0, 36, 1, 7, 0, Stack(1, 0, 10), None);
            var t := Transaction(WindowClick(m, k, Sixty, 0, AsWritten).m, 0, 7, false);
            var t' := Transaction(WindowClick(m, k, Sixty, 0, Intended).m, 0, 7, false);
            && Read(t, Inv(36)) == Stack(1, 0, 5) && t.inventory.cursor == Empty
            && Read(t', Inv(36)) == Stack(1, 0, 10) && t'.inventory.cursor == Empty
  {
    var m := Holding(36, Stack(1, 0, 10));
    var k := Click(0, 36, 1, 7, 0, Stack(1, 0, 10), None);
    assert CeilDiv(10, 2) == 5;
    var e := RightClick(m, k, Sixty, AsWritten);
    assert e.undo == Restore(36, Stack(1, 0, 5), Empty);
    var r := WindowClick(m, k, Sixty, 0, AsWritten).m;
    assert r.pending == AddAction([], Action(0, 7, 0, e.undo));
    AddActionLookup([], Action(0, 7, 0, e.undo), 0, 7);
    RejectRestoresSlot(r, 0, 7, 0, 7);
    assert Address(r, 36) == Some(Inv(36));
    RejectUndoesSlotClick(m, k, Sixty, 0, 0, 7);
  }

  /** As written, rejecting a number-key swap in the inventory window
      leaves the two slots swapped; as intended they are swapped back. */
  lemma SnapshotAliasKeepsClick()
    ensures var m := Holding(9, Stack(1, 0, 10));
            var k := Click(0, 9, 0, 7, 2, Stack(1, 0, 10), Some(0));
            var t := Transaction(WindowClick(m, k, Sixty, 0, AsWritten).m, 0, 7, false);
            var t' := Transaction(WindowClick(m, k, Sixty, 0, Intended).m, 0, 7, false);
            && Read(t, Inv(9)) == Empty && Read(t, Inv(36)) == Stack(1, 0, 10)
            && Read(t', Inv(9)) == Stack(1, 0, 10) && Read(t', Inv(36)) == Empty
  {
    var m := Holding(9, Stack(1, 0, 10));
    var k := Click(0, 9, 0, 7, 2, Stack(1, 0, 10), Some(0));
    var s := SwapSlots(m, 9, Some(36));
    assert NumberKey(m, k, Sixty, AsWritten) == Done(s);
    assert Read(s, Inv(9)) == Empty && Read(s, Inv(36)) == Stack(1, 0, 10);
    assert Handle(m, k, Sixty, AsWritten).o == Done(s);
    var r := WindowClick(m, k, Sixty, 0, AsWritten).m;
    assert r.inventory == s.inventory;
    RejectRestoresWindow(m, k, Sixty, 0, AsWritten, 0, 7);
    var t := Transaction(r, 0, 7, false);
    assert t.inventory == Clone(s.inventory);
    RejectRestoresWindow(m, k, Sixty, 0, Intended, 0, 7);
    var t' := Transaction(WindowClick(m, k, Sixty, 0, Intended).m, 0, 7, false);
    assert t'.inventory == Clone(m.inventory);
  }

  // ---------------------------------------------------------------------
  // Shift-click

  /** The clicked place is never among the places its shift-click spreads
      over, as intended. */
  lemma ClickedNotScanned(m: Mirror, slot: int)
    requires Addressable(m, slot)
    ensures !Scanned(Address(m, slot).value, ShiftLocations(m, slot), BoxCount(m), Intended)
  {
    var p := Address(m, slot).value;
    var locs := ShiftLocations(m, slot);
    var n := BoxCount(m);
    if m.windowId != 0 && InContainer(m, slot) { ContainerSlotIsBox(m, slot); }
    forall l | l in locs ensures p !in Cascade(l, n, Intended) {
      var ps := Cascade(l, n, Intended);
      forall j | 0 <= j < |ps| ensures ps[j] != p {
      }
    }
  }

  /** As intended, a shift-click keeps every item of the clicked kind:
      what the spread places elsewhere the clicked slot gives up, and what
      does not fit stays in the slot. `reach` is at least the 45 inventory
      slots, and the clicked place is among them or the container's. */
  lemma ShiftClickConserves(m: Mirror, k: Click, ss: StackSizes, reach: int)
    requires reach >= 45 && Addressable(m, k.slot) && Among(Address(m, k.slot).value, reach, BoxCount(m))
    requires GetItem(m, k.slot).Stack? && Settled(GetItem(m, k.slot))
    ensures var x := GetItem(m, k.slot);
            Count(ShiftClick(m, k, ss, Intended).m, reach, BoxCount(m), x.id, x.meta)
            == Count(m, reach, BoxCount(m), x.id, x.meta)
  {
    var x := GetItem(m, k.slot);
    var p := Address(m, k.slot).value;
    var locs := ShiftLocations(m, k.slot);
    var n := BoxCount(m);
    ClickedNotScanned(m, k.slot);
    var d := Distribute(m, x, locs, ss, Intended);
    if d.Some? {
      DistributeTally(m, x, locs, ss, Intended, reach);
      PutBackCount(m, d.value, k.slot, reach);
    }
  }

  /** Storing the remainder of a spread back in the clicked slot, which
      the spread left alone, gives the slot's items back to the count. */
  lemma PutBackCount(m: Mirror, s: Spreading, slot: int, reach: int)
    requires Addressable(m, slot) && Among(Address(m, slot).value, reach, BoxCount(m))
    requires GetItem(m, slot).Stack? && GetItem(m, slot).count > 0
    requires s.m.windowId == m.windowId && s.m.sizes == m.sizes
    requires Read(s.m, Address(m, slot).value) == GetItem(m, slot)
    requires 0 <= s.unplaced <= GetItem(m, slot).count
    requires s.left == if s.unplaced == 0 then Empty else Resize(GetItem(m, slot), s.unplaced)
    requires var x := GetItem(m, slot);
             Count(s.m, reach, BoxCount(m), x.id, x.meta) == Count(m, reach, BoxCount(m), x.id, x.meta) + x.count - s.unplaced
    ensures var x := GetItem(m, slot);
            Count(SetSlot(s.m, slot, s.left), reach, BoxCount(m), x.id, x.meta) == Count(m, reach, BoxCount(m), x.id, x.meta)
  {
    var x := GetItem(m, slot);
    var p := Address(m, slot).value;
    assert Address(s.m, slot) == Some(p) by {
      assert Size(s.m) == Size(m);
    }
    assert SetSlot(s.m, slot, s.left) == Put(s.m, p, Normal(s.left));
    CountPut(s.m, reach, BoxCount(m), p, Normal(s.left), x.id, x.meta);
    assert Kind(Normal(s.left), x.id, x.meta) == s.unplaced;
  }

  /** As written, shift-clicking a main-inventory stack with no window open
      and no other stack of its kind merges it into itself (the `hotbar`
      case falls through to the main inventory) and then clears the slot:
      the ten items vanish and no other place changes. */
  lemma SelfMergeLoses()
    ensures var m := Holding(9, Stack(1, 0, 10));
            var r := ShiftClick(m, Click(0, 9, 0, 7, 1, Stack(1, 0, 10), None), Sixty, AsWritten);
            && r.Done? && Read(r.m, Inv(9)) == Empty
            && forall q :: q != Inv(9) ==> Read(r.m, q) == Read(m, q)
  {
    var m := Holding(9, Stack(1, 0, 10));
    SelfMergeSpread();
    var m1 := Put(m, Inv(9), Stack(1, 0, 20));
    assert ShiftLocations(m, 9) == ["hotbar"];
    assert ShiftClick(m, Click(0, 9, 0, 7, 1, Stack(1, 0, 10), None), Sixty, AsWritten) == Done(SetSlot(m1, 9, Empty));
  }

  /** The spread of `SelfMergeLoses`: the hotbar holds nothing of the
      kind, and the main inventory's first slot is the clicked one. */
  lemma SelfMergeSpread()
    ensures var m := Holding(9, Stack(1, 0, 10));
            Distribute(m, Stack(1, 0, 10), ["hotbar"], Sixty, AsWritten)
            == Some(Spreading(Put(m, Inv(9), Stack(1, 0, 20)), Empty, 0))
  {
    var m := Holding(9, Stack(1, 0, 10));
    var item := Stack(1, 0, 10);
    var hotbar := Slots(36, 45);
    var rest := Slots(9, 36) + Boxes(0);
    assert Cascade("hotbar", 0, AsWritten) == hotbar + rest;
    forall j | 0 <= j < |hotbar| ensures !SameItem(Read(m, hotbar[j]), item) {
      assert hotbar[j] == Inv(36 + j);
    }
    MergeSkip(m, item, hotbar, rest, 10, 64);
    assert rest[0] == Inv(9);
    var m1 := Put(m, Inv(9), Stack(1, 0, 20));
    assert Merge(m, item, rest, 10, 64) == Run(m1, 0, true);
  }

  /** A container of one slot holding another item, and a stack of ten in
      the slot after it (inventory index 9). */
  function Crowded(): (m: Mirror)
    ensures m.windowId == 5 && Size(m) == Some(1)
    ensures Read(m, Box(0)) == Stack(2, 0, 1) && Read(m, Inv(9)) == Stack(1, 0, 10)
  {
    Mirror(PlayerInventory(Blank(45)[9 := Stack(1, 0, 10)], Empty, 0, Missing), 5, map[0 := Stack(2, 0, 1)], map[0 := 0, 5 := 1], [], -1, [])
  }

  /** As written, shift-clicking a stack into a container with no room
      stores `undefined` in its slot: the stack is gone and the slot reads
      as `null`. As intended it stays where it was. */
  lemma OverflowLost()
    ensures var k := Click(5, 1, 0, 7, 1, Stack(1, 0, 10), None);
            && Read(ShiftClick(Crowded(), k, Sixty, AsWritten).m, Inv(9)) == Missing
            && Read(ShiftClick(Crowded(), k, Sixty, Intended).m, Inv(9)) == Stack(1, 0, 10)
  {
    var m := Crowded();
    var item := Stack(1, 0, 10);
    assert Address(m, 1) == Some(Inv(9));
    assert ShiftLocations(m, 1) == ["container"];
    forall v: Variant ensures Distribute(m, item, ["container"], Sixty, v) ==
                             Some(Spreading(m, if v == AsWritten then Missing else Resize(item, 10), 10)) {
      assert Cascade("container", 1, v) == [Box(0)];
      assert Merge(m, item, [Box(0)], 10, 64) == Run(m, 10, false);
      assert Fill(m, item, [Box(0)], 10, 64) == Some(Run(m, 10, false));
    }
  }

  // ---------------------------------------------------------------------
  // Number keys over a container slot

  /** As intended, a number key over a non-empty container slot moves the
      stack to the key's empty hotbar slot when the main inventory has an
      empty slot, and changes nothing when it has none. (As written the
      click changes nothing in either case; see `NumberKey`.) */
  lemma NumberKeyMovesToHotbar(m: Mirror, k: Click, ss: StackSizes, b: int)
    requires InContainer(m, k.slot) && k.button == Some(b) && 0 <= b < 9
    requires GetItem(m, k.slot).Stack? && Settled(GetItem(m, k.slot))
    requires Read(m, Inv(36 + b)) == Empty
    requires forall i :: 9 <= i < 36 ==> Read(m, Inv(i)) != Missing
    ensures var r := NumberKey(m, k, ss, Intended);
            && r.Done?
            && ((exists i :: 9 <= i < 36 && Read(m, Inv(i)) == Empty) ==>
                  Read(r.m, Inv(36 + b)) == GetItem(m, k.slot) && Read(r.m, Box(k.slot)) == Empty)
            && ((forall i :: 9 <= i < 36 ==> Read(m, Inv(i)) != Empty) ==> r.m == m)
  {
    var x := GetItem(m, k.slot);
    ContainerSlotIsBox(m, k.slot);
    MainInventoryFull(m, BoxCount(m));
    if exists i :: 9 <= i < 36 && Read(m, Inv(i)) == Empty {
      var ns := SlotFromNumberKey(m, b).value;
      var m2 := MoveToEmptyHotbar(m, k.slot, b, ss);
      assert NumberKey(m, k, ss, Intended) == Done(m2);
    }
  }

  /** `_moveItem` from a container slot to number key `b`'s empty hotbar
      slot: the stack moves and the container slot is emptied. */
  lemma MoveToEmptyHotbar(m: Mirror, slot: int, b: int, ss: StackSizes) returns (m2: Mirror)
    requires InContainer(m, slot) && 0 <= b < 9
    requires GetItem(m, slot).Stack? && Settled(GetItem(m, slot)) && Read(m, Inv(36 + b)) == Empty
    ensures SlotFromNumberKey(m, b).Some?
    ensures MoveItem(m, Some(slot), SlotFromNumberKey(m, b), ss, Intended) == Moved(m2, Empty)
    ensures Read(m2, Inv(36 + b)) == GetItem(m, slot) && Read(m2, Box(slot)) == Empty
  {
    var x := GetItem(m, slot);
    ContainerSlotIsBox(m, slot);
    var ns := SlotFromNumberKey(m, b).value;
    NumberKeyIsHotbar(m, b);
    var m1 := SetSlot(m, ns, x);
    m2 := SetSlot(m1, slot, Empty);
    assert Address(m1, slot) == Some(Box(slot)) by {
      assert Size(m1) == Size(m);
    }
  }
}
