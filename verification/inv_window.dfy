/** The server's window packets as the inventory handler applies them:
    the held-slot change, opening and closing a container, a single slot
    update and a whole-window listing. Together with the clicks they keep
    the mirror in step with the server.

    The open container's array is `null` while no container is open; the
    model reads the window id 0 as that state, since a close sets both and
    an open with window id 0 is not something the server sends. */
module ServerWindow {
  import opened Common
  import opened Inventory

  /** An array's elements as a store: index `i` holds `s[i]`. */
  function StoreOf(s: seq<Item>): (st: Store)
    ensures forall i :: i in st <==> 0 <= i < |s|
    ensures forall i :: 0 <= i < |s| ==> st[i] == s[i]
  {
    map i | 0 <= i < |s| :: s[i]
  }

  /** `x || NULL_ITEM`: an absent entry becomes the empty item, any item
      object is kept. */
  function OrEmpty(x: Item): (r: Item)
    ensures r != Missing
    ensures x != Missing ==> r == x
  {
    if x == Missing then Empty else x
  }

  /** `handleHeldItemSlot`: the selected hotbar slot changes and nothing
      else. */
  function HeldItemSlot(m: Mirror, slotId: int): (r: Mirror)
    ensures r.inventory.held == slotId
    ensures r.inventory.cursor == m.inventory.cursor
    ensures forall q :: Read(r, q) == Read(m, q)
    ensures forall s :: GetItem(r, s) == GetItem(m, s)
    ensures r.(inventory := m.inventory) == m
  {
    m.(inventory := m.inventory.(held := slotId))
  }

  /** `handleOpenWindow`: the new container is current, holds `slotCount`
      empty slots and its size is recorded. A negative count makes the
      array constructor throw after the window id is already current, so
      the old container stays and the new window's size stays unknown. */
  function OpenWindow(m: Mirror, windowId: int, slotCount: int): (r: Outcome)
    ensures r.m.windowId == windowId
    ensures slotCount < 0 ==> r.Threw? && r.m.box == m.box && r.m.sizes == m.sizes
    ensures slotCount >= 0 ==> r.Done? && Size(r.m) == Some(slotCount)
    ensures forall w :: w != windowId ==> (w in r.m.sizes <==> w in m.sizes)
    ensures forall w :: w != windowId && w in m.sizes ==> r.m.sizes[w] == m.sizes[w]
    ensures r.m.inventory == m.inventory && r.m.pending == m.pending
    ensures r.m.dragState == m.dragState && r.m.dragSlots == m.dragSlots
  {
    if slotCount < 0 then Threw(m.(windowId := windowId))
    else Done(m.(windowId := windowId, box := Blank(slotCount), sizes := m.sizes[windowId := slotCount]))
  }

  /** `handleCloseWindow`: back to the player's own window, no container,
      and the closed window's size forgotten. The drag and the pending
      actions are kept. */
  function CloseWindow(m: Mirror, windowId: int): (r: Mirror)
    ensures r.windowId == 0 && r.box == map[]
    ensures r.sizes.Keys == m.sizes.Keys - {windowId}
    ensures forall w :: w in r.sizes ==> r.sizes[w] == m.sizes[w]
    ensures r.inventory == m.inventory && r.pending == m.pending
    ensures r.dragState == m.dragState && r.dragSlots == m.dragSlots
  {
    m.(windowId := 0, box := map[], sizes := m.sizes - {windowId})
  }

  /** `handleSetSlot`. Slot -1 is the cursor, stored as `_setCursorItem`
      stores it. A window-0 packet for slots 0 to 44 writes the inventory
      array directly, whatever container is open. Other packets for a
      window that is not current are ignored; for the current window the
      slot is split as `_getItem` splits it, but the item is stored as
      given, without the empty-stack rule. An unknown size makes the index
      `NaN`, so the item lands in the `stray` property; a container slot
      while no container is open writes into `null` and throws. */
  function SetSlotPacket(m: Mirror, windowId: int, slot: int, item: Item): (r: Outcome)
    ensures slot == -1 ==> r == Done(SetCursor(m, item))
    ensures slot != -1 && windowId != 0 && windowId != m.windowId ==> r == Done(m)
    ensures r.m.windowId == m.windowId && r.m.sizes == m.sizes && r.m.pending == m.pending
    ensures r.m.dragState == m.dragState && r.m.dragSlots == m.dragSlots
    ensures slot != -1 ==> r.m.inventory.cursor == m.inventory.cursor
    ensures Stray(m, windowId, slot) ==> r.Done? && r.m.inventory.stray == item && forall q :: Read(r.m, q) == Read(m, q)
    ensures !Stray(m, windowId, slot) ==> r.m.inventory.stray == m.inventory.stray
  {
    if slot == -1 then Done(SetCursor(m, item))
    else if windowId == 0 && 0 <= slot < 45 then Done(Put(m, Inv(slot), item))
    else if windowId != m.windowId then Done(m)
    else if windowId !in m.sizes then Done(m.(inventory := m.inventory.(stray := item)))
    else if slot < m.sizes[windowId] then
      if m.windowId == 0 then Threw(m) else Done(Put(m, Box(slot), item))
    else Done(Put(m, Inv(slot - m.sizes[windowId] + 9), item))
  }

  /** A slot update that `handleSetSlot` files under the index `NaN`: not
      the cursor, not a window-0 inventory slot, for the current window,
      whose size is unknown. */
  predicate Stray(m: Mirror, windowId: int, slot: int) {
    && slot != -1 && !(windowId == 0 && 0 <= slot < 45)
    && windowId == m.windowId && Size(m).None?
  }

  /** While the open container's size is unknown, an update of any of its
      slots is read back by every slot number of that window and by a
      number key whose `button` is `undefined`. */
  lemma StrayUpdateReadsBack(m: Mirror, slot: int, item: Item, s: int)
    requires m.windowId != 0 && Size(m).None? && slot != -1 && s != Outside
    ensures var r := SetSlotPacket(m, m.windowId, slot, item);
            && r.Done? && GetItem(r.m, s) == item && GetKey(r.m, None) == item
  {
  }

  /** A slot update for the open container lands where clicks read that
      slot: the slot reads back the item as sent and every other place is
      as it was. */
  lemma SetSlotReadsBack(m: Mirror, slot: int, item: Item)
    requires m.windowId != 0 && Size(m).Some? && slot != -1 && slot != Outside
    ensures var r := SetSlotPacket(m, m.windowId, slot, item);
            && r.Done?
            && GetItem(r.m, slot) == item
            && forall q :: Some(q) != Address(m, slot) ==> Read(r.m, q) == Read(m, q)
  {
    var r := SetSlotPacket(m, m.windowId, slot, item).m;
    assert Address(r, slot) == Address(m, slot);
  }

  /** A window-0 slot update for slots 0 to 44 writes that inventory index,
      whichever window is open; with no container open that is also where
      clicks read the slot. */
  lemma PlayerSlotUpdate(m: Mirror, slot: int, item: Item)
    requires 0 <= slot < 45
    ensures var r := SetSlotPacket(m, 0, slot, item);
            && r.Done?
            && Read(r.m, Inv(slot)) == item
            && (forall q :: q != Inv(slot) ==> Read(r.m, q) == Read(m, q))
            && (m.windowId == 0 ==> GetItem(r.m, slot) == item)
  {
  }

  /** The end argument of `slice(0, end)`: `undefined` means the length, a
      negative end counts back from it, and any end is clamped to the
      array. */
  function SliceEnd(end: Option<int>, len: nat): (e: nat)
    ensures e <= len
    ensures end.None? ==> e == len
    ensures end.Some? && 0 <= end.value <= len ==> e == end.value
  {
    match end
    case None => len
    case Some(n) => if n >= 0 then Min(n, len) else Max(len + n, 0)
  }

  /** The inventory after a container listing: indices 9 to 44 take the
      last 36 entries in order, absent ones reading empty, and every other
      index is kept. */
  function Refill(slots: Store, tail: seq<Item>): (r: Store)
    requires |tail| <= 36
    ensures forall i :: i in r <==> i in slots || 9 <= i < 45
    ensures forall i :: 9 <= i < 9 + |tail| ==> r[i] == OrEmpty(tail[i - 9])
    ensures forall i :: 9 + |tail| <= i < 45 ==> r[i] == Empty
    ensures forall i :: i in slots && !(9 <= i < 45) ==> r[i] == slots[i]
  {
    slots + map i | 9 <= i < 45 :: Listed(tail, i)
  }

  /** What inventory index `i` takes from the listing's last entries. */
  function Listed(tail: seq<Item>, i: int): Item {
    if 0 <= i - 9 < |tail| then OrEmpty(tail[i - 9]) else Empty
  }

  /** `handleWindowItems`. For window 0 the inventory becomes the first 45
      entries, in a new array without a `stray` property. For a container the last 36 entries refill the inventory
      from index 9, even when the container is not the current one; for
      the current one the container then becomes the first `size` entries
      (all of them when the size is unknown). */
  function WindowItems(m: Mirror, windowId: int, items: seq<Item>): (r: Mirror)
    ensures windowId == 0 ==> r.inventory.slots == StoreOf(items[..Min(45, |items|)]) && r.inventory.stray == Missing
    ensures windowId != 0 ==> r.inventory.stray == m.inventory.stray
    ensures windowId != m.windowId ==> r.box == m.box
    ensures r.inventory.cursor == m.inventory.cursor && r.inventory.held == m.inventory.held
    ensures r.windowId == m.windowId && r.sizes == m.sizes && r.pending == m.pending
    ensures r.dragState == m.dragState && r.dragSlots == m.dragSlots
  {
    if windowId == 0 then m.(inventory := m.inventory.(slots := StoreOf(items[..Min(45, |items|)]), stray := Missing))
    else
      var tail := items[Max(|items| - 36, 0)..];
      var m1 := m.(inventory := m.inventory.(slots := Refill(m.inventory.slots, tail)));
      if windowId != m.windowId then m1
      else
        var end := if windowId in m.sizes then Some(m.sizes[windowId]) else None;
        m1.(box := StoreOf(items[..SliceEnd(end, |items|)]))
  }

  /** A full listing of the player's own window reads back slot by slot,
      and no slot past 44 remains. */
  lemma PlayerListingReadsBack(m: Mirror, items: seq<Item>)
    requires m.windowId == 0 && |items| >= 45
    ensures var r := WindowItems(m, 0, items);
            && (forall s :: 0 <= s < 45 ==> GetItem(r, s) == items[s])
            && forall s :: s != Outside && !(0 <= s < 45) ==> GetItem(r, s) == Missing
  {
  }

  /** A full listing of the open container, `size` container slots then
      the 36 inventory slots, reads back slot by slot through the same
      addressing clicks use; an absent inventory entry reads empty. */
  lemma ContainerListingReadsBack(m: Mirror, items: seq<Item>)
    requires m.windowId != 0 && Size(m).Some? && Size(m).value >= 0
    requires |items| == Size(m).value + 36
    ensures var r := WindowItems(m, m.windowId, items);
            var n := Size(m).value;
            && (forall s :: 0 <= s < n ==> GetItem(r, s) == items[s])
            && (forall s :: n <= s < n + 36 ==> GetItem(r, s) == OrEmpty(items[s]))
  {
    var n := Size(m).value;
    var r := WindowItems(m, m.windowId, items);
    var tail := items[n..];
    assert items[Max(|items| - 36, 0)..] == tail;
    assert r.box == StoreOf(items[..n]);
    forall s | n <= s < n + 36 ensures GetItem(r, s) == OrEmpty(items[s]) {
      assert Address(r, s) == Some(Inv(s - n + 9));
      assert tail[s - n] == items[s];
    }
  }

  /** Opening a container shows its slots empty and the player's inventory
      from index 9 below them. */
  lemma OpenedWindowLayout(m: Mirror, windowId: int, slotCount: int)
    requires windowId != 0 && slotCount >= 0
    ensures var r := OpenWindow(m, windowId, slotCount).m;
            && (forall s :: 0 <= s < slotCount ==> InContainer(r, s) && GetItem(r, s) == Empty)
            && (forall s :: s >= slotCount ==> !InContainer(r, s) && GetItem(r, s) == Read(m, Inv(s - slotCount + 9)))
  {
  }

  /** Closing a window undoes opening it: the result is the same as
      closing without having opened, and every slot number is again an
      inventory index. */
  lemma OpenThenClose(m: Mirror, windowId: int, slotCount: int)
    requires slotCount >= 0
    ensures var r := CloseWindow(OpenWindow(m, windowId, slotCount).m, windowId);
            && r == CloseWindow(m, windowId)
            && forall s :: s != Outside ==> GetItem(r, s) == Read(m, Inv(s))
  {
    var o := OpenWindow(m, windowId, slotCount).m;
    assert o.sizes - {windowId} == m.sizes - {windowId};
  }
}
