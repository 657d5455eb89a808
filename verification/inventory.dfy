/** The proxy's client-side mirror of the player's inventory, kept by the
    inventory handler from window clicks the client sends and the server's
    slot updates. This module holds the state and the slot primitives every
    click is built from; `Spread`, `Drag` and `Clicks` build on it.

    JavaScript arrays are modelled as maps from index to item: a read of an
    index never written gives `undefined` (`Missing`), and a write to any
    integer key (even a negative one) is read back at that key. */
module Inventory {
  import opened Common
  import opened JsMaps

  /** A slot's content. The wire format marks an empty slot with block id
      -1 and no count, and a stack never has block id -1. `meta` folds every
      field other than the count (damage, NBT) into one value compared by
      equality. `Missing` is JavaScript's `null`/`undefined` in a slot. */
  datatype Item = Missing | Empty | Stack(id: int, meta: int, count: int)

  /** The game's maximum stack size per item id. */
  type StackSizes = f: int -> int | forall id :: f(id) >= 1 witness (id: int) => 64

  /** Where a window slot number lands: the player inventory's own
      45-slot array or the open container's array. */
  datatype Place = Inv(i: int) | Box(i: int)

  type Store = map<int, Item>

  /** `gameState.inventory`. `stray` is the slots array's property `"NaN"`:
      a slot index computed from `undefined` is `NaN`, and `slots[NaN]`
      reads and writes that property like any other. It is `Missing` until
      written, and a new array (a window-0 listing, a `cloneDeep` copy)
      does not carry it. */
  datatype PlayerInventory = PlayerInventory(slots: Store, cursor: Item, held: int, stray: Item)

  /** What a rejected transaction restores: one slot and the cursor, or a
      copy of the open container together with the inventory. `saved` is
      `None` when the snapshot holds the live inventory object rather than
      a copy, so that restoring it restores whatever the inventory holds by
      then. */
  datatype Undo = Restore(slot: int, item: Item, cursor: Item)
                | Snapshot(saved: Option<PlayerInventory>, box: Store)

  datatype Action = Action(windowId: int, actionNumber: int, timestamp: int, undo: Undo)

  /** Pending actions by window id, then by action number. */
  type Pending = JsMap<int, JsMap<int, Action>>

  /** The handler's state together with the inventory it edits. `box` is
      `currentContainer` (an empty map stands for `null`), `sizes` is
      `containerSizes`. */
  datatype Mirror = Mirror(
    inventory: PlayerInventory,
    windowId: int,
    box: Store,
    sizes: map<int, int>,
    pending: Pending,
    dragState: int,
    dragSlots: seq<int>)

  /** How a mirrored click ends: normally; by a thrown `TypeError`, with
      the state as it was before the step that threw; or with an item count
      that has become `NaN`, which the model does not follow further. */
  datatype Outcome = Done(m: Mirror) | Threw(m: Mirror) | NotANumber(m: Mirror)

  /** `lodash.cloneDeep` of the inventory: it copies the slots array's
      elements and the other fields, but not the array's `stray` property. */
  function Clone(inv: PlayerInventory): (c: PlayerInventory)
    ensures c.(stray := inv.stray) == inv && c.stray == Missing
  {
    inv.(stray := Missing)
  }

  /** The code for "outside the window" in a click's slot field. */
  const Outside: int := -999

  /** A fresh handler: 45 empty slots, nothing open, no drag. */
  function Initial(): (m: Mirror)
    ensures forall i :: 0 <= i < 45 ==> Read(m, Inv(i)) == Empty
    ensures m.inventory.stray == Missing
    ensures m.windowId == 0 && m.dragState == -1 && m.dragSlots == [] && m.pending == []
  {
    Mirror(PlayerInventory(Blank(45), Empty, 0, Missing), 0, map[], map[0 := 0], [], -1, [])
  }

  /** `new Array(n).fill(NULL_ITEM)`. */
  function Blank(n: nat): (s: Store)
    ensures forall i :: i in s <==> 0 <= i < n
    ensures forall i :: i in s ==> s[i] == Empty
  {
    if n == 0 then map[] else Blank(n - 1)[n - 1 := Empty]
  }

  /** `_isEmpty`: reading `blockId` of `null` throws, hence the requires. */
  predicate IsEmpty(x: Item)
    requires x != Missing
  {
    x.Empty?
  }

  /** `_areSameItem`: both present and equal in everything but the count. */
  predicate SameItem(a: Item, b: Item) {
    match (a, b)
    case (Empty, Empty) => true
    case (Stack(i, d, _), Stack(j, e, _)) => i == j && d == e
    case _ => false
  }

  /** The number of items a slot holds. */
  function CountOf(x: Item): (n: int)
    ensures x.Stack? ==> n == x.count
    ensures !x.Stack? ==> n == 0
  {
    if x.Stack? then x.count else 0
  }

  /** `{...omit(item, 'itemCount'), itemCount: n}`: the same item with a new
      count. An empty item stays empty, since nothing reads its count. */
  function Resize(x: Item, n: int): (r: Item)
    requires x != Missing
    ensures r != Missing && SameItem(r, x)
    ensures r.Stack? ==> r.count == n
    ensures r.Empty? <==> x.Empty?
  {
    if x.Stack? then Stack(x.id, x.meta, n) else x
  }

  /** What `_setSlot` and `_setCursorItem` store: a stack of count zero or
      less becomes the empty item; anything else, `null` included, is
      stored as given. */
  function Normal(x: Item): (r: Item)
    ensures r.Stack? ==> r.count > 0
    ensures r == x || (x.Stack? && r == Empty)
    ensures x.Stack? && x.count > 0 ==> r == x
  {
    if x.Stack? && x.count <= 0 then Empty else x
  }

  /** `containerSizes.get(currentContainerId)`. */
  function Size(m: Mirror): Option<int> {
    if m.windowId in m.sizes then Some(m.sizes[m.windowId]) else None
  }

  /** The address arithmetic `_setSlot` and `_getItem` share: with no window
      open the slot number is the inventory index; in a container the first
      `size` slots are the container's and the rest are the inventory from
      its index 9 on. An unknown size makes the index `NaN` (`None`), which
      names the inventory's `stray` property. */
  function Address(m: Mirror, slot: int): (p: Option<Place>)
    ensures m.windowId == 0 ==> p == Some(Inv(slot))
    ensures m.windowId != 0 && Size(m).Some? ==>
              p == Some(if slot < Size(m).value then Box(slot) else Inv(slot - Size(m).value + 9))
    ensures m.windowId != 0 && Size(m).None? ==> p.None?
  {
    if m.windowId == 0 then Some(Inv(slot))
    else match Size(m)
      case None => None
      case Some(n) => if slot < n then Some(Box(slot)) else Some(Inv(slot - n + 9))
  }

  /** Two slot numbers never share a place. */
  lemma AddressInjective(m: Mirror, a: int, b: int)
    requires Address(m, a).Some? && Address(m, a) == Address(m, b)
    ensures a == b
  {
  }

  function Read(m: Mirror, p: Place): Item {
    match p
    case Inv(i) => if i in m.inventory.slots then m.inventory.slots[i] else Missing
    case Box(i) => if i in m.box then m.box[i] else Missing
  }

  /** A direct array write, as `_distributeItems` and `_gatherToCursor` do. */
  function Put(m: Mirror, p: Place, x: Item): (r: Mirror)
    ensures Read(r, p) == x
    ensures forall q :: q != p ==> Read(r, q) == Read(m, q)
    ensures r.inventory.cursor == m.inventory.cursor && r.inventory.held == m.inventory.held
    ensures r.inventory.stray == m.inventory.stray
    ensures r.(inventory := m.inventory, box := m.box) == m
  {
    match p
    case Inv(i) => m.(inventory := m.inventory.(slots := m.inventory.slots[i := x]))
    case Box(i) => m.(box := m.box[i := x])
  }

  /** `_getItem`: the slot outside the window reads as `null`; a `NaN`
      index reads the `stray` property. */
  function GetItem(m: Mirror, slot: int): (x: Item)
    ensures slot == Outside ==> x == Missing
    ensures slot != Outside && Address(m, slot).None? ==> x == m.inventory.stray
    ensures slot != Outside && Address(m, slot).Some? ==> x == Read(m, Address(m, slot).value)
  {
    if slot == Outside then Missing
    else match Address(m, slot)
      case None => m.inventory.stray
      case Some(p) => Read(m, p)
  }

  /** `_setSlot`. The write lands at the slot's address (for the outside
      slot too, as a key nobody reads); a `NaN` index writes the `stray`
      property. */
  function SetSlot(m: Mirror, slot: int, x: Item): (r: Mirror)
    ensures Address(m, slot).Some? ==> Read(r, Address(m, slot).value) == Normal(x)
    ensures Address(m, slot).Some? ==> r.inventory.stray == m.inventory.stray
    ensures Address(m, slot).None? ==> r.inventory.stray == Normal(x)
    ensures forall q :: Address(m, slot) != Some(q) ==> Read(r, q) == Read(m, q)
    ensures r.(inventory := m.inventory, box := m.box) == m
    ensures r.inventory.cursor == m.inventory.cursor && r.inventory.held == m.inventory.held
  {
    match Address(m, slot)
    case None => m.(inventory := m.inventory.(stray := Normal(x)))
    case Some(p) => Put(m, p, Normal(x))
  }

  /** `_getItem` on a slot number that may be `NaN` (`None`): `NaN` is
      neither -999 nor below any size, so every window reads it from the
      `stray` property. */
  function GetKey(m: Mirror, s: Option<int>): Item {
    match s
    case None => m.inventory.stray
    case Some(slot) => GetItem(m, slot)
  }

  /** `_setSlot` on a slot number that may be `NaN` (`None`). */
  function SetKey(m: Mirror, s: Option<int>, x: Item): (r: Mirror)
    ensures s.None? ==> forall q :: Read(r, q) == Read(m, q)
    ensures r.(inventory := m.inventory, box := m.box) == m
    ensures r.inventory.cursor == m.inventory.cursor && r.inventory.held == m.inventory.held
  {
    match s
    case None => m.(inventory := m.inventory.(stray := Normal(x)))
    case Some(slot) => SetSlot(m, slot, x)
  }

  /** `_setCursorItem`. */
  function SetCursor(m: Mirror, x: Item): (r: Mirror)
    ensures r.inventory.cursor == Normal(x)
    ensures forall q :: Read(r, q) == Read(m, q)
    ensures r.inventory.(cursor := m.inventory.cursor) == m.inventory
    ensures r.(inventory := m.inventory) == m
  {
    m.(inventory := m.inventory.(cursor := Normal(x)))
  }

  /** Reading a slot back after writing it gives what `_setSlot` stores;
      every other slot reads as before. */
  lemma SetThenGet(m: Mirror, slot: int, x: Item, other: int)
    requires slot != Outside && Address(m, slot).Some?
    ensures GetItem(SetSlot(m, slot, x), slot) == Normal(x)
    ensures other != slot ==> GetItem(SetSlot(m, slot, x), other) == GetItem(m, other)
  {
  }

  /** `_incrementCursorItem`: an empty cursor stays empty; a stack that
      drops to zero or below becomes empty. */
  function IncrementCursor(m: Mirror, d: int): (r: Mirror)
    requires m.inventory.cursor != Missing
    ensures m.inventory.cursor.Empty? ==> r == m
    ensures m.inventory.cursor.Stack? ==>
              CountOf(r.inventory.cursor) == Max(0, m.inventory.cursor.count + d)
    ensures r.inventory.cursor != Missing && (r.inventory.cursor.Empty? || SameItem(r.inventory.cursor, m.inventory.cursor))
    ensures r.(inventory := m.inventory) == m
    ensures r.inventory.(cursor := m.inventory.cursor) == m.inventory
  {
    var c := m.inventory.cursor;
    if c.Empty? then m
    else if c.count + d <= 0 then SetCursor(m, Empty)
    else SetCursor(m, Resize(c, c.count + d))
  }

  /** `_incrementSlot`: an empty slot is left alone; a stack that drops to
      zero or below becomes empty. */
  function IncrementSlot(m: Mirror, slot: int, d: int): (r: Mirror)
    requires GetItem(m, slot) != Missing
    ensures GetItem(m, slot).Empty? ==> r == m
    ensures GetItem(m, slot).Stack? ==>
              r == SetSlot(m, slot, Resize(GetItem(m, slot), GetItem(m, slot).count + d))
  {
    var x := GetItem(m, slot);
    if x.Empty? then m
    else if x.count + d <= 0 then SetSlot(m, slot, Empty)
    else SetSlot(m, slot, Resize(x, x.count + d))
  }

  /** `_setSlotCount`. */
  function SetSlotCount(m: Mirror, slot: int, n: int): (r: Mirror)
    requires GetItem(m, slot) != Missing
    ensures GetItem(m, slot).Empty? ==> r == m
    ensures GetItem(m, slot).Stack? ==> r == SetSlot(m, slot, Resize(GetItem(m, slot), n))
  {
    var x := GetItem(m, slot);
    if x.Empty? then m
    else if n <= 0 then SetSlot(m, slot, Empty)
    else SetSlot(m, slot, Resize(x, n))
  }

  /** A slot that can be written and read back (inside the window). */
  predicate Addressable(m: Mirror, slot: int) {
    slot != Outside && Address(m, slot).Some?
  }

  /** `_swapWithCursor`: the cursor takes the slot's item and the slot the
      cursor's. */
  function SwapWithCursor(m: Mirror, slot: int): (r: Mirror)
    ensures r.inventory.held == m.inventory.held
    ensures r.(inventory := m.inventory, box := m.box) == m
    ensures r.inventory.cursor == Normal(GetItem(m, slot))
    ensures Addressable(m, slot) ==> GetItem(r, slot) == Normal(m.inventory.cursor)
    ensures forall q :: Address(m, slot) != Some(q) ==> Read(r, q) == Read(m, q)
  {
    SetSlot(SetCursor(m, GetItem(m, slot)), slot, m.inventory.cursor)
  }

  /** A state whose cursor and slot hold what `_setSlot` would store. */
  predicate Settled(x: Item) {
    Normal(x) == x
  }

  /** Swapping twice puts both items back. */
  lemma SwapTwiceRestores(m: Mirror, slot: int)
    requires Addressable(m, slot)
    requires Settled(m.inventory.cursor) && Settled(GetItem(m, slot)) && GetItem(m, slot) != Missing
    ensures SwapWithCursor(SwapWithCursor(m, slot), slot) == m
  {
    var p := Address(m, slot).value;
    var x := GetItem(m, slot);
    var c := m.inventory.cursor;
    var s1 := SwapWithCursor(m, slot);
    assert s1.windowId == m.windowId && s1.sizes == m.sizes;
    assert Address(s1, slot) == Some(p);
    assert s1.inventory.cursor == x && GetItem(s1, slot) == c;
    var r := SwapWithCursor(s1, slot);
    assert r.inventory.cursor == c;
    match p {
      case Inv(i) =>
        assert r.inventory.slots == m.inventory.slots[i := x];
        assert m.inventory.slots[i := x] == m.inventory.slots;
      case Box(i) =>
        assert r.box == m.box[i := x];
        assert m.box[i := x] == m.box;
    }
  }

  /** `_swapSlots(a, b)`, where `b` may be `NaN` (`None`): the two items
      change places, a `NaN` partner being the `stray` property. */
  function SwapSlots(m: Mirror, a: int, b: Option<int>): (r: Mirror)
    ensures r.(inventory := m.inventory, box := m.box) == m
    ensures b.Some? && Addressable(m, a) && Addressable(m, b.value) ==>
              GetItem(r, a) == Normal(GetItem(m, b.value)) && GetItem(r, b.value) == Normal(GetItem(m, a))
    ensures b.None? && Addressable(m, a) ==>
              GetItem(r, a) == Normal(m.inventory.stray) && r.inventory.stray == Normal(GetItem(m, a))
    ensures b.None? && Addressable(m, a) ==>
              forall q :: q != Address(m, a).value ==> Read(r, q) == Read(m, q)
    ensures r.inventory.cursor == m.inventory.cursor
  {
    SetKey(SetSlot(m, a, GetKey(m, b)), b, GetItem(m, a))
  }

  /** `_fillSlotFromCursor`, reached when cursor and slot hold the same
      item: the slot fills up to the stack size and the cursor keeps the
      rest. */
  function FillSlotFromCursor(m: Mirror, slot: int, ss: StackSizes): (r: Mirror)
    requires m.inventory.cursor.Stack? && GetItem(m, slot).Stack?
    ensures r.inventory.held == m.inventory.held
    ensures forall q :: Address(m, slot) != Some(q) ==> Read(r, q) == Read(m, q)
    ensures r.(inventory := m.inventory, box := m.box) == m
    ensures r.inventory.cursor.Empty? || SameItem(r.inventory.cursor, m.inventory.cursor)
  {
    var c := m.inventory.cursor;
    var x := GetItem(m, slot);
    var count := c.count + x.count;
    var cap := ss(x.id);
    if count > cap then
      var m1 := SetSlotCount(m, slot, cap);
      SetCursor(m1, Resize(c, count - cap))
    else
      var m1 := SetSlotCount(m, slot, count);
      SetCursor(m1, Empty)
  }

  /** Filling conserves what cursor and slot hold together, and the slot
      ends with the sum capped at the stack size. */
  lemma FillCounts(m: Mirror, slot: int, ss: StackSizes)
    requires m.inventory.cursor.Stack? && GetItem(m, slot).Stack?
    requires Addressable(m, slot) && m.inventory.cursor.count > 0 && GetItem(m, slot).count > 0
    ensures var r := FillSlotFromCursor(m, slot, ss);
            var total := m.inventory.cursor.count + GetItem(m, slot).count;
            && CountOf(GetItem(r, slot)) + CountOf(r.inventory.cursor) == total
            && CountOf(GetItem(r, slot)) == Min(total, ss(GetItem(m, slot).id))
  {
    var c := m.inventory.cursor;
    var x := GetItem(m, slot);
    var count := c.count + x.count;
    var cap := ss(x.id);
    var n := if count > cap then cap else count;
    var y := if count > cap then Resize(c, count - cap) else Empty;
    assert FillSlotFromCursor(m, slot, ss) == SetCursor(SetSlotCount(m, slot, n), y);
    FilledSlotReads(m, slot, n, y);
  }

  /** After the slot is resized to a positive count and the cursor set,
      the slot reads back the resized stack. */
  lemma FilledSlotReads(m: Mirror, slot: int, n: int, y: Item)
    requires Addressable(m, slot) && GetItem(m, slot).Stack? && n > 0
    ensures GetItem(SetCursor(SetSlotCount(m, slot, n), y), slot) == Resize(GetItem(m, slot), n)
  {
    var x := GetItem(m, slot);
    var m1 := SetSlotCount(m, slot, n);
    var r := SetCursor(m1, y);
    var p := Address(m, slot).value;
    assert Read(m1, p) == Resize(x, n);
    assert Read(r, p) == Read(m1, p);
    assert Size(r) == Size(m);
  }

  /** `_moveHalfToCursor`: the cursor takes the larger half, rounded up. */
  function MoveHalfToCursor(m: Mirror, slot: int): (r: Mirror)
    requires GetItem(m, slot) != Missing
    ensures r.inventory.held == m.inventory.held
    ensures forall q :: Address(m, slot) != Some(q) ==> Read(r, q) == Read(m, q)
    ensures r.(inventory := m.inventory, box := m.box) == m
    ensures GetItem(m, slot).Empty? ==> r == m
    ensures Addressable(m, slot) && GetItem(m, slot).Stack? && GetItem(m, slot).count > 0 ==>
              var n := GetItem(m, slot).count;
              && CountOf(r.inventory.cursor) == CeilDiv(n, 2)
              && CountOf(GetItem(r, slot)) == n - CeilDiv(n, 2)
              && SameItem(r.inventory.cursor, GetItem(m, slot))
  {
    var x := GetItem(m, slot);
    if x.Empty? then m
    else
      var half := CeilDiv(x.count, 2);
      var m1 := SetCursor(m, Resize(x, half));
      var m2 := IncrementSlot(m1, slot, -half);
      var y := GetItem(m2, slot);
      if y.Stack? && y.count <= 0 then SetSlot(m2, slot, Empty) else m2
  }

  /** `_moveOneToSlot`: one item leaves the cursor for the slot unless the
      slot is already a full stack. */
  function MoveOneToSlot(m: Mirror, slot: int, ss: StackSizes): (r: Mirror)
    requires GetItem(m, slot) != Missing && m.inventory.cursor != Missing
    ensures r.inventory.held == m.inventory.held
    ensures forall q :: Address(m, slot) != Some(q) ==> Read(r, q) == Read(m, q)
    ensures r.(inventory := m.inventory, box := m.box) == m
    ensures GetItem(m, slot).Stack? && GetItem(m, slot).count >= ss(GetItem(m, slot).id) ==> r == m
  {
    var x := GetItem(m, slot);
    if x.Empty? then
      var m1 := SetSlot(m, slot, Resize(m.inventory.cursor, 1));
      IncrementCursor(m1, -1)
    else if x.count >= ss(x.id) then m
    else
      var m1 := IncrementSlot(m, slot, 1);
      IncrementCursor(m1, -1)
  }

  /** One item leaves the cursor for the slot unless the slot is already a
      full stack. */
  lemma MoveOneCounts(m: Mirror, slot: int, ss: StackSizes)
    requires Addressable(m, slot) && m.inventory.cursor.Stack? && m.inventory.cursor.count > 0
    requires GetItem(m, slot).Empty? || (GetItem(m, slot).Stack? && 0 < GetItem(m, slot).count < ss(GetItem(m, slot).id))
    ensures var r := MoveOneToSlot(m, slot, ss);
            && CountOf(GetItem(r, slot)) == CountOf(GetItem(m, slot)) + 1
            && CountOf(r.inventory.cursor) == m.inventory.cursor.count - 1
  {
    var x := GetItem(m, slot);
    var y := if x.Empty? then Resize(m.inventory.cursor, 1) else Resize(x, x.count + 1);
    var r := IncrementCursor(SetSlot(m, slot, y), -1);
    assert MoveOneToSlot(m, slot, ss) == r;
    PutOneBack(m, slot, y);
  }

  /** Writing a stack into a slot and then taking one item off the cursor
      leaves the stack in the slot. */
  lemma PutOneBack(m: Mirror, slot: int, y: Item)
    requires Addressable(m, slot) && m.inventory.cursor.Stack? && y.Stack? && y.count > 0
    ensures var r := IncrementCursor(SetSlot(m, slot, y), -1);
            GetItem(r, slot) == y && CountOf(r.inventory.cursor) == Max(0, m.inventory.cursor.count - 1)
  {
    var p := Address(m, slot).value;
    var m1 := SetSlot(m, slot, y);
    var r := IncrementCursor(m1, -1);
    assert Read(m1, p) == y;
    assert Read(r, p) == y;
    assert Size(r) == Size(m);
  }

  /** `_getSlotFromNumberKey`: the window slot of hotbar key `key`. An
      unknown container size makes it `NaN` (`None`). */
  function SlotFromNumberKey(m: Mirror, key: int): (s: Option<int>)
    ensures m.windowId == 0 ==> s == Some(key + 36)
    ensures m.windowId != 0 ==> (s.Some? <==> Size(m).Some?)
  {
    if m.windowId == 0 then Some(key + 36)
    else match Size(m)
      case None => None
      case Some(n) => Some(key + 27 + n)
  }

  /** Whatever window is open, number key `k` names hotbar slot `k`, which
      is inventory index 36 + k. */
  lemma NumberKeyIsHotbar(m: Mirror, key: int)
    requires 0 <= key && SlotFromNumberKey(m, key).Some?
    ensures Address(m, SlotFromNumberKey(m, key).value) == Some(Inv(36 + key))
  {
  }

  /** `_isInContainer`. */
  predicate InContainer(m: Mirror, slot: int) {
    m.windowId != 0 && Size(m).Some? && 0 <= slot < Size(m).value
  }

  /** A slot inside the open container addresses the container's array. */
  lemma ContainerSlotIsBox(m: Mirror, slot: int)
    requires InContainer(m, slot)
    ensures Address(m, slot) == Some(Box(slot))
  {
  }

  /** `_isInHotbar` and `_isInInventory` for the only case they are called
      in, no window open. */
  predicate InHotbar(slot: int) { 36 <= slot < 45 }
  predicate InMain(slot: int) { 9 <= slot < 36 }
}
