/** `handleWindowClick`: a click the client sends is mirrored on the
    inventory before the server answers, and the click records how to undo
    itself in the pending-transaction table.

    The `mode` switch has several cases without `break`: a normal click
    with a mouse button other than 0 or 1 runs the shift-click code, a drop
    that matches none of its sub-cases runs the drag code, and a drag click
    that neither starts, extends nor ends a drag runs the double-click code.

    The source writes the undo record before mirroring the click, and a
    fall-through case writes it again under the same action number. The
    mirroring never reads the table, so the model writes it once, after the
    click, with the record the click ends with. */
module Clicks {
  import opened Common
  import opened JsMaps
  import opened Inventory
  import opened Spread
  import opened Actions
  import opened Drag

  /** A `window_click` packet. `item` is what the client believes the slot
      holds. `button` is a field the handler reads for number keys and
      drops but the packet does not define; `None` stands for `undefined`. */
  datatype Click = Click(windowId: int, slot: int, mouseButton: int, action: int, mode: int, item: Item, button: Option<int>)

  /** How a click's mirroring ends, and the undo record it leaves. */
  datatype Effect = Effect(o: Outcome, undo: Undo)

  /** `b` has the window, the sizes, the table and the drag of `a`: what
      every click other than a drag click keeps. */
  predicate Steady(a: Mirror, b: Mirror) {
    && a.windowId == b.windowId && a.sizes == b.sizes && a.pending == b.pending
    && a.dragState == b.dragState && a.dragSlots == b.dragSlots
  }

  /** What a click may do to the drag: leave it; start one, on a click
      outside the window while none is running, with the mouse button as
      its state; add a slot not yet in it, when the button is the state
      plus one; or end a left (state 0) or right (state 4) drag on a click
      outside with the state plus two. */
  predicate DragMove(m: Mirror, k: Click, r: Mirror) {
    || (r.dragState == m.dragState && r.dragSlots == m.dragSlots)
    || (m.dragState == -1 && k.slot == Outside && r.dragState == k.mouseButton && r.dragSlots == m.dragSlots)
    || (&& m.dragState != -1 && k.slot != Outside && k.mouseButton - 1 == m.dragState && k.slot !in m.dragSlots
        && r.dragState == m.dragState && r.dragSlots == m.dragSlots + [k.slot])
    || (&& k.slot == Outside && k.mouseButton - 2 == m.dragState && (m.dragState == 0 || m.dragState == 4)
        && r.dragState == -1 && r.dragSlots == [])
  }

  /** Clicks the handler acts on: in the open window, not the "client out
      of sync" slot -1, and of a mode it mirrors (mode 3, the creative
      middle click, is not mirrored; unknown modes match no case). */
  predicate Handled(m: Mirror, k: Click) {
    k.windowId == m.windowId && k.slot != -1 && k.mode in {0, 1, 2, 4, 5, 6}
  }

  /** The record of a one-slot click: the slot's item and a copy of the
      cursor. */
  function SlotUndo(m: Mirror, k: Click): Undo {
    Restore(k.slot, GetItem(m, k.slot), m.inventory.cursor)
  }

  /** The record of a one-slot click whose slot object the click then
      changes in place to `x`. As written the record holds the slot's own
      object, not a copy, so it ends up holding `x`; as intended it holds
      the item as it was. */
  function Held(m: Mirror, k: Click, v: Variant, x: Item): (u: Undo)
    ensures v == Intended ==> u == SlotUndo(m, k)
    ensures v == AsWritten ==> u == Restore(k.slot, x, m.inventory.cursor)
  {
    Restore(k.slot, if v == AsWritten then x else GetItem(m, k.slot), m.inventory.cursor)
  }

  /** The record of a whole-window click. As written its inventory is the
      live inventory object (`None`); as intended, a `cloneDeep` copy. The
      container is copied in both. */
  function FullUndo(m: Mirror, v: Variant): (u: Undo)
    ensures u.Snapshot? && u.box == m.box
    ensures v == AsWritten ==> u.saved.None?
    ensures v == Intended ==>
              && u.saved.Some? && u.saved.value.slots == m.inventory.slots
              && u.saved.value.cursor == m.inventory.cursor && u.saved.value.held == m.inventory.held
  {
    Snapshot(if v == AsWritten then None else Some(Clone(m.inventory)), m.box)
  }

  /** Mode 0, mouse button 0. */
  function LeftClick(m: Mirror, k: Click, ss: StackSizes, v: Variant): (r: Effect)
    ensures Steady(r.o.m, m)
    ensures r.undo.Restore? && r.undo.slot == k.slot && r.undo.cursor == m.inventory.cursor
    ensures k.slot == Outside ==> r.o == Done(SetCursor(m, Empty))
    ensures k.slot != Outside && m.inventory.cursor == Missing ==> r.o == Threw(m)
    ensures k.slot != Outside && m.inventory.cursor.Empty? ==> r.o == Done(SwapWithCursor(m, k.slot))
    ensures forall q :: Address(m, k.slot) != Some(q) ==> Read(r.o.m, q) == Read(m, q)
    ensures v == Intended ==> r.undo == SlotUndo(m, k)
  {
    var c := m.inventory.cursor;
    var u := SlotUndo(m, k);
    if k.slot == Outside then Effect(Done(SetCursor(m, Empty)), u)
    else if c == Missing then Effect(Threw(m), u)
    else if IsEmpty(c) then Effect(Done(SwapWithCursor(m, k.slot)), u)
    else if k.item == Missing then Effect(Threw(m), u)
    else if IsEmpty(k.item) then Effect(Done(SwapWithCursor(m, k.slot)), u)
    else if SameItem(c, k.item) then
      var x := GetItem(m, k.slot);
      if x == Missing then Effect(Threw(m), u)
      // The summed count is `NaN`: `_setSlotCount` skips the empty slot and
      // the cursor is cleared.
      else if IsEmpty(x) then Effect(Done(SetCursor(m, Empty)), u)
      else Effect(Done(FillSlotFromCursor(m, k.slot, ss)), Held(m, k, v, Resize(x, Min(c.count + x.count, ss(x.id)))))
    else Effect(Done(SwapWithCursor(m, k.slot)), u)
  }

  /** Mode 0, mouse button 1. */
  function RightClick(m: Mirror, k: Click, ss: StackSizes, v: Variant): (r: Effect)
    ensures Steady(r.o.m, m)
    ensures r.undo.Restore? && r.undo.slot == k.slot && r.undo.cursor == m.inventory.cursor
    ensures k.slot == Outside && m.inventory.cursor != Missing ==> r.o == Done(IncrementCursor(m, -1))
    ensures m.inventory.cursor == Missing ==> r.o == Threw(m)
    ensures forall q :: Address(m, k.slot) != Some(q) ==> Read(r.o.m, q) == Read(m, q)
    ensures v == Intended ==> r.undo == SlotUndo(m, k)
  {
    var c := m.inventory.cursor;
    var u := SlotUndo(m, k);
    if k.slot == Outside then Effect(if c == Missing then Threw(m) else Done(IncrementCursor(m, -1)), u)
    else if c == Missing then Effect(Threw(m), u)
    else if IsEmpty(c) then
      var x := GetItem(m, k.slot);
      if x == Missing then Effect(Threw(m), u)
      else if IsEmpty(x) then Effect(Done(m), u)
      else Effect(Done(MoveHalfToCursor(m, k.slot)), Held(m, k, v, Resize(x, x.count - CeilDiv(x.count, 2))))
    else if k.item == Missing then Effect(Threw(m), u)
    else if IsEmpty(k.item) || SameItem(k.item, c) then
      var x := GetItem(m, k.slot);
      if x == Missing then Effect(Threw(m), u)
      else if x.Stack? && x.count < ss(x.id) then
        Effect(Done(MoveOneToSlot(m, k.slot, ss)), Held(m, k, v, Resize(x, x.count + 1)))
      else Effect(Done(MoveOneToSlot(m, k.slot, ss)), u)
    else Effect(Done(SwapWithCursor(m, k.slot)), u)
  }

  /** The locations a shift-click spreads the clicked stack over. */
  function ShiftLocations(m: Mirror, slot: int): (locs: seq<string>)
    ensures m.windowId == 0 && InHotbar(slot) ==> locs == ["inventory"]
    ensures m.windowId == 0 && InMain(slot) ==> locs == ["hotbar"]
    ensures m.windowId != 0 && InContainer(m, slot) ==> locs == ["hotbar", "inventory"]
    ensures m.windowId != 0 && !InContainer(m, slot) ==> locs == ["container"]
  {
    if m.windowId == 0 then
      if InHotbar(slot) then ["inventory"] else if InMain(slot) then ["hotbar"] else ["inventory", "hotbar"]
    else if InContainer(m, slot) then ["hotbar", "inventory"] else ["container"]
  }

  /** Mode 1: spread the clicked stack and store in the slot what the
      spread returns. */
  function ShiftClick(m: Mirror, k: Click, ss: StackSizes, v: Variant): (r: Outcome)
    ensures Steady(r.m, m)
    ensures Distribute(m, GetItem(m, k.slot), ShiftLocations(m, k.slot), ss, v).None? ==> r == Threw(m)
    ensures var d := Distribute(m, GetItem(m, k.slot), ShiftLocations(m, k.slot), ss, v);
            d.Some? ==> r == Done(SetSlot(d.value.m, k.slot, d.value.left))
  {
    match Distribute(m, GetItem(m, k.slot), ShiftLocations(m, k.slot), ss, v)
    case None => Threw(m)
    case Some(s) => Done(SetSlot(s.m, k.slot, s.left))
  }

  /** The hotbar slot a number key names; `undefined` gives `NaN`. */
  function NumberSlot(m: Mirror, button: Option<int>): (s: Option<int>)
    ensures button.None? ==> s.None?
    ensures button.Some? ==> s == SlotFromNumberKey(m, button.value)
  {
    match button
    case None => None
    case Some(b) => SlotFromNumberKey(m, b)
  }

  /** Mode 2. As written, the container branch tests `_isEmpty` on the slot
      number (never empty) and `_isFull` on the string "inventory" (always
      full), so it does nothing. As intended it tests the slot's item and the
      main inventory, and `_moveItem` declares its remainder. Outside the
      container the two slots are swapped; a `NaN` key slot is the
      inventory's `stray` property, so the item swapped there is handed
      back by the next `NaN` swap. */
  function NumberKey(m: Mirror, k: Click, ss: StackSizes, v: Variant): (r: Outcome)
    ensures Steady(r.m, m)
    ensures InContainer(m, k.slot) && v == AsWritten ==> r == Done(m)
    ensures !InContainer(m, k.slot) ==> r == Done(SwapSlots(m, k.slot, NumberSlot(m, k.button)))
  {
    var ns := NumberSlot(m, k.button);
    if InContainer(m, k.slot) then
      if v == AsWritten then Done(m)
      else
        var x := GetItem(m, k.slot);
        if x == Missing then Threw(m)
        else if IsEmpty(x) then
          match MoveItem(m, ns, Some(k.slot), ss, v)
          case Raised(m1) => Threw(m1)
          case Moved(m1, _) => Done(m1)
        else match IsFull(m, ["inventory"], BoxCount(m), v)
          case None => Threw(m)
          case Some(full) =>
            if full then Done(m)
            else match MoveItem(m, Some(k.slot), ns, ss, v)
              case Raised(m1) => Threw(m1)
              case Moved(m1, rest) =>
                match Distribute(m1, rest, ["hotbar", "inventory"], ss, v)
                case None => Threw(m1)
                case Some(s) => Done(s.m)
    else Done(SwapSlots(m, k.slot, ns))
  }

  /** Outside a container, a number key whose `button` is `undefined`
      swaps the hovered slot with the `stray` property: the slot takes what
      the previous such click left there, and the property takes the slot's
      item. So two such clicks carry the first slot's item to the second
      slot, and pressing twice over one slot puts everything back. */
  lemma NumberKeyCarries(m: Mirror, k: Click, k': Click, ss: StackSizes, v: Variant)
    requires k.button.None? && k'.button.None?
    requires !InContainer(m, k.slot) && Addressable(m, k.slot)
    requires !InContainer(m, k'.slot) && Addressable(m, k'.slot) && Address(m, k.slot) != Address(m, k'.slot)
    ensures var r1 := NumberKey(m, k, ss, v).m;
            var r2 := NumberKey(r1, k', ss, v).m;
            && GetItem(r1, k.slot) == Normal(m.inventory.stray) && r1.inventory.stray == Normal(GetItem(m, k.slot))
            && GetItem(r2, k'.slot) == Normal(Normal(GetItem(m, k.slot)))
            && r2.inventory.stray == Normal(GetItem(m, k'.slot))
            && GetItem(r2, k.slot) == Normal(m.inventory.stray)
  {
    var r1 := SwapSlots(m, k.slot, None);
    assert NumberKey(m, k, ss, v).m == r1;
    assert Size(r1) == Size(m);
    assert NumberKey(r1, k', ss, v).m == SwapSlots(r1, k'.slot, None);
    StraySwaps(m, k.slot, k'.slot);
  }

  /** Two swaps with the `stray` property over distinct places. */
  lemma StraySwaps(m: Mirror, a: int, b: int)
    requires Addressable(m, a) && Addressable(m, b) && Address(m, a) != Address(m, b)
    ensures var r1 := SwapSlots(m, a, None);
            var r2 := SwapSlots(r1, b, None);
            && GetItem(r1, a) == Normal(m.inventory.stray) && r1.inventory.stray == Normal(GetItem(m, a))
            && GetItem(r2, b) == Normal(Normal(GetItem(m, a)))
            && r2.inventory.stray == Normal(GetItem(m, b))
            && GetItem(r2, a) == Normal(m.inventory.stray)
  {
    var pa := Address(m, a).value;
    var pb := Address(m, b).value;
    var r1 := SwapSlots(m, a, None);
    assert Size(r1) == Size(m) && Address(r1, b) == Some(pb);
    assert GetItem(r1, b) == GetItem(m, b) by {
      assert Read(r1, pb) == Read(m, pb);
    }
    var r2 := SwapSlots(r1, b, None);
    assert Size(r2) == Size(m) && Address(r2, a) == Some(pa);
    assert Read(r2, pa) == Read(r1, pa);
  }

  /** Pressing an `undefined` number key twice over the same slot outside
      a container reads back every place and the `stray` property as they
      were, once both hold what `_setSlot` stores. */
  lemma NumberKeyTwiceRestores(m: Mirror, k: Click, ss: StackSizes, v: Variant)
    requires k.button.None? && !InContainer(m, k.slot) && Addressable(m, k.slot)
    requires Settled(GetItem(m, k.slot)) && Settled(m.inventory.stray)
    ensures var r := NumberKey(NumberKey(m, k, ss, v).m, k, ss, v).m;
            && (forall q :: Read(r, q) == Read(m, q))
            && r.inventory.stray == m.inventory.stray && r.inventory.cursor == m.inventory.cursor
            && r.(inventory := m.inventory, box := m.box) == m
  {
    var p := Address(m, k.slot).value;
    var r1 := NumberKey(m, k, ss, v).m;
    assert Size(r1) == Size(m) && !InContainer(r1, k.slot);
    var r2 := NumberKey(r1, k, ss, v).m;
    assert Size(r2) == Size(m);
    assert Read(r2, p) == Read(m, p);
  }

  /** Mode 6. */
  function DoubleClick(m: Mirror, k: Click, ss: StackSizes): (r: Outcome)
    ensures Steady(r.m, m)
    ensures Gather(m, m.inventory.cursor, k.slot, ss).None? ==> r == Threw(m)
    ensures Gather(m, m.inventory.cursor, k.slot, ss).Some? ==> r == Done(Gather(m, m.inventory.cursor, k.slot, ss).value)
  {
    match Gather(m, m.inventory.cursor, k.slot, ss)
    case None => Threw(m)
    case Some(r) => Done(r)
  }

  /** Mode 5: a click outside the window starts a drag with the mouse
      button as its state; a click on a slot joins the drag when the button
      is the state plus one and the slot is new; a click outside with the
      state plus two ends a left (state 0) or right (state 4) drag. Anything
      else runs the double-click code. */
  function DragClick(m: Mirror, k: Click, ss: StackSizes): (r: Outcome)
    ensures r.m.windowId == m.windowId && r.m.sizes == m.sizes && r.m.pending == m.pending
    ensures DragMove(m, k, r.m)
    ensures m.dragState == -1 ==>
              r == Done(if k.slot == Outside then m.(dragState := k.mouseButton) else m)
    ensures m.dragState != -1 && k.slot != Outside ==>
              r == Done(if k.mouseButton - 1 == m.dragState && k.slot !in m.dragSlots
                        then m.(dragSlots := m.dragSlots + [k.slot]) else m)
    ensures m.dragState == 0 && k.slot == Outside && k.mouseButton == 2 ==> r == LeftDrag(m, ss)
    ensures m.dragState == 4 && k.slot == Outside && k.mouseButton == 6 ==> r == RightDrag(m, ss)
  {
    if m.dragState == -1 then
      Done(if k.slot == Outside then m.(dragState := k.mouseButton) else m)
    else if k.slot != Outside then
      Done(if k.mouseButton - 1 == m.dragState && k.slot !in m.dragSlots
           then m.(dragSlots := m.dragSlots + [k.slot]) else m)
    else if k.mouseButton - 2 == m.dragState && m.dragState == 0 then LeftDrag(m, ss)
    else if k.mouseButton - 2 == m.dragState && m.dragState == 4 then RightDrag(m, ss)
    else DoubleClick(m, k, ss)
  }

  /** Mode 4. Outside the window a non-empty cursor drops one item (button
      0) or all of it (button 1). Otherwise `data.button` 0 drops one item
      of the slot and 1 the whole slot; any other value runs the drag
      code. */
  function Drop(m: Mirror, k: Click, ss: StackSizes, v: Variant): (r: Effect)
    ensures r.o.m.windowId == m.windowId && r.o.m.sizes == m.sizes && r.o.m.pending == m.pending
    ensures DragMove(m, k, r.o.m)
    ensures k.slot == Outside && m.inventory.cursor == Missing ==> r.o == Threw(m)
    ensures k.slot == Outside && m.inventory.cursor.Empty? ==> r.o == Done(m)
    ensures k.slot != Outside && k.button.None? ==> r == Effect(DragClick(m, k, ss), FullUndo(m, v))
    ensures || (k.slot == Outside && (!m.inventory.cursor.Stack? || k.mouseButton == 0 || k.mouseButton == 1))
            || k.button == Some(0) || k.button == Some(1) ==>
              r.undo.Restore? && r.undo.slot == k.slot && r.undo.cursor == m.inventory.cursor
  {
    var c := m.inventory.cursor;
    var u := SlotUndo(m, k);
    if k.slot == Outside && c == Missing then Effect(Threw(m), u)
    else if k.slot == Outside && IsEmpty(c) then Effect(Done(m), u)
    else if k.slot == Outside && k.mouseButton == 0 then Effect(Done(IncrementCursor(m, -1)), u)
    else if k.slot == Outside && k.mouseButton == 1 then Effect(Done(SetCursor(m, Empty)), u)
    else if k.button == Some(0) then
      var x := GetItem(m, k.slot);
      if x == Missing then Effect(Threw(m), u)
      else if IsEmpty(x) then Effect(Done(m), u)
      else Effect(Done(IncrementSlot(m, k.slot, -1)), Held(m, k, v, Resize(x, x.count - 1)))
    else if k.button == Some(1) then Effect(Done(SetSlot(m, k.slot, Empty)), u)
    else Effect(DragClick(m, k, ss), FullUndo(m, v))
  }

  /** The mirroring of a handled click, before its record is written. */
  function Handle(m: Mirror, k: Click, ss: StackSizes, v: Variant): (r: Effect)
    ensures r.o.m.windowId == m.windowId && r.o.m.sizes == m.sizes && r.o.m.pending == m.pending
    ensures DragMove(m, k, r.o.m)
    ensures k.mode != 4 && k.mode != 5 ==> r.o.m.dragState == m.dragState && r.o.m.dragSlots == m.dragSlots
  {
    if k.mode == 0 && k.mouseButton == 0 then LeftClick(m, k, ss, v)
    else if k.mode == 0 && k.mouseButton == 1 then RightClick(m, k, ss, v)
    else if k.mode == 0 || k.mode == 1 then Effect(ShiftClick(m, k, ss, v), FullUndo(m, v))
    else if k.mode == 2 then Effect(NumberKey(m, k, ss, v), FullUndo(m, v))
    else if k.mode == 4 then Drop(m, k, ss, v)
    else if k.mode == 5 then Effect(DragClick(m, k, ss), FullUndo(m, v))
    else Effect(DoubleClick(m, k, ss), FullUndo(m, v))
  }

  /** The outcome with the pending table replaced. */
  function Logged(o: Outcome, p: Pending): (r: Outcome)
    ensures r.m == o.m.(pending := p)
    ensures r.Done? == o.Done? && r.Threw? == o.Threw? && r.NotANumber? == o.NotANumber?
  {
    match o
    case Done(x) => Done(x.(pending := p))
    case Threw(x) => Threw(x.(pending := p))
    case NotANumber(x) => NotANumber(x.(pending := p))
  }

  /** `handleWindowClick`, stamped with the time `now`. */
  function WindowClick(m: Mirror, k: Click, ss: StackSizes, now: int, v: Variant): (r: Outcome)
    ensures !Handled(m, k) ==> r == Done(m)
    ensures r.m.windowId == m.windowId && r.m.sizes == m.sizes
    ensures DragMove(m, k, r.m)
    ensures m.dragState == -1 && r.m.dragState != -1 ==>
              k.slot == Outside && (k.mode == 4 || k.mode == 5) && r.m.dragState == k.mouseButton
  {
    if !Handled(m, k) then Done(m)
    else
      var e := Handle(m, k, ss, v);
      Logged(e.o, AddAction(m.pending, Action(k.windowId, k.action, now, e.undo)))
  }
}
