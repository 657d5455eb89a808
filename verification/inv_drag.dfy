/** Painting a stack over several slots (a mouse drag). The client reports
    the drag as a start click outside the window, one click per slot the
    mouse passes, and an end click outside the window; the handler collects
    the slots and, on the end click, spreads the cursor's stack over them:
    evenly with the left button, one item each with the right. */
module Drag {
  import opened Common
  import opened Inventory
  import opened Spread

  /** A drag's progress: the state and the count left on the cursor. */
  datatype Progress = Progress(m: Mirror, count: int)

  /** Everything but the slots is as it was: the window, the sizes, the
      pending actions, the drag, the cursor and the held slot. */
  predicate Untouched(a: Mirror, b: Mirror) {
    && a.windowId == b.windowId && a.sizes == b.sizes && a.pending == b.pending
    && a.dragState == b.dragState && a.dragSlots == b.dragSlots
    && a.inventory.cursor == b.inventory.cursor && a.inventory.held == b.inventory.held
  }

  /** One turn of `_applyLeftDrag`'s loop on slot `s`: an empty slot
      receives a new stack of the cursor's item, any other slot is
      incremented (whatever it holds), by the least of the count left, the
      per-slot share and the room under the stack size. `None` is the
      `TypeError` a `null` slot throws. */
  function LeftSlot(m: Mirror, c: Item, s: int, count: int, per: int, cap: int): (r: Option<Progress>)
    requires c.Stack?
    ensures GetItem(m, s) != Missing ==> r.Some?
    ensures r.Some? ==> Untouched(r.value.m, m)
  {
    var x := GetItem(m, s);
    if x == Missing then None
    else if IsEmpty(x) then
      var add := Min(Min(count, per), cap);
      Some(Progress(SetSlot(m, s, Resize(c, add)), count - add))
    else
      var add := Min(Min(count, per), cap - x.count);
      Some(Progress(IncrementSlot(m, s, add), count - add))
  }

  /** The loop of `_applyLeftDrag` over `ds`, stopping once the count is
      spent. */
  function LeftPass(m: Mirror, c: Item, ds: seq<int>, count: int, per: int, cap: int): (r: Option<Progress>)
    requires c.Stack?
    ensures r.Some? ==> Untouched(r.value.m, m)
    decreases |ds|
  {
    if ds == [] || count <= 0 then Some(Progress(m, count))
    else match LeftSlot(m, c, ds[0], count, per, cap)
      case None => None
      case Some(p) => LeftPass(p.m, c, ds[1..], p.count, per, cap)
  }

  /** One turn of `_applyRightDrag`'s loop on slot `s`: one item into a
      slot that is empty or below the stack size. */
  function RightSlot(m: Mirror, c: Item, s: int, count: int, cap: int): (r: Option<Progress>)
    requires c.Stack?
    ensures GetItem(m, s) != Missing ==> r.Some?
    ensures r.Some? ==> Untouched(r.value.m, m)
  {
    var x := GetItem(m, s);
    if x == Missing then None
    else if IsEmpty(x) then Some(Progress(SetSlot(m, s, Resize(c, 1)), count - 1))
    else if x.count < cap then Some(Progress(IncrementSlot(m, s, 1), count - 1))
    else Some(Progress(m, count))
  }

  /** The loop of `_applyRightDrag` over `ds`, stopping once the count is
      spent. */
  function RightPass(m: Mirror, c: Item, ds: seq<int>, count: int, cap: int): (r: Option<Progress>)
    requires c.Stack?
    ensures r.Some? ==> Untouched(r.value.m, m)
    decreases |ds|
  {
    if ds == [] || count <= 0 then Some(Progress(m, count))
    else match RightSlot(m, c, ds[0], count, cap)
      case None => None
      case Some(p) => RightPass(p.m, c, ds[1..], p.count, cap)
  }

  /** The end of both drags: what is left goes back on the cursor and the
      drag is forgotten. */
  function Finish(p: Progress, c: Item): (r: Mirror)
    requires c.Stack?
    ensures r.inventory.cursor == (if p.count <= 0 then Empty else Stack(c.id, c.meta, p.count))
    ensures r.dragSlots == [] && r.dragState == -1
    ensures forall q :: Read(r, q) == Read(p.m, q)
    ensures r.windowId == p.m.windowId && r.sizes == p.m.sizes && r.pending == p.m.pending
  {
    SetCursor(p.m, if p.count <= 0 then Empty else Resize(c, p.count)).(dragSlots := [], dragState := -1)
  }

  /** Finishing a drag reads every slot as the drag left it, and the
      cursor holds what is left of the count. */
  lemma FinishKeepsSlots(p: Progress, c: Item)
    requires c.Stack?
    ensures forall s :: GetItem(Finish(p, c), s) == GetItem(p.m, s)
    ensures Finish(p, c).inventory.cursor == Normal(Stack(c.id, c.meta, p.count))
  {
    var r := Finish(p, c);
    forall s ensures GetItem(r, s) == GetItem(p.m, s) {
      assert Address(r, s) == Address(p.m, s);
    }
  }

  /** `_applyLeftDrag(cursorItem, dragSlots)` with the cursor as it stands.
      The share per slot is `Math.floor(count / dragSlots.length)`; Dafny's
      division is the floor for a positive divisor, and with no slots the
      share is never used. A `null` cursor throws; an empty one has no count,
      so every count becomes `NaN`. */
  function LeftDrag(m: Mirror, ss: StackSizes): (r: Outcome)
    ensures m.inventory.cursor == Missing ==> r == Threw(m)
    ensures m.inventory.cursor.Empty? ==> r == NotANumber(m)
    ensures r.Done? ==> r.m.dragSlots == [] && r.m.dragState == -1 && r.m.windowId == m.windowId
                        && r.m.sizes == m.sizes && r.m.pending == m.pending
    ensures !r.Done? ==> r.m == m
  {
    var c := m.inventory.cursor;
    var ds := m.dragSlots;
    if c == Missing then Threw(m)
    else if c.Empty? then NotANumber(m)
    else
      var per := if |ds| == 0 then 0 else c.count / |ds|;
      match LeftPass(m, c, ds, c.count, per, ss(c.id))
      case None => Threw(m)
      case Some(p) => Done(Finish(p, c))
  }

  /** `_applyRightDrag(cursorItem, dragSlots)` with the cursor as it
      stands. */
  function RightDrag(m: Mirror, ss: StackSizes): (r: Outcome)
    ensures m.inventory.cursor == Missing ==> r == Threw(m)
    ensures m.inventory.cursor.Empty? ==> r == NotANumber(m)
    ensures r.Done? ==> r.m.dragSlots == [] && r.m.dragState == -1 && r.m.windowId == m.windowId
                        && r.m.sizes == m.sizes && r.m.pending == m.pending
    ensures !r.Done? ==> r.m == m
  {
    var c := m.inventory.cursor;
    if c == Missing then Threw(m)
    else if c.Empty? then NotANumber(m)
    else
      match RightPass(m, c, m.dragSlots, c.count, ss(c.id))
      case None => Threw(m)
      case Some(p) => Done(Finish(p, c))
  }

  /** The per-slot share of a left drag: no negative share of a
      non-negative count, and the shares together fit in the count. */
  lemma Share(count: int, len: int)
    requires count >= 0 && len > 0
    ensures 0 <= count / len && (count / len) * len <= count
    ensures count - (count / len) * len == count % len
  {
  }

  /** What a drag slot may hold for the stack to spread over it cleanly:
      nothing, or a positive stack of the same item. */
  predicate Fits(x: Item, c: Item) {
    x.Empty? || (SameItem(x, c) && x.count > 0)
  }

  /** Every drag slot is inside the window, among the first `k` inventory
      and `n` container places, and fits the cursor's item. */
  ghost predicate Reach(m: Mirror, c: Item, ds: seq<int>, k: int, n: int) {
    forall s :: s in ds ==> Addressable(m, s) && Among(Address(m, s).value, k, n) && Fits(GetItem(m, s), c)
  }

  /** Writing a fitting item into the first drag slot keeps the rest of the
      drag slots reachable and fitting. */
  lemma ReachAfterWrite(m: Mirror, c: Item, ds: seq<int>, k: int, n: int, y: Item)
    requires ds != [] && Reach(m, c, ds, k, n) && Fits(Normal(y), c)
    ensures Reach(SetSlot(m, ds[0], y), c, ds[1..], k, n)
  {
    var m1 := SetSlot(m, ds[0], y);
    forall s | s in ds[1..]
      ensures Addressable(m1, s) && Among(Address(m1, s).value, k, n) && Fits(GetItem(m1, s), c)
    {
      assert s in ds;
      assert Address(m1, s) == Address(m, s);
      if Address(m, s) == Address(m, ds[0]) {
        AddressInjective(m, s, ds[0]);
      }
    }
  }

  /** A left drag over fitting slots moves items from the count into the
      slots one for one, and never below zero. */
  lemma {:induction false} LeftPassTally(m: Mirror, c: Item, ds: seq<int>, count: int, per: int, cap: int, k: int, n: int)
    requires c.Stack? && count >= 0 && per >= 0 && cap >= 1
    requires Reach(m, c, ds, k, n)
    ensures var r := LeftPass(m, c, ds, count, per, cap);
            && r.Some? && r.value.count >= 0
            && Count(r.value.m, k, n, c.id, c.meta) + r.value.count == Count(m, k, n, c.id, c.meta) + count
    decreases |ds|
  {
    if ds != [] && count > 0 {
      var m1, add := LeftStep(m, c, ds, count, per, cap, k, n);
      LeftPassTally(m1, c, ds[1..], count - add, per, cap, k, n);
    }
  }

  /** One slot of a left drag: the state after it, and how many items it
      took from the count. */
  lemma LeftStep(m: Mirror, c: Item, ds: seq<int>, count: int, per: int, cap: int, k: int, n: int)
    returns (m1: Mirror, add: int)
    requires c.Stack? && count > 0 && per >= 0 && cap >= 1 && ds != []
    requires Reach(m, c, ds, k, n)
    ensures LeftSlot(m, c, ds[0], count, per, cap) == Some(Progress(m1, count - add))
    ensures add <= count
    ensures Count(m1, k, n, c.id, c.meta) == Count(m, k, n, c.id, c.meta) + add
    ensures Reach(m1, c, ds[1..], k, n)
  {
    assert ds[0] in ds;
    var x := GetItem(m, ds[0]);
    var y;
    if x.Empty? {
      add := Min(Min(count, per), cap);
      y := Resize(c, add);
    } else {
      add := Min(Min(count, per), cap - x.count);
      y := Resize(x, x.count + add);
      assert IncrementSlot(m, ds[0], add) == SetSlot(m, ds[0], y);
    }
    m1 := SetSlot(m, ds[0], y);
    WriteTally(m, c, ds, k, n, y, add);
  }

  /** Writing `y` into the first drag slot adds `add` items of the
      cursor's kind to the count and keeps the rest of the drag slots
      fitting. */
  lemma WriteTally(m: Mirror, c: Item, ds: seq<int>, k: int, n: int, y: Item, add: int)
    requires c.Stack? && ds != [] && Reach(m, c, ds, k, n)
    requires Fits(Normal(y), c) && Kind(Normal(y), c.id, c.meta) - Kind(GetItem(m, ds[0]), c.id, c.meta) == add
    ensures Count(SetSlot(m, ds[0], y), k, n, c.id, c.meta) == Count(m, k, n, c.id, c.meta) + add
    ensures Reach(SetSlot(m, ds[0], y), c, ds[1..], k, n)
  {
    assert ds[0] in ds;
    var p := Address(m, ds[0]).value;
    assert SetSlot(m, ds[0], y) == Put(m, p, Normal(y));
    CountPut(m, k, n, p, Normal(y), c.id, c.meta);
    ReachAfterWrite(m, c, ds, k, n, y);
  }

  /** A right drag over fitting slots moves items from the count into the
      slots one for one, at most one per slot, and never below zero. */
  lemma {:induction false} RightPassTally(m: Mirror, c: Item, ds: seq<int>, count: int, cap: int, k: int, n: int)
    requires c.Stack? && count >= 0
    requires Reach(m, c, ds, k, n)
    ensures var r := RightPass(m, c, ds, count, cap);
            && r.Some? && r.value.count >= 0 && r.value.count >= count - |ds|
            && Count(r.value.m, k, n, c.id, c.meta) + r.value.count == Count(m, k, n, c.id, c.meta) + count
    decreases |ds|
  {
    if ds != [] && count > 0 {
      var m1, add := RightStep(m, c, ds, count, cap, k, n);
      RightPassTally(m1, c, ds[1..], count - add, cap, k, n);
    }
  }

  /** One slot of a right drag: the state after it, and whether it took an
      item. */
  lemma RightStep(m: Mirror, c: Item, ds: seq<int>, count: int, cap: int, k: int, n: int)
    returns (m1: Mirror, add: int)
    requires c.Stack? && count > 0 && ds != []
    requires Reach(m, c, ds, k, n)
    ensures RightSlot(m, c, ds[0], count, cap) == Some(Progress(m1, count - add))
    ensures 0 <= add <= 1
    ensures Count(m1, k, n, c.id, c.meta) == Count(m, k, n, c.id, c.meta) + add
    ensures Reach(m1, c, ds[1..], k, n)
  {
    assert ds[0] in ds;
    var x := GetItem(m, ds[0]);
    if !x.Empty? && x.count >= cap {
      m1, add := m, 0;
      assert forall s :: s in ds[1..] ==> s in ds;
    } else {
      var y := if x.Empty? then Resize(c, 1) else Resize(x, x.count + 1);
      if !x.Empty? {
        assert IncrementSlot(m, ds[0], 1) == SetSlot(m, ds[0], y);
      }
      m1, add := SetSlot(m, ds[0], y), 1;
      WriteTally(m, c, ds, k, n, y, add);
    }
  }

  /** A left drag over slots that are empty or hold the cursor's item loses
      and creates nothing: the items of that kind in the counted places plus
      those left on the cursor are as many as before. */
  lemma LeftDragConserves(m: Mirror, ss: StackSizes, k: int)
    requires m.inventory.cursor.Stack? && m.inventory.cursor.count > 0
    requires Reach(m, m.inventory.cursor, m.dragSlots, k, BoxCount(m))
    ensures var c := m.inventory.cursor;
            var r := LeftDrag(m, ss);
            && r.Done?
            && Count(r.m, k, BoxCount(m), c.id, c.meta) + CountOf(r.m.inventory.cursor)
               == Count(m, k, BoxCount(m), c.id, c.meta) + c.count
  {
    var c := m.inventory.cursor;
    var ds := m.dragSlots;
    var per := if |ds| == 0 then 0 else c.count / |ds|;
    if |ds| > 0 { Share(c.count, |ds|); }
    LeftPassTally(m, c, ds, c.count, per, ss(c.id), k, BoxCount(m));
    var p := LeftPass(m, c, ds, c.count, per, ss(c.id)).value;
    assert LeftDrag(m, ss) == Done(Finish(p, c));
    assert CountOf(Finish(p, c).inventory.cursor) == p.count;
    CountSameReads(p.m, Finish(p, c), k, BoxCount(m), c.id, c.meta);
  }

  /** A right drag over slots that are empty or hold the cursor's item
      loses and creates nothing, and takes at most one item per slot off
      the cursor. */
  lemma RightDragConserves(m: Mirror, ss: StackSizes, k: int)
    requires m.inventory.cursor.Stack? && m.inventory.cursor.count > 0
    requires Reach(m, m.inventory.cursor, m.dragSlots, k, BoxCount(m))
    ensures var c := m.inventory.cursor;
            var r := RightDrag(m, ss);
            && r.Done?
            && Count(r.m, k, BoxCount(m), c.id, c.meta) + CountOf(r.m.inventory.cursor)
               == Count(m, k, BoxCount(m), c.id, c.meta) + c.count
            && CountOf(r.m.inventory.cursor) >= c.count - |m.dragSlots|
  {
    var c := m.inventory.cursor;
    RightPassTally(m, c, m.dragSlots, c.count, ss(c.id), k, BoxCount(m));
    var p := RightPass(m, c, m.dragSlots, c.count, ss(c.id)).value;
    assert RightDrag(m, ss) == Done(Finish(p, c));
    assert CountOf(Finish(p, c).inventory.cursor) == p.count;
    CountSameReads(p.m, Finish(p, c), k, BoxCount(m), c.id, c.meta);
  }

  /** A left drag leaves every place no drag slot names as it was. */
  lemma {:induction false} LeftPassFrame(m: Mirror, c: Item, ds: seq<int>, count: int, per: int, cap: int, q: Place)
    requires c.Stack?
    requires forall s :: s in ds ==> Address(m, s) != Some(q)
    ensures var r := LeftPass(m, c, ds, count, per, cap);
            r.Some? ==> Read(r.value.m, q) == Read(m, q)
    decreases |ds|
  {
    if ds != [] && count > 0 {
      assert ds[0] in ds;
      var r1 := LeftSlot(m, c, ds[0], count, per, cap);
      if r1.Some? {
        var m1 := r1.value.m;
        assert Read(m1, q) == Read(m, q);
        assert forall s :: s in ds[1..] ==> s in ds && Address(m1, s) == Address(m, s);
        LeftPassFrame(m1, c, ds[1..], r1.value.count, per, cap, q);
      }
    }
  }

  /** A right drag leaves every place no drag slot names as it was. */
  lemma {:induction false} RightPassFrame(m: Mirror, c: Item, ds: seq<int>, count: int, cap: int, q: Place)
    requires c.Stack?
    requires forall s :: s in ds ==> Address(m, s) != Some(q)
    ensures var r := RightPass(m, c, ds, count, cap);
            r.Some? ==> Read(r.value.m, q) == Read(m, q)
    decreases |ds|
  {
    if ds != [] && count > 0 {
      assert ds[0] in ds;
      var r1 := RightSlot(m, c, ds[0], count, cap);
      if r1.Some? {
        var m1 := r1.value.m;
        assert Read(m1, q) == Read(m, q);
        assert forall s :: s in ds[1..] ==> s in ds && Address(m1, s) == Address(m, s);
        RightPassFrame(m1, c, ds[1..], r1.value.count, cap, q);
      }
    }
  }

  /** A left drag leaves a slot apart from all drag slots reading as it
      did. */
  lemma LeftPassKeeps(m: Mirror, c: Item, ds: seq<int>, count: int, per: int, cap: int, s0: int)
    requires c.Stack? && Addressable(m, s0)
    requires forall s :: s in ds ==> Address(m, s) != Address(m, s0)
    ensures var r := LeftPass(m, c, ds, count, per, cap);
            r.Some? ==> GetItem(r.value.m, s0) == GetItem(m, s0)
  {
    LeftPassFrame(m, c, ds, count, per, cap, Address(m, s0).value);
    var r := LeftPass(m, c, ds, count, per, cap);
    if r.Some? {
      assert Address(r.value.m, s0) == Address(m, s0);
    }
  }

  /** A right drag leaves a slot apart from all drag slots reading as it
      did. */
  lemma RightPassKeeps(m: Mirror, c: Item, ds: seq<int>, count: int, cap: int, s0: int)
    requires c.Stack? && Addressable(m, s0)
    requires forall s :: s in ds ==> Address(m, s) != Address(m, s0)
    ensures var r := RightPass(m, c, ds, count, cap);
            r.Some? ==> GetItem(r.value.m, s0) == GetItem(m, s0)
  {
    RightPassFrame(m, c, ds, count, cap, Address(m, s0).value);
    var r := RightPass(m, c, ds, count, cap);
    if r.Some? {
      assert Address(r.value.m, s0) == Address(m, s0);
    }
  }

  /** What holds for the first slot and for the rest holds for all. */
  lemma AllSlots(r: Option<Progress>, ds: seq<int>, y: Item)
    requires ds != []
    requires r.Some? ==> GetItem(r.value.m, ds[0]) == y
    requires r.Some? ==> forall s :: s in ds[1..] ==> GetItem(r.value.m, s) == y
    ensures r.Some? ==> forall s :: s in ds ==> GetItem(r.value.m, s) == y
  {
    if r.Some? {
      forall s | s in ds ensures GetItem(r.value.m, s) == y {
        if s != ds[0] { assert s in ds[1..]; }
      }
    }
  }

  /** Distinct slots inside the window that are all empty. */
  ghost predicate Blanks(m: Mirror, ds: seq<int>) {
    && (forall i :: 0 <= i < |ds| ==> Addressable(m, ds[i]) && GetItem(m, ds[i]).Empty?)
    && (forall i, j :: 0 <= i < j < |ds| ==> ds[i] != ds[j])
  }

  /** Filling the first of some blank slots leaves the others blank and
      out of its way. */
  lemma BlanksAfterWrite(m: Mirror, ds: seq<int>, y: Item)
    requires ds != [] && Blanks(m, ds)
    ensures var m1 := SetSlot(m, ds[0], y);
            && Blanks(m1, ds[1..])
            && forall s :: s in ds[1..] ==> Address(m1, s) != Address(m1, ds[0])
  {
    var m1 := SetSlot(m, ds[0], y);
    var t := ds[1..];
    forall i | 0 <= i < |t| ensures Addressable(m1, t[i]) && GetItem(m1, t[i]).Empty? {
      assert t[i] == ds[i + 1] && ds[i + 1] != ds[0];
      SetThenGet(m, ds[0], y, t[i]);
    }
    forall s | s in t ensures Address(m1, s) != Address(m1, ds[0]) {
      var i :| 0 <= i < |t| && t[i] == s;
      assert s == ds[i + 1] && ds[i + 1] != ds[0];
      if Address(m, s) == Address(m, ds[0]) { AddressInjective(m, s, ds[0]); }
    }
  }

  /** `n` shares of `per` items, added up one by one. */
  function Total(per: int, n: nat): (t: int)
    ensures per >= 0 ==> t >= 0
  {
    if n == 0 then 0 else per + Total(per, n - 1)
  }

  /** Shares added one by one are the product. */
  lemma {:induction false} TotalIsProduct(per: int, n: nat)
    ensures Total(per, n) == per * n
  {
    if n > 0 {
      TotalIsProduct(per, n - 1);
      assert per * n == per + per * (n - 1);
    }
  }

  /** The first slot of an even left drag: it takes exactly the share,
      and the remaining slots stay blank and apart from it. */
  lemma LeftEvenStep(m: Mirror, c: Item, ds: seq<int>, count: int, per: int, cap: int) returns (m1: Mirror)
    requires c.Stack? && 0 <= per <= cap && per <= count && count > 0
    requires ds != [] && Blanks(m, ds)
    ensures LeftPass(m, c, ds, count, per, cap) == LeftPass(m1, c, ds[1..], count - per, per, cap)
    ensures Addressable(m1, ds[0]) && GetItem(m1, ds[0]) == Normal(Stack(c.id, c.meta, per))
    ensures Blanks(m1, ds[1..]) && forall s :: s in ds[1..] ==> Address(m1, s) != Address(m1, ds[0])
  {
    var y := Resize(c, per);
    m1 := SetSlot(m, ds[0], y);
    assert LeftSlot(m, c, ds[0], count, per, cap) == Some(Progress(m1, count - per));
    SetThenGet(m, ds[0], y, ds[0]);
    BlanksAfterWrite(m, ds, y);
  }

  /** A left drag over blank slots with a share that fits the stack size
      takes exactly one share per slot off the count. */
  lemma {:induction false} LeftPassEvenCount(m: Mirror, c: Item, ds: seq<int>, count: int, per: int, cap: int)
    requires c.Stack? && 0 <= per <= cap && count >= Total(per, |ds|)
    requires Blanks(m, ds)
    ensures var r := LeftPass(m, c, ds, count, per, cap);
            r.Some? && r.value.count == count - Total(per, |ds|)
    decreases |ds|
  {
    if ds != [] {
      assert Total(per, |ds|) == per + Total(per, |ds[1..]|);
      if count > 0 {
        var m1 := LeftEvenStep(m, c, ds, count, per, cap);
        LeftPassEvenCount(m1, c, ds[1..], count - per, per, cap);
      }
    }
  }

  /** A left drag over blank slots with a share that fits the stack size
      puts exactly the share into every slot. */
  lemma {:induction false} LeftPassEven(m: Mirror, c: Item, ds: seq<int>, count: int, per: int, cap: int)
    requires c.Stack? && 0 <= per <= cap && count >= Total(per, |ds|)
    requires Blanks(m, ds)
    ensures var r := LeftPass(m, c, ds, count, per, cap);
            r.Some? ==> forall s :: s in ds ==> GetItem(r.value.m, s) == Normal(Stack(c.id, c.meta, per))
    decreases |ds|, 1
  {
    if ds != [] {
      assert Total(per, |ds|) == per + Total(per, |ds[1..]|);
      if count > 0 {
        var m1 := LeftEvenStep(m, c, ds, count, per, cap);
        LeftEvenRest(m1, c, ds, count - per, per, cap);
      } else {
        LeftPassIdle(m, c, ds, count, per, cap);
      }
    }
  }

  /** A left drag with nothing to share writes nothing, and blank slots
      read as the empty share. */
  lemma LeftPassIdle(m: Mirror, c: Item, ds: seq<int>, count: int, per: int, cap: int)
    requires c.Stack? && ds != [] && count <= 0 && per == 0 && Blanks(m, ds)
    ensures var r := LeftPass(m, c, ds, count, per, cap);
            r == Some(Progress(m, count)) && forall s :: s in ds ==> GetItem(r.value.m, s) == Normal(Stack(c.id, c.meta, per))
  {
    forall s | s in ds ensures GetItem(m, s) == Empty {
      var i :| 0 <= i < |ds| && ds[i] == s;
    }
  }

  /** The rest of an even left drag, after the first slot took its
      share. */
  lemma {:induction false} LeftEvenRest(m1: Mirror, c: Item, ds: seq<int>, count: int, per: int, cap: int)
    requires c.Stack? && 0 <= per <= cap && ds != [] && count >= Total(per, |ds[1..]|)
    requires Addressable(m1, ds[0]) && GetItem(m1, ds[0]) == Normal(Stack(c.id, c.meta, per))
    requires Blanks(m1, ds[1..]) && forall s :: s in ds[1..] ==> Address(m1, s) != Address(m1, ds[0])
    ensures var r := LeftPass(m1, c, ds[1..], count, per, cap);
            r.Some? ==> forall s :: s in ds ==> GetItem(r.value.m, s) == Normal(Stack(c.id, c.meta, per))
    decreases |ds|, 0
  {
    LeftPassEven(m1, c, ds[1..], count, per, cap);
    LeftPassKeeps(m1, c, ds[1..], count, per, cap, ds[0]);
    AllSlots(LeftPass(m1, c, ds[1..], count, per, cap), ds, Normal(Stack(c.id, c.meta, per)));
  }

  /** A left drag of a stack over blank slots (the usual case) splits it
      evenly: every slot receives `count / n` items of the cursor's item
      and the remainder `count % n` stays on the cursor, when the share
      fits the stack size. */
  lemma LeftDragEven(m: Mirror, ss: StackSizes)
    requires m.inventory.cursor.Stack? && m.inventory.cursor.count > 0
    requires |m.dragSlots| > 0 && Blanks(m, m.dragSlots)
    requires m.inventory.cursor.count / |m.dragSlots| <= ss(m.inventory.cursor.id)
    ensures var c := m.inventory.cursor;
            var ds := m.dragSlots;
            var r := LeftDrag(m, ss);
            && r.Done?
            && (forall s :: s in ds ==> GetItem(r.m, s) == Normal(Stack(c.id, c.meta, c.count / |ds|)))
            && r.m.inventory.cursor == Normal(Stack(c.id, c.meta, c.count % |ds|))
  {
    var c := m.inventory.cursor;
    var ds := m.dragSlots;
    var per := c.count / |ds|;
    Share(c.count, |ds|);
    TotalIsProduct(per, |ds|);
    LeftPassEven(m, c, ds, c.count, per, ss(c.id));
    LeftPassEvenCount(m, c, ds, c.count, per, ss(c.id));
    var p := LeftPass(m, c, ds, c.count, per, ss(c.id)).value;
    assert LeftDrag(m, ss) == Done(Finish(p, c));
    FinishKeepsSlots(p, c);
  }

  /** A right drag over blank slots with at least one item per slot puts
      one item into every slot and takes one per slot off the cursor. */
  lemma {:induction false} RightPassOneEach(m: Mirror, c: Item, ds: seq<int>, count: int, cap: int)
    requires c.Stack? && count >= |ds|
    requires Blanks(m, ds)
    ensures var r := RightPass(m, c, ds, count, cap);
            && r.Some? && r.value.count == count - |ds|
            && forall s :: s in ds ==> GetItem(r.value.m, s) == Stack(c.id, c.meta, 1)
    decreases |ds|
  {
    if ds != [] {
      var y := Resize(c, 1);
      var m1 := SetSlot(m, ds[0], y);
      assert RightSlot(m, c, ds[0], count, cap) == Some(Progress(m1, count - 1));
      assert RightPass(m, c, ds, count, cap) == RightPass(m1, c, ds[1..], count - 1, cap);
      SetThenGet(m, ds[0], y, ds[0]);
      BlanksAfterWrite(m, ds, y);
      RightPassOneEach(m1, c, ds[1..], count - 1, cap);
      RightPassKeeps(m1, c, ds[1..], count - 1, cap, ds[0]);
      AllSlots(RightPass(m1, c, ds[1..], count - 1, cap), ds, Stack(c.id, c.meta, 1));
    }
  }

  /** A right drag of a stack over at most as many blank slots as it has
      items leaves one item in each slot and the rest on the cursor. */
  lemma RightDragOneEach(m: Mirror, ss: StackSizes)
    requires m.inventory.cursor.Stack? && m.inventory.cursor.count >= |m.dragSlots|
    requires Blanks(m, m.dragSlots)
    ensures var c := m.inventory.cursor;
            var ds := m.dragSlots;
            var r := RightDrag(m, ss);
            && r.Done?
            && (forall s :: s in ds ==> GetItem(r.m, s) == Stack(c.id, c.meta, 1))
            && r.m.inventory.cursor == Normal(Stack(c.id, c.meta, c.count - |ds|))
  {
    var c := m.inventory.cursor;
    var ds := m.dragSlots;
    RightPassOneEach(m, c, ds, c.count, ss(c.id));
    var p := RightPass(m, c, ds, c.count, ss(c.id)).value;
    assert RightDrag(m, ss) == Done(Finish(p, c));
    FinishKeepsSlots(p, c);
  }
}
