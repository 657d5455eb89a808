/** The multi-slot moves of the inventory mirror: spreading a stack over a
    list of locations (shift-click), the "is there room" test, and
    gathering one item kind onto the cursor (double click).

    The location switch in `_distributeItems` and `_isFull` has no `break`:
    `'hotbar'` also scans the main inventory and the container, and
    `'inventory'` also scans the container. `AsWritten` keeps that cascade
    and the `undefined` result when items are left over; `Intended` scans
    only the named location and hands back the remainder. */
module Spread {
  import opened Common
  import opened Inventory

  datatype Variant = AsWritten | Intended

  /** Inventory indices `lo` .. `hi - 1`, in loop order. */
  function Slots(lo: int, hi: int): (ps: seq<Place>)
    ensures |ps| == if hi > lo then hi - lo else 0
    ensures forall k :: 0 <= k < |ps| ==> ps[k] == Inv(lo + k)
  {
    seq(if hi > lo then hi - lo else 0, k => Inv(lo + k))
  }

  /** Container indices `0` .. `n - 1`. */
  function Boxes(n: int): (ps: seq<Place>)
    ensures |ps| == if n > 0 then n else 0
    ensures forall k :: 0 <= k < |ps| ==> ps[k] == Box(k)
  {
    seq(if n > 0 then n else 0, k => Box(k))
  }

  /** A place a click can reach: one of the inventory's 45 slots or one of
      the container's `n`. */
  predicate Within(p: Place, n: int) {
    (p.Inv? && 0 <= p.i < 45) || (p.Box? && 0 <= p.i < n)
  }

  /** The length the container loops run to: `undefined` runs none. */
  function BoxCount(m: Mirror): int {
    if Size(m).Some? then Size(m).value else 0
  }

  /** The places one `case` of the location switch visits. */
  function Cascade(loc: string, n: int, v: Variant): (ps: seq<Place>)
    ensures forall p :: p in ps ==> Within(p, n)
    ensures v == Intended ==> ps == (if loc == "hotbar" then Slots(36, 45)
                                     else if loc == "inventory" then Slots(9, 36)
                                     else if loc == "container" then Boxes(n) else [])
    ensures loc != "hotbar" && loc != "inventory" && loc != "container" ==> ps == []
  {
    var hotbar := Slots(36, 45);
    var main := Slots(9, 36);
    var box := Boxes(n);
    if loc == "hotbar" then (if v == AsWritten then hotbar + main + box else hotbar)
    else if loc == "inventory" then (if v == AsWritten then main + box else main)
    else if loc == "container" then box
    else []
  }

  /** Some location of `locs` visits `q`. */
  predicate Scanned(q: Place, locs: seq<string>, n: int, v: Variant) {
    exists l :: l in locs && q in Cascade(l, n, v)
  }

  /** How many items of kind (`id`, `meta`) a slot holds. */
  function Kind(x: Item, id: int, meta: int): (k: int)
    ensures x.Stack? && x.id == id && x.meta == meta ==> k == x.count
    ensures !(x.Stack? && x.id == id && x.meta == meta) ==> k == 0
  {
    if x.Stack? && x.id == id && x.meta == meta then x.count else 0
  }

  /** Items of one kind in inventory slots `0` .. `k - 1`. */
  function TallyInv(m: Mirror, k: int, id: int, meta: int): int
    decreases k
  {
    if k <= 0 then 0 else TallyInv(m, k - 1, id, meta) + Kind(Read(m, Inv(k - 1)), id, meta)
  }

  /** Items of one kind in container slots `0` .. `k - 1`. */
  function TallyBox(m: Mirror, k: int, id: int, meta: int): int
    decreases k
  {
    if k <= 0 then 0 else TallyBox(m, k - 1, id, meta) + Kind(Read(m, Box(k - 1)), id, meta)
  }

  /** Items of one kind in the first `k` inventory slots and the first `n`
      container slots. With `k` at least 45 and `n` the container size this
      counts every place a click can reach. */
  function Count(m: Mirror, k: int, n: int, id: int, meta: int): int {
    TallyInv(m, k, id, meta) + TallyBox(m, n, id, meta)
  }

  /** `p` is among the first `k` inventory slots or the first `n`
      container slots. */
  predicate Among(p: Place, k: int, n: int) {
    (p.Inv? && 0 <= p.i < k) || (p.Box? && 0 <= p.i < n)
  }

  lemma {:induction false} TallyInvPut(m: Mirror, k: int, p: Place, x: Item, id: int, meta: int)
    ensures TallyInv(Put(m, p, x), k, id, meta)
            == TallyInv(m, k, id, meta) + (if p.Inv? && 0 <= p.i < k then Kind(x, id, meta) - Kind(Read(m, p), id, meta) else 0)
    decreases k
  {
    if k > 0 {
      TallyInvPut(m, k - 1, p, x, id, meta);
    }
  }

  lemma {:induction false} TallyBoxPut(m: Mirror, k: int, p: Place, x: Item, id: int, meta: int)
    ensures TallyBox(Put(m, p, x), k, id, meta)
            == TallyBox(m, k, id, meta) + (if p.Box? && 0 <= p.i < k then Kind(x, id, meta) - Kind(Read(m, p), id, meta) else 0)
    decreases k
  {
    if k > 0 {
      TallyBoxPut(m, k - 1, p, x, id, meta);
    }
  }

  /** One write changes the count by exactly what the written place gains. */
  lemma CountPut(m: Mirror, k: int, n: int, p: Place, x: Item, id: int, meta: int)
    ensures Count(Put(m, p, x), k, n, id, meta)
            == Count(m, k, n, id, meta) + (if Among(p, k, n) then Kind(x, id, meta) - Kind(Read(m, p), id, meta) else 0)
  {
    TallyInvPut(m, k, p, x, id, meta);
    TallyBoxPut(m, n, p, x, id, meta);
  }

  /** A pass's progress: the state, the count still to place, and whether
      a `return NULL_ITEM` ended it. */
  datatype Run = Run(m: Mirror, rem: int, done: bool)

  /** The first loop of `_distributeItems` over some places: top up every
      partial stack of the same item. */
  function Merge(m: Mirror, item: Item, ps: seq<Place>, rem: int, cap: int): (r: Run)
    requires item.Stack? && rem > 0
    ensures 0 <= r.rem <= rem
    ensures r.done <==> r.rem == 0
    ensures r.m.(inventory := m.inventory, box := m.box) == m
    ensures r.m.inventory.cursor == m.inventory.cursor
    decreases |ps|
  {
    if ps == [] then Run(m, rem, false)
    else
      var x := Read(m, ps[0]);
      if SameItem(x, item) && cap - x.count > 0 then
        var add := Min(rem, cap - x.count);
        var m1 := Put(m, ps[0], Resize(x, x.count + add));
        if rem - add <= 0 then Run(m1, rem - add, true)
        else Merge(m1, item, ps[1..], rem - add, cap)
      else Merge(m, item, ps[1..], rem, cap)
  }

  /** `Merge` writes only the places it scans. */
  lemma {:induction false} MergeFrame(m: Mirror, item: Item, ps: seq<Place>, rem: int, cap: int)
    requires item.Stack? && rem > 0
    ensures forall q :: q !in ps ==> Read(Merge(m, item, ps, rem, cap).m, q) == Read(m, q)
    decreases |ps|
  {
    if ps != [] {
      var x := Read(m, ps[0]);
      assert forall q :: q !in ps ==> q != ps[0] && q !in ps[1..];
      if SameItem(x, item) && cap - x.count > 0 {
        var add := Min(rem, cap - x.count);
        var m1 := Put(m, ps[0], Resize(x, x.count + add));
        if rem - add > 0 {
          MergeFrame(m1, item, ps[1..], rem - add, cap);
        }
      } else {
        MergeFrame(m, item, ps[1..], rem, cap);
      }
    }
  }

  /** Places holding no stack of the item are passed over. */
  lemma {:induction false} MergeSkip(m: Mirror, item: Item, a: seq<Place>, b: seq<Place>, rem: int, cap: int)
    requires item.Stack? && rem > 0
    requires forall j :: 0 <= j < |a| ==> !SameItem(Read(m, a[j]), item)
    ensures Merge(m, item, a + b, rem, cap) == Merge(m, item, b, rem, cap)
    decreases |a|
  {
    if a != [] {
      assert (a + b)[0] == a[0];
      assert (a + b)[1..] == a[1..] + b;
      MergeSkip(m, item, a[1..], b, rem, cap);
    } else {
      assert a + b == b;
    }
  }

  /** The second loop over some places: start new stacks in empty slots.
      Testing `null` for emptiness throws (`None`). */
  function Fill(m: Mirror, item: Item, ps: seq<Place>, rem: int, cap: int): (r: Option<Run>)
    requires item.Stack? && rem > 0 && cap >= 1
    ensures r.Some? ==> 0 <= r.value.rem <= rem && (r.value.done <==> r.value.rem == 0)
    ensures r.Some? ==> forall q :: q !in ps ==> Read(r.value.m, q) == Read(m, q)
    ensures r.Some? ==> r.value.m.(inventory := m.inventory, box := m.box) == m
    ensures r.Some? ==> r.value.m.inventory.cursor == m.inventory.cursor
    ensures (forall q :: q in ps ==> Read(m, q) != Missing) ==> r.Some?
    decreases |ps|
  {
    if ps == [] then Some(Run(m, rem, false))
    else
      var x := Read(m, ps[0]);
      if x == Missing then None
      else if IsEmpty(x) then
        var add := Min(rem, cap);
        var m1 := Put(m, ps[0], Resize(item, add));
        if rem - add <= 0 then Some(Run(m1, rem - add, true))
        else Fill(m1, item, ps[1..], rem - add, cap)
      else Fill(m, item, ps[1..], rem, cap)
  }

  /** `for (const location of locations)` around the first loop. */
  function MergePass(m: Mirror, item: Item, locs: seq<string>, rem: int, cap: int, n: int, v: Variant): (r: Run)
    requires item.Stack?
    ensures rem > 0 ==> 0 <= r.rem <= rem && (r.done <==> r.rem == 0)
    ensures rem <= 0 ==> r.m == m && r.rem == rem && (r.done <==> locs != [])
    ensures forall q :: !Scanned(q, locs, n, v) ==> Read(r.m, q) == Read(m, q)
    ensures r.m.(inventory := m.inventory, box := m.box) == m
    ensures r.m.inventory.cursor == m.inventory.cursor
    decreases |locs|
  {
    if locs == [] then Run(m, rem, false)
    else if rem <= 0 then Run(m, rem, true)
    else
      var r := Merge(m, item, Cascade(locs[0], n, v), rem, cap);
      MergeFrame(m, item, Cascade(locs[0], n, v), rem, cap);
      if r.done then r
      else
        var r' := MergePass(r.m, item, locs[1..], r.rem, cap, n, v);
        assert forall q :: !Scanned(q, locs, n, v) ==> !Scanned(q, locs[1..], n, v) && q !in Cascade(locs[0], n, v);
        r'
  }

  /** `for (const location of locations)` around the second loop. */
  function FillPass(m: Mirror, item: Item, locs: seq<string>, rem: int, cap: int, n: int, v: Variant): (r: Option<Run>)
    requires item.Stack? && cap >= 1
    ensures r.Some? && rem > 0 ==> 0 <= r.value.rem <= rem && (r.value.done <==> r.value.rem == 0)
    ensures rem <= 0 ==> r == Some(Run(m, rem, locs != []))
    ensures r.Some? ==> forall q :: !Scanned(q, locs, n, v) ==> Read(r.value.m, q) == Read(m, q)
    ensures r.Some? ==> r.value.m.(inventory := m.inventory, box := m.box) == m
    ensures r.Some? ==> r.value.m.inventory.cursor == m.inventory.cursor
    decreases |locs|
  {
    if locs == [] then Some(Run(m, rem, false))
    else if rem <= 0 then Some(Run(m, rem, true))
    else match Fill(m, item, Cascade(locs[0], n, v), rem, cap)
      case None => None
      case Some(r) =>
        if r.done then Some(r)
        else
          var r' := FillPass(r.m, item, locs[1..], r.rem, cap, n, v);
          assert forall q :: !Scanned(q, locs, n, v) ==> !Scanned(q, locs[1..], n, v) && q !in Cascade(locs[0], n, v);
          r'
  }

  /** The outcome of a spread: the state, what the function returns, and
      how many items found no place. */
  datatype Spreading = Spreading(m: Mirror, left: Item, unplaced: int)

  /** `_distributeItems(item, locations)`. `None` is a thrown `TypeError`
      (`item` or a scanned slot is `null`). Whatever does not fit is lost
      as written (the function falls off its end and returns `undefined`)
      and handed back as the remainder as intended. */
  function Distribute(m: Mirror, item: Item, locs: seq<string>, ss: StackSizes, v: Variant): (r: Option<Spreading>)
    ensures item == Missing ==> r.None?
    ensures item.Empty? ==> r == Some(Spreading(m, Empty, 0))
    ensures r.Some? ==> forall q :: !Scanned(q, locs, BoxCount(m), v) ==> Read(r.value.m, q) == Read(m, q)
    ensures r.Some? ==> r.value.m.(inventory := m.inventory, box := m.box) == m
    ensures r.Some? ==> r.value.m.inventory.cursor == m.inventory.cursor
    ensures r.Some? && item.Stack? && item.count > 0 ==> 0 <= r.value.unplaced <= item.count
    ensures r.Some? && item.Stack? && item.count > 0 && v == AsWritten ==>
              r.value.left == (if r.value.unplaced == 0 then Empty else Missing)
    ensures r.Some? && item.Stack? && item.count > 0 && v == Intended ==>
              r.value.left == (if r.value.unplaced == 0 then Empty else Resize(item, r.value.unplaced))
  {
    if item == Missing then None
    else if IsEmpty(item) then Some(Spreading(m, Empty, 0))
    else
      var cap := ss(item.id);
      var n := BoxCount(m);
      var r1 := MergePass(m, item, locs, item.count, cap, n, v);
      if r1.done then Some(Spreading(r1.m, Empty, 0))
      else match FillPass(r1.m, item, locs, r1.rem, cap, n, v)
        case None => None
        case Some(r2) =>
          if r2.done then Some(Spreading(r2.m, Empty, 0))
          else Some(Spreading(r2.m, if v == AsWritten then Missing else Resize(item, r2.rem), r2.rem))
  }

  lemma {:induction false} MergeTally(m: Mirror, item: Item, ps: seq<Place>, rem: int, cap: int, k: int, n: int)
    requires item.Stack? && rem > 0
    requires forall q :: q in ps ==> Among(q, k, n)
    ensures var r := Merge(m, item, ps, rem, cap);
            Count(r.m, k, n, item.id, item.meta) == Count(m, k, n, item.id, item.meta) + (rem - r.rem)
    decreases |ps|, 1
  {
    if ps != [] {
      var x := Read(m, ps[0]);
      if SameItem(x, item) && cap - x.count > 0 {
        MergeTakeTally(m, item, ps, rem, cap, k, n);
      } else {
        assert forall q :: q in ps[1..] ==> q in ps;
        assert Merge(m, item, ps, rem, cap) == Merge(m, item, ps[1..], rem, cap);
        MergeTally(m, item, ps[1..], rem, cap, k, n);
      }
    }
  }

  /** The step of `MergeTally` where the first slot takes items. */
  lemma {:induction false} MergeTakeTally(m: Mirror, item: Item, ps: seq<Place>, rem: int, cap: int, k: int, n: int)
    requires item.Stack? && rem > 0 && ps != []
    requires forall q :: q in ps ==> Among(q, k, n)
    requires SameItem(Read(m, ps[0]), item) && cap - Read(m, ps[0]).count > 0
    ensures var r := Merge(m, item, ps, rem, cap);
            Count(r.m, k, n, item.id, item.meta) == Count(m, k, n, item.id, item.meta) + (rem - r.rem)
    decreases |ps|, 0
  {
    var x := Read(m, ps[0]);
    var add := Min(rem, cap - x.count);
    var y := Resize(x, x.count + add);
    var m1 := Put(m, ps[0], y);
    CountPut(m, k, n, ps[0], y, item.id, item.meta);
    assert Kind(y, item.id, item.meta) - Kind(x, item.id, item.meta) == add;
    if rem - add > 0 {
      assert forall q :: q in ps[1..] ==> q in ps;
      assert Merge(m, item, ps, rem, cap) == Merge(m1, item, ps[1..], rem - add, cap);
      MergeTally(m1, item, ps[1..], rem - add, cap, k, n);
    } else {
      assert Merge(m, item, ps, rem, cap) == Run(m1, rem - add, true);
    }
  }

  lemma {:induction false} FillTally(m: Mirror, item: Item, ps: seq<Place>, rem: int, cap: int, k: int, n: int)
    requires item.Stack? && rem > 0 && cap >= 1
    requires forall q :: q in ps ==> Among(q, k, n)
    ensures var r := Fill(m, item, ps, rem, cap);
            r.Some? ==> Count(r.value.m, k, n, item.id, item.meta) == Count(m, k, n, item.id, item.meta) + (rem - r.value.rem)
    decreases |ps|
  {
    if ps != [] {
      var x := Read(m, ps[0]);
      if x != Missing && IsEmpty(x) {
        var add := Min(rem, cap);
        var m1 := Put(m, ps[0], Resize(item, add));
        CountPut(m, k, n, ps[0], Resize(item, add), item.id, item.meta);
        assert Kind(Resize(item, add), item.id, item.meta) - Kind(x, item.id, item.meta) == add;
        assert forall q :: q in ps[1..] ==> q in ps;
        if rem - add > 0 {
          FillTally(m1, item, ps[1..], rem - add, cap, k, n);
        }
      } else if x != Missing {
        assert forall q :: q in ps[1..] ==> q in ps;
        FillTally(m, item, ps[1..], rem, cap, k, n);
      }
    }
  }

  lemma {:induction false} MergePassTally(m: Mirror, item: Item, locs: seq<string>, rem: int, cap: int, k: int, n: int, v: Variant)
    requires item.Stack? && k >= 45
    ensures var r := MergePass(m, item, locs, rem, cap, n, v);
            Count(r.m, k, n, item.id, item.meta) == Count(m, k, n, item.id, item.meta) + (rem - r.rem)
    decreases |locs|
  {
    if locs != [] && rem > 0 {
      var r := Merge(m, item, Cascade(locs[0], n, v), rem, cap);
      MergeTally(m, item, Cascade(locs[0], n, v), rem, cap, k, n);
      if !r.done {
        MergePassTally(r.m, item, locs[1..], r.rem, cap, k, n, v);
      }
    }
  }

  lemma {:induction false} FillPassTally(m: Mirror, item: Item, locs: seq<string>, rem: int, cap: int, k: int, n: int, v: Variant)
    requires item.Stack? && cap >= 1 && k >= 45
    ensures var r := FillPass(m, item, locs, rem, cap, n, v);
            r.Some? ==> Count(r.value.m, k, n, item.id, item.meta) == Count(m, k, n, item.id, item.meta) + (rem - r.value.rem)
    decreases |locs|
  {
    if locs != [] && rem > 0 {
      var r := Fill(m, item, Cascade(locs[0], n, v), rem, cap);
      FillTally(m, item, Cascade(locs[0], n, v), rem, cap, k, n);
      if r.Some? && !r.value.done {
        FillPassTally(r.value.m, item, locs[1..], r.value.rem, cap, k, n, v);
      }
    }
  }

  /** Every item a spread places shows up in the tally of its kind: the
      places gain exactly `count - unplaced`. */
  lemma DistributeTally(m: Mirror, item: Item, locs: seq<string>, ss: StackSizes, v: Variant, k: int)
    requires item.Stack? && item.count > 0 && k >= 45
    requires Distribute(m, item, locs, ss, v).Some?
    ensures var r := Distribute(m, item, locs, ss, v).value;
            Count(r.m, k, BoxCount(m), item.id, item.meta)
            == Count(m, k, BoxCount(m), item.id, item.meta) + item.count - r.unplaced
  {
    var cap := ss(item.id);
    var n := BoxCount(m);
    var r1 := MergePass(m, item, locs, item.count, cap, n, v);
    MergePassTally(m, item, locs, item.count, cap, k, n, v);
    if !r1.done {
      var r2 := FillPass(r1.m, item, locs, r1.rem, cap, n, v).value;
      FillPassTally(r1.m, item, locs, r1.rem, cap, k, n, v);
      assert r2.done ==> r2.rem == 0;
    }
  }

  /** Scan for an empty slot: `Some(true)` at the first, `Some(false)`
      when none, `None` when a `null` slot is tested first. */
  function FirstEmpty(m: Mirror, ps: seq<Place>): (r: Option<bool>)
    ensures r == Some(true) ==> exists k :: 0 <= k < |ps| && Read(m, ps[k]) == Empty
    ensures r == Some(false) ==> forall k :: 0 <= k < |ps| ==> Read(m, ps[k]) != Empty && Read(m, ps[k]) != Missing
    ensures r.None? ==> exists k :: 0 <= k < |ps| && Read(m, ps[k]) == Missing
    ensures (forall k :: 0 <= k < |ps| ==> Read(m, ps[k]) != Missing) ==> r.Some?
    decreases |ps|
  {
    if ps == [] then Some(false)
    else
      var x := Read(m, ps[0]);
      if x == Missing then None
      else if IsEmpty(x) then Some(true)
      else
        var r := FirstEmpty(m, ps[1..]);
        assert forall k :: 0 <= k < |ps[1..]| ==> ps[1..][k] == ps[k + 1];
        r
  }

  /** `_isFull(locations)`: `None` is a thrown `TypeError`. */
  function IsFull(m: Mirror, locs: seq<string>, n: int, v: Variant): (r: Option<bool>)
    ensures (forall l :: l in locs ==> Cascade(l, n, v) == []) ==> r == Some(true)
    decreases |locs|
  {
    if locs == [] then Some(true)
    else match FirstEmpty(m, Cascade(locs[0], n, v))
      case None => None
      case Some(true) => Some(false)
      case Some(false) => IsFull(m, locs[1..], n, v)
  }

  /** Iterating a string with `for … of` yields its one-character strings. */
  function Chars(s: string): (r: seq<string>)
    ensures |r| == |s|
    ensures forall k :: 0 <= k < |r| ==> r[k] == [s[k]]
  {
    seq(|s|, k requires 0 <= k < |s| => [s[k]])
  }

  /** `_isFull('inventory')` as written passes a string, so the loop visits
      the letters of "inventory"; none names a location, no slot is
      looked at, and the answer is "full" whatever the inventory holds. */
  lemma InventoryStringIsFull(m: Mirror, n: int, v: Variant)
    ensures IsFull(m, Chars("inventory"), n, v) == Some(true)
  {
    var cs := Chars("inventory");
    forall l | l in cs ensures Cascade(l, n, v) == [] {
      var k :| 0 <= k < |cs| && cs[k] == l;
      assert |l| == 1;
    }
  }

  /** As intended, `_isFull(['inventory'])` answers "not full" exactly when
      one of the main inventory slots 9-35 is empty. */
  lemma MainInventoryFull(m: Mirror, n: int)
    requires forall i :: 9 <= i < 36 ==> Read(m, Inv(i)) != Missing
    ensures IsFull(m, ["inventory"], n, Intended) == Some(forall i :: 9 <= i < 36 ==> Read(m, Inv(i)) != Empty)
  {
    var ps := Slots(9, 36);
    forall k | 0 <= k < |ps| ensures Read(m, ps[k]) != Missing {
      assert ps[k] == Inv(9 + k);
    }
    var fe := FirstEmpty(m, ps);
    assert Cascade("inventory", n, Intended) == ps;
    assert IsFull(m, ["inventory"], n, Intended) == (if fe.value then Some(false) else IsFull(m, [], n, Intended));
    if fe.value {
      var k :| 0 <= k < |ps| && Read(m, ps[k]) == Empty;
      assert Read(m, Inv(9 + k)) == Empty;
    } else {
      forall i | 9 <= i < 36 ensures Read(m, Inv(i)) != Empty {
        assert ps[i - 9] == Inv(i);
      }
    }
  }


  /** How `_moveItem` ends: with the state and what did not fit, or by a
      throw, with the state as the throw leaves it. */
  datatype Moved = Moved(m: Mirror, rest: Item) | Raised(m: Mirror)

  /** `_moveItem(a, b)`: move slot `a` onto slot `b` and return what does
      not fit there (the other item, or the overflow). Either slot number
      may be `NaN` (`None`). Reading `blockId` of a `null` slot throws a
      `TypeError`. As written, the two paths that return a remainder assign
      the undeclared variable `remainder`, which throws a `ReferenceError`
      in a class body: a different item in `b` throws before anything is
      written, an overflowing merge after `b` holds the full stack. As
      intended, `remainder` is a local variable. */
  function MoveItem(m: Mirror, a: Option<int>, b: Option<int>, ss: StackSizes, v: Variant): (r: Moved)
    ensures GetKey(m, a) == Missing ==> r == Raised(m)
    ensures GetKey(m, a).Empty? ==> r == Moved(m, Empty)
    ensures r.m.inventory.cursor == m.inventory.cursor
    ensures r.Moved? && GetKey(m, a).Stack? && GetKey(m, b).Empty? ==> r.rest == Empty
    ensures r.m.(inventory := m.inventory, box := m.box) == m
  {
    var x := GetKey(m, a);
    if x == Missing then Raised(m)
    else if IsEmpty(x) then Moved(m, Empty)
    else
      var y := GetKey(m, b);
      if y == Missing then Raised(m)
      else if IsEmpty(y) then Moved(Transfer(m, a, b, x), Empty)
      else MoveOnto(m, a, b, x, y, ss, v)
  }

  /** Write `z` into `b`, then empty `a`. */
  function Transfer(m: Mirror, a: Option<int>, b: Option<int>, z: Item): (r: Mirror)
    ensures r.inventory.cursor == m.inventory.cursor
    ensures r.(inventory := m.inventory, box := m.box) == m
  {
    SetKey(SetKey(m, b, z), a, Empty)
  }

  /** `_moveItem` once both slots hold stacks. */
  function MoveOnto(m: Mirror, a: Option<int>, b: Option<int>, x: Item, y: Item, ss: StackSizes, v: Variant): (r: Moved)
    requires x.Stack? && y.Stack?
    ensures r.m.inventory.cursor == m.inventory.cursor
    ensures r.m.(inventory := m.inventory, box := m.box) == m
  {
    if SameItem(x, y) then
      var sum := x.count + y.count;
      var cap := ss(x.id);
      if sum <= cap then Moved(Transfer(m, a, b, Resize(x, sum)), Empty)
      else
        var m1 := SetKey(m, b, Resize(x, cap));
        var x' := GetKey(m1, a);
        if v == AsWritten || x' == Missing then Raised(m1)
        else Moved(Transfer(m, a, b, Resize(x, cap)), Resize(x', sum - cap))
    else if v == AsWritten then Raised(m)
    else Moved(Transfer(m, a, b, x), y)
  }

  /** Every stack anywhere holds at least one item. */
  ghost predicate Positive(m: Mirror) {
    forall p :: Read(m, p).Stack? ==> Read(m, p).count > 0
  }

  /** Progress of `_gatherToCursor`: the state and the cursor's count. */
  datatype Taken = Taken(m: Mirror, count: int)

  /** One loop of `_gatherToCursor` over `ps`: take from every stack of the
      cursor's item that is partial (`full` false) or exactly full (`full`
      true) until the count reaches the stack size. The first container
      loop tests the count after a take (`late`), the others before each
      slot. `None` is a thrown `TypeError` on a `null` slot. */
  function Sweep(m: Mirror, c: Item, ps: seq<Place>, count: int, cap: int, full: bool, late: bool): (r: Option<Taken>)
    requires c.Stack?
    ensures r.Some? ==> r.value.m.(inventory := m.inventory, box := m.box) == m
    ensures r.Some? ==> r.value.m.inventory.cursor == m.inventory.cursor
    decreases |ps|
  {
    if ps == [] || (!late && count >= cap) then Some(Taken(m, count))
    else
      var x := Read(m, ps[0]);
      if x == Missing then None
      else if !IsEmpty(x) && SameItem(x, c) && (if full then x.count == cap else x.count < cap) then
        var add := Min(x.count, cap - count);
        var m1 := Put(m, ps[0], Normal(Resize(x, x.count - add)));
        if late && count + add >= cap then Some(Taken(m1, count + add))
        else Sweep(m1, c, ps[1..], count + add, cap, full, late)
      else Sweep(m, c, ps[1..], count, cap, full, late)
  }

  /** Writing a normalised item keeps every stack positive. */
  lemma PutPositive(m: Mirror, p: Place, y: Item)
    requires Positive(m) && Settled(y)
    ensures Positive(Put(m, p, y))
  {
    var m1 := Put(m, p, y);
    forall q | Read(m1, q).Stack? ensures Read(m1, q).count > 0 {
      if q != p { assert Read(m1, q) == Read(m, q); }
    }
  }

  /** A sweep over positive stacks moves the count toward the stack size
      and never past it, and leaves every stack positive. */
  lemma {:induction false} SweepBounds(m: Mirror, c: Item, ps: seq<Place>, count: int, cap: int, full: bool, late: bool)
    requires c.Stack? && Positive(m)
    ensures var r := Sweep(m, c, ps, count, cap, full, late);
            r.Some? ==> Positive(r.value.m) && Min(count, cap) <= r.value.count <= Max(count, cap)
    decreases |ps|, 1
  {
    if ps != [] && !(!late && count >= cap) {
      var x := Read(m, ps[0]);
      if x != Missing && !IsEmpty(x) && SameItem(x, c) && (if full then x.count == cap else x.count < cap) {
        SweepTakeBounds(m, c, ps, count, cap, full, late);
      } else if x != Missing {
        SweepBounds(m, c, ps[1..], count, cap, full, late);
      }
    }
  }

  /** The step of `SweepBounds` where the first slot gives up items. */
  lemma {:induction false} SweepTakeBounds(m: Mirror, c: Item, ps: seq<Place>, count: int, cap: int, full: bool, late: bool)
    requires c.Stack? && Positive(m) && ps != [] && !(!late && count >= cap)
    requires var x := Read(m, ps[0]);
             x.Stack? && SameItem(x, c) && (if full then x.count == cap else x.count < cap)
    ensures var r := Sweep(m, c, ps, count, cap, full, late);
            r.Some? ==> Positive(r.value.m) && Min(count, cap) <= r.value.count <= Max(count, cap)
    decreases |ps|, 0
  {
    var x := Read(m, ps[0]);
    var add := Min(x.count, cap - count);
    var y := Normal(Resize(x, x.count - add));
    var m1 := Put(m, ps[0], y);
    PutPositive(m, ps[0], y);
    assert Min(count, cap) <= count + add <= Max(count, cap);
    if late && count + add >= cap {
      assert Sweep(m, c, ps, count, cap, full, late) == Some(Taken(m1, count + add));
    } else {
      assert Sweep(m, c, ps, count, cap, full, late) == Sweep(m1, c, ps[1..], count + add, cap, full, late);
      SweepBounds(m1, c, ps[1..], count + add, cap, full, late);
    }
  }

  lemma {:induction false} SweepTally(m: Mirror, c: Item, ps: seq<Place>, count: int, cap: int, full: bool, late: bool, k: int, n: int)
    requires c.Stack?
    requires forall q :: q in ps ==> Among(q, k, n)
    ensures var r := Sweep(m, c, ps, count, cap, full, late);
            r.Some? ==> Count(r.value.m, k, n, c.id, c.meta) + r.value.count == Count(m, k, n, c.id, c.meta) + count
    decreases |ps|, 1
  {
    if ps != [] && !(!late && count >= cap) {
      var x := Read(m, ps[0]);
      if x != Missing && !IsEmpty(x) && SameItem(x, c) && (if full then x.count == cap else x.count < cap) {
        SweepTakeTally(m, c, ps, count, cap, full, late, k, n);
      } else if x != Missing {
        assert forall q :: q in ps[1..] ==> q in ps;
        SweepTally(m, c, ps[1..], count, cap, full, late, k, n);
      }
    }
  }

  /** The step of `SweepTally` where the first slot gives up items. */
  lemma {:induction false} SweepTakeTally(m: Mirror, c: Item, ps: seq<Place>, count: int, cap: int, full: bool, late: bool, k: int, n: int)
    requires c.Stack? && ps != [] && !(!late && count >= cap)
    requires forall q :: q in ps ==> Among(q, k, n)
    requires var x := Read(m, ps[0]);
             x.Stack? && SameItem(x, c) && (if full then x.count == cap else x.count < cap)
    ensures var r := Sweep(m, c, ps, count, cap, full, late);
            r.Some? ==> Count(r.value.m, k, n, c.id, c.meta) + r.value.count == Count(m, k, n, c.id, c.meta) + count
    decreases |ps|, 0
  {
    var x := Read(m, ps[0]);
    var add := Min(x.count, cap - count);
    var y := Normal(Resize(x, x.count - add));
    var m1 := Put(m, ps[0], y);
    CountPut(m, k, n, ps[0], y, c.id, c.meta);
    assert Kind(y, c.id, c.meta) - Kind(x, c.id, c.meta) == -add;
    if late && count + add >= cap {
      assert Sweep(m, c, ps, count, cap, full, late) == Some(Taken(m1, count + add));
    } else {
      assert Sweep(m, c, ps, count, cap, full, late) == Sweep(m1, c, ps[1..], count + add, cap, full, late);
      assert forall q :: q in ps[1..] ==> q in ps;
      SweepTally(m1, c, ps[1..], count + add, cap, full, late, k, n);
    }
  }

  /** The inventory indices the double click scans: the crafting grid 1-4,
      then 9-44. */
  function GatherSlots(): (ps: seq<Place>)
    ensures forall q :: q in ps ==> q.Inv? && 0 <= q.i < 45
  {
    Slots(1, 5) + Slots(9, 45)
  }

  /** `_gatherToCursor(cursorItem, slot)`: with an empty cursor the clicked
      slot's item is picked up first; then partial stacks of that item, and
      after them full ones, are pulled onto the cursor up to the stack size,
      container first. `None` is a thrown `TypeError`. A picked-up stack of
      count zero or less lands on the cursor as the empty item, whose count
      is `undefined`: no slot matches it, so the scans only read the slots,
      and the run ends with the clicked slot and the cursor empty. */
  function Gather(m: Mirror, cursorItem: Item, slot: int, ss: StackSizes): (r: Option<Mirror>)
    ensures cursorItem == Missing ==> r.None?
    ensures cursorItem.Empty? && GetItem(m, slot).Empty? ==> r == Some(m)
    ensures cursorItem.Empty? && GetItem(m, slot) == Missing ==> r.None?
    ensures cursorItem.Empty? && GetItem(m, slot).Stack? && GetItem(m, slot).count <= 0 ==>
              var m0 := SetSlot(SetCursor(m, Empty), slot, Empty);
              && (r.Some? <==> forall q :: q in GatherBox(m) + GatherSlots() ==> Read(m0, q) != Missing)
              && (r.Some? ==> r.value == m0 && r.value.inventory.cursor == Empty)
  {
    if cursorItem == Missing then None
    else if cursorItem.Empty? then
      var x := GetItem(m, slot);
      if x == Missing then None
      else if x.Empty? then Some(m)
      else
        var m0 := SetSlot(SetCursor(m, x), slot, Empty);
        if m0.inventory.cursor.Stack? then Collect(m0, m0.inventory.cursor, ss)
        else if forall q :: q in GatherBox(m0) + GatherSlots() ==> Read(m0, q) != Missing then Some(m0)
        else None
    else Collect(m, cursorItem, ss)
  }

  /** The container slots the double click scans: none in the player's own
      window, and none when the container's size is unknown. */
  function GatherBox(m: Mirror): (ps: seq<Place>)
    ensures m.windowId == 0 ==> ps == []
    ensures forall q :: q in ps ==> q.Box? && 0 <= q.i < BoxCount(m)
  {
    if m.windowId != 0 then Boxes(BoxCount(m)) else []
  }

  /** The scans of `_gatherToCursor` once the cursor item `c` is known; the
      cursor ends holding `c` with the gathered count. */
  function Collect(m: Mirror, c: Item, ss: StackSizes): (r: Option<Mirror>)
    ensures !c.Stack? ==> r.None?
  {
    if !c.Stack? then None
    else
      var box := GatherBox(m);
      var e := Passes(m, c, box, ss(c.id));
      if e.None? then None else Some(SetCursor(e.value.m, Resize(c, e.value.count)))
  }

  /** The four scans of `_gatherToCursor`: partial container stacks (stopping
      once the cursor is full), partial inventory stacks, then full container
      stacks and full inventory stacks (each checking the count first). */
  function Passes(m: Mirror, c: Item, box: seq<Place>, cap: int): (r: Option<Taken>)
    requires c.Stack?
    ensures r.Some? ==> r.value.m.inventory.cursor == m.inventory.cursor
    ensures r.Some? ==> r.value.m.(inventory := m.inventory, box := m.box) == m
  {
    match Sweep(m, c, box, c.count, cap, false, true)
    case None => None
    case Some(a) =>
      match Sweep(a.m, c, GatherSlots(), a.count, cap, false, false)
      case None => None
      case Some(b) =>
        match Sweep(b.m, c, box, b.count, cap, true, false)
        case None => None
        case Some(d) => Sweep(d.m, c, GatherSlots(), d.count, cap, true, false)
  }

  /** Two states that read alike in every place hold the same count. */
  lemma {:induction false} CountSameReads(m1: Mirror, m2: Mirror, k: int, n: int, id: int, meta: int)
    requires forall q :: Read(m1, q) == Read(m2, q)
    ensures Count(m1, k, n, id, meta) == Count(m2, k, n, id, meta)
  {
    TallyInvSameReads(m1, m2, k, id, meta);
    TallyBoxSameReads(m1, m2, n, id, meta);
  }

  lemma {:induction false} TallyInvSameReads(m1: Mirror, m2: Mirror, k: int, id: int, meta: int)
    requires forall q :: Read(m1, q) == Read(m2, q)
    ensures TallyInv(m1, k, id, meta) == TallyInv(m2, k, id, meta)
    decreases k
  {
    if k > 0 {
      TallyInvSameReads(m1, m2, k - 1, id, meta);
      assert Read(m1, Inv(k - 1)) == Read(m2, Inv(k - 1));
    }
  }

  lemma {:induction false} TallyBoxSameReads(m1: Mirror, m2: Mirror, k: int, id: int, meta: int)
    requires forall q :: Read(m1, q) == Read(m2, q)
    ensures TallyBox(m1, k, id, meta) == TallyBox(m2, k, id, meta)
    decreases k
  {
    if k > 0 {
      TallyBoxSameReads(m1, m2, k - 1, id, meta);
      assert Read(m1, Box(k - 1)) == Read(m2, Box(k - 1));
    }
  }

  /** The four scans together: what leaves the slots lands on the cursor's
      count, which moves toward the stack size and never past it. */
  lemma PassesTally(m: Mirror, c: Item, box: seq<Place>, cap: int, k: int, n: int)
    requires c.Stack? && Positive(m) && k >= 45
    requires forall q :: q in box ==> Among(q, k, n)
    ensures var r := Passes(m, c, box, cap);
            r.Some? ==> Positive(r.value.m)
                        && Count(r.value.m, k, n, c.id, c.meta) + r.value.count == Count(m, k, n, c.id, c.meta) + c.count
                        && Min(c.count, cap) <= r.value.count <= Max(c.count, cap)
  {
    var gs := GatherSlots();
    assert forall q :: q in gs ==> Among(q, k, n);
    var a := Sweep(m, c, box, c.count, cap, false, true);
    SweepTally(m, c, box, c.count, cap, false, true, k, n);
    SweepBounds(m, c, box, c.count, cap, false, true);
    if a.Some? {
      var a := a.value;
      var b := Sweep(a.m, c, gs, a.count, cap, false, false);
      SweepTally(a.m, c, gs, a.count, cap, false, false, k, n);
      SweepBounds(a.m, c, gs, a.count, cap, false, false);
      if b.Some? {
        var b := b.value;
        var d := Sweep(b.m, c, box, b.count, cap, true, false);
        SweepTally(b.m, c, box, b.count, cap, true, false, k, n);
        SweepBounds(b.m, c, box, b.count, cap, true, false);
        if d.Some? {
          var d := d.value;
          SweepTally(d.m, c, gs, d.count, cap, true, false, k, n);
          SweepBounds(d.m, c, gs, d.count, cap, true, false);
        }
      }
    }
  }

  /** Picking up the clicked stack moves its items from the slot to the
      cursor. */
  lemma PickUp(m: Mirror, slot: int, k: int, n: int)
    requires Positive(m) && GetItem(m, slot).Stack? && k >= 45
    requires slot != Outside && Address(m, slot).Some? && Within(Address(m, slot).value, n)
    ensures var x := GetItem(m, slot);
            var m0 := SetSlot(SetCursor(m, x), slot, Empty);
            && Positive(m0) && m0.inventory.cursor == x
            && Count(m0, k, n, x.id, x.meta) + x.count == Count(m, k, n, x.id, x.meta)
  {
    var x := GetItem(m, slot);
    var p := Address(m, slot).value;
    var m1 := SetCursor(m, x);
    CountSameReads(m1, m, k, n, x.id, x.meta);
    assert SetSlot(m1, slot, Empty) == Put(m1, p, Empty);
    CountPut(m1, k, n, p, Empty, x.id, x.meta);
    PutPositive(m1, p, Empty);
  }

  /** `Collect` conserves the kind it gathers, counting the cursor. */
  lemma CollectTally(m: Mirror, c: Item, ss: StackSizes, k: int, n: int)
    requires c.Stack? && c.count > 0 && Positive(m) && n == BoxCount(m) && k >= 45
    ensures var r := Collect(m, c, ss);
            r.Some? ==>
              var h := r.value.inventory.cursor;
              && h.Stack? && h.id == c.id && h.meta == c.meta
              && Count(r.value, k, n, c.id, c.meta) + h.count == Count(m, k, n, c.id, c.meta) + c.count
              && h.count <= Max(c.count, ss(c.id))
  {
    var box := GatherBox(m);
    assert forall q :: q in box ==> Among(q, k, n);
    GatherFinish(m, c, box, ss(c.id), k, n);
    var e := Passes(m, c, box, ss(c.id));
    if e.Some? {
      assert Collect(m, c, ss) == Some(SetCursor(e.value.m, Resize(c, e.value.count)));
    }
  }

  /** The end of `_gatherToCursor`: the cursor takes the gathered count. */
  lemma GatherFinish(m0: Mirror, c: Item, box: seq<Place>, cap: int, k: int, n: int)
    requires c.Stack? && c.count > 0 && Positive(m0) && cap >= 1 && k >= 45
    requires forall q :: q in box ==> Among(q, k, n)
    ensures var e := Passes(m0, c, box, cap);
            e.Some? ==>
              var r := SetCursor(e.value.m, Resize(c, e.value.count));
              && r.inventory.cursor == Resize(c, e.value.count)
              && Count(r, k, n, c.id, c.meta) + e.value.count == Count(m0, k, n, c.id, c.meta) + c.count
              && e.value.count <= Max(c.count, cap)
  {
    PassesTally(m0, c, box, cap, k, n);
    var e := Passes(m0, c, box, cap);
    if e.Some? {
      var r := SetCursor(e.value.m, Resize(c, e.value.count));
      CountSameReads(r, e.value.m, k, n, c.id, c.meta);
    }
  }

  /** Double-clicking conserves items: counting the cursor with the slots,
      the gathered kind is neither created nor lost, and the cursor ends
      with at most a full stack (or what it already held). */
  lemma GatherConserves(m: Mirror, slot: int, ss: StackSizes, k: int)
    requires Positive(m) && Settled(m.inventory.cursor) && k >= 45
    requires slot != Outside && Address(m, slot).Some? && Within(Address(m, slot).value, BoxCount(m))
    ensures var r := Gather(m, m.inventory.cursor, slot, ss);
            r.Some? && r.value.inventory.cursor.Stack? ==>
              var c := r.value.inventory.cursor;
              && Count(r.value, k, BoxCount(m), c.id, c.meta) + c.count
                 == Count(m, k, BoxCount(m), c.id, c.meta) + Kind(m.inventory.cursor, c.id, c.meta)
              && c.count <= Max(CountOf(m.inventory.cursor) + CountOf(GetItem(m, slot)), ss(c.id))
  {
    var cur := m.inventory.cursor;
    if cur.Stack? {
      GatherHeld(m, slot, ss, k);
    } else if cur.Empty? && GetItem(m, slot).Stack? {
      GatherPicked(m, slot, ss, k);
    }
  }

  /** `GatherConserves` when the cursor already holds a stack: the scans
      start from it directly. */
  lemma GatherHeld(m: Mirror, slot: int, ss: StackSizes, k: int)
    requires Positive(m) && k >= 45 && m.inventory.cursor.Stack? && m.inventory.cursor.count > 0
    ensures var r := Gather(m, m.inventory.cursor, slot, ss);
            r.Some? ==>
              var c := r.value.inventory.cursor;
              && c.Stack? && c.id == m.inventory.cursor.id && c.meta == m.inventory.cursor.meta
              && Count(r.value, k, BoxCount(m), c.id, c.meta) + c.count
                 == Count(m, k, BoxCount(m), c.id, c.meta) + m.inventory.cursor.count
              && c.count <= Max(m.inventory.cursor.count, ss(c.id))
  {
    var cur := m.inventory.cursor;
    assert Gather(m, cur, slot, ss) == Collect(m, cur, ss);
    CollectTally(m, cur, ss, k, BoxCount(m));
  }

  /** `GatherConserves` when the cursor starts empty and the clicked stack
      is picked up first. */
  lemma GatherPicked(m: Mirror, slot: int, ss: StackSizes, k: int)
    requires Positive(m) && k >= 45 && m.inventory.cursor.Empty? && GetItem(m, slot).Stack?
    requires slot != Outside && Address(m, slot).Some? && Within(Address(m, slot).value, BoxCount(m))
    ensures var x := GetItem(m, slot);
            var r := Gather(m, m.inventory.cursor, slot, ss);
            r.Some? ==>
              var h := r.value.inventory.cursor;
              && h.Stack? && h.id == x.id && h.meta == x.meta
              && Count(r.value, k, BoxCount(m), x.id, x.meta) + h.count == Count(m, k, BoxCount(m), x.id, x.meta)
              && h.count <= Max(x.count, ss(x.id))
  {
    var n := BoxCount(m);
    var x := GetItem(m, slot);
    PickUp(m, slot, k, n);
    var m0 := SetSlot(SetCursor(m, x), slot, Empty);
    assert BoxCount(m0) == n;
    assert Gather(m, m.inventory.cursor, slot, ss) == Collect(m0, x, ss);
    CollectTally(m0, x, ss, k, n);
  }

}
