/** Laws of `_moveItem` (src/session/handlers/inventory.js), as written
    and as intended. */
module MoveLaws {
  import opened Common
  import opened Inventory
  import opened Spread

  /** As written, `_moveItem` never hands back a remainder: wherever the
      intended code returns one, the written code throws, with `b` already
      holding the full stack when two stacks overflow it. Everywhere else
      the two agree. */
  lemma MoveItemRaises(m: Mirror, a: Option<int>, b: Option<int>, ss: StackSizes)
    ensures var x := GetKey(m, a);
            var y := GetKey(m, b);
            var w := MoveItem(m, a, b, ss, AsWritten);
            && (x.Stack? && y.Stack? && !SameItem(x, y) ==> w == Raised(m))
            && (x.Stack? && y.Stack? && SameItem(x, y) && x.count + y.count > ss(x.id) ==>
                  w == Raised(SetKey(m, b, Resize(x, ss(x.id)))))
            && (w.Moved? ==> w.rest == Empty)
            && (!(x.Stack? && y.Stack? && (!SameItem(x, y) || x.count + y.count > ss(x.id))) ==>
                  w == MoveItem(m, a, b, ss, Intended))
  {
  }

  /** As intended, moving a stack onto a stack keeps the items: `b` and
      the remainder together hold both stacks, `a` is emptied, and a
      remainder is the other item or the overflow of the same one. */
  lemma MoveItemKeeps(m: Mirror, a: int, b: int, ss: StackSizes)
    requires Addressable(m, a) && Addressable(m, b) && Address(m, a) != Address(m, b)
    requires GetItem(m, a).Stack? && GetItem(m, a).count > 0 && GetItem(m, b).Stack? && GetItem(m, b).count > 0
    ensures var x := GetItem(m, a);
            var y := GetItem(m, b);
            var r := MoveItem(m, Some(a), Some(b), ss, Intended);
            && r.Moved? && GetItem(r.m, a) == Empty
            && (SameItem(x, y) ==>
                  && SameItem(GetItem(r.m, b), x)
                  && CountOf(GetItem(r.m, b)) + CountOf(r.rest) == x.count + y.count
                  && CountOf(GetItem(r.m, b)) == Min(x.count + y.count, ss(x.id)))
            && (!SameItem(x, y) ==> GetItem(r.m, b) == x && r.rest == y)
  {
    if SameItem(GetItem(m, a), GetItem(m, b)) {
      MoveKeepsSame(m, a, b, ss);
    } else {
      MoveKeepsOther(m, a, b, ss);
    }
  }

  lemma MoveKeepsSame(m: Mirror, a: int, b: int, ss: StackSizes)
    requires Addressable(m, a) && Addressable(m, b) && Address(m, a) != Address(m, b)
    requires GetItem(m, a).Stack? && GetItem(m, a).count > 0 && GetItem(m, b).Stack? && GetItem(m, b).count > 0
    requires SameItem(GetItem(m, a), GetItem(m, b))
    ensures var x := GetItem(m, a);
            var y := GetItem(m, b);
            var r := MoveItem(m, Some(a), Some(b), ss, Intended);
            && r.Moved? && GetItem(r.m, a) == Empty
            && SameItem(GetItem(r.m, b), x)
            && CountOf(GetItem(r.m, b)) + CountOf(r.rest) == x.count + y.count
            && CountOf(GetItem(r.m, b)) == Min(x.count + y.count, ss(x.id))
  {
    var x := GetItem(m, a);
    var y := GetItem(m, b);
    assert GetKey(m, Some(a)) == x && GetKey(m, Some(b)) == y;
    var sum := x.count + y.count;
    var cap := ss(x.id);
    var z := if sum <= cap then Resize(x, sum) else Resize(x, cap);
    var rest := if sum <= cap then Empty else Resize(x, sum - cap);
    TransferReads(m, a, b, z);
    var r := MoveItem(m, Some(a), Some(b), ss, Intended);
    MoveItemStacks(m, Some(a), Some(b), ss, Intended);
    if sum <= cap {
      OntoMerging(m, Some(a), Some(b), x, y, ss);
    } else {
      OntoOverflowing(m, Some(a), Some(b), x, y, ss);
    }
    assert r == Moved(Transfer(m, Some(a), Some(b), z), rest);
    StackTally(x, y, ss);
  }

  lemma MoveKeepsOther(m: Mirror, a: int, b: int, ss: StackSizes)
    requires Addressable(m, a) && Addressable(m, b) && Address(m, a) != Address(m, b)
    requires GetItem(m, a).Stack? && GetItem(m, a).count > 0 && GetItem(m, b).Stack? && GetItem(m, b).count > 0
    requires !SameItem(GetItem(m, a), GetItem(m, b))
    ensures var r := MoveItem(m, Some(a), Some(b), ss, Intended);
            r.Moved? && GetItem(r.m, a) == Empty && GetItem(r.m, b) == GetItem(m, a) && r.rest == GetItem(m, b)
  {
    var x := GetItem(m, a);
    assert GetKey(m, Some(a)) == x && GetKey(m, Some(b)) == GetItem(m, b);
    TransferReads(m, a, b, x);
    MoveItemStacks(m, Some(a), Some(b), ss, Intended);
    OntoOther(m, Some(a), Some(b), x, GetItem(m, b), ss);
  }

  /** Merging stack `x` onto a stack of the same item: the target gets the
      sum up to a full stack, and the rest is handed back. */
  lemma StackTally(x: Item, y: Item, ss: StackSizes)
    requires x.Stack? && y.Stack? && x.count > 0 && y.count > 0 && SameItem(x, y)
    ensures var sum := x.count + y.count;
            var cap := ss(x.id);
            var z := if sum <= cap then Resize(x, sum) else Resize(x, cap);
            var rest := if sum <= cap then Empty else Resize(x, sum - cap);
            && SameItem(z, x) && CountOf(z) + CountOf(rest) == sum && CountOf(z) == Min(sum, cap)
  {
  }

  /** With a stack in both slots, `_moveItem` is decided by the two
      stacks alone. */
  lemma MoveItemStacks(m: Mirror, a: Option<int>, b: Option<int>, ss: StackSizes, v: Variant)
    requires GetKey(m, a).Stack? && GetKey(m, b).Stack?
    ensures MoveItem(m, a, b, ss, v) == MoveOnto(m, a, b, GetKey(m, a), GetKey(m, b), ss, v)
  {
  }

  /** The three cases of an intended move of a stack onto a stack. */
  lemma OntoOther(m: Mirror, a: Option<int>, b: Option<int>, x: Item, y: Item, ss: StackSizes)
    requires x.Stack? && y.Stack? && !SameItem(x, y)
    ensures MoveOnto(m, a, b, x, y, ss, Intended) == Moved(Transfer(m, a, b, x), y)
  {
  }

  lemma OntoMerging(m: Mirror, a: Option<int>, b: Option<int>, x: Item, y: Item, ss: StackSizes)
    requires x.Stack? && y.Stack? && SameItem(x, y) && x.count + y.count <= ss(x.id)
    ensures MoveOnto(m, a, b, x, y, ss, Intended) == Moved(Transfer(m, a, b, Resize(x, x.count + y.count)), Empty)
  {
  }

  lemma OntoOverflowing(m: Mirror, a: Option<int>, b: Option<int>, x: Item, y: Item, ss: StackSizes)
    requires x.Stack? && y.Stack? && SameItem(x, y) && x.count + y.count > ss(x.id)
    requires GetKey(SetKey(m, b, Resize(x, ss(x.id))), a) == x
    ensures MoveOnto(m, a, b, x, y, ss, Intended) == Moved(Transfer(m, a, b, Resize(x, ss(x.id))), Resize(x, x.count + y.count - ss(x.id)))
  {
  }

  /** Writing `z` into `b` and then emptying `a`, two distinct places:
      `a` reads empty and `b` reads `z`. */
  lemma TransferReads(m: Mirror, a: int, b: int, z: Item)
    requires Addressable(m, a) && Addressable(m, b) && Address(m, a) != Address(m, b)
    requires z.Stack? && z.count > 0
    ensures GetKey(SetKey(m, Some(b), z), Some(a)) == GetItem(m, a)
    ensures GetItem(Transfer(m, Some(a), Some(b), z), a) == Empty && GetItem(Transfer(m, Some(a), Some(b), z), b) == z
  {
    var pb := Address(m, b).value;
    var m1 := SetSlot(m, b, z);
    assert Size(m1) == Size(m);
    var m2 := SetSlot(m1, a, Empty);
    assert Size(m2) == Size(m);
    assert Read(m2, pb) == Read(m1, pb);
  }
}
