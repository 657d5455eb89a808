/** Plugin chest windows: a fixed number of slots, an optional border
    around the edge, the inserted items laid out page by page into the
    slots the border leaves free, and previous/next buttons that move the
    page when clicked. The server calls that open a chest, send its
    contents and answer a click are returned as data. */
module Gui {
  import opened Common
  import opened JsMaps

  /** An item shown in a slot; `tag` stands for its other fields. */
  datatype Item = Item(blockId: int, tag: int)

  /** `{ blockId: -1 }`, the empty slot. */
  const Blank: Item := Item(-1, 0)

  /** The default border of `addBorder`: stained glass pane, damage 7. */
  const GreyPane: Item := Item(160, 7)

  /** A window under construction. Click handlers are kept by an opaque
      handler number. Negative or fractional sizes, which make the source's
      array constructor throw, are not modelled. */
  datatype Window = Window(
    title: string,
    size: nat,
    items: JsMap<int, Item>,
    handlers: JsMap<int, int>,
    page: int,
    perPage: int,
    border: Option<Item>,
    prev: Option<Item>,
    next: Option<Item>)

  // ---------------------------------------------------------------------
  // Building a window

  /** `new GUI(manager, title, size)`: no items, first page, one page the
      size of the window, no border and no buttons. */
  function Create(title: string, size: nat): (g: Window)
    ensures g.items == [] && g.page == 0 && g.perPage == size && g.size == size
    ensures g.border.None? && g.prev.None? && g.next.None?
  {
    Window(title, size, [], [], 0, size, None, None, None)
  }

  /** `setItem(slot, item)`: the item is stored under the slot number, but
      its place on the pages is the order of first insertion; storing
      under a number already used replaces that item in place. */
  function SetItem(g: Window, slot: int, item: Item): (r: Window)
    ensures Get(r.items, slot) == Some(item)
    ensures forall s :: s != slot ==> Get(r.items, s) == Get(g.items, s)
    ensures !Has(g.items, slot) ==> Values(r.items) == Values(g.items) + [item]
    ensures Has(g.items, slot) ==> |r.items| == |g.items|
    ensures r == g.(items := r.items)
  {
    var items := Set(g.items, slot, item);
    SetThenGet(g.items, slot, item);
    forall s | s != slot ensures Get(items, s) == Get(g.items, s) {
      SetKeepsOthers(g.items, slot, item, s);
    }
    g.(items := items)
  }

  /** `onClick(slot, handler)`: the handler is recorded; the click
      interceptor below never consults it. */
  function OnClick(g: Window, slot: int, handler: int): (r: Window)
    ensures Get(r.handlers, slot) == Some(handler)
    ensures r == g.(handlers := r.handlers)
  {
    SetThenGet(g.handlers, slot, handler);
    g.(handlers := Set(g.handlers, slot, handler))
  }

  /** `addBorder(item)`, with the grey pane when no item is given. */
  function AddBorder(g: Window, item: Option<Item>): (r: Window)
    ensures r.border == Some(item.GetOr(GreyPane))
    ensures r == g.(border := r.border)
  {
    g.(border := Some(item.GetOr(GreyPane)))
  }

  /** `setPagination(itemsPerPage, prev, next)`; a missing or falsy button
      item is `None`. */
  function SetPagination(g: Window, perPage: int, prev: Option<Item>, next: Option<Item>): (r: Window)
    ensures r.perPage == perPage && r.prev == prev && r.next == next
    ensures r == g.(perPage := perPage, prev := prev, next := next)
  {
    g.(perPage := perPage, prev := prev, next := next)
  }

  /** `Array.from(map.values())`: the values in insertion order. */
  function Values<K, V>(m: JsMap<K, V>): (r: seq<V>)
    ensures |r| == |m| && forall i :: 0 <= i < |m| ==> r[i] == m[i].value
  {
    if m == [] then [] else Values(m[..|m| - 1]) + [m[|m| - 1].value]
  }

  // ---------------------------------------------------------------------
  // Layout, as a reference definition

  /** A `slice` bound: a negative one counts from the end, and both are
      clamped to the array. */
  function SliceBound(i: int, len: nat): (r: nat)
    ensures r <= len
    ensures 0 <= i <= len ==> r == i
    ensures i > len ==> r == len
  {
    if i < 0 then Max(len + i, 0) else Min(i, len)
  }

  /** `array.slice(start, end)`. */
  function Slice<T>(s: seq<T>, start: int, end: int): (r: seq<T>)
    ensures |r| == Max(SliceBound(end, |s|) - SliceBound(start, |s|), 0)
    ensures forall k :: 0 <= k < |r| ==> r[k] == s[SliceBound(start, |s|) + k]
  {
    var a := SliceBound(start, |s|);
    var b := SliceBound(end, |s|);
    if a <= b then s[a..b] else []
  }

  /** The items of the current page. */
  function PageItems(g: Window): seq<Item> {
    Slice(Values(g.items), g.page * g.perPage, (g.page + 1) * g.perPage)
  }

  /** The edge of a chest: top and bottom rows, left and right columns. */
  predicate Framed(i: int, size: int) {
    i < 9 || i >= size - 9 || i % 9 == 0 || i % 9 == 8
  }

  /** What a slot holds before the page is laid out. */
  function Base(g: Window, i: int): Item {
    if g.border.Some? && Framed(i, g.size) then g.border.value else Blank
  }

  /** A slot the page may fill: it is not taken by a (non-blank) border. */
  predicate Free(g: Window, i: int) {
    Base(g, i).blockId == -1
  }

  /** How many free slots come before slot `i`: the page index slot `i`
      takes when it is free. */
  function Rank(g: Window, i: int): (r: nat)
    ensures r <= Max(i, 0)
    decreases i
  {
    if i <= 0 then 0 else Rank(g, i - 1) + (if Free(g, i - 1) then 1 else 0)
  }

  /** A slot after the page is laid out. */
  function Filled(g: Window, page: seq<Item>, i: int): Item {
    if Free(g, i) && Rank(g, i) < |page| then page[Rank(g, i)] else Base(g, i)
  }

  /** The previous-page button shows: it is set and this is not page 0. */
  predicate PrevShown(g: Window) {
    g.prev.Some? && g.page > 0
  }

  /** The next-page button shows: it is set and items remain after this
      page. */
  predicate NextShown(g: Window) {
    g.next.Some? && (g.page + 1) * g.perPage < |g.items|
  }

  /** What a button slot holds when its button does not show. */
  function Filler(g: Window): Item {
    if g.border.Some? then g.border.value else Blank
  }

  /** The slot `i` of the rendered window. */
  function Cell(g: Window, i: int): Item {
    if i == g.size - 4 then (if NextShown(g) then g.next.value else Filler(g))
    else if i == g.size - 5 then (if PrevShown(g) then g.prev.value else Filler(g))
    else Filled(g, PageItems(g), i)
  }

  /** The whole rendered window. */
  function Rendered(g: Window): (r: seq<Item>)
    ensures |r| == g.size && forall i :: 0 <= i < g.size ==> r[i] == Cell(g, i)
  {
    seq(g.size, i => Cell(g, i))
  }

  // ---------------------------------------------------------------------
  // Rendering

  /** `render`: blank slots, the border on the frame, the page's items in
      order in the free slots, then the two button slots. A button slot
      outside the window (a window of fewer than five slots) only names a
      property of the array and changes no slot. */
  method Render(g: Window) returns (out: seq<Item>)
    ensures |out| == g.size
    ensures forall i :: 0 <= i < g.size ==> out[i] == Cell(g, i)
  {
    var items := Frame(g);
    items := LayPage(g, items, PageItems(g));
    items := Write(items, g.size - 5, if PrevShown(g) then g.prev.value else Filler(g));
    items := Write(items, g.size - 4, if NextShown(g) then g.next.value else Filler(g));
    out := items;
  }

  /** The blank window with the border, if any, on its frame. */
  method Frame(g: Window) returns (items: seq<Item>)
    ensures |items| == g.size
    ensures forall j :: 0 <= j < g.size ==> items[j] == Base(g, j)
  {
    items := seq(g.size, _ => Blank);
    if g.border.Some? {
      var i := 0;
      while i < g.size
        invariant 0 <= i <= g.size && |items| == g.size
        invariant forall j :: 0 <= j < g.size ==> items[j] == (if j < i then Base(g, j) else Blank)
      {
        if i < 9 || i >= g.size - 9 || i % 9 == 0 || i % 9 == 8 {
          items := items[i := g.border.value];
        }
        i := i + 1;
      }
    }
  }

  /** The page's items, in order, into the slots the frame left blank. */
  method LayPage(g: Window, base: seq<Item>, page: seq<Item>) returns (items: seq<Item>)
    requires |base| == g.size && forall j :: 0 <= j < g.size ==> base[j] == Base(g, j)
    ensures |items| == g.size
    ensures forall j :: 0 <= j < g.size ==> items[j] == Filled(g, page, j)
  {
    items := base;
    var contentSlot := 0;
    var i := 0;
    while i < g.size
      invariant 0 <= i <= g.size && |items| == g.size
      invariant contentSlot == Min(Rank(g, i), |page|)
      invariant forall j :: 0 <= j < g.size ==> items[j] == (if j < i then Filled(g, page, j) else Base(g, j))
    {
      if items[i].blockId == -1 {
        if contentSlot < |page| {
          items := items[i := page[contentSlot]];
          contentSlot := contentSlot + 1;
        }
      }
      i := i + 1;
    }
  }

  /** Free slots take increasing page indices, so no page item fills two
      slots. */
  lemma {:induction false} RankIncreases(g: Window, i: int, j: int)
    requires 0 <= i < j && Free(g, i)
    ensures Rank(g, i) < Rank(g, j)
    decreases j
  {
    if j - 1 > i {
      RankIncreases(g, i, j - 1);
    }
  }

  /** Every page index below the number of free slots before `n` is taken
      by exactly one free slot before `n`. */
  lemma {:induction false} RankReaches(g: Window, n: int, k: nat)
    requires k < Rank(g, n)
    ensures exists i :: 0 <= i < n && Free(g, i) && Rank(g, i) == k
    decreases n
  {
    if k < Rank(g, n - 1) {
      RankReaches(g, n - 1, k);
    } else {
      assert Free(g, n - 1) && Rank(g, n - 1) == k;
    }
  }

  /** The page goes into the free slots in order: each of its first items,
      as many as there are free slots, lands in one free slot, and two
      free slots never show the same page position. */
  lemma PageLaidOutInOrder(g: Window, k: nat)
    requires k < |PageItems(g)| && k < Rank(g, g.size)
    ensures exists i :: 0 <= i < g.size && Free(g, i) && Filled(g, PageItems(g), i) == PageItems(g)[k]
                        && forall j :: 0 <= j < g.size && j != i && Free(g, j) ==> Rank(g, j) != k
  {
    RankReaches(g, g.size, k);
    var i :| 0 <= i < g.size && Free(g, i) && Rank(g, i) == k;
    forall j | 0 <= j < g.size && j != i && Free(g, j) ensures Rank(g, j) != k {
      if j < i { RankIncreases(g, j, i); } else { RankIncreases(g, i, j); }
    }
  }

  /** Without a border every slot is free, so slot `i` holds the page's
      item `i`. */
  lemma {:induction false} NoBorderRank(g: Window, i: nat)
    requires g.border.None?
    ensures Rank(g, i) == i
  {
    if i > 0 { NoBorderRank(g, i - 1); }
  }

  /** The rendered window without a border: the page from the first slot
      on, blank after it, and the button slots. */
  lemma NoBorderShowsPage(g: Window, i: int)
    requires g.border.None? && 0 <= i < g.size && i != g.size - 4 && i != g.size - 5
    ensures Cell(g, i) == (if i < |PageItems(g)| then PageItems(g)[i] else Blank)
  {
    NoBorderRank(g, i);
  }

  /** With a border, the frame shows it, except in the two button slots;
      any other slot shows the page's item of its rank, or nothing. */
  lemma BorderFramesWindow(g: Window, i: int)
    requires g.border.Some? && g.border.value.blockId != -1
    requires 0 <= i < g.size && i != g.size - 4 && i != g.size - 5
    ensures Framed(i, g.size) ==> Cell(g, i) == g.border.value
    ensures !Framed(i, g.size) ==> Cell(g, i) == (if Rank(g, i) < |PageItems(g)| then PageItems(g)[Rank(g, i)] else Blank)
  {
  }

  /** A new window shows blank slots only. */
  lemma CreatedIsBlank(title: string, size: nat)
    ensures forall i :: 0 <= i < size ==> Rendered(Create(title, size))[i] == Blank
  {
    var g := Create(title, size);
    assert Values(g.items) == [];
    assert PageItems(g) == [];
  }

  // ---------------------------------------------------------------------
  // The manager

  /** A reference to a `GUI` object. */
  type Ref = nat

  /** What `playerGuis` remembers for a player: the `GUI` object itself,
      not a copy, and the window id of its chest. */
  datatype Shown = Shown(gui: Ref, windowId: int)

  /** The manager's view of the plugins' windows: the `GUI` objects by
      reference and `playerGuis` by player uuid. Several players shown the
      same object share it, so a page turn or a `setItem` by any of them is
      what all of them see next. */
  datatype Manager = Manager(guis: map<Ref, Window>, shown: JsMap<string, Shown>)

  /** Every remembered reference names an object. */
  ghost predicate Closed(mgr: Manager) {
    forall u :: Get(mgr.shown, u).Some? ==> Get(mgr.shown, u).value.gui in mgr.guis
  }

  /** What the manager asks the server to do. */
  datatype Request =
    | Reject(windowId: int, action: int)
    | SetWindowItems(windowId: int, items: seq<Item>)

  /** `show(player, gui)` for the object at `ref`: `chest` is what opening
      the chest returned; a missing or zero window id shows nothing. */
  function Show(mgr: Manager, uuid: string, ref: Ref, chest: Option<int>): (r: (Manager, seq<Request>))
    requires Closed(mgr) && ref in mgr.guis
    ensures Closed(r.0) && r.0.guis == mgr.guis
    ensures chest.None? || chest.value == 0 ==> r == (mgr, [])
    ensures chest.Some? && chest.value != 0 ==>
              && Get(r.0.shown, uuid) == Some(Shown(ref, chest.value))
              && (forall u :: u != uuid ==> Get(r.0.shown, u) == Get(mgr.shown, u))
              && r.1 == [SetWindowItems(chest.value, Rendered(mgr.guis[ref]))]
  {
    if chest.None? || chest.value == 0 then (mgr, [])
    else
      var entry := Shown(ref, chest.value);
      SetThenGet(mgr.shown, uuid, entry);
      forall u | u != uuid ensures Get(Set(mgr.shown, uuid, entry), u) == Get(mgr.shown, u) {
        SetKeepsOthers(mgr.shown, uuid, entry, u);
      }
      (mgr.(shown := Set(mgr.shown, uuid, entry)), [SetWindowItems(chest.value, Rendered(mgr.guis[ref]))])
  }

  /** A plugin's call on a `GUI` object it holds (`setItem`, `onClick`,
      `addBorder`, `setPagination`): the object at `ref` becomes `g`. */
  function Edit(mgr: Manager, ref: Ref, g: Window): (r: Manager)
    requires Closed(mgr) && ref in mgr.guis
    ensures Closed(r) && r.shown == mgr.shown && r.guis.Keys == mgr.guis.Keys
    ensures r.guis[ref] == g && forall q :: q in mgr.guis && q != ref ==> r.guis[q] == mgr.guis[q]
  {
    mgr.(guis := mgr.guis[ref := g])
  }

  /** The window-click interceptor: a click in a shown window is refused
      and the window re-sent; a click on the previous button of a later
      page or the next button with items remaining moves the page of the
      shared object and re-sends again. Clicks by players shown nothing or
      in other windows change nothing. */
  function OnWindowClick(mgr: Manager, uuid: string, windowId: int, slot: int, action: int): (r: (Manager, seq<Request>))
    requires Closed(mgr)
    ensures Closed(r.0) && r.0.shown == mgr.shown && r.0.guis.Keys == mgr.guis.Keys
    ensures Get(mgr.shown, uuid).None? || Get(mgr.shown, uuid).value.windowId != windowId ==> r == (mgr, [])
    ensures Get(mgr.shown, uuid).Some? && Get(mgr.shown, uuid).value.windowId == windowId ==>
              var ref := Get(mgr.shown, uuid).value.gui;
              var g := mgr.guis[ref];
              && 2 <= |r.1| <= 3 && r.1[0] == Reject(windowId, action)
              && r.1[1] == SetWindowItems(windowId, Rendered(g))
              && r.1[|r.1| - 1] == SetWindowItems(windowId, Rendered(r.0.guis[ref]))
              && r.0.guis[ref] == g.(page := r.0.guis[ref].page)
              && (forall q :: q in mgr.guis && q != ref ==> r.0.guis[q] == mgr.guis[q])
              && (PrevShown(g) && slot == g.size - 5 ==> r.0.guis[ref].page == g.page - 1)
              && (!(PrevShown(g) && slot == g.size - 5) && NextShown(g) && slot == g.size - 4 ==>
                    r.0.guis[ref].page == g.page + 1)
              && (|r.1| == 3 <==> (PrevShown(g) && slot == g.size - 5) || (NextShown(g) && slot == g.size - 4))
  {
    match Get(mgr.shown, uuid)
    case None => (mgr, [])
    case Some(entry) =>
      if entry.windowId != windowId then (mgr, [])
      else
        var g := mgr.guis[entry.gui];
        var sent := [Reject(windowId, action), SetWindowItems(windowId, Rendered(g))];
        if g.prev.Some? && slot == g.size - 5 && g.page > 0 then
          Turn(mgr, entry, g.page - 1, sent)
        else if g.next.Some? && slot == g.size - 4 && (g.page + 1) * g.perPage < |g.items| then
          Turn(mgr, entry, g.page + 1, sent)
        else (mgr, sent)
  }

  /** Moves the shown object to `page` and re-sends it after `sent`. */
  function Turn(mgr: Manager, entry: Shown, page: int, sent: seq<Request>): (r: (Manager, seq<Request>))
    requires Closed(mgr) && entry.gui in mgr.guis
    ensures Closed(r.0) && r.0.shown == mgr.shown && r.0.guis.Keys == mgr.guis.Keys
    ensures r.0.guis[entry.gui] == mgr.guis[entry.gui].(page := page)
    ensures forall q :: q in mgr.guis && q != entry.gui ==> r.0.guis[q] == mgr.guis[q]
    ensures r.1 == sent + [SetWindowItems(entry.windowId, Rendered(mgr.guis[entry.gui].(page := page)))]
  {
    var moved := mgr.guis[entry.gui].(page := page);
    (mgr.(guis := mgr.guis[entry.gui := moved]), sent + [SetWindowItems(entry.windowId, Rendered(moved))])
  }

  /** Two players shown the same object see each other's page turns: after
      one of them clicks, the other's window is the clicker's window. */
  lemma SharedPageTurn(mgr: Manager, uuid: string, other: string, windowId: int, slot: int, action: int)
    requires Closed(mgr) && Get(mgr.shown, uuid).Some? && Get(mgr.shown, other).Some?
    requires Get(mgr.shown, other).value.gui == Get(mgr.shown, uuid).value.gui
    ensures var r := OnWindowClick(mgr, uuid, windowId, slot, action).0;
            && Get(r.shown, other) == Get(mgr.shown, other)
            && r.guis[Get(r.shown, other).value.gui] == r.guis[Get(r.shown, uuid).value.gui]
  {
  }

  /** A change a plugin makes to a shown object reaches every player shown
      it: their next click in the window re-sends the changed window. */
  lemma EditSeenByViewers(mgr: Manager, ref: Ref, g: Window, uuid: string, slot: int, action: int)
    requires Closed(mgr) && ref in mgr.guis
    requires Get(mgr.shown, uuid).Some? && Get(mgr.shown, uuid).value.gui == ref
    ensures var w := Get(mgr.shown, uuid).value.windowId;
            OnWindowClick(Edit(mgr, ref, g), uuid, w, slot, action).1[1] == SetWindowItems(w, Rendered(g))
  {
  }

  /** A page change is a step of one, down only from a later page and up
      only into a page that has items, so the page never goes negative. */
  lemma PageStaysValid(mgr: Manager, uuid: string, windowId: int, slot: int, action: int)
    requires Closed(mgr) && Get(mgr.shown, uuid).Some?
    requires mgr.guis[Get(mgr.shown, uuid).value.gui].page >= 0
    ensures var ref := Get(mgr.shown, uuid).value.gui;
            var g := mgr.guis[ref];
            var g' := OnWindowClick(mgr, uuid, windowId, slot, action).0.guis[ref];
            && g'.page >= 0
            && (g'.page == g.page - 1 ==> g.prev.Some? && slot == g.size - 5)
            && (g'.page == g.page + 1 ==> g.next.Some? && slot == g.size - 4 && (g.perPage > 0 ==> PageItems(g') != []))
            && (g'.page == g.page || g'.page == g.page - 1 || g'.page == g.page + 1)
  {
    var ref := Get(mgr.shown, uuid).value.gui;
    var g := mgr.guis[ref];
    var g' := OnWindowClick(mgr, uuid, windowId, slot, action).0.guis[ref];
    if g'.page == g.page + 1 && g.perPage > 0 {
      var vs := Values(g'.items);
      assert g'.items == g.items;
      assert 0 <= g'.page * g.perPage < |vs|;
      assert (g'.page + 1) * g.perPage > g'.page * g.perPage;
      assert |PageItems(g')| > 0;
    }
  }

  /** Next, then previous, brings the manager back to where it was. */
  lemma NextThenPrev(mgr: Manager, uuid: string, windowId: int, a1: int, a2: int)
    requires Closed(mgr) && Get(mgr.shown, uuid).Some? && Get(mgr.shown, uuid).value.windowId == windowId
    requires var g := mgr.guis[Get(mgr.shown, uuid).value.gui]; g.prev.Some? && NextShown(g) && g.page >= 0
    ensures var g := mgr.guis[Get(mgr.shown, uuid).value.gui];
            var s1 := OnWindowClick(mgr, uuid, windowId, g.size - 4, a1).0;
            var s2 := OnWindowClick(s1, uuid, windowId, g.size - 5, a2).0;
            s2 == mgr
  {
    var entry := Get(mgr.shown, uuid).value;
    var g := mgr.guis[entry.gui];
    var s1 := OnWindowClick(mgr, uuid, windowId, g.size - 4, a1).0;
    assert s1 == mgr.(guis := mgr.guis[entry.gui := g.(page := g.page + 1)]);
    var s2 := OnWindowClick(s1, uuid, windowId, g.size - 5, a2).0;
    assert s2 == mgr.(guis := mgr.guis[entry.gui := g]);
    assert mgr.guis[entry.gui := g] == mgr.guis;
  }
}
