/** The session's record of the game world, as far as its own helpers go:
    colour-code stripping, angle bytes, chat-component flattening, the
    split of a block position into chunk and offset, the reset state, and
    the player lookups. Packet dispatch into the per-topic handlers is not
    part of this model. */
module GameState {
  import opened Common
  import opened JsMaps
  import opened Inventory

  // ---------------------------------------------------------------------
  // Colour codes

  /** The characters a regular expression's `.` does not match. */
  predicate LineTerminator(c: char) {
    c == '\n' || c == '\r' || c == '\U{2028}' || c == '\U{2029}'
  }

  /** A colour code starts at `i`: `§` and a character `.` matches. */
  predicate CodeAt(s: string, i: int) {
    0 <= i && i + 1 < |s| && s[i] == '§' && !LineTerminator(s[i + 1])
  }

  /** No colour code anywhere. */
  predicate Plain(s: string) {
    forall i :: 0 <= i < |s| ==> !CodeAt(s, i)
  }

  /** `str.replace(/§./g, '')`: scanning left to right, every `§` with the
      character after it is removed. A `§` at the end or before a line
      break stays. */
  function Strip(s: string): (r: string)
    ensures |r| <= |s|
    decreases |s|
  {
    if s == [] then []
    else if CodeAt(s, 0) then Strip(s[2..])
    else [s[0]] + Strip(s[1..])
  }

  /** A string with no code is its own stripped form. */
  lemma {:induction false} PlainIsStripped(s: string)
    requires Plain(s)
    ensures Strip(s) == s
    decreases |s|
  {
    if s != [] {
      assert !CodeAt(s, 0);
      assert Plain(s[1..]) by {
        forall i | 0 <= i < |s[1..]| ensures !CodeAt(s[1..], i) {
          assert !CodeAt(s, i + 1);
        }
      }
      PlainIsStripped(s[1..]);
    }
  }

  /** Stripping leaves no code behind, although it can bring a `§` and a
      character together (`§§a` leaves `a`, not a code). */
  lemma {:induction false} StrippedIsPlain(s: string)
    ensures Plain(Strip(s))
    decreases |s|
  {
    if s != [] {
      if CodeAt(s, 0) {
        StrippedIsPlain(s[2..]);
      } else {
        StrippedIsPlain(s[1..]);
        var t := Strip(s[1..]);
        var r := [s[0]] + t;
        assert r == Strip(s);
        if |s| >= 2 && s[0] == '§' {
          // a kept `§` before a line break: the break is kept right after it
          assert !CodeAt(s[1..], 0) by { assert s[1..][0] == s[1]; }
          assert t == [s[1]] + Strip(s[2..]) by { assert s[1..][1..] == s[2..]; }
        }
        forall i | 0 <= i < |r| ensures !CodeAt(r, i) {
          if i > 0 {
            assert !CodeAt(t, i - 1);
          }
        }
      }
    }
  }

  /** Stripping changes a string exactly when it holds a code, so doing it
      twice is doing it once. */
  lemma StripIdempotent(s: string)
    ensures Strip(s) == s <==> Plain(s)
    ensures Strip(Strip(s)) == Strip(s)
  {
    StrippedIsPlain(s);
    PlainIsStripped(Strip(s));
    if Plain(s) { PlainIsStripped(s); }
  }

  /** A JavaScript value handed to `stripColorCodes`. */
  datatype JsValue = JsString(s: string) | NotAString(tag: int)

  /** `stripColorCodes`: a string loses its codes; anything else is returned
      as it is. */
  function StripColorCodes(v: JsValue): (r: JsValue)
    ensures !v.JsString? ==> r == v
    ensures v.JsString? ==> r.JsString? && Plain(r.s) && |r.s| <= |v.s|
  {
    match v
    case JsString(s) =>
      StrippedIsPlain(s);
      JsString(Strip(s))
    case NotAString(_) => v
  }

  // ---------------------------------------------------------------------
  // Angles

  /** `byteToYaw`: a byte counts 256ths of a full turn. Floating-point
      rounding is not modelled. */
  function ByteToYaw(b: int): (r: real)
    ensures 0 <= b < 256 ==> 0.0 <= r < 360.0
    ensures r * 256.0 / 360.0 == b as real
  {
    (b as real / 256.0) * 360.0
  }

  /** `byteToPitch`: the byte read as a signed 8-bit number, in 128ths of
      a right angle. */
  function ByteToPitch(b: int): (r: real)
    ensures 0 <= b < 256 ==> -90.0 <= r < 90.0
    ensures 0 <= b < 256 ==>
              var s := (r * 128.0 / 90.0).Floor;
              && s as real == r * 128.0 / 90.0
              && -128 <= s < 128 && (b - s) % 256 == 0
  {
    var signed := if b > 127 then b - 256 else b;
    signed as real * (90.0 / 128.0)
  }

  // ---------------------------------------------------------------------
  // Chat components

  /** A chat component as `extractText` sees it: a string, a falsy value,
      or an object with a `text` (the empty string stands for a missing or
      falsy one) and an `extra` field, which counts only when it is an
      array. */
  datatype Component = Str(s: string) | Falsy | Obj(text: string, extra: Extra)
  datatype Extra = NoExtra | NotArray | Arr(items: seq<Component>)

  /** The text a component shows: its own text, then each child's in
      order. */
  function Text(c: Component): string
    decreases c, 1
  {
    match c
    case Str(s) => s
    case Falsy => ""
    case Obj(t, e) => if e.Arr? then t + TextAll(e.items, c) else t
  }

  /** The children's texts, concatenated. `parent` holds them (it bounds
      the recursion). */
  function TextAll(xs: seq<Component>, parent: Component): string
    requires forall i :: 0 <= i < |xs| ==> xs[i] < parent
    decreases parent, 0, |xs|
  {
    if xs == [] then ""
    else
      TextAll(xs[..|xs| - 1], parent) + Text(xs[|xs| - 1])
  }

  /** `extractText`, with the loop of the source. */
  method ExtractText(c: Component) returns (text: string)
    ensures text == Text(c)
    decreases c
  {
    match c
    case Str(s) => return s;
    case Falsy => return "";
    case Obj(t, e) =>
      text := t;
      if e.Arr? {
        var xs := e.items;
        var i := 0;
        while i < |xs|
          invariant 0 <= i <= |xs|
          invariant text == t + TextAll(xs[..i], c)
        {
          var part := ExtractText(xs[i]);
          assert xs[..i + 1][..i] == xs[..i];
          text := text + part;
          i := i + 1;
        }
        assert xs[..|xs|] == xs;
      }
  }

  // ---------------------------------------------------------------------
  // Chunks and blocks

  /** A stored chunk column. Its block lookup `chunk.get` is not part of
      this model. */
  datatype Chunk = Chunk(id: int)

  /** The lookup `getBlock` hands to the chunk: the column and the
      position inside it. */
  datatype BlockAt = BlockAt(chunk: Chunk, x: int, y: int, z: int)

  /** `2^k`. */
  function Pow2(k: nat): (r: nat)
    ensures r >= 1
  {
    if k == 0 then 1 else 2 * Pow2(k - 1)
  }

  /** The low `n` bits of the bitwise AND of `a` and `b`, bit by bit. */
  function BitAnd(a: nat, b: nat, n: nat): (r: nat)
    ensures r < Pow2(n)
  {
    if n == 0 then 0
    else (if a % 2 == 1 && b % 2 == 1 then 1 else 0) + 2 * BitAnd(a / 2, b / 2, n - 1)
  }

  /** `x & 15` on a number holding the integer `x`: the number is wrapped
      to 32 bits and its low four bits kept. */
  function Low4(x: int): (r: int)
    ensures 0 <= r < Pow2(32)
  {
    BitAnd(x % 0x1_0000_0000, 15, 32)
  }

  /** AND with nothing is nothing. */
  lemma {:induction false} BitAndZero(a: nat, n: nat)
    ensures BitAnd(a, 0, n) == 0
  {
    if n > 0 { BitAndZero(a / 2, n - 1); }
  }

  lemma MulMono(d: int, m: int)
    requires m > 0 && d >= 1
    ensures d * m >= m
  {}

  /** Quotient and remainder are the only ones. */
  lemma ModUnique(a: int, m: int, q: int, r: int)
    requires m > 0 && a == q * m + r && 0 <= r < m
    ensures a % m == r && a / m == q
  {
    var q', r' := a / m, a % m;
    assert a == q' * m + r';
    if q > q' { MulMono(q - q', m); }
    if q < q' { MulMono(q' - q, m); }
  }

  /** Halving and the lowest bit put a number back together modulo a
      power of two. */
  lemma ModHalves(a: nat, k: nat)
    requires k > 0
    ensures a % Pow2(k) == a % 2 + 2 * ((a / 2) % Pow2(k - 1))
  {
    var p := Pow2(k - 1);
    var q := (a / 2) / p;
    var r := (a / 2) % p;
    assert a / 2 == q * p + r;
    assert a == 2 * (a / 2) + a % 2;
    assert a == (2 * q * p) + (2 * r + a % 2);
    assert a == q * Pow2(k) + (2 * r + a % 2);
    ModUnique(a, Pow2(k), q, 2 * r + a % 2);
  }

  /** A mask of `k` ones is odd, and halving it leaves `k - 1` ones. */
  lemma HalveMask(k: nat)
    requires k > 0
    ensures (Pow2(k) - 1) % 2 == 1 && (Pow2(k) - 1) / 2 == Pow2(k - 1) - 1
  {
    ModUnique(Pow2(k) - 1, 2, Pow2(k - 1) - 1, 1);
  }

  /** Against an odd number the lowest bit of the AND is the other
      number's lowest bit. */
  lemma BitAndOddStep(a: nat, m: nat, n: nat)
    requires n > 0 && m % 2 == 1
    ensures BitAnd(a, m, n) == a % 2 + 2 * BitAnd(a / 2, m / 2, n - 1)
  {
  }

  /** One more bit of mask keeps one more low bit. */
  lemma MaskStep(a: nat, k: nat, n: nat)
    requires 0 < k <= n
    requires BitAnd(a / 2, Pow2(k - 1) - 1, n - 1) == (a / 2) % Pow2(k - 1)
    ensures BitAnd(a, Pow2(k) - 1, n) == a % Pow2(k)
  {
    var m := Pow2(k) - 1;
    var lo := (a / 2) % Pow2(k - 1);
    HalveMask(k);
    BitAndOddStep(a, m, n);
    ModHalves(a, k);
    assert BitAnd(a, m, n) == a % 2 + 2 * lo;
  }

  /** AND with a mask of `k` ones keeps the lowest `k` bits. */
  lemma {:induction false} BitAndMask(a: nat, k: nat, n: nat)
    requires k <= n
    ensures BitAnd(a, Pow2(k) - 1, n) == a % Pow2(k)
  {
    if k == 0 {
      BitAndZero(a, n);
      assert Pow2(k) == 1 && a % 1 == 0;
    } else {
      BitAndMask(a / 2, k - 1, n - 1);
      MaskStep(a, k, n);
    }
  }

  /** `Math.floor(x / 16)`. */
  function ChunkOf(x: int): int {
    ((x as real) / 16.0).Floor
  }

  /** The chunk index and the offset put the coordinate back together. */
  lemma SplitRecombines(x: int)
    ensures ChunkOf(x) * 16 + Low4(x) == x
    ensures ChunkOf(x) == x / 16 && Low4(x) == x % 16
  {
    var u := x % 0x1_0000_0000;
    assert Pow2(4) - 1 == 15;
    BitAndMask(u, 4, 32);
    WrapKeepsLowBits(x);
    FloorOfSixteenth(x);
  }

  /** Wrapping to 32 bits keeps the remainder by 16. */
  lemma WrapKeepsLowBits(x: int)
    ensures (x % 0x1_0000_0000) % 16 == x % 16
  {
    var u := x % 0x1_0000_0000;
    var q := x / 0x1_0000_0000;
    assert x == q * 0x1_0000_0000 + u;
    assert u == (u / 16) * 16 + u % 16;
    assert x == (q * 0x1000_0000 + u / 16) * 16 + u % 16;
    ModUnique(x, 16, q * 0x1000_0000 + u / 16, u % 16);
  }

  /** The real quotient floors to the integer one. */
  lemma FloorOfSixteenth(x: int)
    ensures ChunkOf(x) == x / 16
  {
    var c := x / 16;
    assert (x as real) / 16.0 == c as real + ((x % 16) as real) / 16.0;
  }

  /** `getBlock(x, y, z)` for integer coordinates. Chunks are keyed by the
      pair of chunk indices (the source's key string is that pair written
      out, which is different for different pairs). */
  function GetBlock(chunks: map<(int, int), Chunk>, x: int, y: int, z: int): (r: Option<BlockAt>)
    ensures r.None? <==> (x / 16, z / 16) !in chunks
    ensures r.Some? ==> && r.value.chunk == chunks[(x / 16, z / 16)]
                        && r.value.y == y
                        && (x / 16) * 16 + r.value.x == x && 0 <= r.value.x < 16
                        && (z / 16) * 16 + r.value.z == z && 0 <= r.value.z < 16
  {
    SplitRecombines(x);
    SplitRecombines(z);
    var key := (ChunkOf(x), ChunkOf(z));
    if key !in chunks then None
    else Some(BlockAt(chunks[key], Low4(x), y, Low4(z)))
  }

  // ---------------------------------------------------------------------
  // State and lookups

  datatype Pos = Pos(x: real, y: real, z: real, yaw: real, pitch: real)

  /** A player-list entry. */
  datatype Info = Info(name: string, displayName: string)

  /** A scoreboard team: prefix, suffix and member names. */
  datatype Team = Team(prefix: string, suffix: string, players: set<string>)

  /** The session's world record. Entity and scoreboard entries are filled
      by handlers that are not part of this model; only their tables'
      emptiness matters here. */
  datatype World = World(
    loginSeen: bool,
    playerInfo: JsMap<string, Info>,
    teams: JsMap<string, Team>,
    entities: JsMap<int, Pos>,
    entityIdToUuid: JsMap<int, string>,
    uuidToEntityId: JsMap<string, int>,
    scoreboards: JsMap<string, string>,
    position: Pos,
    lastPosition: Pos,
    health: real,
    inventory: PlayerInventory,
    chunks: map<(int, int), Chunk>)

  /** `reset()`: no login, every table empty, at the origin with full
      health, and the 45 inventory slots and the cursor empty with the
      first hotbar slot held; the inventory is the one the mirror starts
      from. */
  function Reset(): (w: World)
    ensures !w.loginSeen && w.health == 20.0
    ensures w.playerInfo == [] && w.teams == [] && w.entities == [] && w.scoreboards == []
    ensures w.entityIdToUuid == [] && w.uuidToEntityId == [] && w.chunks == map[]
    ensures w.position == Pos(0.0, 0.0, 0.0, 0.0, 0.0) && w.lastPosition == w.position
    ensures forall i :: i in w.inventory.slots <==> 0 <= i < 45
    ensures forall i :: 0 <= i < 45 ==> w.inventory.slots[i] == Empty
    ensures w.inventory.cursor == Empty && w.inventory.held == 0
    ensures w.inventory == Initial().inventory
  {
    var origin := Pos(0.0, 0.0, 0.0, 0.0, 0.0);
    World(false, [], [], [], [], [], [], origin, origin, 20.0, PlayerInventory(Blank(45), Empty, 0, Missing), map[])
  }

  /** `getPlayerByName`: the first entry, in insertion order, whose name
      matches; its uuid and record. */
  method PlayerByName(info: JsMap<string, Info>, name: string) returns (r: Option<(string, Info)>)
    ensures r.None? <==> forall j :: 0 <= j < |info| ==> info[j].value.name != name
    ensures r.Some? ==> exists i :: && 0 <= i < |info| && info[i] == Entry(r.value.0, r.value.1)
                                    && info[i].value.name == name
                                    && forall j :: 0 <= j < i ==> info[j].value.name != name
  {
    var i := 0;
    while i < |info|
      invariant 0 <= i <= |info|
      invariant forall j :: 0 <= j < i ==> info[j].value.name != name
    {
      if info[i].value.name == name {
        return Some((info[i].key, info[i].value));
      }
      i := i + 1;
    }
    return None;
  }

  /** What `getPlayerByEntityId` returns: the uuid, the entity id and the
      player-list record. */
  datatype Found = Found(uuid: string, entityId: int, info: Info)

  /** `getPlayerByEntityId`: the entity's uuid, which must be a non-empty
      string, and that uuid's player-list record. */
  function PlayerByEntityId(w: World, entityId: int): (r: Option<Found>)
    ensures r.Some? ==> && Get(w.entityIdToUuid, entityId) == Some(r.value.uuid) && r.value.uuid != ""
                        && Get(w.playerInfo, r.value.uuid) == Some(r.value.info)
                        && r.value.entityId == entityId
    ensures r.None? ==> || Get(w.entityIdToUuid, entityId).None?
                        || Get(w.entityIdToUuid, entityId) == Some("")
                        || Get(w.playerInfo, Get(w.entityIdToUuid, entityId).value).None?
  {
    match Get(w.entityIdToUuid, entityId)
    case None => None
    case Some(uuid) =>
      if uuid == "" then None
      else match Get(w.playerInfo, uuid)
        case None => None
        case Some(info) => Some(Found(uuid, entityId, info))
  }

  /** After a reset no player is found, by entity id or by name. */
  method ResetForgetsPlayers(entityId: int, name: string) returns (byName: Option<(string, Info)>)
    ensures PlayerByEntityId(Reset(), entityId).None?
    ensures byName.None?
  {
    byName := PlayerByName(Reset().playerInfo, name);
  }
}
